/** The event-stream grammar of the WHATWG HTML Standard, sections 9.2.5 and 9.2.6,
    as a reference for the incremental decoder: split the bytes into lines, collect
    non-empty lines, dispatch them at each blank line, discard an unterminated tail.
    The 1 MiB frame limit is part of the reference; the byte-order mark is not. */
module SseGrammar {
  import opened Wrappers

  newtype Byte = b: int | 0 <= b < 256
  type Bytes = seq<Byte>

  const CR: Byte := 13
  const LF: Byte := 10
  const SPACE: Byte := 32
  const COLON: Byte := 58
  const DATA: Bytes := [100, 97, 116, 97]
  const EVENT: Bytes := [101, 118, 101, 110, 116]
  const MESSAGE: Bytes := [109, 101, 115, 115, 97, 103, 101]

  const MAX_SSE_FRAME_SIZE: nat := 1_048_576
  const MAX_SSE_DELIMITER_PREFIX: nat := 3

  datatype Error = FrameTooLarge | InvalidUtf8 | InvalidJson | Transport

  datatype Item<E> = Event(event: E, sourceBytes: nat) | Failure(error: Error)

  /** UTF-8 validation and JSON decoding, of which nothing is assumed. */
  datatype Codec<!E> = Codec(utf8: Bytes -> bool, json: Bytes -> Option<E>)

  predicate IsEol(b: Byte) { b == CR || b == LF }

  /** The length of the line ending that starts at `i`. */
  function EolLength(s: Bytes, i: nat): (n: nat)
    requires i < |s| && IsEol(s[i])
    ensures 1 <= n <= 2 && i + n <= |s|
  {
    if s[i] == CR && i + 1 < |s| && s[i + 1] == LF then 2 else 1
  }

  /** Where the first line of `s` stops. */
  function NextEol(s: Bytes): (n: nat)
    ensures n <= |s|
    ensures forall k :: 0 <= k < n ==> !IsEol(s[k])
    ensures n < |s| ==> IsEol(s[n])
  {
    if s == [] || IsEol(s[0]) then 0 else 1 + NextEol(s[1..])
  }

  datatype Line = Line(text: Bytes, eol: Bytes)

  datatype Split = Split(lines: seq<Line>, tail: Bytes)

  /** Terminated lines, and the unterminated bytes after the last of them. */
  function SplitLines(s: Bytes): Split
    decreases |s|
  {
    var n := NextEol(s);
    if n == |s| then
      Split([], s)
    else
      var m := n + EolLength(s, n);
      var rest := SplitLines(s[m..]);
      Split([Line(s[..n], s[n..m])] + rest.lines, rest.tail)
  }

  /** One step of `SplitLines`. */
  lemma SplitFirst(s: Bytes, text: Bytes, eol: Bytes, rest: Bytes)
    requires NextEol(s) < |s|
    requires var n := NextEol(s); var m := n + EolLength(s, n); text == s[..n] && eol == s[n..m] && rest == s[m..]
    ensures SplitLines(s) == Split([Line(text, eol)] + SplitLines(rest).lines, SplitLines(rest).tail)
  {
  }

  lemma {:induction false} SplitIsLossless(s: Bytes)
    ensures LinesBytes(SplitLines(s).lines) + SplitLines(s).tail == s
    decreases |s|
  {
    var n := NextEol(s);
    if n == |s| {
      assert SplitLines(s) == Split([], s) && LinesBytes([]) + s == s;
    } else {
      var m := n + EolLength(s, n);
      SplitIsLossless(s[m..]);
      SplitFirst(s, s[..n], s[n..m], s[m..]);
      Reassemble(s, n, m, SplitLines(s[m..]), SplitLines(s));
    }
  }

  lemma Reassemble(s: Bytes, n: nat, m: nat, rest: Split, whole: Split)
    requires n <= m <= |s| && LinesBytes(rest.lines) + rest.tail == s[m..]
    requires whole == Split([Line(s[..n], s[n..m])] + rest.lines, rest.tail)
    ensures LinesBytes(whole.lines) + whole.tail == s
  {
  }

  lemma LinesBytesCons(line: Line, lines: seq<Line>)
    ensures LinesBytes([line] + lines) == line.text + line.eol + LinesBytes(lines)
  {
  }

  function LinesBytes(lines: seq<Line>): Bytes {
    if lines == [] then [] else lines[0].text + lines[0].eol + LinesBytes(lines[1..])
  }

  function Texts(lines: seq<Line>): (r: seq<Bytes>)
    ensures |r| == |lines|
  {
    if lines == [] then [] else [lines[0].text] + Texts(lines[1..])
  }

  /** The bytes of a group of lines without the last line's ending. */
  function Body(lines: seq<Line>): Bytes
    requires lines != []
  {
    LinesBytes(lines[..|lines| - 1]) + lines[|lines| - 1].text
  }

  datatype Fields = Fields(kind: Option<Bytes>, data: seq<Bytes>)

  /** One line of a group: a comment, an `event`, a `data` or an ignored field. */
  function ApplyLine(fields: Fields, line: Bytes): Fields {
    if line == [] || line[0] == COLON then
      fields
    else
      var colon := Find(line, COLON);
      var field := line[..colon];
      var value := if colon == |line| then [] else StripSpace(line[colon + 1..]);
      if field == EVENT then fields.(kind := Some(value))
      else if field == DATA then fields.(data := fields.data + [value])
      else fields
  }

  function Find(s: Bytes, b: Byte): (n: nat)
    ensures n <= |s|
  {
    if s == [] || s[0] == b then 0 else 1 + Find(s[1..], b)
  }

  function StripSpace(s: Bytes): Bytes {
    if s != [] && s[0] == SPACE then s[1..] else s
  }

  function CollectFields(lines: seq<Bytes>): Fields {
    if lines == [] then Fields(None, [])
    else ApplyLine(CollectFields(lines[..|lines| - 1]), lines[|lines| - 1])
  }

  function Join(data: seq<Bytes>): Bytes {
    if data == [] then []
    else if |data| == 1 then data[0]
    else data[0] + [LF] + Join(data[1..])
  }

  datatype Parsed<E> = Ignored | Decoded(event: E) | Rejected(error: Error)

  /** The outcome of a group with the given bytes and lines. */
  function Interpret<E>(codec: Codec<E>, body: Bytes, lines: seq<Bytes>): Parsed<E> {
    if !codec.utf8(body) then
      Rejected(InvalidUtf8)
    else
      var fields := CollectFields(lines);
      if (fields.kind.Some? && fields.kind.value != MESSAGE) || fields.data == [] then
        Ignored
      else
        match codec.json(Join(fields.data))
        case Some(event) => Decoded(event)
        case None => Rejected(InvalidJson)
  }

  /** An unterminated group is too large as soon as no line ending can follow its
      first `MAX_SSE_FRAME_SIZE` bytes. */
  predicate OversizeTail(pending: seq<Line>, tail: Bytes) {
    if tail != [] then |LinesBytes(pending)| + |tail| > MAX_SSE_FRAME_SIZE
    else pending != [] && |Body(pending)| > MAX_SSE_FRAME_SIZE
  }

  /** What a group delivers, followed by `rest`. Nothing follows a failure. */
  function Deliver<E>(codec: Codec<E>, body: Bytes, lines: seq<Bytes>, sourceBytes: nat, rest: seq<Item<E>>): seq<Item<E>> {
    if |body| > MAX_SSE_FRAME_SIZE then
      [Failure(FrameTooLarge)]
    else
      match Interpret(codec, body, lines)
      case Ignored => rest
      case Decoded(event) => [Event(event, sourceBytes)] + rest
      case Rejected(error) => [Failure(error)]
  }

  /** Dispatches `lines`, with the group collected so far in `pending`. */
  function Dispatch<E>(codec: Codec<E>, lines: seq<Line>, pending: seq<Line>, tail: Bytes): seq<Item<E>>
    decreases |lines|
  {
    if lines == [] then
      if OversizeTail(pending, tail) then [Failure(FrameTooLarge)] else []
    else if lines[0].text != [] then
      Dispatch(codec, lines[1..], pending + [lines[0]], tail)
    else if pending == [] then
      Dispatch(codec, lines[1..], [], tail)
    else
      Deliver(codec, Body(pending), Texts(pending), |LinesBytes(pending)| + 1,
              Dispatch(codec, lines[1..], [], tail))
  }

  /** What a stream of bytes delivers. */
  function Reference<E>(codec: Codec<E>, stream: Bytes): seq<Item<E>> {
    var split := SplitLines(stream);
    Dispatch(codec, split.lines, [], split.tail)
  }
}
