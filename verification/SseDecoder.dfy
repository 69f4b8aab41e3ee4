/** The incremental decoder and its agreement with the reference grammar. */
module SseDecoder {
  import opened Wrappers
  import opened SseGrammar
  import opened SseFraming

  // ---------- parse_frame ----------

  /** `replace("\r\n", "\n")`. */
  function ReplaceCrLf(s: Bytes): Bytes {
    if s == [] then []
    else if |s| >= 2 && s[0] == CR && s[1] == LF then [LF] + ReplaceCrLf(s[2..])
    else [s[0]] + ReplaceCrLf(s[1..])
  }

  /** `replace('\r', "\n")`. */
  function ReplaceCr(s: Bytes): Bytes {
    if s == [] then [] else [if s[0] == CR then LF else s[0]] + ReplaceCr(s[1..])
  }

  /** `lines` on text without carriage returns: an empty last piece is dropped. */
  function StrLines(s: Bytes): seq<Bytes>
    decreases |s|
  {
    if s == [] then []
    else
      var n := Find(s, LF);
      if n == |s| then [s] else [s[..n]] + StrLines(s[n + 1..])
  }

  function FrameLines(frame: Bytes): seq<Bytes> {
    StrLines(ReplaceCr(ReplaceCrLf(frame)))
  }

  method ParseFrame<E>(codec: Codec<E>, frame: Bytes) returns (parsed: Parsed<E>)
    ensures parsed == Interpret(codec, frame, FrameLines(frame))
  {
    if !codec.utf8(frame) {
      return Rejected(InvalidUtf8);
    }
    var lines := FrameLines(frame);
    var kind: Option<Bytes> := None;
    var data: seq<Bytes> := [];
    for i := 0 to |lines|
      invariant Fields(kind, data) == CollectFields(lines[..i])
    {
      assert lines[..i + 1][..i] == lines[..i];
      var line := lines[i];
      if line == [] || line[0] == COLON {
        continue;
      }
      var colon := Find(line, COLON);
      var value := if colon == |line| then [] else StripSpace(line[colon + 1..]);
      if line[..colon] == EVENT {
        kind := Some(value);
      } else if line[..colon] == DATA {
        data := data + [value];
      }
    }
    assert lines[..|lines|] == lines;
    if (kind.Some? && kind.value != MESSAGE) || data == [] {
      return Ignored;
    }
    match codec.json(Join(data)) {
      case Some(event) => parsed := Decoded(event);
      case None => parsed := Rejected(InvalidJson);
    }
  }

  predicate NoEol(s: Bytes) {
    forall k :: 0 <= k < |s| ==> !IsEol(s[k])
  }

  /** A non-empty line as `SplitLines` produces it. */
  predicate GoodLine(line: Line) {
    line.text != [] && NoEol(line.text) && line.eol in {[CR], [LF], [CR, LF]}
  }

  predicate GoodLines(lines: seq<Line>) {
    forall k :: 0 <= k < |lines| ==> GoodLine(lines[k])
  }

  lemma {:induction false} ReplaceCrLfText(text: Bytes, rest: Bytes)
    requires NoEol(text)
    ensures ReplaceCrLf(text + rest) == text + ReplaceCrLf(rest)
  {
    if text == [] {
      assert text + rest == rest;
    } else {
      ReplaceCrLfText(text[1..], rest);
      var all := text + rest;
      assert all[1..] == text[1..] + rest;
      assert text == [text[0]] + text[1..];
    }
  }

  lemma {:induction false} ReplaceCrText(text: Bytes, rest: Bytes)
    requires NoEol(text)
    ensures ReplaceCr(text + rest) == text + ReplaceCr(rest)
  {
    if text == [] {
      assert text + rest == rest;
    } else {
      ReplaceCrText(text[1..], rest);
      var all := text + rest;
      assert all[1..] == text[1..] + rest;
      assert text == [text[0]] + text[1..];
    }
  }

  lemma NormaliseText(text: Bytes, rest: Bytes)
    requires NoEol(text)
    ensures ReplaceCr(ReplaceCrLf(text + rest)) == text + ReplaceCr(ReplaceCrLf(rest))
  {
    ReplaceCrLfText(text, rest);
    ReplaceCrText(text, ReplaceCrLf(rest));
  }

  lemma NormaliseEol(eol: Bytes, rest: Bytes)
    requires eol in {[CR], [LF], [CR, LF]} && rest != [] && !IsEol(rest[0])
    ensures ReplaceCr(ReplaceCrLf(eol + rest)) == [LF] + ReplaceCr(ReplaceCrLf(rest))
  {
  }

  lemma {:induction false} FindSkips(text: Bytes, rest: Bytes)
    requires NoEol(text)
    ensures Find(text + rest, LF) == |text| + Find(rest, LF)
  {
    if text == [] {
      assert text + rest == rest;
    } else {
      assert (text + rest)[0] == text[0];
      assert (text + rest)[1..] == text[1..] + rest;
      FindSkips(text[1..], rest);
    }
  }

  lemma StrLinesCons(text: Bytes, rest: Bytes)
    requires NoEol(text)
    ensures StrLines(text + [LF] + rest) == [text] + StrLines(rest)
  {
    var all := text + ([LF] + rest);
    assert text + [LF] + rest == all;
    FindSkips(text, [LF] + rest);
    assert all[..|text|] == text;
    assert all[|text| + 1..] == rest;
  }

  lemma BodyCons(line: Line, lines: seq<Line>)
    requires lines != []
    ensures Body([line] + lines) == line.text + line.eol + Body(lines)
  {
    var all := [line] + lines;
    assert all[..|all| - 1] == [line] + lines[..|lines| - 1];
    LinesBytesCons(line, lines[..|lines| - 1]);
    assert all[|all| - 1] == lines[|lines| - 1];
  }

  lemma BodyStart(lines: seq<Line>)
    requires lines != [] && GoodLines(lines)
    ensures Body(lines) != [] && !IsEol(Body(lines)[0])
  {
  }

  /** Splitting the bytes of a group again recovers the group's lines. */
  lemma {:induction false} FrameLinesOfGroup(lines: seq<Line>)
    requires lines != [] && GoodLines(lines)
    ensures FrameLines(Body(lines)) == Texts(lines)
    decreases |lines|
  {
    var first, rest := lines[0], lines[1..];
    assert GoodLine(first);
    var text := first.text;
    if rest == [] {
      assert Body(lines) == text;
      NormaliseText(text, []);
      assert text + [] == text;
      FindSkips(text, []);
    } else {
      assert lines == [first] + rest;
      assert GoodLines(rest);
      BodyCons(first, rest);
      BodyStart(rest);
      var body := Body(rest);
      assert text + first.eol + body == text + (first.eol + body);
      NormaliseText(text, first.eol + body);
      NormaliseEol(first.eol, body);
      var normal := ReplaceCr(ReplaceCrLf(body));
      assert text + ([LF] + normal) == text + [LF] + normal;
      StrLinesCons(text, normal);
      FrameLinesOfGroup(rest);
    }
  }

  // ---------- decoding a whole stream from one buffer ----------

  /** What decoding delivers when all bytes are at hand. */
  function DecodeAll<E>(codec: Codec<E>, s: Bytes): seq<Item<E>>
    decreases |s|
  {
    if s != [] && IsEol(s[0]) then DecodeAll(codec, s[EolLength(s, 0)..])
    else
      match Scan(s, 0, None)
      case Some(frame) =>
        ScanFindsFirst(s, 0, None);
        var end, next := frame.end, frame.end + frame.delimiter;
        Deliver(codec, s[..end], FrameLines(s[..end]), next, DecodeAll(codec, s[next..]))
      case None =>
        if IncompleteTooLarge(s) then [Failure(FrameTooLarge)] else []
  }

  lemma {:induction false} ScanText(s: Bytes, p: nat, n: nat, previous: Option<nat>)
    requires p <= n <= |s| && (previous.Some? ==> previous.value <= p)
    requires forall k :: p <= k < n ==> !IsEol(s[k])
    ensures p < n ==> Scan(s, p, previous) == Scan(s, n, None)
    decreases n - p
  {
    if p < n {
      ScanText(s, p + 1, n, None);
    }
  }

  /** The line that starts at `p`, if it is terminated. */
  lemma LineAt(s: Bytes, p: nat)
    requires p <= |s|
    ensures var n := p + NextEol(s[p..]);
      && n <= |s|
      && (forall k :: p <= k < n ==> !IsEol(s[k]))
      && (n < |s| ==> IsEol(s[n]))
      && (n == |s| ==> SplitLines(s[p..]) == Split([], s[p..]))
  {
  }

  lemma SplitAt(s: Bytes, p: nat)
    requires p <= |s| && p + NextEol(s[p..]) < |s|
    ensures var n := p + NextEol(s[p..]);
      && IsEol(s[n])
      && var m := n + EolLength(s, n);
         SplitLines(s[p..]) == Split([Line(s[p..n], s[n..m])] + SplitLines(s[m..]).lines, SplitLines(s[m..]).tail)
  {
    var n := NextEol(s[p..]);
    EolLengthAt(s, p, n);
    var m := n + EolLength(s[p..], n);
    SliceOfSlice(s, p, n, m);
    SplitFirst(s[p..], s[p..p + n], s[p + n..p + m], s[p + m..]);
  }

  lemma EolLengthAt(s: Bytes, p: nat, n: nat)
    requires p + n < |s| && IsEol(s[p..][n])
    ensures IsEol(s[p + n]) && EolLength(s[p..], n) == EolLength(s, p + n)
  {
  }

  lemma SliceOfSlice(s: Bytes, p: nat, n: nat, m: nat)
    requires n <= m && p + m <= |s|
    ensures s[p..][..n] == s[p..p + n] && s[p..][n..m] == s[p + n..p + m] && s[p..][m..] == s[p + m..]
  {
  }

  lemma {:induction false} LinesBytesAppend(lines: seq<Line>, line: Line)
    ensures LinesBytes(lines + [line]) == LinesBytes(lines) + line.text + line.eol
  {
    if lines == [] {
      assert lines + [line] == [line];
      assert [line][1..] == [];
    } else {
      LinesBytesAppend(lines[1..], line);
      assert (lines + [line])[1..] == lines[1..] + [line];
    }
  }

  lemma BodyIsPrefix(pending: seq<Line>, s: Bytes, p: nat)
    requires pending != [] && p <= |s| && LinesBytes(pending) == s[..p]
    ensures var eol := pending[|pending| - 1].eol;
      |eol| <= p && Body(pending) == s[..p - |eol|] && s[p - |eol|..p] == eol
  {
    var last := pending[|pending| - 1];
    var init := pending[..|pending| - 1];
    assert pending == init + [last];
    LinesBytesAppend(init, last);
    var whole := LinesBytes(pending);
    assert whole == Body(pending) + last.eol;
    assert |whole| == p;
    assert whole[..p - |last.eol|] == Body(pending);
    assert whole[p - |last.eol|..] == last.eol;
  }

  /** Blank lines between groups are skipped. */
  lemma BlankLine<E>(codec: Codec<E>, s: Bytes)
    requires s != [] && IsEol(s[0])
    ensures Reference(codec, s) == Reference(codec, s[EolLength(s, 0)..])
  {
  }

  function LastEnding(pending: seq<Line>, p: nat): Option<nat>
    requires pending != [] ==> |pending[|pending| - 1].eol| <= p
  {
    if pending == [] then None else Some(p - |pending[|pending| - 1].eol|)
  }

  /** The state of the reference between two lines of a group, in terms of the buffer. */
  ghost predicate InGroup(s: Bytes, p: nat, pending: seq<Line>) {
    && p <= |s|
    && s != [] && !IsEol(s[0])
    && LinesBytes(pending) == s[..p]
    && GoodLines(pending)
    && (pending == [] <==> p == 0)
    && (pending != [] ==> |pending[|pending| - 1].eol| <= p)
    && Scan(s, p, LastEnding(pending, p)) == Scan(s, 0, None)
  }

  /** The rest of the reference from a line start inside a group. */
  function From<E>(codec: Codec<E>, s: Bytes, p: nat, pending: seq<Line>): seq<Item<E>>
    requires p <= |s|
  {
    var split := SplitLines(s[p..]);
    Dispatch(codec, split.lines, pending, split.tail)
  }

  lemma DispatchText<E>(codec: Codec<E>, line: Line, lines: seq<Line>, pending: seq<Line>, tail: Bytes)
    requires line.text != []
    ensures Dispatch(codec, [line] + lines, pending, tail) == Dispatch(codec, lines, pending + [line], tail)
  {
  }

  lemma {:induction false} GroupTail<E>(codec: Codec<E>, s: Bytes, p: nat, pending: seq<Line>)
    requires InGroup(s, p, pending) && p + NextEol(s[p..]) == |s|
    ensures From(codec, s, p, pending) == DecodeAll(codec, s)
  {
    LineAt(s, p);
    ScanText(s, p, |s|, LastEnding(pending, p));
    assert Scan(s, 0, None) == None;
    TailVerdict(s, p, pending);
  }

  /** The unterminated rest of a group is rejected when the reference rejects it. */
  lemma {:induction false} TailVerdict(s: Bytes, p: nat, pending: seq<Line>)
    requires InGroup(s, p, pending) && forall k :: p <= k < |s| ==> !IsEol(s[k])
    requires Scan(s, 0, None) == None
    ensures OversizeTail(pending, s[p..]) <==> IncompleteTooLarge(s)
  {
    ScanFindsFirst(s, 0, None);
    TooLargeMeaning(s);
    if p == |s| {
      ClosedTail(s, pending);
    } else {
      assert !IsEol(s[|s| - 1]);
    }
  }

  lemma {:induction false} ClosedTail(s: Bytes, pending: seq<Line>)
    requires InGroup(s, |s|, pending)
    ensures WithoutFinalEol(s) == |Body(pending)|
  {
    BodyIsPrefix(pending, s, |s|);
    FinalEol(s, pending[|pending| - 1]);
  }

  lemma FinalEol(s: Bytes, line: Line)
    requires GoodLine(line) && |line.eol| < |s| && s[|s| - |line.eol|..] == line.eol
    requires !IsEol(s[|s| - |line.eol| - 1])
    ensures WithoutFinalEol(s) == |s| - |line.eol|
  {
  }

  lemma DecodeAllFrame<E>(codec: Codec<E>, s: Bytes, frame: Frame)
    requires s != [] && !IsEol(s[0]) && Scan(s, 0, None) == Some(frame)
    ensures frame.end + frame.delimiter <= |s|
    ensures var end, next := frame.end, frame.end + frame.delimiter;
      DecodeAll(codec, s) == Deliver(codec, s[..end], FrameLines(s[..end]), next, DecodeAll(codec, s[next..]))
  {
    ScanFindsFirst(s, 0, None);
  }

  lemma {:induction false} GroupEnd<E>(codec: Codec<E>, s: Bytes, p: nat, pending: seq<Line>)
    requires InGroup(s, p, pending) && p < |s| && IsEol(s[p])
    requires Reference(codec, s[p + 1..]) == DecodeAll(codec, s[p + 1..])
    ensures From(codec, s, p, pending) == DecodeAll(codec, s)
  {
    GroupDecoded(codec, s, p, pending);
    GroupDelivered(codec, s, p, pending);
  }

  lemma {:induction false} GroupDecoded<E>(codec: Codec<E>, s: Bytes, p: nat, pending: seq<Line>)
    requires InGroup(s, p, pending) && p > 0 && p < |s| && IsEol(s[p])
    ensures DecodeAll(codec, s) ==
            Deliver(codec, Body(pending), Texts(pending), |LinesBytes(pending)| + 1, DecodeAll(codec, s[p + 1..]))
  {
    var frame := FrameAt(s, p, pending);
    GroupFrame(s, p, pending, frame);
    DecodeAllFrame(codec, s, frame);
  }

  lemma {:induction false} GroupDelivered<E>(codec: Codec<E>, s: Bytes, p: nat, pending: seq<Line>)
    requires pending != [] && p < |s| && IsEol(s[p])
    ensures From(codec, s, p, pending) ==
            Deliver(codec, Body(pending), Texts(pending), |LinesBytes(pending)| + 1, Reference(codec, s[p + 1..]))
  {
  }

  /** The frame that ends a group holds the group's lines. */
  lemma {:induction false} GroupFrame(s: Bytes, p: nat, pending: seq<Line>, frame: Frame)
    requires InGroup(s, p, pending) && p > 0 && frame.end == p - |pending[|pending| - 1].eol|
    ensures Body(pending) == s[..frame.end] && Texts(pending) == FrameLines(s[..frame.end]) && |LinesBytes(pending)| == p
  {
    BodyIsPrefix(pending, s, p);
    FrameLinesOfGroup(pending);
  }

  lemma ScanBlank(s: Bytes, p: nat, previous: nat)
    requires previous < p < |s| && IsEol(s[p])
    ensures Scan(s, p, Some(previous)) == Some(Frame(previous, p + 1 - previous))
  {
  }

  ghost function FrameAt(s: Bytes, p: nat, pending: seq<Line>): (frame: Frame)
    requires InGroup(s, p, pending) && p < |s| && IsEol(s[p])
    ensures Scan(s, 0, None) == Some(frame)
    ensures frame.end + frame.delimiter == p + 1
    ensures frame.end == p - |pending[|pending| - 1].eol|
  {
    assert GoodLine(pending[|pending| - 1]);
    var eol := |pending[|pending| - 1].eol|;
    ScanBlank(s, p, p - eol);
    Frame(p - eol, eol + 1)
  }

  lemma FromText<E>(codec: Codec<E>, s: Bytes, p: nat, pending: seq<Line>, n: nat, m: nat)
    requires p < n < |s| && n == p + NextEol(s[p..]) && IsEol(s[n]) && m == n + EolLength(s, n)
    ensures From(codec, s, p, pending) == From(codec, s, m, pending + [Line(s[p..n], s[n..m])])
  {
    SplitAt(s, p);
    DispatchText(codec, Line(s[p..n], s[n..m]), SplitLines(s[m..]).lines, pending, SplitLines(s[m..]).tail);
  }

  lemma GroupGrows(s: Bytes, p: nat, pending: seq<Line>, line: Line, n: nat, m: nat)
    requires InGroup(s, p, pending) && p < n < |s| && IsEol(s[n]) && m == n + EolLength(s, n)
    requires forall k :: p <= k < n ==> !IsEol(s[k])
    requires line == Line(s[p..n], s[n..m])
    ensures InGroup(s, m, pending + [line])
  {
    LinesBytesAppend(pending, line);
    assert s[..p] + s[p..n] + s[n..m] == s[..m];
    assert s[n..m] in {[CR], [LF], [CR, LF]} by {
      assert m == n + 1 ==> s[n..m] == [s[n]];
      assert m == n + 2 ==> s[n..m] == [s[n], s[n + 1]];
    }
    assert GoodLine(line);
    ScanText(s, p, n, LastEnding(pending, p));
    assert Scan(s, n, None) == Scan(s, m, Some(n));
    assert (pending + [line])[|pending|] == line;
  }

  lemma {:induction false} GroupAgrees<E>(codec: Codec<E>, s: Bytes, p: nat, pending: seq<Line>)
    requires InGroup(s, p, pending)
    ensures From(codec, s, p, pending) == DecodeAll(codec, s)
    decreases |s|, |s| - p
  {
    LineAt(s, p);
    var n := p + NextEol(s[p..]);
    if n == |s| {
      GroupTail(codec, s, p, pending);
    } else if n == p {
      DecodeAllMeetsReference(codec, s[p + 1..]);
      GroupEnd(codec, s, p, pending);
    } else {
      var m := n + EolLength(s, n);
      FromText(codec, s, p, pending, n, m);
      GroupGrows(s, p, pending, Line(s[p..n], s[n..m]), n, m);
      GroupAgrees(codec, s, m, pending + [Line(s[p..n], s[n..m])]);
    }
  }

  /** Decoding byte ranges delivers what the line grammar of the standard delivers. */
  lemma {:induction false} DecodeAllMeetsReference<E>(codec: Codec<E>, s: Bytes)
    ensures Reference(codec, s) == DecodeAll(codec, s)
    decreases |s|, |s| + 1
  {
    if s != [] && IsEol(s[0]) {
      BlankLine(codec, s);
      DecodeAllMeetsReference(codec, s[EolLength(s, 0)..]);
    } else if s != [] {
      assert s[0..] == s;
      assert InGroup(s, 0, []);
      GroupAgrees(codec, s, 0, []);
    }
  }
}
