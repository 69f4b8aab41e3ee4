/** What the lines of a frame mean, byte by byte. */
module FieldLaws {
  import opened Wrappers
  import opened SseGrammar
  import opened SseDecoder

  // ---------- one line ----------

  predicate NoColon(s: Bytes) {
    forall k :: 0 <= k < |s| ==> s[k] != 58
  }

  lemma {:induction false} FindAfter(name: Bytes, rest: Bytes)
    requires NoColon(name)
    ensures Find(name + [58] + rest, COLON) == |name|
  {
    var line := name + [58] + rest;
    if name != [] {
      FindAfter(name[1..], rest);
      assert line[1..] == name[1..] + [58] + rest;
    }
  }

  lemma {:induction false} FindNone(name: Bytes)
    requires NoColon(name)
    ensures Find(name, COLON) == |name|
  {
    if name != [] {
      FindNone(name[1..]);
    }
  }

  /** A field's value starts after its colon and one optional space. */
  ghost predicate ValueOf(value: Bytes, after: Bytes) {
    after == [32] + value || (after == value && (value == [] || value[0] != 32))
  }

  /** The field named `name` with a value. */
  function WithField(fields: Fields, name: Bytes, value: Bytes): Fields {
    if name == [100, 97, 116, 97] then Fields(fields.kind, fields.data + [value])
    else if name == [101, 118, 101, 110, 116] then Fields(Some(value), fields.data)
    else fields
  }

  lemma FieldLine(fields: Fields, name: Bytes, value: Bytes, after: Bytes)
    requires name != [] && NoColon(name) && ValueOf(value, after)
    ensures ApplyLine(fields, name + [58] + after) == WithField(fields, name, value)
  {
    var line := name + [58] + after;
    FindAfter(name, after);
    assert line[..|name|] == name && line[|name| + 1..] == after;
    assert after == [32] + value ==> after[1..] == value;
  }

  /** A field without a colon has the empty value. */
  lemma BareField(fields: Fields, name: Bytes)
    requires name != [] && NoColon(name)
    ensures ApplyLine(fields, name) == WithField(fields, name, [])
  {
    FindNone(name);
    assert name[..|name|] == name;
  }

  /** A comment changes nothing. */
  lemma CommentLine(fields: Fields, text: Bytes)
    ensures ApplyLine(fields, [58] + text) == fields
  {
  }

  // ---------- a whole frame ----------

  /** What one line says. */
  datatype Saying = Comment | Field(name: Bytes, value: Bytes)

  /** The ways to write it. */
  ghost predicate Spells(line: Bytes, saying: Saying) {
    match saying
    case Comment => line != [] && line[0] == 58
    case Field(name, value) =>
      && name != [] && NoColon(name)
      && ((line == name && value == []) || exists after :: ValueOf(value, after) && line == name + [58] + after)
  }

  ghost predicate AllSpell(lines: seq<Bytes>, sayings: seq<Saying>) {
    |lines| == |sayings| && forall k :: 0 <= k < |lines| ==> Spells(lines[k], sayings[k])
  }

  /** Every line but the empty one says something. */
  lemma EveryLineSays(line: Bytes) returns (saying: Saying)
    requires line != []
    ensures Spells(line, saying)
  {
    var colon := ColonAt(line);
    if colon == 0 {
      return Comment;
    }
    var name := line[..colon];
    if colon == |line| {
      assert line == name;
      return Field(name, []);
    }
    var after := line[colon + 1..];
    var value := if after != [] && after[0] == 32 then after[1..] else after;
    assert line == name + [58] + after;
    assert after != [] && after[0] == 32 ==> after == [32] + value;
    assert ValueOf(value, after);
    return Field(name, value);
  }

  lemma {:induction false} ColonAt(line: Bytes) returns (n: nat)
    ensures n <= |line| && NoColon(line[..n]) && (n < |line| ==> line[n] == 58)
  {
    if line == [] || line[0] == 58 {
      return 0;
    }
    var m := ColonAt(line[1..]);
    n := m + 1;
    assert line[..n] == [line[0]] + line[1..][..m];
  }

  /** The values of the data fields, in order. */
  function DataOf(sayings: seq<Saying>): seq<Bytes> {
    if sayings == [] then []
    else
      var init, last := DataOf(sayings[..|sayings| - 1]), sayings[|sayings| - 1];
      if last.Field? && last.name == [100, 97, 116, 97] then init + [last.value] else init
  }

  /** Only the last event field counts. */
  function KindOf(sayings: seq<Saying>): Option<Bytes> {
    if sayings == [] then None
    else
      var last := sayings[|sayings| - 1];
      if last.Field? && last.name == [101, 118, 101, 110, 116] then Some(last.value) else KindOf(sayings[..|sayings| - 1])
  }

  lemma LineSays(fields: Fields, line: Bytes, saying: Saying)
    requires Spells(line, saying)
    ensures ApplyLine(fields, line) == if saying.Field? then WithField(fields, saying.name, saying.value) else fields
  {
    match saying
    case Comment =>
      assert line == [58] + line[1..];
      CommentLine(fields, line[1..]);
    case Field(name, value) =>
      if line == name && value == [] {
        BareField(fields, name);
      } else {
        var after :| ValueOf(value, after) && line == name + [58] + after;
        FieldLine(fields, name, value, after);
      }
  }

  lemma {:induction false} FieldsSay(lines: seq<Bytes>, sayings: seq<Saying>)
    requires AllSpell(lines, sayings)
    ensures CollectFields(lines) == Fields(KindOf(sayings), DataOf(sayings))
  {
    if lines != [] {
      var n := |lines| - 1;
      FieldsSay(lines[..n], sayings[..n]);
      LineSays(CollectFields(lines[..n]), lines[n], sayings[n]);
    }
  }

  /** The data values, one below the other. */
  function Lined(data: seq<Bytes>): Bytes {
    if data == [] then [] else Lined(data[..|data| - 1]) + (if |data| == 1 then [] else [10]) + data[|data| - 1]
  }

  lemma {:induction false} JoinAppend(data: seq<Bytes>, last: Bytes)
    requires data != []
    ensures Join(data + [last]) == Join(data) + [10] + last
  {
    if |data| > 1 {
      JoinAppend(data[1..], last);
      assert (data + [last])[1..] == data[1..] + [last];
      assert data[0] + [10] + (Join(data[1..]) + [10] + last) == data[0] + [10] + Join(data[1..]) + [10] + last;
    } else {
      assert (data + [last])[1..] == [last];
    }
  }

  lemma {:induction false} JoinIsLined(data: seq<Bytes>)
    ensures Join(data) == Lined(data)
  {
    if |data| > 1 {
      var n := |data| - 1;
      JoinIsLined(data[..n]);
      JoinAppend(data[..n], data[n]);
      assert data == data[..n] + [data[n]];
    } else if |data| == 1 {
      assert data[..0] == [];
    }
  }

  /** The bytes between line feeds. */
  function Pieces(s: Bytes): (pieces: seq<Bytes>)
    ensures pieces != []
  {
    if s == [] then [[]]
    else
      var init := Pieces(s[..|s| - 1]);
      if s[|s| - 1] == 10 then init + [[]] else init[..|init| - 1] + [init[|init| - 1] + [s[|s| - 1]]]
  }

  predicate NoFeed(s: Bytes) {
    forall k :: 0 <= k < |s| ==> s[k] != 10
  }

  /** The pieces with `text` at the end of the last one. */
  function Continued(pieces: seq<Bytes>, text: Bytes): seq<Bytes>
    requires pieces != []
  {
    pieces[..|pieces| - 1] + [pieces[|pieces| - 1] + text]
  }

  lemma PiecesStep(s: Bytes, b: Byte)
    ensures Pieces(s + [b]) == if b == 10 then Pieces(s) + [[]] else Continued(Pieces(s), [b])
  {
    assert (s + [b])[..|s|] == s;
  }

  lemma ContinuedStep(pieces: seq<Bytes>, text: Bytes, b: Byte)
    requires pieces != []
    ensures Continued(pieces, []) == pieces
    ensures Continued(Continued(pieces, text), [b]) == Continued(pieces, text + [b])
  {
    var n := |pieces| - 1;
    assert pieces[n] + [] == pieces[n] && pieces[..n] + [pieces[n]] == pieces;
    assert pieces[n] + text + [b] == pieces[n] + (text + [b]);
  }

  lemma {:induction false} PiecesText(s: Bytes, text: Bytes)
    requires NoFeed(text)
    ensures Pieces(s + text) == Continued(Pieces(s), text)
    decreases |text|
  {
    if text == [] {
      assert s + text == s;
      ContinuedStep(Pieces(s), [], 0);
    } else {
      var n := |text| - 1;
      PiecesText(s, text[..n]);
      assert text == text[..n] + [text[n]];
      assert s + text == s + text[..n] + [text[n]];
      PiecesStep(s + text[..n], text[n]);
      ContinuedStep(Pieces(s), text[..n], text[n]);
    }
  }

  lemma LinedStep(data: seq<Bytes>)
    requires data != []
    ensures var n := |data| - 1;
      Lined(data) == if n == 0 then [] + data[0] else Lined(data[..n]) + [10] + data[n]
  {
    if |data| == 1 {
      assert data[..0] == [] && Lined(data[..0]) + [] == [];
    }
  }

  lemma {:induction false} LinedPieces(data: seq<Bytes>)
    requires data != [] && forall k :: 0 <= k < |data| ==> NoFeed(data[k])
    ensures Pieces(Lined(data)) == data
  {
    var n := |data| - 1;
    LinedStep(data);
    if n == 0 {
      PiecesText([], data[0]);
      ContinuedEmpty([], data[0]);
    } else {
      LinedPieces(data[..n]);
      OnePiece(Lined(data[..n]), data[n]);
      assert data == data[..n] + [data[n]];
    }
  }

  /** No value is lost or run together with another: the joined text splits into them. */
  lemma {:induction false} LinedSplits(data: seq<Bytes>)
    requires data != [] && forall k :: 0 <= k < |data| ==> NoFeed(data[k])
    ensures Pieces(Join(data)) == data
  {
    JoinIsLined(data);
    LinedPieces(data);
  }

  lemma OnePiece(joined: Bytes, text: Bytes)
    requires NoFeed(text)
    ensures Pieces(joined + [10] + text) == Pieces(joined) + [text]
  {
    PiecesStep(joined, 10);
    PiecesText(joined + [10], text);
    ContinuedEmpty(Pieces(joined), text);
  }

  lemma ContinuedEmpty(pieces: seq<Bytes>, text: Bytes)
    ensures Continued(pieces + [[]], text) == pieces + [text]
  {
    assert [] + text == text;
  }

  /** What a frame gives: the joined data if it is a message with data. */
  function Meaning<E>(codec: Codec<E>, body: Bytes, sayings: seq<Saying>): Parsed<E> {
    if !codec.utf8(body) then Rejected(InvalidUtf8)
    else if DataOf(sayings) == [] then Ignored
    else if KindOf(sayings).Some? && KindOf(sayings).value != [109, 101, 115, 115, 97, 103, 101] then Ignored
    else if codec.json(Lined(DataOf(sayings))).None? then Rejected(InvalidJson)
    else Decoded(codec.json(Lined(DataOf(sayings))).value)
  }

  /** The whole operation on a frame, from the bytes of its lines. */
  lemma FrameMeans<E>(codec: Codec<E>, lines: seq<Line>, sayings: seq<Saying>)
    requires lines != [] && GoodLines(lines) && AllSpell(Texts(lines), sayings)
    ensures Interpret(codec, Body(lines), FrameLines(Body(lines))) == Meaning(codec, Body(lines), sayings)
  {
    FrameLinesOfGroup(lines);
    FieldsSay(Texts(lines), sayings);
    JoinIsLined(DataOf(sayings));
  }

  // ---------- a stream ----------

  /** The lines as a server writes them. */
  function Written(texts: seq<Bytes>): seq<Line> {
    if texts == [] then [] else [Line(texts[0], [10])] + Written(texts[1..])
  }

  predicate Plain(texts: seq<Bytes>) {
    forall k :: 0 <= k < |texts| ==> texts[k] != [] && NoEol(texts[k])
  }

  lemma {:induction false} WrittenGood(texts: seq<Bytes>)
    requires Plain(texts)
    ensures GoodLines(Written(texts)) && Texts(Written(texts)) == texts && |Written(texts)| == |texts|
  {
    if texts != [] {
      WrittenGood(texts[1..]);
      assert Written(texts)[1..] == Written(texts[1..]);
      assert GoodLine(Line(texts[0], [10]));
    }
  }

  lemma {:induction false} NextEolAfter(text: Bytes, rest: Bytes)
    requires NoEol(text)
    ensures NextEol(text + [10] + rest) == |text|
  {
    var s := text + [10] + rest;
    assert forall k :: 0 <= k < |text| ==> s[k] == text[k];
    assert IsEol(s[|text|]);
  }

  lemma LineOff(text: Bytes, rest: Bytes)
    requires NoEol(text)
    ensures var s := text + [10] + rest;
      SplitLines(s) == Split([Line(text, [10])] + SplitLines(rest).lines, SplitLines(rest).tail)
  {
    var s := text + [10] + rest;
    NextEolAfter(text, rest);
    assert s[..|text|] == text && s[|text|..|text| + 1] == [10] && s[|text| + 1..] == rest;
    SplitFirst(s, text, [10], rest);
  }

  /** A line that stands first goes to the group. */
  ghost predicate Takes<R>(deliver: (Bytes, seq<Line>) -> R, text: Bytes, others: Bytes, pending: seq<Line>) {
    deliver(text + [10] + others, pending) == deliver(others, pending + [Line(text, [10])])
  }

  lemma {:induction false} TakesAll<R>(deliver: (Bytes, seq<Line>) -> R, texts: seq<Bytes>, rest: Bytes, pending: seq<Line>)
    requires Plain(texts)
    requires forall text, others, group :: text != [] && NoEol(text) ==> Takes(deliver, text, others, group)
    ensures deliver(LinesBytes(Written(texts)) + rest, pending) == deliver(rest, pending + Written(texts))
    decreases |texts|
  {
    if texts == [] {
      assert LinesBytes(Written(texts)) + rest == rest && pending + Written(texts) == pending;
    } else {
      WrittenFirst(texts, rest);
      assert Takes(deliver, texts[0], LinesBytes(Written(texts[1..])) + rest, pending);
      TakesAll(deliver, texts[1..], rest, pending + [Line(texts[0], [10])]);
      assert pending + [Line(texts[0], [10])] + Written(texts[1..]) == pending + Written(texts);
    }
  }

  lemma DispatchWritten<E>(codec: Codec<E>, texts: seq<Bytes>, rest: Bytes, pending: seq<Line>)
    requires Plain(texts)
    ensures Dispatched(codec, LinesBytes(Written(texts)) + rest, pending) == Dispatched(codec, rest, pending + Written(texts))
  {
    var deliver := (s: Bytes, group: seq<Line>) => Dispatched(codec, s, group);
    forall text, others, group | text != [] && NoEol(text) ensures Takes(deliver, text, others, group) {
      DispatchFirst(codec, text, others, group);
    }
    TakesAll(deliver, texts, rest, pending);
  }

  function Dispatched<E>(codec: Codec<E>, s: Bytes, pending: seq<Line>): seq<Item<E>> {
    Dispatch(codec, SplitLines(s).lines, pending, SplitLines(s).tail)
  }

  lemma WrittenFirst(texts: seq<Bytes>, rest: Bytes)
    requires texts != []
    ensures LinesBytes(Written(texts)) + rest == texts[0] + [10] + (LinesBytes(Written(texts[1..])) + rest)
  {
    assert Written(texts)[1..] == Written(texts[1..]);
  }

  lemma DispatchFirst<E>(codec: Codec<E>, text: Bytes, others: Bytes, pending: seq<Line>)
    requires text != [] && NoEol(text)
    ensures Dispatched(codec, text + [10] + others, pending) == Dispatched(codec, others, pending + [Line(text, [10])])
  {
    LineOff(text, others);
    DispatchText(codec, Line(text, [10]), SplitLines(others).lines, pending, SplitLines(others).tail);
  }

  function Given<E>(meaning: Parsed<E>, sourceBytes: nat, rest: seq<Item<E>>): seq<Item<E>> {
    match meaning
    case Ignored => rest
    case Decoded(event) => [Event(event, sourceBytes)] + rest
    case Rejected(error) => [Failure(error)]
  }

  /** What a server writes as one frame, a stream delivers first: exactly one event if it is
      a message with data, and otherwise nothing or the failure. */
  lemma WrittenDelivered<E>(codec: Codec<E>, texts: seq<Bytes>, sayings: seq<Saying>, rest: Bytes)
    requires texts != [] && Plain(texts) && AllSpell(texts, sayings)
    requires |Body(Written(texts))| <= 1048576
    ensures var frame := LinesBytes(Written(texts)) + [10];
      Reference(codec, frame + rest) == Given(Meaning(codec, Body(Written(texts)), sayings), |frame|, Reference(codec, rest))
  {
    WrittenGood(texts);
    FirstGroup(codec, texts, Written(texts), rest);
    GroupMeans(codec, Written(texts), sayings, |LinesBytes(Written(texts))| + 1, Reference(codec, rest));
  }

  lemma FirstGroup<E>(codec: Codec<E>, texts: seq<Bytes>, group: seq<Line>, rest: Bytes)
    requires Plain(texts) && group != [] && group == Written(texts)
    ensures Reference(codec, LinesBytes(group) + [10] + rest) ==
            Deliver(codec, Body(group), Texts(group), |LinesBytes(group)| + 1, Reference(codec, rest))
  {
    DispatchWritten(codec, texts, [10] + rest, []);
    Joined(LinesBytes(group), rest, group);
    BlankDispatched(codec, group, rest);
    ReferenceDispatched(codec, LinesBytes(group) + [10] + rest);
  }

  lemma Joined(body: Bytes, rest: Bytes, group: seq<Line>)
    ensures body + [10] + rest == body + ([10] + rest) && [] + group == group
  {
  }

  lemma ReferenceDispatched<E>(codec: Codec<E>, s: Bytes)
    ensures Reference(codec, s) == Dispatched(codec, s, [])
  {
  }

  lemma BlankDispatched<E>(codec: Codec<E>, group: seq<Line>, rest: Bytes)
    requires group != []
    ensures Dispatched(codec, [10] + rest, group) ==
            Deliver(codec, Body(group), Texts(group), |LinesBytes(group)| + 1, Reference(codec, rest))
  {
    assert [] + [10] + rest == [10] + rest;
    LineOff([], rest);
    BlankEnds(codec, group, SplitLines(rest).lines, SplitLines(rest).tail);
  }

  lemma BlankEnds<E>(codec: Codec<E>, group: seq<Line>, lines: seq<Line>, tail: Bytes)
    requires group != []
    ensures Dispatch(codec, [Line([], [10])] + lines, group, tail) ==
            Deliver(codec, Body(group), Texts(group), |LinesBytes(group)| + 1, Dispatch(codec, lines, [], tail))
  {
  }

  /** What a group within the limit delivers. */
  lemma GroupMeans<E>(codec: Codec<E>, group: seq<Line>, sayings: seq<Saying>, sourceBytes: nat, rest: seq<Item<E>>)
    requires group != [] && GoodLines(group) && AllSpell(Texts(group), sayings) && |Body(group)| <= 1048576
    ensures Deliver(codec, Body(group), Texts(group), sourceBytes, rest) == Given(Meaning(codec, Body(group), sayings), sourceBytes, rest)
  {
    FrameLinesOfGroup(group);
    FrameMeans(codec, group, sayings);
  }
}
