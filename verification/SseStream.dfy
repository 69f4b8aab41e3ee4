/** The stateful decoder of an event stream, fed with arbitrary chunks. */
module SseStream {
  import opened Wrappers
  import opened SseGrammar
  import opened SseFraming
  import opened SseDecoder

  /** From `before` on the stream delivers `item`, if there is one, and unless it failed what
      it delivers from `after` on. */
  ghost predicate Follows<E>(before: seq<Item<E>>, item: Option<Item<E>>, after: seq<Item<E>>) {
    match item
    case None => before == after
    case Some(Event(_, _)) => before == [item.value] + after
    case Some(Failure(_)) => before == [item.value]
  }

  ghost predicate OutcomeFor<E>(codec: Codec<E>, before: Bytes, item: Option<Item<E>>, after: Bytes, rest: Bytes) {
    Follows(DecodeAll(codec, before + rest), item, DecodeAll(codec, after + rest))
  }

  /** One decoding step on `before` gives `item`, or nothing, and leaves `after`, whatever
      bytes follow. */
  ghost predicate Outcome<E(!new)>(codec: Codec<E>, before: Bytes, item: Option<Item<E>>, after: Bytes) {
    forall rest :: OutcomeFor(codec, before, item, after, rest)
  }

  lemma OutcomeAfter<E(!new)>(codec: Codec<E>, a: Bytes, b: Bytes, item: Option<Item<E>>, c: Bytes)
    requires Outcome(codec, a, None, b) && Outcome(codec, b, item, c)
    ensures Outcome(codec, a, item, c)
  {
    forall rest ensures OutcomeFor(codec, a, item, c, rest) {
      assert OutcomeFor(codec, a, None, b, rest) && OutcomeFor(codec, b, item, c, rest);
    }
  }

  lemma DropEnding<E(!new)>(codec: Codec<E>, s: Bytes, allowTrailingCr: bool)
    requires LeadingEnding(s, allowTrailingCr) > 0
    ensures Outcome(codec, s, None, s[LeadingEnding(s, allowTrailingCr)..])
  {
    var n := LeadingEnding(s, allowTrailingCr);
    forall rest ensures OutcomeFor(codec, s, None, s[n..], rest) {
      var w := s + rest;
      assert w[n..] == s[n..] + rest;
      if EolLength(w, 0) != n {
        assert w[1..][0] == LF && w[1..][1..] == w[2..];
      }
    }
  }

  lemma StaysTooLarge(s: Bytes, rest: Bytes)
    ensures WithoutFinalEol(s) <= WithoutFinalEol(s + rest)
  {
  }

  lemma RejectEarly<E(!new)>(codec: Codec<E>, s: Bytes)
    requires s != [] && !IsEol(s[0]) && Scan(s, 0, None).None? && IncompleteTooLarge(s)
    ensures Outcome(codec, s, Some(Failure(FrameTooLarge)), s)
  {
    forall rest ensures OutcomeFor(codec, s, Some(Failure(FrameTooLarge)), s, rest) {
      EarlyVerdictExact(s);
      var w := s + rest;
      assert w[0] == s[0];
      match Scan(w, 0, None)
      case Some(frame) =>
        assert frame.end > MAX_SSE_FRAME_SIZE;
        DecodeAllFrame(codec, w, frame);
      case None =>
        ScanFindsFirst(s, 0, None);
        ScanFindsFirst(w, 0, None);
        TooLargeMeaning(s);
        TooLargeMeaning(w);
        StaysTooLarge(s, rest);
    }
  }

  lemma ResumeSafeExtends(b: Bytes, rest: Bytes, searchFrom: nat)
    requires ResumeSafe(b, searchFrom)
    ensures ResumeSafe(b + rest, searchFrom)
  {
    forall e: nat | IsBoundary(b + rest, e) && searchFrom > 0
      ensures searchFrom + 3 <= e + EolLength(b + rest, e)
    {
      BoundaryPersists(b, rest, e);
    }
  }

  /** A group's own share of what is delivered from it on. */
  lemma DeliverFirst<E>(codec: Codec<E>, body: Bytes, lines: seq<Bytes>, sourceBytes: nat, item: Option<Item<E>>, rest: seq<Item<E>>)
    requires Deliver(codec, body, lines, sourceBytes, []) == Listed(item)
    ensures Follows(Deliver(codec, body, lines, sourceBytes, rest), item, rest)
  {
    assert item.Some? ==> Deliver(codec, body, lines, sourceBytes, [])[0] == item.value;
  }

  lemma FrameFirst<E>(codec: Codec<E>, s: Bytes, frame: Frame, text: Bytes, item: Option<Item<E>>, after: Bytes)
    requires s != [] && !IsEol(s[0]) && Scan(s, 0, None) == Some(frame)
    requires frame.end + frame.delimiter <= |s| && text == s[..frame.end] && after == s[frame.end + frame.delimiter..]
    requires Deliver(codec, text, FrameLines(text), frame.end + frame.delimiter, []) == Listed(item)
    ensures Follows(DecodeAll(codec, s), item, DecodeAll(codec, after))
  {
    DecodeAllFrame(codec, s, frame);
    DeliverFirst(codec, text, FrameLines(text), frame.end + frame.delimiter, item, DecodeAll(codec, after));
  }

  /** What becomes of a complete frame at the front of `s`. */
  lemma FrameOutcome<E(!new)>(codec: Codec<E>, s: Bytes, frame: Frame, text: Bytes, item: Option<Item<E>>, after: Bytes)
    requires s != [] && !IsEol(s[0]) && Scan(s, 0, None) == Some(frame)
    requires frame.end + frame.delimiter <= |s| && text == s[..frame.end] && after == s[frame.end + frame.delimiter..]
    requires Deliver(codec, text, FrameLines(text), frame.end + frame.delimiter, []) == Listed(item)
    ensures Outcome(codec, s, item, after)
  {
    forall rest ensures OutcomeFor(codec, s, item, after, rest) {
      ScanPersists(s, rest);
      PrefixKept(s, rest, frame.end, frame.end + frame.delimiter);
      FrameFirst(codec, s + rest, frame, text, item, after + rest);
    }
  }

  lemma PrefixKept(s: Bytes, rest: Bytes, end: nat, next: nat)
    requires s != [] && end <= next <= |s|
    ensures (s + rest)[0] == s[0] && (s + rest)[..end] == s[..end] && (s + rest)[next..] == s[next..] + rest
  {
  }

  predicate IsSuffix(after: Bytes, before: Bytes) {
    |after| <= |before| && after == before[|before| - |after|..]
  }

  // ---------- how the input is cut up ----------

  /** What leaves the buffer: a line ending before a frame, or a frame with its delimiter. */
  datatype Piece = Blank(eol: Bytes) | Group(frame: Bytes, delimiter: Bytes)

  function PiecesBytes(pieces: seq<Piece>): Bytes {
    if pieces == [] then []
    else
      var last := pieces[|pieces| - 1];
      PiecesBytes(pieces[..|pieces| - 1]) + if last.Blank? then last.eol else last.frame + last.delimiter
  }

  /** A frame starts and ends with text and has no blank line inside; its delimiter ends its
      last line and makes a blank line. */
  ghost predicate WellCut(piece: Piece) {
    match piece
    case Blank(eol) => eol in {[CR], [LF], [CR, LF]}
    case Group(frame, delimiter) =>
      && frame != [] && !IsEol(frame[0]) && !IsEol(frame[|frame| - 1]) && NoBoundary(frame, 0, |frame|)
      && delimiter != [] && IsEol(delimiter[0]) && |delimiter| == EolLength(delimiter, 0) + 1
      && IsEol(delimiter[|delimiter| - 1])
  }

  ghost predicate AllCut(pieces: seq<Piece>) {
    forall piece :: piece in pieces ==> WellCut(piece)
  }

  /** What the frames among the pieces deliver. */
  function ItemsOf<E>(codec: Codec<E>, pieces: seq<Piece>): seq<Item<E>> {
    if pieces == [] then []
    else
      var last := pieces[|pieces| - 1];
      ItemsOf(codec, pieces[..|pieces| - 1]) +
      if last.Blank? then []
      else Deliver(codec, last.frame, FrameLines(last.frame), |last.frame| + |last.delimiter|, [])
  }

  lemma PiecesAppend<E>(codec: Codec<E>, pieces: seq<Piece>, piece: Piece)
    ensures PiecesBytes(pieces + [piece]) ==
            PiecesBytes(pieces) + if piece.Blank? then piece.eol else piece.frame + piece.delimiter
    ensures ItemsOf(codec, pieces + [piece]) == ItemsOf(codec, pieces) +
            if piece.Blank? then [] else Deliver(codec, piece.frame, FrameLines(piece.frame), |piece.frame| + |piece.delimiter|, [])
  {
  }

  /** Nothing received is lost or made up. */
  ghost predicate Accounted(pieces: seq<Piece>, buffer: Bytes, received: Bytes) {
    AllCut(pieces) && PiecesBytes(pieces) + buffer == received
  }

  lemma AccountedMore(pieces: seq<Piece>, buffer: Bytes, received: Bytes, chunk: Bytes)
    requires Accounted(pieces, buffer, received)
    ensures Accounted(pieces, buffer + chunk, received + chunk)
  {
  }

  lemma AccountedLess(pieces: seq<Piece>, piece: Piece, buffer: Bytes, n: nat, received: Bytes)
    requires Accounted(pieces, buffer, received) && WellCut(piece)
    requires n <= |buffer| && buffer[..n] == if piece.Blank? then piece.eol else piece.frame + piece.delimiter
    ensures Accounted(pieces + [piece], buffer[n..], received)
  {
    assert (pieces + [piece])[..|pieces|] == pieces;
    assert buffer == buffer[..n] + buffer[n..];
    assert PiecesBytes(pieces) + buffer == PiecesBytes(pieces) + buffer[..n] + buffer[n..];
  }

  lemma CutBlank(s: Bytes, n: nat)
    requires s != [] && IsEol(s[0]) && n == EolLength(s, 0)
    ensures WellCut(Blank(s[..n]))
  {
    assert n == 1 ==> s[..n] == [s[0]];
    assert n == 2 ==> s[..n] == [s[0], s[1]];
  }

  lemma CutGroup(s: Bytes, frame: Frame) returns (piece: Piece)
    requires s != [] && !IsEol(s[0]) && Scan(s, 0, None) == Some(frame)
    ensures frame.end + frame.delimiter <= |s| && 0 < frame.delimiter
    ensures piece == Group(s[..frame.end], s[frame.end..frame.end + frame.delimiter]) && WellCut(piece)
    ensures s[..frame.end + frame.delimiter] == piece.frame + piece.delimiter
  {
    ScanFindsFirst(s, 0, None);
    piece := Group(s[..frame.end], s[frame.end..frame.end + frame.delimiter]);
    BoundaryCuts(s, frame);
  }

  lemma FrameTaken<E(!new)>(codec: Codec<E>, s: Bytes, frame: Frame, item: Option<Item<E>>, pieces: seq<Piece>, piece: Piece, after: Bytes)
    requires s != [] && !IsEol(s[0]) && Scan(s, 0, None) == Some(frame) && frame.end + frame.delimiter <= |s|
    requires after == s[frame.end + frame.delimiter..]
    requires piece == Group(s[..frame.end], s[frame.end..frame.end + frame.delimiter])
    requires Deliver(codec, piece.frame, FrameLines(piece.frame), frame.end + frame.delimiter, []) == Listed(item)
    ensures Outcome(codec, s, item, after)
    ensures ItemsOf(codec, pieces + [piece]) == ItemsOf(codec, pieces) + Listed(item)
  {
    FrameOutcome(codec, s, frame, piece.frame, item, after);
    PiecesAppend(codec, pieces, piece);
  }

  lemma BoundaryCuts(s: Bytes, frame: Frame)
    requires s != [] && !IsEol(s[0]) && FirstBoundary(s, 0, Some(frame))
    ensures frame.end + frame.delimiter <= |s|
    ensures WellCut(Group(s[..frame.end], s[frame.end..frame.end + frame.delimiter]))
  {
    var end := frame.end;
    var text, delimiter := s[..end], s[end..end + frame.delimiter];
    assert !IsBoundary(s, end - 1) && (end > 1 ==> !IsBoundary(s, end - 2));
    assert text[|text| - 1] == s[end - 1] && delimiter[|delimiter| - 1] == s[end + frame.delimiter - 1];
    forall e: nat | e < |text| ensures !IsBoundary(text, e) {
      assert text + s[end..] == s && !IsBoundary(s, e);
      BoundaryPersists(text, s[end..], e);
    }
    assert delimiter[0] == s[end];
  }

  /** What a frame gives: nothing, an event or a failure. */
  method Judge<E>(codec: Codec<E>, text: Bytes, sourceBytes: nat) returns (item: Option<Item<E>>)
    ensures Listed(item) == Deliver(codec, text, FrameLines(text), sourceBytes, [])
  {
    if |text| > MAX_SSE_FRAME_SIZE {
      return Some(Failure(FrameTooLarge));
    }
    var result := ParseFrame(codec, text);
    match result {
      case Decoded(event) => item := Some(Event(event, sourceBytes));
      case Ignored => item := None;
      case Rejected(error) => item := Some(Failure(error));
    }
  }

  class Decoder<E(!new)> {
    const codec: Codec<E>
    var buffer: Bytes
    var searchFrom: nat
    /** All bytes received, and how those that left the buffer were cut. */
    ghost var received: Bytes
    ghost var drained: seq<Piece>

    /** The resume offset is safe, and nothing received is lost: the pieces cut off so far
        and the buffer are what was received. */
    ghost predicate Valid()
      reads this
    {
      ResumeSafe(buffer, searchFrom) && Accounted(drained, buffer, received)
    }

    constructor (codec: Codec<E>)
      ensures Valid() && this.codec == codec && buffer == [] && received == [] && drained == []
    {
      this.codec := codec;
      buffer := [];
      searchFrom := 0;
      received, drained := [], [];
    }

    method Feed(chunk: Bytes)
      requires Valid()
      modifies this
      ensures Valid() && buffer == old(buffer) + chunk
      ensures received == old(received) + chunk && drained == old(drained)
    {
      ResumeSafeExtends(buffer, chunk, searchFrom);
      AccountedMore(drained, buffer, received, chunk);
      buffer := buffer + chunk;
      received := received + chunk;
    }

    /** `drain` of the first `n` bytes, which are `piece`. */
    method Drain(n: nat, ghost piece: Piece)
      requires Valid() && n <= |buffer| && WellCut(piece)
      requires buffer[..n] == if piece.Blank? then piece.eol else piece.frame + piece.delimiter
      modifies this
      ensures Valid() && buffer == old(buffer)[n..] && received == old(received) && drained == old(drained) + [piece]
    {
      AccountedLess(drained, piece, buffer, n, received);
      buffer := buffer[n..];
      searchFrom := 0;
      drained := drained + [piece];
    }

    /** The branch that strips a line ending from the front of the buffer. */
    method StripEnding(endOfStream: bool) returns (stripped: bool)
      requires Valid()
      modifies this
      ensures Valid() && received == old(received) && IsSuffix(buffer, old(buffer))
      ensures Outcome(codec, old(buffer), None, buffer) && ItemsOf(codec, drained) == ItemsOf(codec, old(drained))
      ensures stripped <==> |buffer| < |old(buffer)|
      ensures !stripped ==> buffer == old(buffer) && searchFrom == old(searchFrom) && LeadingEnding(buffer, endOfStream) == 0
    {
      var endingLength := LeadingEnding(buffer, endOfStream);
      if endingLength == 0 {
        return false;
      }
      DropEnding(codec, buffer, endOfStream);
      CutBlank(buffer, endingLength);
      ghost var piece := Blank(buffer[..endingLength]);
      PiecesAppend(codec, drained, piece);
      Drain(endingLength, piece);
      return true;
    }

    /** Removes a complete frame from the front of the buffer and interprets it. */
    method TakeFrame(frame: Frame) returns (item: Option<Item<E>>)
      requires Valid() && buffer != [] && !IsEol(buffer[0]) && Scan(buffer, 0, None) == Some(frame)
      modifies this
      ensures Valid() && received == old(received) && IsSuffix(buffer, old(buffer)) && |buffer| < |old(buffer)|
      ensures Outcome(codec, old(buffer), item, buffer)
      ensures ItemsOf(codec, drained) == ItemsOf(codec, old(drained)) + Listed(item)
    {
      ghost var piece := CutGroup(buffer, frame);
      ghost var before, pieces := buffer, drained;
      var sourceBytes := frame.end + frame.delimiter;
      var text := buffer[..frame.end];
      Drain(sourceBytes, piece);
      item := Judge(codec, text, sourceBytes);
      FrameTaken(codec, before, frame, item, pieces, piece, buffer);
    }

    /** The branch for a buffer without a complete frame. */
    method Await() returns (item: Option<Item<E>>)
      requires Valid() && Scan(buffer, 0, None).None?
      requires buffer == [] || !IsEol(buffer[0]) || buffer == [CR]
      modifies this`searchFrom
      ensures Valid() && Outcome(codec, buffer, item, buffer)
      ensures item == if IncompleteTooLarge(buffer) then Some(Failure(FrameTooLarge)) else None
    {
      if IncompleteTooLarge(buffer) {
        RejectEarly(codec, buffer);
        return Some(Failure(FrameTooLarge));
      }
      searchFrom := if |buffer| < 3 then 0 else |buffer| - 3;
      FruitlessScanIsSafe(buffer, []);
      assert buffer + [] == buffer;
      return None;
    }

    /** One turn of the loop of `decode_next_frame`; `done` when it returns. */
    method Turn(endOfStream: bool) returns (done: bool, item: Option<Item<E>>)
      requires Valid()
      modifies this
      ensures Valid() && received == old(received) && IsSuffix(buffer, old(buffer))
      ensures Outcome(codec, old(buffer), item, buffer)
      ensures Told(ItemsOf(codec, old(drained)), item, buffer, ItemsOf(codec, drained))
      ensures item.None? && done ==> Unfinished(buffer, endOfStream)
      ensures !done ==> item.None? && |buffer| < |old(buffer)|
      ensures item.Some? && item.value.Event? ==> |buffer| < |old(buffer)|
    {
      var stripped := StripEnding(endOfStream);
      if stripped {
        return false, None;
      }
      ResumeEqualsRestart(buffer, searchFrom);
      var frame := FrameEndFrom(buffer, searchFrom, endOfStream);
      if frame.None? {
        item := Await();
        return true, item;
      }
      LoneReturn(buffer);
      item := TakeFrame(frame.value);
      done := item.Some?;
    }

    /** `decode_next_frame`: the next event or failure among the bytes at hand, if any.
        Bytes leave the buffer only at its front, as line endings and frames, and what is
        returned is what the frames deliver, or the verdict on one that grew too large.
        Otherwise an unfinished frame is left. */
    method DecodeNext(endOfStream: bool) returns (item: Option<Item<E>>)
      requires Valid()
      modifies this
      ensures Valid() && received == old(received) && IsSuffix(buffer, old(buffer))
      ensures Outcome(codec, old(buffer), item, buffer)
      ensures Told(ItemsOf(codec, old(drained)), item, buffer, ItemsOf(codec, drained))
      ensures item.None? ==> Unfinished(buffer, endOfStream)
      ensures item.Some? && item.value.Event? ==> |buffer| < |old(buffer)|
    {
      while true
        invariant Valid() && received == old(received) && IsSuffix(buffer, old(buffer))
        invariant Outcome(codec, old(buffer), None, buffer) && ItemsOf(codec, drained) == ItemsOf(codec, old(drained))
        decreases |buffer|
      {
        ghost var before := buffer;
        var done;
        done, item := Turn(endOfStream);
        OutcomeAfter(codec, old(buffer), before, item, buffer);
        if done {
          return;
        }
      }
    }
  }

  function Listed<E>(item: Option<Item<E>>): seq<Item<E>> {
    if item.Some? then [item.value] else []
  }

  /** The items after a step: the one returned is new, and comes from a frame unless it is
      the early verdict on the frame in the buffer. */
  ghost predicate Told<E>(before: seq<Item<E>>, item: Option<Item<E>>, buffer: Bytes, after: seq<Item<E>>) {
    after == before + Listed(item) || (item == Some(Failure(FrameTooLarge)) && IncompleteTooLarge(buffer) && after == before)
  }

  /** An unterminated frame that may still grow, with the line endings before it stripped. */
  predicate Unfinished(buffer: Bytes, endOfStream: bool) {
    LeadingEnding(buffer, endOfStream) == 0 && Scan(buffer, 0, None).None? && !IncompleteTooLarge(buffer)
  }

  lemma UnfinishedIsDropped<E>(codec: Codec<E>, s: Bytes)
    requires Unfinished(s, true)
    ensures DecodeAll(codec, s) == []
  {
  }

  lemma LoneReturn(b: Bytes)
    requires Scan(b, 0, None).Some?
    ensures b != [] && b != [CR]
  {
  }

  function Concat(chunks: seq<Bytes>): Bytes {
    if chunks == [] then [] else chunks[0] + Concat(chunks[1..])
  }

  predicate EndsInFailure<E>(items: seq<Item<E>>) {
    items != [] && items[|items| - 1].Failure?
  }

  /** `items` have been delivered and `buffer` and `rest` are still to be decoded. */
  ghost predicate Remaining<E(!new)>(codec: Codec<E>, all: seq<Item<E>>, items: seq<Item<E>>, buffer: Bytes, rest: Bytes) {
    !EndsInFailure(items) && items + DecodeAll(codec, buffer + rest) == all
  }

  lemma RemainingStep<E(!new)>(codec: Codec<E>, all: seq<Item<E>>, items: seq<Item<E>>, before: Bytes,
                               rest: Bytes, item: Option<Item<E>>, after: Bytes)
    requires Remaining(codec, all, items, before, rest) && Outcome(codec, before, item, after)
    ensures item.None? ==> Remaining(codec, all, items, after, rest)
    ensures item.Some? && item.value.Event? ==> Remaining(codec, all, items + [item.value], after, rest)
    ensures item.Some? && item.value.Failure? ==> items + [item.value] == all && EndsInFailure(all)
  {
    assert OutcomeFor(codec, before, item, after, rest);
  }

  /** How a stream that delivers `all` was cut: nothing is lost or made up, and what is
      delivered comes from the frames, in their order. Only a frame that outgrows the limit
      fails before its end. If nothing failed, the whole stream was cut up but for an
      unterminated tail, which delivers nothing. */
  ghost predicate CutUp<E(!new)>(codec: Codec<E>, stream: Bytes, all: seq<Item<E>>, pieces: seq<Piece>, tail: Bytes) {
    && AllCut(pieces) && PiecesBytes(pieces) + tail <= stream
    && (all == ItemsOf(codec, pieces) || (all == ItemsOf(codec, pieces) + [Failure(FrameTooLarge)] && IncompleteTooLarge(tail)))
    && (!EndsInFailure(all) ==> PiecesBytes(pieces) + tail == stream && Unfinished(tail, true))
  }

  /** The state of the stream loop: `received` has arrived of `stream` and `rest` has not. */
  ghost predicate Underway<E(!new)>(codec: Codec<E>, stream: Bytes, all: seq<Item<E>>, items: seq<Item<E>>, pieces: seq<Piece>,
                                    buffer: Bytes, received: Bytes, rest: Bytes) {
    && Remaining(codec, all, items, buffer, rest)
    && received + rest == stream && Accounted(pieces, buffer, received) && items == ItemsOf(codec, pieces)
  }

  lemma UnderwayStart<E(!new)>(codec: Codec<E>, stream: Bytes)
    ensures Underway(codec, stream, Reference(codec, stream), [], [], [], [], stream)
  {
    DecodeAllMeetsReference(codec, stream);
    assert [] + stream == stream;
  }

  lemma UnderwayStep<E(!new)>(codec: Codec<E>, stream: Bytes, all: seq<Item<E>>, items: seq<Item<E>>, pieces: seq<Piece>,
                              buffer: Bytes, received: Bytes, rest: Bytes,
                              item: Option<Item<E>>, morePieces: seq<Piece>, after: Bytes)
    requires Underway(codec, stream, all, items, pieces, buffer, received, rest)
    requires Outcome(codec, buffer, item, after) && Accounted(morePieces, after, received)
    requires Told(ItemsOf(codec, pieces), item, after, ItemsOf(codec, morePieces))
    ensures item.None? ==> Underway(codec, stream, all, items, morePieces, after, received, rest)
    ensures item.Some? && item.value.Event? ==> Underway(codec, stream, all, items + [item.value], morePieces, after, received, rest)
    ensures item.Some? && item.value.Failure? ==>
      items + [item.value] == all && EndsInFailure(all) && CutUp(codec, stream, all, morePieces, after)
  {
    RemainingStep(codec, all, items, buffer, rest, item, after);
    assert items + [] == items;
  }

  lemma UnderwayFeed<E(!new)>(codec: Codec<E>, stream: Bytes, all: seq<Item<E>>, items: seq<Item<E>>, pieces: seq<Piece>,
                              buffer: Bytes, received: Bytes, chunk: Bytes, rest: Bytes, bufferAfter: Bytes, receivedAfter: Bytes)
    requires Underway(codec, stream, all, items, pieces, buffer, received, chunk + rest)
    requires bufferAfter == buffer + chunk && receivedAfter == received + chunk
    ensures Underway(codec, stream, all, items, pieces, bufferAfter, receivedAfter, rest)
  {
    assert buffer + chunk + rest == buffer + (chunk + rest) && received + chunk + rest == received + (chunk + rest);
    AccountedMore(pieces, buffer, received, chunk);
  }

  lemma UnderwayEnd<E(!new)>(codec: Codec<E>, stream: Bytes, all: seq<Item<E>>, items: seq<Item<E>>, pieces: seq<Piece>,
                             buffer: Bytes, received: Bytes)
    requires Underway(codec, stream, all, items, pieces, buffer, received, []) && Unfinished(buffer, true)
    ensures items == all && !EndsInFailure(all) && CutUp(codec, stream, all, pieces, buffer)
  {
    assert buffer + [] == buffer && received + [] == received;
    UnfinishedIsDropped(codec, buffer);
  }

  lemma ConcatFrom(chunks: seq<Bytes>, next: nat)
    requires next <= |chunks|
    ensures Concat(chunks[next..]) == if next == |chunks| then [] else chunks[next] + Concat(chunks[next + 1..])
  {
  }

  /** The stream loop of `source_event_stream_at`, for a body that arrives as `chunks` and
      then ends, or breaks off with a transport error. What it yields does not depend on
      where the chunks were cut. */
  method EventStream<E(!new)>(codec: Codec<E>, chunks: seq<Bytes>, transportFails: bool)
    returns (items: seq<Item<E>>, ghost pieces: seq<Piece>, ghost tail: Bytes)
    ensures var all := Reference(codec, Concat(chunks));
      items == if transportFails && !EndsInFailure(all) then all + [Failure(Transport)] else all
    ensures CutUp(codec, Concat(chunks), Reference(codec, Concat(chunks)), pieces, tail)
  {
    var decoder := new Decoder(codec);
    var endOfStream := false;
    var terminalError := false;
    var next := 0;
    items := [];
    ghost var stream, all := Concat(chunks), Reference(codec, Concat(chunks));
    UnderwayStart(codec, stream);
    assert chunks[0..] == chunks;
    while true
      invariant decoder.Valid() && decoder.codec == codec && fresh(decoder)
      invariant next <= |chunks|
      invariant endOfStream ==> next == |chunks| && terminalError == transportFails
      invariant Underway(codec, stream, all, items, decoder.drained, decoder.buffer, decoder.received, Concat(chunks[next..]))
      decreases |chunks| - next, if endOfStream then 0 else 1, |decoder.buffer|
    {
      ghost var before, rest := decoder.buffer, Concat(chunks[next..]);
      pieces := decoder.drained;
      var item := decoder.DecodeNext(endOfStream);
      UnderwayStep(codec, stream, all, items, pieces, before, decoder.received, rest, item, decoder.drained, decoder.buffer);
      pieces, tail := decoder.drained, decoder.buffer;
      if item.Some? {
        items := items + [item.value];
        if item.value.Failure? {
          return;
        }
        continue;
      }
      ConcatFrom(chunks, next);
      if endOfStream {
        UnderwayEnd(codec, stream, all, items, pieces, tail, decoder.received);
        if terminalError {
          items := items + [Failure(Transport)];
        }
        return;
      }
      if next < |chunks| {
        ghost var received := decoder.received;
        decoder.Feed(chunks[next]);
        UnderwayFeed(codec, stream, all, items, pieces, tail, received, chunks[next], Concat(chunks[next + 1..]),
                     decoder.buffer, decoder.received);
        next := next + 1;
      } else {
        terminalError := transportFails;
        endOfStream := true;
      }
    }
  }

  // ---------- bounds ----------

  function SourceBytes<E>(items: seq<Item<E>>): nat {
    if items == [] then 0
    else (if items[0].Event? then items[0].sourceBytes else 0) + SourceBytes(items[1..])
  }

  predicate EventsBounded<E>(items: seq<Item<E>>) {
    forall k :: 0 <= k < |items| && items[k].Event? ==>
      0 < items[k].sourceBytes && items[k].sourceBytes <= MAX_SSE_FRAME_SIZE + MAX_SSE_DELIMITER_PREFIX
  }

  predicate FailureOnlyLast<E>(items: seq<Item<E>>) {
    forall k :: 0 <= k < |items| && items[k].Failure? ==> k == |items| - 1
  }

  /** Every delivered event accounts for at most the limit plus one delimiter, only the
      last item can be a failure, and the events account for distinct bytes. */
  lemma {:induction false} DeliveredBounds<E>(codec: Codec<E>, s: Bytes)
    ensures EventsBounded(DecodeAll(codec, s)) && FailureOnlyLast(DecodeAll(codec, s))
    ensures SourceBytes(DecodeAll(codec, s)) <= |s|
    decreases |s|
  {
    if s != [] && IsEol(s[0]) {
      DeliveredBounds(codec, s[EolLength(s, 0)..]);
    } else if Scan(s, 0, None).Some? {
      var frame := Scan(s, 0, None).value;
      ScanFindsFirst(s, 0, None);
      DecodeAllFrame(codec, s, frame);
      DeliveredBounds(codec, s[frame.end + frame.delimiter..]);
      var rest := DecodeAll(codec, s[frame.end + frame.delimiter..]);
      var items := DecodeAll(codec, s);
      if items != [] && items[0].Event? && items != rest {
        assert items[1..] == rest;
      }
    }
  }
}
