/** Where frames end: the byte scan of the decoder, its resumption after a short read,
    and the verdict on frames that are still incomplete. */
module SseFraming {
  import opened Wrappers
  import opened SseGrammar

  datatype Frame = Frame(end: nat, delimiter: nat)

  /** The scan for two adjacent line endings from `position`, where `previous` is the
      start of a line ending that stops exactly at `position`. */
  function Scan(buffer: Bytes, position: nat, previous: Option<nat>): Option<Frame>
    requires position <= |buffer| && (previous.Some? ==> previous.value <= position)
    decreases |buffer| - position
  {
    if position == |buffer| then None
    else if !IsEol(buffer[position]) then Scan(buffer, position + 1, None)
    else if previous.Some? then Some(Frame(previous.value, position + 1 - previous.value))
    else Scan(buffer, position + EolLength(buffer, position), Some(position))
  }

  /** `frame_end_from`. Whether a carriage return at the very end may stand alone does
      not change the answer. */
  method FrameEndFrom(buffer: Bytes, start: nat, allowTrailingCr: bool) returns (frame: Option<Frame>)
    requires start <= |buffer|
    ensures frame == Scan(buffer, start, None)
  {
    var position := start;
    var previous: Option<nat> := None;
    while position < |buffer|
      invariant start <= position <= |buffer|
      invariant previous.Some? ==> previous.value <= position
      invariant Scan(buffer, position, previous) == Scan(buffer, start, None)
    {
      var b := buffer[position];
      var endingLength := 1;
      if b == CR && previous.Some? {
      } else if b == CR && position + 1 < |buffer| && buffer[position + 1] == LF {
        endingLength := 2;
      } else if b == CR && position + 1 == |buffer| && !allowTrailingCr && previous.None? {
        break;
      } else if !IsEol(b) {
        previous := None;
        position := position + 1;
        continue;
      }
      if previous.Some? {
        return Some(Frame(previous.value, position + endingLength - previous.value));
      }
      previous := Some(position);
      position := position + endingLength;
    }
    return None;
  }

  /** A line ending starts at `e` and another one follows it at once. */
  predicate IsBoundary(b: Bytes, e: nat) {
    && e < |b|
    && IsEol(b[e])
    && !(e > 0 && b[e - 1] == CR && b[e] == LF)
    && e + EolLength(b, e) < |b|
    && IsEol(b[e + EolLength(b, e)])
  }

  ghost predicate NoBoundary(b: Bytes, lo: nat, hi: nat) {
    forall e: nat :: lo <= e < hi ==> !IsBoundary(b, e)
  }

  ghost predicate FirstBoundary(b: Bytes, lo: nat, frame: Option<Frame>) {
    match frame
    case None => NoBoundary(b, lo, |b|)
    case Some(f) =>
      && lo <= f.end
      && IsBoundary(b, f.end)
      && f.delimiter == EolLength(b, f.end) + 1
      && NoBoundary(b, lo, f.end)
  }

  /** The scan finds the first boundary, from any position that a scan from the start
      of a line can reach. */
  lemma {:induction false} ScanFindsFirst(b: Bytes, position: nat, previous: Option<nat>)
    requires position <= |b|
    requires previous.Some? ==>
      && previous.value < |b| && IsEol(b[previous.value])
      && !(previous.value > 0 && b[previous.value - 1] == CR && b[previous.value] == LF)
      && previous.value + EolLength(b, previous.value) == position
    requires previous.None? && 0 < position < |b| ==> !IsEol(b[position - 1]) || !IsEol(b[position])
    ensures FirstBoundary(b, if previous.Some? then previous.value else position, Scan(b, position, previous))
    decreases |b| - position
  {
    if position == |b| {
    } else if !IsEol(b[position]) {
      ScanFindsFirst(b, position + 1, None);
    } else if previous.None? {
      ScanFindsFirst(b, position + EolLength(b, position), Some(position));
    }
  }

  /** The resume offset is safe: no frame ends within the bytes seen before it was set. */
  ghost predicate ResumeSafe(b: Bytes, searchFrom: nat) {
    searchFrom == 0 ||
    (searchFrom + 3 <= |b| &&
     forall e: nat :: IsBoundary(b, e) ==> searchFrom + 3 <= e + EolLength(b, e))
  }

  /** Resuming three bytes before the end of a fruitless scan, even inside a CR LF pair,
      finds the frame that a scan from the beginning finds. */
  lemma ResumeEqualsRestart(b: Bytes, searchFrom: nat)
    requires ResumeSafe(b, searchFrom)
    ensures searchFrom <= |b|
    ensures Scan(b, searchFrom, None) == Scan(b, 0, None)
  {
    ScanFindsFirst(b, 0, None);
    if searchFrom > 0 {
      var p := searchFrom;
      if IsEol(b[p - 1]) && IsEol(b[p]) {
        InsidePair(b, p);
        assert Scan(b, p, None) == Scan(b, p + 2, None);
        ScanFindsFirst(b, p + 2, None);
        FirstBoundaryUnique(b, p + 2, Scan(b, p + 2, None), Scan(b, 0, None));
      } else {
        ScanFindsFirst(b, p, None);
        FirstBoundaryUnique(b, p, Scan(b, p, None), Scan(b, 0, None));
      }
    }
  }

  lemma InsidePair(b: Bytes, p: nat)
    requires 0 < p && p + 3 <= |b| && ResumeSafe(b, p)
    requires IsEol(b[p - 1]) && IsEol(b[p])
    ensures b[p - 1] == CR && b[p] == LF && !IsEol(b[p + 1])
  {
    assert !IsBoundary(b, p - 1);
    assert p > 1 ==> !IsBoundary(b, p - 2);
  }

  lemma FirstBoundaryUnique(b: Bytes, lo: nat, late: Option<Frame>, whole: Option<Frame>)
    requires FirstBoundary(b, lo, late) && FirstBoundary(b, 0, whole)
    requires NoBoundary(b, 0, lo)
    ensures late == whole
  {
  }

  /** A frame that ends within the bytes at hand ends there whatever follows. */
  lemma BoundaryPersists(b: Bytes, rest: Bytes, e: nat)
    ensures IsBoundary(b, e) ==> IsBoundary(b + rest, e)
    ensures e < |b| && IsBoundary(b, e) ==> EolLength(b, e) == EolLength(b + rest, e)
    ensures IsBoundary(b + rest, e) && e + EolLength(b + rest, e) < |b| ==> IsBoundary(b, e)
  {
  }

  lemma ScanPersists(b: Bytes, rest: Bytes)
    ensures Scan(b, 0, None).Some? ==> Scan(b + rest, 0, None) == Scan(b, 0, None)
  {
    ScanFindsFirst(b, 0, None);
    ScanFindsFirst(b + rest, 0, None);
    var found := Scan(b, 0, None);
    if found.Some? {
      var f := found.value;
      BoundaryPersists(b, rest, f.end);
      forall e: nat | e < f.end ensures !IsBoundary(b + rest, e) {
        BoundaryPersists(b, rest, e);
        assert !IsBoundary(b, e);
      }
      FirstBoundaryUnique(b + rest, 0, found, Scan(b + rest, 0, None));
    }
  }

  /** A fruitless scan makes the offset three bytes back safe for every longer buffer. */
  lemma FruitlessScanIsSafe(b: Bytes, rest: Bytes)
    requires Scan(b, 0, None).None?
    ensures ResumeSafe(b + rest, if |b| < 3 then 0 else |b| - 3)
  {
    ScanFindsFirst(b, 0, None);
    forall e: nat | IsBoundary(b + rest, e) ensures |b| <= e + EolLength(b + rest, e) {
      BoundaryPersists(b, rest, e);
    }
  }

  /** `incomplete_frame_is_too_large`. */
  predicate IncompleteTooLarge(buffer: Bytes) {
    |buffer| > MAX_SSE_FRAME_SIZE &&
    var suffix := buffer[MAX_SSE_FRAME_SIZE..];
    || |suffix| > MAX_SSE_DELIMITER_PREFIX
    || suffix !in {[LF], [CR], [LF, CR], [CR, CR], [CR, LF], [CR, LF, CR]}
  }

  /** `leading_line_ending_length`, zero for none. */
  function LeadingEnding(buffer: Bytes, allowTrailingCr: bool): (n: nat)
    ensures n <= |buffer|
    ensures n > 0 ==> IsEol(buffer[0]) && n == EolLength(buffer, 0)
    ensures n == 0 <==> buffer == [] || !IsEol(buffer[0]) || (buffer == [CR] && !allowTrailingCr)
  {
    if |buffer| >= 2 && buffer[0] == CR && buffer[1] == LF then 2
    else if |buffer| == 1 && buffer[0] == CR && !allowTrailingCr then 0
    else if |buffer| >= 1 && IsEol(buffer[0]) then 1
    else 0
  }

  /** The length of `b` without one line ending at its end. */
  function WithoutFinalEol(b: Bytes): (n: nat)
    ensures |b| <= n + 2
  {
    if |b| >= 2 && b[|b| - 2] == CR && b[|b| - 1] == LF then |b| - 2
    else if b != [] && IsEol(b[|b| - 1]) then |b| - 1
    else |b|
  }

  /** In a buffer without a frame end, the list of tolerated suffixes amounts to this:
      everything before a final line ending fits. */
  lemma TooLargeMeaning(b: Bytes)
    requires NoBoundary(b, 0, |b|)
    ensures IncompleteTooLarge(b) <==> WithoutFinalEol(b) > MAX_SSE_FRAME_SIZE
  {
    var m := MAX_SSE_FRAME_SIZE;
    if m < |b| <= m + 3 {
      var suffix := b[m..];
      assert |suffix| == 1 ==> suffix == [b[m]];
      assert |suffix| == 2 ==> suffix == [b[m], b[m + 1]];
      assert |suffix| == 3 ==> suffix == [b[m], b[m + 1], b[m + 2]];
      assert !IsBoundary(b, m) && !IsBoundary(b, m - 1);
    }
  }

  /** The early verdict is exact: an incomplete buffer is rejected if and only if no
      continuation makes its frame end within the limit. */
  lemma EarlyVerdictExact(b: Bytes)
    requires b != [] && !IsEol(b[0]) && Scan(b, 0, None).None?
    ensures IncompleteTooLarge(b) <==>
            !exists rest :: Scan(b + rest, 0, None).Some? && Scan(b + rest, 0, None).value.end <= MAX_SSE_FRAME_SIZE
  {
    ScanFindsFirst(b, 0, None);
    TooLargeMeaning(b);
    if IncompleteTooLarge(b) {
      forall rest
        ensures Scan(b + rest, 0, None).Some? ==> Scan(b + rest, 0, None).value.end > MAX_SSE_FRAME_SIZE
      {
        ScanFindsFirst(b + rest, 0, None);
        var found := Scan(b + rest, 0, None);
        if found.Some? {
          LateEnd(b, rest, found.value.end);
        }
      }
    } else {
      var rest: Bytes := [LF, LF];
      ScanFindsFirst(b + rest, 0, None);
      ClosedByBlankLine(b);
      assert Scan(b + rest, 0, None).value.end <= WithoutFinalEol(b);
    }
  }

  lemma LateEnd(b: Bytes, rest: Bytes, e: nat)
    requires NoBoundary(b, 0, |b|) && IsBoundary(b + rest, e)
    ensures WithoutFinalEol(b) <= e
  {
    BoundaryPersists(b, rest, e);
    var w := b + rest;
    assert forall k :: 0 <= k < |b| ==> w[k] == b[k];
  }

  lemma ClosedByBlankLine(b: Bytes)
    ensures IsBoundary(b + [LF, LF], WithoutFinalEol(b))
  {
  }
}
