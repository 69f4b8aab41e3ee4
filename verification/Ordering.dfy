/** Sorting, duplicate removal and counting on identities. */
module Ordering {
  function Insert(s: seq<nat>, x: nat): seq<nat> {
    if s == [] || x <= s[0] then [x] + s else [s[0]] + Insert(s[1..], x)
  }

  function Sort(s: seq<nat>): seq<nat> {
    if s == [] then [] else Insert(Sort(s[1..]), s[0])
  }

  /** Keeps the first of each run of equal elements. */
  function Dedup(s: seq<nat>): seq<nat> {
    if |s| <= 1 then s
    else if s[0] == s[1] then Dedup(s[1..])
    else [s[0]] + Dedup(s[1..])
  }

  predicate Increasing(s: seq<nat>) {
    forall i, j :: 0 <= i < j < |s| ==> s[i] <= s[j]
  }

  predicate StrictlyIncreasing(s: seq<nat>) {
    forall i, j :: 0 <= i < j < |s| ==> s[i] < s[j]
  }

  function Elements(s: seq<nat>): set<nat> {
    set x | x in s
  }

  lemma ElementsConcat(s: seq<nat>, t: seq<nat>)
    ensures Elements(s + t) == Elements(s) + Elements(t)
  {
  }

  lemma Prepend(x: nat, s: seq<nat>)
    ensures Increasing(s) && (forall y :: y in s ==> x <= y) ==> Increasing([x] + s)
    ensures StrictlyIncreasing(s) && (forall y :: y in s ==> x < y) ==> StrictlyIncreasing([x] + s)
    ensures Elements([x] + s) == {x} + Elements(s)
  {
    var t := [x] + s;
    ElementsConcat([x], s);
    assert forall j :: 1 <= j < |t| ==> t[j] == s[j - 1] && t[j] in s;
  }

  lemma Uncons(s: seq<nat>)
    requires s != []
    ensures Elements(s) == {s[0]} + Elements(s[1..])
    ensures Increasing(s) ==> Increasing(s[1..]) && forall y :: y in s[1..] ==> s[0] <= y
    ensures StrictlyIncreasing(s) ==> StrictlyIncreasing(s[1..]) && forall y :: y in s[1..] ==> s[0] < y
  {
  }

  lemma {:induction false} InsertElements(s: seq<nat>, x: nat)
    ensures Elements(Insert(s, x)) == Elements(s) + {x} && |Insert(s, x)| == |s| + 1
  {
    if s == [] || x <= s[0] {
      ElementsConcat([x], s);
    } else {
      InsertElements(s[1..], x);
      ElementsConcat([s[0]], Insert(s[1..], x));
      ElementsConcat([s[0]], s[1..]);
      assert s == [s[0]] + s[1..];
    }
  }

  lemma InsertBounds(s: seq<nat>, x: nat, low: nat)
    ensures (forall y :: y in s ==> low <= y) && low <= x ==> forall y :: y in Insert(s, x) ==> low <= y
    ensures (forall y :: y in s ==> low < y) && low < x ==> forall y :: y in Insert(s, x) ==> low < y
  {
    InsertElements(s, x);
    assert forall y :: y in Insert(s, x) ==> y in Elements(Insert(s, x));
    assert forall y :: y in Elements(s) ==> y in s;
  }

  lemma {:induction false} InsertIncreasing(s: seq<nat>, x: nat)
    requires Increasing(s)
    ensures Increasing(Insert(s, x))
  {
    if s == [] {
    } else if x <= s[0] {
      Uncons(s);
      assert forall y :: y in s ==> y == s[0] || y in s[1..];
      Prepend(x, s);
    } else {
      Uncons(s);
      InsertIncreasing(s[1..], x);
      InsertBounds(s[1..], x, s[0]);
      Prepend(s[0], Insert(s[1..], x));
    }
  }

  lemma {:induction false} InsertStrict(s: seq<nat>, x: nat)
    requires StrictlyIncreasing(s) && x !in s
    ensures StrictlyIncreasing(Insert(s, x))
  {
    if s == [] {
    } else if x <= s[0] {
      Uncons(s);
      assert forall y :: y in s ==> y == s[0] || y in s[1..];
      Prepend(x, s);
    } else {
      Uncons(s);
      InsertStrict(s[1..], x);
      InsertBounds(s[1..], x, s[0]);
      Prepend(s[0], Insert(s[1..], x));
    }
  }

  lemma {:induction false} SortMeaning(s: seq<nat>)
    ensures Increasing(Sort(s)) && Elements(Sort(s)) == Elements(s)
  {
    if s != [] {
      SortMeaning(s[1..]);
      InsertElements(Sort(s[1..]), s[0]);
      InsertIncreasing(Sort(s[1..]), s[0]);
      assert s == [s[0]] + s[1..];
      ElementsConcat([s[0]], s[1..]);
    }
  }

  lemma {:induction false} DedupMeaning(s: seq<nat>)
    requires Increasing(s)
    ensures StrictlyIncreasing(Dedup(s)) && Elements(Dedup(s)) == Elements(s)
    ensures s != [] ==> Dedup(s) != [] && Dedup(s)[0] == s[0]
  {
    if |s| > 1 {
      DedupMeaning(s[1..]);
      assert s == [s[0]] + s[1..];
      ElementsConcat([s[0]], s[1..]);
      var rest := Dedup(s[1..]);
      ElementsConcat([s[0]], rest);
      if s[0] != s[1] {
        assert forall y :: y in rest ==> y in Elements(rest);
      } else {
        assert s[0] in Elements(s[1..]);
      }
    }
  }

  /** Sorting and dropping repeats leaves the sorted, duplicate-free list of the elements. */
  lemma SortDedupMeaning(s: seq<nat>)
    ensures StrictlyIncreasing(Dedup(Sort(s))) && Elements(Dedup(Sort(s))) == Elements(s)
  {
    SortMeaning(s);
    DedupMeaning(Sort(s));
  }

  lemma {:induction false} StrictlyIncreasingUnique(s: seq<nat>, t: seq<nat>)
    requires StrictlyIncreasing(s) && StrictlyIncreasing(t) && Elements(s) == Elements(t)
    ensures s == t
  {
    assert s != [] ==> s[0] in Elements(t);
    assert t != [] ==> t[0] in Elements(s);
    if s != [] && t != [] {
      Uncons(s);
      Uncons(t);
      TailElements(s);
      TailElements(t);
      StrictlyIncreasingUnique(s[1..], t[1..]);
    }
  }

  lemma TailElements(s: seq<nat>)
    requires StrictlyIncreasing(s) && s != []
    ensures Elements(s[1..]) == Elements(s) - {s[0]}
  {
  }

  lemma CountedOnce<T>(s: seq<T>, i: nat)
    requires i < |s|
    ensures multiset(s)[s[i]] == 1 <==> forall j :: 0 <= j < |s| && s[j] == s[i] ==> j == i
  {
    var before, after := s[..i], s[i + 1..];
    assert s == before + [s[i]] + after;
    assert multiset(s) == multiset(before) + multiset{s[i]} + multiset(after);
    forall j | 0 <= j < |s| && s[j] == s[i] && j != i ensures multiset(s)[s[i]] > 1 {
      if j < i {
        assert before[j] in multiset(before);
      } else {
        assert after[j - i - 1] in multiset(after);
      }
    }
    if multiset(s)[s[i]] > 1 {
      if s[i] in multiset(before) {
        var j :| 0 <= j < |before| && before[j] == s[i];
      } else {
        assert s[i] in multiset(after);
        var j :| 0 <= j < |after| && after[j] == s[i];
        assert s[j + i + 1] == s[i];
      }
    }
  }
}
