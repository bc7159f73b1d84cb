/** Merge-style algorithms over sorted ranges: intersection and in-place removal. */
module Algorithm {

  ghost predicate StrictWeakOrder<T(!new)>(comp: (T, T) -> bool) {
    && (forall x :: !comp(x, x))
    && (forall x, y, z :: comp(x, y) && comp(y, z) ==> comp(x, z))
    && (forall x, y, z :: comp(x, z) ==> comp(x, y) || comp(y, z))
  }

  predicate Equivalent<T>(comp: (T, T) -> bool, x: T, y: T) {
    !comp(x, y) && !comp(y, x)
  }

  ghost predicate Sorted<T>(comp: (T, T) -> bool, s: seq<T>) {
    forall i, j :: 0 <= i < j < |s| ==> !comp(s[j], s[i])
  }

  // ----- what the merge loops compute

  /** The pairs that `generalizedSetIntersection` passes to its action, in order. */
  function Matches<T>(comp: (T, T) -> bool, a: seq<T>, b: seq<T>): seq<(T, T)>
    decreases |a| + |b|
  {
    if a == [] || b == [] then []
    else if comp(a[0], b[0]) then Matches(comp, a[1..], b)
    else if comp(b[0], a[0]) then Matches(comp, a, b[1..])
    else [(a[0], b[0])] + Matches(comp, a[1..], b[1..])
  }

  /** The elements that `removeIfIntersectOrMatch` preserves, in order. */
  function Survivors<T>(comp: (T, T) -> bool, pred: T -> bool, a: seq<T>, b: seq<T>): seq<T>
    decreases |a| + |b|
  {
    if a == [] then []
    else if b == [] || comp(a[0], b[0]) then
      (if pred(a[0]) then [] else [a[0]]) + Survivors(comp, pred, a[1..], b)
    else if comp(b[0], a[0]) then Survivors(comp, pred, a, b[1..])
    else Survivors(comp, pred, a[1..], b[1..])
  }

  /** `generalizedSetIntersection`, with the action recording its calls. */
  method GeneralizedSetIntersection<T>(comp: (T, T) -> bool, a: seq<T>, b: seq<T>) returns (calls: seq<(T, T)>)
    ensures calls == Matches(comp, a, b)
  {
    calls := [];
    var i, j := 0, 0;
    while i < |a| && j < |b|
      invariant 0 <= i <= |a| && 0 <= j <= |b|
      invariant calls + Matches(comp, a[i..], b[j..]) == Matches(comp, a, b)
      decreases |a| - i + |b| - j
    {
      assert a[i..][1..] == a[i + 1..] && b[j..][1..] == b[j + 1..];
      if comp(a[i], b[j]) {
        i := i + 1;
      } else {
        if !comp(b[j], a[i]) {
          calls := calls + [(a[i], b[j])];
          i := i + 1;
        }
        j := j + 1;
      }
    }
  }

  /** `removeIfIntersectOrMatch`: preserved elements move down over ones that were already read. */
  method RemoveIfIntersectOrMatch<T>(comp: (T, T) -> bool, pred: T -> bool, a: array<T>, b: seq<T>) returns (e: nat)
    modifies a
    ensures e <= a.Length && a[..e] == Survivors(comp, pred, old(a[..]), b)
  {
    ghost var o := a[..];
    e := 0;
    var i, j := 0, 0;
    while i != a.Length
      invariant 0 <= e <= i <= a.Length && 0 <= j <= |b|
      invariant forall k :: i <= k < a.Length ==> a[k] == o[k]
      invariant Preserved(comp, pred, o, b, a[..e], i, j)
      decreases a.Length - i + |b| - j
    {
      PreservedStep(comp, pred, o, b, a[..e], i, j);
      if j == |b| || comp(a[i], b[j]) {
        if !pred(a[i]) {
          ghost var kept := a[..e];
          if i != e { a[e] := a[i]; }
          e := e + 1;
          assert a[..e] == kept + [o[i]];
        }
        i := i + 1;
      } else {
        if !comp(b[j], a[i]) { i := i + 1; }
        j := j + 1;
      }
    }
  }

  /** `kept` followed by what the rest of the merge preserves is what the whole merge preserves. */
  ghost predicate Preserved<T>(
    comp: (T, T) -> bool, pred: T -> bool, o: seq<T>, b: seq<T>, kept: seq<T>, i: nat, j: nat)
    requires i <= |o| && j <= |b|
  {
    kept + Survivors(comp, pred, o[i..], b[j..]) == Survivors(comp, pred, o, b)
  }

  lemma PreservedStep<T>(
    comp: (T, T) -> bool, pred: T -> bool, o: seq<T>, b: seq<T>, kept: seq<T>, i: nat, j: nat)
    requires i < |o| && j <= |b| && Preserved(comp, pred, o, b, kept, i, j)
    ensures j == |b| || comp(o[i], b[j]) ==>
      Preserved(comp, pred, o, b, if pred(o[i]) then kept else kept + [o[i]], i + 1, j)
    ensures j < |b| && !comp(o[i], b[j]) ==>
      Preserved(comp, pred, o, b, kept, if comp(b[j], o[i]) then i else i + 1, j + 1)
  {
    SurvivorsStep(comp, pred, o, b, i, j);
  }

  lemma SurvivorsStep<T>(comp: (T, T) -> bool, pred: T -> bool, o: seq<T>, b: seq<T>, i: nat, j: nat)
    requires i < |o| && j <= |b|
    ensures Survivors(comp, pred, o[i..], b[j..]) ==
            if j == |b| || comp(o[i], b[j]) then
              (if pred(o[i]) then [] else [o[i]]) + Survivors(comp, pred, o[i + 1..], b[j..])
            else if comp(b[j], o[i]) then Survivors(comp, pred, o[i..], b[j + 1..])
            else Survivors(comp, pred, o[i + 1..], b[j + 1..])
  {
    assert o[i..][1..] == o[i + 1..];
    if j < |b| { assert b[j..][1..] == b[j + 1..]; }
  }

  // ----- one-for-one matching, said without the merge

  /** How many elements of `s` are equivalent to `x`. */
  function Count<T>(comp: (T, T) -> bool, s: seq<T>, x: T): nat {
    if s == [] then 0 else (if Equivalent(comp, s[0], x) then 1 else 0) + Count(comp, s[1..], x)
  }

  /** Element `k` is paired with an element of `b`: fewer equivalent ones stand before it than `b` has. */
  predicate Matched<T>(comp: (T, T) -> bool, a: seq<T>, b: seq<T>, k: nat)
    requires k < |a|
  {
    Count(comp, a[..k], a[k]) < Count(comp, b, a[k])
  }

  /** The elements from index `k` on that are not matched and fail the predicate. */
  function KeptFrom<T>(comp: (T, T) -> bool, pred: T -> bool, a: seq<T>, b: seq<T>, k: nat): seq<T>
    requires k <= |a|
    decreases |a| - k
  {
    if k == |a| then []
    else (if Matched(comp, a, b, k) || pred(a[k]) then [] else [a[k]]) + KeptFrom(comp, pred, a, b, k + 1)
  }

  /** The matched elements from index `k` on. */
  function MatchedFrom<T>(comp: (T, T) -> bool, a: seq<T>, b: seq<T>, k: nat): seq<T>
    requires k <= |a|
    decreases |a| - k
  {
    if k == |a| then []
    else (if Matched(comp, a, b, k) then [a[k]] else []) + MatchedFrom(comp, a, b, k + 1)
  }

  lemma {:induction false} CountNone<T>(comp: (T, T) -> bool, s: seq<T>, x: T)
    requires forall i :: 0 <= i < |s| ==> !Equivalent(comp, s[i], x)
    ensures Count(comp, s, x) == 0
  {
    if s != [] { CountNone(comp, s[1..], x); }
  }

  lemma Between<T(!new)>(comp: (T, T) -> bool, x: T, y: T, z: T)
    requires StrictWeakOrder(comp) && comp(x, z)
    ensures comp(x, y) || comp(y, z)
  {
  }

  /** Elements below the head of a sorted range have no equivalent in it. */
  lemma BelowHead<T(!new)>(comp: (T, T) -> bool, s: seq<T>, x: T)
    requires StrictWeakOrder(comp) && Sorted(comp, s) && (s == [] || comp(x, s[0]))
    ensures Count(comp, s, x) == 0
  {
    forall i | 0 <= i < |s| ensures !Equivalent(comp, s[i], x) {
      assert i == 0 || !comp(s[i], s[0]);
      Between(comp, x, s[i], s[0]);
    }
    CountNone(comp, s, x);
  }

  /** Dropping the head of `b` when it lies below all of `a`. */
  lemma DropSmaller<T(!new)>(comp: (T, T) -> bool, a: seq<T>, b: seq<T>, k: nat)
    requires StrictWeakOrder(comp) && Sorted(comp, a) && k < |a| && b != [] && comp(b[0], a[0])
    ensures Matched(comp, a, b, k) == Matched(comp, a, b[1..], k)
  {
    assert k == 0 || !comp(a[k], a[0]);
    Between(comp, b[0], a[k], a[0]);
  }

  /** Dropping two equivalent heads. */
  lemma DropPair<T(!new)>(comp: (T, T) -> bool, a: seq<T>, b: seq<T>, k: nat)
    requires StrictWeakOrder(comp) && 1 <= k < |a| && b != [] && Equivalent(comp, a[0], b[0])
    ensures Matched(comp, a, b, k) == Matched(comp, a[1..], b[1..], k - 1)
  {
    assert a[..k][1..] == a[1..][..k - 1];
    assert Equivalent(comp, a[0], a[k]) == Equivalent(comp, b[0], a[k]);
  }

  /** Dropping a head of `a` that lies below all of `b`. */
  lemma DropUnmatched<T(!new)>(comp: (T, T) -> bool, a: seq<T>, b: seq<T>, k: nat)
    requires StrictWeakOrder(comp) && Sorted(comp, b) && 1 <= k < |a| && (b == [] || comp(a[0], b[0]))
    ensures Matched(comp, a, b, k) == Matched(comp, a[1..], b, k - 1)
  {
    assert a[..k][1..] == a[1..][..k - 1];
    if Equivalent(comp, a[0], a[k]) && b != [] {
      Between(comp, a[0], a[k], b[0]);
      BelowHead(comp, b, a[k]);
    }
  }

  /** Element `i` of `a` is element `i - d` of `a'`, with the same status. */
  ghost predicate SameAt<T>(comp: (T, T) -> bool, a: seq<T>, b: seq<T>, a': seq<T>, b': seq<T>, d: nat, i: nat)
    requires d <= i < |a| && |a'| == |a| - d
  {
    a[i] == a'[i - d] && Matched(comp, a, b, i) == Matched(comp, a', b', i - d)
  }

  /** From index `k` on, the elements of `a` have the status that they have `d` places earlier in `a'`. */
  ghost predicate SameStatus<T>(comp: (T, T) -> bool, a: seq<T>, b: seq<T>, a': seq<T>, b': seq<T>, d: nat, k: nat) {
    && |a'| == |a| - d && d <= k <= |a|
    && forall i: nat :: k <= i < |a| ==> SameAt(comp, a, b, a', b', d, i)
  }

  lemma {:induction false} ShiftFrom<T>(
    comp: (T, T) -> bool, pred: T -> bool, a: seq<T>, b: seq<T>, a': seq<T>, b': seq<T>, d: nat, k: nat)
    requires SameStatus(comp, a, b, a', b', d, k)
    ensures KeptFrom(comp, pred, a, b, k) == KeptFrom(comp, pred, a', b', k - d)
    ensures MatchedFrom(comp, a, b, k) == MatchedFrom(comp, a', b', k - d)
    decreases |a| - k
  {
    if k < |a| {
      assert SameAt(comp, a, b, a', b', d, k);
      ShiftFrom(comp, pred, a, b, a', b', d, k + 1);
      ShiftStep(comp, pred, a, b, a', b', k, k - d);
    }
  }

  lemma {:induction false} ShiftStep<T>(
    comp: (T, T) -> bool, pred: T -> bool, a: seq<T>, b: seq<T>, a': seq<T>, b': seq<T>, k: nat, k': nat)
    requires k < |a| && k' < |a'| && a[k] == a'[k']
    requires Matched(comp, a, b, k) == Matched(comp, a', b', k')
    requires KeptFrom(comp, pred, a, b, k + 1) == KeptFrom(comp, pred, a', b', k' + 1)
    requires MatchedFrom(comp, a, b, k + 1) == MatchedFrom(comp, a', b', k' + 1)
    ensures KeptFrom(comp, pred, a, b, k) == KeptFrom(comp, pred, a', b', k')
    ensures MatchedFrom(comp, a, b, k) == MatchedFrom(comp, a', b', k')
  {
  }

  function Firsts<T>(pairs: seq<(T, T)>): seq<T> {
    if pairs == [] then [] else [pairs[0].0] + Firsts(pairs[1..])
  }

  function Seconds<T>(pairs: seq<(T, T)>): seq<T> {
    if pairs == [] then [] else [pairs[0].1] + Seconds(pairs[1..])
  }

  lemma UnmatchedSame<T(!new)>(comp: (T, T) -> bool, a: seq<T>, b: seq<T>)
    requires StrictWeakOrder(comp) && Sorted(comp, b) && a != [] && (b == [] || comp(a[0], b[0]))
    ensures SameStatus(comp, a, b, a[1..], b, 1, 1) && !Matched(comp, a, b, 0)
  {
    BelowHead(comp, b, a[0]);
    forall i: nat | 1 <= i < |a| ensures SameAt(comp, a, b, a[1..], b, 1, i) {
      DropUnmatched(comp, a, b, i);
    }
  }

  lemma HeadUnmatched<T(!new)>(comp: (T, T) -> bool, pred: T -> bool, a: seq<T>, b: seq<T>)
    requires StrictWeakOrder(comp) && Sorted(comp, b) && a != [] && (b == [] || comp(a[0], b[0]))
    ensures KeptFrom(comp, pred, a, b, 0) == (if pred(a[0]) then [] else [a[0]]) + KeptFrom(comp, pred, a[1..], b, 0)
    ensures MatchedFrom(comp, a, b, 0) == MatchedFrom(comp, a[1..], b, 0)
  {
    UnmatchedSame(comp, a, b);
    ShiftFrom(comp, pred, a, b, a[1..], b, 1, 1);
  }

  lemma SmallerSame<T(!new)>(comp: (T, T) -> bool, a: seq<T>, b: seq<T>)
    requires StrictWeakOrder(comp) && Sorted(comp, a) && a != [] && b != [] && comp(b[0], a[0])
    ensures SameStatus(comp, a, b, a, b[1..], 0, 0)
  {
    forall i: nat | 0 <= i < |a| ensures SameAt(comp, a, b, a, b[1..], 0, i) {
      DropSmaller(comp, a, b, i);
    }
  }

  lemma HeadSmaller<T(!new)>(comp: (T, T) -> bool, pred: T -> bool, a: seq<T>, b: seq<T>)
    requires StrictWeakOrder(comp) && Sorted(comp, a) && a != [] && b != [] && comp(b[0], a[0])
    ensures KeptFrom(comp, pred, a, b, 0) == KeptFrom(comp, pred, a, b[1..], 0)
    ensures MatchedFrom(comp, a, b, 0) == MatchedFrom(comp, a, b[1..], 0)
  {
    SmallerSame(comp, a, b);
    ShiftFrom(comp, pred, a, b, a, b[1..], 0, 0);
  }

  lemma HeadMatched<T>(comp: (T, T) -> bool, a: seq<T>, b: seq<T>)
    requires a != [] && b != [] && Equivalent(comp, a[0], b[0])
    ensures Matched(comp, a, b, 0)
  {
    assert Equivalent(comp, b[0], a[0]);
    assert Count(comp, a[..0], a[0]) == 0;
  }

  lemma PairSame<T(!new)>(comp: (T, T) -> bool, a: seq<T>, b: seq<T>)
    requires StrictWeakOrder(comp) && a != [] && b != [] && Equivalent(comp, a[0], b[0])
    ensures SameStatus(comp, a, b, a[1..], b[1..], 1, 1) && Matched(comp, a, b, 0)
  {
    HeadMatched(comp, a, b);
    forall i: nat | 1 <= i < |a| ensures SameAt(comp, a, b, a[1..], b[1..], 1, i) {
      DropPair(comp, a, b, i);
    }
  }

  lemma HeadPair<T(!new)>(comp: (T, T) -> bool, pred: T -> bool, a: seq<T>, b: seq<T>)
    requires StrictWeakOrder(comp) && a != [] && b != [] && Equivalent(comp, a[0], b[0])
    ensures KeptFrom(comp, pred, a, b, 0) == KeptFrom(comp, pred, a[1..], b[1..], 0)
    ensures MatchedFrom(comp, a, b, 0) == [a[0]] + MatchedFrom(comp, a[1..], b[1..], 0)
  {
    PairSame(comp, a, b);
    ShiftFrom(comp, pred, a, b, a[1..], b[1..], 1, 1);
  }

  /**
   On sorted ranges the merge preserves, in order, exactly the elements that are not matched
   one-for-one and fail the predicate.
   */
  lemma {:induction false} SurvivorsAreUnmatched<T(!new)>(comp: (T, T) -> bool, pred: T -> bool, a: seq<T>, b: seq<T>)
    requires StrictWeakOrder(comp) && Sorted(comp, a) && Sorted(comp, b)
    ensures Survivors(comp, pred, a, b) == KeptFrom(comp, pred, a, b, 0)
    decreases |a| + |b|
  {
    if a == [] {
    } else if b == [] || comp(a[0], b[0]) {
      HeadUnmatched(comp, pred, a, b);
      SurvivorsAreUnmatched(comp, pred, a[1..], b);
    } else if comp(b[0], a[0]) {
      HeadSmaller(comp, pred, a, b);
      SurvivorsAreUnmatched(comp, pred, a, b[1..]);
    } else {
      HeadPair(comp, pred, a, b);
      SurvivorsAreUnmatched(comp, pred, a[1..], b[1..]);
    }
  }

  /** The first elements acted on are, in order, exactly the matched elements of the first range. */
  lemma {:induction false} FirstsAreMatched<T(!new)>(comp: (T, T) -> bool, a: seq<T>, b: seq<T>)
    requires StrictWeakOrder(comp) && Sorted(comp, a) && Sorted(comp, b)
    ensures Firsts(Matches(comp, a, b)) == MatchedFrom(comp, a, b, 0)
    decreases |a| + |b|
  {
    if a == [] {
    } else if b == [] || comp(a[0], b[0]) {
      HeadUnmatched(comp, x => true, a, b);
      FirstsAreMatched(comp, a[1..], b);
    } else if comp(b[0], a[0]) {
      HeadSmaller(comp, x => true, a, b);
      FirstsAreMatched(comp, a, b[1..]);
    } else {
      HeadPair(comp, x => true, a, b);
      FirstsAreMatched(comp, a[1..], b[1..]);
      var m := Matches(comp, a[1..], b[1..]);
      assert ([(a[0], b[0])] + m)[1..] == m;
    }
  }

  /** Exchanging the ranges exchanges the elements of every pair. */
  lemma {:induction false} MatchesSwap<T(!new)>(comp: (T, T) -> bool, a: seq<T>, b: seq<T>)
    requires StrictWeakOrder(comp)
    ensures Seconds(Matches(comp, a, b)) == Firsts(Matches(comp, b, a))
    ensures forall k :: 0 <= k < |Matches(comp, a, b)| ==>
              Equivalent(comp, Matches(comp, a, b)[k].0, Matches(comp, a, b)[k].1)
    decreases |a| + |b|
  {
    if a == [] || b == [] {
    } else if comp(a[0], b[0]) {
      MatchesSwap(comp, a[1..], b);
      Asymmetric(comp, a[0], b[0]);
    } else if comp(b[0], a[0]) {
      MatchesSwap(comp, a, b[1..]);
    } else {
      MatchesSwap(comp, a[1..], b[1..]);
      var m, n := Matches(comp, a[1..], b[1..]), Matches(comp, b[1..], a[1..]);
      assert ([(a[0], b[0])] + m)[1..] == m && ([(b[0], a[0])] + n)[1..] == n;
    }
  }

  lemma Asymmetric<T(!new)>(comp: (T, T) -> bool, x: T, y: T)
    requires StrictWeakOrder(comp) && comp(x, y)
    ensures !comp(y, x)
  {
  }

  /**
   The intersection acts, in order, on pairs of equivalent elements whose first elements are exactly
   the matched elements of the first range and whose second elements those of the second.
   */
  lemma MatchesAreMatched<T(!new)>(comp: (T, T) -> bool, a: seq<T>, b: seq<T>)
    requires StrictWeakOrder(comp) && Sorted(comp, a) && Sorted(comp, b)
    ensures Firsts(Matches(comp, a, b)) == MatchedFrom(comp, a, b, 0)
    ensures Seconds(Matches(comp, a, b)) == MatchedFrom(comp, b, a, 0)
    ensures forall k :: 0 <= k < |Matches(comp, a, b)| ==>
              Equivalent(comp, Matches(comp, a, b)[k].0, Matches(comp, a, b)[k].1)
  {
    FirstsAreMatched(comp, a, b);
    FirstsAreMatched(comp, b, a);
    MatchesSwap(comp, a, b);
  }

  // ----- the documented effect

  /** What the header comment promises to preserve: no equivalent in `b` and not matched by the predicate. */
  function Documented<T>(comp: (T, T) -> bool, pred: T -> bool, a: seq<T>, b: seq<T>, k: nat): seq<T>
    requires k <= |a|
    decreases |a| - k
  {
    if k == |a| then []
    else (if 0 < Count(comp, b, a[k]) || pred(a[k]) then [] else [a[k]]) + Documented(comp, pred, a, b, k + 1)
  }

  /** Element `k` has equivalents in `b`, but as many stand before it in `a`. */
  predicate Surplus<T>(comp: (T, T) -> bool, pred: T -> bool, a: seq<T>, b: seq<T>, k: nat)
    requires k < |a|
  {
    !pred(a[k]) && 0 < Count(comp, b, a[k]) <= Count(comp, a[..k], a[k])
  }

  lemma {:induction false} DocumentedFrom<T>(comp: (T, T) -> bool, pred: T -> bool, a: seq<T>, b: seq<T>, k: nat)
    requires k <= |a|
    ensures |Documented(comp, pred, a, b, k)| <= |KeptFrom(comp, pred, a, b, k)|
    ensures KeptFrom(comp, pred, a, b, k) == Documented(comp, pred, a, b, k) <==> NoSurplusFrom(comp, pred, a, b, k)
    decreases |a| - k
  {
    if k < |a| {
      DocumentedFrom(comp, pred, a, b, k + 1);
      var h, kept, doc := [a[k]], KeptFrom(comp, pred, a, b, k + 1), Documented(comp, pred, a, b, k + 1);
      assert NoSurplusFrom(comp, pred, a, b, k) <==> !Surplus(comp, pred, a, b, k) && NoSurplusFrom(comp, pred, a, b, k + 1);
      if Matched(comp, a, b, k) || pred(a[k]) {
        DropHead(comp, pred, a, b, k);
      } else if 0 < Count(comp, b, a[k]) {
        KeepSurplus(comp, pred, a, b, k);
      } else {
        KeepHead(comp, pred, a, b, k);
        SameTails(h, kept, doc);
      }
    }
  }

  predicate NoSurplusFrom<T>(comp: (T, T) -> bool, pred: T -> bool, a: seq<T>, b: seq<T>, k: nat) {
    forall i :: k <= i < |a| ==> !Surplus(comp, pred, a, b, i)
  }

  lemma SameTails<T>(h: seq<T>, x: seq<T>, y: seq<T>)
    ensures h + x == h + y <==> x == y
  {
    assert (h + x)[|h|..] == x && (h + y)[|h|..] == y;
  }

  /** One step of both functions on an element that both leave out. */
  lemma {:induction false} DropHead<T>(comp: (T, T) -> bool, pred: T -> bool, a: seq<T>, b: seq<T>, k: nat)
    requires k < |a| && (Matched(comp, a, b, k) || pred(a[k]))
    ensures KeptFrom(comp, pred, a, b, k) == KeptFrom(comp, pred, a, b, k + 1)
    ensures Documented(comp, pred, a, b, k) == Documented(comp, pred, a, b, k + 1)
    ensures !Surplus(comp, pred, a, b, k)
  {
    assert [] + KeptFrom(comp, pred, a, b, k + 1) == KeptFrom(comp, pred, a, b, k + 1);
    assert [] + Documented(comp, pred, a, b, k + 1) == Documented(comp, pred, a, b, k + 1);
  }

  /** On an element that only the merge keeps. */
  lemma {:induction false} KeepSurplus<T>(comp: (T, T) -> bool, pred: T -> bool, a: seq<T>, b: seq<T>, k: nat)
    requires k < |a| && !Matched(comp, a, b, k) && !pred(a[k]) && 0 < Count(comp, b, a[k])
    ensures KeptFrom(comp, pred, a, b, k) == [a[k]] + KeptFrom(comp, pred, a, b, k + 1)
    ensures Documented(comp, pred, a, b, k) == Documented(comp, pred, a, b, k + 1)
    ensures Surplus(comp, pred, a, b, k)
  {
    assert [] + Documented(comp, pred, a, b, k + 1) == Documented(comp, pred, a, b, k + 1);
  }

  /** On an element that both keep. */
  lemma {:induction false} KeepHead<T>(comp: (T, T) -> bool, pred: T -> bool, a: seq<T>, b: seq<T>, k: nat)
    requires k < |a| && !Matched(comp, a, b, k) && !pred(a[k]) && Count(comp, b, a[k]) == 0
    ensures KeptFrom(comp, pred, a, b, k) == [a[k]] + KeptFrom(comp, pred, a, b, k + 1)
    ensures Documented(comp, pred, a, b, k) == [a[k]] + Documented(comp, pred, a, b, k + 1)
    ensures !Surplus(comp, pred, a, b, k)
  {
  }

  /**
   The header promises to eliminate every element with an equivalent in the second range.  On sorted
   ranges that holds exactly when no class has more kept candidates in the first range than elements
   in the second.
   */
  lemma DocumentedExactly<T(!new)>(comp: (T, T) -> bool, pred: T -> bool, a: seq<T>, b: seq<T>)
    requires StrictWeakOrder(comp) && Sorted(comp, a) && Sorted(comp, b)
    ensures Survivors(comp, pred, a, b) == Documented(comp, pred, a, b, 0)
            <==> forall i :: 0 <= i < |a| ==> !Surplus(comp, pred, a, b, i)
  {
    SurvivorsAreUnmatched(comp, pred, a, b);
    DocumentedFrom(comp, pred, a, b, 0);
  }

  /** Without equivalent elements in the first range the promise holds. */
  lemma DuplicateFree<T(!new)>(comp: (T, T) -> bool, pred: T -> bool, a: seq<T>, b: seq<T>)
    requires StrictWeakOrder(comp) && Sorted(comp, a) && Sorted(comp, b)
    requires forall i, j :: 0 <= i < j < |a| ==> !Equivalent(comp, a[i], a[j])
    ensures Survivors(comp, pred, a, b) == Documented(comp, pred, a, b, 0)
  {
    forall i | 0 <= i < |a| ensures !Surplus(comp, pred, a, b, i) {
      CountNone(comp, a[..i], a[i]);
    }
    DocumentedExactly(comp, pred, a, b);
  }

  /** Two equal elements against one: the second survives. */
  lemma DuplicateSurvives()
    ensures Survivors((x: int, y: int) => x < y, x => false, [1, 1], [1]) == [1]
  {
    var comp, pred := (x: int, y: int) => x < y, (x: int) => false;
    assert [1, 1][1..] == [1] && [1][1..] == [];
    assert Survivors(comp, pred, [1], []) == [1] + Survivors(comp, pred, [], []);
  }
}
