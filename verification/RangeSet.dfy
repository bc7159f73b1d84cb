/** Sets of closed intervals over an unsigned type, their styled strings, and gaps in them. */
module RangeSet {
  import opened Words

  datatype Interval = Interval(first: nat, last: nat)

  /** The minimum number of disjoint intervals: in order, and not even adjacent. */
  predicate Canonical(rs: seq<Interval>) {
    && (forall i :: 0 <= i < |rs| ==> rs[i].first <= rs[i].last)
    && (forall i, j :: 0 <= i < j < |rs| ==> rs[i].last + 1 < rs[j].first)
  }

  predicate Contains(rs: seq<Interval>, v: int) {
    exists i :: 0 <= i < |rs| && rs[i].first <= v <= rs[i].last
  }

  predicate Bounded(rs: seq<Interval>, max: nat) {
    forall i :: 0 <= i < |rs| ==> rs[i].last <= max
  }

  function Min(a: nat, b: nat): nat { if a < b then a else b }
  function Max(a: nat, b: nat): nat { if a < b then b else a }

  // ----- insertion with joining

  /** `insert`: touching and overlapping intervals are joined; an empty interval changes nothing. */
  function Insert(rs: seq<Interval>, lo: nat, hi: nat): seq<Interval> {
    if hi < lo then rs
    else if rs == [] then [Interval(lo, hi)]
    else if hi + 1 < rs[0].first then [Interval(lo, hi)] + rs
    else if rs[0].last + 1 < lo then [rs[0]] + Insert(rs[1..], lo, hi)
    else Insert(rs[1..], Min(lo, rs[0].first), Max(hi, rs[0].last))
  }

  lemma ContainsCons(iv: Interval, rs: seq<Interval>, v: int)
    ensures Contains([iv] + rs, v) <==> iv.first <= v <= iv.last || Contains(rs, v)
  {
    var s := [iv] + rs;
    if iv.first <= v <= iv.last { assert s[0].first <= v <= s[0].last; }
    if Contains(rs, v) {
      var i :| 0 <= i < |rs| && rs[i].first <= v <= rs[i].last;
      assert s[i + 1] == rs[i];
    }
  }

  /** Everything stays above a bound that was below the set and the interval. */
  lemma {:induction false} InsertStart(rs: seq<Interval>, lo: nat, hi: nat, m: nat)
    requires Canonical(rs) && m < lo && (rs != [] ==> m < rs[0].first)
    ensures Insert(rs, lo, hi) != [] ==> m < Insert(rs, lo, hi)[0].first
    decreases |rs|
  {
    if lo <= hi && rs != [] && !(hi + 1 < rs[0].first) && !(rs[0].last + 1 < lo) {
      InsertStart(rs[1..], Min(lo, rs[0].first), Max(hi, rs[0].last), m);
    }
  }

  lemma CanonicalCons(iv: Interval, rs: seq<Interval>)
    requires Canonical(rs) && iv.first <= iv.last && (rs != [] ==> iv.last + 1 < rs[0].first)
    ensures Canonical([iv] + rs)
  {
    var s := [iv] + rs;
    forall i, j | 0 <= i < j < |s| ensures s[i].last + 1 < s[j].first {
      assert s[j] == rs[j - 1] && (j - 1 == 0 || rs[0].last + 1 < rs[j - 1].first);
      if i != 0 { assert s[i] == rs[i - 1]; }
    }
  }

  /** Insertion keeps the set canonical and adds exactly the values of the interval. */
  lemma {:induction false} InsertIsUnion(rs: seq<Interval>, lo: nat, hi: nat)
    requires Canonical(rs)
    ensures Canonical(Insert(rs, lo, hi))
    ensures forall v :: Contains(Insert(rs, lo, hi), v) <==> Contains(rs, v) || lo <= v <= hi
    decreases |rs|
  {
    if hi < lo {
    } else if rs == [] {
      forall v ensures Contains(Insert(rs, lo, hi), v) <==> lo <= v <= hi { ContainsCons(Interval(lo, hi), [], v); }
    } else if hi + 1 < rs[0].first {
      forall v ensures Contains(Insert(rs, lo, hi), v) <==> Contains(rs, v) || lo <= v <= hi {
        ContainsCons(Interval(lo, hi), rs, v);
      }
    } else {
      var rest := rs[1..];
      assert rs == [rs[0]] + rest;
      if rs[0].last + 1 < lo {
        InsertIsUnion(rest, lo, hi);
        var r := Insert(rest, lo, hi);
        InsertStart(rest, lo, hi, rs[0].last + 1);
        CanonicalCons(rs[0], r);
        forall v ensures Contains([rs[0]] + r, v) <==> Contains(rs, v) || lo <= v <= hi {
          ContainsCons(rs[0], r, v);
          ContainsCons(rs[0], rest, v);
        }
      } else {
        InsertIsUnion(rest, Min(lo, rs[0].first), Max(hi, rs[0].last));
        forall v ensures Contains(Insert(rs, lo, hi), v) <==> Contains(rs, v) || lo <= v <= hi {
          ContainsCons(rs[0], rest, v);
        }
      }
    }
  }

  /** Inserting beyond the last interval appends. */
  lemma {:induction false} InsertAppends(rs: seq<Interval>, iv: Interval)
    requires iv.first <= iv.last && forall i :: 0 <= i < |rs| ==> rs[i].last + 1 < iv.first && rs[i].first <= rs[i].last
    ensures Insert(rs, iv.first, iv.last) == rs + [iv]
    decreases |rs|
  {
    if rs != [] {
      InsertAppends(rs[1..], iv);
      assert [rs[0]] + (rs[1..] + [iv]) == rs + [iv];
    }
  }

  // ----- decimal numbers

  function DigitChar(d: nat): char
    requires d < 10
  {
    '0' + d as char
  }

  predicate IsDigit(c: char) { '0' <= c <= '9' }

  predicate AllDigits(s: string) {
    forall i :: 0 <= i < |s| ==> IsDigit(s[i])
  }

  /** `std::to_string`. */
  function Decimal(n: nat): (r: string)
    ensures r != [] && AllDigits(r)
  {
    if n < 10 then [DigitChar(n)] else Decimal(n / 10) + [DigitChar(n % 10)]
  }

  function Numeral(s: string): nat
    requires AllDigits(s)
  {
    if s == [] then 0 else Numeral(s[..|s| - 1]) * 10 + (s[|s| - 1] - '0') as nat
  }

  /** `lexicalCastChecked` to an unsigned type with maximum `max`: one optional `+`, then digits only. */
  function Parse(max: nat, s: string): Option<nat> {
    var t := if s != [] && s[0] == '+' then s[1..] else s;
    if t != [] && AllDigits(t) && Numeral(t) <= max then Some(Numeral(t)) else None
  }

  lemma {:induction false} NumeralOfDecimal(n: nat)
    ensures Numeral(Decimal(n)) == n
  {
    if n >= 10 {
      NumeralOfDecimal(n / 10);
      var s := Decimal(n);
      assert s[..|s| - 1] == Decimal(n / 10);
    } else {
      assert Decimal(n)[..0] == [];
    }
  }

  lemma ParseOfDecimal(max: nat, n: nat)
    requires n <= max
    ensures Parse(max, Decimal(n)) == Some(n)
  {
    NumeralOfDecimal(n);
    assert IsDigit(Decimal(n)[0]);
  }

  // ----- splitting

  /** `boost::split` on one separator: always at least one token, possibly empty ones. */
  function Split(s: string, sep: char): (r: seq<string>)
    ensures 1 <= |r|
  {
    if s == [] then [[]]
    else
      var r := Split(s[1..], sep);
      if s[0] == sep then [[]] + r else [[s[0]] + r[0]] + r[1..]
  }

  lemma {:induction false} SplitToken(p: string, sep: char)
    requires sep !in p
    ensures Split(p, sep) == [p]
  {
    if p != [] {
      SplitToken(p[1..], sep);
      assert [p[0]] + p[1..] == p;
    }
  }

  lemma {:induction false} SplitFirst(p: string, rest: string, sep: char)
    requires sep !in p
    ensures Split(p + [sep] + rest, sep) == [p] + Split(rest, sep)
  {
    if p == [] {
      assert (p + [sep] + rest)[1..] == rest;
    } else {
      assert (p + [sep] + rest)[1..] == p[1..] + [sep] + rest;
      SplitFirst(p[1..], rest, sep);
      assert [p[0]] + p[1..] == p;
    }
  }

  // ----- styled strings

  /** `to_string` of an interval. */
  function IntervalString(iv: Interval): string {
    if iv.first == iv.last then Decimal(iv.first) else Decimal(iv.first) + "-" + Decimal(iv.last)
  }

  function Joined(rs: seq<Interval>): string
    requires rs != []
  {
    if |rs| == 1 then IntervalString(rs[0]) else IntervalString(rs[0]) + "," + Joined(rs[1..])
  }

  /** Every interval followed by a comma. */
  function Terminated(rs: seq<Interval>): string {
    if rs == [] then "" else IntervalString(rs[0]) + "," + Terminated(rs[1..])
  }

  lemma {:induction false} TerminatedIsJoined(rs: seq<Interval>)
    requires rs != []
    ensures Terminated(rs) == Joined(rs) + ","
  {
    if |rs| == 1 {
      assert rs[1..] == [];
    } else {
      TerminatedIsJoined(rs[1..]);
    }
  }

  lemma TerminatedStep(rs: seq<Interval>, i: nat, s: string)
    requires i < |rs|
    ensures s + Terminated(rs[i..]) == s + (IntervalString(rs[i]) + ",") + Terminated(rs[i + 1..])
  {
    assert rs[i..][1..] == rs[i + 1..];
  }

  /** `to_string` of a set. */
  method ToString(rs: seq<Interval>) returns (s: string)
    ensures s == if rs == [] then "empty" else Joined(rs)
  {
    if rs == [] { return "empty"; }
    s := "";
    for i := 0 to |rs|
      invariant s + Terminated(rs[i..]) == Terminated(rs)
    {
      TerminatedStep(rs, i, s);
      s := s + (IntervalString(rs[i]) + ",");
    }
    TerminatedIsJoined(rs);
    assert s == Joined(rs) + ",";
    s := s[..|s| - 1];
  }

  /** The interval that one token of `fromString` stands for: a number or a range, possibly an empty one. */
  function TokenInterval(max: nat, t: string): Option<Interval> {
    var parts := Split(t, '-');
    if |parts| == 1 then
      var front :- Parse(max, parts[0]);
      Some(Interval(front, front))
    else if |parts| == 2 then
      var front :- Parse(max, parts[0]);
      var back :- Parse(max, parts[1]);
      Some(Interval(front, back))
    else None
  }

  /** One pass of the loop over tokens. */
  function ParseToken(max: nat, rs: seq<Interval>, t: string): Option<seq<Interval>> {
    var iv :- TokenInterval(max, t);
    Some(Insert(rs, iv.first, iv.last))
  }

  function ParseTokens(max: nat, rs: seq<Interval>, tokens: seq<string>): Option<seq<Interval>>
    decreases |tokens|
  {
    if tokens == [] then Some(rs)
    else
      var rs' :- ParseToken(max, rs, tokens[0]);
      ParseTokens(max, rs', tokens[1..])
  }

  predicate Denotes(max: nat, t: string, v: int) {
    var iv := TokenInterval(max, t);
    iv.Some? && iv.value.first <= v <= iv.value.last
  }

  /** `result` is what the tokens mean, added to `rs`: nothing unless all of them parse, else a set with exactly their values. */
  ghost predicate Means(max: nat, rs: seq<Interval>, tokens: seq<string>, result: Option<seq<Interval>>) {
    && (result.Some? <==> forall i :: 0 <= i < |tokens| ==> TokenInterval(max, tokens[i]).Some?)
    && (result.Some? ==>
          && Canonical(result.value) && Bounded(result.value, max)
          && forall v :: Contains(result.value, v) <==>
               Contains(rs, v) || exists i :: 0 <= i < |tokens| && Denotes(max, tokens[i], v))
  }

  lemma {:induction false} InsertBounded(rs: seq<Interval>, lo: nat, hi: nat, max: nat)
    requires Bounded(rs, max) && hi <= max
    ensures Bounded(Insert(rs, lo, hi), max)
    decreases |rs|
  {
    if lo <= hi && rs != [] && rs[0].first <= hi + 1 {
      if rs[0].last + 1 < lo {
        InsertBounded(rs[1..], lo, hi, max);
      } else {
        InsertBounded(rs[1..], Min(lo, rs[0].first), Max(hi, rs[0].last), max);
      }
    }
  }

  lemma TokenKeeps(max: nat, rs: seq<Interval>, t: string)
    requires Canonical(rs) && Bounded(rs, max) && TokenInterval(max, t).Some?
    ensures var next := ParseToken(max, rs, t);
            && next.Some? && Canonical(next.value) && Bounded(next.value, max)
            && forall v :: Contains(next.value, v) <==> Contains(rs, v) || Denotes(max, t, v)
  {
    var iv := TokenInterval(max, t).value;
    InsertIsUnion(rs, iv.first, iv.last);
    InsertBounded(rs, iv.first, iv.last, max);
  }

  lemma MeansCons(max: nat, rs: seq<Interval>, t: string, next: seq<Interval>, rest: seq<string>, result: Option<seq<Interval>>)
    requires TokenInterval(max, t).Some? && Means(max, next, rest, result)
    requires forall v :: Contains(next, v) <==> Contains(rs, v) || Denotes(max, t, v)
    ensures Means(max, rs, [t] + rest, result)
  {
    var tokens := [t] + rest;
    if result.Some? {
      forall v ensures Contains(result.value, v) <==>
          Contains(rs, v) || exists i :: 0 <= i < |tokens| && Denotes(max, tokens[i], v)
      {
        if Denotes(max, t, v) { assert Denotes(max, tokens[0], v); }
        if i :| 0 <= i < |rest| && Denotes(max, rest[i], v) { assert Denotes(max, tokens[i + 1], v); }
        if i :| 0 <= i < |tokens| && Denotes(max, tokens[i], v) && !Denotes(max, t, v) {
          assert tokens[i] == rest[i - 1];
        }
      }
    } else {
      var i :| 0 <= i < |rest| && TokenInterval(max, rest[i]).None?;
      assert tokens[i + 1] == rest[i];
    }
  }

  /** What is parsed is exactly what the tokens mean. */
  lemma {:induction false} ParsedMeans(max: nat, rs: seq<Interval>, tokens: seq<string>)
    requires Canonical(rs) && Bounded(rs, max)
    ensures Means(max, rs, tokens, ParseTokens(max, rs, tokens))
    decreases |tokens|
  {
    if tokens != [] {
      HeadTail(tokens);
      if TokenInterval(max, tokens[0]).Some? {
        var next := ParseToken(max, rs, tokens[0]).value;
        TokenKeeps(max, rs, tokens[0]);
        ParsedMeans(max, next, tokens[1..]);
        MeansCons(max, rs, tokens[0], next, tokens[1..], ParseTokens(max, next, tokens[1..]));
      }
    }
  }

  /**
   `fromString`: accepts exactly when every token parses, and then holds exactly the tokens' values,
   in canonical form and within the type; a rejected string leaves the set empty.
   */
  method FromString(max: nat, s: string) returns (result: bool, rs: seq<Interval>)
    ensures Means(max, [], Split(s, ','), if result then Some(rs) else None)
    ensures !result ==> rs == []
    ensures result ==> ParseTokens(max, [], Split(s, ',')) == Some(rs)
  {
    result, rs := true, [];
    var tokens := Split(s, ',');
    var i := 0;
    ParsedMeans(max, [], tokens);
    while i < |tokens|
      invariant 0 <= i <= |tokens| && result
      invariant ParseTokens(max, rs, tokens[i..]) == ParseTokens(max, [], tokens)
    {
      assert tokens[i..][1..] == tokens[i + 1..];
      var next := ParseToken(max, rs, tokens[i]);
      if next.None? { return false, []; }
      rs := next.value;
      i := i + 1;
    }
  }

  lemma IntervalToken(max: nat, rs: seq<Interval>, iv: Interval)
    requires iv.first <= iv.last <= max
    ensures ParseToken(max, rs, IntervalString(iv)) == Some(Insert(rs, iv.first, iv.last))
    ensures ',' !in IntervalString(iv)
  {
    var d, e := Decimal(iv.first), Decimal(iv.last);
    ParseOfDecimal(max, iv.first);
    ParseOfDecimal(max, iv.last);
    assert '-' !in d && '-' !in e && ',' !in d && ',' !in e;
    if iv.first == iv.last {
      SplitToken(d, '-');
    } else {
      SplitFirst(d, e, '-');
      SplitToken(e, '-');
      assert d + "-" + e == d + ['-'] + e;
    }
  }

  lemma ParseStep(max: nat, rs: seq<Interval>, tokens: seq<string>, next: seq<Interval>, rest: seq<string>)
    requires tokens != [] && tokens[1..] == rest && ParseToken(max, rs, tokens[0]) == Some(next)
    ensures ParseTokens(max, rs, tokens) == ParseTokens(max, next, rest)
  {
  }

  function Tokens(rs: seq<Interval>): seq<string> {
    if rs == [] then [] else [IntervalString(rs[0])] + Tokens(rs[1..])
  }

  lemma {:induction false} JoinedSplits(rs: seq<Interval>)
    requires rs != [] && forall i :: 0 <= i < |rs| ==> ',' !in IntervalString(rs[i])
    ensures Split(Joined(rs), ',') == Tokens(rs)
  {
    if |rs| == 1 {
      SplitToken(Joined(rs), ',');
      assert rs[1..] == [];
    } else {
      SplitFirst(IntervalString(rs[0]), Joined(rs[1..]), ',');
      JoinedSplits(rs[1..]);
    }
  }

  /** Parsing interval `k` of a canonical set after the ones before it appends it. */
  lemma NextParses(max: nat, rs: seq<Interval>, k: nat)
    requires k < |rs| && Canonical(rs) && Bounded(rs, max)
    ensures ',' !in IntervalString(rs[k])
    ensures ParseToken(max, rs[..k], IntervalString(rs[k])) == Some(rs[..k + 1])
  {
    IntervalToken(max, rs[..k], rs[k]);
    InsertAppends(rs[..k], rs[k]);
    assert rs[..k] + [rs[k]] == rs[..k + 1];
  }

  lemma {:induction false} TokensParse(max: nat, rs: seq<Interval>, k: nat)
    requires k <= |rs| && Canonical(rs) && Bounded(rs, max)
    ensures ParseTokens(max, rs[..k], Tokens(rs[k..])) == Some(rs)
    decreases |rs| - k
  {
    if k == |rs| {
      assert rs[..k] == rs;
    } else {
      NextParses(max, rs, k);
      assert rs[k..][1..] == rs[k + 1..];
      ParseStep(max, rs[..k], Tokens(rs[k..]), rs[..k + 1], Tokens(rs[k + 1..]));
      TokensParse(max, rs, k + 1);
    }
  }

  /** For every non-empty canonical set the styled string parses back to the same set. */
  lemma RoundTrip(max: nat, rs: seq<Interval>)
    requires rs != [] && Canonical(rs) && Bounded(rs, max)
    ensures ParseTokens(max, [], Split(Joined(rs), ',')) == Some(rs)
  {
    forall k | 0 <= k < |rs| ensures ',' !in IntervalString(rs[k]) { NextParses(max, rs, k); }
    JoinedSplits(rs);
    TokensParse(max, rs, 0);
    assert rs[..0] == [] && rs[0..] == rs;
  }

  /** The string for the empty set does not parse. */
  lemma EmptyDoesNotParse(max: nat)
    ensures ParseTokens(max, [], Split("empty", ',')) == None
  {
    SplitToken("empty", ',');
    SplitToken("empty", '-');
    assert !IsDigit("empty"[0]);
  }

  // ----- gaps

  /** `[lo, hi]` minus a canonical set: the gaps, in order. */
  function Gaps(lo: nat, hi: nat, rs: seq<Interval>): seq<Interval>
    decreases |rs|
  {
    if hi < lo then []
    else if rs == [] then [Interval(lo, hi)]
    else if rs[0].last < lo then Gaps(lo, hi, rs[1..])
    else if hi < rs[0].first then [Interval(lo, hi)]
    else (if lo < rs[0].first then [Interval(lo, rs[0].first - 1)] else []) + Gaps(rs[0].last + 1, hi, rs[1..])
  }

  /** The last of the gaps `g` in `[lo, hi]` ends at the greatest absent value; without a gap everything is present. */
  ghost predicate LastGapEnds(lo: nat, hi: nat, rs: seq<Interval>, g: seq<Interval>) {
    if g == [] then forall v :: lo <= v <= hi ==> Contains(rs, v)
    else var m := g[|g| - 1].last; GreatestAbsent(lo, hi, rs, m)
  }

  ghost predicate GreatestAbsent(lo: nat, hi: nat, rs: seq<Interval>, m: nat) {
    lo <= m <= hi && !Contains(rs, m) && forall v :: m < v <= hi ==> Contains(rs, v)
  }

  lemma BelowFirst(rs: seq<Interval>, v: int)
    requires Canonical(rs) && (rs != [] ==> v < rs[0].first)
    ensures !Contains(rs, v)
  {
    forall i | 0 <= i < |rs| ensures v < rs[i].first {
      assert i == 0 || rs[0].last + 1 < rs[i].first;
    }
  }

  lemma {:induction false} LastGap(lo: nat, hi: nat, rs: seq<Interval>)
    requires Canonical(rs)
    ensures LastGapEnds(lo, hi, rs, Gaps(lo, hi, rs))
    decreases |rs|
  {
    if hi < lo {
    } else if rs == [] || hi < rs[0].first {
      BelowFirst(rs, hi);
    } else if rs[0].last < lo {
      LastGap(lo, hi, rs[1..]);
      GapPassed(lo, hi, rs, Gaps(lo, hi, rs[1..]));
    } else {
      LastGap(rs[0].last + 1, hi, rs[1..]);
      GapBefore(lo, hi, rs, Gaps(rs[0].last + 1, hi, rs[1..]));
    }
  }

  /** An interval below the range changes nothing. */
  lemma GapPassed(lo: nat, hi: nat, rs: seq<Interval>, g: seq<Interval>)
    requires rs != [] && rs[0].last < lo && LastGapEnds(lo, hi, rs[1..], g)
    ensures LastGapEnds(lo, hi, rs, g)
  {
    HeadTail(rs);
    forall v | lo <= v ensures Contains(rs, v) <==> Contains(rs[1..], v) { ContainsCons(rs[0], rs[1..], v); }
  }

  /** The gap in front of the first interval counts only if none follows it. */
  lemma GapBefore(lo: nat, hi: nat, rs: seq<Interval>, g: seq<Interval>)
    requires Canonical(rs) && rs != [] && lo <= rs[0].last && rs[0].first <= hi
    requires LastGapEnds(rs[0].last + 1, hi, rs[1..], g)
    ensures LastGapEnds(lo, hi, rs, (if lo < rs[0].first then [Interval(lo, rs[0].first - 1)] else []) + g)
  {
    HeadTail(rs);
    forall v ensures Contains(rs, v) <==> rs[0].first <= v <= rs[0].last || Contains(rs[1..], v) {
      ContainsCons(rs[0], rs[1..], v);
    }
    if g == [] && lo < rs[0].first { BelowFirst(rs, rs[0].first - 1); }
  }

  /** `prevMissing` over an unsigned type with maximum `max`; `t - 1` wraps for `t == 0`. */
  function PrevMissing(max: nat, rs: seq<Interval>, t: nat, minVal: nat): Option<nat> {
    if rs == [] || t == minVal then None
    else
      var g := Gaps(minVal, if t == 0 then max else t - 1, rs);
      if g == [] then None else Some(g[|g| - 1].last)
  }

  /** The documented result: the largest absent value in `[minVal, t)`, if any. */
  ghost predicate IsPrevMissing(rs: seq<Interval>, t: nat, minVal: nat, r: Option<nat>) {
    match r
    case Some(v) => minVal <= v < t && !Contains(rs, v) && forall w :: v < w < t ==> Contains(rs, w)
    case None => forall v :: minVal <= v < t ==> Contains(rs, v)
  }

  /** For non-empty sets and `t` above the minimum the result is the documented one. */
  lemma PrevMissingFound(max: nat, rs: seq<Interval>, t: nat, minVal: nat)
    requires Canonical(rs) && rs != [] && minVal < t
    ensures IsPrevMissing(rs, t, minVal, PrevMissing(max, rs, t, minVal))
  {
    LastGap(minVal, t - 1, rs);
  }

  /**
   Over all arguments the result is the documented one, except for an empty set asked above its
   minimum, and for `t == 0` below the minimum when the wrapped range has an absent value.
   */
  lemma PrevMissingExactly(max: nat, rs: seq<Interval>, t: nat, minVal: nat)
    requires Canonical(rs) && t <= max && minVal <= max
    ensures IsPrevMissing(rs, t, minVal, PrevMissing(max, rs, t, minVal))
            <==> !(rs == [] && minVal < t)
                 && !(rs != [] && t == 0 && 0 < minVal && exists v :: minVal <= v <= max && !Contains(rs, v))
  {
    if rs == [] {
      if minVal < t { assert !Contains(rs, minVal); }
    } else if t == 0 && 0 < minVal {
      LastGap(minVal, max, rs);
    } else if minVal < t {
      PrevMissingFound(max, rs, t, minVal);
    }
  }
}
