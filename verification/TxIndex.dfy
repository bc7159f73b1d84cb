/**
 The dashboard's ledger-transaction index.

 Scanner and tip-polling threads share one lock; slow fetching happens outside it.  Each section
 under the lock is one step of a transition system, the fetched counts are arbitrary, and a thread
 may die of an exception between sections.  The index may be saved and the process restarted.
 */
module TxIndex {
  import opened Words

  /** One ledger that was added to the total, with the count that was added. */
  datatype Entry = Entry(ledger: int, txs: nat)

  function Sum(entries: seq<Entry>): nat {
    if entries == [] then 0 else Sum(entries[..|entries| - 1]) + entries[|entries| - 1].txs
  }

  // ----- counting a range of ledgers

  /** The dictionary of `_count_seq_range`, which has exactly the keys `lo` to `lo + |counts| - 1`. */
  type Counts = seq<nat>

  function Entries(counts: Counts, lo: int): (r: seq<Entry>)
    ensures |r| == |counts|
    ensures forall i :: 0 <= i < |r| ==> r[i] == Entry(lo + i, counts[i])
  {
    seq(|counts|, i requires 0 <= i < |counts| => Entry(lo + i, counts[i]))
  }

  function Fetched(fetched: map<int, nat>, ledger: int): nat {
    if ledger in fetched then fetched[ledger] else 0
  }

  /** `_count_seq_range`: ledgers whose fetch failed count as 0. */
  method CountSeqRange(start: int, end: int, fetched: map<int, nat>) returns (total: nat, counts: Counts)
    ensures |counts| == if end < start then 0 else end - start + 1
    ensures forall i :: 0 <= i < |counts| ==> counts[i] == Fetched(fetched, start + i)
    ensures total == Sum(Entries(counts, start))
  {
    total, counts := 0, [];
    if end < start { return; }
    for k := start to end + 1
      invariant |counts| == k - start
      invariant forall i :: 0 <= i < |counts| ==> counts[i] == Fetched(fetched, start + i)
      invariant total == Sum(Entries(counts, start))
    {
      var n := Fetched(fetched, k);
      EntriesAppend(counts, n, start);
      counts := counts + [n];
      total := total + n;
    }
  }

  lemma EntriesAppend(counts: Counts, n: nat, lo: int)
    ensures Entries(counts + [n], lo) == Entries(counts, lo) + [Entry(lo + |counts|, n)]
    ensures Sum(Entries(counts + [n], lo)) == Sum(Entries(counts, lo)) + n
  {
    SumAppend(Entries(counts, lo), Entry(lo + |counts|, n));
  }

  lemma SumAppend(entries: seq<Entry>, e: Entry)
    ensures Sum(entries + [e]) == Sum(entries) + e.txs
  {
    assert (entries + [e])[..|entries|] == entries;
  }

  lemma {:induction false} SumConcat(a: seq<Entry>, b: seq<Entry>)
    ensures Sum(a + b) == Sum(a) + Sum(b)
    decreases |b|
  {
    if b == [] {
      assert a + b == a;
    } else {
      var front := b[..|b| - 1];
      assert a + b == (a + front) + [b[|b| - 1]];
      SumAppend(a + front, b[|b| - 1]);
      SumConcat(a, front);
    }
  }

  /** The entries of consecutive ledgers from `lo`. */
  ghost predicate Consecutive(entries: seq<Entry>, lo: int) {
    forall i :: 0 <= i < |entries| ==> entries[i].ledger == lo + i
  }

  /** The loop under the lock: `counts` starts at ledger `first`, and the ledgers after `through` are added one by one. */
  method Advance(total: nat, through: int, first: int, counts: Counts) returns (total': nat, through': int)
    requires first - 1 <= through < first + |counts|
    ensures total' == total + Sum(Entries(counts[through + 1 - first..], through + 1))
    ensures through' == first + |counts| - 1
  {
    total', through' := total, through;
    while through' < first + |counts| - 1
      invariant through <= through' <= first + |counts| - 1
      invariant total' == total + Sum(Entries(counts[through + 1 - first..through' + 1 - first], through + 1))
    {
      var next := through' + 1;
      ghost var done := counts[through + 1 - first..next - first];
      EntriesAppend(done, counts[next - first], through + 1);
      assert done + [counts[next - first]] == counts[through + 1 - first..next + 1 - first];
      total' := total' + counts[next - first];
      through' := next;
    }
    assert counts[through + 1 - first..|counts|] == counts[through + 1 - first..];
  }

  // ----- the shared state

  const BATCH := 500

  /** The module globals, with the history of what was counted. */
  datatype Index = Index(
    start: int, through: int, tip: int, total: nat,
    counted: seq<Entry>,       // every ledger added to the total, in order
    raisedLate: bool)          // start was raised after something had been counted

  datatype Pc =
    | Idle
    | Scanning(from: int, end: int)   // scanner: fetching the ledgers after `from` up to `end`
    | FirstPoll(net: int)             // poller: fetching the first tip ledger
    | Polling(first: int, net: int)   // poller: fetching the ledgers `first` to `net`

  datatype State = State(index: Index, ratePrev: Option<int>, pcs: map<nat, Pc>, saved: Index)

  function Init(): State {
    State(Index(1, 0, 0, 0, [], false), None, map[], Index(1, 0, 0, 0, [], false))
  }

  function PcOf(s: State, t: nat): Pc {
    if t in s.pcs then s.pcs[t] else Idle
  }

  function Max(a: int, b: int): int { if a < b then b else a }
  function Min(a: int, b: int): int { if a < b then a else b }

  /** The tip and the first available ledger are what the node reports; a tip of 0 is no report. */
  datatype Event =
    | ScanBegin(tip: nat, startAvail: int)
    | ScanApply(counts: Counts)
    | PollBegin(net: nat)
    | PollFirstApply
    | PollApply(counts: Counts)
    | Abort
    | Save
    | Restart

  ghost predicate Enabled(s: State, t: nat, e: Event) {
    var pc := PcOf(s, t);
    match e
    case ScanBegin(_, startAvail) => pc.Idle? && 1 <= startAvail
    case ScanApply(counts) => pc.Scanning? && |counts| == pc.end - pc.from
    case PollBegin(_) => pc.Idle?
    case PollFirstApply => pc.FirstPoll?
    case PollApply(counts) => pc.Polling? && |counts| == pc.net - pc.first + 1
    case Abort => true
    case Save => true
    case Restart => true
  }

  /** Skip to the first available ledger; ledgers before it are never counted. */
  function SkipGap(ix: Index, startAvail: int): Index {
    if ix.through < startAvail - 1 then
      ix.(start := startAvail, through := startAvail - 1, raisedLate := ix.raisedLate || ix.counted != [])
    else ix
  }

  /** Add the ledgers after `through`, given counts from ledger `first` on. */
  function Extend(ix: Index, first: int, counts: Counts): Index
    requires first - 1 <= ix.through < first + |counts|
  {
    var added := Entries(counts[ix.through + 1 - first..], ix.through + 1);
    ix.(through := first + |counts| - 1, total := ix.total + Sum(added), counted := ix.counted + added)
  }

  ghost function Next(s: State, t: nat, e: Event): State
    requires Enabled(s, t, e)
  {
    var pc := PcOf(s, t);
    match e
    case ScanBegin(tip, startAvail) =>
      var ix := SkipGap(s.index.(tip := Max(s.index.tip, tip)), startAvail);
      var pc' := if ix.tip == 0 || ix.tip <= ix.through then Idle
                 else Scanning(ix.through, Min(ix.tip, ix.through + BATCH));
      s.(index := ix, pcs := s.pcs[t := pc'])
    case ScanApply(counts) =>
      // applied only if no other thread advanced the index meanwhile
      var ix := if s.index.through == pc.from then Extend(s.index, pc.from + 1, counts) else s.index;
      s.(index := ix, pcs := s.pcs[t := Idle])
    case PollBegin(net) =>
      if net == 0 then s
      else
        var s1 := s.(index := s.index.(tip := Max(s.index.tip, net)));
        if s.ratePrev.None? then s1.(pcs := s.pcs[t := FirstPoll(net)])
        else
          var prev := s.ratePrev.value;
          if net <= prev then s1
          else s1.(pcs := s.pcs[t := Polling(if net - prev > 64 then net - 63 else prev + 1, net)])
    case PollFirstApply => s.(ratePrev := Some(pc.net), pcs := s.pcs[t := Idle])
    case PollApply(counts) =>
      var ix := s.index.(tip := Max(s.index.tip, pc.net));
      var ix' := if pc.first - 1 <= ix.through < pc.net then Extend(ix, pc.first, counts) else ix;
      s.(index := ix', ratePrev := Some(pc.net), pcs := s.pcs[t := Idle])
    case Abort => s.(pcs := s.pcs[t := Idle])
    case Save => s.(saved := s.index)
    case Restart => State(s.saved, None, map[], s.saved)
  }

  // ----- the invariant

  ghost predicate Increasing(entries: seq<Entry>) {
    forall i, j :: 0 <= i < j < |entries| ==> entries[i].ledger < entries[j].ledger
  }

  /** What was counted is exactly the ledgers from `start` to `through`. */
  ghost predicate Contiguous(ix: Index) {
    |ix.counted| == ix.through - ix.start + 1 && Consecutive(ix.counted, ix.start)
  }

  ghost predicate IndexInv(ix: Index) {
    && 1 <= ix.start <= ix.through + 1
    && ix.total == Sum(ix.counted)
    && Increasing(ix.counted)
    && (forall i :: 0 <= i < |ix.counted| ==> ix.counted[i].ledger <= ix.through)
    && (Contiguous(ix) <==> !ix.raisedLate)
    && (ix.raisedLate ==> ix.counted != [] && ix.counted[0].ledger < ix.start)
  }

  ghost predicate Inv(s: State) {
    && IndexInv(s.index) && IndexInv(s.saved)
    && forall t :: PcOf(s, t).Scanning? ==> PcOf(s, t).from < PcOf(s, t).end
  }

  lemma SkipGapKeeps(ix: Index, startAvail: int)
    requires IndexInv(ix) && 1 <= startAvail
    ensures IndexInv(SkipGap(ix, startAvail)) && ix.through <= SkipGap(ix, startAvail).through
  {
    var ix' := SkipGap(ix, startAvail);
    if ix.through < startAvail - 1 {
      if ix.counted == [] {
        assert Contiguous(ix');
      } else {
        assert ix'.counted[0].ledger < startAvail;
        assert !Contiguous(ix');
      }
    }
  }

  /** Appending consecutive ledgers after `through` keeps the order. */
  lemma AppendLater(a: seq<Entry>, b: seq<Entry>, through: int)
    requires Increasing(a) && Consecutive(b, through + 1)
    requires forall i :: 0 <= i < |a| ==> a[i].ledger <= through
    ensures Increasing(a + b)
    ensures forall i :: 0 <= i < |a + b| ==> (a + b)[i].ledger <= through + |b|
  {
  }

  lemma ConsecutiveConcat(a: seq<Entry>, b: seq<Entry>, lo: int)
    requires Consecutive(a, lo) && Consecutive(b, lo + |a|)
    ensures Consecutive(a + b, lo)
  {
  }

  lemma AppendKeeps(ix: Index, added: seq<Entry>, end: int)
    requires IndexInv(ix) && Consecutive(added, ix.through + 1) && |added| == end - ix.through && ix.through < end
    ensures IndexInv(ix.(through := end, total := ix.total + Sum(added), counted := ix.counted + added))
  {
    var ix' := ix.(through := end, total := ix.total + Sum(added), counted := ix.counted + added);
    SumConcat(ix.counted, added);
    AppendLater(ix.counted, added, ix.through);
    AppendContiguous(ix, ix');
  }

  lemma AppendContiguous(ix: Index, ix': Index)
    requires IndexInv(ix) && ix'.start == ix.start && ix.through < ix'.through
    requires |ix.counted| <= |ix'.counted| && ix'.counted[..|ix.counted|] == ix.counted
    requires Consecutive(ix'.counted[|ix.counted|..], ix.through + 1)
    requires |ix'.counted| - |ix.counted| == ix'.through - ix.through
    ensures Contiguous(ix') <==> !ix.raisedLate
  {
    var added := ix'.counted[|ix.counted|..];
    assert ix'.counted == ix.counted + added;
    if Contiguous(ix) {
      ConsecutiveConcat(ix.counted, added, ix.start);
    } else {
      assert ix'.counted[0] == ix.counted[0];
      assert !Consecutive(ix'.counted, ix.start);
    }
  }

  lemma ExtendKeeps(ix: Index, first: int, counts: Counts)
    requires IndexInv(ix) && first - 1 <= ix.through < first + |counts| - 1
    ensures IndexInv(Extend(ix, first, counts))
  {
    AppendKeeps(ix, Entries(counts[ix.through + 1 - first..], ix.through + 1), first + |counts| - 1);
  }

  lemma BeginKeeps(s: State, t: nat, tip: nat, startAvail: int)
    requires Inv(s) && Enabled(s, t, ScanBegin(tip, startAvail))
    ensures var ix := Next(s, t, ScanBegin(tip, startAvail)).index;
            IndexInv(ix) && s.index.through <= ix.through && s.index.tip <= ix.tip
  {
    var ix := s.index.(tip := Max(s.index.tip, tip));
    TipKeeps(s.index, ix.tip);
    SkipGapKeeps(ix, startAvail);
  }

  lemma TipKeeps(ix: Index, tip: int)
    requires IndexInv(ix)
    ensures IndexInv(ix.(tip := tip))
  {
  }

  lemma ScanKeeps(s: State, t: nat, counts: Counts)
    requires Inv(s) && Enabled(s, t, ScanApply(counts))
    ensures var ix := Next(s, t, ScanApply(counts)).index;
            IndexInv(ix) && s.index.through <= ix.through && s.index.tip <= ix.tip
  {
    var pc := PcOf(s, t);
    if s.index.through == pc.from { ExtendKeeps(s.index, pc.from + 1, counts); }
  }

  lemma PollKeeps(s: State, t: nat, counts: Counts)
    requires Inv(s) && Enabled(s, t, PollApply(counts))
    ensures var ix := Next(s, t, PollApply(counts)).index;
            IndexInv(ix) && s.index.through <= ix.through && s.index.tip <= ix.tip
  {
    var pc := PcOf(s, t);
    var ix := s.index.(tip := Max(s.index.tip, pc.net));
    TipKeeps(s.index, ix.tip);
    if pc.first - 1 <= ix.through < pc.net { ExtendKeeps(ix, pc.first, counts); }
  }

  lemma IndexKept(s: State, t: nat, e: Event)
    requires Inv(s) && Enabled(s, t, e)
    ensures IndexInv(Next(s, t, e).index) && IndexInv(Next(s, t, e).saved)
    ensures !e.Restart? ==> s.index.through <= Next(s, t, e).index.through && s.index.tip <= Next(s, t, e).index.tip
  {
    match e
    case ScanBegin(tip, startAvail) => BeginKeeps(s, t, tip, startAvail);
    case ScanApply(counts) => ScanKeeps(s, t, counts);
    case PollApply(counts) => PollKeeps(s, t, counts);
    case PollBegin(net) => TipKeeps(s.index, Max(s.index.tip, net));
    case _ =>
  }

  lemma PcsKept(s: State, t: nat, e: Event, u: nat)
    requires Inv(s) && Enabled(s, t, e)
    ensures PcOf(Next(s, t, e), u).Scanning? ==> PcOf(Next(s, t, e), u).from < PcOf(Next(s, t, e), u).end
  {
    assert PcOf(s, u).Scanning? ==> PcOf(s, u).from < PcOf(s, u).end;
  }

  lemma NextKeeps(s: State, t: nat, e: Event)
    requires Inv(s) && Enabled(s, t, e)
    ensures Inv(Next(s, t, e))
    ensures !e.Restart? ==> s.index.through <= Next(s, t, e).index.through && s.index.tip <= Next(s, t, e).index.tip
  {
    IndexKept(s, t, e);
    forall u { PcsKept(s, t, e, u); }
  }

  // ----- runs

  datatype Action = Action(t: nat, e: Event)

  ghost predicate IsRun(s: State, run: seq<Action>)
    decreases |run|
  {
    run == [] || (Enabled(s, run[0].t, run[0].e) && IsRun(Next(s, run[0].t, run[0].e), run[1..]))
  }

  ghost function After(s: State, run: seq<Action>): State
    requires IsRun(s, run)
    decreases |run|
  {
    if run == [] then s else After(Next(s, run[0].t, run[0].e), run[1..])
  }

  lemma {:induction false} RunKeeps(s: State, run: seq<Action>)
    requires Inv(s) && IsRun(s, run)
    ensures Inv(After(s, run))
    ensures (forall i :: 0 <= i < |run| ==> !run[i].e.Restart?) ==>
              s.index.through <= After(s, run).index.through && s.index.tip <= After(s, run).index.tip
    decreases |run|
  {
    if run != [] {
      NextKeeps(s, run[0].t, run[0].e);
      RunKeeps(Next(s, run[0].t, run[0].e), run[1..]);
    }
  }

  /**
   In every interleaving the total is the sum of the counts over the ledgers that were counted, each
   of them once, in order and none beyond `through`; they are exactly the ledgers from `start` to
   `through` if and only if the start was never raised after something had been counted.
   */
  lemma TotalIsExact(run: seq<Action>)
    requires IsRun(Init(), run)
    ensures var ix := After(Init(), run).index;
            && ix.total == Sum(ix.counted)
            && Increasing(ix.counted)
            && (forall i :: 0 <= i < |ix.counted| ==> ix.counted[i].ledger <= ix.through)
            && (Contiguous(ix) <==> !ix.raisedLate)
  {
    RunKeeps(Init(), run);
  }

  lemma OneLedger(ledger: int, txs: nat)
    ensures Entries([txs], ledger) == [Entry(ledger, txs)] && Sum([Entry(ledger, txs)]) == txs
  {
    SumAppend([], Entry(ledger, txs));
    assert [] + [Entry(ledger, txs)] == [Entry(ledger, txs)];
  }

  /** A run in which the node loses its early ledgers: the total then exceeds the sum over start..through. */
  lemma StartRaisedLate(txs: nat) returns (run: seq<Action>)
    ensures IsRun(Init(), run)
    ensures After(Init(), run).index == Index(10, 9, 20, txs, [Entry(1, txs)], true)
  {
    var a0, a1, a2 := Action(0, ScanBegin(1, 1)), Action(0, ScanApply([txs])), Action(0, ScanBegin(20, 10));
    OneLedger(1, txs);
    var s0 := Init();
    var s1 := Next(s0, 0, a0.e);
    assert PcOf(s1, 0) == Scanning(0, 1) && [txs][0..] == [txs];
    var s2 := Next(s1, 0, a1.e);
    assert s2.index == Index(1, 1, 1, txs, [Entry(1, txs)], false);
    var s3 := Next(s2, 0, a2.e);
    run := ThreeSteps(s0, a0, a1, a2);
  }

  lemma ThreeSteps(s0: State, a0: Action, a1: Action, a2: Action) returns (run: seq<Action>)
    requires Enabled(s0, a0.t, a0.e)
    requires var s1 := Next(s0, a0.t, a0.e);
             Enabled(s1, a1.t, a1.e) && var s2 := Next(s1, a1.t, a1.e); Enabled(s2, a2.t, a2.e)
    ensures IsRun(s0, run)
    ensures After(s0, run) == Next(Next(Next(s0, a0.t, a0.e), a1.t, a1.e), a2.t, a2.e)
  {
    var s1 := Next(s0, a0.t, a0.e);
    var s2 := Next(s1, a1.t, a1.e);
    StepRun(s2, a2, []);
    StepRun(s1, a1, [a2] + []);
    StepRun(s0, a0, [a1] + ([a2] + []));
    run := [a0] + ([a1] + ([a2] + []));
  }

  lemma StepRun(s: State, a: Action, run: seq<Action>)
    requires Enabled(s, a.t, a.e) && IsRun(Next(s, a.t, a.e), run)
    ensures IsRun(s, [a] + run) && After(s, [a] + run) == After(Next(s, a.t, a.e), run)
  {
    assert ([a] + run)[1..] == run;
  }

  // ----- failed fetches

  /** The number of transactions that each ledger really has. */
  type Truth = int -> nat

  /** Fetching reports the true count, or fails and is taken as 0. */
  ghost predicate Reported(truth: Truth, counts: Counts, lo: int) {
    forall k :: 0 <= k < |counts| ==> counts[k] == 0 || counts[k] == truth(lo + k)
  }

  ghost predicate ReportedStep(truth: Truth, s: State, a: Action)
    requires Enabled(s, a.t, a.e)
  {
    match a.e
    case ScanApply(counts) => Reported(truth, counts, PcOf(s, a.t).from + 1)
    case PollApply(counts) => Reported(truth, counts, PcOf(s, a.t).first)
    case _ => true
  }

  ghost predicate ReportedRun(truth: Truth, s: State, run: seq<Action>)
    requires IsRun(s, run)
    decreases |run|
  {
    run != [] ==> ReportedStep(truth, s, run[0]) && ReportedRun(truth, Next(s, run[0].t, run[0].e), run[1..])
  }

  /** What was counted for each ledger is what it has, or nothing. */
  ghost predicate CountedReported(truth: Truth, entries: seq<Entry>) {
    forall i :: 0 <= i < |entries| ==> TrueEntry(truth, entries[i]) || entries[i].txs == 0
  }

  predicate TrueEntry(truth: Truth, e: Entry) {
    e.txs == truth(e.ledger)
  }

  function TrueSum(truth: Truth, entries: seq<Entry>): nat {
    if entries == [] then 0
    else TrueSum(truth, entries[..|entries| - 1]) + truth(entries[|entries| - 1].ledger)
  }

  lemma ExtendReported(truth: Truth, ix: Index, first: int, counts: Counts)
    requires CountedReported(truth, ix.counted) && Reported(truth, counts, first)
    requires first - 1 <= ix.through < first + |counts|
    ensures CountedReported(truth, Extend(ix, first, counts).counted)
  {
    var added := Entries(counts[ix.through + 1 - first..], ix.through + 1);
    forall i | 0 <= i < |added| ensures TrueEntry(truth, added[i]) || added[i].txs == 0 {
      assert added[i].txs == counts[ix.through + 1 - first + i];
    }
  }

  lemma ScanReported(truth: Truth, s: State, t: nat, counts: Counts)
    requires Enabled(s, t, ScanApply(counts)) && Reported(truth, counts, PcOf(s, t).from + 1)
    requires CountedReported(truth, s.index.counted)
    ensures CountedReported(truth, Next(s, t, ScanApply(counts)).index.counted)
  {
    var from, ix' := PcOf(s, t).from, Next(s, t, ScanApply(counts)).index;
    if s.index.through == from {
      ExtendReported(truth, s.index, from + 1, counts);
      assert ix' == Extend(s.index, from + 1, counts);
    } else {
      assert ix' == s.index;
    }
  }

  lemma PollReported(truth: Truth, s: State, t: nat, counts: Counts)
    requires Enabled(s, t, PollApply(counts)) && Reported(truth, counts, PcOf(s, t).first)
    requires CountedReported(truth, s.index.counted)
    ensures CountedReported(truth, Next(s, t, PollApply(counts)).index.counted)
  {
    var pc, ix' := PcOf(s, t), Next(s, t, PollApply(counts)).index;
    var ix := s.index.(tip := Max(s.index.tip, pc.net));
    if pc.first - 1 <= ix.through < pc.net {
      ExtendReported(truth, ix, pc.first, counts);
      assert ix' == Extend(ix, pc.first, counts);
    } else {
      assert ix' == ix;
    }
  }

  /** Every other step counts nothing. */
  lemma OthersCountNothing(s: State, t: nat, e: Event)
    requires Enabled(s, t, e) && !e.ScanApply? && !e.PollApply?
    ensures Next(s, t, e).index.counted == s.index.counted || Next(s, t, e).index.counted == s.saved.counted
  {
  }

  lemma SavedCounts(s: State, t: nat, e: Event)
    requires Enabled(s, t, e)
    ensures Next(s, t, e).saved == s.saved || Next(s, t, e).saved == s.index
  {
  }

  lemma StepReported(truth: Truth, s: State, a: Action)
    requires Enabled(s, a.t, a.e) && ReportedStep(truth, s, a)
    requires CountedReported(truth, s.index.counted) && CountedReported(truth, s.saved.counted)
    ensures CountedReported(truth, Next(s, a.t, a.e).index.counted)
    ensures CountedReported(truth, Next(s, a.t, a.e).saved.counted)
  {
    SavedCounts(s, a.t, a.e);
    match a.e
    case ScanApply(counts) => ScanReported(truth, s, a.t, counts);
    case PollApply(counts) => PollReported(truth, s, a.t, counts);
    case _ => OthersCountNothing(s, a.t, a.e);
  }

  lemma {:induction false} RunReported(truth: Truth, s: State, run: seq<Action>)
    requires IsRun(s, run) && ReportedRun(truth, s, run)
    requires CountedReported(truth, s.index.counted) && CountedReported(truth, s.saved.counted)
    ensures CountedReported(truth, After(s, run).index.counted)
    decreases |run|
  {
    if run != [] {
      StepReported(truth, s, run[0]);
      RunReported(truth, Next(s, run[0].t, run[0].e), run[1..]);
    }
  }

  lemma {:induction false} SumIsTrue(truth: Truth, entries: seq<Entry>)
    requires CountedReported(truth, entries)
    ensures Sum(entries) <= TrueSum(truth, entries)
    ensures Sum(entries) == TrueSum(truth, entries) <==> forall i :: 0 <= i < |entries| ==> TrueEntry(truth, entries[i])
  {
    if entries != [] {
      var n := |entries| - 1;
      SumIsTrue(truth, entries[..n]);
      assert forall i :: 0 <= i < n ==> entries[..n][i] == entries[i];
      assert (forall i :: 0 <= i < |entries| ==> TrueEntry(truth, entries[i])) <==>
        (forall i :: 0 <= i < n ==> TrueEntry(truth, entries[..n][i])) && TrueEntry(truth, entries[n]);
    }
  }

  /**
   A failed fetch is counted as nothing for ever: in every interleaving the total is at most the true
   sum over the counted ledgers, and equal to it exactly when every applied count was the true one.
   */
  lemma TotalIsTrueExactly(truth: Truth, run: seq<Action>)
    requires IsRun(Init(), run) && ReportedRun(truth, Init(), run)
    ensures var ix := After(Init(), run).index;
            && ix.total <= TrueSum(truth, ix.counted)
            && (ix.total == TrueSum(truth, ix.counted) <==>
                  forall i :: 0 <= i < |ix.counted| ==> TrueEntry(truth, ix.counted[i]))
  {
    RunReported(truth, Init(), run);
    RunKeeps(Init(), run);
    SumIsTrue(truth, After(Init(), run).index.counted);
  }

  /** A scan whose only fetch fails leaves the ledger counted with nothing. */
  lemma FailedFetchIsCounted() returns (run: seq<Action>)
    ensures IsRun(Init(), run)
    ensures After(Init(), run).index == Index(1, 1, 1, 0, [Entry(1, 0)], false)
  {
    var a0, a1, a2 := Action(0, ScanBegin(1, 1)), Action(0, ScanApply([0])), Action(0, Save);
    OneLedger(1, 0);
    var s1 := Next(Init(), 0, a0.e);
    assert PcOf(s1, 0) == Scanning(0, 1) && [0][0..] == [0];
    var s2 := Next(s1, 0, a1.e);
    assert s2.index == Index(1, 1, 1, 0, [Entry(1, 0)], false);
    run := ThreeSteps(Init(), a0, a1, a2);
  }
}
