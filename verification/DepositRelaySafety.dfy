/**
 What the deposit relay promises: no deposit is minted twice, none is forgotten, and no block is
 skipped, with the exact conditions under which the first and the last fail.
 */
module DepositRelaySafety {
  import opened Words
  import opened DepositRelay

  // ----- what stays true of a state

  function Ids(s: seq<string>): set<string> {
    set x | x in s
  }

  ghost predicate OnChain(chain: Chain, d: Log) {
    d.Deposit? && exists b: nat :: d in chain(b)
  }

  /** The deposit is minted, pending, or had a mint attempt reported failed. */
  predicate Handled(st: RelayState, id: string) {
    id in st.minted || id in Keys(st.pending) || id in st.failed
  }

  ghost predicate AllHandled(st: RelayState, logs: seq<Log>) {
    forall i :: 0 <= i < |logs| && logs[i].Deposit? ==> Handled(st, logs[i].id)
  }

  /** Every decodable deposit of the blocks `lo` to `hi` is accounted for. */
  ghost predicate Covered(chain: Chain, st: RelayState, lo: nat, hi: nat) {
    forall b: nat :: lo <= b <= hi ==> AllHandled(st, chain(b))
  }

  predicate Distinct(ids: seq<string>) {
    forall i, j :: 0 <= i < j < |ids| ==> ids[i] != ids[j]
  }

  /** One mint record per minted deposit, in order, with no deposit twice. */
  predicate MintedOnce(st: RelayState) {
    && |st.mints| == |st.minted|
    && (forall i :: 0 <= i < |st.mints| ==> st.mints[i].Deposit? && st.mints[i].id == st.minted[i])
    && Distinct(st.minted)
  }

  /** Nothing is minted or queued that is not on the chain. */
  ghost predicate Backed(chain: Chain, st: RelayState) {
    && (forall i :: 0 <= i < |st.mints| ==> OnChain(chain, st.mints[i]))
    && (forall i :: 0 <= i < |st.pending| ==> OnChain(chain, st.pending[i]))
  }

  /** The cursor has scanned from the first block on, and unless it jumped, without a hole. */
  ghost predicate CursorCovers(chain: Chain, st: RelayState) {
    st.lastBlock.Some? ==>
      && st.first <= st.lastBlock.value
      && (!st.gap ==> Covered(chain, st, st.first, st.lastBlock.value))
  }

  ghost predicate Consistent(chain: Chain, st: RelayState) {
    MintedOnce(st) && Backed(chain, st) && CursorCovers(chain, st)
  }

  /** Nothing is forgotten between `a` and `b`, and the mint list only grows. */
  ghost predicate Grows(a: RelayState, b: RelayState) {
    && a.minted <= b.minted && a.mints <= b.mints
    && (forall id :: Handled(a, id) ==> Handled(b, id))
  }

  predicate SameCursor(a: RelayState, b: RelayState) {
    a.lastBlock == b.lastBlock && a.first == b.first && a.gap == b.gap
  }

  /** A state that grows without moving the cursor still covers what it covered. */
  lemma CoverageGrows(chain: Chain, a: RelayState, b: RelayState)
    requires CursorCovers(chain, a) && Grows(a, b) && SameCursor(a, b)
    ensures CursorCovers(chain, b)
  {
    if a.lastBlock.Some? && !a.gap { CoveredGrows(chain, a, b, a.first, a.lastBlock.value); }
  }

  lemma CoveredGrows(chain: Chain, a: RelayState, b: RelayState, lo: nat, hi: nat)
    requires Covered(chain, a, lo, hi) && Grows(a, b)
    ensures Covered(chain, b, lo, hi)
  {
    forall k: nat | lo <= k <= hi ensures AllHandled(b, chain(k)) { assert AllHandled(a, chain(k)); }
  }

  lemma {:induction false} KeysAppend(pending: seq<Log>, d: Log)
    requires d.Deposit?
    ensures Keys(pending + [d]) == Keys(pending) + {d.id}
  {
    if pending == [] {
      assert pending + [d] == [d];
    } else {
      KeysAppend(pending[1..], d);
      assert (pending + [d])[1..] == pending[1..] + [d];
    }
  }

  lemma {:induction false} WithoutKeys(pending: seq<Log>, ids: set<string>)
    ensures Keys(Without(pending, ids)) == Keys(pending) - ids
    ensures forall d :: d in Without(pending, ids) ==> d in pending
  {
    if pending != [] {
      WithoutKeys(pending[1..], ids);
      var p, rest := pending[0], Without(pending[1..], ids);
      assert ([p] + rest)[1..] == rest && [] + rest == rest;
      if p.Deposit? && p.id in ids {
        assert Without(pending, ids) == rest;
      } else {
        assert Without(pending, ids) == [p] + rest;
      }
    }
  }

  lemma QueueKeeps(chain: Chain, st: RelayState, d: Log)
    requires Consistent(chain, st) && OnChain(chain, d)
    ensures Consistent(chain, Queue(st, d)) && Grows(st, Queue(st, d))
    ensures forall id :: Handled(Queue(st, d), id) <==> Handled(st, id) || id == d.id
  {
    KeysAppend(st.pending, d);
    CoverageGrows(chain, st, Queue(st, d));
  }

  lemma RecordKeeps(chain: Chain, st: RelayState, d: Log)
    requires Consistent(chain, st) && OnChain(chain, d) && d.id !in st.minted
    ensures Consistent(chain, Record(st, d)) && Grows(st, Record(st, d))
    ensures Record(st, d).minted == st.minted + [d.id]
    ensures forall id :: Handled(Record(st, d), id) <==> Handled(st, id) || id == d.id
  {
    CoverageGrows(chain, st, Record(st, d));
  }

  lemma FailKeeps(chain: Chain, st: RelayState, id: string)
    requires Consistent(chain, st)
    ensures Consistent(chain, Fail(st, id)) && Grows(st, Fail(st, id))
    ensures forall x :: Handled(Fail(st, id), x) <==> Handled(st, x) || x == id
  {
    CoverageGrows(chain, st, Fail(st, id));
  }

  lemma DropKeeps(chain: Chain, st: RelayState, ids: set<string>)
    requires Consistent(chain, st) && ids <= Ids(st.minted)
    ensures Consistent(chain, Drop(st, ids)) && Grows(st, Drop(st, ids))
    ensures forall id :: Handled(Drop(st, ids), id) <==> Handled(st, id)
  {
    WithoutKeys(st.pending, ids);
    forall id ensures Handled(Drop(st, ids), id) <==> Handled(st, id) { }
    assert Backed(chain, Drop(st, ids)) by {
      forall i | 0 <= i < |Drop(st, ids).pending| ensures OnChain(chain, Drop(st, ids).pending[i]) {
        assert Drop(st, ids).pending[i] in st.pending;
      }
    }
    CoverageGrows(chain, st, Drop(st, ids));
  }

  // ----- what stays true of the world

  /** A scan that has begun in `a` has begun in `b`, at the same block. */
  predicate SameStart(a: RelayState, b: RelayState) {
    a.lastBlock.Some? ==> b.lastBlock.Some? && b.first == a.first
  }

  /**
   Both states are consistent, the file is an earlier state of the memory, and until a restart has
   forgotten a mint, the mints that took effect are exactly those recorded, in order.
   */
  ghost predicate Sound(c: Setting, w: World) {
    && Consistent(c.chain, w.st) && Consistent(c.chain, w.saved)
    && w.saved.minted <= w.st.minted
    && (w.saved.gap ==> w.st.gap)
    && SameStart(w.saved, w.st)
    && (!c.dryRun ==> Ids(w.st.minted) <= Ids(w.issued) && (w.forgot || w.issued == w.st.minted))
  }

  /** Some deposit with this id is in a block from `lo` to `hi`. */
  ghost predicate Appears(chain: Chain, lo: nat, hi: nat, id: string) {
    exists b: nat, d :: lo <= b <= hi && InBlock(chain, b, d, id)
  }

  predicate InBlock(chain: Chain, b: nat, d: Log, id: string) {
    d in chain(b) && d.Deposit? && d.id == id
  }

  /** From `w` to `w'` nothing is forgotten, and what is newly handled comes from the blocks `lo` to `hi`. */
  ghost predicate Proceeds(c: Setting, w: World, w': World, lo: nat, hi: nat) {
    && Grows(w.st, w'.st) && w.issued <= w'.issued && w'.forgot == w.forgot
    && forall id :: Handled(w'.st, id) ==> Handled(w.st, id) || Appears(c.chain, lo, hi, id)
  }

  lemma ProceedsTransitive(c: Setting, w: World, w': World, w'': World, lo: nat, hi: nat)
    requires Proceeds(c, w, w', lo, hi) && Proceeds(c, w', w'', lo, hi)
    ensures Proceeds(c, w, w'', lo, hi)
  {
  }

  lemma SaveKeeps(c: Setting, w: World)
    requires Sound(c, w)
    ensures Sound(c, Save(c, w).0) && Save(c, w).0.st == w.st
    ensures Save(c, w).0.issued == w.issued && Save(c, w).0.forgot == w.forgot
  {
  }

  lemma MintKeeps(c: Setting, w: World, d: Log)
    requires Sound(c, w) && OnChain(c.chain, d) && d.id !in w.st.minted
    ensures Sound(c, Mint(c, w, d)) && Grows(w.st, Mint(c, w, d).st) && w.issued <= Mint(c, w, d).issued
    ensures forall id :: Handled(Mint(c, w, d).st, id) <==> Handled(w.st, id) || id == d.id
  {
    RecordKeeps(c.chain, w.st, d);
    assert Ids(w.st.minted + [d.id]) == Ids(w.st.minted) + {d.id};
    assert Ids(w.issued + [d.id]) == Ids(w.issued) + {d.id};
  }

  /** A change of the state in memory that records no mint. */
  lemma ChangeKeeps(c: Setting, w: World, st: RelayState)
    requires Sound(c, w) && Consistent(c.chain, st) && st.minted == w.st.minted
    requires (w.st.gap ==> st.gap) && SameStart(w.st, st)
    ensures Sound(c, w.(st := st))
  {
  }

  /** What one attempt at a deposit may do: at most it becomes handled, and the cursor stays. */
  ghost predicate Attempt(c: Setting, w: World, w': World, id: string) {
    && Sound(c, w') && Grows(w.st, w'.st) && SameCursor(w.st, w'.st)
    && w.issued <= w'.issued && w'.forgot == w.forgot
    && forall x :: Handled(w'.st, x) ==> Handled(w.st, x) || x == id
  }

  lemma FailAttempt(c: Setting, w: World, id: string, n: nat)
    requires Sound(c, w)
    ensures Attempt(c, w, w.(calls := n, st := Fail(w.st, id)), id) && Handled(Fail(w.st, id), id)
  {
    FailKeeps(c.chain, w.st, id);
    ChangeKeeps(c, w.(calls := n), Fail(w.st, id));
  }

  lemma QueueAttempt(c: Setting, w: World, d: Log, n: nat)
    requires Sound(c, w) && OnChain(c.chain, d)
    ensures Attempt(c, w, w.(calls := n, st := Queue(w.st, d)), d.id) && Handled(Queue(w.st, d), d.id)
  {
    QueueKeeps(c.chain, w.st, d);
    ChangeKeeps(c, w.(calls := n), Queue(w.st, d));
  }

  lemma NoAttempt(c: Setting, w: World, id: string, n: nat)
    requires Sound(c, w)
    ensures Attempt(c, w, w.(calls := n), id)
  {
  }

  /** A mint and a save that may fail. */
  lemma MintAttempt(c: Setting, w: World, d: Log, n: nat)
    requires Sound(c, w) && OnChain(c.chain, d) && d.id !in w.st.minted
    ensures var w' := Save(c, Mint(c, w.(calls := n), d)).0;
            Attempt(c, w, w', d.id) && d.id in w'.st.minted
  {
    NoAttempt(c, w, d.id, n);
    MintKeeps(c, w.(calls := n), d);
    SaveKeeps(c, Mint(c, w.(calls := n), d));
  }

  /** A mint that also takes the deposit off the queue. */
  lemma MintAndDropAttempt(c: Setting, w: World, d: Log, n: nat)
    requires Sound(c, w) && OnChain(c.chain, d) && d.id !in w.st.minted
    ensures var w2 := Mint(c, w.(calls := n), d);
            var w' := Save(c, w2.(st := Drop(w2.st, {d.id}))).0;
            Attempt(c, w, w', d.id) && d.id in w'.st.minted
  {
    NoAttempt(c, w, d.id, n);
    MintKeeps(c, w.(calls := n), d);
    var w2 := Mint(c, w.(calls := n), d);
    DropKeeps(c.chain, w2.st, {d.id});
    ChangeKeeps(c, w2, Drop(w2.st, {d.id}));
    SaveKeeps(c, w2.(st := Drop(w2.st, {d.id})));
  }

  lemma AttemptProceeds(c: Setting, w: World, w': World, id: string, lo: nat, hi: nat)
    requires Attempt(c, w, w', id) && (Handled(w.st, id) || Appears(c.chain, lo, hi, id))
    ensures Proceeds(c, w, w', lo, hi)
  {
  }

  lemma RetryOneAttempt(c: Setting, w: World, d: Log)
    requires Sound(c, w) && OnChain(c.chain, d)
    ensures Attempt(c, w, RetryOne(c, w, d).0, d.id)
    ensures RetryOne(c, w, d).1 ==> d.id in RetryOne(c, w, d).0.st.minted
  {
    var reply, w', n := c.env.handle(w.calls), RetryOne(c, w, d).0, w.calls + 1;
    if d.id in w.st.minted {
      NoAttempt(c, w, d.id, w.calls);
      assert w' == w.(calls := w.calls);
    } else if reply == Minted {
      MintAttempt(c, w, d, n);
      assert w' == Save(c, Mint(c, w.(calls := n), d)).0;
    } else if reply == MintFailed {
      FailAttempt(c, w, d.id, n);
      assert w' == w.(calls := n, st := Fail(w.st, d.id));
    } else {
      NoAttempt(c, w, d.id, n);
      assert w' == w.(calls := n);
    }
  }

  lemma RetryOneKeeps(c: Setting, w: World, d: Log, lo: nat, hi: nat)
    requires Sound(c, w) && OnChain(c.chain, d) && Handled(w.st, d.id)
    ensures var (w', done, raised) := RetryOne(c, w, d);
            && Sound(c, w') && Proceeds(c, w, w', lo, hi) && SameCursor(w.st, w'.st)
            && (done ==> d.id in w'.st.minted)
  {
    RetryOneAttempt(c, w, d);
    AttemptProceeds(c, w, RetryOne(c, w, d).0, d.id, lo, hi);
  }

  /** Every entry of `todo` is a queued deposit of the chain. */
  ghost predicate Queued(c: Setting, st: RelayState, todo: seq<Log>) {
    forall i :: 0 <= i < |todo| ==> OnChain(c.chain, todo[i]) && Handled(st, todo[i].id)
  }

  lemma {:induction false} RetryAllKeeps(c: Setting, w: World, todo: seq<Log>, resolved: set<string>, lo: nat, hi: nat)
    requires Sound(c, w) && Queued(c, w.st, todo) && resolved <= Ids(w.st.minted)
    ensures var (w', resolved', raised) := RetryAll(c, w, todo, resolved);
            && Sound(c, w') && Proceeds(c, w, w', lo, hi) && SameCursor(w.st, w'.st)
            && resolved' <= Ids(w'.st.minted)
    decreases |todo|
  {
    if todo != [] {
      var d := todo[0];
      assert OnChain(c.chain, d);
      RetryOneKeeps(c, w, d, lo, hi);
      var (w1, done, raised) := RetryOne(c, w, d);
      if !raised {
        var next := if done then resolved + {d.id} else resolved;
        assert Queued(c, w1.st, todo[1..]) by {
          forall i | 0 <= i < |todo[1..]| ensures OnChain(c.chain, todo[1..][i]) && Handled(w1.st, todo[1..][i].id) {
            assert todo[1..][i] == todo[i + 1] && Handled(w.st, todo[i + 1].id);
          }
        }
        assert Ids(w.st.minted) <= Ids(w1.st.minted);
        RetryAllKeeps(c, w1, todo[1..], next, lo, hi);
        ProceedsTransitive(c, w, w1, RetryAll(c, w1, todo[1..], next).0, lo, hi);
      }
    }
  }

  lemma {:induction false} PendingHandled(st: RelayState, pending: seq<Log>, i: nat)
    requires i < |pending| && pending[i].Deposit?
    ensures pending[i].id in Keys(pending)
  {
    if i > 0 { PendingHandled(st, pending[1..], i - 1); }
  }

  lemma RetryKeeps(c: Setting, w: World, lo: nat, hi: nat)
    requires Sound(c, w)
    ensures var (w', raised) := Retry(c, w);
            Sound(c, w') && Proceeds(c, w, w', lo, hi) && SameCursor(w.st, w'.st)
  {
    forall i | 0 <= i < |w.st.pending| ensures OnChain(c.chain, w.st.pending[i]) && Handled(w.st, w.st.pending[i].id) {
      PendingHandled(w.st, w.st.pending, i);
    }
    RetryAllKeeps(c, w, w.st.pending, {}, lo, hi);
    var (w1, resolved, raised) := RetryAll(c, w, w.st.pending, {});
    if !raised {
      DropKeeps(c.chain, w1.st, resolved);
      ChangeKeeps(c, w1, Drop(w1.st, resolved));
      SaveKeeps(c, w1.(st := Drop(w1.st, resolved)));
    }
  }

  /** A log that is malformed, or a deposit of the blocks `lo` to `hi`. */
  ghost predicate Logged(c: Setting, lo: nat, hi: nat, d: Log) {
    d.Deposit? ==> OnChain(c.chain, d) && Appears(c.chain, lo, hi, d.id)
  }

  lemma HandleMinted(c: Setting, w: World, d: Log)
    requires Sound(c, w) && OnChain(c.chain, d) && d.id !in w.st.minted && c.env.handle(w.calls) == Minted
    ensures Attempt(c, w, HandleOne(c, w, d).0, d.id) && Handled(HandleOne(c, w, d).0.st, d.id)
  {
    var n := w.calls + 1;
    MintAndDropAttempt(c, w, d, n);
    var w2 := Mint(c, w.(calls := n), d);
    assert HandleOne(c, w, d).0 == Save(c, w2.(st := Drop(w2.st, {d.id}))).0;
  }

  lemma HandleOneAttempt(c: Setting, w: World, d: Log)
    requires Sound(c, w) && OnChain(c.chain, d)
    ensures Attempt(c, w, HandleOne(c, w, d).0, d.id)
    ensures !HandleOne(c, w, d).1 ==> Handled(HandleOne(c, w, d).0.st, d.id)
  {
    var reply, w', n := c.env.handle(w.calls), HandleOne(c, w, d).0, w.calls + 1;
    if d.id in w.st.minted {
      NoAttempt(c, w, d.id, w.calls);
      assert w' == w.(calls := w.calls);
    } else if reply == Minted {
      HandleMinted(c, w, d);
    } else if reply == MintFailed {
      FailAttempt(c, w, d.id, n);
      assert w' == w.(calls := n, st := Fail(w.st, d.id));
    } else if reply == Raised {
      NoAttempt(c, w, d.id, n);
      assert w' == w.(calls := n);
    } else {
      QueueAttempt(c, w, d, n);
      assert w' == w.(calls := n, st := Queue(w.st, d));
    }
  }

  lemma HandleOneKeeps(c: Setting, w: World, d: Log, lo: nat, hi: nat)
    requires Sound(c, w) && Logged(c, lo, hi, d)
    ensures var (w', raised) := HandleOne(c, w, d);
            && Sound(c, w') && Proceeds(c, w, w', lo, hi) && SameCursor(w.st, w'.st)
            && (!raised && d.Deposit? ==> Handled(w'.st, d.id))
  {
    if d.Deposit? {
      HandleOneAttempt(c, w, d);
      AttemptProceeds(c, w, HandleOne(c, w, d).0, d.id, lo, hi);
    }
  }

  lemma {:induction false} HandleAllKeeps(c: Setting, w: World, logs: seq<Log>, lo: nat, hi: nat)
    requires Sound(c, w) && forall i :: 0 <= i < |logs| ==> Logged(c, lo, hi, logs[i])
    ensures var (w', raised) := HandleAll(c, w, logs);
            && Sound(c, w') && Proceeds(c, w, w', lo, hi) && SameCursor(w.st, w'.st)
            && (!raised ==> AllHandled(w'.st, logs))
    decreases |logs|
  {
    if logs != [] {
      HandleOneKeeps(c, w, logs[0], lo, hi);
      var (w1, raised) := HandleOne(c, w, logs[0]);
      if !raised {
        assert forall i :: 0 <= i < |logs[1..]| ==> logs[1..][i] == logs[i + 1];
        HandleAllKeeps(c, w1, logs[1..], lo, hi);
        var w2 := HandleAll(c, w1, logs[1..]).0;
        ProceedsTransitive(c, w, w1, w2, lo, hi);
        AllHandledCons(w1.st, w2.st, logs);
      }
    }
  }

  lemma AllHandledCons(a: RelayState, b: RelayState, logs: seq<Log>)
    requires logs != [] && Grows(a, b) && (logs[0].Deposit? ==> Handled(a, logs[0].id))
    ensures AllHandled(b, logs[1..]) ==> AllHandled(b, logs)
  {
    forall i | 0 < i < |logs| ensures logs[i] == logs[1..][i - 1] { }
  }

  /** Accounting for all fetched logs is accounting for every block of the range. */
  lemma {:induction false} LogsCover(chain: Chain, st: RelayState, lo: nat, hi: nat)
    requires AllHandled(st, LogsIn(chain, lo, hi))
    ensures Covered(chain, st, lo, hi)
    decreases hi - lo
  {
    if lo <= hi {
      var here, rest := chain(lo), LogsIn(chain, lo + 1, hi);
      assert LogsIn(chain, lo, hi) == here + rest;
      assert AllHandled(st, here) by {
        assert forall i :: 0 <= i < |here| ==> (here + rest)[i] == here[i];
      }
      assert AllHandled(st, rest) by {
        assert forall i :: 0 <= i < |rest| ==> (here + rest)[|here| + i] == rest[i];
      }
      LogsCover(chain, st, lo + 1, hi);
    }
  }

  lemma {:induction false} LogsLogged(c: Setting, from: nat, to: nat, lo: nat, hi: nat, d: Log)
    requires d in LogsIn(c.chain, from, to) && lo <= from && to <= hi
    ensures Logged(c, lo, hi, d)
    decreases if from <= to then to + 1 - from else 0
  {
    if d !in c.chain(from) {
      assert from <= to;
      LogsLogged(c, from + 1, to, lo, hi, d);
    } else if d.Deposit? {
      assert InBlock(c.chain, from, d, d.id);
    }
  }

  lemma AdvanceKeeps(chain: Chain, st: RelayState, from: nat, to: nat)
    requires Consistent(chain, st) && from <= to && Covered(chain, st, from, to)
    requires st.lastBlock.Some? ==> st.lastBlock.value < from
    ensures Consistent(chain, Advance(st, from, to)) && Grows(st, Advance(st, from, to))
    ensures Covered(chain, Advance(st, from, to), from, to)
  {
    var st' := Advance(st, from, to);
    CoveredGrows(chain, st, st', from, to);
    if st.lastBlock.Some? && !st'.gap { CoveredGrows(chain, st, st', st.first, st.lastBlock.value); }
  }

  /** The cursor stays, or stands at `to` after a scan that began at `from`. */
  predicate Moved(a: RelayState, b: RelayState, from: nat, to: nat) {
    && b.lastBlock == Some(to)
    && b.first == (if a.lastBlock.None? then from else a.first)
    && b.gap == (a.gap || (a.lastBlock.Some? && a.lastBlock.value + 1 < from))
  }

  /** What one range of blocks promises, complete or aborted. */
  ghost predicate ChunkOutcome(c: Setting, w: World, w': World, raised: bool, from: nat, to: nat, lo: nat, hi: nat) {
    && Sound(c, w') && Proceeds(c, w, w', lo, hi)
    && (Moved(w.st, w'.st, from, to) || (raised && SameCursor(w.st, w'.st)))
    && (!raised ==> Covered(c.chain, w'.st, from, to))
  }

  /** Once all logs are handled, the cursor moves and the state is saved, or the save raises. */
  lemma CursorAdvances(c: Setting, w: World, w2: World, from: nat, to: nat, lo: nat, hi: nat)
    requires Sound(c, w2) && Proceeds(c, w, w2, lo, hi) && SameCursor(w.st, w2.st)
    requires from <= to && (w.st.lastBlock.Some? ==> w.st.lastBlock.value < from)
    requires AllHandled(w2.st, LogsIn(c.chain, from, to))
    ensures var r := Save(c, w2.(st := Advance(w2.st, from, to))); ChunkOutcome(c, w, r.0, r.1, from, to, lo, hi)
  {
    LogsCover(c.chain, w2.st, from, to);
    AdvanceKeeps(c.chain, w2.st, from, to);
    ChangeKeeps(c, w2, Advance(w2.st, from, to));
    SaveKeeps(c, w2.(st := Advance(w2.st, from, to)));
  }

  lemma ProcessKeeps(c: Setting, w: World, from: nat, to: nat, lo: nat, hi: nat)
    requires Sound(c, w) && lo <= from <= to <= hi && (w.st.lastBlock.Some? ==> w.st.lastBlock.value < from)
    ensures ChunkOutcome(c, w, Process(c, w, from, to).0, Process(c, w, from, to).1, from, to, lo, hi)
  {
    var w1, logs := w.(calls := w.calls + 1), LogsIn(c.chain, from, to);
    if !c.env.logsRaise(w.calls) {
      forall i | 0 <= i < |logs| ensures Logged(c, lo, hi, logs[i]) { LogsLogged(c, from, to, lo, hi, logs[i]); }
      HandleAllKeeps(c, w1, logs, lo, hi);
      var (w2, raised) := HandleAll(c, w1, logs);
      if !raised {
        CursorAdvances(c, w, w2, from, to, lo, hi);
      }
    }
  }

  /** The cursor stands at a block of `from` to `head`, after a scan that began at `from`. */
  predicate Scanned(a: RelayState, b: RelayState, from: nat, head: nat) {
    b.lastBlock.Some? && from <= b.lastBlock.value <= head && Moved(a, b, from, b.lastBlock.value)
  }

  /** What scanning from `cursor` to `head` promises, complete or aborted; new deposits come from `lo` to `hi`. */
  ghost predicate ScanOutcome(c: Setting, w: World, w': World, raised: bool, cursor: nat, head: nat, lo: nat, hi: nat) {
    && Sound(c, w') && Proceeds(c, w, w', lo, hi)
    && (SameCursor(w.st, w'.st) || Scanned(w.st, w'.st, cursor, head))
    && (!raised && cursor <= head ==> Moved(w.st, w'.st, cursor, head) && Covered(c.chain, w'.st, cursor, head))
  }

  lemma {:induction false} ChunksKeeps(c: Setting, w: World, cursor: nat, head: nat, lo: nat, hi: nat)
    requires Sound(c, w) && lo <= cursor && head <= hi && (w.st.lastBlock.Some? ==> w.st.lastBlock.value < cursor)
    ensures ScanOutcome(c, w, Chunks(c, w, cursor, head).0, Chunks(c, w, cursor, head).1, cursor, head, lo, hi)
    decreases head + 1 - cursor
  {
    if head < cursor {
      NothingScanned(c, w, cursor, head, lo, hi);
    } else {
      var to := if cursor + CHUNK - 1 < head then cursor + CHUNK - 1 else head;
      ProcessKeeps(c, w, cursor, to, lo, hi);
      ChunksUnfold(c, w, cursor, to, head);
      var r1 := Process(c, w, cursor, to);
      if !r1.1 {
        ChunkDone(c, w, r1.0, cursor, to, lo, hi);
        ChunksKeeps(c, r1.0, to + 1, head, lo, hi);
      }
      ChunkThenRest(c, w, r1, Chunks(c, r1.0, to + 1, head), cursor, to, head, lo, hi);
    }
  }

  lemma ChunksUnfold(c: Setting, w: World, cursor: nat, to: nat, head: nat)
    requires cursor <= head && to == if cursor + CHUNK - 1 < head then cursor + CHUNK - 1 else head
    ensures var r1 := Process(c, w, cursor, to);
            Chunks(c, w, cursor, head) == if r1.1 then r1 else Chunks(c, r1.0, to + 1, head)
  {
  }

  lemma ChunkDone(c: Setting, w: World, w1: World, from: nat, to: nat, lo: nat, hi: nat)
    requires ChunkOutcome(c, w, w1, false, from, to, lo, hi)
    ensures Sound(c, w1) && w1.st.lastBlock == Some(to)
  {
  }

  lemma ChunkThenRest(
    c: Setting, w: World, r1: (World, bool), r2: (World, bool), cursor: nat, to: nat, head: nat, lo: nat, hi: nat)
    requires cursor <= to <= head && ChunkOutcome(c, w, r1.0, r1.1, cursor, to, lo, hi)
    requires !r1.1 ==> ScanOutcome(c, r1.0, r2.0, r2.1, to + 1, head, lo, hi)
    ensures var r := if r1.1 then r1 else r2; ScanOutcome(c, w, r.0, r.1, cursor, head, lo, hi)
  {
    if r1.1 {
      ScanAborts(c, w, r1.0, cursor, to, head, lo, hi);
    } else {
      ScanContinues(c, w, r1.0, r2.0, r2.1, cursor, to, head, lo, hi);
    }
  }

  lemma NothingScanned(c: Setting, w: World, cursor: nat, head: nat, lo: nat, hi: nat)
    requires Sound(c, w) && head < cursor
    ensures ScanOutcome(c, w, w, false, cursor, head, lo, hi)
  {
  }

  lemma ScanAborts(c: Setting, w: World, w1: World, cursor: nat, to: nat, head: nat, lo: nat, hi: nat)
    requires Sound(c, w1) && Proceeds(c, w, w1, lo, hi) && cursor <= to <= head
    requires Moved(w.st, w1.st, cursor, to) || SameCursor(w.st, w1.st)
    ensures ScanOutcome(c, w, w1, true, cursor, head, lo, hi)
  {
  }

  /** Two scans in a row are one. */
  lemma ScanContinues(
    c: Setting, w: World, w1: World, w2: World, raised: bool, from: nat, to: nat, head: nat, lo: nat, hi: nat)
    requires from <= to <= head && Proceeds(c, w, w1, lo, hi)
    requires Moved(w.st, w1.st, from, to) && Covered(c.chain, w1.st, from, to)
    requires ScanOutcome(c, w1, w2, raised, to + 1, head, lo, hi)
    ensures ScanOutcome(c, w, w2, raised, from, head, lo, hi)
  {
    ProceedsTransitive(c, w, w1, w2, lo, hi);
    CoveredGrows(c.chain, w1.st, w2.st, from, to);
    CursorContinues(w.st, w1.st, w2.st, from, to, head);
    if to == head { assert Covered(c.chain, w2.st, from, head); }
  }

  lemma CursorContinues(a: RelayState, b: RelayState, d: RelayState, from: nat, to: nat, head: nat)
    requires from <= to <= head && Moved(a, b, from, to)
    ensures SameCursor(b, d) ==> Moved(a, d, from, to)
    ensures Scanned(b, d, to + 1, head) ==> Scanned(a, d, from, head)
  {
  }

  /** The block at which a poll starts to scan, if it gets so far. */
  function FirstBlock(c: Setting, w: World, fromBlock: nat): Option<nat> {
    Start(c, w, fromBlock).1
  }

  /** The newest block that a poll sees, if it gets so far. */
  function Head(c: Setting, w: World, fromBlock: nat): Option<nat> {
    c.env.blockNumber(Start(c, w, fromBlock).0.calls)
  }

  /** The cursor decides where to resume: one block on, except that an override replaces block 0. */
  lemma ResumesAt(c: Setting, w: World, fromBlock: nat)
    requires w.st.lastBlock.Some?
    ensures FirstBlock(c, w, fromBlock) ==
      Some(if fromBlock != 0 && w.st.lastBlock.value == 0 then fromBlock else w.st.lastBlock.value + 1)
  {
  }

  /**
   Without a cursor the override decides, then the block remembered from an earlier poll, then the
   newest block less 50000; that block is remembered, so that an aborted first poll is taken up there.
   */
  lemma FirstScanAt(c: Setting, w: World, fromBlock: nat)
    requires w.st.lastBlock.None?
    ensures fromBlock != 0 ==> FirstBlock(c, w, fromBlock) == Some(fromBlock)
    ensures fromBlock == 0 && w.st.deployBlock != 0 ==> FirstBlock(c, w, fromBlock) == Some(w.st.deployBlock)
    ensures fromBlock == 0 && w.st.deployBlock == 0 ==>
              FirstBlock(c, w, fromBlock) == (match c.env.blockNumber(w.calls)
                                              case None => None
                                              case Some(head) => Some(if head < LOOKBACK then 0 else head - LOOKBACK))
    ensures fromBlock == 0 && FirstBlock(c, w, fromBlock).Some? ==>
              Start(c, w, fromBlock).0.st.deployBlock == FirstBlock(c, w, fromBlock).value
  {
  }

  lemma StartKeeps(c: Setting, w: World, fromBlock: nat)
    requires Sound(c, w)
    ensures var w1 := Start(c, w, fromBlock).0;
            Sound(c, w1) && SameButStart(w, w1)
  {
    var w1 := Start(c, w, fromBlock).0;
    assert SameButStart(w, w1);
    ChangeKeeps(c, w, w1.st);
  }

  /** What a poll promises: what a scan does, or, if it did not get so far, no scan at all. */
  ghost predicate PollOutcome(c: Setting, w: World, w': World, raised: bool, lo: Option<nat>, hi: Option<nat>) {
    if lo.Some? && hi.Some? then ScanOutcome(c, w, w', raised, lo.value, hi.value, lo.value, hi.value)
    else raised && Sound(c, w') && Proceeds(c, w, w', 0, 0) && SameCursor(w.st, w'.st)
  }

  /**
   A poll, complete or aborted at any call: nothing is minted twice or forgotten, the cursor never
   moves back, and what is newly handled comes from the blocks scanned.  A complete poll leaves the
   cursor at the newest block with every block on the way covered.
   */
  lemma PollKeeps(c: Setting, w: World, fromBlock: nat)
    requires Sound(c, w)
    ensures PollOutcome(c, w, Poll(c, w, fromBlock).0, Poll(c, w, fromBlock).1,
                        FirstBlock(c, w, fromBlock), Head(c, w, fromBlock))
  {
    if FirstBlock(c, w, fromBlock).Some? && Head(c, w, fromBlock).Some? {
      PollScans(c, w, fromBlock);
    } else {
      PollStops(c, w, fromBlock);
    }
  }

  lemma PollScans(c: Setting, w: World, fromBlock: nat)
    requires Sound(c, w) && FirstBlock(c, w, fromBlock).Some? && Head(c, w, fromBlock).Some?
    ensures var lo, hi := FirstBlock(c, w, fromBlock).value, Head(c, w, fromBlock).value;
            ScanOutcome(c, w, Poll(c, w, fromBlock).0, Poll(c, w, fromBlock).1, lo, hi, lo, hi)
  {
    var lo, hi := FirstBlock(c, w, fromBlock).value, Head(c, w, fromBlock).value;
    var w1 := Start(c, w, fromBlock).0;
    var w2 := w1.(calls := w1.calls + 1);
    StartKeeps(c, w, fromBlock);
    if w.st.lastBlock.Some? { ResumesAt(c, w, fromBlock); }
    ScanPoll(c, w2, lo, hi);
    var r := RetryAndScan(c, w2, lo, hi);
    ScanFromStart(c, w, w2, r.0, r.1, lo, hi);
    assert Poll(c, w, fromBlock) == r;
  }

  lemma PollStops(c: Setting, w: World, fromBlock: nat)
    requires Sound(c, w) && !(FirstBlock(c, w, fromBlock).Some? && Head(c, w, fromBlock).Some?)
    ensures PollOutcome(c, w, Poll(c, w, fromBlock).0, Poll(c, w, fromBlock).1,
                        FirstBlock(c, w, fromBlock), Head(c, w, fromBlock))
  {
    var w1 := Start(c, w, fromBlock).0;
    StartKeeps(c, w, fromBlock);
    NothingPolled(c, w, w1, FirstBlock(c, w, fromBlock), Head(c, w, fromBlock));
    NothingPolled(c, w, w1.(calls := w1.calls + 1), FirstBlock(c, w, fromBlock), Head(c, w, fromBlock));
  }

  /** A world that differs only in the call number and the remembered start block. */
  predicate SameButStart(w: World, w1: World) {
    w1 == w.(calls := w1.calls, st := w.st.(deployBlock := w1.st.deployBlock))
  }

  lemma NothingPolled(c: Setting, w: World, w1: World, lo: Option<nat>, hi: Option<nat>)
    requires Sound(c, w1) && SameButStart(w, w1) && !(lo.Some? && hi.Some?)
    ensures PollOutcome(c, w, w1, true, lo, hi)
  {
  }

  lemma ScanFromStart(c: Setting, w: World, w1: World, w': World, raised: bool, from: nat, head: nat)
    requires SameButStart(w, w1) && ScanOutcome(c, w1, w', raised, from, head, from, head)
    ensures ScanOutcome(c, w, w', raised, from, head, from, head)
  {
  }

  /** The part of a poll that retries and scans. */
  lemma ScanPoll(c: Setting, w: World, from: nat, head: nat)
    requires Sound(c, w) && (w.st.lastBlock.Some? ==> w.st.lastBlock.value < from)
    ensures var r := RetryAndScan(c, w, from, head); ScanOutcome(c, w, r.0, r.1, from, head, from, head)
  {
    RetryKeeps(c, w, from, head);
    var (w3, raised) := Retry(c, w);
    if !raised && from <= head {
      ChunksKeeps(c, w3, from, head, from, head);
      var (w', raised') := Chunks(c, w3, from, head);
      ScanAfterRetry(c, w, w3, w', raised', from, head);
    }
  }

  lemma ScanAfterRetry(c: Setting, w: World, w3: World, w': World, raised: bool, from: nat, head: nat)
    requires Proceeds(c, w, w3, from, head) && SameCursor(w.st, w3.st)
    requires ScanOutcome(c, w3, w', raised, from, head, from, head)
    ensures ScanOutcome(c, w, w', raised, from, head, from, head)
  {
    ProceedsTransitive(c, w, w3, w', from, head);
  }

  // ----- the gap

  /** A poll opens a gap exactly when it moves the cursor from block 0 under an override past block 1. */
  lemma GapOpens(c: Setting, w: World, fromBlock: nat)
    requires Sound(c, w)
    ensures var w' := Poll(c, w, fromBlock).0;
            w'.st.gap <==> w.st.gap || (w.st.lastBlock == Some(0) && 1 < fromBlock && w'.st.lastBlock != Some(0))
  {
    PollKeeps(c, w, fromBlock);
    if w.st.lastBlock.Some? { ResumesAt(c, w, fromBlock); }
  }

  /** Every deposit of the blocks `lo` to `hi` was handled before or stands also in the blocks `from` to `head`. */
  ghost predicate SkippedHarmlessly(c: Setting, st: RelayState, lo: nat, hi: nat, from: nat, head: nat) {
    forall b: nat, d, id :: lo <= b <= hi && InBlock(c.chain, b, d, id) ==>
      Handled(st, id) || Appears(c.chain, from, head, id)
  }

  /**
   What the gap loses: after a complete poll through it, the blocks from the first to the cursor are
   covered exactly when every deposit of the blocks jumped over had been handled before or is
   repeated in the blocks scanned.
   */
  lemma GapCoversExactly(c: Setting, w: World, fromBlock: nat)
    requires Sound(c, w) && !w.st.gap && w.st.lastBlock == Some(0) && 1 < fromBlock
    requires !Poll(c, w, fromBlock).1 && Head(c, w, fromBlock).Some? && fromBlock <= Head(c, w, fromBlock).value
    ensures var st', head := Poll(c, w, fromBlock).0.st, Head(c, w, fromBlock).value;
            && st'.lastBlock == Some(head) && st'.first == 0
            && (Covered(c.chain, st', 0, head) <==>
                  SkippedHarmlessly(c, w.st, 1, fromBlock - 1, fromBlock, head))
  {
    PollKeeps(c, w, fromBlock);
    ResumesAt(c, w, fromBlock);
    var w', head := Poll(c, w, fromBlock).0, Head(c, w, fromBlock).value;
    GapCovers(c, w, w', fromBlock, head);
  }

  lemma GapCovers(c: Setting, w: World, w': World, from: nat, head: nat)
    requires Proceeds(c, w, w', from, head) && 1 < from <= head
    requires Covered(c.chain, w.st, 0, 0) && Covered(c.chain, w'.st, from, head)
    ensures Covered(c.chain, w'.st, 0, head) <==> SkippedHarmlessly(c, w.st, 1, from - 1, from, head)
  {
    if Covered(c.chain, w'.st, 0, head) {
      forall b: nat, d, id | 1 <= b <= from - 1 && InBlock(c.chain, b, d, id)
        ensures Handled(w.st, id) || Appears(c.chain, from, head, id)
      {
        BlockHandled(c.chain, w'.st, 0, head, b, d, id);
      }
    }
    if SkippedHarmlessly(c, w.st, 1, from - 1, from, head) {
      CoveredGrows(c.chain, w.st, w'.st, 0, 0);
      forall b: nat | 0 <= b <= head ensures AllHandled(w'.st, c.chain(b)) {
        if 1 <= b < from { SkippedBlock(c, w, w', from, head, b); }
      }
    }
  }

  lemma BlockHandled(chain: Chain, st: RelayState, lo: nat, hi: nat, b: nat, d: Log, id: string)
    requires Covered(chain, st, lo, hi) && lo <= b <= hi && InBlock(chain, b, d, id)
    ensures Handled(st, id)
  {
    assert AllHandled(st, chain(b));
    var i :| 0 <= i < |chain(b)| && chain(b)[i] == d;
  }

  lemma SkippedBlock(c: Setting, w: World, w': World, from: nat, head: nat, b: nat)
    requires Grows(w.st, w'.st) && Covered(c.chain, w'.st, from, head) && 1 <= b < from
    requires SkippedHarmlessly(c, w.st, 1, from - 1, from, head)
    ensures AllHandled(w'.st, c.chain(b))
  {
    var logs := c.chain(b);
    forall i | 0 <= i < |logs| && logs[i].Deposit? ensures Handled(w'.st, logs[i].id) {
      var id := logs[i].id;
      assert InBlock(c.chain, b, logs[i], id);
      if !Handled(w.st, id) {
        var b', d' :| from <= b' <= head && InBlock(c.chain, b', d', id);
        BlockHandled(c.chain, w'.st, from, head, b', d', id);
      }
    }
  }

  // ----- whole runs

  lemma RestartKeeps(c: Setting, w: World)
    requires Sound(c, w)
    ensures Sound(c, Restart(c, w))
  {
    assert Ids(w.saved.minted) <= Ids(w.st.minted);
  }

  /** Every run from a consistent state file keeps the world sound. */
  lemma {:induction false} RunKeeps(c: Setting, w: World, steps: seq<Step>)
    requires Sound(c, w)
    ensures Sound(c, Run(c, w, steps))
    decreases |steps|
  {
    if steps != [] {
      StepKeeps(c, w, steps[0]);
      RunKeeps(c, After(c, w, steps[0]), steps[1..]);
    }
  }

  lemma PollIsSound(c: Setting, w: World, fromBlock: nat)
    requires Sound(c, w)
    ensures Sound(c, Poll(c, w, fromBlock).0)
  {
    PollKeeps(c, w, fromBlock);
  }

  /** The process as it starts from a state file. */
  function Begin(file: RelayState): World {
    World(file, file, file.minted, 0, false)
  }

  lemma BeginSound(c: Setting, file: RelayState)
    requires Consistent(c.chain, file)
    ensures Sound(c, Begin(file))
  {
  }

  /**
   Over any run, polls aborted anywhere and restarts anywhere: as long as no restart found a state
   file without one of the mints, no deposit has been minted twice on the ledger, and the state
   records exactly the mints that took effect.
   */
  lemma MintsOnce(c: Setting, file: RelayState, steps: seq<Step>)
    requires Consistent(c.chain, file) && !c.dryRun
    ensures var w := Run(c, Begin(file), steps);
            !w.forgot ==> w.issued == w.st.minted && Distinct(w.issued)
  {
    BeginSound(c, file);
    RunKeeps(c, Begin(file), steps);
  }

  /** No poll of the run meets the cursor at block 0 with an override past block 1. */
  ghost predicate NeverJumps(c: Setting, w: World, steps: seq<Step>)
    decreases |steps|
  {
    steps != [] ==>
      && (steps[0].PollStep? ==> !(w.st.lastBlock == Some(0) && 1 < steps[0].fromBlock))
      && NeverJumps(c, After(c, w, steps[0]), steps[1..])
  }

  lemma StepKeeps(c: Setting, w: World, step: Step)
    requires Sound(c, w)
    ensures Sound(c, After(c, w, step))
  {
    RestartKeeps(c, w);
    if step.PollStep? { PollIsSound(c, w, step.fromBlock); }
  }

  /** Over any run that never jumps, no block from the first scanned one to the cursor is skipped. */
  lemma {:induction false} RunCovers(c: Setting, w: World, steps: seq<Step>)
    requires Sound(c, w) && !w.st.gap && NeverJumps(c, w, steps)
    ensures var st := Run(c, w, steps).st;
            !st.gap && (st.lastBlock.Some? ==> Covered(c.chain, st, st.first, st.lastBlock.value))
    decreases |steps|
  {
    if steps != [] {
      StepKeeps(c, w, steps[0]);
      if steps[0].PollStep? { GapOpens(c, w, steps[0].fromBlock); }
      RunCovers(c, After(c, w, steps[0]), steps[1..]);
    }
  }

  /** A world whose scan, if it has begun, began at block `from`. */
  predicate BeganAt(w: World, from: nat) {
    (w.st.lastBlock.Some? ==> w.st.first == from) && (w.saved.lastBlock.Some? ==> w.saved.first == from)
  }

  lemma StepBeganAt(c: Setting, w: World, step: Step, from: nat)
    requires Sound(c, w) && BeganAt(w, from) && 1 <= from && (step.PollStep? ==> step.fromBlock == from)
    ensures BeganAt(After(c, w, step), from)
  {
    StepKeeps(c, w, step);
    if step.PollStep? {
      PollKeeps(c, w, from);
      if w.st.lastBlock.None? { FirstScanAt(c, w, from); }
    }
  }

  /** Every poll of the run has the same override. */
  predicate Constant(steps: seq<Step>, fromBlock: nat) {
    forall i :: 0 <= i < |steps| && steps[i].PollStep? ==> steps[i].fromBlock == fromBlock
  }

  lemma {:induction false} ConstantNeverJumps(c: Setting, w: World, steps: seq<Step>, fromBlock: nat)
    requires Sound(c, w) && Constant(steps, fromBlock) && (1 < fromBlock ==> BeganAt(w, fromBlock))
    ensures NeverJumps(c, w, steps)
    ensures 1 < fromBlock ==> BeganAt(Run(c, w, steps), fromBlock)
    decreases |steps|
  {
    if steps != [] {
      StepKeeps(c, w, steps[0]);
      if 1 < fromBlock { StepBeganAt(c, w, steps[0], fromBlock); }
      ConstantNeverJumps(c, After(c, w, steps[0]), steps[1..], fromBlock);
    }
  }

  /**
   Started from nothing with any override that stays the same, or with none, the relay covers every
   block from the first scanned one to the cursor, whatever aborts or restarts it; with an override
   past block 1 that first block is the override.
   */
  lemma ConstantOverrideCovers(c: Setting, steps: seq<Step>, fromBlock: nat)
    requires Constant(steps, fromBlock)
    ensures var st := Run(c, Begin(EMPTY), steps).st;
            st.lastBlock.Some? ==>
              Covered(c.chain, st, st.first, st.lastBlock.value) && (1 < fromBlock ==> st.first == fromBlock)
  {
    BeginSound(c, EMPTY);
    ConstantNeverJumps(c, Begin(EMPTY), steps, fromBlock);
    RunCovers(c, Begin(EMPTY), steps);
  }

  /** The file lacks a mint exactly while no save has succeeded since it. */
  lemma FileLacksMint(c: Setting, w: World, d: Log)
    requires Sound(c, w) && !c.dryRun && OnChain(c.chain, d) && d.id !in w.st.minted
    ensures var (w', raised) := Save(c, Mint(c, w, d));
            (w'.saved.minted != w'.st.minted <==> raised) && (Restart(c, w').forgot <==> w.forgot || raised)
  {
    assert d.id in Record(w.st, d).minted;
  }

  /**
   After a restart, handling a deposit whose mint took effect mints it again, given a `Minted`
   reply, exactly when the state file lacks it.
   */
  lemma ForgottenIsReissued(c: Setting, w: World, d: Log)
    requires Sound(c, w) && !c.dryRun && d.Deposit? && d.id in w.issued && Distinct(w.issued)
    requires c.env.handle(w.calls) == Minted
    ensures Distinct(HandleOne(c, Restart(c, w), d).0.issued) <==> d.id in w.saved.minted
  {
    var w1 := Restart(c, w);
    if d.id !in w.saved.minted {
      var k :| 0 <= k < |w.issued| && w.issued[k] == d.id;
      var again := w.issued + [d.id];
      assert HandleOne(c, w1, d).0.issued == again;
      assert again[k] == again[|w.issued|];
    }
  }

  // ----- two runs

  const ONE := Deposit("d", "r", 1)

  /** One deposit, in block 1; every mint succeeds, the newest block is `head`, and the save with number `failing` raises. */
  function OneDeposit(head: nat, failing: nat): Setting {
    Setting(b => if b == 1 then [ONE] else [],
            Env(n => Minted, n => false, n => Some(head), n => n == failing), false)
  }

  /** Scanning block 1 mints its deposit. */
  lemma ScanBlockOne(c: Setting, w: World)
    requires c == OneDeposit(1, 3) && w.st == EMPTY
    ensures var w2 := Mint(c, w.(calls := w.calls + 2), ONE);
            Process(c, w, 1, 1) ==
              if w.calls + 2 == 3 then (w2.(calls := w.calls + 3), true)
              else Save(c, Save(c, w2).0.(st := Advance(w2.st, 1, 1)))
  {
    assert LogsIn(c.chain, 1, 1) == [ONE] + LogsIn(c.chain, 2, 1) == [ONE];
    var w1 := w.(calls := w.calls + 1);
    var w2 := Mint(c, w.(calls := w.calls + 2), ONE);
    assert Drop(w2.st, {"d"}) == w2.st;
    assert HandleOne(c, w1, ONE) == Save(c, w2);
    assert [ONE][1..] == [];
    assert HandleAll(c, w1, [ONE]) == if Save(c, w2).1 then Save(c, w2) else HandleAll(c, Save(c, w2).0, []);
  }

  lemma PollBlockOne(c: Setting, w: World)
    requires c == OneDeposit(1, 3) && w.st == EMPTY
    ensures Poll(c, w, 1).0.issued == w.issued + ["d"] && Poll(c, w, 1).0.forgot == w.forgot
    ensures w.calls == 0 ==> Poll(c, w, 1).0.saved == w.saved && Poll(c, w, 1).0.st.minted == ["d"]
  {
    var w2 := w.(calls := w.calls + 1);
    assert Retry(c, w2) == (w2, false) by { assert Drop(w2.st, {}) == w2.st; }
    ScanBlockOne(c, w2);
    var r := Process(c, w2, 1, 1);
    assert Chunks(c, w2, 1, 1) == if r.1 then r else Chunks(c, r.0, 2, 1);
    assert Poll(c, w, 1) == Chunks(c, w2, 1, 1);
  }

  /** A save that raises after the mint, and a restart before the next one that succeeds: the deposit is minted twice. */
  lemma RepeatedMint()
    ensures var w := Run(OneDeposit(1, 3), Begin(EMPTY), [PollStep(1), Crash, PollStep(1)]);
            w.issued == ["d", "d"] && w.forgot
  {
    var c := OneDeposit(1, 3);
    var steps := [PollStep(1), Crash, PollStep(1)];
    assert steps[1..] == [Crash, PollStep(1)] && steps[1..][1..] == [PollStep(1)] && steps[1..][1..][1..] == [];
    var w1 := Poll(c, Begin(EMPTY), 1).0;
    PollBlockOne(c, Begin(EMPTY));
    var w2 := Restart(c, w1);
    PollBlockOne(c, w2);
    var w3 := Poll(c, w2, 1).0;
    assert Run(c, w2, [PollStep(1)]) == Run(c, w3, []);
  }

  /** The cursor at block 0, as a first poll leaves it when the newest block is 0. */
  const AT_ZERO := EMPTY.(lastBlock := Some(0))

  lemma AtZeroConsistent(c: Setting)
    requires c == OneDeposit(2, 9)
    ensures Consistent(c.chain, AT_ZERO)
  {
    assert Keys(AT_ZERO.pending) == {};
  }

  /** Under the override 2 the poll succeeds, and the deposit of block 1 is in no list. */
  lemma GapLosesADeposit()
    ensures var c := OneDeposit(2, 9);
            var (w, raised) := Poll(c, Begin(AT_ZERO), 2);
            && Consistent(c.chain, AT_ZERO) && !raised && w.st.lastBlock == Some(2) && w.st.first == 0 && w.st.gap
            && !Handled(w.st, ONE.id) && !Covered(c.chain, w.st, 0, 2)
  {
    var c, w := OneDeposit(2, 9), Begin(AT_ZERO);
    AtZeroConsistent(c);
    var w2 := w.(calls := 1);
    assert Retry(c, w2) == (w2, false) by { assert Drop(w2.st, {}) == w2.st; }
    assert LogsIn(c.chain, 2, 2) == [] + LogsIn(c.chain, 3, 2) == [];
    var st := Advance(AT_ZERO, 2, 2);
    assert Process(c, w2, 2, 2) == (World(st, st, [], 3, false), false);
    assert Chunks(c, w2, 2, 2) == Process(c, w2, 2, 2);
    assert Poll(c, w, 2) == Chunks(c, w2, 2, 2);
    assert c.chain(1)[0] == ONE && !AllHandled(st, c.chain(1));
  }
}
