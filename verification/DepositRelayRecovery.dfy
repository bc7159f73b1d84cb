/**
 Which deposits the relay comes to again: a mint that a restart forgets is still to be met, and a
 deposit that the cursor has passed without minting or queueing it is never met again.
 */
module DepositRelayRecovery {
  import opened Words
  import opened DepositRelay
  import opened DepositRelaySafety

  /** The deposits that the state has minted or queued. */
  function Known(st: RelayState): set<string> {
    Ids(st.minted) + Keys(st.pending)
  }

  /** A deposit with this id is in a block that the cursor has not reached. */
  ghost predicate Ahead(chain: Chain, st: RelayState, id: string) {
    exists b: nat, d :: AheadAt(chain, st, b, d, id)
  }

  predicate AheadAt(chain: Chain, st: RelayState, b: nat, d: Log, id: string) {
    InBlock(chain, b, d, id) && (st.lastBlock.Some? ==> st.lastBlock.value < b)
  }

  predicate CursorLe(a: RelayState, b: RelayState) {
    a.lastBlock.Some? ==> b.lastBlock.Some? && a.lastBlock.value <= b.lastBlock.value
  }

  lemma AheadOfEarlier(chain: Chain, a: RelayState, b: RelayState, id: string)
    requires CursorLe(a, b) && Ahead(chain, b, id)
    ensures Ahead(chain, a, id)
  {
    var n: nat, d :| AheadAt(chain, b, n, d, id);
    assert AheadAt(chain, a, n, d, id);
  }

  /** Whatever the memory knows, the state file knows too or has still to come to. */
  ghost predicate Recoverable(c: Setting, w: World) {
    && CursorLe(w.saved, w.st)
    && forall id :: id in Known(w.st) ==> id in Known(w.saved) || Ahead(c.chain, w.saved, id)
  }

  /** From `w` to `w'` only known deposits and those in `s` become known or are minted, and no cursor moves back. */
  predicate Traces(w: World, w': World, s: set<string>) {
    && Known(w'.st) <= Known(w.st) + s
    && Known(w'.saved) <= Known(w.saved) + Known(w.st) + s
    && w.issued <= w'.issued && Ids(w'.issued[|w.issued|..]) <= Known(w.st) + s
    && CursorLe(w.st, w'.st) && (CursorLe(w.saved, w'.saved) || CursorLe(w.st, w'.saved))
  }

  ghost predicate Follows(c: Setting, w: World, w': World, s: set<string>) {
    Traces(w, w', s) && (Recoverable(c, w) ==> Recoverable(c, w'))
  }

  lemma TracesTransitive(w: World, w': World, w'': World, s: set<string>)
    requires Traces(w, w', s) && Traces(w', w'', s)
    ensures Traces(w, w'', s)
  {
    var a, b := w'.issued[|w.issued|..], w''.issued[|w'.issued|..];
    assert w''.issued[|w.issued|..] == a + b;
    assert Ids(a + b) == Ids(a) + Ids(b);
  }

  lemma FollowsTransitive(c: Setting, w: World, w': World, w'': World, s: set<string>)
    requires Follows(c, w, w', s) && Follows(c, w', w'', s)
    ensures Follows(c, w, w'', s)
  {
    TracesTransitive(w, w', w'', s);
  }

  // ----- elementary changes

  /** A change in memory, with the cursor in place, that at most makes one deposit known and mints it. */
  predicate Touches(w: World, w': World, id: string) {
    && w'.saved == w.saved && w'.st.lastBlock == w.st.lastBlock
    && Known(w'.st) <= Known(w.st) + {id}
    && (w'.issued == w.issued || w'.issued == w.issued + [id])
  }

  lemma TouchFollows(c: Setting, w: World, w': World, id: string, s: set<string>)
    requires Touches(w, w', id)
    requires id in Known(w.st) || (id in s && Ahead(c.chain, w.st, id))
    ensures Follows(c, w, w', s)
  {
    assert w'.issued[|w.issued|..] == [] || w'.issued[|w.issued|..] == [id];
    if Recoverable(c, w) && id !in Known(w.st) { AheadOfEarlier(c.chain, w.saved, w.st, id); }
  }

  lemma SameFollows(c: Setting, w: World, w': World, s: set<string>)
    requires w'.saved == w.saved && w'.st.lastBlock == w.st.lastBlock && w'.issued == w.issued
    requires Known(w'.st) <= Known(w.st)
    ensures Follows(c, w, w', s)
  {
    assert w'.issued[|w.issued|..] == [];
  }

  lemma SaveFollows(c: Setting, w: World, s: set<string>)
    ensures Follows(c, w, Save(c, w).0, s)
  {
    assert w.issued[|w.issued|..] == [];
  }

  lemma MintTouches(c: Setting, w: World, d: Log)
    requires d.Deposit?
    ensures Touches(w, Mint(c, w, d), d.id)
    ensures d.id in Known(Mint(c, w, d).st)
    ensures Known(w.st) <= Known(Mint(c, w, d).st)
  {
    assert Ids(w.st.minted + [d.id]) == Ids(w.st.minted) + {d.id};
    assert w.st.minted + [] == w.st.minted && w.issued + [] == w.issued;
  }

  lemma DropKnown(st: RelayState, ids: set<string>)
    ensures Known(Drop(st, ids)) <= Known(st)
    ensures ids <= Ids(st.minted) ==> Known(Drop(st, ids)) == Known(st)
  {
    WithoutKeys(st.pending, ids);
  }

  lemma QueueKnown(st: RelayState, d: Log)
    requires d.Deposit?
    ensures Known(Queue(st, d)) == Known(st) + {d.id}
  {
    KeysAppend(st.pending, d);
  }

  /** A mint, what is dropped from the queue with it, and the save. */
  lemma MintSaveFollows(c: Setting, w: World, d: Log, ids: set<string>, s: set<string>)
    requires d.Deposit? && (d.id in Known(w.st) || (d.id in s && Ahead(c.chain, w.st, d.id)))
    ensures var w1 := Mint(c, w, d); Follows(c, w, Save(c, w1.(st := Drop(w1.st, ids))).0, s)
  {
    var w1 := Mint(c, w, d);
    var w2 := w1.(st := Drop(w1.st, ids));
    MintTouches(c, w, d);
    DropKnown(w1.st, ids);
    TouchFollows(c, w, w2, d.id, s);
    SaveFollows(c, w2, s);
    FollowsTransitive(c, w, w2, Save(c, w2).0, s);
  }

  lemma MintThenSaveFollows(c: Setting, w: World, d: Log, s: set<string>)
    requires d.Deposit? && (d.id in Known(w.st) || (d.id in s && Ahead(c.chain, w.st, d.id)))
    ensures Follows(c, w, Save(c, Mint(c, w, d)).0, s)
    ensures Known(w.st) <= Known(Save(c, Mint(c, w, d)).0.st)
  {
    var w1 := Mint(c, w, d);
    MintTouches(c, w, d);
    TouchFollows(c, w, w1, d.id, s);
    SaveFollows(c, w1, s);
    FollowsTransitive(c, w, w1, Save(c, w1).0, s);
  }

  // ----- the procedures

  lemma RetryOneFollows(c: Setting, w: World, d: Log, s: set<string>)
    requires d.Deposit? && d.id in Known(w.st)
    ensures Follows(c, w, RetryOne(c, w, d).0, s) && Known(w.st) <= Known(RetryOne(c, w, d).0.st)
  {
    var w', w1 := RetryOne(c, w, d).0, w.(calls := w.calls + 1);
    if d.id !in w.st.minted && c.env.handle(w.calls) == Minted {
      MintThenSaveFollows(c, w1, d, s);
      assert w' == Save(c, Mint(c, w1, d)).0;
      SameFollows(c, w, w1, s);
      FollowsTransitive(c, w, w1, w', s);
    } else {
      SameFollows(c, w, w', s);
    }
  }

  lemma {:induction false} RetryAllFollows(c: Setting, w: World, todo: seq<Log>, resolved: set<string>, s: set<string>)
    requires Keys(todo) <= Known(w.st)
    ensures Follows(c, w, RetryAll(c, w, todo, resolved).0, s)
    decreases |todo|
  {
    if todo == [] {
      SameFollows(c, w, w, s);
    } else if !todo[0].Deposit? {
      RetryAllFollows(c, w, todo[1..], resolved, s);
    } else {
      RetryOneFollows(c, w, todo[0], s);
      var (w1, done, raised) := RetryOne(c, w, todo[0]);
      if !raised {
        var next := if done then resolved + {todo[0].id} else resolved;
        RetryAllFollows(c, w1, todo[1..], next, s);
        FollowsTransitive(c, w, w1, RetryAll(c, w1, todo[1..], next).0, s);
      }
    }
  }

  lemma RetryFollows(c: Setting, w: World, s: set<string>)
    ensures Follows(c, w, Retry(c, w).0, s)
  {
    RetryAllFollows(c, w, w.st.pending, {}, s);
    var (w1, resolved, raised) := RetryAll(c, w, w.st.pending, {});
    if !raised {
      var w2 := w1.(st := Drop(w1.st, resolved));
      DropKnown(w1.st, resolved);
      SameFollows(c, w1, w2, s);
      SaveFollows(c, w2, s);
      FollowsTransitive(c, w, w1, w2, s);
      FollowsTransitive(c, w, w2, Save(c, w2).0, s);
    }
  }

  /** A log that is malformed, or a deposit of `s` that the cursor has not reached. */
  ghost predicate Met(c: Setting, st: RelayState, s: set<string>, d: Log) {
    d.Deposit? ==> d.id in s && Ahead(c.chain, st, d.id)
  }

  lemma HandleOneFollows(c: Setting, w: World, d: Log, s: set<string>)
    requires Met(c, w.st, s, d)
    ensures Follows(c, w, HandleOne(c, w, d).0, s) && HandleOne(c, w, d).0.st.lastBlock == w.st.lastBlock
  {
    var w', w1 := HandleOne(c, w, d).0, w.(calls := w.calls + 1);
    if !d.Deposit? || d.id in w.st.minted {
      SameFollows(c, w, w, s);
    } else if c.env.handle(w.calls) == Minted {
      MintSaveFollows(c, w1, d, {d.id}, s);
      var w2 := Mint(c, w1, d);
      assert w' == Save(c, w2.(st := Drop(w2.st, {d.id}))).0;
      SameFollows(c, w, w1, s);
      FollowsTransitive(c, w, w1, w', s);
    } else if c.env.handle(w.calls).NoAccount? || c.env.handle(w.calls).NoTrustLine? {
      QueueKnown(w.st, d);
      TouchFollows(c, w, w', d.id, s);
    } else {
      SameFollows(c, w, w', s);
    }
  }

  lemma {:induction false} HandleAllFollows(c: Setting, w: World, logs: seq<Log>, s: set<string>)
    requires forall i :: 0 <= i < |logs| ==> Met(c, w.st, s, logs[i])
    ensures Follows(c, w, HandleAll(c, w, logs).0, s) && HandleAll(c, w, logs).0.st.lastBlock == w.st.lastBlock
    decreases |logs|
  {
    if logs == [] {
      SameFollows(c, w, w, s);
    } else {
      HandleOneFollows(c, w, logs[0], s);
      var (w1, raised) := HandleOne(c, w, logs[0]);
      if !raised {
        forall i | 0 <= i < |logs[1..]| ensures Met(c, w1.st, s, logs[1..][i]) {
          StillMet(c, w.st, w1.st, s, logs[i + 1]);
        }
        HandleAllFollows(c, w1, logs[1..], s);
        FollowsTransitive(c, w, w1, HandleAll(c, w1, logs[1..]).0, s);
      }
    }
  }

  lemma StillMet(c: Setting, a: RelayState, b: RelayState, s: set<string>, d: Log)
    requires Met(c, a, s, d) && a.lastBlock == b.lastBlock
    ensures Met(c, b, s, d)
  {
    if d.Deposit? { AheadOfEarlier(c.chain, b, a, d.id); }
  }

  /** Every deposit of the blocks `lo` to `hi` is in `s`. */
  ghost predicate Within(chain: Chain, lo: nat, hi: nat, s: set<string>) {
    forall b: nat, d, id :: lo <= b <= hi && InBlock(chain, b, d, id) ==> id in s
  }

  lemma {:induction false} LogsMet(c: Setting, st: RelayState, from: nat, to: nat, s: set<string>, d: Log)
    requires d in LogsIn(c.chain, from, to) && Within(c.chain, from, to, s)
    requires st.lastBlock.Some? ==> st.lastBlock.value < from
    ensures Met(c, st, s, d)
    decreases if from <= to then to + 1 - from else 0
  {
    assert from <= to;
    if d !in c.chain(from) {
      LogsMet(c, st, from + 1, to, s, d);
    } else if d.Deposit? {
      assert InBlock(c.chain, from, d, d.id);
      assert AheadAt(c.chain, st, from, d, d.id);
    }
  }

  lemma ProcessFollows(c: Setting, w: World, from: nat, to: nat, s: set<string>)
    requires from <= to && Within(c.chain, from, to, s) && (w.st.lastBlock.Some? ==> w.st.lastBlock.value < from)
    ensures Follows(c, w, Process(c, w, from, to).0, s)
    ensures !Process(c, w, from, to).1 ==> Process(c, w, from, to).0.st.lastBlock == Some(to)
  {
    var w1, logs := w.(calls := w.calls + 1), LogsIn(c.chain, from, to);
    SameFollows(c, w, w1, s);
    if !c.env.logsRaise(w.calls) {
      forall i | 0 <= i < |logs| ensures Met(c, w1.st, s, logs[i]) { LogsMet(c, w1.st, from, to, s, logs[i]); }
      HandleAllFollows(c, w1, logs, s);
      var (w2, raised) := HandleAll(c, w1, logs);
      FollowsTransitive(c, w, w1, w2, s);
      if !raised {
        var w3 := w2.(st := Advance(w2.st, from, to));
        AdvanceFollows(c, w2, w3, s);
        SaveFollows(c, w3, s);
        FollowsTransitive(c, w, w2, w3, s);
        FollowsTransitive(c, w, w3, Save(c, w3).0, s);
      }
    }
  }

  /** Only the cursor moves, forwards. */
  lemma AdvanceFollows(c: Setting, w: World, w': World, s: set<string>)
    requires w'.saved == w.saved && w'.issued == w.issued && Known(w'.st) == Known(w.st) && CursorLe(w.st, w'.st)
    ensures Follows(c, w, w', s)
  {
    assert w'.issued[|w.issued|..] == [];
  }

  lemma {:induction false} ChunksFollow(c: Setting, w: World, cursor: nat, head: nat, s: set<string>)
    requires Within(c.chain, cursor, head, s) && (w.st.lastBlock.Some? ==> w.st.lastBlock.value < cursor)
    ensures Follows(c, w, Chunks(c, w, cursor, head).0, s)
    decreases head + 1 - cursor
  {
    if head < cursor {
      SameFollows(c, w, w, s);
    } else {
      var to := if cursor + CHUNK - 1 < head then cursor + CHUNK - 1 else head;
      ChunksUnfold(c, w, cursor, to, head);
      ProcessFollows(c, w, cursor, to, s);
      var r1 := Process(c, w, cursor, to);
      if !r1.1 {
        ChunksFollow(c, r1.0, to + 1, head, s);
        FollowsTransitive(c, w, r1.0, Chunks(c, r1.0, to + 1, head).0, s);
      }
    }
  }

  lemma RetryKeepsCursor(c: Setting, w: World)
    ensures Retry(c, w).0.st.lastBlock == w.st.lastBlock
  {
    RetryAllKeepsCursor(c, w, w.st.pending, {});
  }

  lemma {:induction false} RetryAllKeepsCursor(c: Setting, w: World, todo: seq<Log>, resolved: set<string>)
    ensures RetryAll(c, w, todo, resolved).0.st.lastBlock == w.st.lastBlock
    decreases |todo|
  {
    if todo != [] {
      if !todo[0].Deposit? {
        RetryAllKeepsCursor(c, w, todo[1..], resolved);
      } else {
        var (w1, done, raised) := RetryOne(c, w, todo[0]);
        if !raised { RetryAllKeepsCursor(c, w1, todo[1..], if done then resolved + {todo[0].id} else resolved); }
      }
    }
  }

  lemma RetryAndScanFollows(c: Setting, w: World, from: nat, head: nat, s: set<string>)
    requires Within(c.chain, from, head, s) && (w.st.lastBlock.Some? ==> w.st.lastBlock.value < from)
    ensures Follows(c, w, RetryAndScan(c, w, from, head).0, s)
  {
    RetryFollows(c, w, s);
    RetryKeepsCursor(c, w);
    var (w1, raised) := Retry(c, w);
    if !raised && from <= head {
      ChunksFollow(c, w1, from, head, s);
      FollowsTransitive(c, w, w1, Chunks(c, w1, from, head).0, s);
    }
  }

  /** The ids of the deposits that a poll scans. */
  function ScannedIds(c: Setting, w: World, fromBlock: nat): set<string> {
    var lo, hi := FirstBlock(c, w, fromBlock), Head(c, w, fromBlock);
    if lo.Some? && hi.Some? then Keys(LogsIn(c.chain, lo.value, hi.value)) else {}
  }

  lemma {:induction false} KeysConcat(x: seq<Log>, y: seq<Log>)
    ensures Keys(x + y) == Keys(x) + Keys(y)
  {
    if x == [] {
      assert x + y == y;
    } else {
      KeysConcat(x[1..], y);
      assert (x + y)[1..] == x[1..] + y;
    }
  }

  lemma {:induction false} InKeys(logs: seq<Log>, i: nat)
    requires i < |logs| && logs[i].Deposit?
    ensures logs[i].id in Keys(logs)
  {
    if i > 0 { InKeys(logs[1..], i - 1); }
  }

  lemma {:induction false} KeysInLog(logs: seq<Log>, id: string) returns (d: Log)
    requires id in Keys(logs)
    ensures d in logs && d.Deposit? && d.id == id
  {
    if logs[0].Deposit? && logs[0].id == id { d := logs[0]; } else { d := KeysInLog(logs[1..], id); }
  }

  /** The ids of the fetched logs are those of the deposits in the blocks. */
  lemma {:induction false} LogKeys(chain: Chain, lo: nat, hi: nat)
    ensures Within(chain, lo, hi, Keys(LogsIn(chain, lo, hi)))
    ensures forall id :: id in Keys(LogsIn(chain, lo, hi)) ==> Appears(chain, lo, hi, id)
    decreases if lo <= hi then hi + 1 - lo else 0
  {
    if lo <= hi {
      var here, rest := chain(lo), LogsIn(chain, lo + 1, hi);
      LogKeys(chain, lo + 1, hi);
      KeysConcat(here, rest);
      forall b: nat, d, id | lo <= b <= hi && InBlock(chain, b, d, id) ensures id in Keys(here + rest) {
        if b == lo {
          var i :| 0 <= i < |here| && here[i] == d;
          InKeys(here, i);
        }
      }
      forall id | id in Keys(here + rest) ensures Appears(chain, lo, hi, id) {
        if id in Keys(here) {
          var d := KeysInLog(here, id);
          assert InBlock(chain, lo, d, id);
        } else {
          var b: nat, d :| lo + 1 <= b <= hi && InBlock(chain, b, d, id);
        }
      }
    }
  }

  lemma StartFollows(c: Setting, w: World, fromBlock: nat, s: set<string>)
    ensures var w1 := Start(c, w, fromBlock).0;
            SameButStart(w, w1) && Follows(c, w, w1, s) && Follows(c, w, w1.(calls := w1.calls + 1), s)
  {
    var w1 := Start(c, w, fromBlock).0;
    SameFollows(c, w, w1, s);
    SameFollows(c, w, w1.(calls := w1.calls + 1), s);
  }

  lemma PollFollows(c: Setting, w: World, fromBlock: nat)
    ensures Follows(c, w, Poll(c, w, fromBlock).0, ScannedIds(c, w, fromBlock))
  {
    var s := ScannedIds(c, w, fromBlock);
    var (w1, fb) := Start(c, w, fromBlock);
    StartFollows(c, w, fromBlock, s);
    var head := c.env.blockNumber(w1.calls);
    if fb.Some? && head.Some? {
      var w2 := w1.(calls := w1.calls + 1);
      if w.st.lastBlock.Some? { ResumesAt(c, w, fromBlock); }
      LogKeys(c.chain, fb.value, head.value);
      RetryAndScanFollows(c, w2, fb.value, head.value, s);
      FollowsTransitive(c, w, w2, RetryAndScan(c, w2, fb.value, head.value).0, s);
    }
  }

  // ----- a forgotten mint is met again

  lemma {:induction false} RunRecoverable(c: Setting, w: World, steps: seq<Step>)
    requires Recoverable(c, w)
    ensures Recoverable(c, Run(c, w, steps))
    decreases |steps|
  {
    if steps != [] {
      if steps[0].PollStep? { PollFollows(c, w, steps[0].fromBlock); }
      RunRecoverable(c, After(c, w, steps[0]), steps[1..]);
    }
  }

  /**
   After any run, a mint that a restart forgets is of a deposit that the restarted relay has queued
   or has still in front of its cursor.
   */
  lemma ForgottenIsMetAgain(c: Setting, file: RelayState, steps: seq<Step>, id: string)
    requires id in Run(c, Begin(file), steps).st.minted
    ensures var st := Restart(c, Run(c, Begin(file), steps)).st;
            id !in st.minted ==> id in Keys(st.pending) || Ahead(c.chain, st, id)
  {
    RunRecoverable(c, Begin(file), steps);
    assert id in Known(Run(c, Begin(file), steps).st);
  }

  /** A deposit in front of the cursor is accounted for by any complete poll that scans its block. */
  lemma AheadIsHandled(c: Setting, w: World, fromBlock: nat, b: nat, d: Log, id: string)
    requires Sound(c, w) && AheadAt(c.chain, w.st, b, d, id) && !Poll(c, w, fromBlock).1
    requires FirstBlock(c, w, fromBlock).Some? && Head(c, w, fromBlock).Some?
    requires FirstBlock(c, w, fromBlock).value <= b <= Head(c, w, fromBlock).value
    ensures Handled(Poll(c, w, fromBlock).0.st, id)
  {
    PollKeeps(c, w, fromBlock);
    BlockHandled(c.chain, Poll(c, w, fromBlock).0.st, FirstBlock(c, w, fromBlock).value, Head(c, w, fromBlock).value, b, d, id);
  }

  // ----- a deposit that was passed is not

  /** Neither memory nor state file knows the deposit or has it in front of its cursor. */
  ghost predicate Passed(c: Setting, w: World, id: string) {
    && id !in Known(w.st) && !Ahead(c.chain, w.st, id)
    && id !in Known(w.saved) && !Ahead(c.chain, w.saved, id)
  }

  lemma PassedNotScanned(c: Setting, w: World, fromBlock: nat, id: string)
    requires !Ahead(c.chain, w.st, id)
    ensures id !in ScannedIds(c, w, fromBlock)
  {
    var lo, hi := FirstBlock(c, w, fromBlock), Head(c, w, fromBlock);
    if lo.Some? && hi.Some? && id in ScannedIds(c, w, fromBlock) {
      LogKeys(c.chain, lo.value, hi.value);
      var b: nat, d :| lo.value <= b <= hi.value && InBlock(c.chain, b, d, id);
      if w.st.lastBlock.Some? { ResumesAt(c, w, fromBlock); }
      assert AheadAt(c.chain, w.st, b, d, id);
    }
  }

  lemma PollPasses(c: Setting, w: World, fromBlock: nat, id: string)
    requires Passed(c, w, id)
    ensures var w' := Poll(c, w, fromBlock).0;
            Passed(c, w', id) && w.issued <= w'.issued && id !in Ids(w'.issued[|w.issued|..])
  {
    var w' := Poll(c, w, fromBlock).0;
    PollFollows(c, w, fromBlock);
    PassedNotScanned(c, w, fromBlock, id);
    if Ahead(c.chain, w'.st, id) { AheadOfEarlier(c.chain, w.st, w'.st, id); }
    if Ahead(c.chain, w'.saved, id) {
      if CursorLe(w.saved, w'.saved) {
        AheadOfEarlier(c.chain, w.saved, w'.saved, id);
      } else {
        AheadOfEarlier(c.chain, w.st, w'.saved, id);
      }
    }
  }

  /** In no run, whatever aborts or restarts it, is a deposit that was passed ever queued or minted. */
  lemma {:induction false} PassedForEver(c: Setting, w: World, steps: seq<Step>, id: string)
    requires Passed(c, w, id)
    ensures var w' := Run(c, w, steps);
            Passed(c, w', id) && w.issued <= w'.issued && id !in Ids(w'.issued[|w.issued|..])
    decreases |steps|
  {
    if steps == [] {
      assert w.issued[|w.issued|..] == [];
    } else {
      var w1 := After(c, w, steps[0]);
      if steps[0].PollStep? {
        PollPasses(c, w, steps[0].fromBlock, id);
      } else {
        assert w1.issued[|w.issued|..] == [];
      }
      PassedForEver(c, w1, steps[1..], id);
      var w2 := Run(c, w1, steps[1..]);
      assert w2.issued[|w.issued|..] == w1.issued[|w.issued|..] + w2.issued[|w1.issued|..];
    }
  }

  /** A log's deposit ends up minted or queued exactly unless it was in neither list and the attempt was reported failed. */
  lemma LogAttemptDecides(c: Setting, w: World, d: Log)
    requires d.Deposit? && !HandleOne(c, w, d).1
    ensures d.id in Known(HandleOne(c, w, d).0.st) <==> d.id in Known(w.st) || c.env.handle(w.calls) != MintFailed
  {
    var w1 := w.(calls := w.calls + 1);
    QueueKnown(w.st, d);
    MintTouches(c, w1, d);
    DropKnown(Mint(c, w1, d).st, {d.id});
    assert d.id in Ids(Mint(c, w1, d).st.minted);
  }

  /**
   A decodable deposit up to the cursor is neither minted nor queued only if an attempt at it was
   reported failed; unless its id comes again in front of a cursor or the state file still knows
   it, it is then never queued or minted.
   */
  lemma PassedHasFailed(c: Setting, w: World, b: nat, d: Log, id: string, steps: seq<Step>)
    requires Sound(c, w) && !w.st.gap && w.st.lastBlock.Some?
    requires InBlock(c.chain, b, d, id) && w.st.first <= b <= w.st.lastBlock.value
    requires id !in Known(w.st)
    ensures id in w.st.failed
    ensures id !in Known(w.saved) && !Ahead(c.chain, w.st, id) && !Ahead(c.chain, w.saved, id) ==>
              var w' := Run(c, w, steps);
              id !in Known(w'.st) && w.issued <= w'.issued && id !in Ids(w'.issued[|w.issued|..])
  {
    BlockHandled(c.chain, w.st, w.st.first, w.st.lastBlock.value, b, d, id);
    if Passed(c, w, id) { PassedForEver(c, w, steps, id); }
  }

  /** One deposit, in block 1, whose mint is reported failed; everything else succeeds. */
  function OneFailure(): Setting {
    Setting(b => if b == 1 then [ONE] else [], Env(n => MintFailed, n => false, n => Some(1), n => false), false)
  }

  /** After a single complete poll it has been passed: no later run mints it. */
  lemma FailedIsPassed(steps: seq<Step>)
    ensures var c := OneFailure();
            var (w, raised) := Poll(c, Begin(EMPTY), 1);
            !raised && Passed(c, w, ONE.id) && ONE.id !in Ids(Run(c, w, steps).issued)
  {
    var c, w := OneFailure(), Begin(EMPTY);
    var w1 := w.(calls := 1);
    assert Retry(c, w1) == (w1, false) by { assert Drop(w1.st, {}) == w1.st; }
    assert LogsIn(c.chain, 1, 1) == [ONE] + LogsIn(c.chain, 2, 1) == [ONE];
    var w2 := World(Fail(EMPTY, ONE.id), EMPTY, [], 3, false);
    assert HandleOne(c, w1.(calls := 2), ONE) == (w2, false);
    assert [ONE][1..] == [];
    assert HandleAll(c, w1.(calls := 2), [ONE]) == HandleAll(c, w2, []);
    var st := Advance(w2.st, 1, 1);
    var w3 := World(st, st, [], 4, false);
    assert Process(c, w1, 1, 1) == (w3, false);
    assert Chunks(c, w1, 1, 1) == Chunks(c, w3, 2, 1);
    assert Poll(c, w, 1) == (w3, false);
    NothingAhead(c, st);
    PassedForEver(c, w3, steps, ONE.id);
    assert w3.issued == [] && Run(c, w3, steps).issued[0..] == Run(c, w3, steps).issued;
  }

  lemma NothingAhead(c: Setting, st: RelayState)
    requires c == OneFailure() && st.lastBlock == Some(1)
    ensures !Ahead(c.chain, st, ONE.id)
  {
    forall b: nat, d ensures !AheadAt(c.chain, st, b, d, ONE.id) {
      if b != 1 { assert c.chain(b) == []; }
    }
  }
}
