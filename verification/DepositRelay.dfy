/**
 The EVM deposit relay: a block cursor, a queue of deposits that cannot be minted yet, the list of
 minted deposits, and the state file they are saved to.

 The chain of deposit logs is fixed; every remote call and every save answers from an arbitrary
 environment and may raise, which aborts the poll where it stands.  A mint reply is taken as
 truthful.  What each procedure does to the relay's world is a function, the methods of `Relay`
 compute these functions, and the properties are proved about them.
 */
module DepositRelay {
  import opened Words

  /** A contract log, decoded; ids are in lower case. */
  datatype Log = Malformed | Deposit(id: string, account: string, amount: nat)

  type Chain = nat -> seq<Log>

  /** How handling one deposit ends. */
  datatype Reply = NoAccount | NoTrustLine | MintFailed | Minted | Raised

  /** Answers to the remote calls and saves, by a running call number. */
  datatype Env = Env(handle: nat -> Reply, logsRaise: nat -> bool, blockNumber: nat -> Option<nat>, saveFails: nat -> bool)

  datatype Setting = Setting(chain: Chain, env: Env, dryRun: bool)

  /**
   The state dictionary; `pending` is in insertion order.  `failed` (deposits with a mint attempt
   reported failed), `first` (the first block of the scan) and `gap` (the cursor jumped over
   unscanned blocks) are history.
   */
  datatype RelayState = RelayState(
    lastBlock: Option<nat>,
    deployBlock: nat,            // 0 when absent
    minted: seq<string>,
    mints: seq<Log>,
    pending: seq<Log>,
    failed: set<string>,
    first: nat,
    gap: bool)

  /**
   The state in memory, the state file, and the mints that took effect on the ledger.  `forgot` is
   history: a restart found a state file that lacked a mint.
   */
  datatype World = World(st: RelayState, saved: RelayState, issued: seq<string>, calls: nat, forgot: bool)

  const EMPTY := RelayState(None, 0, [], [], [], {}, 0, false)
  const CHUNK: nat := 2000
  const LOOKBACK: nat := 50_000

  // ----- what the procedures do

  /** The ids of queued deposits. */
  function Keys(pending: seq<Log>): set<string> {
    if pending == [] then {}
    else (if pending[0].Deposit? then {pending[0].id} else {}) + Keys(pending[1..])
  }

  function Without(pending: seq<Log>, ids: set<string>): seq<Log> {
    if pending == [] then []
    else (if pending[0].Deposit? && pending[0].id in ids then [] else [pending[0]]) + Without(pending[1..], ids)
  }

  /** `_queue_pending`: the first entry for a deposit stays. */
  function Queue(st: RelayState, d: Log): RelayState
    requires d.Deposit?
  {
    if d.id in Keys(st.pending) then st else st.(pending := st.pending + [d])
  }

  /** Append to the minted ids and to the mint records. */
  function Record(st: RelayState, d: Log): RelayState
    requires d.Deposit?
  {
    st.(minted := st.minted + if d.id in st.minted then [] else [d.id], mints := st.mints + [d])
  }

  function Drop(st: RelayState, ids: set<string>): RelayState {
    st.(pending := Without(st.pending, ids))
  }

  /** A mint attempt for the deposit was reported failed. */
  function Fail(st: RelayState, id: string): RelayState {
    st.(failed := st.failed + {id})
  }

  /** `save_state`, which leaves the file as it was when it raises; the flag says that it did. */
  function Save(c: Setting, w: World): (World, bool) {
    if c.dryRun then (w, false)
    else if c.env.saveFails(w.calls) then (w.(calls := w.calls + 1), true)
    else (w.(calls := w.calls + 1, saved := w.st), false)
  }

  /** A mint that took effect, recorded in memory. */
  function Mint(c: Setting, w: World, d: Log): World
    requires d.Deposit?
  {
    w.(st := Record(w.st, d), issued := w.issued + if c.dryRun then [] else [d.id])
  }

  /** The body of the loop over the queue; the first flag says that the deposit is minted by now. */
  function RetryOne(c: Setting, w: World, d: Log): (World, bool, bool)
    requires d.Deposit?
  {
    if d.id in w.st.minted then (w, true, false)
    else
      var w1 := w.(calls := w.calls + 1);
      match c.env.handle(w.calls)
      case NoAccount => (w1, false, false)
      case NoTrustLine => (w1, false, false)
      case MintFailed => (w1.(st := Fail(w.st, d.id)), false, false)
      case Raised => (w1, false, true)
      case Minted =>
        var (w2, raised) := Save(c, Mint(c, w1, d));
        (w2, !raised, raised)
  }

  function RetryAll(c: Setting, w: World, todo: seq<Log>, resolved: set<string>): (World, set<string>, bool)
    decreases |todo|
  {
    if todo == [] then (w, resolved, false)
    else if !todo[0].Deposit? then RetryAll(c, w, todo[1..], resolved)
    else
      var (w1, done, raised) := RetryOne(c, w, todo[0]);
      if raised then (w1, resolved, true)
      else RetryAll(c, w1, todo[1..], if done then resolved + {todo[0].id} else resolved)
  }

  /** `_retry_pending`. */
  function Retry(c: Setting, w: World): (World, bool) {
    var (w1, resolved, raised) := RetryAll(c, w, w.st.pending, {});
    if raised then (w1, true)
    else
      var w2 := w1.(st := Drop(w1.st, resolved));
      if resolved == {} then (w2, false) else Save(c, w2)
  }

  /** The body of the loop over the logs. */
  function HandleOne(c: Setting, w: World, d: Log): (World, bool) {
    if !d.Deposit? || d.id in w.st.minted then (w, false)
    else
      var w1 := w.(calls := w.calls + 1);
      match c.env.handle(w.calls)
      case NoAccount => (w1.(st := Queue(w.st, d)), false)
      case NoTrustLine => (w1.(st := Queue(w.st, d)), false)
      case MintFailed => (w1.(st := Fail(w.st, d.id)), false)
      case Raised => (w1, true)
      case Minted =>
        var w2 := Mint(c, w1, d);
        Save(c, w2.(st := Drop(w2.st, {d.id})))
  }

  function HandleAll(c: Setting, w: World, logs: seq<Log>): (World, bool)
    decreases |logs|
  {
    if logs == [] then (w, false)
    else
      var (w1, raised) := HandleOne(c, w, logs[0]);
      if raised then (w1, true) else HandleAll(c, w1, logs[1..])
  }

  /** `get_logs`: the logs of the blocks `lo` to `hi`, in order. */
  function LogsIn(chain: Chain, lo: nat, hi: nat): seq<Log>
    decreases hi - lo
  {
    if hi < lo then [] else chain(lo) + LogsIn(chain, lo + 1, hi)
  }

  /** The cursor moves to the end of the range `from` to `to`. */
  function Advance(st: RelayState, from: nat, to: nat): RelayState {
    st.(lastBlock := Some(to),
        first := if st.lastBlock.None? then from else st.first,
        gap := st.gap || (st.lastBlock.Some? && st.lastBlock.value + 1 < from))
  }

  /** `process_deposits`: an exception before the end leaves the cursor where it was. */
  function Process(c: Setting, w: World, from: nat, to: nat): (World, bool) {
    var w1 := w.(calls := w.calls + 1);
    if c.env.logsRaise(w.calls) then (w1, true)
    else
      var (w2, raised) := HandleAll(c, w1, LogsIn(c.chain, from, to));
      if raised then (w2, true) else Save(c, w2.(st := Advance(w2.st, from, to)))
  }

  /** The loop over chunks of blocks. */
  function Chunks(c: Setting, w: World, cursor: nat, head: nat): (World, bool)
    decreases head + 1 - cursor
  {
    if head < cursor then (w, false)
    else
      var to := if cursor + CHUNK - 1 < head then cursor + CHUNK - 1 else head;
      var (w1, raised) := Process(c, w, cursor, to);
      if raised then (w1, true) else Chunks(c, w1, to + 1, head)
  }

  /** The first block to scan; 0 for `fromBlock` means that no override was given. */
  function Start(c: Setting, w: World, fromBlock: nat): (World, Option<nat>) {
    if fromBlock != 0 && (w.st.lastBlock.None? || w.st.lastBlock.value == 0) then (w, Some(fromBlock))
    else if w.st.lastBlock.Some? then (w, Some(w.st.lastBlock.value + 1))
    else if w.st.deployBlock != 0 then (w, Some(w.st.deployBlock))
    else
      var w1 := w.(calls := w.calls + 1);
      match c.env.blockNumber(w.calls)
      case None => (w1, None)
      case Some(head) =>
        var fb := if head < LOOKBACK then 0 else head - LOOKBACK;
        (w1.(st := w.st.(deployBlock := fb)), Some(fb))
  }

  /** `poll_once`, complete or aborted by an exception at any call. */
  function Poll(c: Setting, w: World, fromBlock: nat): (World, bool) {
    var (w1, fb) := Start(c, w, fromBlock);
    if fb.None? then (w1, true)
    else
      var head := c.env.blockNumber(w1.calls);
      var w2 := w1.(calls := w1.calls + 1);
      if head.None? then (w2, true) else RetryAndScan(c, w2, fb.value, head.value)
  }

  /** The part of a poll after both blocks are known. */
  function RetryAndScan(c: Setting, w: World, from: nat, head: nat): (World, bool) {
    var (w1, raised) := Retry(c, w);
    if raised || head < from then (w1, raised) else Chunks(c, w1, from, head)
  }

  /** The process starts again from the state file. */
  function Restart(c: Setting, w: World): World {
    w.(st := w.saved, forgot := w.forgot || (!c.dryRun && w.saved.minted != w.st.minted))
  }

  /** Polls, complete or aborted, and restarts of the process after any of them. */
  datatype Step = PollStep(fromBlock: nat) | Crash

  function After(c: Setting, w: World, step: Step): World {
    match step
    case PollStep(fromBlock) => Poll(c, w, fromBlock).0
    case Crash => Restart(c, w)
  }

  function Run(c: Setting, w: World, steps: seq<Step>): World
    decreases |steps|
  {
    if steps == [] then w else Run(c, After(c, w, steps[0]), steps[1..])
  }

  // ----- the procedures themselves

  class Relay {
    const c: Setting
    var st: RelayState
    var saved: RelayState
    var issued: seq<string>
    var calls: nat
    var forgot: bool

    function Now(): World
      reads this
    {
      World(st, saved, issued, calls, forgot)
    }

    /** The process starts with a state file, or with the empty state when there is none. */
    constructor (c: Setting, file: Option<RelayState>)
      ensures this.c == c
      ensures var s := if file.Some? then file.value else EMPTY; Now() == World(s, s, s.minted, 0, false)
    {
      this.c, calls, forgot := c, 0, false;
      st := if file.Some? then file.value else EMPTY;
      saved := if file.Some? then file.value else EMPTY;
      issued := if file.Some? then file.value.minted else EMPTY.minted;
    }

    method SaveState() returns (raised: bool)
      modifies this
      ensures (Now(), raised) == Save(c, old(Now()))
    {
      if c.dryRun { return false; }
      raised := c.env.saveFails(calls);
      calls := calls + 1;
      if !raised { saved := st; }
    }

    method RetryPending() returns (raised: bool)
      modifies this
      ensures (Now(), raised) == Retry(c, old(Now()))
    {
      var todo := st.pending;
      var resolved: set<string> := {};
      var i := 0;
      while i < |todo|
        invariant i <= |todo|
        invariant RetryAll(c, Now(), todo[i..], resolved) == RetryAll(c, old(Now()), todo, {})
      {
        assert todo[i..][1..] == todo[i + 1..];
        if todo[i].Deposit? {
          var done;
          done, raised := RetryDeposit(todo[i]);
          if raised { return; }
          if done { resolved := resolved + {todo[i].id}; }
        }
        i := i + 1;
      }
      st := Drop(st, resolved);
      if resolved == {} { return false; }
      raised := SaveState();
    }

    method RetryDeposit(d: Log) returns (done: bool, raised: bool)
      requires d.Deposit?
      modifies this
      ensures (Now(), done, raised) == RetryOne(c, old(Now()), d)
    {
      if d.id in st.minted { return true, false; }
      var reply := c.env.handle(calls);
      calls := calls + 1;
      done, raised := false, false;
      match reply
      case NoAccount =>
      case NoTrustLine =>
      case MintFailed => st := Fail(st, d.id);
      case Raised => raised := true;
      case Minted =>
        Issue(d);
        raised := SaveState();
        done := !raised;
    }

    method Issue(d: Log)
      requires d.Deposit?
      modifies this
      ensures Now() == Mint(c, old(Now()), d)
    {
      st := Record(st, d);
      if !c.dryRun { issued := issued + [d.id]; }
    }

    method ProcessDeposits(from: nat, to: nat) returns (raised: bool)
      modifies this
      ensures (Now(), raised) == Process(c, old(Now()), from, to)
    {
      raised := c.env.logsRaise(calls);
      calls := calls + 1;
      if raised { return; }
      var logs := LogsIn(c.chain, from, to);
      ghost var w1 := Now();
      for i := 0 to |logs|
        invariant HandleAll(c, Now(), logs[i..]) == HandleAll(c, w1, logs)
      {
        assert logs[i..][1..] == logs[i + 1..];
        raised := ProcessLog(logs[i]);
        if raised { return; }
      }
      st := Advance(st, from, to);
      raised := SaveState();
    }

    method ProcessLog(d: Log) returns (raised: bool)
      modifies this
      ensures (Now(), raised) == HandleOne(c, old(Now()), d)
    {
      if !d.Deposit? || d.id in st.minted { return false; }
      var reply := c.env.handle(calls);
      calls := calls + 1;
      raised := false;
      match reply
      case NoAccount => st := Queue(st, d);
      case NoTrustLine => st := Queue(st, d);
      case MintFailed => st := Fail(st, d.id);
      case Raised => raised := true;
      case Minted =>
        Issue(d);
        st := Drop(st, {d.id});
        raised := SaveState();
    }

    method StartBlock(fromBlock: nat) returns (fb: Option<nat>)
      modifies this
      ensures (Now(), fb) == Start(c, old(Now()), fromBlock)
    {
      if fromBlock != 0 && (st.lastBlock.None? || st.lastBlock.value == 0) {
        return Some(fromBlock);
      } else if st.lastBlock.Some? {
        return Some(st.lastBlock.value + 1);
      } else if st.deployBlock != 0 {
        return Some(st.deployBlock);
      }
      var head := c.env.blockNumber(calls);
      calls := calls + 1;
      if head.None? { return None; }
      var fb' := if head.value < LOOKBACK then 0 else head.value - LOOKBACK;
      st := st.(deployBlock := fb');
      return Some(fb');
    }

    method PollOnce(fromBlock: nat) returns (raised: bool)
      modifies this
      ensures (Now(), raised) == Poll(c, old(Now()), fromBlock)
    {
      var fb := StartBlock(fromBlock);
      if fb.None? { return true; }
      var head := c.env.blockNumber(calls);
      calls := calls + 1;
      if head.None? { return true; }
      raised := RetryPending();
      if raised || head.value < fb.value { return; }
      raised := ScanChunks(fb.value, head.value);
    }

    /** The loop over chunks of blocks. */
    method ScanChunks(from: nat, head: nat) returns (raised: bool)
      modifies this
      ensures (Now(), raised) == Chunks(c, old(Now()), from, head)
    {
      var cursor := from;
      raised := false;
      while cursor <= head
        invariant !raised && Chunks(c, Now(), cursor, head) == Chunks(c, old(Now()), from, head)
        decreases head + 1 - cursor
      {
        var to := if cursor + CHUNK - 1 < head then cursor + CHUNK - 1 else head;
        raised := ProcessDeposits(cursor, to);
        if raised { return; }
        cursor := to + 1;
      }
    }

    method Reload()
      modifies this
      ensures Now() == Restart(c, old(Now()))
    {
      if !c.dryRun && saved.minted != st.minted { forgot := true; }
      st := saved;
    }

    /** The polling loop, with the restarts that end and begin it. */
    method Loop(steps: seq<Step>)
      modifies this
      ensures Now() == Run(c, old(Now()), steps)
    {
      for i := 0 to |steps|
        invariant Run(c, Now(), steps[i..]) == Run(c, old(Now()), steps)
      {
        assert steps[i..][1..] == steps[i + 1..];
        match steps[i]
        case PollStep(fromBlock) => var _ := PollOnce(fromBlock);
        case Crash => Reload();
      }
    }
  }
}
