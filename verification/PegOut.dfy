/** Keyless peg-out programs: the per-burn reserve instance and the shared hold program. */
module PegOut {
  import opened Words
  import opened Script

  // ----- what a burn commits to

  datatype PegOutCommit = PegOutCommit(account20: Bytes, withdrawSeq: int, amountSats: int, payoutScript: Bytes)

  /** `struct.pack(">I")` and `struct.pack(">Q")` accept the two numbers. */
  predicate Packable(c: PegOutCommit) {
    0 <= c.withdrawSeq < 0x1_0000_0000 && 0 <= c.amountSats < 0x1_0000_0000_0000_0000
  }

  /** The bytes that `digest` hashes and that `complete_witness` reveals. */
  function Preimage(c: PegOutCommit): Bytes
    requires Packable(c)
  {
    c.account20 + BigEndian(c.withdrawSeq, 4) + BigEndian(c.amountSats, 8) + c.payoutScript
  }

  function Digest(sha: Hash, c: PegOutCommit): Result<Bytes> {
    if Packable(c) then Ok(sha(Preimage(c))) else Err("struct.error")
  }

  /** Commits for 20-byte accounts are determined by their preimages. */
  lemma PreimageInjective(c: PegOutCommit, d: PegOutCommit)
    requires Packable(c) && Packable(d) && |c.account20| == 20 && |d.account20| == 20
    requires Preimage(c) == Preimage(d)
    ensures c == d
  {
    var p := Preimage(c);
    assert p[..20] == c.account20 && p[..20] == d.account20;
    assert p[20..24] == BigEndian(c.withdrawSeq, 4) && p[20..24] == BigEndian(d.withdrawSeq, 4);
    assert p[24..32] == BigEndian(c.amountSats, 8) && p[24..32] == BigEndian(d.amountSats, 8);
    assert p[32..] == c.payoutScript && p[32..] == d.payoutScript;
    Pow256();
    BigEndianInjective(c.withdrawSeq, d.withdrawSeq, 4);
    BigEndianInjective(c.amountSats, d.amountSats, 8);
  }

  /** 32 zero bytes. */
  const ZERO_HASH: Bytes := LittleEndian(0, 32)

  function P2wshSpk(sha: Hash, program: Bytes): Bytes {
    [0x00, 0x20] + sha(program)
  }

  // ----- the two fragments of the programs

  function HashLock(digest: Bytes): (r: Bytes)
    requires |digest| == 32
    ensures |r| == 36
    ensures HashLockAt(r, 0, digest)
  {
    [OP_SHA256, 0x20] + digest + [OP_EQUALVERIFY, 0x51]
  }

  function Delay(csv: nat): (r: Bytes)
    requires 1 <= csv <= 16
    ensures DelayAt(r, 0, csv)
  {
    [0x50 + csv, OP_CSV, OP_DROP]
  }

  method AppendHashLock(buffer: Bytes, digest: Bytes) returns (s: Bytes)
    requires |digest| == 32
    ensures s == buffer + HashLock(digest)
  {
    s := buffer;
    s := s + [OP_SHA256];
    s := s + [0x20];
    s := s + digest;
    s := s + [OP_EQUALVERIFY];
    s := s + [0x51];
  }

  method AppendDelay(buffer: Bytes, csv: nat) returns (s: Bytes)
    requires 1 <= csv <= 16
    ensures s == buffer + Delay(csv)
  {
    s := buffer;
    s := s + [0x50 + csv];
    s := s + [OP_CSV];
    s := s + [OP_DROP];
  }

  /** A fragment keeps its shape inside a longer program. */
  lemma FragmentWithin(before: Bytes, fragment: Bytes, after: Bytes)
    ensures var p := before + fragment + after;
            && (forall digest :: HashLockAt(fragment, 0, digest) ==> HashLockAt(p, |before|, digest))
            && (forall csv :: DelayAt(fragment, 0, csv) ==> DelayAt(p, |before|, csv))
  {
    var p := before + fragment + after;
    forall digest | HashLockAt(fragment, 0, digest)
      ensures HashLockAt(p, |before|, digest)
    {
      assert p[|before| + 2..|before| + 34] == fragment[2..34];
    }
  }

  // ----- per-burn reserve program: IF completes, ELSE challenges

  predicate ReserveLayout(p: Bytes, digest: Bytes, csv: nat, fraud: Bytes) {
    && |p| == 78 && p[0] == OP_IF && p[40] == OP_ELSE && p[77] == OP_ENDIF
    && DelayAt(p, 1, csv) && HashLockAt(p, 4, digest) && HashLockAt(p, 41, fraud)
  }

  function ReserveProgramFor(digest: Bytes, csv: nat, fraud: Bytes): (p: Bytes)
    requires |digest| == 32 && 1 <= csv <= 16 && |fraud| == 32
    ensures ReserveLayout(p, digest, csv, fraud)
  {
    var p := [OP_IF] + Delay(csv) + HashLock(digest) + [OP_ELSE] + HashLock(fraud) + [OP_ENDIF];
    assert ReserveLayout(p, digest, csv, fraud) by {
      FragmentWithin([OP_IF], Delay(csv), HashLock(digest) + [OP_ELSE] + HashLock(fraud) + [OP_ENDIF]);
      assert p == [OP_IF] + Delay(csv) + (HashLock(digest) + [OP_ELSE] + HashLock(fraud) + [OP_ENDIF]);
      FragmentWithin([OP_IF] + Delay(csv), HashLock(digest), [OP_ELSE] + HashLock(fraud) + [OP_ENDIF]);
      assert p == [OP_IF] + Delay(csv) + HashLock(digest) + ([OP_ELSE] + HashLock(fraud) + [OP_ENDIF]);
      FragmentWithin([OP_IF] + Delay(csv) + HashLock(digest) + [OP_ELSE], HashLock(fraud), [OP_ENDIF]);
    }
    p
  }

  /** The fraud hash is fixed to zeros, which leaves the challenge path dead. */
  function ReserveProgram(digest: Bytes, csv: nat): (p: Bytes)
    requires |digest| == 32 && 1 <= csv <= 16
    ensures ReserveLayout(p, digest, csv, ZERO_HASH)
  {
    ReserveProgramFor(digest, csv, ZERO_HASH)
  }

  method BuildReserveProgram(sha: Hash, commit: PegOutCommit, challengeCsv: int) returns (r: Result<Bytes>)
    ensures r.Ok? <==> 1 <= challengeCsv <= 16 && Packable(commit)
    ensures r.Ok? ==> r.value == ReserveProgram(sha(Preimage(commit)), challengeCsv)
  {
    if !(1 <= challengeCsv <= 16) { return Err("challenge_csv must be 1..16 for OP_N encoding"); }
    var dig := Digest(sha, commit);
    if dig.Err? { return Err(dig.error); }
    var s: Bytes := [OP_IF];
    s := AppendDelay(s, challengeCsv);
    s := AppendHashLock(s, dig.value);
    s := s + [OP_ELSE];
    s := AppendHashLock(s, ZERO_HASH);
    s := s + [OP_ENDIF];
    return Ok(s);
  }

  /** The top element hashes to `digest`. */
  predicate Opens(sha: Hash, rest: Stack, digest: Bytes) {
    rest != [] && sha(rest[|rest| - 1]) == digest
  }

  /** What a satisfied hash lock leaves. */
  function Unlocked(rest: Stack): Stack
    requires rest != []
  {
    rest[..|rest| - 1] + [[1]]
  }

  lemma Branches(stack: Stack)
    ensures Executing(Machine(stack, [true])) && !Executing(Machine(stack, [false]))
  {
    assert !Machine(stack, [false]).conditions[0];
  }

  lemma {:induction false} ReserveTail(sha: Hash, ctx: TxContext, p: Bytes, digest: Bytes, csv: nat, fraud: Bytes, stack: Stack)
    requires ReserveLayout(p, digest, csv, fraud)
    ensures Execute(sha, ctx, p, 40, Machine(stack, [true])) == Some(stack)
  {
    Branches(stack);
    RunElse(sha, ctx, p, 40, stack, true);
    SkipHashLock(sha, ctx, p, 41, fraud, Machine(stack, [false]));
    RunEnd(sha, ctx, p, 77, stack, false);
  }

  lemma {:induction false} ReserveComplete(sha: Hash, ctx: TxContext, p: Bytes, digest: Bytes, csv: nat, fraud: Bytes, rest: Stack)
    requires ReserveLayout(p, digest, csv, fraud)
    ensures Execute(sha, ctx, p, 1, Machine(rest, [true])) ==
            if DelayMet(ctx, csv) && Opens(sha, rest, digest) then Some(Unlocked(rest)) else None
  {
    RunDelay(sha, ctx, p, 1, csv, Machine(rest, [true]));
    RunHashLock(sha, ctx, p, 4, digest, Machine(rest, [true]));
    if rest != [] { ReserveTail(sha, ctx, p, digest, csv, fraud, Unlocked(rest)); }
  }

  lemma {:induction false} ReserveChallenge(sha: Hash, ctx: TxContext, p: Bytes, digest: Bytes, csv: nat, fraud: Bytes, rest: Stack)
    requires ReserveLayout(p, digest, csv, fraud)
    ensures Execute(sha, ctx, p, 40, Machine(rest, [false])) ==
            if Opens(sha, rest, fraud) then Some(Unlocked(rest)) else None
  {
    RunElse(sha, ctx, p, 40, rest, false);
    RunHashLock(sha, ctx, p, 41, fraud, Machine(rest, [true]));
    if rest != [] { RunEnd(sha, ctx, p, 77, Unlocked(rest), true); }
  }

  lemma {:induction false} RunReserve(sha: Hash, ctx: TxContext, p: Bytes, digest: Bytes, csv: nat, fraud: Bytes, stack: Stack)
    requires ReserveLayout(p, digest, csv, fraud) && stack != []
    ensures var rest := stack[..|stack| - 1];
            Execute(sha, ctx, p, 0, Machine(stack, [])) ==
            if CastToBool(stack[|stack| - 1])
            then if DelayMet(ctx, csv) && Opens(sha, rest, digest) then Some(Unlocked(rest)) else None
            else if Opens(sha, rest, fraud) then Some(Unlocked(rest)) else None
  {
    RunIf(sha, ctx, p, stack);
    var rest := stack[..|stack| - 1];
    Branches(rest);
    if CastToBool(stack[|stack| - 1]) {
      ReserveComplete(sha, ctx, p, digest, csv, fraud, rest);
    } else {
      SkipDelay(sha, ctx, p, 1, csv, Machine(rest, [false]));
      SkipHashLock(sha, ctx, p, 4, digest, Machine(rest, [false]));
      ReserveChallenge(sha, ctx, p, digest, csv, fraud, rest);
    }
  }

  /** The reserve program accepts exactly a delayed COMPLETE or a CHALLENGE with a fraud preimage. */
  lemma ReserveAccepts(sha: Hash, ctx: TxContext, digest: Bytes, csv: nat, stack: Stack)
    requires |digest| == 32 && 1 <= csv <= 16
    ensures Accepts(sha, ctx, ReserveProgram(digest, csv), stack) <==>
            && |stack| == 2
            && (|| (CastToBool(stack[1]) && DelayMet(ctx, csv) && sha(stack[0]) == digest)
                || (!CastToBool(stack[1]) && sha(stack[0]) == ZERO_HASH))
  {
    if stack != [] {
      RunReserve(sha, ctx, ReserveProgram(digest, csv), digest, csv, ZERO_HASH, stack);
      OneIsTrue();
    }
  }

  lemma OneIsTrue()
    ensures CastToBool([1]) && !CastToBool([])
  {
    var one: Bytes := [1];
    assert one[0] != 0;
  }

  /** Witness for the COMPLETE path of a reserve instance. */
  function CompleteWitness(c: PegOutCommit, program: Bytes): seq<Bytes>
    requires Packable(c)
  {
    [Preimage(c), [0x01], program]
  }

  /** The honest witness spends its own instance exactly when the delay is met and the preimage fits on the stack. */
  lemma CompleteWitnessSpends(sha: Hash, ctx: TxContext, c: PegOutCommit, csv: nat)
    requires Packable(c) && 1 <= csv <= 16
    ensures var p := ReserveProgram(sha(Preimage(c)), csv);
            SpendsP2wsh(sha, ctx, P2wshSpk(sha, p), CompleteWitness(c, p))
            <==> DelayMet(ctx, csv) && |Preimage(c)| <= MAX_ITEM_SIZE
  {
    var p := ReserveProgram(sha(Preimage(c)), csv);
    var w := CompleteWitness(c, p);
    assert w[..2] == [Preimage(c), [0x01]];
    ReserveAccepts(sha, ctx, sha(Preimage(c)), csv, w[..2]);
    OneIsTrue();
    assert |w[0]| == |Preimage(c)| && |w[1]| == 1;
  }

  /** A different burn's witness opens an instance only through a hash collision. */
  lemma CommitBinding(sha: Hash, ctx: TxContext, c: PegOutCommit, other: PegOutCommit, csv: nat)
    requires Packable(c) && Packable(other) && |c.account20| == 20 && |other.account20| == 20
    requires 1 <= csv <= 16
    requires var p := ReserveProgram(sha(Preimage(c)), csv);
             SpendsP2wsh(sha, ctx, P2wshSpk(sha, p), CompleteWitness(other, p))
    ensures other == c || (Preimage(other) != Preimage(c) && sha(Preimage(other)) == sha(Preimage(c)))
  {
    var p := ReserveProgram(sha(Preimage(c)), csv);
    var w := CompleteWitness(other, p);
    assert w[..2] == [Preimage(other), [0x01]];
    ReserveAccepts(sha, ctx, sha(Preimage(c)), csv, w[..2]);
    OneIsTrue();
    if Preimage(other) == Preimage(c) { PreimageInjective(other, c); }
  }

  // ----- shared hold program: IF challenges, ELSE completes

  const HOLD: Bytes := [0x48, 0x4F, 0x4C, 0x44]

  predicate HoldLayout(p: Bytes, digest: Bytes, csv: nat, fraud: Bytes) {
    && |p| == 78 && p[0] == OP_IF && p[37] == OP_ELSE && p[77] == OP_ENDIF
    && HashLockAt(p, 1, fraud) && DelayAt(p, 38, csv) && HashLockAt(p, 41, digest)
  }

  function HoldProgram(digest: Bytes, csv: nat, fraud: Bytes): (p: Bytes)
    requires |digest| == 32 && 1 <= csv <= 16 && |fraud| == 32
    ensures HoldLayout(p, digest, csv, fraud)
  {
    var p := [OP_IF] + HashLock(fraud) + [OP_ELSE] + Delay(csv) + HashLock(digest) + [OP_ENDIF];
    assert HoldLayout(p, digest, csv, fraud) by {
      FragmentWithin([OP_IF], HashLock(fraud), [OP_ELSE] + Delay(csv) + HashLock(digest) + [OP_ENDIF]);
      assert p == [OP_IF] + HashLock(fraud) + ([OP_ELSE] + Delay(csv) + HashLock(digest) + [OP_ENDIF]);
      FragmentWithin([OP_IF] + HashLock(fraud) + [OP_ELSE], Delay(csv), HashLock(digest) + [OP_ENDIF]);
      assert p == [OP_IF] + HashLock(fraud) + [OP_ELSE] + Delay(csv) + (HashLock(digest) + [OP_ENDIF]);
      FragmentWithin([OP_IF] + HashLock(fraud) + [OP_ELSE] + Delay(csv), HashLock(digest), [OP_ENDIF]);
    }
    p
  }

  method BuildSharedHoldProgram(sha: Hash, setupId: Bytes, challengeCsv: int, fraudHash: Option<Bytes>)
    returns (r: Result<Bytes>)
    ensures r.Ok? <==> |setupId| == 32 && 1 <= challengeCsv <= 16 && (fraudHash.Some? ==> |fraudHash.value| == 32)
    ensures r.Ok? ==> r.value == HoldProgram(sha(setupId + HOLD), challengeCsv,
                                             if fraudHash.Some? then fraudHash.value else ZERO_HASH)
  {
    if |setupId| != 32 { return Err("setup_id must be 32 bytes"); }
    if !(1 <= challengeCsv <= 16) { return Err("challenge_csv 1..16"); }
    var fraud := if fraudHash.None? then ZERO_HASH else fraudHash.value;
    if |fraud| != 32 { return Err("fraud_hash"); }
    var holdDigest := sha(setupId + HOLD);
    var s: Bytes := [OP_IF];
    s := AppendHashLock(s, fraud);
    s := s + [OP_ELSE];
    s := AppendDelay(s, challengeCsv);
    s := AppendHashLock(s, holdDigest);
    s := s + [OP_ENDIF];
    return Ok(s);
  }

  lemma {:induction false} HoldTail(sha: Hash, ctx: TxContext, p: Bytes, digest: Bytes, csv: nat, fraud: Bytes, stack: Stack)
    requires HoldLayout(p, digest, csv, fraud)
    ensures Execute(sha, ctx, p, 37, Machine(stack, [true])) == Some(stack)
  {
    Branches(stack);
    RunElse(sha, ctx, p, 37, stack, true);
    SkipDelay(sha, ctx, p, 38, csv, Machine(stack, [false]));
    SkipHashLock(sha, ctx, p, 41, digest, Machine(stack, [false]));
    RunEnd(sha, ctx, p, 77, stack, false);
  }

  lemma {:induction false} HoldUnlock(sha: Hash, ctx: TxContext, p: Bytes, digest: Bytes, csv: nat, fraud: Bytes, rest: Stack)
    requires HoldLayout(p, digest, csv, fraud)
    ensures Execute(sha, ctx, p, 38, Machine(rest, [true])) ==
            if DelayMet(ctx, csv) && Opens(sha, rest, digest) then Some(Unlocked(rest)) else None
  {
    RunDelay(sha, ctx, p, 38, csv, Machine(rest, [true]));
    RunHashLock(sha, ctx, p, 41, digest, Machine(rest, [true]));
    if rest != [] { RunEnd(sha, ctx, p, 77, Unlocked(rest), true); }
  }

  lemma {:induction false} HoldComplete(sha: Hash, ctx: TxContext, p: Bytes, digest: Bytes, csv: nat, fraud: Bytes, rest: Stack)
    requires HoldLayout(p, digest, csv, fraud)
    ensures Execute(sha, ctx, p, 37, Machine(rest, [false])) ==
            if DelayMet(ctx, csv) && Opens(sha, rest, digest) then Some(Unlocked(rest)) else None
  {
    RunElse(sha, ctx, p, 37, rest, false);
    HoldUnlock(sha, ctx, p, digest, csv, fraud, rest);
  }

  lemma {:induction false} RunHold(sha: Hash, ctx: TxContext, p: Bytes, digest: Bytes, csv: nat, fraud: Bytes, stack: Stack)
    requires HoldLayout(p, digest, csv, fraud) && stack != []
    ensures var rest := stack[..|stack| - 1];
            Execute(sha, ctx, p, 0, Machine(stack, [])) ==
            if CastToBool(stack[|stack| - 1])
            then if Opens(sha, rest, fraud) then Some(Unlocked(rest)) else None
            else if DelayMet(ctx, csv) && Opens(sha, rest, digest) then Some(Unlocked(rest)) else None
  {
    RunIf(sha, ctx, p, stack);
    var rest := stack[..|stack| - 1];
    Branches(rest);
    if CastToBool(stack[|stack| - 1]) {
      RunHashLock(sha, ctx, p, 1, fraud, Machine(rest, [true]));
      if rest != [] { HoldTail(sha, ctx, p, digest, csv, fraud, Unlocked(rest)); }
    } else {
      SkipHashLock(sha, ctx, p, 1, fraud, Machine(rest, [false]));
      HoldComplete(sha, ctx, p, digest, csv, fraud, rest);
    }
  }

  /** The hold program has the opposite branch polarity and accepts the mirrored witnesses. */
  lemma HoldAccepts(sha: Hash, ctx: TxContext, digest: Bytes, csv: nat, fraud: Bytes, stack: Stack)
    requires |digest| == 32 && 1 <= csv <= 16 && |fraud| == 32
    ensures Accepts(sha, ctx, HoldProgram(digest, csv, fraud), stack) <==>
            && |stack| == 2
            && (|| (!CastToBool(stack[1]) && DelayMet(ctx, csv) && sha(stack[0]) == digest)
                || (CastToBool(stack[1]) && sha(stack[0]) == fraud))
  {
    if stack != [] {
      RunHold(sha, ctx, HoldProgram(digest, csv, fraud), digest, csv, fraud, stack);
      OneIsTrue();
    }
  }

  function HoldCompleteWitness(setupId: Bytes, program: Bytes): seq<Bytes> {
    [setupId + HOLD, [], program]
  }

  /** The public preimage completes the hold program exactly when the delay is met. */
  lemma HoldCompleteWitnessSpends(sha: Hash, ctx: TxContext, setupId: Bytes, csv: nat, fraud: Bytes)
    requires |setupId| == 32 && 1 <= csv <= 16 && |fraud| == 32
    ensures var p := HoldProgram(sha(setupId + HOLD), csv, fraud);
            SpendsP2wsh(sha, ctx, P2wshSpk(sha, p), HoldCompleteWitness(setupId, p)) <==> DelayMet(ctx, csv)
  {
    var p := HoldProgram(sha(setupId + HOLD), csv, fraud);
    var w := HoldCompleteWitness(setupId, p);
    assert w[..2] == [setupId + HOLD, []];
    HoldAccepts(sha, ctx, sha(setupId + HOLD), csv, fraud, w[..2]);
    OneIsTrue();
    assert |w[0]| == 36 && |w[1]| == 0;
  }

  // ----- output scripts

  const FBTO: Bytes := [0x46, 0x42, 0x54, 0x4F]

  /** Magic, account, and the withdraw sequence reduced to 32 bits. */
  function FbtoPayload(account20: Bytes, withdrawSeq: int): Result<Bytes> {
    if |account20| != 20 then Err("account20")
    else Ok(FBTO + account20 + BigEndian(withdrawSeq % 0x1_0000_0000, 4))
  }

  function OpReturnScript(payload: Bytes): Result<Bytes> {
    if 75 < |payload| then Err("payload too long") else Ok([0x6A, |payload|] + payload)
  }

  // ----- setup material

  datatype BitVmInstance = BitVmInstance(commit: PegOutCommit, program: Bytes, spk: Bytes, challengeCsv: int)

  /** `BitVmInstance.create`. */
  function CreateInstance(sha: Hash, c: PegOutCommit, csv: int): Result<BitVmInstance> {
    if !(1 <= csv <= 16) then Err("challenge_csv must be 1..16 for OP_N encoding")
    else if !Packable(c) then Err("struct.error")
    else
      var p := ReserveProgram(sha(Preimage(c)), csv);
      Ok(BitVmInstance(c, p, P2wshSpk(sha, p), csv))
  }

  datatype ProtocolReserve = ProtocolReserve(
    setupId: Bytes, challengeCsv: int, holdProgram: Bytes, holdSpk: Bytes, watchScriptHash: Bytes, fraudHash: Bytes)

  /** The bytes of "qXRP-SHARED-RESERVE-v1". */
  const DEFAULT_SETUP: Bytes := [
    0x71, 0x58, 0x52, 0x50, 0x2D, 0x53, 0x48, 0x41, 0x52, 0x45, 0x44,
    0x2D, 0x52, 0x45, 0x53, 0x45, 0x52, 0x56, 0x45, 0x2D, 0x76, 0x31]

  /** `ProtocolReserve.create`: a setup id of the wrong length is hashed. */
  function CreateReserve(sha: Hash, setupId: Option<Bytes>, csv: int): Result<ProtocolReserve> {
    var given := if setupId.Some? then setupId.value else sha(DEFAULT_SETUP);
    var sid := if |given| != 32 then sha(given) else given;
    if !(1 <= csv <= 16) then Err("challenge_csv 1..16")
    else
      var p := HoldProgram(sha(sid + HOLD), csv, ZERO_HASH);
      var spk := P2wshSpk(sha, p);
      Ok(ProtocolReserve(sid, csv, p, spk, sha(spk), ZERO_HASH))
  }

  /** An instance is paid to its own script, which the honest witness opens once the delay is met. */
  lemma CreatedInstanceSpends(sha: Hash, ctx: TxContext, c: PegOutCommit, csv: int)
    ensures CreateInstance(sha, c, csv).Ok? <==> 1 <= csv <= 16 && Packable(c)
    ensures CreateInstance(sha, c, csv).Ok? ==>
            var i := CreateInstance(sha, c, csv).value;
            SpendsP2wsh(sha, ctx, i.spk, CompleteWitness(i.commit, i.program))
            <==> DelayMet(ctx, csv) && |Preimage(c)| <= MAX_ITEM_SIZE
  {
    if 1 <= csv <= 16 && Packable(c) { CompleteWitnessSpends(sha, ctx, c, csv); }
  }

  /** Whatever setup id is given, the reserve's public preimage opens its hold script once the delay is met. */
  lemma CreatedReserveSpends(sha: Hash, ctx: TxContext, setupId: Option<Bytes>, csv: int)
    ensures CreateReserve(sha, setupId, csv).Ok? <==> 1 <= csv <= 16
    ensures CreateReserve(sha, setupId, csv).Ok? ==>
            var r := CreateReserve(sha, setupId, csv).value;
            && |r.setupId| == 32
            && (SpendsP2wsh(sha, ctx, r.holdSpk, HoldCompleteWitness(r.setupId, r.holdProgram)) <==> DelayMet(ctx, csv))
  {
    if 1 <= csv <= 16 {
      var r := CreateReserve(sha, setupId, csv).value;
      HoldCompleteWitnessSpends(sha, ctx, r.setupId, csv, ZERO_HASH);
    }
  }
}
