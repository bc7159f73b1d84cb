/** The challenger's decisions: honest COMPLETE transactions and races against dishonest ones. */
module ChallengeEngine {
  import opened Words
  import opened Script
  import opened PegOut
  import opened BtcTx

  /** A burn with its account and payout script already parsed; accounts have 20 bytes. */
  datatype PendingBurn = PendingBurn(commit: PegOutCommit)

  /** `txid` is in display order. */
  datatype UtxoRef = UtxoRef(txid: Bytes, vout: int, valueSats: int)

  datatype Engine = Engine(reserve: ProtocolReserve, challengeCsv: int, feeSats: int, raceFeeSats: int)

  datatype ChallengerAction = Skip | RaceReplace(raw: Bytes) | HonestComplete(raw: Bytes)

  const DUST := 546

  function Reversed(b: Bytes): (r: Bytes)
    ensures |r| == |b|
  {
    if b == [] then [] else Reversed(b[1..]) + [b[0]]
  }

  /** `build_p2wsh_complete_tx` with version 2 and locktime 0. */
  function CompleteTx(utxo: UtxoRef, stack: seq<Bytes>, outputs: seq<TxOut>, sequence: int): Transaction {
    Transaction(2, [TxIn(Reversed(utxo.txid), utxo.vout, [], sequence, Some(stack))], outputs, 0)
  }

  // ----- what an honest COMPLETE looks like

  function FbtoScript(c: PegOutCommit): Bytes
    requires |c.account20| == 20
  {
    OpReturnScript(FbtoPayload(c.account20, c.withdrawSeq).value).value
  }

  predicate Contains(spk: Bytes, want: Bytes) {
    exists i :: 0 <= i <= |spk| - |want| && OccursAt(spk, want, i)
  }

  predicate OccursAt(spk: Bytes, want: Bytes, i: nat) {
    i + |want| <= |spk| && spk[i..i + |want|] == want
  }

  predicate Pays(o: TxOut, c: PegOutCommit) {
    o.scriptPubKey == c.payoutScript && c.amountSats <= o.value
  }

  predicate Announces(o: TxOut, want: Bytes)
    requires |want| <= 75
  {
    || o.scriptPubKey == OpReturnScript(want).value
    || (2 <= |o.scriptPubKey| && o.scriptPubKey[0] == 0x6A && Contains(o.scriptPubKey, want))
  }

  /** Some output pays the burner at least the amount, and some OP_RETURN names the burn. */
  ghost predicate HonestShape(outs: seq<TxOut>, c: PegOutCommit)
    requires |c.account20| == 20
  {
    && (exists k :: 0 <= k < |outs| && Pays(outs[k], c))
    && (exists k :: 0 <= k < |outs| && Announces(outs[k], FbtoPayload(c.account20, c.withdrawSeq).value))
  }

  method IsHonestCompleteShape(outs: seq<TxOut>, burn: PendingBurn) returns (honest: bool)
    requires |burn.commit.account20| == 20
    ensures honest <==> HonestShape(outs, burn.commit)
  {
    var c := burn.commit;
    var want := FbtoPayload(c.account20, c.withdrawSeq).value;
    var hasPay, hasFbto := false, false;
    for i := 0 to |outs|
      invariant hasPay <==> exists k :: 0 <= k < i && Pays(outs[k], c)
      invariant hasFbto <==> exists k :: 0 <= k < i && Announces(outs[k], want)
    {
      if Pays(outs[i], c) { hasPay := true; }
      if Announces(outs[i], want) { hasFbto := true; }
    }
    return hasPay && hasFbto;
  }

  function TotalValue(outs: seq<TxOut>): int {
    if outs == [] then 0 else outs[0].value + TotalValue(outs[1..])
  }

  // ----- building

  /** The program, script and witness that a COMPLETE of this burn spends. */
  function Unlock(sha: Hash, e: Engine, c: PegOutCommit, useHold: bool): Result<(Bytes, seq<Bytes>)> {
    if useHold then
      Ok((e.reserve.holdSpk, HoldCompleteWitness(e.reserve.setupId, e.reserve.holdProgram)))
    else
      match CreateInstance(sha, c, e.reserve.challengeCsv)
      case Err(m) => Err(m)
      case Ok(inst) => Ok((inst.spk, CompleteWitness(c, inst.program)))
  }

  function HonestOutputs(e: Engine, c: PegOutCommit, value: int, fee: int): seq<TxOut>
    requires |c.account20| == 20
  {
    var change := value - c.amountSats - fee;
    [TxOut(c.amountSats, c.payoutScript), TxOut(0, FbtoScript(c))]
    + if change >= DUST then [TxOut(change, e.reserve.holdSpk)] else []
  }

  /** The transaction that `build_honest_complete` serializes. */
  function HonestTx(sha: Hash, e: Engine, burn: PendingBurn, utxo: UtxoRef, fee: int, useHold: bool): Result<Transaction>
    requires |burn.commit.account20| == 20
  {
    var c := burn.commit;
    match Unlock(sha, e, c, useHold)
    case Err(m) => Err(m)
    case Ok(unlock) =>
      if utxo.valueSats < c.amountSats + fee then Err("utxo too small for amount+fee")
      else Ok(CompleteTx(utxo, unlock.1, HonestOutputs(e, c, utxo.valueSats, fee), e.challengeCsv))
  }

  method BuildOutputs(e: Engine, c: PegOutCommit, value: int, fee: int) returns (outs: seq<TxOut>)
    requires |c.account20| == 20
    ensures outs == HonestOutputs(e, c, value, fee)
  {
    var change := value - c.amountSats - fee;
    outs := [TxOut(c.amountSats, c.payoutScript), TxOut(0, FbtoScript(c))];
    if change >= DUST {
      outs := outs + [TxOut(change, e.reserve.holdSpk)];
    }
  }

  /** Everything before the serialization. */
  method BuildHonestTx(sha: Hash, e: Engine, burn: PendingBurn, utxo: UtxoRef, fee: int, useHold: bool)
    returns (r: Result<Transaction>)
    requires |burn.commit.account20| == 20
    ensures r == HonestTx(sha, e, burn, utxo, fee, useHold)
  {
    var c := burn.commit;
    var unlock := Unlock(sha, e, c, useHold);
    if unlock.Err? { return Err(unlock.error); }
    if utxo.valueSats < c.amountSats + fee { return Err("utxo too small for amount+fee"); }
    var outs := BuildOutputs(e, c, utxo.valueSats, fee);
    return Ok(CompleteTx(utxo, unlock.value.1, outs, e.challengeCsv));
  }

  method BuildHonestComplete(sha: Hash, e: Engine, burn: PendingBurn, utxo: UtxoRef, fee: Option<int>, useHold: bool)
    returns (r: Result<Bytes>)
    requires |burn.commit.account20| == 20
    ensures var tx := HonestTx(sha, e, burn, utxo, if fee.Some? then fee.value else e.feeSats, useHold);
            && (r.Ok? <==> tx.Ok? && Writable(tx.value, true))
            && (r.Ok? ==> r.value == Encode(tx.value, true))
  {
    var tx := BuildHonestTx(sha, e, burn, utxo, if fee.Some? then fee.value else e.feeSats, useHold);
    if tx.Err? { return Err(tx.error); }
    r := Serialize(tx.value, true);
  }

  method EvaluateMempoolTx(sha: Hash, e: Engine, burn: PendingBurn, utxo: UtxoRef, mempoolOuts: seq<TxOut>, useHold: bool)
    returns (r: Result<ChallengerAction>)
    requires |burn.commit.account20| == 20
    ensures HonestShape(mempoolOuts, burn.commit) <==> r == Ok(Skip)
    ensures !HonestShape(mempoolOuts, burn.commit) ==>
              var tx := HonestTx(sha, e, burn, utxo, e.raceFeeSats, useHold);
              && (r.Ok? <==> tx.Ok? && Writable(tx.value, true))
              && (r.Ok? ==> r.value == RaceReplace(Encode(tx.value, true)))
  {
    var honest := IsHonestCompleteShape(mempoolOuts, burn);
    if honest { return Ok(Skip); }
    var raw := BuildHonestComplete(sha, e, burn, utxo, Some(e.raceFeeSats), useHold);
    if raw.Err? { return Err(raw.error); }
    return Ok(RaceReplace(raw.value));
  }

  method PlanAutoRedeem(sha: Hash, e: Engine, burn: PendingBurn, utxo: UtxoRef, useHold: bool)
    returns (r: Result<ChallengerAction>)
    requires |burn.commit.account20| == 20
    ensures var tx := HonestTx(sha, e, burn, utxo, e.feeSats, useHold);
            && (r.Ok? <==> tx.Ok? && Writable(tx.value, true))
            && (r.Ok? ==> r.value == HonestComplete(Encode(tx.value, true)))
  {
    var raw := BuildHonestComplete(sha, e, burn, utxo, None, useHold);
    if raw.Err? { return Err(raw.error); }
    return Ok(HonestComplete(raw.value));
  }

  // ----- properties of every honest COMPLETE

  /** The input value is the outputs plus a miner fee that exceeds the requested one by less than dust. */
  lemma ConservesValue(sha: Hash, e: Engine, burn: PendingBurn, utxo: UtxoRef, fee: int, useHold: bool)
    requires |burn.commit.account20| == 20
    requires HonestTx(sha, e, burn, utxo, fee, useHold).Ok?
    ensures var minerFee := utxo.valueSats - TotalValue(HonestTx(sha, e, burn, utxo, fee, useHold).value.outputs);
            fee <= minerFee < fee + DUST
  {
    var outs := HonestTx(sha, e, burn, utxo, fee, useHold).value.outputs;
    assert TotalValue(outs) == outs[0].value + outs[1].value + TotalValue(outs[1..][1..]);
    if |outs| == 3 { assert outs[1..][1..][1..] == []; } else { assert outs[1..][1..] == []; }
  }

  /** It has the honest shape for its burn. */
  lemma HasHonestShape(sha: Hash, e: Engine, burn: PendingBurn, utxo: UtxoRef, fee: int, useHold: bool)
    requires |burn.commit.account20| == 20
    requires HonestTx(sha, e, burn, utxo, fee, useHold).Ok?
    ensures HonestShape(HonestTx(sha, e, burn, utxo, fee, useHold).value.outputs, burn.commit)
  {
    var outs := HonestTx(sha, e, burn, utxo, fee, useHold).value.outputs;
    assert Pays(outs[0], burn.commit);
    assert Announces(outs[1], FbtoPayload(burn.commit.account20, burn.commit.withdrawSeq).value);
  }

  /**
   It satisfies the program it spends exactly when its sequence number, the engine's delay, meets
   the reserve's delay (and, for an instance, the preimage fits on the stack).
   */
  lemma HonestTxSpends(sha: Hash, e: Engine, burn: PendingBurn, utxo: UtxoRef, fee: int, useHold: bool,
                       setupId: Option<Bytes>)
    requires |burn.commit.account20| == 20 && 0 <= e.challengeCsv
    requires CreateReserve(sha, setupId, e.reserve.challengeCsv) == Ok(e.reserve)
    requires HonestTx(sha, e, burn, utxo, fee, useHold).Ok?
    ensures var tx := HonestTx(sha, e, burn, utxo, fee, useHold).value;
            var ctx := TxContext(tx.version, tx.inputs[0].sequence);
            var spk := Unlock(sha, e, burn.commit, useHold).value.0;
            SpendsP2wsh(sha, ctx, spk, StackOf(tx.inputs[0]))
            <==> DelayMet(TxContext(2, e.challengeCsv), e.reserve.challengeCsv)
                 && (useHold || (Packable(burn.commit) && |Preimage(burn.commit)| <= MAX_ITEM_SIZE))
  {
    var ctx := TxContext(2, e.challengeCsv);
    if useHold {
      HoldCompleteWitnessSpends(sha, ctx, e.reserve.setupId, e.reserve.challengeCsv, ZERO_HASH);
    } else {
      CompleteWitnessSpends(sha, ctx, burn.commit, e.reserve.challengeCsv);
    }
  }

  /** Delays that fit 16 bits: the engine's meets the reserve's exactly when it is at least as long. */
  lemma LongEnoughDelay(engineCsv: nat, reserveCsv: nat)
    requires engineCsv < 0x1_0000
    ensures DelayMet(TxContext(2, engineCsv), reserveCsv) <==> reserveCsv <= engineCsv
  {
  }

  /**
   What one engine builds and broadcasts, any engine reads back from the raw transaction and leaves
   alone: an honest COMPLETE for the same burn is never raced.
   */
  lemma HonestIsNeverRaced(sha: Hash, e: Engine, burn: PendingBurn, utxo: UtxoRef, fee: int, useHold: bool)
    requires |burn.commit.account20| == 20 && |utxo.txid| == 32
    requires HonestTx(sha, e, burn, utxo, fee, useHold).Ok? && Writable(HonestTx(sha, e, burn, utxo, fee, useHold).value, true)
    ensures var raw := Encode(HonestTx(sha, e, burn, utxo, fee, useHold).value, true);
            && Decode(raw) == Some(HonestTx(sha, e, burn, utxo, fee, useHold).value)
            && HonestShape(Decode(raw).value.outputs, burn.commit)
  {
    var tx := HonestTx(sha, e, burn, utxo, fee, useHold).value;
    HasHonestShape(sha, e, burn, utxo, fee, useHold);
    ReadsBack(tx);
  }

  /** A single-input transaction with a witness is recovered whole. */
  lemma ReadsBack(tx: Transaction)
    requires Writable(tx, true) && |tx.inputs| == 1 && |tx.inputs[0].txid| == 32 && tx.inputs[0].wit.Some?
    ensures Decode(Encode(tx, true)) == Some(tx)
  {
    RoundTrip(tx, true);
    assert WithStacks(tx.inputs) == tx.inputs;
  }

  // ----- what the shape leaves open

  /** The value that leaves the reserve through outputs: all but what returns to the hold script. */
  function Taken(hold: Bytes, outs: seq<TxOut>): int {
    if outs == [] then 0
    else (if outs[0].scriptPubKey == hold then 0 else outs[0].value) + Taken(hold, outs[1..])
  }

  lemma TakenCons(hold: Bytes, o: TxOut, rest: seq<TxOut>)
    ensures Taken(hold, [o] + rest) == (if o.scriptPubKey == hold then 0 else o.value) + Taken(hold, rest)
  {
    assert ([o] + rest)[1..] == rest;
  }

  function Returned(hold: Bytes, outs: seq<TxOut>): int {
    if outs == [] then 0
    else (if outs[0].scriptPubKey == hold then outs[0].value else 0) + Returned(hold, outs[1..])
  }

  /** What the reserve loses to a transaction is what its outputs take and the miner fee. */
  lemma {:induction false} ReserveLoss(hold: Bytes, outs: seq<TxOut>, value: int)
    ensures value - Returned(hold, outs) == Taken(hold, outs) + (value - TotalValue(outs))
  {
    if outs != [] { ReserveLoss(hold, outs[1..], value); }
  }

  /** The documented COMPLETE takes the exact amount of the burn, or nothing when it is paid to the reserve itself. */
  function Due(e: Engine, c: PegOutCommit): int {
    if c.payoutScript == e.reserve.holdSpk then 0 else c.amountSats
  }

  predicate NonNegative(outs: seq<TxOut>) {
    forall k :: 0 <= k < |outs| ==> 0 <= outs[k].value
  }

  predicate Empty(hold: Bytes, o: TxOut) {
    o.scriptPubKey == hold || o.value == 0
  }

  /** Every output other than number `k` returns to the reserve or carries nothing. */
  predicate RestEmpty(hold: Bytes, outs: seq<TxOut>, k: int) {
    forall j :: 0 <= j < |outs| && j != k ==> Empty(hold, outs[j])
  }

  /** One output pays the burner the exact amount, and no other output takes anything. */
  ghost predicate TakesOnlyTheDue(e: Engine, c: PegOutCommit, outs: seq<TxOut>) {
    if c.payoutScript == e.reserve.holdSpk then RestEmpty(e.reserve.holdSpk, outs, -1)
    else exists k :: 0 <= k < |outs| && outs[k] == TxOut(c.amountSats, c.payoutScript) && RestEmpty(e.reserve.holdSpk, outs, k)
  }

  lemma {:induction false} TakenZero(hold: Bytes, outs: seq<TxOut>)
    requires NonNegative(outs)
    ensures 0 <= Taken(hold, outs)
    ensures Taken(hold, outs) == 0 <==> RestEmpty(hold, outs, -1)
  {
    if outs != [] {
      TakenZero(hold, outs[1..]);
      RestOfRest(hold, outs, -1);
    }
  }

  lemma RestOfRest(hold: Bytes, outs: seq<TxOut>, k: int)
    requires outs != []
    ensures RestEmpty(hold, outs, k) <==> (k == 0 || Empty(hold, outs[0])) && RestEmpty(hold, outs[1..], k - 1)
  {
    if RestEmpty(hold, outs[1..], k - 1) && (k == 0 || Empty(hold, outs[0])) {
      forall j | 0 <= j < |outs| && j != k ensures Empty(hold, outs[j]) {
        if j != 0 { assert outs[j] == outs[1..][j - 1]; }
      }
    }
  }

  /** An output outside the reserve takes its value, and no more is taken exactly when the rest is empty. */
  lemma {:induction false} TakenAtLeast(hold: Bytes, outs: seq<TxOut>, k: nat)
    requires NonNegative(outs) && k < |outs| && outs[k].scriptPubKey != hold
    ensures outs[k].value <= Taken(hold, outs)
    ensures outs[k].value == Taken(hold, outs) <==> RestEmpty(hold, outs, k)
  {
    RestOfRest(hold, outs, k);
    if k == 0 {
      TakenZero(hold, outs[1..]);
    } else {
      TakenAtLeast(hold, outs[1..], k - 1);
    }
  }

  /**
   Whatever is skipped takes at least what is due, and takes no more exactly when it is the documented
   COMPLETE: one output of the exact amount to the burner and nothing else outside the reserve.
   */
  lemma SkippedTakesExactly(e: Engine, c: PegOutCommit, outs: seq<TxOut>)
    requires |c.account20| == 20 && HonestShape(outs, c) && NonNegative(outs)
    ensures Due(e, c) <= Taken(e.reserve.holdSpk, outs)
    ensures Due(e, c) == Taken(e.reserve.holdSpk, outs) <==> TakesOnlyTheDue(e, c, outs)
  {
    var hold := e.reserve.holdSpk;
    if c.payoutScript == hold {
      TakenZero(hold, outs);
    } else {
      var k :| 0 <= k < |outs| && Pays(outs[k], c);
      TakenAtLeast(hold, outs, k);
      forall j | 0 <= j < |outs| && outs[j] == TxOut(c.amountSats, c.payoutScript)
        ensures Taken(hold, outs) == c.amountSats <==> RestEmpty(hold, outs, j)
      {
        TakenAtLeast(hold, outs, j);
      }
    }
  }

  /** An honest COMPLETE takes exactly what is due. */
  lemma HonestTakesTheDue(sha: Hash, e: Engine, burn: PendingBurn, utxo: UtxoRef, fee: int, useHold: bool)
    requires |burn.commit.account20| == 20
    requires HonestTx(sha, e, burn, utxo, fee, useHold).Ok?
    ensures Taken(e.reserve.holdSpk, HonestTx(sha, e, burn, utxo, fee, useHold).value.outputs) == Due(e, burn.commit)
  {
    var outs := HonestTx(sha, e, burn, utxo, fee, useHold).value.outputs;
    assert outs == HonestOutputs(e, burn.commit, utxo.valueSats, fee);
    HonestOutputsTake(e, burn.commit, utxo.valueSats, fee);
  }

  lemma HonestOutputsTake(e: Engine, c: PegOutCommit, value: int, fee: int)
    requires |c.account20| == 20
    ensures Taken(e.reserve.holdSpk, HonestOutputs(e, c, value, fee)) == Due(e, c)
  {
    var change := value - c.amountSats - fee;
    var more := if change >= DUST then [TxOut(change, e.reserve.holdSpk)] else [];
    var pay, tell := TxOut(c.amountSats, c.payoutScript), TxOut(0, FbtoScript(c));
    assert HonestOutputs(e, c, value, fee) == [pay] + ([tell] + more);
    assert more != [] ==> more[1..] == [];
    TakenCons(e.reserve.holdSpk, tell, more);
    TakenCons(e.reserve.holdSpk, pay, [tell] + more);
  }

  /** With one payout, one announcement and any third output. */
  function ThreeOutputs(c: PegOutCommit, paid: int, rest: int, spk: Bytes): seq<TxOut>
    requires |c.account20| == 20
  {
    [TxOut(paid, c.payoutScript), TxOut(0, FbtoScript(c)), TxOut(rest, spk)]
  }

  /**
   The shape bounds neither the payout from above nor the other outputs: any amount from the burned
   one on, and any third output, are skipped, and the reserve loses both.
   */
  lemma ShapeIgnoresTheRest(e: Engine, c: PegOutCommit, paid: int, rest: int, spk: Bytes)
    requires |c.account20| == 20 && c.amountSats <= paid && c.payoutScript != e.reserve.holdSpk
    ensures HonestShape(ThreeOutputs(c, paid, rest, spk), c)
    ensures Taken(e.reserve.holdSpk, ThreeOutputs(c, paid, rest, spk)) ==
            paid + if spk == e.reserve.holdSpk then 0 else rest
  {
    var outs := ThreeOutputs(c, paid, rest, spk);
    assert Pays(outs[0], c);
    assert Announces(outs[1], FbtoPayload(c.account20, c.withdrawSeq).value);
    var hold := e.reserve.holdSpk;
    assert outs == [outs[0]] + ([outs[1]] + ([outs[2]] + []));
    TakenCons(hold, outs[2], []);
    TakenCons(hold, outs[1], [outs[2]] + []);
    TakenCons(hold, outs[0], [outs[1]] + ([outs[2]] + []));
  }

  /** Two outputs that give the burner everything are skipped as well. */
  lemma OverpaymentIsSkipped(e: Engine, c: PegOutCommit, all: int)
    requires |c.account20| == 20 && c.amountSats <= all && c.payoutScript != e.reserve.holdSpk
    ensures var outs := [TxOut(all, c.payoutScript), TxOut(0, FbtoScript(c))];
            HonestShape(outs, c) && Taken(e.reserve.holdSpk, outs) == all
  {
    var outs := [TxOut(all, c.payoutScript), TxOut(0, FbtoScript(c))];
    assert Pays(outs[0], c);
    assert Announces(outs[1], FbtoPayload(c.account20, c.withdrawSeq).value);
    assert outs == [outs[0]] + ([outs[1]] + []);
    TakenCons(e.reserve.holdSpk, outs[1], []);
    TakenCons(e.reserve.holdSpk, outs[0], [outs[1]] + []);
  }

  /** More generally, no added output spoils the shape. */
  lemma ShapeIsMonotone(outs: seq<TxOut>, more: seq<TxOut>, c: PegOutCommit)
    requires |c.account20| == 20 && HonestShape(outs, c)
    ensures HonestShape(outs + more, c)
  {
    var want := FbtoPayload(c.account20, c.withdrawSeq).value;
    var i :| 0 <= i < |outs| && Pays(outs[i], c);
    var j :| 0 <= j < |outs| && Announces(outs[j], want);
    assert Pays((outs + more)[i], c) && Announces((outs + more)[j], want);
  }
}
