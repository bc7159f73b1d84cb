/**
 An interpreter for the Bitcoin Script opcodes that the keyless reserve programs use, with the
 P2WSH rules of BIP 141 around it and the relative-lock-time check of BIP 112 inside it.
 */
module Script {
  import opened Words

  const OP_IF: byte := 0x63
  const OP_ELSE: byte := 0x67
  const OP_ENDIF: byte := 0x68
  const OP_DROP: byte := 0x75
  const OP_EQUALVERIFY: byte := 0x88
  const OP_SHA256: byte := 0xA8
  const OP_CSV: byte := 0xB2

  const MAX_ITEM_SIZE := 520
  const MAX_PROGRAM_SIZE := 10000

  /** The parts of the spending transaction that a script can see. */
  datatype TxContext = TxContext(version: nat, sequence: nat)

  /** The top of the stack is its last element. */
  type Stack = seq<Bytes>

  datatype Machine = Machine(stack: Stack, conditions: seq<bool>)

  /** False for the empty string, for zeros, and for negative zero. */
  predicate CastToBool(b: Bytes) {
    exists i :: 0 <= i < |b| && b[i] != 0 && !(i == |b| - 1 && b[i] == 0x80)
  }

  /** A little-endian sign-and-magnitude number. */
  function ScriptNum(b: Bytes): int {
    if b == [] then 0
    else
      var last := |b| - 1;
      var magnitude: int := FromLittleEndian(b[..last] + [b[last] % 0x80]);
      if b[last] >= 0x80 then -magnitude else magnitude
  }

  /** The bits of a sequence number that take part in the comparison of BIP 112. */
  function Masked(n: nat): nat {
    n / 0x40_0000 % 2 * 0x40_0000 + n % 0x1_0000
  }

  predicate DisableFlag(n: nat) {
    n / 0x8000_0000 % 2 == 1
  }

  /** OP_CHECKSEQUENCEVERIFY with operand `n`. */
  predicate CheckSequence(ctx: TxContext, n: int) {
    0 <= n &&
    (DisableFlag(n) ||
     (&& 2 <= ctx.version
      && !DisableFlag(ctx.sequence)
      && (Masked(ctx.sequence) < 0x40_0000) == (Masked(n) < 0x40_0000)
      && Masked(n) <= Masked(ctx.sequence)))
  }

  /** No enclosing condition is false. */
  predicate Executing(m: Machine) {
    forall i :: 0 <= i < |m.conditions| ==> m.conditions[i]
  }

  /** An opcode that carries no data.  Opcodes outside the modelled set fail when executed. */
  function Operate(sha: Hash, ctx: TxContext, op: byte, m: Machine): Option<Machine> {
    var n := |m.stack|;
    var c := |m.conditions|;
    if op == OP_IF then
      if !Executing(m) then Some(m.(conditions := m.conditions + [false]))
      else if n == 0 then None
      else Some(Machine(m.stack[..n - 1], m.conditions + [CastToBool(m.stack[n - 1])]))
    else if op == OP_ELSE then
      if c == 0 then None else Some(m.(conditions := m.conditions[c - 1 := !m.conditions[c - 1]]))
    else if op == OP_ENDIF then
      if c == 0 then None else Some(m.(conditions := m.conditions[..c - 1]))
    else if !Executing(m) then
      Some(m)
    else if 0x51 <= op <= 0x60 then
      Some(m.(stack := m.stack + [[op - 0x50]]))
    else if op == OP_CSV then
      if n == 0 || 5 < |m.stack[n - 1]| || !CheckSequence(ctx, ScriptNum(m.stack[n - 1])) then None else Some(m)
    else if op == OP_DROP then
      if n == 0 then None else Some(m.(stack := m.stack[..n - 1]))
    else if op == OP_SHA256 then
      if n == 0 then None else Some(m.(stack := m.stack[n - 1 := sha(m.stack[n - 1])]))
    else if op == OP_EQUALVERIFY then
      if n < 2 || m.stack[n - 1] != m.stack[n - 2] then None else Some(m.(stack := m.stack[..n - 2]))
    else
      None
  }

  /** Run `program` from byte `i` to its end; the conditions must be closed there. */
  function Execute(sha: Hash, ctx: TxContext, program: Bytes, i: nat, m: Machine): Option<Stack>
    requires i <= |program|
    decreases |program| - i
  {
    if i == |program| then
      if m.conditions == [] then Some(m.stack) else None
    else if 1 <= program[i] <= 75 then
      var next := i + 1 + program[i];
      if |program| < next then None
      else if Executing(m) then
        Execute(sha, ctx, program, next, m.(stack := m.stack + [program[i + 1..next]]))
      else
        Execute(sha, ctx, program, next, m)
    else
      match Operate(sha, ctx, program[i], m)
      case None => None
      case Some(m') => Execute(sha, ctx, program, i + 1, m')
  }

  /** The program leaves exactly one true element. */
  predicate Accepts(sha: Hash, ctx: TxContext, program: Bytes, stack: Stack) {
    var r := Execute(sha, ctx, program, 0, Machine(stack, []));
    r.Some? && |r.value| == 1 && CastToBool(r.value[0])
  }

  /** BIP 141, version 0 with a 32-byte program: `wit` spends `scriptPubKey`. */
  predicate SpendsP2wsh(sha: Hash, ctx: TxContext, scriptPubKey: Bytes, wit: seq<Bytes>) {
    wit != [] &&
    var last := |wit| - 1;
    && scriptPubKey == [0x00, 0x20] + sha(wit[last])
    && |wit[last]| <= MAX_PROGRAM_SIZE
    && (forall i :: 0 <= i < last ==> |wit[i]| <= MAX_ITEM_SIZE)
    && Accepts(sha, ctx, wit[last], wit[..last])
  }

  // ----- the two fragments that the reserve programs are built from

  /** `SHA256 <digest> EQUALVERIFY TRUE` at byte `i`. */
  predicate HashLockAt(program: Bytes, i: nat, digest: Bytes) {
    && |digest| == 32 && i + 36 <= |program|
    && program[i] == OP_SHA256 && program[i + 1] == 0x20 && program[i + 2..i + 34] == digest
    && program[i + 34] == OP_EQUALVERIFY && program[i + 35] == 0x51
  }

  /** `<csv> CSV DROP` at byte `i`. */
  predicate DelayAt(program: Bytes, i: nat, csv: nat) {
    && 1 <= csv <= 16 && i + 3 <= |program|
    && program[i] == 0x50 + csv && program[i + 1] == OP_CSV && program[i + 2] == OP_DROP
  }

  /** What BIP 112 asks for a delay of `csv` blocks, said of the sequence number directly. */
  predicate DelayMet(ctx: TxContext, csv: nat) {
    && 2 <= ctx.version
    && ctx.sequence / 0x8000_0000 % 2 == 0
    && ctx.sequence / 0x40_0000 % 2 == 0
    && csv <= ctx.sequence % 0x1_0000
  }

  lemma {:induction false} RunHashLock(sha: Hash, ctx: TxContext, program: Bytes, i: nat, digest: Bytes, m: Machine)
    requires HashLockAt(program, i, digest) && Executing(m)
    ensures var n := |m.stack|;
            Execute(sha, ctx, program, i, m) ==
            if n == 0 || sha(m.stack[n - 1]) != digest then None
            else Execute(sha, ctx, program, i + 36, m.(stack := m.stack[..n - 1] + [[1]]))
  {
    var n := |m.stack|;
    if n != 0 {
      var h := sha(m.stack[n - 1]);
      var m1 := m.(stack := m.stack[n - 1 := h]);
      assert Execute(sha, ctx, program, i, m) == Execute(sha, ctx, program, i + 1, m1);
      var m2 := m1.(stack := m1.stack + [digest]);
      assert Execute(sha, ctx, program, i + 1, m1) == Execute(sha, ctx, program, i + 34, m2);
      if h == digest {
        var m3 := m.(stack := m.stack[..n - 1]);
        assert m2.stack[..n - 1] == m.stack[..n - 1];
        assert Execute(sha, ctx, program, i + 34, m2) == Execute(sha, ctx, program, i + 35, m3);
      }
    }
  }

  lemma {:induction false} SkipHashLock(sha: Hash, ctx: TxContext, program: Bytes, i: nat, digest: Bytes, m: Machine)
    requires HashLockAt(program, i, digest) && !Executing(m)
    ensures Execute(sha, ctx, program, i, m) == Execute(sha, ctx, program, i + 36, m)
  {
    assert Execute(sha, ctx, program, i, m) == Execute(sha, ctx, program, i + 1, m);
    assert Execute(sha, ctx, program, i + 1, m) == Execute(sha, ctx, program, i + 34, m);
    assert Execute(sha, ctx, program, i + 34, m) == Execute(sha, ctx, program, i + 35, m);
  }

  lemma SmallOperand(csv: nat)
    requires 1 <= csv <= 16
    ensures ScriptNum([csv]) == csv
  {
    var operand: Bytes := [csv];
    assert operand[..0] + [csv % 0x80] == operand;
    assert operand[1..] == [];
    assert FromLittleEndian(operand) == csv;
  }

  lemma SmallMasked(csv: nat)
    requires 1 <= csv <= 16
    ensures Masked(csv) == csv && !DisableFlag(csv)
  {
    DivModUnique(csv, 0x40_0000, 0, csv);
    DivModUnique(csv, 0x1_0000, 0, csv);
    DivModUnique(csv, 0x8000_0000, 0, csv);
  }

  lemma DelayIsCheckSequence(ctx: TxContext, csv: nat)
    requires 1 <= csv <= 16
    ensures ScriptNum([csv]) == csv
    ensures CheckSequence(ctx, csv) <==> DelayMet(ctx, csv)
  {
    SmallOperand(csv);
    SmallMasked(csv);
    MaskedBits(ctx.sequence);
  }

  /** The masked number is below the type flag exactly when the flag is clear, and then it is the low 16 bits. */
  lemma MaskedBits(n: nat)
    ensures Masked(n) < 0x40_0000 <==> n / 0x40_0000 % 2 == 0
    ensures n / 0x40_0000 % 2 == 0 ==> Masked(n) == n % 0x1_0000
    ensures DisableFlag(n) <==> !(n / 0x8000_0000 % 2 == 0)
  {
  }

  lemma {:induction false} RunDelay(sha: Hash, ctx: TxContext, program: Bytes, i: nat, csv: nat, m: Machine)
    requires DelayAt(program, i, csv) && Executing(m)
    ensures Execute(sha, ctx, program, i, m) ==
            if DelayMet(ctx, csv) then Execute(sha, ctx, program, i + 3, m) else None
  {
    var n := |m.stack|;
    var m1 := m.(stack := m.stack + [[csv]]);
    assert Execute(sha, ctx, program, i, m) == Execute(sha, ctx, program, i + 1, m1);
    DelayIsCheckSequence(ctx, csv);
    if DelayMet(ctx, csv) {
      assert Execute(sha, ctx, program, i + 1, m1) == Execute(sha, ctx, program, i + 2, m1);
      assert m1.stack[..n] == m.stack;
      assert Execute(sha, ctx, program, i + 2, m1) == Execute(sha, ctx, program, i + 3, m);
    }
  }

  lemma {:induction false} SkipDelay(sha: Hash, ctx: TxContext, program: Bytes, i: nat, csv: nat, m: Machine)
    requires DelayAt(program, i, csv) && !Executing(m)
    ensures Execute(sha, ctx, program, i, m) == Execute(sha, ctx, program, i + 3, m)
  {
    assert Execute(sha, ctx, program, i, m) == Execute(sha, ctx, program, i + 1, m);
    assert Execute(sha, ctx, program, i + 1, m) == Execute(sha, ctx, program, i + 2, m);
  }

  /** ELSE under a single condition flips it. */
  lemma {:induction false} RunElse(sha: Hash, ctx: TxContext, program: Bytes, i: nat, stack: Stack, b: bool)
    requires i < |program| && program[i] == OP_ELSE
    ensures Execute(sha, ctx, program, i, Machine(stack, [b])) == Execute(sha, ctx, program, i + 1, Machine(stack, [!b]))
  {
    assert [b][0 := !b] == [!b];
  }

  /** ENDIF as the last byte leaves the stack as the result. */
  lemma {:induction false} RunEnd(sha: Hash, ctx: TxContext, program: Bytes, i: nat, stack: Stack, b: bool)
    requires i + 1 == |program| && program[i] == OP_ENDIF
    ensures Execute(sha, ctx, program, i, Machine(stack, [b])) == Some(stack)
  {
    assert [b][..0] == [];
    assert Execute(sha, ctx, program, i + 1, Machine(stack, [])) == Some(stack);
  }

  /** IF on a non-empty stack consumes the selector. */
  lemma {:induction false} RunIf(sha: Hash, ctx: TxContext, program: Bytes, stack: Stack)
    requires program != [] && program[0] == OP_IF && stack != []
    ensures var n := |stack|;
            Execute(sha, ctx, program, 0, Machine(stack, [])) ==
            Execute(sha, ctx, program, 1, Machine(stack[..n - 1], [CastToBool(stack[n - 1])]))
  {
    assert [] + [CastToBool(stack[|stack| - 1])] == [CastToBool(stack[|stack| - 1])];
  }
}
