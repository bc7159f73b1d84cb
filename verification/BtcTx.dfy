/** Bitcoin transaction serialization (BIP 144) and a decoder that it is proved against. */
module BtcTx {
  import opened Words

  datatype TxOut = TxOut(value: int, scriptPubKey: Bytes)
  datatype TxIn = TxIn(txid: Bytes, vout: int, scriptSig: Bytes, sequence: int, wit: Option<seq<Bytes>>)
  datatype Transaction = Transaction(version: int, inputs: seq<TxIn>, outputs: seq<TxOut>, locktime: int)

  // ----- what struct.pack and encode_varint accept

  predicate U32(n: int) { 0 <= n < 0x1_0000_0000 }
  predicate U64(n: int) { 0 <= n < 0x1_0000_0000_0000_0000 }

  predicate OutInRange(o: TxOut) {
    U64(o.value) && U64(|o.scriptPubKey|)
  }

  predicate StackInRange(items: seq<Bytes>) {
    U64(|items|) && forall k :: 0 <= k < |items| ==> U64(|items[k]|)
  }

  predicate InInRange(i: TxIn) {
    U32(i.vout) && U64(|i.scriptSig|) && U32(i.sequence)
  }

  predicate StacksInRange(ins: seq<TxIn>) {
    forall k :: 0 <= k < |ins| ==> StackInRange(StackOf(ins[k]))
  }

  /** What `struct.pack` accepts; the witnesses count only when they are written. */
  predicate Writable(tx: Transaction, withWitness: bool) {
    InRange(tx) && (HasWitness(tx, withWitness) ==> StacksInRange(tx.inputs))
  }

  predicate InRange(tx: Transaction) {
    && U32(tx.version) && U32(tx.locktime) && U64(|tx.inputs|) && U64(|tx.outputs|)
    && (forall k :: 0 <= k < |tx.inputs| ==> InInRange(tx.inputs[k]))
    && (forall k :: 0 <= k < |tx.outputs| ==> OutInRange(tx.outputs[k]))
  }

  // ----- encoding

  function EncodeVarint(n: nat): (r: Bytes)
    requires U64(n)
    ensures r != []
  {
    if n < 0xFD then [n]
    else if n <= 0xFFFF then [0xFD] + LittleEndian(n, 2)
    else if n <= 0xFFFF_FFFF then [0xFE] + LittleEndian(n, 4)
    else [0xFF] + LittleEndian(n, 8)
  }

  function EncodeVarBytes(b: Bytes): Bytes
    requires U64(|b|)
  {
    EncodeVarint(|b|) + b
  }

  function EncodeOut(o: TxOut): Bytes
    requires OutInRange(o)
  {
    LittleEndian(o.value, 8) + EncodeVarBytes(o.scriptPubKey)
  }

  /** `TxIn.serialize_unsigned`. */
  function EncodeIn(i: TxIn): Bytes
    requires InInRange(i)
  {
    i.txid + LittleEndian(i.vout, 4) + EncodeVarBytes(i.scriptSig) + LittleEndian(i.sequence, 4)
  }

  function EncodeOuts(os: seq<TxOut>): Bytes
    requires forall k :: 0 <= k < |os| ==> OutInRange(os[k])
  {
    if os == [] then [] else EncodeOut(os[0]) + EncodeOuts(os[1..])
  }

  function EncodeIns(ins: seq<TxIn>): Bytes
    requires forall k :: 0 <= k < |ins| ==> InInRange(ins[k])
  {
    if ins == [] then [] else EncodeIn(ins[0]) + EncodeIns(ins[1..])
  }

  function EncodeItems(items: seq<Bytes>): Bytes
    requires forall k :: 0 <= k < |items| ==> U64(|items[k]|)
  {
    if items == [] then [] else EncodeVarBytes(items[0]) + EncodeItems(items[1..])
  }

  /** An input's witness stack; an absent one is written as an empty one. */
  function StackOf(i: TxIn): seq<Bytes> {
    if i.wit.Some? then i.wit.value else []
  }

  function EncodeStack(items: seq<Bytes>): Bytes
    requires StackInRange(items)
  {
    EncodeVarint(|items|) + EncodeItems(items)
  }

  function EncodeStacks(ins: seq<TxIn>): Bytes
    requires StacksInRange(ins)
  {
    if ins == [] then [] else EncodeStack(StackOf(ins[0])) + EncodeStacks(ins[1..])
  }

  predicate HasWitness(tx: Transaction, withWitness: bool) {
    withWitness && exists k :: 0 <= k < |tx.inputs| && tx.inputs[k].wit.Some?
  }

  /** Everything between the version (and marker) and the witnesses. */
  function EncodeBody(tx: Transaction): Bytes
    requires InRange(tx)
  {
    EncodeVarint(|tx.inputs|) + EncodeIns(tx.inputs) + EncodeVarint(|tx.outputs|) + EncodeOuts(tx.outputs)
  }

  function Encode(tx: Transaction, withWitness: bool): Bytes
    requires Writable(tx, withWitness)
  {
    if HasWitness(tx, withWitness) then
      LittleEndian(tx.version, 4) + [0, 1] + EncodeBody(tx) + EncodeStacks(tx.inputs) + LittleEndian(tx.locktime, 4)
    else
      LittleEndian(tx.version, 4) + EncodeBody(tx) + LittleEndian(tx.locktime, 4)
  }

  method WriteInputs(buffer: Bytes, ins: seq<TxIn>) returns (out: Bytes)
    requires forall k :: 0 <= k < |ins| ==> InInRange(ins[k])
    ensures out == buffer + EncodeIns(ins)
  {
    out := buffer;
    for k := 0 to |ins|
      invariant out + EncodeIns(ins[k..]) == buffer + EncodeIns(ins)
    {
      assert ins[k..][1..] == ins[k + 1..];
      out := out + EncodeIn(ins[k]);
    }
  }

  method WriteOutputs(buffer: Bytes, os: seq<TxOut>) returns (out: Bytes)
    requires forall k :: 0 <= k < |os| ==> OutInRange(os[k])
    ensures out == buffer + EncodeOuts(os)
  {
    out := buffer;
    for k := 0 to |os|
      invariant out + EncodeOuts(os[k..]) == buffer + EncodeOuts(os)
    {
      assert os[k..][1..] == os[k + 1..];
      out := out + EncodeOut(os[k]);
    }
  }

  method WriteStack(buffer: Bytes, w: seq<Bytes>) returns (out: Bytes)
    requires StackInRange(w)
    ensures out == buffer + EncodeStack(w)
  {
    out := buffer + EncodeVarint(|w|);
    for j := 0 to |w|
      invariant out + EncodeItems(w[j..]) == buffer + EncodeStack(w)
    {
      assert w[j..][1..] == w[j + 1..];
      out := out + EncodeVarBytes(w[j]);
    }
  }

  method WriteStacks(buffer: Bytes, ins: seq<TxIn>) returns (out: Bytes)
    requires StacksInRange(ins)
    ensures out == buffer + EncodeStacks(ins)
  {
    out := buffer;
    for k := 0 to |ins|
      invariant out + EncodeStacks(ins[k..]) == buffer + EncodeStacks(ins)
    {
      assert ins[k..][1..] == ins[k + 1..];
      out := WriteStack(out, StackOf(ins[k]));
    }
  }

  lemma Reassociate(a: Bytes, b: Bytes, c: Bytes, d: Bytes, e: Bytes)
    ensures a + b + c + d + e == a + (b + c + d + e)
    ensures b + c + d + e == b + (c + (d + e))
  {
  }

  /** `Transaction.serialize`: grow a buffer piece by piece. */
  method Serialize(tx: Transaction, withWitness: bool) returns (r: Result<Bytes>)
    ensures r.Ok? <==> Writable(tx, withWitness)
    ensures r.Ok? ==> r.value == Encode(tx, withWitness)
  {
    if !Writable(tx, withWitness) { return Err("struct.error"); }
    var hasWit := HasWitness(tx, withWitness);
    var out := LittleEndian(tx.version, 4);
    if hasWit { out := out + [0, 1]; }
    ghost var start := out;
    out := out + EncodeVarint(|tx.inputs|);
    out := WriteInputs(out, tx.inputs);
    out := out + EncodeVarint(|tx.outputs|);
    out := WriteOutputs(out, tx.outputs);
    Reassociate(start, EncodeVarint(|tx.inputs|), EncodeIns(tx.inputs), EncodeVarint(|tx.outputs|), EncodeOuts(tx.outputs));
    if hasWit { out := WriteStacks(out, tx.inputs); }
    out := out + LittleEndian(tx.locktime, 4);
    return Ok(out);
  }

  // ----- decoding: each parser returns its value and the unread bytes

  type Parsed<T> = Option<(T, Bytes)>

  function TakeBytes(n: nat, b: Bytes): Parsed<Bytes> {
    if |b| < n then None else Some((b[..n], b[n..]))
  }

  function TakeInt(width: nat, b: Bytes): Parsed<nat> {
    var (v, rest) :- TakeBytes(width, b);
    Some((FromLittleEndian(v), rest))
  }

  function TakeVarint(b: Bytes): Parsed<nat> {
    if b == [] then None
    else if b[0] < 0xFD then Some((b[0], b[1..]))
    else TakeInt(if b[0] == 0xFD then 2 else if b[0] == 0xFE then 4 else 8, b[1..])
  }

  function TakeVarBytes(b: Bytes): Parsed<Bytes> {
    var (n, b1) :- TakeVarint(b);
    TakeBytes(n, b1)
  }

  function TakeOut(b: Bytes): Parsed<TxOut> {
    var (value, b1) :- TakeInt(8, b);
    var (script, b2) :- TakeVarBytes(b1);
    Some((TxOut(value, script), b2))
  }

  function TakeIn(b: Bytes): Parsed<TxIn> {
    var (txid, b1) :- TakeBytes(32, b);
    var (vout, b2) :- TakeInt(4, b1);
    var (script, b3) :- TakeVarBytes(b2);
    var (sequence, b4) :- TakeInt(4, b3);
    Some((TxIn(txid, vout, script, sequence, None), b4))
  }

  function TakeOuts(n: nat, b: Bytes): Parsed<seq<TxOut>> {
    if n == 0 then Some(([], b))
    else
      var (o, b1) :- TakeOut(b);
      var (os, b2) :- TakeOuts(n - 1, b1);
      Some(([o] + os, b2))
  }

  function TakeIns(n: nat, b: Bytes): (r: Parsed<seq<TxIn>>)
    ensures r.Some? ==> |r.value.0| == n
  {
    if n == 0 then Some(([], b))
    else
      var (i, b1) :- TakeIn(b);
      var (ins, b2) :- TakeIns(n - 1, b1);
      Some(([i] + ins, b2))
  }

  function TakeItems(n: nat, b: Bytes): Parsed<seq<Bytes>> {
    if n == 0 then Some(([], b))
    else
      var (item, b1) :- TakeVarBytes(b);
      var (items, b2) :- TakeItems(n - 1, b1);
      Some(([item] + items, b2))
  }

  function TakeStack(b: Bytes): Parsed<seq<Bytes>> {
    var (n, b1) :- TakeVarint(b);
    TakeItems(n, b1)
  }

  /** One witness stack for each input, attached to it. */
  function TakeStacks(ins: seq<TxIn>, b: Bytes): (r: Parsed<seq<TxIn>>)
    ensures r.Some? ==> |r.value.0| == |ins|
  {
    if ins == [] then Some(([], b))
    else
      var (items, b1) :- TakeStack(b);
      var (rest, b2) :- TakeStacks(ins[1..], b1);
      Some(([ins[0].(wit := Some(items))] + rest, b2))
  }

  function TakeBody(b: Bytes): Parsed<(seq<TxIn>, seq<TxOut>)> {
    var (n, b1) :- TakeVarint(b);
    var (ins, b2) :- TakeIns(n, b1);
    var (m, b3) :- TakeVarint(b2);
    var (outs, b4) :- TakeOuts(m, b3);
    Some(((ins, outs), b4))
  }

  /** Marker 0 and flag 1 after the version select the witness form, which has at least one input. */
  function Decode(b: Bytes): Option<Transaction> {
    var (version, b1) :- TakeInt(4, b);
    if 2 <= |b1| && b1[0] == 0 && b1[1] == 1 then
      var ((ins, outs), b2) :- TakeBody(b1[2..]);
      if ins == [] then None
      else
        var (ins', b3) :- TakeStacks(ins, b2);
        Finish(version, ins', outs, b3)
    else
      var ((ins, outs), b2) :- TakeBody(b1);
      Finish(version, ins, outs, b2)
  }

  function Finish(version: nat, ins: seq<TxIn>, outs: seq<TxOut>, b: Bytes): Option<Transaction> {
    var (locktime, rest) :- TakeInt(4, b);
    if rest == [] then Some(Transaction(version, ins, outs, locktime)) else None
  }

  // ----- every parser undoes its encoder, whatever follows

  lemma TakeIntInverts(n: nat, width: nat, rest: Bytes)
    requires n < Pow(256, width)
    ensures TakeInt(width, LittleEndian(n, width) + rest) == Some((n, rest))
  {
    FromLittleEndianInverts(n, width);
    var b := LittleEndian(n, width) + rest;
    assert b[..width] == LittleEndian(n, width) && b[width..] == rest;
  }

  lemma TakePrefixed(prefix: byte, n: nat, width: nat, rest: Bytes)
    requires n < Pow(256, width)
    ensures TakeInt(width, ([prefix] + LittleEndian(n, width) + rest)[1..]) == Some((n, rest))
  {
    assert ([prefix] + LittleEndian(n, width) + rest)[1..] == LittleEndian(n, width) + rest;
    TakeIntInverts(n, width, rest);
  }

  lemma TakeVarintInverts(n: nat, rest: Bytes)
    requires U64(n)
    ensures TakeVarint(EncodeVarint(n) + rest) == Some((n, rest))
  {
    Pow256();
    if n < 0xFD {
      assert ([n] + rest)[1..] == rest;
    } else if n <= 0xFFFF {
      TakePrefixed(0xFD, n, 2, rest);
    } else if n <= 0xFFFF_FFFF {
      TakePrefixed(0xFE, n, 4, rest);
    } else {
      TakePrefixed(0xFF, n, 8, rest);
    }
  }

  lemma TakeVarBytesInverts(x: Bytes, rest: Bytes)
    requires U64(|x|)
    ensures TakeVarBytes(EncodeVarBytes(x) + rest) == Some((x, rest))
  {
    assert EncodeVarBytes(x) + rest == EncodeVarint(|x|) + (x + rest);
    TakeVarintInverts(|x|, x + rest);
    assert (x + rest)[..|x|] == x && (x + rest)[|x|..] == rest;
  }

  lemma TakeOutInverts(o: TxOut, rest: Bytes)
    requires OutInRange(o)
    ensures TakeOut(EncodeOut(o) + rest) == Some((o, rest))
  {
    Pow256();
    var b1 := EncodeVarBytes(o.scriptPubKey) + rest;
    assert EncodeOut(o) + rest == LittleEndian(o.value, 8) + b1;
    TakeIntInverts(o.value, 8, b1);
    TakeVarBytesInverts(o.scriptPubKey, rest);
  }

  lemma TakeInInverts(i: TxIn, rest: Bytes)
    requires InInRange(i) && |i.txid| == 32
    ensures TakeIn(EncodeIn(i) + rest) == Some((i.(wit := None), rest))
  {
    Pow256();
    var b3 := LittleEndian(i.sequence, 4) + rest;
    var b2 := EncodeVarBytes(i.scriptSig) + b3;
    var b1 := LittleEndian(i.vout, 4) + b2;
    assert EncodeIn(i) + rest == i.txid + b1;
    assert (i.txid + b1)[..32] == i.txid && (i.txid + b1)[32..] == b1;
    TakeIntInverts(i.vout, 4, b2);
    TakeVarBytesInverts(i.scriptSig, b3);
    TakeIntInverts(i.sequence, 4, rest);
  }

  lemma {:induction false} TakeOutsStep(n: nat, b: Bytes, o: TxOut, b1: Bytes, os: seq<TxOut>, rest: Bytes)
    requires TakeOut(b) == Some((o, b1)) && TakeOuts(n, b1) == Some((os, rest))
    ensures TakeOuts(n + 1, b) == Some(([o] + os, rest))
  {
  }

  lemma {:induction false} OutsCons(os: seq<TxOut>, rest: Bytes)
    requires os != [] && forall k :: 0 <= k < |os| ==> OutInRange(os[k])
    ensures EncodeOuts(os) + rest == EncodeOut(os[0]) + (EncodeOuts(os[1..]) + rest)
  {
    Regroup(EncodeOut(os[0]), EncodeOuts(os[1..]), rest);
  }

  lemma {:induction false} TakeOutsInverts(os: seq<TxOut>, rest: Bytes)
    requires forall k :: 0 <= k < |os| ==> OutInRange(os[k])
    ensures TakeOuts(|os|, EncodeOuts(os) + rest) == Some((os, rest))
  {
    if os == [] {
      assert EncodeOuts(os) + rest == rest;
    } else {
      var b1 := EncodeOuts(os[1..]) + rest;
      OutsCons(os, rest);
      TakeOutInverts(os[0], b1);
      TakeOutsInverts(os[1..], rest);
      TakeOutsStep(|os| - 1, EncodeOut(os[0]) + b1, os[0], b1, os[1..], rest);
      HeadTail(os);
    }
  }

  predicate TxidsWellFormed(ins: seq<TxIn>) {
    forall k :: 0 <= k < |ins| ==> |ins[k].txid| == 32
  }

  function Bare(ins: seq<TxIn>): seq<TxIn> {
    seq(|ins|, k requires 0 <= k < |ins| => ins[k].(wit := None))
  }

  function WithStacks(ins: seq<TxIn>): seq<TxIn> {
    seq(|ins|, k requires 0 <= k < |ins| => ins[k].(wit := Some(StackOf(ins[k]))))
  }

  lemma BareCons(ins: seq<TxIn>)
    requires ins != []
    ensures Bare(ins) == [ins[0].(wit := None)] + Bare(ins[1..])
    ensures Bare(ins)[1..] == Bare(ins[1..])
    ensures WithStacks(ins) == [ins[0].(wit := Some(StackOf(ins[0])))] + WithStacks(ins[1..])
  {
  }

  lemma {:induction false} TakeInsStep(n: nat, b: Bytes, i: TxIn, b1: Bytes, ins: seq<TxIn>, rest: Bytes)
    requires TakeIn(b) == Some((i, b1)) && TakeIns(n, b1) == Some((ins, rest))
    ensures TakeIns(n + 1, b) == Some(([i] + ins, rest))
  {
  }

  lemma {:induction false} InsCons(ins: seq<TxIn>, rest: Bytes)
    requires ins != [] && forall k :: 0 <= k < |ins| ==> InInRange(ins[k])
    ensures EncodeIns(ins) + rest == EncodeIn(ins[0]) + (EncodeIns(ins[1..]) + rest)
  {
    Regroup(EncodeIn(ins[0]), EncodeIns(ins[1..]), rest);
  }

  lemma {:induction false} TakeInsInverts(ins: seq<TxIn>, rest: Bytes)
    requires forall k :: 0 <= k < |ins| ==> InInRange(ins[k])
    requires TxidsWellFormed(ins)
    ensures TakeIns(|ins|, EncodeIns(ins) + rest) == Some((Bare(ins), rest))
  {
    if ins == [] {
      assert EncodeIns(ins) + rest == rest && Bare(ins) == [];
    } else {
      var b1 := EncodeIns(ins[1..]) + rest;
      InsCons(ins, rest);
      TakeInsInverts(ins[1..], rest);
      TakeInInverts(ins[0], b1);
      TakeInsStep(|ins| - 1, EncodeIn(ins[0]) + b1, ins[0].(wit := None), b1, Bare(ins[1..]), rest);
      BareCons(ins);
    }
  }

  lemma {:induction false} TakeItemsStep(n: nat, b: Bytes, item: Bytes, b1: Bytes, items: seq<Bytes>, rest: Bytes)
    requires TakeVarBytes(b) == Some((item, b1)) && TakeItems(n, b1) == Some((items, rest))
    ensures TakeItems(n + 1, b) == Some(([item] + items, rest))
  {
  }

  lemma {:induction false} ItemsCons(items: seq<Bytes>, rest: Bytes)
    requires items != [] && forall k :: 0 <= k < |items| ==> U64(|items[k]|)
    ensures EncodeItems(items) + rest == EncodeVarBytes(items[0]) + (EncodeItems(items[1..]) + rest)
  {
    Regroup(EncodeVarBytes(items[0]), EncodeItems(items[1..]), rest);
  }

  lemma {:induction false} TakeItemsInverts(items: seq<Bytes>, rest: Bytes)
    requires forall k :: 0 <= k < |items| ==> U64(|items[k]|)
    ensures TakeItems(|items|, EncodeItems(items) + rest) == Some((items, rest))
  {
    if items == [] {
      assert EncodeItems(items) + rest == rest;
    } else {
      var b1 := EncodeItems(items[1..]) + rest;
      ItemsCons(items, rest);
      TakeVarBytesInverts(items[0], b1);
      TakeItemsInverts(items[1..], rest);
      TakeItemsStep(|items| - 1, EncodeVarBytes(items[0]) + b1, items[0], b1, items[1..], rest);
      HeadTail(items);
    }
  }

  lemma TakeStackInverts(w: seq<Bytes>, rest: Bytes)
    requires StackInRange(w)
    ensures TakeStack(EncodeStack(w) + rest) == Some((w, rest))
  {
    assert EncodeStack(w) + rest == EncodeVarint(|w|) + (EncodeItems(w) + rest);
    TakeVarintInverts(|w|, EncodeItems(w) + rest);
    TakeItemsInverts(w, rest);
  }

  lemma {:induction false} TakeStacksInverts(ins: seq<TxIn>, rest: Bytes)
    requires StacksInRange(ins)
    ensures TakeStacks(Bare(ins), EncodeStacks(ins) + rest) == Some((WithStacks(ins), rest))
  {
    if ins == [] {
      assert EncodeStacks(ins) + rest == rest;
      assert Bare(ins) == [] && WithStacks(ins) == [];
    } else {
      var b1 := EncodeStacks(ins[1..]) + rest;
      assert EncodeStacks(ins) + rest == EncodeStack(StackOf(ins[0])) + b1;
      TakeStackInverts(StackOf(ins[0]), b1);
      BareCons(ins);
      TakeStacksInverts(ins[1..], rest);
    }
  }

  lemma TakeBodyInverts(tx: Transaction, rest: Bytes)
    requires InRange(tx) && TxidsWellFormed(tx.inputs)
    ensures TakeBody(EncodeBody(tx) + rest) == Some(((Bare(tx.inputs), tx.outputs), rest))
  {
    var b3 := EncodeOuts(tx.outputs) + rest;
    var b2 := EncodeVarint(|tx.outputs|) + b3;
    var b1 := EncodeIns(tx.inputs) + b2;
    Reassociate([], EncodeVarint(|tx.inputs|), EncodeIns(tx.inputs), EncodeVarint(|tx.outputs|), EncodeOuts(tx.outputs));
    assert EncodeBody(tx) + rest == EncodeVarint(|tx.inputs|) + b1;
    TakeVarintInverts(|tx.inputs|, b1);
    TakeInsInverts(tx.inputs, b2);
    TakeVarintInverts(|tx.outputs|, b3);
    TakeOutsInverts(tx.outputs, rest);
  }

  lemma FinishInverts(version: nat, ins: seq<TxIn>, outs: seq<TxOut>, locktime: nat)
    requires U32(locktime)
    ensures Finish(version, ins, outs, LittleEndian(locktime, 4)) == Some(Transaction(version, ins, outs, locktime))
  {
    Pow256();
    assert LittleEndian(locktime, 4) + [] == LittleEndian(locktime, 4);
    TakeIntInverts(locktime, 4, []);
  }

  // ----- round trip

  /** What a reader of the encoding sees: absent witnesses as empty ones, or no witnesses at all. */
  function Seen(tx: Transaction, withWitness: bool): Transaction {
    tx.(inputs := if HasWitness(tx, withWitness) then WithStacks(tx.inputs) else Bare(tx.inputs))
  }

  /** Decoding in the witness form is the chain of its parsers. */
  lemma DecodeChain(b: Bytes, version: nat, b1: Bytes, ins: seq<TxIn>, outs: seq<TxOut>, b2: Bytes,
                    ins': seq<TxIn>, b3: Bytes, tx: Transaction)
    requires TakeInt(4, b) == Some((version, b1)) && 2 <= |b1| && b1[0] == 0 && b1[1] == 1
    requires TakeBody(b1[2..]) == Some(((ins, outs), b2)) && ins != []
    requires TakeStacks(ins, b2) == Some((ins', b3))
    requires Finish(version, ins', outs, b3) == Some(tx)
    ensures Decode(b) == Some(tx)
  {
  }

  /** The bytes of the witness form after the version, and after marker and flag. */
  lemma WitnessFormBytes(tx: Transaction)
    requires Writable(tx, true) && HasWitness(tx, true)
    ensures var tail := LittleEndian(tx.locktime, 4);
            var b1 := [0, 1] + (EncodeBody(tx) + (EncodeStacks(tx.inputs) + tail));
            TakeInt(4, Encode(tx, true)) == Some((tx.version, b1))
  {
    Pow256();
    var tail := LittleEndian(tx.locktime, 4);
    var body, stacks, v := EncodeBody(tx), EncodeStacks(tx.inputs), LittleEndian(tx.version, 4);
    assert v + [0, 1] + body + stacks + tail == v + ([0, 1] + (body + (stacks + tail)));
    TakeIntInverts(tx.version, 4, [0, 1] + (body + (stacks + tail)));
  }

  lemma WitnessFormDecodes(tx: Transaction)
    requires Writable(tx, true) && TxidsWellFormed(tx.inputs) && HasWitness(tx, true)
    ensures Decode(Encode(tx, true)) == Some(Seen(tx, true))
  {
    var tail := LittleEndian(tx.locktime, 4);
    TakeBodyInverts(tx, EncodeStacks(tx.inputs) + tail);
    TakeStacksInverts(tx.inputs, tail);
    WitnessFormBytes(tx);
    FinishInverts(tx.version, WithStacks(tx.inputs), tx.outputs, tx.locktime);
    var rest := EncodeBody(tx) + (EncodeStacks(tx.inputs) + tail);
    assert ([0, 1] + rest)[2..] == rest;
    DecodeChain(Encode(tx, true), tx.version, [0, 1] + rest, Bare(tx.inputs), tx.outputs,
                EncodeStacks(tx.inputs) + tail, WithStacks(tx.inputs), tail, Seen(tx, true));
  }

  /** The first bytes of the body look like marker and flag exactly for no input and one output. */
  lemma MarkerConfusion(tx: Transaction, rest: Bytes)
    requires InRange(tx) && rest != []
    ensures var b := EncodeBody(tx) + rest;
            2 <= |b| && (b[0] == 0 && b[1] == 1 <==> tx.inputs == [] && |tx.outputs| == 1)
  {
    var b := EncodeBody(tx) + rest;
    var n, m := EncodeVarint(|tx.inputs|), EncodeVarint(|tx.outputs|);
    VarintFirstByte(|tx.inputs|);
    VarintFirstByte(|tx.outputs|);
    BodyBytes(n, EncodeIns(tx.inputs), m, EncodeOuts(tx.outputs), rest);
  }

  lemma VarintFirstByte(n: nat)
    requires U64(n)
    ensures EncodeVarint(n)[0] == 0 <==> n == 0
    ensures EncodeVarint(n)[0] == 1 <==> n == 1
    ensures n == 0 ==> |EncodeVarint(n)| == 1
  {
  }

  lemma BodyBytes(n: Bytes, ins: Bytes, m: Bytes, outs: Bytes, rest: Bytes)
    requires n != [] && m != []
    ensures var b := n + ins + m + outs + rest;
            2 <= |b| && b[0] == n[0] && (|n| == 1 && ins == [] ==> b[1] == m[0])
  {
  }

  /** Decoding in the plain form is the chain of its parsers. */
  lemma DecodePlain(b: Bytes, version: nat, b1: Bytes, ins: seq<TxIn>, outs: seq<TxOut>, b2: Bytes, tx: Transaction)
    requires TakeInt(4, b) == Some((version, b1)) && 2 <= |b1| && !(b1[0] == 0 && b1[1] == 1)
    requires TakeBody(b1) == Some(((ins, outs), b2)) && Finish(version, ins, outs, b2) == Some(tx)
    ensures Decode(b) == Some(tx)
  {
  }

  /** What is read in the witness form has inputs. */
  lemma DecodeMarked(b: Bytes, version: nat, b1: Bytes)
    requires TakeInt(4, b) == Some((version, b1)) && 2 <= |b1| && b1[0] == 0 && b1[1] == 1
    ensures Decode(b).Some? ==> Decode(b).value.inputs != []
  {
  }

  lemma PlainFormBytes(tx: Transaction, withWitness: bool)
    requires InRange(tx) && !HasWitness(tx, withWitness)
    ensures TakeInt(4, Encode(tx, withWitness)) == Some((tx.version, EncodeBody(tx) + LittleEndian(tx.locktime, 4)))
  {
    Pow256();
    var b1 := EncodeBody(tx) + LittleEndian(tx.locktime, 4);
    assert Encode(tx, withWitness) == LittleEndian(tx.version, 4) + b1;
    TakeIntInverts(tx.version, 4, b1);
  }

  lemma PlainFormDecodes(tx: Transaction, withWitness: bool)
    requires InRange(tx) && TxidsWellFormed(tx.inputs) && !HasWitness(tx, withWitness)
    ensures Decode(Encode(tx, withWitness)) == Some(Seen(tx, withWitness))
            <==> !(tx.inputs == [] && |tx.outputs| == 1)
  {
    var b, tail := Encode(tx, withWitness), LittleEndian(tx.locktime, 4);
    PlainFormBytes(tx, withWitness);
    MarkerConfusion(tx, tail);
    if tx.inputs == [] && |tx.outputs| == 1 {
      DecodeMarked(b, tx.version, EncodeBody(tx) + tail);
    } else {
      TakeBodyInverts(tx, tail);
      FinishInverts(tx.version, Bare(tx.inputs), tx.outputs, tx.locktime);
      DecodePlain(b, tx.version, EncodeBody(tx) + tail, Bare(tx.inputs), tx.outputs, tail, Seen(tx, withWitness));
    }
  }

  /**
   Serialization is decodable: the decoder recovers what was written, in either form, for every
   transaction except those with no input and exactly one output, whose plain form starts like
   the witness form.
   */
  lemma RoundTrip(tx: Transaction, withWitness: bool)
    requires Writable(tx, withWitness) && TxidsWellFormed(tx.inputs)
    ensures Decode(Encode(tx, withWitness)) == Some(Seen(tx, withWitness))
            <==> !(tx.inputs == [] && |tx.outputs| == 1)
  {
    if HasWitness(tx, withWitness) { WitnessFormDecodes(tx); } else { PlainFormDecodes(tx, withWitness); }
  }

  /** No two transactions with inputs share an encoding, within or across the two forms. */
  lemma UniquelyDecodable(t: Transaction, u: Transaction, wt: bool, wu: bool)
    requires Writable(t, wt) && TxidsWellFormed(t.inputs) && t.inputs != []
    requires Writable(u, wu) && TxidsWellFormed(u.inputs) && u.inputs != []
    requires Encode(t, wt) == Encode(u, wu)
    ensures Seen(t, wt) == Seen(u, wu) && HasWitness(t, wt) == HasWitness(u, wu)
  {
    RoundTrip(t, wt);
    RoundTrip(u, wu);
    assert Seen(t, wt).inputs[0].wit.Some? == HasWitness(t, wt);
    assert Seen(u, wu).inputs[0].wit.Some? == HasWitness(u, wu);
  }

  /** The bytes behind the txid do not depend on any witness, and determine everything else. */
  lemma TxidIgnoresWitness(t: Transaction, u: Transaction)
    requires InRange(t) && TxidsWellFormed(t.inputs) && t.inputs != []
    requires InRange(u) && TxidsWellFormed(u.inputs) && u.inputs != []
    ensures Encode(t, false) == Encode(u, false) <==> t.(inputs := Bare(t.inputs)) == u.(inputs := Bare(u.inputs))
  {
    if Encode(t, false) == Encode(u, false) {
      UniquelyDecodable(t, u, false, false);
    }
    if t.(inputs := Bare(t.inputs)) == u.(inputs := Bare(u.inputs)) {
      BareEncodesAlike(t.inputs);
      BareEncodesAlike(u.inputs);
    }
  }

  lemma {:induction false} BareEncodesAlike(ins: seq<TxIn>)
    requires forall k :: 0 <= k < |ins| ==> InInRange(ins[k])
    ensures forall k :: 0 <= k < |ins| ==> InInRange(Bare(ins)[k])
    ensures EncodeIns(Bare(ins)) == EncodeIns(ins)
  {
    if ins != [] {
      BareEncodesAlike(ins[1..]);
      assert Bare(ins)[1..] == Bare(ins[1..]);
      assert EncodeIn(Bare(ins)[0]) == EncodeIn(ins[0]);
    }
  }
}
