/**
 The packed 32-bit reference-count word of `IntrusiveRefCounts` and the values that each
 atomic access computes from it.

 A word is a natural number below 2^32.  Masking with the strong mask is a remainder, masking
 and shifting the weak count is a division and a remainder, and or-ing in a tag bit adds the
 bit when it is clear.  Unsigned overflow and underflow are written out modulo 2^32.
 */
module RefCountWord {

  const STRONG_DELTA := 1
  const WEAK_DELTA := 0x1_0000
  const FINISHED_BIT := 0x4000_0000
  const STARTED_BIT := 0x8000_0000
  const WORD_SIZE := 0x1_0000_0000

  const STRONG_LIMIT := 0xFFFF - 32
  const WEAK_LIMIT := 0x3FFF - 32

  type Word = x: int | 0 <= x < WORD_SIZE

  /** The four fields held in one word. */
  datatype Fields = Fields(strong: nat, weak: nat, started: bool, finished: bool)

  /** What the debug assertion of `RefCountPair` checks. */
  predicate InRange(f: Fields) {
    f.strong < STRONG_LIMIT && f.weak < WEAK_LIMIT
  }

  /** The fields fit their bit widths (16 and 14 bits). */
  predicate Fits(f: Fields) {
    f.strong < 0x1_0000 && f.weak < 0x4000
  }

  /** `RefCountPair(FieldType)`. */
  function Unpack(v: Word): Fields {
    Fields(v % 0x1_0000, v / 0x1_0000 % 0x4000, v / STARTED_BIT == 1, v / FINISHED_BIT % 2 == 1)
  }

  /** `RefCountPair::combinedValue`; the four parts occupy disjoint bits, so `|` is a sum. */
  function Pack(f: Fields): Word
    requires Fits(f)
  {
    f.strong + f.weak * WEAK_DELTA
    + (if f.finished then FINISHED_BIT else 0) + (if f.started then STARTED_BIT else 0)
  }

  /** `RefCountPair` and `combinedValue` are inverse bijections between words and fitting fields. */
  lemma UnpackPack(f: Fields)
    requires Fits(f)
    ensures Unpack(Pack(f)) == f
  {
    var v := Pack(f);
    var high := f.weak + (if f.finished then 0x4000 else 0) + (if f.started then 0x8000 else 0);
    assert v == f.strong + high * 0x1_0000;
    assert v / 0x1_0000 == high && v % 0x1_0000 == f.strong;
    var tags := (if f.finished then 1 else 0) + (if f.started then 2 else 0);
    assert high == f.weak + tags * 0x4000;
    assert high % 0x4000 == f.weak;
    assert v == (f.strong + f.weak * 0x1_0000) + tags * FINISHED_BIT;
    assert v / FINISHED_BIT == tags;
  }

  lemma PackUnpack(v: Word)
    ensures Fits(Unpack(v)) && Pack(Unpack(v)) == v
  {
    var high := v / 0x1_0000;
    var tags := high / 0x4000;
    assert v == v % 0x1_0000 + high * 0x1_0000;
    assert high == high % 0x4000 + tags * 0x4000;
    assert v == (v % 0x1_0000 + high % 0x4000 * 0x1_0000) + tags * FINISHED_BIT;
    assert tags == v / FINISHED_BIT;
    assert v / STARTED_BIT == tags / 2;
    assert tags == tags / 2 * 2 + tags % 2;
  }

  // ----- unsigned 32-bit arithmetic on the word

  function Add(v: Word, delta: nat): Word {
    (v + delta) % WORD_SIZE
  }

  function Sub(v: Word, delta: nat): Word {
    (v - delta) % WORD_SIZE
  }

  /** `v |= kPARTIAL_DESTROY_STARTED_MASK`. */
  function OrStarted(v: Word): Word {
    if v / STARTED_BIT == 1 then v else v + STARTED_BIT
  }

  /** `v |= kPARTIAL_DESTROY_FINISHED_MASK`. */
  function OrFinished(v: Word): Word {
    if v / FINISHED_BIT % 2 == 1 then v else v + FINISHED_BIT
  }

  datatype ReleaseAction = NoOp | PartialDestroy | Destroy

  // ----- the values computed inside the operations

  /** The body of the `releaseStrongRef` loop: the value to exchange in and the action to report. */
  function ReleaseStrong(v: Word): (Word, ReleaseAction) {
    var prev := Unpack(v);
    var next := Sub(v, STRONG_DELTA);
    if prev.strong == 1 then
      if prev.weak == 0 then (next, Destroy) else (OrStarted(next), PartialDestroy)
    else
      (next, NoOp)
  }

  /** The body of the `addWeakReleaseStrongRef` loop. */
  function AddWeakReleaseStrong(v: Word): (Word, ReleaseAction) {
    var prev := Unpack(v);
    var next := Add(v, WEAK_DELTA - STRONG_DELTA);
    if prev.strong == 1 then
      if prev.weak == 0 then (next, NoOp) else (OrStarted(next), PartialDestroy)
    else
      (next, NoOp)
  }

  /** A word seen while some strong handle exists: counts in range, a strong reference, no tag bits. */
  predicate Live(v: Word) {
    var f := Unpack(v);
    InRange(f) && 1 <= f.strong && !f.started && !f.finished
  }

  // ----- each delta changes only its own field

  lemma AddDeltas(f: Fields)
    requires Fits(f)
    ensures f.strong + 1 < 0x1_0000 ==> Add(Pack(f), STRONG_DELTA) == Pack(f.(strong := f.strong + 1))
    ensures f.weak + 1 < 0x4000 ==> Add(Pack(f), WEAK_DELTA) == Pack(f.(weak := f.weak + 1))
  {
  }

  lemma SubDeltas(f: Fields)
    requires Fits(f)
    ensures 1 <= f.strong ==> Sub(Pack(f), STRONG_DELTA) == Pack(f.(strong := f.strong - 1))
    ensures 1 <= f.weak ==> Sub(Pack(f), WEAK_DELTA) == Pack(f.(weak := f.weak - 1))
  {
  }

  lemma MoveDelta(f: Fields)
    requires Fits(f) && 1 <= f.strong && f.weak + 1 < 0x4000
    ensures Add(Pack(f), WEAK_DELTA - STRONG_DELTA) == Pack(f.(strong := f.strong - 1, weak := f.weak + 1))
  {
  }

  lemma TagBits(f: Fields)
    requires Fits(f)
    ensures OrStarted(Pack(f)) == Pack(f.(started := true))
    ensures OrFinished(Pack(f)) == Pack(f.(finished := true))
  {
    UnpackPack(f);
  }

  /** Packed-word steps refine four-field steps: no carry or borrow crosses a field boundary. */
  lemma DeltasStayInTheirFields(f: Fields)
    requires Fits(f)
    ensures f.strong + 1 < 0x1_0000 ==>
              Add(Pack(f), STRONG_DELTA) == Pack(f.(strong := f.strong + 1))
    ensures f.weak + 1 < 0x4000 ==>
              Add(Pack(f), WEAK_DELTA) == Pack(f.(weak := f.weak + 1))
    ensures 1 <= f.strong ==>
              Sub(Pack(f), STRONG_DELTA) == Pack(f.(strong := f.strong - 1))
    ensures 1 <= f.weak ==>
              Sub(Pack(f), WEAK_DELTA) == Pack(f.(weak := f.weak - 1))
    ensures 1 <= f.strong && f.weak + 1 < 0x4000 ==>
              Add(Pack(f), WEAK_DELTA - STRONG_DELTA) == Pack(f.(strong := f.strong - 1, weak := f.weak + 1))
    ensures OrStarted(Pack(f)) == Pack(f.(started := true))
    ensures OrFinished(Pack(f)) == Pack(f.(finished := true))
  {
    AddDeltas(f);
    SubDeltas(f);
    if 1 <= f.strong && f.weak + 1 < 0x4000 { MoveDelta(f); }
    TagBits(f);
  }

  /** What `releaseStrongRef` does to the fields of a word without tags, by case on the counts. */
  lemma ReleaseStrongFields(f: Fields)
    requires Fits(f) && 1 <= f.strong && !f.started && !f.finished
    ensures var (v, action) := ReleaseStrong(Pack(f));
            && v == Pack(f.(strong := f.strong - 1, started := f.strong == 1 && f.weak != 0))
            && action == (if 1 < f.strong then NoOp else if f.weak == 0 then Destroy else PartialDestroy)
  {
    UnpackPack(f);
    SubDeltas(f);
    TagBits(f.(strong := f.strong - 1));
  }

  /** What `addWeakReleaseStrongRef` does to the fields of a live word. */
  lemma AddWeakReleaseStrongFields(f: Fields)
    requires InRange(f) && 1 <= f.strong && !f.started && !f.finished
    ensures var (v, action) := AddWeakReleaseStrong(Pack(f));
            && v == Pack(Fields(f.strong - 1, f.weak + 1, f.strong == 1 && f.weak != 0, false))
            && action == (if f.strong == 1 && f.weak != 0 then PartialDestroy else NoOp)
  {
    UnpackPack(f);
    MoveDelta(f);
    TagBits(f.(strong := f.strong - 1, weak := f.weak + 1));
  }

  /**
   The header says that `addWeakReleaseStrongRef` is `addWeakRef` followed by `releaseStrongRef`,
   done as one atomic operation.  On live words this is so exactly when the word is not the one
   with a single strong and no weak reference; there the combined operation leaves the object
   whole where the two steps would start a partial destroy.
   */
  lemma CombinedReleaseIsTheTwoSteps(v: Word)
    requires Live(v)
    ensures AddWeakReleaseStrong(v) == ReleaseStrong(Add(v, WEAK_DELTA))
            <==> !(Unpack(v).strong == 1 && Unpack(v).weak == 0)
    ensures Unpack(v).strong == 1 && Unpack(v).weak == 0 ==>
              && AddWeakReleaseStrong(v) == (WEAK_DELTA, NoOp)
              && ReleaseStrong(Add(v, WEAK_DELTA)) == (WEAK_DELTA + STARTED_BIT, PartialDestroy)
  {
    var f := Unpack(v);
    PackUnpack(v);
    AddDeltas(f);
    AddWeakReleaseStrongFields(f);
    ReleaseStrongFields(f.(weak := f.weak + 1));
  }
}
