/**
 The intrusive reference-counting protocol as a transition system.

 Any number of threads share one object.  Every atomic access to the packed word is one step, so
 the loads and exchanges of the CAS loops, the subtraction and the two waits of `releaseWeakRef`
 interleave freely.  Handles are identified by numbers; a thread acts only through a handle that
 exists and that no other thread is releasing.  Threads that receive `PartialDestroy` run the
 partial destructor and then call `partialDestructorFinished` once.
 */
module RefCountProtocol {
  import opened RefCountWord

  type Thread = nat
  type Handle = nat

  /** Where a thread is inside the reference-count operations, with its local variables. */
  datatype Pc =
    | Idle
    | ReleaseLoop(h: Handle, prev: Word)                      // releaseStrongRef, before the exchange
    | ConvertLoop(h: Handle, prev: Word)                      // addWeakReleaseStrongRef, likewise
    | CheckoutLoop(w: Handle, cur: Word, desired: Word)       // checkoutStrongRefFromWeak, likewise
    | RunningPartial                                          // between PartialDestroy and its end
    | Notifying                                               // partialDestructorFinished: notify_one to come
    | FirstWait(value: Word) | FirstParked(value: Word)       // releaseWeakRef: wait(prevIntVal)
    | Reload                                                  // releaseWeakRef: load after that wait
    | SecondWait(value: Word) | SecondParked(value: Word)     // releaseWeakRef: wait(prev - delta)

  /**
   `partials`, `finals` and `destroys` record, in order, the threads that were told to run the
   partial destructor, that released the last weak reference of an object without strong ones,
   and that were told to destroy the object.  `weakFirst` says that the last weak reference was
   released before the partial destructor finished, and `notified` that the waiter was notified.
   `assertionsHold` is false once any `XRPL_ASSERT` on an executed path has failed.
   */
  datatype State = State(
    word: Word,
    strong: set<Handle>,
    weak: set<Handle>,
    pcs: map<Thread, Pc>,
    partials: seq<Thread>,
    finished: bool,
    finals: seq<Thread>,
    destroys: seq<Thread>,
    weakFirst: bool,
    notified: bool,
    assertionsHold: bool)

  function PcOf(s: State, t: Thread): Pc {
    if t in s.pcs then s.pcs[t] else Idle
  }

  function At(s: State, t: Thread, pc: Pc): State {
    s.(pcs := s.pcs[t := pc])
  }

  function Check(s: State, assertion: bool): State {
    s.(assertionsHold := s.assertionsHold && assertion)
  }

  /** A new object: one strong reference, held through handle `h`. */
  function Init(h: Handle): State {
    State(STRONG_DELTA, {h}, {}, map[], [], false, [], [], false, false, true)
  }

  /** One thread's next atomic access.  `added` names a handle that the access creates. */
  datatype Event =
    | AddStrong(h: Handle, added: Handle)
    | AddWeak(h: Handle, added: Handle)
    | CopyWeak(w: Handle, added: Handle)
    | LoadForRelease(h: Handle) | ExchangeForRelease(spurious: bool)
    | LoadForConvert(h: Handle) | ExchangeForConvert(added: Handle, spurious: bool)
    | BeginCheckout(w: Handle) | ExchangeForCheckout(added: Handle, spurious: bool)
    | SubtractWeak(w: Handle)
    | CheckWait
    | SpuriousWake
    | LoadAfterWait
    | FinishPartial
    | NotifyWaiter

  /** Some thread is releasing strong handle `h`. */
  ghost predicate BeingReleased(s: State, h: Handle) {
    exists t :: HoldsStrong(PcOf(s, t)) && PcOf(s, t).h == h
  }

  /** Some thread is trying to check out through weak handle `w`. */
  ghost predicate BeingLocked(s: State, w: Handle) {
    exists t :: PcOf(s, t).CheckoutLoop? && PcOf(s, t).w == w
  }

  predicate HoldsStrong(pc: Pc) {
    pc.ReleaseLoop? || pc.ConvertLoop?
  }

  /** The thread has released the last weak reference and has not yet been told to destroy. */
  predicate Finalizing(pc: Pc) {
    pc.FirstWait? || pc.FirstParked? || pc.Reload? || pc.SecondWait? || pc.SecondParked?
  }

  /** The client rules and the program order; the counts stay under the checked maxima. */
  ghost predicate Enabled(s: State, t: Thread, e: Event) {
    var pc := PcOf(s, t);
    match e
    case AddStrong(h, added) =>
      pc.Idle? && h in s.strong && !BeingReleased(s, h) && added !in s.strong && |s.strong| + 1 < STRONG_LIMIT
    case AddWeak(h, added) =>
      pc.Idle? && h in s.strong && !BeingReleased(s, h) && added !in s.weak && |s.weak| + 1 < WEAK_LIMIT
    case CopyWeak(w, added) =>
      pc.Idle? && w in s.weak && added !in s.weak && |s.weak| + 1 < WEAK_LIMIT
    case LoadForRelease(h) => pc.Idle? && h in s.strong && !BeingReleased(s, h)
    case ExchangeForRelease(_) => pc.ReleaseLoop?
    case LoadForConvert(h) => pc.Idle? && h in s.strong && !BeingReleased(s, h)
    case ExchangeForConvert(added, _) => pc.ConvertLoop? && added !in s.weak && |s.weak| + 1 < WEAK_LIMIT
    case BeginCheckout(w) => pc.Idle? && w in s.weak
    case ExchangeForCheckout(added, _) =>
      pc.CheckoutLoop? && added !in s.strong && |s.strong| + 1 < STRONG_LIMIT
    case SubtractWeak(w) => pc.Idle? && w in s.weak && !BeingLocked(s, w)
    case CheckWait => pc.FirstWait? || pc.SecondWait?
    case SpuriousWake => pc.FirstParked? || pc.SecondParked?
    case LoadAfterWait => pc.Reload?
    case FinishPartial => pc.RunningPartial?
    case NotifyWaiter => pc.Notifying?
  }

  /** Deliver the action that an operation returns to its caller. */
  function Deliver(s: State, t: Thread, action: ReleaseAction): State {
    match action
    case NoOp => At(s, t, Idle)
    case PartialDestroy => At(s, t, RunningPartial).(partials := s.partials + [t])
    case Destroy =>
      // the debug assertions of ~IntrusiveRefCounts: counts zero, tags both set or both clear
      var f := Unpack(s.word);
      At(Check(s, f.strong == 0 && f.weak == 0 && f.started == f.finished), t, Idle)
      .(destroys := s.destroys + [t])
  }

  /** `notify_one`: at most one parked waiter goes back to comparing the value. */
  function Notify(s: State): State {
    if s.finals == [] then s
    else
      match PcOf(s, s.finals[0])
      case FirstParked(v) => At(s, s.finals[0], FirstWait(v))
      case SecondParked(v) => At(s, s.finals[0], SecondWait(v))
      case _ => s
  }

  /** The tail of `releaseWeakRef` once the value it goes on with is known. */
  function AwaitFinished(s: State, t: Thread, prev: Word): State {
    if Unpack(prev).finished then Deliver(s, t, Destroy)
    else At(s, t, SecondWait(Sub(prev, WEAK_DELTA)))
  }

  ghost function Next(s: State, t: Thread, e: Event): State
    requires Enabled(s, t, e)
  {
    var pc := PcOf(s, t);
    match e
    case AddStrong(_, added) => s.(word := Add(s.word, STRONG_DELTA), strong := s.strong + {added})
    case AddWeak(_, added) => s.(word := Add(s.word, WEAK_DELTA), weak := s.weak + {added})
    case CopyWeak(_, added) => s.(word := Add(s.word, WEAK_DELTA), weak := s.weak + {added})
    case LoadForRelease(h) => At(s, t, ReleaseLoop(h, s.word))
    case ExchangeForRelease(spurious) => NextRelease(s, t, pc.h, pc.prev, spurious)
    case LoadForConvert(h) => At(s, t, ConvertLoop(h, s.word))
    case ExchangeForConvert(added, spurious) => NextConvert(s, t, pc.h, pc.prev, added, spurious)
    case BeginCheckout(w) =>
      var one := Pack(Fields(1, 1, false, false));
      At(s, t, CheckoutLoop(w, one, Pack(Fields(2, 1, false, false))))
    case ExchangeForCheckout(added, spurious) => NextCheckout(s, t, pc.w, pc.cur, pc.desired, added, spurious)
    case SubtractWeak(w) => NextSubtractWeak(s, t, w)
    case CheckWait => NextWait(s, t)
    case SpuriousWake => At(s, t, if pc.FirstParked? then FirstWait(pc.value) else SecondWait(pc.value))
    case LoadAfterWait => AwaitFinished(Check(s, InRange(Unpack(s.word))), t, s.word)
    case FinishPartial =>
      var p := Unpack(s.word);
      var s1 := Check(s, InRange(p) && !p.finished && p.started && p.strong == 0);
      At(s1, t, if p.weak == 0 then Notifying else Idle)
      .(word := OrFinished(s.word), finished := true, weakFirst := s.finals != [])
    case NotifyWaiter => Notify(At(s, t, Idle)).(notified := true)
  }

  /** One iteration of the `releaseStrongRef` loop. */
  function NextRelease(s: State, t: Thread, h: Handle, prev: Word, spurious: bool): State {
    var f := Unpack(prev);
    var s1 := Check(s, InRange(f) && 1 <= f.strong);
    if spurious || s.word != prev then
      At(s1, t, ReleaseLoop(h, s.word))
    else
      var (next, action) := ReleaseStrong(prev);
      var s2 := Check(s1, action.NoOp? || !f.started);
      Deliver(s2.(word := next, strong := s.strong - {h}), t, action)
  }

  /** One iteration of the `addWeakReleaseStrongRef` loop. */
  function NextConvert(s: State, t: Thread, h: Handle, prev: Word, added: Handle, spurious: bool): State {
    var f := Unpack(prev);
    var s1 := Check(s, InRange(f) && !f.started);
    if spurious || s.word != prev then
      At(s1, t, ConvertLoop(h, s.word))
    else
      var (next, action) := AddWeakReleaseStrong(prev);
      Deliver(s1.(word := next, strong := s.strong - {h}, weak := s.weak + {added}), t, action)
  }

  /** One iteration of the `checkoutStrongRefFromWeak` loop. */
  function NextCheckout(s: State, t: Thread, w: Handle, cur: Word, desired: Word, added: Handle, spurious: bool): State {
    if spurious || s.word != cur then
      var f := Unpack(s.word);
      var s1 := Check(s, InRange(f));
      if f.strong == 0 then At(s1, t, Idle)
      else At(s1, t, CheckoutLoop(w, s.word, Add(s.word, STRONG_DELTA)))
    else
      At(s.(word := desired, strong := s.strong + {added}), t, Idle)
  }

  /** `releaseWeakRef`, from the subtraction to the next access of the word. */
  function NextSubtractWeak(s: State, t: Thread, w: Handle): State {
    var f := Unpack(s.word);
    var s1 := Check(s, InRange(f)).(word := Sub(s.word, WEAK_DELTA), weak := s.weak - {w});
    if f.weak == 1 && f.strong == 0 then
      var s2 := s1.(finals := s.finals + [t]);
      if !f.started then At(s2, t, FirstWait(s.word)) else AwaitFinished(s2, t, s.word)
    else
      At(s1, t, Idle)
  }

  /** `wait(value)`: return when the word differs, block otherwise. */
  function NextWait(s: State, t: Thread): State
    requires PcOf(s, t).FirstWait? || PcOf(s, t).SecondWait?
  {
    match PcOf(s, t)
    case FirstWait(v) => if s.word == v then At(s, t, FirstParked(v)) else At(s, t, Reload)
    case SecondWait(v) => if s.word == v then At(s, t, SecondParked(v)) else Deliver(s, t, Destroy)
  }

  // ----- the invariant

  function FieldsOf(s: State): Fields {
    Fields(|s.strong|, |s.weak|, s.partials != [], s.finished)
  }

  /** The word packs the handle counts and the history of the partial destructor. */
  ghost predicate WordInv(s: State) {
    && InRange(FieldsOf(s))
    && s.word == Pack(FieldsOf(s))
    && s.assertionsHold
  }

  /** How the phases of the object's life follow one another. */
  ghost predicate PhaseInv(s: State) {
    && |s.partials| <= 1 && |s.finals| <= 1 && |s.destroys| <= 1
    && (s.finished ==> s.partials != [])
    && (s.partials != [] ==> s.strong == {})
    && (s.finals != [] ==> s.strong == {} && s.weak == {})
    && (s.destroys != [] ==> s.strong == {} && s.weak == {} && (s.partials != [] ==> s.finished))
    && (s.strong == {} && s.weak == {} ==> s.finals != [] || s.destroys != [])
    && (s.partials != [] && !s.finished ==> PcOf(s, s.partials[0]).RunningPartial?)
    && (s.finals != [] && s.destroys == [] ==> Finalizing(PcOf(s, s.finals[0])))
    && (s.weakFirst ==> s.finished && s.finals != [])
    && (s.notified ==> s.weakFirst)
    && (s.weakFirst && !s.notified ==> PcOf(s, s.partials[0]).Notifying?)
  }

  /** What a thread's local variables say about the shared state. */
  ghost predicate PcInv(s: State, t: Thread) {
    match PcOf(s, t)
    case Idle => true
    case ReleaseLoop(h, prev) => h in s.strong && Live(prev)
    case ConvertLoop(h, prev) => h in s.strong && Live(prev)
    case CheckoutLoop(w, cur, desired) => w in s.weak && Live(cur) && desired == cur + STRONG_DELTA
    case RunningPartial => s.partials == [t] && !s.finished
    case Notifying => s.partials == [t] && s.weakFirst && !s.notified
    case FirstWait(v) => s.finals == [t] && s.destroys == [] && s.partials == [] && v == WEAK_DELTA
    case FirstParked(v) => false
    case Reload => s.finals == [t] && s.destroys == [] && s.partials == []
    case SecondWait(v) =>
      s.finals == [t] && s.destroys == []
      && v == if s.partials == [] then WORD_SIZE - WEAK_DELTA else STARTED_BIT
    case SecondParked(v) =>
      s.finals == [t] && s.destroys == [] && s.partials != [] && v == STARTED_BIT
      && (s.finished ==> s.weakFirst && !s.notified)
  }

  ghost predicate Inv(s: State) {
    && WordInv(s)
    && PhaseInv(s)
    && (forall t :: PcInv(s, t))
    && Exclusive(s)
  }

  /** No strong handle is being released by two threads. */
  ghost predicate Exclusive(s: State) {
    forall t, u :: HoldsStrong(PcOf(s, t)) && HoldsStrong(PcOf(s, u)) && PcOf(s, t).h == PcOf(s, u).h ==> t == u
  }

  lemma InitInv(h: Handle)
    ensures Inv(Init(h))
  {
  }

  lemma LiveWord(s: State)
    requires WordInv(s) && PhaseInv(s) && s.strong != {}
    ensures Live(s.word)
  {
    UnpackPack(FieldsOf(s));
  }

  /** Exclusivity survives a step in which no thread starts to release a handle. */
  lemma ExclusiveKept(s: State, s': State)
    requires Exclusive(s)
    requires forall t :: HoldsStrong(PcOf(s', t)) ==> HoldsStrong(PcOf(s, t)) && PcOf(s, t).h == PcOf(s', t).h
    ensures Exclusive(s')
  {
  }

  predicate SameHistory(s: State, s': State) {
    && s'.partials == s.partials && s'.finished == s.finished && s'.finals == s.finals
    && s'.destroys == s.destroys && s'.weakFirst == s.weakFirst && s'.notified == s.notified
  }

  /** While the history stays and handles are only added, a thread that does not move keeps its facts. */
  lemma PcInvKept(s: State, s': State, u: Thread)
    requires PcInv(s, u) && PcOf(s', u) == PcOf(s, u)
    requires SameHistory(s, s') && s.strong <= s'.strong && s.weak <= s'.weak
    ensures PcInv(s', u)
  {
  }

  /** So do the phases, if the moving thread is none of those that they mention. */
  lemma PhasesKept(s: State, s': State, t: Thread)
    requires PhaseInv(s) && SameHistory(s, s') && s.strong <= s'.strong && s.weak <= s'.weak
    requires s.strong == {} ==> s'.strong == {}
    requires s.strong == {} && s.weak == {} ==> s'.weak == {}
    requires forall u :: u != t ==> PcOf(s', u) == PcOf(s, u)
    requires PcOf(s, t) == PcOf(s', t)
      || !(PcOf(s, t).RunningPartial? || PcOf(s, t).Notifying? || Finalizing(PcOf(s, t)))
    ensures PhaseInv(s')
  {
  }

  lemma AddStrongPreserves(s: State, t: Thread, e: Event)
    requires Inv(s) && Enabled(s, t, e) && e.AddStrong?
    ensures Inv(Next(s, t, e))
  {
    var s' := Next(s, t, e);
    AddDeltas(FieldsOf(s));
    ExclusiveKept(s, s');
    PhasesKept(s, s', t);
    forall u ensures PcInv(s', u) { PcInvKept(s, s', u); }
  }

  lemma AddWeakPreserves(s: State, t: Thread, e: Event)
    requires Inv(s) && Enabled(s, t, e) && (e.AddWeak? || e.CopyWeak?)
    ensures Inv(Next(s, t, e))
  {
    var s' := Next(s, t, e);
    AddDeltas(FieldsOf(s));
    ExclusiveKept(s, s');
    PhasesKept(s, s', t);
    forall u ensures PcInv(s', u) { PcInvKept(s, s', u); }
  }

  lemma LoadPreserves(s: State, t: Thread, e: Event)
    requires Inv(s) && Enabled(s, t, e) && (e.LoadForRelease? || e.LoadForConvert? || e.BeginCheckout?)
    ensures Inv(Next(s, t, e))
  {
    var s' := Next(s, t, e);
    if e.BeginCheckout? {
      UnpackPack(Fields(1, 1, false, false));
      ExclusiveKept(s, s');
    } else {
      LiveWord(s);
      forall u, v | HoldsStrong(PcOf(s', u)) && HoldsStrong(PcOf(s', v)) && PcOf(s', u).h == PcOf(s', v).h
        ensures u == v
      {
        assert u != t ==> PcOf(s', u) == PcOf(s, u);
        assert v != t ==> PcOf(s', v) == PcOf(s, v);
      }
    }
    PhasesKept(s, s', t);
    forall u ensures PcInv(s', u) { if u != t { PcInvKept(s, s', u); } }
  }

  /** A failed exchange only reloads the word, which is live because the thread's handle still counts. */
  lemma FailedExchangePreserves(s: State, t: Thread, s': State)
    requires Inv(s) && HoldsStrong(PcOf(s, t))
    requires s' == At(s, t, if PcOf(s, t).ReleaseLoop? then ReleaseLoop(PcOf(s, t).h, s.word)
                            else ConvertLoop(PcOf(s, t).h, s.word))
    ensures Inv(s')
  {
    assert PcInv(s, t);
    LiveWord(s);
    ExclusiveKept(s, s');
    PhasesKept(s, s', t);
    forall u ensures PcInv(s', u) { if u != t { PcInvKept(s, s', u); } }
  }

  lemma ReleasePreserves(s: State, t: Thread, spurious: bool)
    requires Inv(s) && PcOf(s, t).ReleaseLoop?
    ensures Inv(NextRelease(s, t, PcOf(s, t).h, PcOf(s, t).prev, spurious))
  {
    var pc := PcOf(s, t);
    var s' := NextRelease(s, t, pc.h, pc.prev, spurious);
    assert PcInv(s, t);
    if spurious || s.word != pc.prev {
      FailedExchangePreserves(s, t, s');
    } else {
      var f := FieldsOf(s);
      UnpackPack(f);
      ReleaseStrongFields(f);
      assert s'.strong == s.strong - {pc.h};
      UnpackPack(Fields(f.strong - 1, f.weak, f.strong == 1 && f.weak != 0, false));
      assert WordInv(s');
      assert f.strong == 1 ==> s.strong == {pc.h} by { Singleton(s.strong, pc.h); }
      forall u ensures PcInv(s', u) { assert PcInv(s, u); }
      ExclusiveKept(s, s');
    }
  }

  lemma ConvertPreserves(s: State, t: Thread, added: Handle, spurious: bool)
    requires Inv(s) && Enabled(s, t, ExchangeForConvert(added, spurious))
    ensures Inv(NextConvert(s, t, PcOf(s, t).h, PcOf(s, t).prev, added, spurious))
  {
    var pc := PcOf(s, t);
    var s' := NextConvert(s, t, pc.h, pc.prev, added, spurious);
    assert PcInv(s, t);
    if spurious || s.word != pc.prev {
      FailedExchangePreserves(s, t, s');
    } else {
      var f := FieldsOf(s);
      UnpackPack(f);
      AddWeakReleaseStrongFields(f);
      assert s'.strong == s.strong - {pc.h} && s'.weak == s.weak + {added};
      assert WordInv(s');
      assert f.strong == 1 ==> s.strong == {pc.h} by { Singleton(s.strong, pc.h); }
      forall u ensures PcInv(s', u) { assert PcInv(s, u); }
      ExclusiveKept(s, s');
    }
  }

  lemma Singleton(hs: set<Handle>, h: Handle)
    requires h in hs
    ensures |hs| == 1 ==> hs == {h}
  {
    assert |hs - {h}| == |hs| - 1;
  }

  lemma CheckoutPreserves(s: State, t: Thread, e: Event)
    requires Inv(s) && Enabled(s, t, e) && e.ExchangeForCheckout?
    ensures Inv(Next(s, t, e))
  {
    var s' := Next(s, t, e);
    assert PcInv(s, t);
    UnpackPack(FieldsOf(s));
    AddDeltas(FieldsOf(s));
    ExclusiveKept(s, s');
    PhasesKept(s, s', t);
    forall u ensures PcInv(s', u) { if u != t { PcInvKept(s, s', u); } }
  }

  lemma SubtractWeakPreserves(s: State, t: Thread, w: Handle)
    requires Inv(s) && Enabled(s, t, SubtractWeak(w))
    ensures Inv(NextSubtractWeak(s, t, w))
  {
    var s' := NextSubtractWeak(s, t, w);
    var f := FieldsOf(s);
    UnpackPack(f);
    SubDeltas(f);
    ExclusiveKept(s, s');
    if f.weak == 1 && f.strong == 0 {
      LastWeakPreserves(s, t, w, s');
    } else {
      forall u ensures PcInv(s', u) { assert PcInv(s, u); }
    }
  }

  lemma LastWeakPreserves(s: State, t: Thread, w: Handle, s': State)
    requires Inv(s) && Enabled(s, t, SubtractWeak(w)) && |s.strong| == 0 && |s.weak| == 1
    requires s' == NextSubtractWeak(s, t, w)
    ensures WordInv(s') && PhaseInv(s') && forall u :: PcInv(s', u)
  {
    var f := FieldsOf(s);
    UnpackPack(f);
    SubDeltas(f);
    Singleton(s.weak, w);
    UnpackPack(f.(weak := 0));
    forall u ensures PcInv(s', u) { assert PcInv(s, u); }
  }

  lemma CheckWaitPreserves(s: State, t: Thread)
    requires Inv(s) && Enabled(s, t, CheckWait)
    ensures Inv(Next(s, t, CheckWait))
  {
    var s' := Next(s, t, CheckWait);
    assert PcInv(s, t);
    UnpackPack(FieldsOf(s));
    ExclusiveKept(s, s');
    forall u ensures PcInv(s', u) { assert PcInv(s, u); }
  }

  lemma WakePreserves(s: State, t: Thread, e: Event)
    requires Inv(s) && Enabled(s, t, e) && (e.SpuriousWake? || e.LoadAfterWait?)
    ensures Inv(Next(s, t, e))
  {
    var s' := Next(s, t, e);
    assert PcInv(s, t);
    UnpackPack(FieldsOf(s));
    ExclusiveKept(s, s');
    forall u ensures PcInv(s', u) { assert PcInv(s, u); }
  }

  lemma FinishPreserves(s: State, t: Thread, e: Event)
    requires Inv(s) && Enabled(s, t, e) && e.FinishPartial?
    ensures Inv(Next(s, t, e))
  {
    var s' := Next(s, t, e);
    assert PcInv(s, t);
    UnpackPack(FieldsOf(s));
    TagBits(FieldsOf(s));
    ExclusiveKept(s, s');
    forall u ensures PcInv(s', u) { assert PcInv(s, u); }
  }

  lemma NotifyPreserves(s: State, t: Thread)
    requires Inv(s) && Enabled(s, t, NotifyWaiter)
    ensures Inv(Next(s, t, NotifyWaiter))
  {
    var s' := Next(s, t, NotifyWaiter);
    assert PcInv(s, t) && PcInv(s, s.finals[0]);
    ExclusiveKept(s, s');
    forall u ensures PcInv(s', u) { assert PcInv(s, u); }
  }

  lemma NextPreserves(s: State, t: Thread, e: Event)
    requires Inv(s) && Enabled(s, t, e)
    ensures Inv(Next(s, t, e))
  {
    match e
    case AddStrong(_, _) => AddStrongPreserves(s, t, e);
    case AddWeak(_, _) => AddWeakPreserves(s, t, e);
    case CopyWeak(_, _) => AddWeakPreserves(s, t, e);
    case LoadForRelease(_) => LoadPreserves(s, t, e);
    case LoadForConvert(_) => LoadPreserves(s, t, e);
    case BeginCheckout(_) => LoadPreserves(s, t, e);
    case ExchangeForRelease(spurious) => ReleasePreserves(s, t, spurious);
    case ExchangeForConvert(added, spurious) => ConvertPreserves(s, t, added, spurious);
    case ExchangeForCheckout(_, _) => CheckoutPreserves(s, t, e);
    case SubtractWeak(w) => SubtractWeakPreserves(s, t, w);
    case CheckWait => CheckWaitPreserves(s, t);
    case SpuriousWake => WakePreserves(s, t, e);
    case LoadAfterWait => WakePreserves(s, t, e);
    case FinishPartial => FinishPreserves(s, t, e);
    case NotifyWaiter => NotifyPreserves(s, t);
  }

  // ----- runs

  datatype Action = Action(t: Thread, e: Event)

  /** Every action is enabled when its turn comes. */
  ghost predicate IsRun(s: State, run: seq<Action>)
    decreases |run|
  {
    run == [] || (Enabled(s, run[0].t, run[0].e) && IsRun(Next(s, run[0].t, run[0].e), run[1..]))
  }

  ghost function After(s: State, run: seq<Action>): State
    requires IsRun(s, run)
    decreases |run|
  {
    if run == [] then s else After(Next(s, run[0].t, run[0].e), run[1..])
  }

  lemma {:induction false} RunPreserves(s: State, run: seq<Action>)
    requires Inv(s) && IsRun(s, run)
    ensures Inv(After(s, run))
    decreases |run|
  {
    if run != [] {
      NextPreserves(s, run[0].t, run[0].e);
      RunPreserves(Next(s, run[0].t, run[0].e), run[1..]);
    }
  }

  /** The thread that finished the partial destructor is still to notify the waiter. */
  predicate NotifyPending(s: State, t: Thread) {
    s.partials == [t] && s.weakFirst && !s.notified
  }

  /**
   Safety in every interleaving: `Destroy` is issued at most once, only when no handle exists and
   no started partial destructor is unfinished, and afterwards no thread is inside any operation
   but for a pending notification; `PartialDestroy` is issued at most once and no strong handle
   exists from then on; the counts in the word are the numbers of handles; and no debug assertion
   of the header fails.
   */
  lemma Safety(h: Handle, run: seq<Action>)
    requires IsRun(Init(h), run)
    ensures var s := After(Init(h), run);
            && |s.destroys| <= 1
            && (s.destroys != [] ==>
                  && s.strong == {} && s.weak == {} && (s.partials != [] ==> s.finished)
                  && forall t :: PcOf(s, t) == if NotifyPending(s, t) then Notifying else Idle)
            && |s.partials| <= 1
            && (s.partials != [] ==> s.strong == {})
            && Unpack(s.word) == Fields(|s.strong|, |s.weak|, s.partials != [], s.finished)
            && s.assertionsHold
  {
    InitInv(h);
    RunPreserves(Init(h), run);
    var s := After(Init(h), run);
    UnpackPack(FieldsOf(s));
    if s.destroys != [] {
      forall t ensures PcOf(s, t) == if NotifyPending(s, t) then Notifying else Idle { assert PcInv(s, t); }
    }
  }

  /**
   After `Destroy` the only access to the object that is ever enabled is the finisher's
   `notify_one`, and it is enabled exactly when the last weak release came before the partial
   destructor finished and the notification is still to come.
   */
  lemma AfterDestroyOnlyNotify(h: Handle, run: seq<Action>, t: Thread, e: Event)
    requires IsRun(Init(h), run) && After(Init(h), run).destroys != []
    ensures Enabled(After(Init(h), run), t, e) <==> e == NotifyWaiter && NotifyPending(After(Init(h), run), t)
  {
    Safety(h, run);
    var s := After(Init(h), run);
    assert PcOf(s, t) == if NotifyPending(s, t) then Notifying else Idle;
  }

  lemma StepRun(s: State, a: Action, run: seq<Action>)
    requires Enabled(s, a.t, a.e) && IsRun(Next(s, a.t, a.e), run)
    ensures IsRun(s, [a] + run) && After(s, [a] + run) == After(Next(s, a.t, a.e), run)
  {
    assert ([a] + run)[1..] == run;
  }

  /** Three actions in front of a run, given the states between them. */
  lemma ThreeSteps(s0: State, a0: Action, s1: State, a1: Action, s2: State, a2: Action, s3: State, rest: seq<Action>)
    requires Enabled(s0, a0.t, a0.e) && s1 == Next(s0, a0.t, a0.e)
    requires Enabled(s1, a1.t, a1.e) && s2 == Next(s1, a1.t, a1.e)
    requires Enabled(s2, a2.t, a2.e) && s3 == Next(s2, a2.t, a2.e) && IsRun(s3, rest)
    ensures var run := [a0] + ([a1] + ([a2] + rest)); IsRun(s0, run) && After(s0, run) == After(s3, rest)
  {
    StepRun(s2, a2, rest);
    StepRun(s1, a1, [a2] + rest);
    StepRun(s0, a0, [a1] + ([a2] + rest));
  }

  /** One strong and one weak reference: releasing the strong one starts the partial destructor. */
  function Started(): State {
    State(STARTED_BIT + WEAK_DELTA, {}, {7}, map[0 := RunningPartial], [0], false, [], [], false, false, true)
  }

  lemma LastStrongReleased(rest: seq<Action>) returns (run: seq<Action>)
    requires IsRun(Started(), rest)
    ensures IsRun(Init(0), run) && After(Init(0), run) == After(Started(), rest)
  {
    var a0, a1, a2 := Action(0, AddWeak(0, 7)), Action(0, LoadForRelease(0)), Action(0, ExchangeForRelease(false));
    var s1 := State(WEAK_DELTA + 1, {0}, {7}, map[], [], false, [], [], false, false, true);
    var s2 := At(s1, 0, ReleaseLoop(0, WEAK_DELTA + 1));
    ReleaseStarts(s2);
    assert Init(0).weak + {7} == {7};
    ThreeSteps(Init(0), a0, s1, a1, s2, a2, Started(), rest);
    run := [a0] + ([a1] + ([a2] + rest));
  }

  lemma ReleaseStarts(s: State)
    requires s == State(WEAK_DELTA + 1, {0}, {7}, map[0 := ReleaseLoop(0, WEAK_DELTA + 1)], [], false, [], [], false, false, true)
    ensures Enabled(s, 0, ExchangeForRelease(false)) && Next(s, 0, ExchangeForRelease(false)) == Started()
  {
    var s' := Next(s, 0, ExchangeForRelease(false));
    assert s'.strong == {} && s'.pcs == map[0 := RunningPartial];
  }

  /** The last weak release then waits for the partial destructor. */
  function Waiting(): State {
    State(STARTED_BIT, {}, {}, map[0 := RunningPartial, 1 := SecondWait(STARTED_BIT)], [0], false, [1], [],
          false, false, true)
  }

  lemma LastWeakWaits()
    ensures Enabled(Started(), 1, SubtractWeak(7)) && Next(Started(), 1, SubtractWeak(7)) == Waiting()
  {
    var s := Next(Started(), 1, SubtractWeak(7));
    assert s.word == STARTED_BIT && s.weak == {} && s.pcs == Waiting().pcs;
  }

  /** The partial destructor has finished and is about to notify. */
  function AboutToNotify(): State {
    State(STARTED_BIT + FINISHED_BIT, {}, {}, map[0 := Notifying, 1 := SecondWait(STARTED_BIT)], [0], true, [1], [],
          true, false, true)
  }

  lemma DestructorFinishes()
    ensures Enabled(Waiting(), 0, FinishPartial) && Next(Waiting(), 0, FinishPartial) == AboutToNotify()
  {
    var s := Next(Waiting(), 0, FinishPartial);
    assert s.word == STARTED_BIT + FINISHED_BIT && s.pcs == AboutToNotify().pcs;
  }

  lemma WaiterDestroys()
    ensures Enabled(AboutToNotify(), 1, CheckWait)
    ensures var s := Next(AboutToNotify(), 1, CheckWait); s.destroys == [1] && Enabled(s, 0, NotifyWaiter)
  {
  }

  /** The late notification happens: the waiter sees the finished bit, destroys, and `notify_one` is still to come. */
  lemma LateNotify() returns (run: seq<Action>)
    ensures IsRun(Init(0), run)
    ensures var s := After(Init(0), run); s.destroys == [1] && Enabled(s, 0, NotifyWaiter)
  {
    var a0, a1, a2 := Action(1, SubtractWeak(7)), Action(0, FinishPartial), Action(1, CheckWait);
    LastWeakWaits();
    DestructorFinishes();
    WaiterDestroys();
    ThreeSteps(Started(), a0, Waiting(), a1, AboutToNotify(), a2, Next(AboutToNotify(), 1, CheckWait), []);
    run := LastStrongReleased([a0] + ([a1] + ([a2] + [])));
  }

  /** A strong reference that is gone stays gone: no checkout revives an expired object. */
  lemma {:induction false} ExpiredStaysExpired(s: State, run: seq<Action>)
    requires Inv(s) && s.strong == {} && IsRun(s, run)
    ensures After(s, run).strong == {}
    decreases |run|
  {
    if run != [] {
      var t, e := run[0].t, run[0].e;
      assert PcInv(s, t);
      UnpackPack(FieldsOf(s));
      NextPreserves(s, t, e);
      ExpiredStaysExpired(Next(s, t, e), run[1..]);
    }
  }

  // ----- no leak and no stuck waiter

  /** In the path where no partial destroy started, neither wait of `releaseWeakRef` blocks. */
  lemma WaitsPassWithoutPartialDestroy(s: State, t: Thread)
    requires Inv(s) && s.partials == []
    ensures PcOf(s, t).FirstWait? ==> s.word == 0 && PcOf(s, t).value == WEAK_DELTA
    ensures PcOf(s, t).SecondWait? ==> s.word == 0 && PcOf(s, t).value == WORD_SIZE - WEAK_DELTA
    ensures !PcOf(s, t).FirstParked? && !PcOf(s, t).SecondParked?
  {
    assert PcInv(s, t);
  }

  /** A waiter is parked only while the thread that ran the partial destructor is still to wake it. */
  lemma ParkedWaiterHasAWaker(s: State, t: Thread)
    requires Inv(s) && (PcOf(s, t).FirstParked? || PcOf(s, t).SecondParked?)
    ensures |s.partials| == 1
    ensures var u := s.partials[0];
            if s.finished then
              && Enabled(s, u, NotifyWaiter)
              && PcOf(Next(s, u, NotifyWaiter), t).SecondWait?
              && PcOf(Next(s, u, NotifyWaiter), t).value != Next(s, u, NotifyWaiter).word
            else
              && Enabled(s, u, FinishPartial)
              && Enabled(Next(s, u, FinishPartial), u, NotifyWaiter)
  {
    assert PcInv(s, t);
    UnpackPack(FieldsOf(s));
    TagBits(FieldsOf(s));
  }

  /** How many steps other than spurious wake-ups an object without handles can still take. */
  function Remaining(s: State): nat {
    (if s.partials != [] && !s.finished then 3 else if s.weakFirst && !s.notified then 2 else 0) +
    (if s.finals == [] then 0 else
       match PcOf(s, s.finals[0])
       case FirstWait(_) => 4
       case Reload => 3
       case SecondWait(_) => 2
       case SecondParked(_) => 1
       case _ => 0)
  }

  /** Without handles, every step that is not a spurious wake-up brings the object closer to its end. */
  lemma StepsRunOut(s: State, t: Thread, e: Event)
    requires Inv(s) && s.strong == {} && s.weak == {}
    requires Enabled(s, t, e) && !e.SpuriousWake?
    ensures var s' := Next(s, t, e);
            Inv(s') && s'.strong == {} && s'.weak == {} && Remaining(s') < Remaining(s)
  {
    NextPreserves(s, t, e);
    assert PcInv(s, t);
    UnpackPack(FieldsOf(s));
    if s.finals != [] { assert PcInv(s, s.finals[0]); }
  }

  /** Without handles and before `Destroy`, some step that is not a spurious wake-up is enabled. */
  lemma NeverStuck(s: State) returns (a: Action)
    requires Inv(s) && s.strong == {} && s.weak == {} && s.destroys == []
    ensures Enabled(s, a.t, a.e) && !a.e.SpuriousWake?
  {
    var t := s.finals[0];
    assert PcInv(s, t);
    match PcOf(s, t)
    case FirstWait(_) => a := Action(t, CheckWait);
    case Reload => a := Action(t, LoadAfterWait);
    case SecondWait(_) => a := Action(t, CheckWait);
    case SecondParked(_) => a := Action(s.partials[0], if s.finished then NotifyWaiter else FinishPartial);
  }

  /**
   No object leaks: when the last handle is gone, `Destroy` was issued or every maximal run without
   spurious wake-ups issues it, within `Remaining` steps.
   */
  lemma {:induction false} NoLeak(s: State, run: seq<Action>)
    requires Inv(s) && s.strong == {} && s.weak == {} && IsRun(s, run)
    requires forall i :: 0 <= i < |run| ==> !run[i].e.SpuriousWake?
    ensures |run| <= Remaining(s)
    ensures After(s, run).destroys != [] || exists a: Action :: Enabled(After(s, run), a.t, a.e) && !a.e.SpuriousWake?
    decreases |run|
  {
    if run == [] {
      if s.destroys == [] { var a := NeverStuck(s); }
    } else {
      StepsRunOut(s, run[0].t, run[0].e);
      NoLeak(Next(s, run[0].t, run[0].e), run[1..]);
    }
  }
}
