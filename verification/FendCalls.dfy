/** What AM_FEND_SetCallback registers, and where the pairs come from that the monitor thread uses. */
module FendCalls {
  import opened FendProtocol
  import opened FendRuns

  // ---------------------------------------------------------------- one call

  /** Thread t is inside AM_FEND_SetCallback(h, q). */
  predicate Setting(s: State, t: nat, h: Handler, q: Pointer) {
    var pc := Pc(s, t);
    || pc == SetLocking(h, q) || pc == SetChecking(h, q) || pc == SetSleeping(h, q) || pc == SetWriteCb(h, q)
    || (pc == SetWriteData(q) && s.cb.handler == h)
  }

  /** The two ways out of AM_FEND_SetCallback. */
  predicate EndsSet(l: Label, t: nat) {
    l == SetSame(t) || l == SetDone(t)
  }

  lemma EnterSets(s: State, t: nat, h: Handler, q: Pointer, s': State)
    requires Step(s, EnterSet(t, h, q), s')
    ensures Setting(s', t, h, q)
  {
  }

  lemma SettingStep(s: State, l: Label, s': State, t: nat, h: Handler, q: Pointer)
    requires Inv(s) && Step(s, l, s') && Setting(s, t, h, q) && !EndsSet(l, t)
    ensures Setting(s', t, h, q)
  {
    hide RoundStep, CallStep, LockCbStep, SetStep, LockStep, ClientStep, Control, Pairs, Reads, Hits, Stamps;
    if RoundStep(s, l, s') || CallStep(s, l, s') || LockCbStep(s, l, s') {
      MonitorChangesOnly(s, l, s');
    } else if SetStep(s, l, s') {
      SettingSetStep(s, l, s', t, h, q);
    } else if LockStep(s, l, s') {
      NoLockDuringSet(s, l, s', t);
    } else {
      SettingClientStep(s, l, s', t, h, q);
    }
  }

  lemma SettingSetStep(s: State, l: Label, s': State, t: nat, h: Handler, q: Pointer)
    requires Inv(s) && SetStep(s, l, s') && Setting(s, t, h, q) && !EndsSet(l, t)
    ensures Setting(s', t, h, q)
  {
    hide Control, Pairs, Reads, Hits, Stamps;
    OwnsOf(s, t);
    OwnsOf(s, l.thread);
  }

  lemma SettingClientStep(s: State, l: Label, s': State, t: nat, h: Handler, q: Pointer)
    requires Inv(s) && ClientStep(s, l, s') && Setting(s, t, h, q)
    ensures Setting(s', t, h, q)
  {
    hide Control, Pairs, Reads, Hits, Stamps;
  }

  lemma NoLockDuringSet(s: State, l: Label, s': State, t: nat)
    requires Inv(s) && LockStep(s, l, s')
    ensures !InSet(Pc(s, t))
  {
    hide Pairs, Reads, Hits, Stamps;
    assert Owns(s, t) && Owns(s, l.thread);
  }

  lemma EndRegisters(s: State, l: Label, s': State, t: nat, h: Handler, q: Pointer)
    requires Step(s, l, s') && Setting(s, t, h, q) && EndsSet(l, t)
    ensures s'.cb.handler == h && s'.data.pointer == q && Pc(s', t) == Returning(0)
  {
    hide RoundStep, CallStep, LockCbStep, LockStep, ClientStep;
    OnlySetEnds(s, l, s', t);
  }

  lemma OnlySetEnds(s: State, l: Label, s': State, t: nat)
    requires Step(s, l, s') && EndsSet(l, t)
    ensures SetStep(s, l, s')
  {
  }

  /** No step between lo and hi ends thread t's AM_FEND_SetCallback. */
  predicate NotEnded(b: Behaviour, lo: nat, hi: nat, t: nat) {
    forall k :: lo < k < hi && k < |b.labels| ==> !EndsSet(b.labels[k], t)
  }

  lemma {:induction false} SettingKept(b: Behaviour, e: nat, m: nat, t: nat, h: Handler, q: Pointer)
    requires IsRun(b) && e < m <= |b.labels| && b.labels[e] == EnterSet(t, h, q) && NotEnded(b, e, m, t)
    ensures Setting(b.states[m], t, h, q)
  {
    hide Init, Step, Inv, Setting;
    if m == e + 1 {
      EnterSets(b.states[e], t, h, q, b.states[m]);
    } else {
      SettingKept(b, e, m - 1, t, h, q);
      InvAlways(b, m - 1);
      SettingStep(b.states[m - 1], b.labels[m - 1], b.states[m], t, h, q);
    }
  }

  /** When AM_FEND_SetCallback(h, q) is over, h is the handler registered and q its argument. */
  lemma SetRegisters(b: Behaviour, e: nat, i: nat, t: nat, h: Handler, q: Pointer)
    requires IsRun(b) && e < i < |b.labels| && b.labels[e] == EnterSet(t, h, q)
    requires EndsSet(b.labels[i], t) && NotEnded(b, e, i, t)
    ensures b.states[i + 1].cb.handler == h && b.states[i + 1].data.pointer == q
    ensures Pc(b.states[i + 1], t) == Returning(0)
  {
    hide Init, Step, Inv, Setting;
    SettingKept(b, e, i, t, h, q);
    EndRegisters(b.states[i], b.labels[i], b.states[i + 1], t, h, q);
  }

  // ---------------------------------------------------------------- where pairs come from

  type Given = set<(Handler, Pointer)>

  /** The initial pair and the arguments of the calls entered before step m. */
  function GivenBefore(b: Behaviour, m: nat): Given
    requires |b.states| > 0 && m <= |b.labels|
  {
    if m == 0 then {(b.states[0].cb.handler, b.states[0].data.pointer)}
    else GivenBefore(b, m - 1) + GivenBy(b.labels[m - 1])
  }

  function GivenBy(l: Label): Given {
    if l.EnterSet? then {(l.handler, l.pointer)} else {}
  }

  /** Thread t is about to write, or has half written, a given pair. */
  predicate Writes(s: State, g: Given, t: nat) {
    var pc := Pc(s, t);
    InSet(pc) ==> (if pc.SetWriteData? then s.cb.handler else pc.handler, pc.pointer) in g
  }

  /** Whatever is registered, saved by AM_FEND_Lock or in use is a given pair. */
  predicate Held(s: State, g: Given) {
    && (!RecordLive(LockerPc(s)) && !HolderPc(s).SetWriteData? ==> (s.cb.handler, s.data.pointer) in g)
    && (RecordLive(LockerPc(s)) ==> (s.record.oldCb.handler, s.record.oldData.pointer) in g)
    && (s.monitor.InUser? || s.monitor.InOld? ==> (s.monitor.cb.handler, s.monitor.data.pointer) in g)
  }

  ghost predicate Known(s: State, g: Given) {
    Held(s, g) && forall t: nat :: Writes(s, g, t)
  }

  lemma MoreIsKnown(s: State, g: Given, g2: Given)
    requires Known(s, g) && g <= g2
    ensures Known(s, g2)
  {
    hide InSet, LockerPc, HolderPc, RecordLive;
    forall t: nat
      ensures Writes(s, g2, t)
    {
      assert Writes(s, g, t);
    }
  }

  lemma RegisteredIsGiven(s: State, g: Given)
    requires Inv(s) && Held(s, g) && s.monitor.Calling? && !s.monitor.cb.handler.LockHandler?
    ensures (s.monitor.cb.handler, s.monitor.data.pointer) in g
  {
    hide Control, Hits, Stamps, HolderPc, LockerPc;
    InRoundIff(s);
    NoWriters(s);
  }

  lemma CallHeld(s: State, l: Label, s': State, g: Given)
    requires Inv(s) && Held(s, g) && CallStep(s, l, s')
    ensures Held(s', g)
  {
    hide Control, Hits, Stamps, HolderPc, LockerPc;
    MonitorKeepsPhase(s, l, s');
    InRoundIff(s);
    if s.monitor.Calling? {
      NoWriters(s);
      if !s.monitor.cb.handler.LockHandler? { RegisteredIsGiven(s, g); }
    }
  }

  lemma RoundHeld(s: State, l: Label, s': State, g: Given)
    requires Inv(s) && Held(s, g) && RoundStep(s, l, s')
    ensures Held(s', g)
  {
    hide Control, Pairs, Reads, Hits, Stamps, HolderPc, LockerPc;
    MonitorKeepsPhase(s, l, s');
  }

  lemma LockCbHeld(s: State, l: Label, s': State, g: Given)
    requires Inv(s) && Held(s, g) && LockCbStep(s, l, s')
    ensures Held(s', g)
  {
    hide Control, Pairs, Hits, Stamps, HolderPc, LockerPc;
    MonitorKeepsPhase(s, l, s');
  }

  lemma SetHeld(s: State, l: Label, s': State, g: Given)
    requires Inv(s) && Held(s, g) && SetStep(s, l, s') && (forall t: nat :: Writes(s, g, t))
    ensures Held(s', g)
  {
    hide Control, Pairs, Reads, Hits, Stamps, SetStep, LockerPc;
    SetHas(s, l, s');
    if s.lock.Some? && s.lock.value.Client? { assert Writes(s, g, s.lock.value.thread); }
  }

  lemma LockHeld(s: State, l: Label, s': State, g: Given)
    requires Inv(s) && Held(s, g) && LockStep(s, l, s')
    ensures Held(s', g)
  {
    hide Control, Reads, Hits, Stamps, LockerPc, HolderPc;
    LockHas(s, l, s');
  }

  lemma ClientHeld(s: State, l: Label, s': State, g: Given)
    requires Inv(s) && Held(s, g) && ClientStep(s, l, s')
    ensures Held(s', g)
  {
    hide Control, Pairs, Reads, Hits, Stamps, ClientStep, LockerPc, HolderPc;
    ClientFrame(s, l, s');
  }

  lemma HeldStep(s: State, l: Label, s': State, g: Given)
    requires Inv(s) && Step(s, l, s') && Known(s, g)
    ensures Held(s', g)
  {
    hide Inv, Held, Writes, RoundStep, CallStep, LockCbStep, SetStep, LockStep, ClientStep;
    if RoundStep(s, l, s') { RoundHeld(s, l, s', g); }
    if CallStep(s, l, s') { CallHeld(s, l, s', g); }
    if LockCbStep(s, l, s') { LockCbHeld(s, l, s', g); }
    if SetStep(s, l, s') { SetHeld(s, l, s', g); }
    if LockStep(s, l, s') { LockHeld(s, l, s', g); }
    if ClientStep(s, l, s') { ClientHeld(s, l, s', g); }
  }

  lemma WritesStep(s: State, l: Label, s': State, g: Given, t: nat)
    requires Inv(s) && Step(s, l, s') && Writes(s, g, t) && GivenBy(l) <= g
    ensures Writes(s', g, t)
  {
    hide Inv, RoundStep, CallStep, LockCbStep, SetStep, LockStep, ClientStep, InSet, Pc;
    if RoundStep(s, l, s') || CallStep(s, l, s') || LockCbStep(s, l, s') {
      MonitorChangesOnly(s, l, s');
      SameWrites(s, s', g, t);
    } else if SetStep(s, l, s') {
      WritesSetStep(s, l, s', g, t);
    } else if LockStep(s, l, s') {
      WritesLockStep(s, l, s', g, t);
    } else {
      WritesClientStep(s, l, s', g, t);
    }
  }

  lemma SameWrites(s: State, s': State, g: Given, t: nat)
    requires Writes(s, g, t) && MonitorOnly(s, s')
    ensures Writes(s', g, t)
  {
  }

  lemma WritesSetStep(s: State, l: Label, s': State, g: Given, t: nat)
    requires Inv(s) && SetStep(s, l, s') && Writes(s, g, t) && GivenBy(l) <= g
    ensures Writes(s', g, t)
  {
    hide Control, Pairs, Reads, Hits, Stamps;
    OwnsOf(s, t);
    OwnsOf(s, l.thread);
    if l.EnterSet? { assert (l.handler, l.pointer) in GivenBy(l); }
  }

  lemma WritesLockStep(s: State, l: Label, s': State, g: Given, t: nat)
    requires Inv(s) && LockStep(s, l, s') && Writes(s, g, t)
    ensures Writes(s', g, t)
  {
    hide Control, Pairs, Reads, Hits, Stamps;
    NoLockDuringSet(s, l, s', t);
  }

  lemma WritesClientStep(s: State, l: Label, s': State, g: Given, t: nat)
    requires Inv(s) && ClientStep(s, l, s') && Writes(s, g, t)
    ensures Writes(s', g, t)
  {
    hide Control, Pairs, Reads, Hits, Stamps;
  }

  lemma InitIsKnown(s: State)
    requires Init(s)
    ensures Known(s, {(s.cb.handler, s.data.pointer)})
  {
  }

  lemma {:induction false} KnownAlways(b: Behaviour, m: nat)
    requires IsRun(b) && m <= |b.labels|
    ensures Known(b.states[m], GivenBefore(b, m))
  {
    hide Init, Step, Inv, Held, Writes;
    if m == 0 {
      InitIsKnown(b.states[0]);
    } else {
      KnownAlways(b, m - 1);
      InvAlways(b, m - 1);
      var s, l, s', g := b.states[m - 1], b.labels[m - 1], b.states[m], GivenBefore(b, m);
      MoreIsKnown(s, GivenBefore(b, m - 1), g);
      HeldStep(s, l, s', g);
      forall t: nat
        ensures Writes(s', g, t)
      {
        WritesStep(s, l, s', g, t);
      }
    }
  }

  lemma {:induction false} GivenIsEntered(b: Behaviour, m: nat, h: Handler, q: Pointer)
    requires |b.states| > 0 && m <= |b.labels| && (h, q) in GivenBefore(b, m)
    ensures (h == b.states[0].cb.handler && q == b.states[0].data.pointer)
         || exists k, t :: 0 <= k < m && b.labels[k] == EnterSet(t, h, q)
  {
    if m > 0 {
      if (h, q) in GivenBefore(b, m - 1) {
        GivenIsEntered(b, m - 1, h, q);
      } else {
        assert b.labels[m - 1] == EnterSet(b.labels[m - 1].thread, h, q);
      }
    }
  }

  /**
   Every pair the monitor thread calls, but for AM_FEND_Lock's own, is the initial one or handler and
   argument of one and the same AM_FEND_SetCallback.
   */
  lemma UsedPairsAreGiven(b: Behaviour, m: nat, cb: HandlerCell, data: PointerCell)
    requires IsRun(b) && m <= |b.labels| && Uses(b.states[m], cb, data) && !cb.handler.LockHandler?
    ensures (cb.handler == b.states[0].cb.handler && data.pointer == b.states[0].data.pointer)
         || exists k, t :: 0 <= k < m && b.labels[k] == EnterSet(t, cb.handler, data.pointer)
  {
    hide Init, Step, Inv, Writes;
    var s := b.states[m];
    KnownAlways(b, m);
    InvAlways(b, m);
    if s.monitor.Calling? { RegisteredIsGiven(s, GivenBefore(b, m)); }
    GivenIsEntered(b, m, cb.handler, data.pointer);
  }

  // ---------------------------------------------------------------- who waits for what

  /**
   AM_FEND_SetCallback with the mutex: it is over at once for the registered pair, and else waits
   exactly while a round is running, but not in the monitor thread, which would wait for itself.
   */
  lemma SetWaitsIff(s: State, t: nat, h: Handler, q: Pointer)
    requires Pc(s, t) == SetChecking(h, q)
    ensures var same := h == s.cb.handler && q == s.data.pointer;
            && ((exists s' :: SetStep(s, SetSame(t), s')) <==> same)
            && ((exists s' :: SetStep(s, SetSleep(t), s')) <==> !same && t != 0 && s.runCb)
            && ((exists s' :: SetStep(s, SetGo(t), s')) <==> !same && (t == 0 || !s.runCb))
  {
    var same := h == s.cb.handler && q == s.data.pointer;
    if same { assert SetStep(s, SetSame(t), Release(s, t, Returning(0)).(setters := s.setters - {t})); }
    if !same && t != 0 && s.runCb { assert SetStep(s, SetSleep(t), Release(s, t, SetSleeping(h, q))); }
    if !same && (t == 0 || !s.runCb) { assert SetStep(s, SetGo(t), SetPc(s, t, SetWriteCb(h, q))); }
  }

  /** AM_FEND_Lock registers its own callback only while no round is running. */
  lemma LockWaitsIff(s: State, t: nat, para: Para)
    requires Pc(s, t) == LockChecking(para)
    ensures (exists s' :: LockStep(s, LockSleep(t), s')) <==> s.runCb
    ensures (exists session, s' :: LockStep(s, LockSave(t, session), s')) <==> !s.runCb
  {
    var saved := SetPc(s, t, LockWriteCb).(record := Record(s.clock, para, s.record.status, s.cb, s.data));
    if s.runCb { assert LockStep(s, LockSleep(t), Release(s, t, LockSleeping(para))); }
    if !s.runCb { assert LockStep(s, LockSave(t, s.clock), saved); }
  }

  /** ... and stops waiting for its event exactly when the flag has been cleared and the round is over. */
  lemma LockEndsIff(s: State, t: nat)
    requires Pc(s, t) == LockWaiting
    ensures (exists s' :: LockStep(s, LockWaitMore(t), s')) <==> s.runCb || s.lockFlag
    ensures (exists s' :: LockStep(s, LockWaitOver(t), s')) <==> !s.runCb && !s.lockFlag
  {
    if s.runCb || s.lockFlag { assert LockStep(s, LockWaitMore(t), Release(s, t, LockSlept)); }
    if !s.runCb && !s.lockFlag { assert LockStep(s, LockWaitOver(t), SetPc(s, t, LockRestoreCb(0))); }
  }

  // ---------------------------------------------------------------- what becomes of an event

  /** An event for which there is a handler is called exactly if callbacks are on. */
  lemma EventIsCalledIff(s: State, s1: State, s2: State)
    requires Step(s, MonTest, s1) && Step(s1, MonTestEnable, s2)
    ensures s2.monitor == if s.enabled then LoadCb(s.monitor.evt) else Signalling(s.monitor.evt)
    ensures !s.cb.handler.NoHandler?
  {
  }
}
