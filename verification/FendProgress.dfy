/** That the frontend protocol never gets stuck, what an event leads to, and what the calls return. */
module FendProgress {
  import opened Bytes
  import opened FendProtocol
  import opened FendRuns
  import opened FendCalls

  // ---------------------------------------------------------------- going on

  /** A step that goes on with what is under way: no new event, no new call, no change of a setting. */
  predicate GoesOn(l: Label) {
    !l.MonEvent? && !l.Action? && !l.ChangeMode? && !l.EnterSet? && !l.EnterLock?
  }

  ghost predicate Leads(s: State, n: nat, s': State)
    decreases n
  {
    if n == 0 then s == s'
    else exists l, m :: GoesOn(l) && Step(s, l, m) && Leads(m, n - 1, s')
  }

  /** From s the threads can get to s' by going on. */
  ghost predicate CanReach(s: State, s': State) {
    exists n: nat :: Leads(s, n, s')
  }

  lemma Stay(s: State)
    ensures CanReach(s, s)
  {
    assert Leads(s, 0, s);
  }

  lemma Go(s: State, l: Label, m: State, s': State)
    requires GoesOn(l) && Step(s, l, m) && CanReach(m, s')
    ensures CanReach(s, s')
  {
    hide Step;
    var n: nat :| Leads(m, n, s');
    assert Leads(s, n + 1, s');
  }

  lemma {:induction false} LeadsOn(s: State, n: nat, m: State, s': State)
    requires Leads(s, n, m) && CanReach(m, s')
    ensures CanReach(s, s')
    decreases n
  {
    hide Step;
    if n > 0 {
      var l, u :| GoesOn(l) && Step(s, l, u) && Leads(u, n - 1, m);
      LeadsOn(u, n - 1, m, s');
      Go(s, l, u, s');
    }
  }

  lemma Transitive(s: State, m: State, s': State)
    requires CanReach(s, m) && CanReach(m, s')
    ensures CanReach(s, s')
  {
    hide Step;
    var n: nat :| Leads(s, n, m);
    LeadsOn(s, n, m, s');
  }

  lemma GoOn(s: State, m: State, l: Label, s': State)
    requires CanReach(s, m) && GoesOn(l) && Step(m, l, s')
    ensures CanReach(s, s')
  {
    hide Step, CanReach;
    Stay(s');
    Go(m, l, s', s');
    Transitive(s, m, s');
  }

  // ---------------------------------------------------------------- no deadlock

  /** The monitor thread waits for an event and the mutex is free. */
  predicate Quiet(s: State) {
    s.monitor.Waiting? && s.lock == None
  }

  function MonitorRank(pc: MonitorPc): nat {
    match pc
    case Waiting => 0
    case Lowering => 1
    case WantLower => 2
    case Signalling(_) => 3
    case InUser(_, _, _) => 4
    case InOld(_, _, _, _) => 4
    case Chain(_, _) => 5
    case Clearing(_, _) => 6
    case WantClear(_, _) => 7
    case WriteStatus(_, _) => 8
    case Compare(_, _) => 9
    case Calling(_, _, _) => 10
    case LoadData(_, _) => 11
    case LoadCb(_) => 12
    case TestEnable(_) => 13
    case Test(_) => 14
    case Raising(_) => 15
    case WantRaise(_) => 16
  }

  /** How far a call is from giving the mutex back, and beyond that from its end. */
  function CallRank(pc: ClientPc): nat {
    match pc
    case Idle => 0
    case Returning(_) => 1
    case SetWriteData(_) => 2
    case SetWriteCb(_, _) => 3
    case SetChecking(_, _) => 4
    case SetLocking(_, _) => 5
    case SetSleeping(_, _) => 6
    case LockRestoreData(_) => 2
    case LockRestoreCb(_) => 3
    case LockWaiting => 4
    case LockTuning => 5
    case LockWriteData => 6
    case LockWriteCb => 7
    case LockChecking(_) => 8
    case _ => 9
  }

  function Rank(s: State): nat {
    100 * MonitorRank(s.monitor) + 10 * CallRank(Pc(s, 0)) + CallRank(HolderPc(s))
  }

  /** The holder gets on or gives the mutex back; the others stay where they are. */
  predicate HolderMoves(s: State, s': State, u: nat) {
    && s'.monitor == s.monitor && s'.clients == s.clients[u := Pc(s', u)]
    && (s'.lock == s.lock || s'.lock == None)
    && ((u != 0 && s'.lock == None) || CallRank(Pc(s', u)) < CallRank(Pc(s, u)))
  }

  lemma HolderMovesDown(s: State, s': State, u: nat)
    requires s.lock == Some(Client(u)) && Pc(s, u) != Idle && HolderMoves(s, s', u)
    ensures Rank(s') < Rank(s)
  {
    hide MonitorRank;
  }

  lemma HolderIs(s: State, u: nat)
    requires Inv(s) && s.lock == Some(Client(u))
    ensures Holds(Pc(s, u)) && (u == 0 ==> !InLock(Pc(s, u)))
  {
    hide Pairs, Reads, Hits, Stamps;
    OwnsOf(s, u);
  }

  /** Step l takes the holder of the mutex on from s to s'. */
  predicate Takes(s: State, u: nat, l: Label, s': State) {
    GoesOn(l) && Step(s, l, s') && HolderMoves(s, s', u)
  }

  lemma SleepsOn(s: State, u: nat, h: Handler, q: Pointer) returns (l: Label, s': State)
    requires Pc(s, u) == SetChecking(h, q) && !(h == s.cb.handler && q == s.data.pointer) && u != 0 && s.runCb
    ensures Takes(s, u, l, s')
  {
    hide RoundStep, CallStep, LockCbStep, ClientStep, LockStep;
    l, s' := SetSleep(u), Release(s, u, SetSleeping(h, q));
    assert SetStep(s, l, s');
  }

  lemma ChecksOn(s: State, u: nat, h: Handler, q: Pointer) returns (l: Label, s': State)
    requires Pc(s, u) == SetChecking(h, q) && ((h == s.cb.handler && q == s.data.pointer) || u == 0 || !s.runCb)
    ensures Takes(s, u, l, s')
  {
    hide RoundStep, CallStep, LockCbStep, ClientStep, LockStep;
    if h == s.cb.handler && q == s.data.pointer {
      l, s' := SetSame(u), Release(s, u, Returning(0)).(setters := s.setters - {u});
      assert SetStep(s, l, s');
    } else {
      l, s' := SetGo(u), SetPc(s, u, SetWriteCb(h, q));
      assert SetStep(s, l, s');
    }
  }

  lemma WritesOn(s: State, u: nat) returns (l: Label, s': State)
    requires Pc(s, u).SetWriteCb? || Pc(s, u).SetWriteData?
    ensures Takes(s, u, l, s')
  {
    hide RoundStep, CallStep, LockCbStep, ClientStep, LockStep;
    match Pc(s, u)
    case SetWriteCb(h, q) =>
      l, s' := SetCb(u), SetPc(s, u, SetWriteData(q)).(cb := HandlerCell(h, s.clock));
      assert SetStep(s, l, s');
    case SetWriteData(q) =>
      l, s' := SetDone(u), Release(s, u, Returning(0)).(
        data := PointerCell(q, s.clock), clock := s.clock + 1,
        floor := if u != 0 then s.clock else s.floor, setters := s.setters - {u});
      assert SetStep(s, l, s');
  }

  lemma LockSleepsOn(s: State, u: nat, para: Para) returns (l: Label, s': State)
    requires Pc(s, u) == LockChecking(para) && u != 0 && s.runCb
    ensures Takes(s, u, l, s')
  {
    hide RoundStep, CallStep, LockCbStep, ClientStep, SetStep;
    l, s' := LockSleep(u), Release(s, u, LockSleeping(para));
    assert LockStep(s, l, s');
  }

  lemma LockSavesOn(s: State, u: nat, para: Para) returns (l: Label, s': State)
    requires Pc(s, u) == LockChecking(para) && !s.runCb
    ensures Takes(s, u, l, s')
  {
    hide RoundStep, CallStep, LockCbStep, ClientStep, SetStep;
    l := LockSave(u, s.clock);
    s' := SetPc(s, u, LockWriteCb).(record := Record(s.clock, para, s.record.status, s.cb, s.data));
    assert LockStep(s, l, s');
  }

  lemma InstallsOn(s: State, u: nat) returns (l: Label, s': State)
    requires Pc(s, u) == LockWriteCb || Pc(s, u) == LockTuning
    ensures Takes(s, u, l, s')
  {
    hide RoundStep, CallStep, LockCbStep, ClientStep, SetStep;
    if Pc(s, u) == LockWriteCb {
      l, s' := LockCb(u), SetPc(s, u, LockWriteData).(cb := HandlerCell(LockHandler, s.clock));
      assert LockStep(s, l, s');
    } else {
      l, s' := LockTune(u, 0), SetPc(s, u, LockWaiting);
      assert LockStep(s, l, s');
    }
  }

  lemma InstallsData(s: State, u: nat) returns (l: Label, s': State)
    requires Pc(s, u) == LockWriteData
    ensures Takes(s, u, l, s')
  {
    hide RoundStep, CallStep, LockCbStep, ClientStep, SetStep;
    l := LockData(u);
    s' := SetPc(s, u, LockTuning).(
      data := PointerCell(LockRecord(s.record.session), s.clock), clock := s.clock + 1, lockFlag := true);
    assert LockStep(s, l, s');
  }

  lemma LockWaitsOn(s: State, u: nat) returns (l: Label, s': State)
    requires Pc(s, u) == LockWaiting && u != 0
    ensures Takes(s, u, l, s')
  {
    hide RoundStep, CallStep, LockCbStep, ClientStep, SetStep;
    if s.runCb || s.lockFlag {
      l, s' := LockWaitMore(u), Release(s, u, LockSlept);
      assert LockStep(s, l, s');
    } else {
      l, s' := LockWaitOver(u), SetPc(s, u, LockRestoreCb(0));
      assert LockStep(s, l, s');
    }
  }

  lemma RestoresOn(s: State, u: nat, ret: int) returns (l: Label, s': State)
    requires Pc(s, u) == LockRestoreCb(ret)
    ensures Takes(s, u, l, s')
  {
    hide RoundStep, CallStep, LockCbStep, ClientStep, SetStep;
    l, s' := LockRestore(u), SetPc(s, u, LockRestoreData(ret)).(cb := s.record.oldCb);
    assert LockStep(s, l, s');
  }

  lemma LockEndsOn(s: State, u: nat, ret: int) returns (l: Label, s': State)
    requires Pc(s, u) == LockRestoreData(ret)
    ensures Takes(s, u, l, s')
  {
    hide RoundStep, CallStep, LockCbStep, ClientStep, SetStep;
    l, s' := LockDone(u), Release(s, u, Returning(ret)).(data := s.record.oldData, locker := None);
    assert LockStep(s, l, s');
  }

  lemma HolderNext(s: State, u: nat) returns (l: Label, s': State)
    requires Inv(s) && s.lock == Some(Client(u))
    ensures GoesOn(l) && Step(s, l, s') && Rank(s') < Rank(s)
  {
    hide Inv, Step, Rank, HolderMoves, CallRank;
    HolderIs(s, u);
    match Pc(s, u) {
      case SetChecking(h, q) =>
        if (h == s.cb.handler && q == s.data.pointer) || u == 0 || !s.runCb {
          l, s' := ChecksOn(s, u, h, q);
        } else {
          l, s' := SleepsOn(s, u, h, q);
        }
      case SetWriteCb(_, _) => l, s' := WritesOn(s, u);
      case SetWriteData(_) => l, s' := WritesOn(s, u);
      case LockChecking(para) =>
        if s.runCb { l, s' := LockSleepsOn(s, u, para); } else { l, s' := LockSavesOn(s, u, para); }
      case LockWriteCb => l, s' := InstallsOn(s, u);
      case LockWriteData => l, s' := InstallsData(s, u);
      case LockTuning => l, s' := InstallsOn(s, u);
      case LockWaiting => l, s' := LockWaitsOn(s, u);
      case LockRestoreCb(ret) => l, s' := RestoresOn(s, u, ret);
      case LockRestoreData(ret) => l, s' := LockEndsOn(s, u, ret);
    }
    HolderMovesDown(s, s', u);
  }

  // ---------------------------------------------------------------- the monitor thread goes on

  lemma MonitorLockedNext(s: State) returns (l: Label, s': State)
    requires Inv(s) && s.lock == Some(Monitor)
    ensures GoesOn(l) && Step(s, l, s') && Rank(s') < Rank(s)
  {
    hide Pairs, Reads, Hits, Stamps, CallStep, SetStep, LockStep, ClientStep;
    InRoundIff(s);
    match s.monitor {
      case Raising(event) =>
        l := MonRaise;
        s' := s.(runCb := true, lock := None, monitor := if event.Some? then Test(event.value) else WantLower);
        assert RoundStep(s, l, s');
      case Clearing(evt, session) =>
        l, s' := MonClearLock, s.(monitor := Chain(evt, session), lockFlag := false, lock := None);
        assert LockCbStep(s, l, s');
      case Lowering =>
        l, s' := MonLower, s.(runCb := false, lock := None, monitor := Waiting);
        assert RoundStep(s, l, s');
    }
  }

  lemma MonitorTakesMutex(s: State) returns (l: Label, s': State)
    requires s.lock == None && (s.monitor.WantRaise? || s.monitor.WantClear? || s.monitor.WantLower?)
    ensures GoesOn(l) && Step(s, l, s') && Rank(s') < Rank(s)
  {
    hide CallStep, LockCbStep, SetStep, LockStep, ClientStep;
    l, s' := MonLock, s.(lock := Some(Monitor), monitor := MonitorLocked(s.monitor));
    assert RoundStep(s, l, s');
  }

  /** From the test of dev->cb to the call. */
  lemma MonitorCalls(s: State) returns (l: Label, s': State)
    requires s.monitor.Test? || s.monitor.TestEnable? || s.monitor.LoadCb? || s.monitor.LoadData? || s.monitor.Calling?
    ensures GoesOn(l) && CallStep(s, l, s') && s' == s.(monitor := s'.monitor)
    ensures MonitorRank(s'.monitor) < MonitorRank(s.monitor)
  {
    match s.monitor
    case Test(evt) =>
      l, s' := MonTest, s.(monitor := if s.cb.handler.NoHandler? then Signalling(evt) else TestEnable(evt));
    case TestEnable(evt) =>
      l, s' := MonTestEnable, s.(monitor := if s.enabled then LoadCb(evt) else Signalling(evt));
    case LoadCb(evt) =>
      l, s' := MonLoadCb, s.(monitor := LoadData(evt, s.cb));
    case LoadData(evt, cb) =>
      l, s' := MonLoadData, s.(monitor := Calling(evt, cb, s.data));
    case Calling(evt, cb, data) =>
      l, s' := MonCall, s.(monitor :=
        if cb.handler.LockHandler? && data.pointer.LockRecord? then Compare(evt, data.pointer.session)
        else InUser(evt, cb, data));
  }

  /** In the lock callback. */
  lemma LockCallbackGoesOn(s: State) returns (l: Label, s': State)
    requires s.monitor.Compare? || s.monitor.WriteStatus? || s.monitor.Chain?
    ensures GoesOn(l) && LockCbStep(s, l, s') && s'.clients == s.clients && s'.lock == s.lock
    ensures MonitorRank(s'.monitor) < MonitorRank(s.monitor)
  {
    match s.monitor
    case Compare(evt, session) =>
      var hit := ParaEqual(s.mode, evt.para, s.record.para) && evt.status != 0;
      l, s' := MonCompare, s.(monitor := if hit then WriteStatus(evt, session) else Signalling(evt),
                              hits := if hit then s.hits + [Hit(session, s.mode, evt)] else s.hits);
    case WriteStatus(evt, session) =>
      l, s' := MonWriteStatus, s.(monitor := WantClear(evt, session),
                                  record := s.record.(status := evt.status));
    case Chain(evt, session) =>
      l, s' := MonChain, s.(monitor := if s.record.oldCb.handler.NoHandler? then Signalling(evt)
                                       else InOld(evt, session, s.record.oldCb, s.record.oldData));
  }

  /** In a user's callback, unless it is inside an API call of its own. */
  lemma CallbackReturns(s: State) returns (l: Label, s': State)
    requires InCallbacks(s.monitor) && Pc(s, 0) == Idle
    ensures GoesOn(l) && Step(s, l, s') && s' == s.(monitor := s'.monitor)
    ensures MonitorRank(s'.monitor) < MonitorRank(s.monitor)
  {
    hide LockCbStep, SetStep, LockStep, ClientStep;
    if s.monitor.Signalling? {
      l, s' := MonSignalled, s.(monitor := WantLower);
      assert RoundStep(s, l, s');
    } else {
      l, s' := MonUserReturn, s.(monitor := Signalling(s.monitor.evt));
      assert CallStep(s, l, s');
    }
  }

  /** Between a call's end and the callback's next statement, or on the way to the mutex. */
  lemma CallInCallbackWaits(s: State)
    requires Inv(s) && s.lock == None
    ensures Pc(s, 0) == Idle || Pc(s, 0).Returning? || Pc(s, 0).SetSleeping? || Pc(s, 0).SetLocking?
  {
    hide Pairs, Reads, Hits, Stamps;
    OwnsOf(s, 0);
  }

  /** A call made by a callback can go on while nobody holds the mutex. */
  lemma CallInCallbackGoesOn(s: State) returns (l: Label, s': State)
    requires Inv(s) && s.lock == None && Pc(s, 0) != Idle
    ensures GoesOn(l) && Step(s, l, s') && Rank(s') < Rank(s)
  {
    hide Inv, MonitorRank, RoundStep, CallStep, LockCbStep, SetStep, LockStep;
    CallInCallbackWaits(s);
    match Pc(s, 0) {
      case Returning(_) =>
        l, s' := Return(0), SetPc(s, 0, Idle);
        assert ClientStep(s, l, s');
      case SetSleeping(h, q) =>
        l, s' := Wake(0), SetPc(s, 0, SetLocking(h, q));
        assert ClientStep(s, l, s');
      case SetLocking(h, q) =>
        l, s' := Acquire(0), SetPc(s, 0, SetChecking(h, q)).(lock := Some(Client(0)));
        assert ClientStep(s, l, s');
    }
  }

  /** Unless the monitor thread waits for an event and the mutex is free, somebody can go on. */
  lemma Next(s: State) returns (l: Label, s': State)
    requires Inv(s) && !Quiet(s)
    ensures GoesOn(l) && Step(s, l, s') && Rank(s') < Rank(s)
  {
    hide Inv, RoundStep, CallStep, LockCbStep, SetStep, LockStep, ClientStep, CallRank;
    var pc := s.monitor;
    if s.lock.Some? {
      match s.lock.value
      case Client(u) => l, s' := HolderNext(s, u);
      case Monitor => l, s' := MonitorLockedNext(s);
    } else if pc.WantRaise? || pc.WantClear? || pc.WantLower? {
      l, s' := MonitorTakesMutex(s);
    } else if pc.Compare? || pc.WriteStatus? || pc.Chain? {
      l, s' := LockCallbackGoesOn(s);
    } else if InCallbacks(pc) {
      if Pc(s, 0) == Idle { l, s' := CallbackReturns(s); } else { l, s' := CallInCallbackGoesOn(s); }
    } else {
      MutexIsHeld(s);
      l, s' := MonitorCalls(s);
    }
  }

  lemma MutexIsHeld(s: State)
    requires Inv(s) && s.lock == None
    ensures !MonitorHolds(s.monitor)
  {
    InRoundIff(s);
  }

  /**
   No deadlock: whatever the threads are doing, without any new event they can get to where the
   monitor thread waits for one and nobody holds the mutex.
   */
  lemma {:induction false} CanSettle(s: State)
    requires Inv(s)
    ensures exists q :: CanReach(s, q) && Quiet(q)
    decreases Rank(s)
  {
    hide Inv, Step, Rank, CanReach;
    if Quiet(s) {
      Stay(s);
    } else {
      var l, s' := Next(s);
      InvStep(s, l, s');
      CanSettle(s');
      var q :| CanReach(s', q) && Quiet(q);
      Go(s, l, s', q);
    }
  }

  // ---------------------------------------------------------------- AM_FEND_SetCallback comes to its end

  /** Thread t has returned with success from AM_FEND_SetCallback(h, q). */
  predicate HasSet(s: State, t: nat, h: Handler, q: Pointer) {
    Pc(s, t) == Returning(0) && s.cb.handler == h && s.data.pointer == q
  }

  lemma TakesMutex(s: State, t: nat, h: Handler, q: Pointer)
    requires s.lock == None && (Pc(s, t) == SetLocking(h, q) || Pc(s, t) == SetSleeping(h, q))
    ensures CanReach(s, SetPc(s, t, SetChecking(h, q)).(lock := Some(Client(t))))
  {
    hide RoundStep, CallStep, LockCbStep, SetStep, LockStep, CanReach;
    Stay(s);
    var m := SetPc(s, t, SetLocking(h, q));
    if Pc(s, t) == SetSleeping(h, q) {
      assert ClientStep(s, Wake(t), m);
      GoOn(s, s, Wake(t), m);
    } else {
      assert m == s;
    }
    var s' := SetPc(s, t, SetChecking(h, q)).(lock := Some(Client(t)));
    assert ClientStep(m, Acquire(t), s');
    GoOn(s, m, Acquire(t), s');
  }

  lemma WritesPair(s: State, t: nat, h: Handler, q: Pointer) returns (s': State)
    requires Pc(s, t) == SetChecking(h, q) && !s.runCb
    ensures CanReach(s, s') && HasSet(s', t, h, q)
  {
    hide RoundStep, CallStep, LockCbStep, LockStep, ClientStep, CanReach;
    Stay(s);
    if h == s.cb.handler && q == s.data.pointer {
      s' := Release(s, t, Returning(0)).(setters := s.setters - {t});
      assert SetStep(s, SetSame(t), s');
      GoOn(s, s, SetSame(t), s');
    } else {
      var m := SetPc(s, t, SetWriteCb(h, q));
      assert SetStep(s, SetGo(t), m);
      GoOn(s, s, SetGo(t), m);
      s' := WritesBoth(m, t, h, q);
      Transitive(s, m, s');
    }
  }

  lemma WritesBoth(s: State, t: nat, h: Handler, q: Pointer) returns (s': State)
    requires Pc(s, t) == SetWriteCb(h, q)
    ensures CanReach(s, s') && HasSet(s', t, h, q)
  {
    hide RoundStep, CallStep, LockCbStep, LockStep, ClientStep, CanReach;
    Stay(s);
    var m := SetPc(s, t, SetWriteData(q)).(cb := HandlerCell(h, s.clock));
    assert SetStep(s, SetCb(t), m);
    GoOn(s, s, SetCb(t), m);
    s' := Release(m, t, Returning(0)).(
      data := PointerCell(q, m.clock), clock := m.clock + 1,
      floor := if t != 0 then m.clock else m.floor, setters := m.setters - {t});
    assert SetStep(m, SetDone(t), s');
    GoOn(s, m, SetDone(t), s');
  }

  lemma QuietSets(s: State, t: nat, h: Handler, q: Pointer) returns (s': State)
    requires Inv(s) && Quiet(s) && Setting(s, t, h, q)
    ensures CanReach(s, s') && HasSet(s', t, h, q)
  {
    hide Pairs, Reads, Hits, Stamps, CanReach;
    OwnsOf(s, t);
    InRoundIff(s);
    TakesMutex(s, t, h, q);
    var m := SetPc(s, t, SetChecking(h, q)).(lock := Some(Client(t)));
    s' := WritesPair(m, t, h, q);
    Transitive(s, m, s');
  }

  /** An AM_FEND_SetCallback under way can always come to its end, with its pair registered. */
  lemma {:induction false} SetCanFinish(s: State, t: nat, h: Handler, q: Pointer)
    requires Inv(s) && Setting(s, t, h, q)
    ensures exists s' :: CanReach(s, s') && HasSet(s', t, h, q)
    decreases Rank(s)
  {
    hide Inv, Step, Rank, CanReach, Setting;
    if Quiet(s) {
      var s' := QuietSets(s, t, h, q);
    } else {
      var l, m := Next(s);
      if EndsSet(l, t) {
        EndRegisters(s, l, m, t, h, q);
        Stay(m);
        Go(s, l, m, m);
      } else {
        InvStep(s, l, m);
        SettingStep(s, l, m, t, h, q);
        SetCanFinish(m, t, h, q);
        var s' :| CanReach(m, s') && HasSet(s', t, h, q);
        Go(s, l, m, s');
      }
    }
  }

  // ---------------------------------------------------------------- what an event leads to

  lemma RoundBegins(s: State, evt: Event)
    requires s.monitor == WantRaise(Some(evt)) && s.lock == None
    ensures CanReach(s, s.(monitor := Test(evt), runCb := true))
  {
    hide CallStep, LockCbStep, SetStep, LockStep, ClientStep, CanReach;
    Stay(s);
    var m := s.(monitor := Raising(Some(evt)), lock := Some(Monitor));
    assert RoundStep(s, MonLock, m);
    GoOn(s, s, MonLock, m);
    var s' := s.(monitor := Test(evt), runCb := true);
    assert RoundStep(m, MonRaise, s');
    GoOn(s, m, MonRaise, s');
  }

  lemma TestsPass(s: State, evt: Event)
    requires s.monitor == Test(evt) && s.enabled && !s.cb.handler.NoHandler?
    ensures CanReach(s, s.(monitor := LoadCb(evt)))
  {
    hide RoundStep, LockCbStep, SetStep, LockStep, ClientStep, CanReach;
    Stay(s);
    var m, s' := s.(monitor := TestEnable(evt)), s.(monitor := LoadCb(evt));
    assert CallStep(s, MonTest, m) && CallStep(m, MonTestEnable, s');
    GoOn(s, s, MonTest, m);
    GoOn(s, m, MonTestEnable, s');
  }

  lemma PairIsLoaded(s: State, evt: Event)
    requires s.monitor == LoadCb(evt)
    ensures CanReach(s, s.(monitor := Calling(evt, s.cb, s.data)))
  {
    hide RoundStep, LockCbStep, SetStep, LockStep, ClientStep, CanReach;
    Stay(s);
    var m, s' := s.(monitor := LoadData(evt, s.cb)), s.(monitor := Calling(evt, s.cb, s.data));
    assert CallStep(s, MonLoadCb, m) && CallStep(m, MonLoadData, s');
    GoOn(s, s, MonLoadCb, m);
    GoOn(s, m, MonLoadData, s');
  }

  /** From the event to the call through the registered pair. */
  lemma EventIsCalled(s: State, evt: Event)
    requires s.monitor == WantRaise(Some(evt)) && s.lock == None && s.enabled && !s.cb.handler.NoHandler?
    ensures CanReach(s, s.(monitor := Calling(evt, s.cb, s.data), runCb := true))
  {
    hide CanReach;
    var m := s.(monitor := Test(evt), runCb := true);
    RoundBegins(s, evt);
    TestsPass(m, evt);
    PairIsLoaded(m.(monitor := LoadCb(evt)), evt);
    Transitive(m, m.(monitor := LoadCb(evt)), m.(monitor := Calling(evt, m.cb, m.data)));
    Transitive(s, m, m.(monitor := Calling(evt, m.cb, m.data)));
  }

  lemma CallEnds(s: State)
    requires (s.monitor.InUser? || s.monitor.InOld?) && Pc(s, 0) == Idle
    ensures CanReach(s, s.(monitor := Signalling(s.monitor.evt)))
  {
    hide RoundStep, LockCbStep, SetStep, LockStep, ClientStep, CanReach;
    Stay(s);
    var s' := s.(monitor := Signalling(s.monitor.evt));
    assert CallStep(s, MonUserReturn, s');
    GoOn(s, s, MonUserReturn, s');
  }

  lemma FlagFalls(s: State)
    requires s.monitor == WantLower && s.lock == None
    ensures CanReach(s, s.(monitor := Waiting, runCb := false))
  {
    hide CallStep, LockCbStep, SetStep, LockStep, ClientStep, CanReach;
    Stay(s);
    var m, s' := s.(monitor := Lowering, lock := Some(Monitor)), s.(monitor := Waiting, runCb := false);
    assert RoundStep(s, MonLock, m) && RoundStep(m, MonLower, s');
    GoOn(s, s, MonLock, m);
    GoOn(s, m, MonLower, s');
  }

  lemma RoundEnds(s: State)
    requires s.monitor.Signalling? && Pc(s, 0) == Idle && s.lock == None
    ensures CanReach(s, s.(monitor := Waiting, runCb := false))
  {
    hide CallStep, LockCbStep, SetStep, LockStep, ClientStep, CanReach;
    Stay(s);
    var m := s.(monitor := WantLower);
    assert RoundStep(s, MonSignalled, m);
    GoOn(s, s, MonSignalled, m);
    FlagFalls(m);
    Transitive(s, m, s.(monitor := Waiting, runCb := false));
  }

  /** From the call back to waiting, where nothing but the status has to have been written. */
  lemma CallAndRoundEnd(s: State)
    requires InCallbacks(s.monitor) && Pc(s, 0) == Idle && s.lock == None
    ensures CanReach(s, s.(monitor := Waiting, runCb := false))
  {
    hide CanReach;
    Stay(s);
    var m := s.(monitor := Signalling(s.monitor.evt));
    if s.monitor.Signalling? { assert m == s; } else { CallEnds(s); }
    RoundEnds(m);
    Transitive(s, m, s.(monitor := Waiting, runCb := false));
  }

  lemma EventArrives(s: State, event: Option<Event>, s': State)
    requires Step(s, MonEvent(event), s')
    ensures s' == s.(monitor := WantRaise(event))
  {
  }

  /**
   An event that arrives while callbacks are on and a user's handler is registered gets to that
   handler, with the argument registered for it, and the round comes to its end.
   */
  lemma EventReachesUser(s: State, evt: Event, s1: State)
    requires Inv(s) && Quiet(s) && s.enabled && s.cb.handler.UserHandler?
    requires Step(s, MonEvent(Some(evt)), s1)
    ensures var called := s1.(monitor := InUser(evt, s.cb, s.data), runCb := true);
            CanReach(s1, called) && CanReach(called, s)
  {
    hide CanReach, LockCbStep, SetStep, LockStep, ClientStep, Pairs, Reads, Hits, Stamps;
    EventArrives(s, Some(evt), s1);
    var m := s1.(monitor := Calling(evt, s.cb, s.data), runCb := true);
    EventIsCalled(s1, evt);
    var called := s1.(monitor := InUser(evt, s.cb, s.data), runCb := true);
    assert CallStep(m, MonCall, called);
    GoOn(s1, m, MonCall, called);
    InRoundIff(s);
    CallAndRoundEnd(called);
    assert s == called.(monitor := Waiting, runCb := false);
  }

  // ---------------------------------------------------------------- an event ends AM_FEND_Lock

  lemma HitIsTaken(s: State, evt: Event, session: nat)
    requires s.monitor == Compare(evt, session)
    requires ParaEqual(s.mode, evt.para, s.record.para) && evt.status != 0
    ensures CanReach(s, s.(monitor := WantClear(evt, session), hits := s.hits + [Hit(session, s.mode, evt)],
                           record := s.record.(status := evt.status)))
  {
    hide RoundStep, CallStep, SetStep, LockStep, ClientStep, CanReach, ParaEqual;
    Stay(s);
    var m := s.(monitor := WriteStatus(evt, session), hits := s.hits + [Hit(session, s.mode, evt)]);
    assert LockCbStep(s, MonCompare, m);
    GoOn(s, s, MonCompare, m);
    var s' := m.(monitor := WantClear(evt, session), record := m.record.(status := evt.status));
    assert LockCbStep(m, MonWriteStatus, s');
    GoOn(s, m, MonWriteStatus, s');
  }

  lemma FlagIsCleared(s: State, evt: Event, session: nat)
    requires s.monitor == WantClear(evt, session) && s.lock == None
    ensures CanReach(s, s.(monitor := Chain(evt, session), lockFlag := false))
  {
    hide CallStep, SetStep, LockStep, ClientStep, CanReach;
    Stay(s);
    var m := s.(monitor := Clearing(evt, session), lock := Some(Monitor));
    var s' := s.(monitor := Chain(evt, session), lockFlag := false);
    assert RoundStep(s, MonLock, m) && LockCbStep(m, MonClearLock, s');
    GoOn(s, s, MonLock, m);
    GoOn(s, m, MonClearLock, s');
  }

  /** The old callback, if there was one, gets the event too, with the argument registered for it. */
  function Chained(s: State, evt: Event, session: nat): State {
    s.(monitor := if s.record.oldCb.handler.NoHandler? then Signalling(evt)
                  else InOld(evt, session, s.record.oldCb, s.record.oldData))
  }

  lemma OldIsCalled(s: State, evt: Event, session: nat)
    requires s.monitor == Chain(evt, session)
    ensures CanReach(s, Chained(s, evt, session))
  {
    hide RoundStep, CallStep, SetStep, LockStep, ClientStep, CanReach;
    Stay(s);
    assert LockCbStep(s, MonChain, Chained(s, evt, session));
    GoOn(s, s, MonChain, Chained(s, evt, session));
  }

  /** From the call of the lock callback to the call of the one it stands for. */
  lemma LockCallbackRuns(s: State, evt: Event, session: nat)
    requires s.monitor.Calling? && s.monitor.evt == evt && s.lock == None
    requires s.monitor.cb.handler == LockHandler && s.monitor.data.pointer == LockRecord(session)
    requires ParaEqual(s.mode, evt.para, s.record.para) && evt.status != 0
    ensures CanReach(s, Chained(s.(hits := s.hits + [Hit(session, s.mode, evt)], lockFlag := false,
                                   record := s.record.(status := evt.status)), evt, session))
  {
    hide RoundStep, LockCbStep, SetStep, LockStep, ClientStep, CanReach, ParaEqual;
    Stay(s);
    var c := s.(monitor := Compare(evt, session));
    assert CallStep(s, MonCall, c);
    GoOn(s, s, MonCall, c);
    HitIsTaken(c, evt, session);
    var w := c.(monitor := WantClear(evt, session), hits := c.hits + [Hit(session, c.mode, evt)],
                record := c.record.(status := evt.status));
    FlagIsCleared(w, evt, session);
    var d := w.(monitor := Chain(evt, session), lockFlag := false);
    OldIsCalled(d, evt, session);
    Transitive(s, c, w);
    Transitive(s, w, d);
    Transitive(s, d, Chained(d, evt, session));
  }

  lemma LockWakes(s: State, t: nat)
    requires s.lock == None && (Pc(s, t) == LockSlept || Pc(s, t) == LockReacquire)
    ensures CanReach(s, SetPc(s, t, LockWaiting).(lock := Some(Client(t))))
  {
    hide RoundStep, CallStep, LockCbStep, SetStep, LockStep, CanReach;
    Stay(s);
    var m := SetPc(s, t, LockReacquire);
    if Pc(s, t) == LockSlept {
      assert ClientStep(s, Wake(t), m);
      GoOn(s, s, Wake(t), m);
    } else {
      assert m == s;
    }
    var s' := SetPc(s, t, LockWaiting).(lock := Some(Client(t)));
    assert ClientStep(m, Acquire(t), s');
    GoOn(s, m, Acquire(t), s');
  }

  /** Thread t has returned with success from AM_FEND_Lock, the pair saved in the record being registered again. */
  function LockReturned(s: State, t: nat): State {
    Release(s, t, Returning(0)).(cb := s.record.oldCb, data := s.record.oldData, locker := None)
  }

  lemma LockGivesBack(s: State, t: nat)
    requires Pc(s, t) == LockWaiting && !s.runCb && !s.lockFlag
    ensures CanReach(s, LockReturned(s, t))
  {
    hide RoundStep, CallStep, LockCbStep, SetStep, ClientStep, CanReach;
    Stay(s);
    var m := SetPc(s, t, LockRestoreCb(0));
    assert LockStep(s, LockWaitOver(t), m);
    GoOn(s, s, LockWaitOver(t), m);
    LockRestores(m, t);
    Transitive(s, m, LockReturned(m, t));
    assert LockReturned(m, t) == LockReturned(s, t);
  }

  lemma LockRestores(s: State, t: nat)
    requires Pc(s, t) == LockRestoreCb(0)
    ensures CanReach(s, LockReturned(s, t))
  {
    hide RoundStep, CallStep, LockCbStep, SetStep, ClientStep, CanReach;
    Stay(s);
    var m := SetPc(s, t, LockRestoreData(0)).(cb := s.record.oldCb);
    assert LockStep(s, LockRestore(t), m);
    GoOn(s, s, LockRestore(t), m);
    assert LockStep(m, LockDone(t), LockReturned(s, t));
    GoOn(s, m, LockDone(t), LockReturned(s, t));
  }

  /** An AM_FEND_Lock that waits can end as soon as its flag is cleared and the round over. */
  lemma LockCanEnd(s: State, t: nat)
    requires s.lock == None && (Pc(s, t) == LockSlept || Pc(s, t) == LockReacquire) && !s.runCb && !s.lockFlag
    ensures CanReach(s, LockReturned(s, t))
  {
    hide CanReach;
    var m := SetPc(s, t, LockWaiting).(lock := Some(Client(t)));
    LockWakes(s, t);
    LockGivesBack(m, t);
    Transitive(s, m, LockReturned(m, t));
    assert LockReturned(m, t) == LockReturned(s, t);
  }

  /**
   While AM_FEND_Lock waits, an event with its parameters and a status other than zero, delivered with
   callbacks on, reaches the callback that was registered before, with its argument, and lets the call
   return with success, that status, and the former pair registered again.
   */
  lemma EventEndsLock(s: State, t: nat, evt: Event, s1: State) returns (called: State, s2: State)
    requires Inv(s) && Quiet(s) && s.enabled && AwaitsEvent(Pc(s, t))
    requires ParaEqual(s.mode, evt.para, s.record.para) && evt.status != 0
    requires Step(s, MonEvent(Some(evt)), s1)
    ensures CanReach(s1, called) && CanReach(called, s2)
    ensures s.entry.0.handler.NoHandler? || called.monitor == InOld(evt, s.record.session, s.entry.0, s.entry.1)
    ensures Quiet(s2) && Pc(s2, t) == Returning(0) && s2.record.status == evt.status
    ensures (s2.cb, s2.data) == s.entry
  {
    hide CanReach, Step, ParaEqual;
    EventArrives(s, Some(evt), s1);
    AwaitingLock(s, t);
    EventIsCalled(s1, evt);
    var session := s.record.session;
    var m := s1.(monitor := Calling(evt, s.cb, s.data), runCb := true);
    LockCallbackRuns(m, evt, session);
    called := Chained(m.(hits := m.hits + [Hit(session, m.mode, evt)], lockFlag := false,
                         record := m.record.(status := evt.status)), evt, session);
    Transitive(s1, m, called);
    CallAndRoundEnd(called);
    var w := called.(monitor := Waiting, runCb := false);
    LockCanEnd(w, t);
    s2 := LockReturned(w, t);
    Transitive(called, w, s2);
  }

  lemma AwaitingLock(s: State, t: nat)
    requires Inv(s) && Quiet(s) && AwaitsEvent(Pc(s, t))
    ensures Pc(s, t) == LockSlept || Pc(s, t) == LockReacquire
    ensures s.cb.handler == LockHandler && s.data.pointer == LockRecord(s.record.session)
    ensures Pc(s, 0) == Idle && (s.record.oldCb, s.record.oldData) == s.entry && !s.runCb
  {
    hide Reads, Hits, Stamps;
    OwnsOf(s, t);
    InRoundIff(s);
  }

  // ---------------------------------------------------------------- what AM_FEND_Lock returns

  /** Thread t's set_para has returned ret. */
  predicate Tuned(s: State, t: nat, ret: int) {
    var pc := Pc(s, t);
    pc == LockRestoreCb(ret) || pc == LockRestoreData(ret) || (ret == 0 && AwaitsEvent(pc))
  }

  lemma TunedStep(s: State, l: Label, s': State, t: nat, ret: int)
    requires Inv(s) && Step(s, l, s') && s.locker == Some(t) && Tuned(s, t, ret) && l != LockDone(t)
    ensures Tuned(s', t, ret)
  {
    hide RoundStep, CallStep, LockCbStep, SetStep, Inv;
    DuringLock(s, l, s', t);
    if RoundStep(s, l, s') || CallStep(s, l, s') || LockCbStep(s, l, s') { MonitorChangesOnly(s, l, s'); }
  }

  lemma TuneTunes(s: State, t: nat, ret: int, s': State)
    requires Inv(s) && Step(s, LockTune(t, ret), s')
    ensures s.locker == Some(t) && Tuned(s', t, ret) && s'.locker == Some(t)
  {
    hide Pairs, Reads, Hits, Stamps;
    OwnsOf(s, t);
  }

  lemma {:induction false} TunedKept(b: Behaviour, j: nat, m: nat, t: nat, ret: int)
    requires IsRun(b) && j < m <= |b.labels| && b.labels[j] == LockTune(t, ret) && NotDone(b, j, m, t)
    ensures b.states[m].locker == Some(t) && Tuned(b.states[m], t, ret)
  {
    hide Init, Step, Inv, Tuned;
    InvAlways(b, m - 1);
    if m == j + 1 {
      TuneTunes(b.states[j], t, ret, b.states[m]);
    } else {
      TunedKept(b, j, m - 1, t, ret);
      TunedStep(b.states[m - 1], b.labels[m - 1], b.states[m], t, ret);
      EntryStep(b.states[m - 1], b.labels[m - 1], b.states[m], t);
    }
  }

  lemma TunedReturns(s: State, t: nat, s': State, ret: int)
    requires Step(s, LockDone(t), s') && Tuned(s, t, ret)
    ensures Pc(s', t) == Returning(ret)
  {
  }

  /** AM_FEND_Lock returns what the driver's set_para has returned. */
  lemma LockReturnsTuneResult(b: Behaviour, j: nat, i: nat, t: nat, ret: int)
    requires IsRun(b) && j < i < |b.labels|
    requires b.labels[j] == LockTune(t, ret) && b.labels[i] == LockDone(t) && NotDone(b, j, i, t)
    ensures Pc(b.states[i + 1], t) == Returning(ret)
  {
    hide Init, Step, Inv, Tuned;
    TunedKept(b, j, i, t, ret);
    TunedReturns(b.states[i], t, b.states[i + 1], ret);
  }

  // ---------------------------------------------------------------- the settings

  /** enable_cb and curr_mode are what the last call set them to. */
  lemma SettingsStep(s: State, l: Label, s': State)
    requires Step(s, l, s')
    ensures s'.enabled == if l.Action? then l.enable else s.enabled
    ensures s'.mode == if l.ChangeMode? then l.mode else s.mode
  {
    hide RoundStep, CallStep, LockCbStep, SetStep, LockStep, ClientStep;
    if RoundStep(s, l, s') || CallStep(s, l, s') || LockCbStep(s, l, s') { MonitorSettings(s, l, s'); }
    if SetStep(s, l, s') || LockStep(s, l, s') || ClientStep(s, l, s') { CallSettings(s, l, s'); }
  }

  lemma MonitorSettings(s: State, l: Label, s': State)
    requires RoundStep(s, l, s') || CallStep(s, l, s') || LockCbStep(s, l, s')
    ensures s'.enabled == if l.Action? then l.enable else s.enabled
    ensures s'.mode == if l.ChangeMode? then l.mode else s.mode
  {
  }

  lemma CallSettings(s: State, l: Label, s': State)
    requires SetStep(s, l, s') || LockStep(s, l, s') || ClientStep(s, l, s')
    ensures s'.enabled == s.enabled && s'.mode == s.mode && !l.Action? && !l.ChangeMode?
  {
    hide SetStep, LockStep, ClientStep;
    if SetStep(s, l, s') { SetSettings(s, l, s'); }
    if LockStep(s, l, s') { LockSettings(s, l, s'); }
    if ClientStep(s, l, s') { ClientSettings(s, l, s'); }
  }

  lemma SetSettings(s: State, l: Label, s': State)
    requires SetStep(s, l, s')
    ensures s'.enabled == s.enabled && s'.mode == s.mode && !l.Action? && !l.ChangeMode?
  {
  }

  lemma LockSettings(s: State, l: Label, s': State)
    requires LockStep(s, l, s')
    ensures s'.enabled == s.enabled && s'.mode == s.mode && !l.Action? && !l.ChangeMode?
  {
  }

  lemma ClientSettings(s: State, l: Label, s': State)
    requires ClientStep(s, l, s')
    ensures s'.enabled == s.enabled && s'.mode == s.mode && !l.Action? && !l.ChangeMode?
  {
  }

  /** No AM_FEND_SetActionCallback between the steps lo and hi. */
  predicate NotSwitched(b: Behaviour, lo: nat, hi: nat) {
    forall k :: lo < k < hi && k < |b.labels| ==> !b.labels[k].Action?
  }

  lemma {:induction false} SwitchKept(b: Behaviour, i: nat, m: nat, enable: bool)
    requires IsRun(b) && i < m <= |b.labels| && b.labels[i] == Action(enable) && NotSwitched(b, i, m)
    ensures b.states[m].enabled == enable
  {
    hide Init, Step;
    SettingsStep(b.states[m - 1], b.labels[m - 1], b.states[m]);
    if m > i + 1 { SwitchKept(b, i, m - 1, enable); }
  }

  /** After AM_FEND_SetActionCallback(enable) the monitor thread goes on to the call exactly if enable. */
  lemma SwitchDecides(b: Behaviour, i: nat, m: nat, enable: bool)
    requires IsRun(b) && i < m < |b.labels| && b.labels[i] == Action(enable) && NotSwitched(b, i, m)
    requires b.labels[m] == MonTestEnable
    ensures b.states[m + 1].monitor.LoadCb? <==> enable
    ensures b.states[m + 1].monitor.Signalling? <==> !enable
  {
    hide Init, Step;
    SwitchKept(b, i, m, enable);
    TestedEnable(b.states[m], b.states[m + 1]);
  }

  lemma TestedEnable(s: State, s': State)
    requires Step(s, MonTestEnable, s')
    ensures s'.monitor == if s.enabled then LoadCb(s.monitor.evt) else Signalling(s.monitor.evt)
  {
  }
}
