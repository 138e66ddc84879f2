/**
 The frontend's callback and lock protocol, step by step: one monitor thread that reads the
 registered callback without the mutex, any number of API threads, one AM_FEND_Lock at a time
 and no AM_FEND_SetCallback during one.
 */
module FendProtocol {
  import opened Bytes

  // ---------------------------------------------------------------- parameters

  datatype FeType = Qpsk | Qam | Ofdm | Atsc | Analog | Dtmb | Isdbt | Unknown

  /** Frequency and the views of the union that the comparison looks at. */
  datatype Para = Para(frequency: int, qpskRate: int, qamRate: int, qamModulation: int, vsbModulation: int)

  /** fend_para_equal */
  predicate ParaEqual(mode: FeType, p: Para, q: Para) {
    && p.frequency == q.frequency
    && match mode
       case Qpsk => p.qpskRate == q.qpskRate
       case Qam => p.qamRate == q.qamRate && p.qamModulation == q.qamModulation
       case Atsc => p.vsbModulation == q.vsbModulation
       case Unknown => false
       case _ => true
  }

  /** The frequency always matters, every other field in its own mode only; in an unknown mode nothing is equal. */
  lemma ParaEqualIff(mode: FeType, p: Para, q: Para)
    ensures ParaEqual(mode, p, q)
       <==> mode != Unknown
            && p == q.(qpskRate := if mode == Qpsk then q.qpskRate else p.qpskRate,
                       qamRate := if mode == Qam then q.qamRate else p.qamRate,
                       qamModulation := if mode == Qam then q.qamModulation else p.qamModulation,
                       vsbModulation := if mode == Atsc then q.vsbModulation else p.vsbModulation)
  {
  }

  // ---------------------------------------------------------------- state

  datatype Handler = NoHandler | UserHandler(id: nat) | LockHandler

  datatype Pointer = UserPointer(id: nat) | LockRecord(session: nat)

  /** What a callback field holds, and the number of the installation that wrote it. */
  datatype HandlerCell = HandlerCell(handler: Handler, stamp: nat)
  datatype PointerCell = PointerCell(pointer: Pointer, stamp: nat)

  datatype Event = Event(para: Para, status: int)

  /** fend_lock_para_t, on the stack of AM_FEND_Lock, with the caller's *status in it. */
  datatype Record = Record(session: nat, para: Para, status: int, oldCb: HandlerCell, oldData: PointerCell)

  /** A delivered event that made the lock callback write *status. */
  datatype Hit = Hit(session: nat, mode: FeType, event: Event)

  datatype ClientPc =
    | Idle
    | SetLocking(handler: Handler, pointer: Pointer)
    | SetChecking(handler: Handler, pointer: Pointer)
    | SetSleeping(handler: Handler, pointer: Pointer)
    | SetWriteCb(handler: Handler, pointer: Pointer)
    | SetWriteData(pointer: Pointer)
    | LockLocking(para: Para)
    | LockChecking(para: Para)
    | LockSleeping(para: Para)
    | LockWriteCb
    | LockWriteData
    | LockTuning
    | LockWaiting
    | LockSlept
    | LockReacquire
    | LockRestoreCb(ret: int)
    | LockRestoreData(ret: int)
    | Returning(ret: int)

  datatype MonitorPc =
    | Waiting
    | WantRaise(event: Option<Event>)
    | Raising(event: Option<Event>)
    | Test(evt: Event)
    | TestEnable(evt: Event)
    | LoadCb(evt: Event)
    | LoadData(evt: Event, cb: HandlerCell)
    | Calling(evt: Event, cb: HandlerCell, data: PointerCell)
    | InUser(evt: Event, cb: HandlerCell, data: PointerCell)
    | Compare(evt: Event, session: nat)
    | WriteStatus(evt: Event, session: nat)
    | WantClear(evt: Event, session: nat)
    | Clearing(evt: Event, session: nat)
    | Chain(evt: Event, session: nat)
    | InOld(evt: Event, session: nat, cb: HandlerCell, data: PointerCell)
    | Signalling(evt: Event)
    | WantLower
    | Lowering

  datatype Owner = Monitor | Client(thread: nat)

  datatype State = State(
    cb: HandlerCell,
    data: PointerCell,
    enabled: bool,            // enable_cb
    mode: FeType,             // curr_mode
    runCb: bool,              // FEND_FL_RUN_CB
    lockFlag: bool,           // FEND_FL_LOCK
    lock: Option<Owner>,
    monitor: MonitorPc,
    clients: map<nat, ClientPc>,
    // bookkeeping of the model
    clock: nat,               // number of the next installation
    floor: nat,               // last installation by AM_FEND_SetCallback outside the monitor thread
    record: Record,
    hits: seq<Hit>,
    locker: Option<nat>,      // the thread inside AM_FEND_Lock
    setters: set<nat>,        // the threads inside AM_FEND_SetCallback
    entry: (HandlerCell, PointerCell))  // the pair registered when AM_FEND_Lock was entered

  datatype Label =
    | MonEvent(event: Option<Event>)
    | MonLock
    | MonRaise
    | MonTest
    | MonTestEnable
    | MonLoadCb
    | MonLoadData
    | MonCall
    | MonUserReturn
    | MonCompare
    | MonWriteStatus
    | MonClearLock
    | MonChain
    | MonSignalled
    | MonLower
    | Action(enable: bool)               // AM_FEND_SetActionCallback
    | ChangeMode(mode: FeType)
    | EnterSet(thread: nat, handler: Handler, pointer: Pointer)
    | EnterLock(thread: nat, para: Para)
    | Acquire(thread: nat)
    | SetSame(thread: nat)
    | SetSleep(thread: nat)
    | SetGo(thread: nat)
    | SetCb(thread: nat)
    | SetDone(thread: nat)
    | LockSleep(thread: nat)
    | LockSave(thread: nat, session: nat)
    | LockCb(thread: nat)
    | LockData(thread: nat)
    | LockTune(thread: nat, ret: int)
    | LockWaitMore(thread: nat)
    | LockWaitOver(thread: nat)
    | LockRestore(thread: nat)
    | LockDone(thread: nat)
    | Wake(thread: nat)
    | Return(thread: nat)

  function Pc(s: State, t: nat): ClientPc {
    if t in s.clients then s.clients[t] else Idle
  }

  function SetPc(s: State, t: nat, pc: ClientPc): State {
    s.(clients := s.clients[t := pc])
  }

  function Release(s: State, t: nat, pc: ClientPc): State {
    SetPc(s, t, pc).(lock := None)
  }

  predicate Init(s: State) {
    && !s.runCb && s.lock == None && s.monitor == Waiting
    && s.clients == map[] && s.locker == None && s.setters == {}
    && s.cb.stamp == s.data.stamp < s.clock && s.floor == 0
    && !s.cb.handler.LockHandler? && s.data.pointer.UserPointer?
    && s.hits == []
  }

  // ---------------------------------------------------------------- steps

  /** Where the monitor thread goes on with the mutex it was waiting for. */
  function MonitorLocked(pc: MonitorPc): MonitorPc {
    match pc
    case WantRaise(event) => Raising(event)
    case WantClear(evt, session) => Clearing(evt, session)
    case WantLower => Lowering
    case _ => pc
  }

  /** The frame of a round and the settings. */
  predicate RoundStep(s: State, l: Label, s': State) {
    match l
    case MonEvent(event) =>
      s.monitor.Waiting? && s' == s.(monitor := WantRaise(event))
    case MonLock =>
      && s.lock == None && MonitorLocked(s.monitor) != s.monitor
      && s' == s.(lock := Some(Monitor), monitor := MonitorLocked(s.monitor))
    case MonRaise =>
      && s.monitor.Raising?
      && s' == s.(runCb := true, lock := None,
                  monitor := if s.monitor.event.Some? then Test(s.monitor.event.value) else WantLower)
    case MonSignalled =>
      s.monitor.Signalling? && Pc(s, 0) == Idle && s' == s.(monitor := WantLower)
    case MonLower =>
      s.monitor.Lowering? && s' == s.(runCb := false, lock := None, monitor := Waiting)
    case Action(enable) => s' == s.(enabled := enable)
    case ChangeMode(mode) => s' == s.(mode := mode)
    case _ => false
  }

  /** From the test of dev->cb to the call through it, reading the fields one at a time. */
  predicate CallStep(s: State, l: Label, s': State) {
    match l
    case MonTest =>
      && s.monitor.Test?
      && s' == s.(monitor := if s.cb.handler.NoHandler? then Signalling(s.monitor.evt)
                             else TestEnable(s.monitor.evt))
    case MonTestEnable =>
      && s.monitor.TestEnable?
      && s' == s.(monitor := if s.enabled then LoadCb(s.monitor.evt) else Signalling(s.monitor.evt))
    case MonLoadCb =>
      s.monitor.LoadCb? && s' == s.(monitor := LoadData(s.monitor.evt, s.cb))
    case MonLoadData =>
      s.monitor.LoadData? && s' == s.(monitor := Calling(s.monitor.evt, s.monitor.cb, s.data))
    case MonCall =>
      && s.monitor.Calling?
      && s' == s.(monitor :=
           if s.monitor.cb.handler.LockHandler? && s.monitor.data.pointer.LockRecord?
           then Compare(s.monitor.evt, s.monitor.data.pointer.session)
           else InUser(s.monitor.evt, s.monitor.cb, s.monitor.data))
    case MonUserReturn =>
      && (s.monitor.InUser? || s.monitor.InOld?) && Pc(s, 0) == Idle
      && s' == s.(monitor := Signalling(s.monitor.evt))
    case _ => false
  }

  /** fend_lock_cb */
  predicate LockCbStep(s: State, l: Label, s': State) {
    match l
    case MonCompare =>
      && s.monitor.Compare?
      && s' == s.(monitor :=
           if ParaEqual(s.mode, s.monitor.evt.para, s.record.para) && s.monitor.evt.status != 0
           then WriteStatus(s.monitor.evt, s.monitor.session)
           else Signalling(s.monitor.evt),
           hits := if ParaEqual(s.mode, s.monitor.evt.para, s.record.para) && s.monitor.evt.status != 0
                   then s.hits + [Hit(s.monitor.session, s.mode, s.monitor.evt)] else s.hits)
    case MonWriteStatus =>
      && s.monitor.WriteStatus?
      && s' == s.(monitor := WantClear(s.monitor.evt, s.monitor.session),
                  record := s.record.(status := s.monitor.evt.status))
    case MonClearLock =>
      && s.monitor.Clearing?
      && s' == s.(monitor := Chain(s.monitor.evt, s.monitor.session), lockFlag := false, lock := None)
    case MonChain =>
      && s.monitor.Chain?
      && s' == s.(monitor :=
           if s.record.oldCb.handler.NoHandler? then Signalling(s.monitor.evt)
           else InOld(s.monitor.evt, s.monitor.session, s.record.oldCb, s.record.oldData))
    case _ => false
  }

  /** The monitor thread is where API calls of its own can happen. */
  predicate InCallbacks(pc: MonitorPc) {
    pc.InUser? || pc.InOld? || pc.Signalling?
  }

  predicate SetStep(s: State, l: Label, s': State) {
    match l
    case EnterSet(t, handler, pointer) =>
      && Pc(s, t) == Idle && s.locker == None && (t == 0 ==> InCallbacks(s.monitor))
      && !handler.LockHandler? && pointer.UserPointer?
      && s' == SetPc(s, t, SetLocking(handler, pointer)).(setters := s.setters + {t})
    case SetSame(t) =>
      && var pc := Pc(s, t);
         && pc.SetChecking? && pc.handler == s.cb.handler && pc.pointer == s.data.pointer
         && s' == Release(s, t, Returning(0)).(setters := s.setters - {t})
    case SetSleep(t) =>
      && var pc := Pc(s, t);
         && pc.SetChecking? && !(pc.handler == s.cb.handler && pc.pointer == s.data.pointer)
         && t != 0 && s.runCb
         && s' == Release(s, t, SetSleeping(pc.handler, pc.pointer))
    case SetGo(t) =>
      && var pc := Pc(s, t);
         && pc.SetChecking? && !(pc.handler == s.cb.handler && pc.pointer == s.data.pointer)
         && (t == 0 || !s.runCb)
         && s' == SetPc(s, t, SetWriteCb(pc.handler, pc.pointer))
    case SetCb(t) =>
      && var pc := Pc(s, t);
         && pc.SetWriteCb?
         && s' == SetPc(s, t, SetWriteData(pc.pointer)).(cb := HandlerCell(pc.handler, s.clock))
    case SetDone(t) =>
      && var pc := Pc(s, t);
         && pc.SetWriteData?
         && s' == Release(s, t, Returning(0)).(
                    data := PointerCell(pc.pointer, s.clock), clock := s.clock + 1,
                    floor := if t != 0 then s.clock else s.floor, setters := s.setters - {t})
    case _ => false
  }

  predicate LockStep(s: State, l: Label, s': State) {
    match l
    case EnterLock(t, para) =>
      && Pc(s, t) == Idle && t != 0 && s.locker == None && s.setters == {}
      && s' == SetPc(s, t, LockLocking(para)).(locker := Some(t), entry := (s.cb, s.data))
    case LockSleep(t) =>
      && var pc := Pc(s, t);
         pc.LockChecking? && s.runCb && s' == Release(s, t, LockSleeping(pc.para))
    case LockSave(t, session) =>
      && var pc := Pc(s, t);
         && pc.LockChecking? && !s.runCb
         && session == s.clock  // a fresh record on the stack
         && s' == SetPc(s, t, LockWriteCb).(
                    record := Record(session, pc.para, s.record.status, s.cb, s.data))
    case LockCb(t) =>
      && Pc(s, t).LockWriteCb?
      && s' == SetPc(s, t, LockWriteData).(cb := HandlerCell(LockHandler, s.clock))
    case LockData(t) =>
      && Pc(s, t).LockWriteData?
      && s' == SetPc(s, t, LockTuning).(
                 data := PointerCell(LockRecord(s.record.session), s.clock), clock := s.clock + 1, lockFlag := true)
    case LockTune(t, ret) =>  // the driver's set_para
      && Pc(s, t).LockTuning?
      && s' == SetPc(s, t, if ret == 0 then LockWaiting else LockRestoreCb(ret))
    case LockWaitMore(t) =>
      && Pc(s, t).LockWaiting? && (s.runCb || s.lockFlag)
      && s' == Release(s, t, LockSlept)
    case LockWaitOver(t) =>
      && Pc(s, t).LockWaiting? && !s.runCb && !s.lockFlag
      && s' == SetPc(s, t, LockRestoreCb(0))
    case LockRestore(t) =>
      && Pc(s, t).LockRestoreCb?
      && s' == SetPc(s, t, LockRestoreData(Pc(s, t).ret)).(cb := s.record.oldCb)
    case LockDone(t) =>
      && Pc(s, t).LockRestoreData?
      && s' == Release(s, t, Returning(Pc(s, t).ret)).(data := s.record.oldData, locker := None)
    case _ => false
  }

  /** Where a thread goes on with the mutex it was waiting for. */
  function Acquired(pc: ClientPc): ClientPc {
    match pc
    case SetLocking(handler, pointer) => SetChecking(handler, pointer)
    case LockLocking(para) => LockChecking(para)
    case LockReacquire => LockWaiting
    case _ => pc
  }

  /** Leaving the condition variable, by broadcast or spuriously; the mutex comes next. */
  function Woken(pc: ClientPc): ClientPc {
    match pc
    case SetSleeping(handler, pointer) => SetLocking(handler, pointer)
    case LockSleeping(para) => LockLocking(para)
    case LockSlept => LockReacquire
    case _ => pc
  }

  predicate ClientStep(s: State, l: Label, s': State) {
    match l
    case Acquire(t) =>
      && s.lock == None && Acquired(Pc(s, t)) != Pc(s, t)
      && s' == SetPc(s, t, Acquired(Pc(s, t))).(lock := Some(Client(t)))
    case Wake(t) =>
      && Woken(Pc(s, t)) != Pc(s, t)
      && s' == SetPc(s, t, Woken(Pc(s, t)))
    case Return(t) =>
      Pc(s, t).Returning? && s' == SetPc(s, t, Idle)
    case _ => false
  }

  predicate Step(s: State, l: Label, s': State) {
    || RoundStep(s, l, s') || CallStep(s, l, s') || LockCbStep(s, l, s')
    || SetStep(s, l, s') || LockStep(s, l, s') || ClientStep(s, l, s')
  }

  // ---------------------------------------------------------------- the inductive invariant

  predicate InRound(pc: MonitorPc) {
    !pc.Waiting? && !pc.WantRaise? && !pc.Raising?
  }

  predicate MonitorHolds(pc: MonitorPc) {
    pc.Raising? || pc.Clearing? || pc.Lowering?
  }

  predicate InSet(pc: ClientPc) {
    pc.SetLocking? || pc.SetChecking? || pc.SetSleeping? || pc.SetWriteCb? || pc.SetWriteData?
  }

  predicate InLock(pc: ClientPc) {
    || pc.LockLocking? || pc.LockChecking? || pc.LockSleeping? || pc.LockWriteCb? || pc.LockWriteData?
    || pc.LockTuning? || pc.LockWaiting? || pc.LockSlept? || pc.LockReacquire? || pc.LockRestoreCb?
    || pc.LockRestoreData?
  }

  predicate Holds(pc: ClientPc) {
    || pc.SetChecking? || pc.SetWriteCb? || pc.SetWriteData? || pc.LockChecking? || pc.LockWriteCb?
    || pc.LockWriteData? || pc.LockTuning? || pc.LockWaiting? || pc.LockRestoreCb? || pc.LockRestoreData?
  }

  /** Between the first and the second write of a pair, or about to write, no round is running. */
  predicate Mutating(pc: ClientPc) {
    || pc.SetWriteCb? || pc.SetWriteData? || pc.LockWriteCb? || pc.LockWriteData? || pc.LockTuning?
    || pc.LockRestoreCb? || pc.LockRestoreData?
  }

  /** The lock callback may be running: AM_FEND_Lock is in its second wait. */
  predicate AwaitsEvent(pc: ClientPc) {
    pc.LockWaiting? || pc.LockSlept? || pc.LockReacquire?
  }

  /** The record has been filled and the call has not returned. */
  predicate RecordLive(pc: ClientPc) {
    || pc.LockWriteCb? || pc.LockWriteData? || pc.LockTuning? || AwaitsEvent(pc)
    || pc.LockRestoreCb? || pc.LockRestoreData?
  }

  /** The lock callback is what is registered. */
  predicate LockInstalled(pc: ClientPc) {
    pc.LockTuning? || AwaitsEvent(pc) || pc.LockRestoreCb?
  }

  /** The monitor thread is inside the lock callback. */
  predicate InLockCallback(pc: MonitorPc) {
    pc.Compare? || pc.WriteStatus? || pc.WantClear? || pc.Clearing? || pc.Chain? || pc.InOld?
  }

  function LockerPc(s: State): ClientPc {
    if s.locker.Some? then Pc(s, s.locker.value) else Idle
  }

  predicate UserPair(cb: HandlerCell, data: PointerCell) {
    !cb.handler.LockHandler? && data.pointer.UserPointer? && cb.stamp == data.stamp
  }

  /** The thread that holds the mutex, by what it is doing. */
  function HolderPc(s: State): ClientPc {
    if s.lock.Some? && s.lock.value.Client? then Pc(s, s.lock.value.thread) else Idle
  }

  /** Mutex and call bookkeeping agree with what thread t is doing. */
  predicate Owns(s: State, t: nat) {
    && (Holds(Pc(s, t)) <==> s.lock == Some(Client(t)))
    && (InLock(Pc(s, t)) <==> s.locker == Some(t))
    && (InSet(Pc(s, t)) <==> t in s.setters)
    && (InSet(Pc(s, t)) ==> Pc(s, t).pointer.UserPointer?)
    && (InSet(Pc(s, t)) && !Pc(s, t).SetWriteData? ==> !Pc(s, t).handler.LockHandler?)
  }

  /** Threads, flags and mutex agree. */
  ghost predicate Control(s: State) {
    && (s.runCb <==> InRound(s.monitor))
    && (s.lock == Some(Monitor) <==> MonitorHolds(s.monitor))
    && (forall t: nat :: Owns(s, t))
    && (s.locker.Some? ==> s.setters == {})
    && s.locker != Some(0)
    && (Pc(s, 0) != Idle ==> InCallbacks(s.monitor))
    && (Mutating(HolderPc(s)) && s.lock != Some(Client(0)) ==> !s.runCb)
  }

  /** What the registered pair is, by the phase of the call that is changing it. */
  predicate Pairs(s: State) {
    var lp := LockerPc(s);
    && (LockInstalled(lp) ==>
          s.cb.handler == LockHandler && s.data.pointer == LockRecord(s.record.session) && s.cb.stamp == s.data.stamp)
    && (lp.LockTuning? ==> s.lockFlag)
    && (lp.LockWriteData? ==> s.cb == HandlerCell(LockHandler, s.clock) && s.data == s.record.oldData)
    && (lp.LockRestoreData? ==> s.cb == s.record.oldCb)
    && (RecordLive(lp) ==> UserPair(s.record.oldCb, s.record.oldData) && (s.record.oldCb, s.record.oldData) == s.entry)
    && (!RecordLive(lp) && !HolderPc(s).SetWriteData? ==> UserPair(s.cb, s.data))
    && (HolderPc(s).SetWriteData? ==>
          s.cb.stamp == s.clock && !s.cb.handler.LockHandler? && s.data.pointer.UserPointer?)
    && (lp.LockWriteCb? || lp.LockLocking? || lp.LockChecking? || lp.LockSleeping? ==> (s.cb, s.data) == s.entry)
  }

  /** What the monitor thread has read is what is registered, until it is in a callback. */
  predicate Reads(s: State) {
    && (s.monitor.TestEnable? || s.monitor.LoadCb? ==> !s.cb.handler.NoHandler?)
    && (s.monitor.LoadData? || s.monitor.Calling? ==> s.monitor.cb == s.cb && !s.cb.handler.NoHandler?)
    && (s.monitor.Calling? ==> s.monitor.data == s.data)
    && (s.monitor.InUser? ==> UserPair(s.monitor.cb, s.monitor.data) && !s.monitor.cb.handler.NoHandler?)
    && (s.monitor.InOld? ==> UserPair(s.monitor.cb, s.monitor.data) && !s.monitor.cb.handler.NoHandler?)
    && (InLockCallback(s.monitor) ==> AwaitsEvent(LockerPc(s)) && s.monitor.session == s.record.session)
  }

  /** The last hit is one of the current lock call, and *status holds its status. */
  predicate GoodHit(s: State) {
    && s.hits != []
    && var h := s.hits[|s.hits| - 1];
       && h.session == s.record.session
       && ParaEqual(h.mode, h.event.para, s.record.para)
       && h.event.status != 0
       && s.record.status == h.event.status
  }

  predicate Hits(s: State) {
    var lp := LockerPc(s);
    && (AwaitsEvent(lp) && !s.lockFlag && !s.monitor.WriteStatus? ==> GoodHit(s))
    && (s.monitor.WantClear? || s.monitor.Clearing? ==> GoodHit(s))
    && (s.monitor.WriteStatus? ==>
          && s.hits != []
          && var h := s.hits[|s.hits| - 1];
             && h.session == s.record.session && h.event == s.monitor.evt
             && ParaEqual(h.mode, h.event.para, s.record.para) && h.event.status != 0)
    && ((lp.LockRestoreCb? || lp.LockRestoreData?) && lp.ret == 0 ==> GoodHit(s))
  }

  /** No pair older than the floor is registered, saved or in use. */
  predicate Stamps(s: State) {
    && s.floor <= s.cb.stamp && s.floor <= s.data.stamp && s.floor < s.clock
    && s.cb.stamp <= s.clock && s.data.stamp < s.clock
    && (RecordLive(LockerPc(s)) ==>
          && s.floor <= s.record.oldCb.stamp < s.clock && s.floor <= s.record.oldData.stamp < s.clock
          && s.record.session <= s.clock)
    && (LockInstalled(LockerPc(s)) || LockerPc(s).LockRestoreData? ==> s.record.session < s.clock)
    && (s.hits != [] ==> s.hits[|s.hits| - 1].session < s.clock)
    && (s.monitor.InUser? || s.monitor.InOld? ==>
          s.floor <= s.monitor.cb.stamp && s.floor <= s.monitor.data.stamp)
  }

  ghost predicate Inv(s: State) {
    Control(s) && Pairs(s) && Reads(s) && Hits(s) && Stamps(s)
  }

  // ---------------------------------------------------------------- every step keeps it

  lemma InvInit(s: State)
    requires Init(s)
    ensures Inv(s)
  {
  }

  /** Control, for one thread. */
  lemma OwnsOf(s: State, t: nat)
    requires Control(s)
    ensures Owns(s, t)
  {
  }

  lemma InRoundIff(s: State)
    requires Control(s)
    ensures s.runCb <==> InRound(s.monitor)
    ensures s.lock == Some(Monitor) <==> MonitorHolds(s.monitor)
  {
  }

  /** What only the monitor thread changes. */
  predicate MonitorOnly(s: State, s': State) {
    s' == s.(monitor := s'.monitor, runCb := s'.runCb, lock := s'.lock, lockFlag := s'.lockFlag,
             enabled := s'.enabled, mode := s'.mode, hits := s'.hits, record := s'.record)
  }

  /** What taking the mutex, waking up and returning leave alone. */
  lemma ClientFrame(s: State, l: Label, s': State)
    requires Control(s) && ClientStep(s, l, s')
    ensures s' == s.(clients := s'.clients, lock := s'.lock)
    ensures RecordLive(LockerPc(s')) == RecordLive(LockerPc(s))
    ensures AwaitsEvent(LockerPc(s')) == AwaitsEvent(LockerPc(s))
    ensures RecordLive(LockerPc(s)) && !AwaitsEvent(LockerPc(s)) ==> LockerPc(s') == LockerPc(s)
    ensures HolderPc(s').SetWriteData? == HolderPc(s).SetWriteData?
  {
    var t := l.thread;
    assert Owns(s, t);
    if s.locker.Some? { assert Owns(s, s.locker.value); }
  }

  /** During a round nobody is writing the pair, unless from a callback of the round itself. */
  lemma NoWriters(s: State)
    requires Control(s) && s.runCb && !InCallbacks(s.monitor)
    ensures !Mutating(HolderPc(s))
    ensures RecordLive(LockerPc(s)) ==> AwaitsEvent(LockerPc(s))
  {
    assert Owns(s, 0);
    if s.locker.Some? { assert Owns(s, s.locker.value); }
  }

  /** The monitor thread takes and gives back its own hold of the mutex, nobody else's. */
  predicate MonitorLock(s: State, s': State) {
    && (s'.lock == s.lock || (s.lock == None && s'.lock == Some(Monitor))
        || (s.lock == Some(Monitor) && s'.lock == None))
    && (s'.lockFlag == s.lockFlag || s.monitor.Clearing?)
    && s'.record == s.record.(status := s'.record.status)
  }

  lemma RoundOnly(s: State, l: Label, s': State)
    requires RoundStep(s, l, s')
    ensures MonitorOnly(s, s')
    ensures (MonitorHolds(s.monitor) ==> s.lock == Some(Monitor)) ==> MonitorLock(s, s')
  {
  }

  lemma CallOnly(s: State, l: Label, s': State)
    requires CallStep(s, l, s')
    ensures MonitorOnly(s, s') && MonitorLock(s, s')
  {
  }

  lemma LockCbOnly(s: State, l: Label, s': State)
    requires LockCbStep(s, l, s')
    ensures MonitorOnly(s, s')
    ensures (MonitorHolds(s.monitor) ==> s.lock == Some(Monitor)) ==> MonitorLock(s, s')
  {
  }

  lemma MonitorChangesOnly(s: State, l: Label, s': State)
    requires RoundStep(s, l, s') || CallStep(s, l, s') || LockCbStep(s, l, s')
    ensures MonitorOnly(s, s')
    ensures (MonitorHolds(s.monitor) ==> s.lock == Some(Monitor)) ==> MonitorLock(s, s')
  {
    hide *;
    if RoundStep(s, l, s') { RoundOnly(s, l, s'); }
    if CallStep(s, l, s') { CallOnly(s, l, s'); }
    if LockCbStep(s, l, s') { LockCbOnly(s, l, s'); }
  }

  /** The monitor thread does not move the call that is changing the pair. */
  lemma MonitorKeepsPhase(s: State, l: Label, s': State)
    requires Control(s) && Pairs(s) && Reads(s)
    requires RoundStep(s, l, s') || CallStep(s, l, s') || LockCbStep(s, l, s')
    ensures MonitorOnly(s, s')
    ensures HolderPc(s') == HolderPc(s) && LockerPc(s') == LockerPc(s)
    ensures s'.record == s.record.(status := s'.record.status)
    ensures LockerPc(s).LockTuning? ==> s'.lockFlag == s.lockFlag
  {
    hide RoundStep, CallStep, LockCbStep, Pairs, Control;
    InRoundIff(s);
    MonitorChangesOnly(s, l, s');
  }

  /** While AM_FEND_Lock is under way no AM_FEND_SetCallback takes a step. */
  lemma NoSetDuringLock(s: State, l: Label, s': State)
    requires Control(s) && SetStep(s, l, s')
    ensures s.locker.None?
  {
    assert Owns(s, l.thread);
  }

  /** Only thread t moves, and only it takes or gives back the mutex, the lock call or its set call. */
  predicate OnlyMoves(s: State, s': State, t: nat) {
    && s'.clients == s.clients[t := Pc(s', t)]
    && (s'.lock == s.lock || (s.lock == None && s'.lock == Some(Client(t)))
        || (s.lock == Some(Client(t)) && s'.lock == None))
    && (s'.locker == s.locker || (s.locker == None && s'.locker == Some(t))
        || (s.locker == Some(t) && s'.locker == None))
    && (s'.setters == s.setters || s'.setters == s.setters + {t} || s'.setters == s.setters - {t})
  }

  lemma OthersKept(s: State, s': State, t: nat, u: nat)
    requires OnlyMoves(s, s', t) && u != t && Owns(s, u)
    ensures Owns(s', u)
  {
  }

  /** What a step of AM_FEND_SetCallback does to the pair: nothing, the first write or the second. */
  predicate SetEffect(s: State, s': State) {
    var hp, hp' := HolderPc(s), HolderPc(s');
    && s' == s.(cb := s'.cb, data := s'.data, clock := s'.clock, floor := s'.floor, lock := s'.lock,
                clients := s'.clients, setters := s'.setters)
    && (|| (s'.cb == s.cb && s'.data == s.data && s'.clock == s.clock && s'.floor == s.floor
            && hp'.SetWriteData? == hp.SetWriteData?)
        || (hp.SetWriteCb? && hp'.SetWriteData? && s'.data == s.data && s'.clock == s.clock && s'.floor == s.floor
            && s'.cb == HandlerCell(hp.handler, s.clock) && !hp.handler.LockHandler?)
        || (hp.SetWriteData? && !hp'.SetWriteData? && s'.cb == s.cb
            && s'.data == PointerCell(hp.pointer, s.clock) && hp.pointer.UserPointer?
            && s'.clock == s.clock + 1
            && (s'.floor == s.floor || (s'.floor == s.clock && !InRound(s.monitor)))))
  }

  lemma SetHas(s: State, l: Label, s': State)
    requires Control(s) && SetStep(s, l, s')
    ensures SetEffect(s, s') && LockerPc(s) == Idle && LockerPc(s') == Idle
  {
    hide Control;
    OwnsOf(s, l.thread);
    NoSetDuringLock(s, l, s');
    SetDoneInRound(s, l, s');
  }

  lemma SetDoneInRound(s: State, l: Label, s': State)
    requires Control(s) && SetStep(s, l, s')
    ensures l.SetDone? && l.thread != 0 ==> !InRound(s.monitor)
  {
    assert Owns(s, l.thread);
  }

  /** In a step of AM_FEND_Lock the call's position is the stepping thread's, and nobody else is writing. */
  lemma LockHas(s: State, l: Label, s': State)
    requires Control(s) && LockStep(s, l, s')
    ensures LockerPc(s) == (if l.EnterLock? then Idle else Pc(s, l.thread))
    ensures LockerPc(s') == (if l.LockDone? then Idle else Pc(s', l.thread))
    ensures !HolderPc(s).SetWriteData? && !HolderPc(s').SetWriteData?
  {
    hide Control;
    OwnsOf(s, l.thread);
    NoSetters(s, l, s');
  }

  lemma NoSetters(s: State, l: Label, s': State)
    requires Control(s) && LockStep(s, l, s')
    ensures !HolderPc(s).SetWriteData?
  {
    assert Owns(s, l.thread);
    if s.lock.Some? && s.lock.value.Client? { assert Owns(s, s.lock.value.thread); }
  }

  lemma RoundKeepsControl(s: State, l: Label, s': State)
    requires Control(s)
    requires RoundStep(s, l, s')
    ensures Control(s')
  {
    assert MonitorOnly(s, s');
    forall u: nat ensures Owns(s', u) { assert Owns(s, u); }
  }

  lemma RoundKeepsPairs(s: State, l: Label, s': State)
    requires Control(s) && Pairs(s) && Reads(s)
    requires RoundStep(s, l, s')
    ensures Pairs(s')
  {
    MonitorKeepsPhase(s, l, s');
    hide Control, RoundStep, CallStep, LockCbStep, HolderPc, LockerPc;
  }

  lemma RoundKeepsReads(s: State, l: Label, s': State)
    requires Control(s) && Pairs(s) && Reads(s)
    requires RoundStep(s, l, s')
    ensures Reads(s')
  {
    hide Control, Pairs, LockerPc, HolderPc;
    MonitorKeepsPhase(s, l, s');
    InRoundIff(s);
    if s.runCb && !InCallbacks(s.monitor) { NoWriters(s); }
  }

  lemma RoundKeepsHits(s: State, l: Label, s': State)
    requires Control(s) && Pairs(s) && Reads(s) && Hits(s)
    requires RoundStep(s, l, s')
    ensures Hits(s')
  {
    hide Control, Pairs, LockerPc, HolderPc;
    MonitorKeepsPhase(s, l, s');
  }

  lemma RoundKeepsStamps(s: State, l: Label, s': State)
    requires Control(s) && Pairs(s) && Reads(s) && Stamps(s)
    requires RoundStep(s, l, s')
    ensures Stamps(s')
  {
    MonitorKeepsPhase(s, l, s');
    hide Control, Pairs, HolderPc, LockerPc;
  }

  lemma CallKeepsControl(s: State, l: Label, s': State)
    requires Control(s)
    requires CallStep(s, l, s')
    ensures Control(s')
  {
    assert MonitorOnly(s, s');
    forall u: nat ensures Owns(s', u) { assert Owns(s, u); }
  }

  lemma CallKeepsPairs(s: State, l: Label, s': State)
    requires Control(s) && Pairs(s) && Reads(s)
    requires CallStep(s, l, s')
    ensures Pairs(s')
  {
    MonitorKeepsPhase(s, l, s');
    hide Control, RoundStep, CallStep, LockCbStep, HolderPc, LockerPc;
  }

  lemma CallKeepsReads(s: State, l: Label, s': State)
    requires Control(s) && Pairs(s) && Reads(s)
    requires CallStep(s, l, s')
    ensures Reads(s')
  {
    hide Control, LockerPc, HolderPc;
    MonitorKeepsPhase(s, l, s');
    InRoundIff(s);
    if s.runCb && !InCallbacks(s.monitor) { NoWriters(s); }
  }

  lemma CallKeepsHits(s: State, l: Label, s': State)
    requires Control(s) && Pairs(s) && Reads(s) && Hits(s)
    requires CallStep(s, l, s')
    ensures Hits(s')
  {
    hide Control, Pairs, LockerPc, HolderPc;
    MonitorKeepsPhase(s, l, s');
  }

  lemma CallKeepsStamps(s: State, l: Label, s': State)
    requires Control(s) && Pairs(s) && Reads(s) && Stamps(s)
    requires CallStep(s, l, s')
    ensures Stamps(s')
  {
    MonitorKeepsPhase(s, l, s');
    hide Control, HolderPc;
  }

  lemma LockCbKeepsControl(s: State, l: Label, s': State)
    requires Control(s)
    requires LockCbStep(s, l, s')
    ensures Control(s')
  {
    assert MonitorOnly(s, s');
    forall u: nat ensures Owns(s', u) { assert Owns(s, u); }
  }

  lemma LockCbKeepsPairs(s: State, l: Label, s': State)
    requires Control(s) && Pairs(s) && Reads(s)
    requires LockCbStep(s, l, s')
    ensures Pairs(s')
  {
    MonitorKeepsPhase(s, l, s');
    hide Control, RoundStep, CallStep, LockCbStep, HolderPc, LockerPc;
  }

  lemma LockCbKeepsReads(s: State, l: Label, s': State)
    requires Control(s) && Pairs(s) && Reads(s)
    requires LockCbStep(s, l, s')
    ensures Reads(s')
  {
    hide Control, LockerPc, HolderPc;
    MonitorKeepsPhase(s, l, s');
    InRoundIff(s);
    if s.runCb && !InCallbacks(s.monitor) { NoWriters(s); }
  }

  lemma LockCbKeepsHits(s: State, l: Label, s': State)
    requires Control(s) && Pairs(s) && Reads(s) && Hits(s)
    requires LockCbStep(s, l, s')
    ensures Hits(s')
  {
    hide Control, Pairs, LockerPc, HolderPc;
    MonitorKeepsPhase(s, l, s');
  }

  lemma LockCbKeepsStamps(s: State, l: Label, s': State)
    requires Control(s) && Pairs(s) && Reads(s) && Stamps(s)
    requires LockCbStep(s, l, s')
    ensures Stamps(s')
  {
    MonitorKeepsPhase(s, l, s');
    hide Control, Pairs, HolderPc, LockerPc;
  }

  lemma SetMoves(s: State, l: Label, s': State)
    requires SetStep(s, l, s') && Owns(s, l.thread)
    ensures OnlyMoves(s, s', l.thread) && Owns(s', l.thread)
  {
  }

  lemma SetKeepsOwners(s: State, l: Label, s': State, u: nat)
    requires Control(s)
    requires SetStep(s, l, s')
    ensures Owns(s', u)
  {
    hide Control, Owns, OnlyMoves;
    OwnsOf(s, u);
    OwnsOf(s, l.thread);
    SetMoves(s, l, s');
    if u != l.thread { OthersKept(s, s', l.thread, u); }
  }

  lemma SetKeepsControl(s: State, l: Label, s': State)
    requires Control(s)
    requires SetStep(s, l, s')
    ensures Control(s')
  {
    forall u: nat ensures Owns(s', u) { SetKeepsOwners(s, l, s', u); }
    assert Owns(s, l.thread) && Owns(s, 0);
    hide Owns;
  }

  lemma SetKeepsPairs(s: State, l: Label, s': State)
    requires Control(s) && Pairs(s)
    requires SetStep(s, l, s')
    ensures Pairs(s')
  {
    hide Control, SetStep, LockerPc, HolderPc;
    SetHas(s, l, s');
  }

  lemma SetKeepsReads(s: State, l: Label, s': State)
    requires Control(s) && Pairs(s) && Reads(s)
    requires SetStep(s, l, s')
    ensures Reads(s')
  {
    hide Control, SetStep, Pairs, LockerPc, HolderPc;
    SetHas(s, l, s');
    InRoundIff(s);
    if s.runCb && !InCallbacks(s.monitor) { NoWriters(s); }
  }

  lemma SetKeepsHits(s: State, l: Label, s': State)
    requires Control(s) && Pairs(s) && Reads(s) && Hits(s)
    requires SetStep(s, l, s')
    ensures Hits(s')
  {
    hide Control, SetStep, Pairs, Reads, LockerPc, HolderPc;
    SetHas(s, l, s');
  }

  lemma SetKeepsStamps(s: State, l: Label, s': State)
    requires Control(s) && Pairs(s) && Reads(s) && Stamps(s)
    requires SetStep(s, l, s')
    ensures Stamps(s')
  {
    hide Control, SetStep, Reads, LockerPc, HolderPc;
    SetHas(s, l, s');
  }

  lemma LockMoves(s: State, l: Label, s': State)
    requires LockStep(s, l, s') && Owns(s, l.thread)
    ensures OnlyMoves(s, s', l.thread) && Owns(s', l.thread)
  {
  }

  lemma LockKeepsOwners(s: State, l: Label, s': State, u: nat)
    requires Control(s)
    requires LockStep(s, l, s')
    ensures Owns(s', u)
  {
    hide Control, Owns, OnlyMoves;
    OwnsOf(s, u);
    OwnsOf(s, l.thread);
    LockMoves(s, l, s');
    if u != l.thread { OthersKept(s, s', l.thread, u); }
  }

  lemma LockKeepsControl(s: State, l: Label, s': State)
    requires Control(s)
    requires LockStep(s, l, s')
    ensures Control(s')
  {
    forall u: nat ensures Owns(s', u) { LockKeepsOwners(s, l, s', u); }
    assert Owns(s, l.thread) && Owns(s, 0);
    hide Owns;
  }

  lemma LockKeepsPairs(s: State, l: Label, s': State)
    requires Control(s) && Pairs(s)
    requires LockStep(s, l, s')
    ensures Pairs(s')
  {
    hide Control, LockerPc, HolderPc;
    LockHas(s, l, s');
  }

  lemma LockKeepsReads(s: State, l: Label, s': State)
    requires Control(s) && Pairs(s) && Reads(s)
    requires LockStep(s, l, s')
    ensures Reads(s')
  {
    hide Control, Pairs, LockerPc, HolderPc;
    LockHas(s, l, s');
    InRoundIff(s);
    if s.runCb && !InCallbacks(s.monitor) { NoWriters(s); }
  }

  lemma LockKeepsHits(s: State, l: Label, s': State)
    requires Control(s) && Pairs(s) && Reads(s) && Hits(s)
    requires LockStep(s, l, s')
    ensures Hits(s')
  {
    hide Control, LockerPc, HolderPc;
    LockHas(s, l, s');
    InRoundIff(s);
  }

  lemma LockKeepsStamps(s: State, l: Label, s': State)
    requires Control(s) && Pairs(s) && Reads(s) && Stamps(s)
    requires LockStep(s, l, s')
    ensures Stamps(s')
  {
    hide Control, LockerPc, HolderPc;
    LockHas(s, l, s');
  }

  lemma ClientMoves(s: State, l: Label, s': State)
    requires ClientStep(s, l, s') && Owns(s, l.thread)
    ensures OnlyMoves(s, s', l.thread) && Owns(s', l.thread)
  {
  }

  lemma ClientKeepsOwners(s: State, l: Label, s': State, u: nat)
    requires Control(s)
    requires ClientStep(s, l, s')
    ensures Owns(s', u)
  {
    hide Control, Owns, OnlyMoves;
    OwnsOf(s, u);
    OwnsOf(s, l.thread);
    ClientMoves(s, l, s');
    if u != l.thread { OthersKept(s, s', l.thread, u); }
  }

  lemma ClientKeepsControl(s: State, l: Label, s': State)
    requires Control(s)
    requires ClientStep(s, l, s')
    ensures Control(s')
  {
    forall u: nat ensures Owns(s', u) { ClientKeepsOwners(s, l, s', u); }
    assert Owns(s, l.thread) && Owns(s, 0);
    hide Owns;
  }

  lemma ClientKeepsPairs(s: State, l: Label, s': State)
    requires Control(s) && Pairs(s)
    requires ClientStep(s, l, s')
    ensures Pairs(s')
  {
    ClientFrame(s, l, s');
    hide ClientStep, Control;
  }

  lemma ClientKeepsReads(s: State, l: Label, s': State)
    requires Control(s) && Pairs(s) && Reads(s)
    requires ClientStep(s, l, s')
    ensures Reads(s')
  {
    ClientFrame(s, l, s');
    hide ClientStep, Control;
  }

  lemma ClientKeepsHits(s: State, l: Label, s': State)
    requires Control(s) && Pairs(s) && Reads(s) && Hits(s)
    requires ClientStep(s, l, s')
    ensures Hits(s')
  {
    ClientFrame(s, l, s');
    hide ClientStep, Control;
  }

  lemma ClientKeepsStamps(s: State, l: Label, s': State)
    requires Control(s) && Pairs(s) && Reads(s) && Stamps(s)
    requires ClientStep(s, l, s')
    ensures Stamps(s')
  {
    ClientFrame(s, l, s');
    hide ClientStep, Control;
  }

  lemma InvStep(s: State, l: Label, s': State)
    requires Inv(s) && Step(s, l, s')
    ensures Inv(s')
  {
    hide Control, Pairs, Reads, Hits, Stamps;
    hide RoundStep, CallStep, LockCbStep, SetStep, LockStep, ClientStep;
    if RoundStep(s, l, s') {
      RoundKeepsControl(s, l, s');
      RoundKeepsPairs(s, l, s');
      RoundKeepsReads(s, l, s');
      RoundKeepsHits(s, l, s');
      RoundKeepsStamps(s, l, s');
    } else if CallStep(s, l, s') {
      CallKeepsControl(s, l, s');
      CallKeepsPairs(s, l, s');
      CallKeepsReads(s, l, s');
      CallKeepsHits(s, l, s');
      CallKeepsStamps(s, l, s');
    } else if LockCbStep(s, l, s') {
      LockCbKeepsControl(s, l, s');
      LockCbKeepsPairs(s, l, s');
      LockCbKeepsReads(s, l, s');
      LockCbKeepsHits(s, l, s');
      LockCbKeepsStamps(s, l, s');
    } else if SetStep(s, l, s') {
      SetKeepsControl(s, l, s');
      SetKeepsPairs(s, l, s');
      SetKeepsReads(s, l, s');
      SetKeepsHits(s, l, s');
      SetKeepsStamps(s, l, s');
    } else if LockStep(s, l, s') {
      LockKeepsControl(s, l, s');
      LockKeepsPairs(s, l, s');
      LockKeepsReads(s, l, s');
      LockKeepsHits(s, l, s');
      LockKeepsStamps(s, l, s');
    } else {
      ClientKeepsControl(s, l, s');
      ClientKeepsPairs(s, l, s');
      ClientKeepsReads(s, l, s');
      ClientKeepsHits(s, l, s');
      ClientKeepsStamps(s, l, s');
    }
  }
}
