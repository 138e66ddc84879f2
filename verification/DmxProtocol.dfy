/**
 The demultiplexer's callback protocol, step by step: one data thread, any number of API
 threads, one mutex, one condition variable. Callbacks run with the mutex released. The build
 modelled is the repository's default one: DMX_SYNC defined, DMX_WAIT_CB not.
 */
module DmxProtocol {
  import opened Bytes
  import opened DmxPool

  /** The driver's answers are whatever they are: zero is success, others are errors. */
  datatype Op =
    | Allocate(drv: int)
    | SetFilter(fid: int, drv: int)              // AM_DMX_SetSecFilter and AM_DMX_SetPesFilter
    | Free(fid: int, drvStop: int, drvFree: int)
    | Start(fid: int, drv: int)
    | Stop(fid: int, drv: int)
    | SetCallback(fid: int, callback: Callback)
    | Sync

  /** Where a thread stands in an API call. Thread 0 is the data thread, calling from a callback. */
  datatype ApiPc =
    | Idle
    | Locking(op: Op)
    | Holding(op: Op)
    | Sleeping             // in pthread_cond_wait of AM_DMX_Sync
    | Returning(ret: int)

  datatype WorkerPc =
    | Polling
    | WantRaise(mask: set<nat>)
    | Raising(mask: set<nat>)
    | Scan(mask: set<nat>, id: nat)
    | WantRead(mask: set<nat>, id: nat)
    | Reading(mask: set<nat>, id: nat)
    | Picked(mask: set<nat>, id: nat, pick: Option<Callback>)
    | InCallback(mask: set<nat>, id: nat, callback: Callback)
    | WantClear
    | Clearing

  datatype Owner = Worker | Client(thread: nat)

  datatype State = State(
    filters: seq<Filter>,
    runCb: bool,              // DMX_FL_RUN_CB
    lock: Option<Owner>,
    worker: WorkerPc,
    threads: map<nat, ApiPc>)

  datatype Label =
    | WorkerPoll(mask: set<nat>)
    | WorkerLock
    | WorkerRaise
    | WorkerSkip
    | WorkerTry
    | WorkerRead(ok: bool)
    | WorkerCall
    | WorkerReturn
    | WorkerDone
    | WorkerClear
    | Enter(thread: nat, op: Op)
    | Acquire(thread: nat)
    | Body(thread: nat, op: Op)
    | Sleep(thread: nat)
    | Wake(thread: nat)
    | Return(thread: nat)

  // ---------------------------------------------------------------- what the API calls do

  /** Filters and return value of the part of a call that runs under the mutex. */
  function Effect(filters: seq<Filter>, op: Op): (r: (seq<Filter>, int))
    requires |filters| == FILTER_COUNT
    ensures |r.0| == FILTER_COUNT
  {
    match op
    case Allocate(drv) =>
      var fid := FirstUnused(filters, 0);
      if fid >= FILTER_COUNT then (filters, NO_FREE_FILTER)
      else if drv != SUCCESS then (filters, drv)
      else (filters[fid := filters[fid].(used := true)], SUCCESS)
    case SetFilter(fid, drv) =>
      var ret := Lookup(filters, fid);
      if ret != SUCCESS then (filters, ret) else
      var (f, r) := StopOne(filters[fid], drv);
      (filters[fid := f], r)
    case Free(fid, drvStop, drvFree) =>
      var ret := Lookup(filters, fid);
      if ret != SUCCESS then (filters, ret) else
      var (f, r) := FreeOne(filters[fid], drvStop, drvFree);
      (filters[fid := f], r)
    case Start(fid, drv) =>
      var ret := Lookup(filters, fid);
      if ret != SUCCESS then (filters, ret)
      else if filters[fid].enable then (filters, SUCCESS)
      else if drv != SUCCESS then (filters, drv)
      else (filters[fid := filters[fid].(enable := true)], SUCCESS)
    case Stop(fid, drv) =>
      var ret := Lookup(filters, fid);
      if ret != SUCCESS then (filters, ret) else
      var (f, r) := StopOne(filters[fid], drv);
      (filters[fid := f], r)
    case SetCallback(fid, callback) =>
      var ret := Lookup(filters, fid);
      if ret != SUCCESS then (filters, ret)
      else (filters[fid := filters[fid].(callback := callback)], SUCCESS)
    case Sync => (filters, SUCCESS)
  }

  // ---------------------------------------------------------------- the step relation

  predicate Init(s: State) {
    && |s.filters| == FILTER_COUNT
    && !s.runCb && s.lock == None && s.worker == Polling
    && forall t :: t in s.threads ==> s.threads[t] == Idle
  }

  function Pc(s: State, t: nat): ApiPc {
    if t in s.threads then s.threads[t] else Idle
  }

  function SetPc(s: State, t: nat, pc: ApiPc): State {
    s.(threads := s.threads[t := pc])
  }

  predicate Step(s: State, l: Label, s': State) {
    && |s.filters| == FILTER_COUNT
    && match l
       case WorkerPoll(mask) =>
         s.worker.Polling? && s' == s.(worker := WantRaise(mask))
       case WorkerLock =>
         && s.lock == None
         && ((s.worker.WantRaise? && s' == s.(lock := Some(Worker), worker := Raising(s.worker.mask)))
             || (s.worker.WantRead?
                 && s' == s.(lock := Some(Worker), worker := Reading(s.worker.mask, s.worker.id)))
             || (s.worker.WantClear? && s' == s.(lock := Some(Worker), worker := Clearing)))
       case WorkerRaise =>
         s.worker.Raising? && s' == s.(runCb := true, lock := None, worker := Scan(s.worker.mask, 0))
       case WorkerSkip =>  // not in the mask, or the unlocked look saw it stopped
         && s.worker.Scan? && s.worker.id < FILTER_COUNT
         && s' == s.(worker := Scan(s.worker.mask, s.worker.id + 1))
       case WorkerTry =>   // the unlocked look may be out of date, so it decides nothing here
         && s.worker.Scan? && s.worker.id < FILTER_COUNT && s.worker.id in s.worker.mask
         && s' == s.(worker := WantRead(s.worker.mask, s.worker.id))
       case WorkerRead(ok) =>
         && s.worker.Reading? && s.worker.id < FILTER_COUNT
         && var f := s.filters[s.worker.id];
            var pick := if f.enable && f.used && ok then Some(f.callback) else None;
            s' == s.(lock := None, worker := Picked(s.worker.mask, s.worker.id, pick))
       case WorkerCall =>
         && s.worker.Picked?
         && s' == s.(worker := if s.worker.pick.Some? && s.worker.pick.value.cb.Some?
                               then InCallback(s.worker.mask, s.worker.id, s.worker.pick.value)
                               else Scan(s.worker.mask, s.worker.id + 1))
       case WorkerReturn =>
         && s.worker.InCallback? && Pc(s, 0) == Idle
         && s' == s.(worker := Scan(s.worker.mask, s.worker.id + 1))
       case WorkerDone =>
         && s.worker.Scan? && s.worker.id >= FILTER_COUNT
         && s' == s.(worker := WantClear)
       case WorkerClear =>
         s.worker.Clearing? && s' == s.(runCb := false, lock := None, worker := Polling)
       case Enter(t, op) =>
         && Pc(s, t) == Idle && (t == 0 ==> s.worker.InCallback?)
         && s' == SetPc(s, t, Locking(op))
       case Acquire(t) =>
         && Pc(s, t).Locking? && s.lock == None
         && s' == SetPc(s, t, Holding(Pc(s, t).op)).(lock := Some(Client(t)))
       case Body(t, op) =>
         && Pc(s, t) == Holding(op)
         && (op.Sync? && t != 0 ==> !s.runCb)
         && (op.Start? ==> Lookup(s.filters, op.fid) == SUCCESS)
         && var (filters, ret) := Effect(s.filters, op);
            s' == SetPc(s, t, Returning(ret)).(filters := filters, lock := None)
       case Sleep(t) =>
         && Pc(s, t) == Holding(Sync) && t != 0 && s.runCb
         && s' == SetPc(s, t, Sleeping).(lock := None)
       case Wake(t) =>     // by broadcast or spuriously; the mutex has to be taken again
         Pc(s, t) == Sleeping && s' == SetPc(s, t, Locking(Sync))
       case Return(t) =>
         Pc(s, t).Returning? && s' == SetPc(s, t, Idle)
  }

  /** A run: states with the labels of the steps between them. */
  datatype Behaviour = Behaviour(states: seq<State>, labels: seq<Label>)

  predicate IsRun(b: Behaviour) {
    && |b.states| == |b.labels| + 1
    && Init(b.states[0])
    && forall i :: 0 <= i < |b.labels| ==> Step(b.states[i], b.labels[i], b.states[i + 1])
  }

  // ---------------------------------------------------------------- the inductive invariant

  /** The part of a round in which RUN_CB is up. */
  predicate InRound(pc: WorkerPc) {
    pc.Scan? || pc.WantRead? || pc.Reading? || pc.Picked? || pc.InCallback? || pc.WantClear? || pc.Clearing?
  }

  ghost predicate Inv(s: State) {
    && |s.filters| == FILTER_COUNT
    && (s.runCb <==> InRound(s.worker))
    && (s.lock == Some(Worker) <==> s.worker.Raising? || s.worker.Reading? || s.worker.Clearing?)
    && (forall t: nat :: Pc(s, t).Holding? <==> s.lock == Some(Client(t)))
    && (Pc(s, 0) != Idle ==> s.worker.InCallback?)
  }

  lemma InvInit(s: State)
    requires Init(s)
    ensures Inv(s)
  {
  }

  lemma InvStep(s: State, l: Label, s': State)
    requires Inv(s) && Step(s, l, s')
    ensures Inv(s')
  {
    hide Effect, Lookup, FirstUnused;
    forall t: nat
      ensures Pc(s', t).Holding? <==> s'.lock == Some(Client(t))
    {
      HolderStep(s, l, s', t);
    }
  }

  lemma HolderStep(s: State, l: Label, s': State, t: nat)
    requires Inv(s) && Step(s, l, s')
    ensures Pc(s', t).Holding? <==> s'.lock == Some(Client(t))
  {
    hide Effect, Lookup, FirstUnused, InRound;
  }

  lemma {:induction false} InvAlways(b: Behaviour, i: nat)
    requires IsRun(b) && i < |b.states|
    ensures Inv(b.states[i])
  {
    if i == 0 {
      InvInit(b.states[0]);
    } else {
      InvAlways(b, i - 1);
      InvStep(b.states[i - 1], b.labels[i - 1], b.states[i]);
    }
  }

  // ---------------------------------------------------------------- quiescence over whole runs

  /** The data thread holds, or is inside, a callback of filter f read earlier in its round. */
  predicate Delivering(s: State, f: nat) {
    || (s.worker.Picked? && s.worker.id == f && s.worker.pick.Some?)
    || (s.worker.InCallback? && s.worker.id == f)
  }

  function Delivered(s: State, f: nat): Callback
    requires Delivering(s, f)
  {
    if s.worker.Picked? then s.worker.pick.value else s.worker.callback
  }

  /** Label l, taken in state s, is a call with operation op that succeeds. */
  predicate Succeeds(s: State, l: Label) {
    l.Body? && |s.filters| == FILTER_COUNT && Effect(s.filters, l.op).1 == SUCCESS
  }

  /** AM_DMX_StopFilter or AM_DMX_FreeFilter succeeds on f. */
  predicate StopsFilter(s: State, l: Label, f: nat) {
    Succeeds(s, l) && (l.op.Stop? || l.op.Free?) && l.op.fid == f
  }

  predicate StartsFilter(s: State, l: Label, f: nat) {
    Succeeds(s, l) && l.op.Start? && l.op.fid == f
  }

  predicate Installs(s: State, l: Label, f: nat, c: Callback) {
    Succeeds(s, l) && l.op == SetCallback(f, c)
  }

  /** AM_DMX_Sync, called outside the data thread, gets past its wait. */
  predicate Syncs(l: Label) {
    l.Body? && l.op.Sync? && l.thread != 0
  }

  predicate Disabled(s: State, f: nat) {
    f < |s.filters| && !s.filters[f].enable
  }

  lemma StopDisables(s: State, l: Label, s': State, f: nat)
    requires Step(s, l, s') && StopsFilter(s, l, f)
    ensures Disabled(s', f)
  {
  }

  lemma DisabledStep(s: State, l: Label, s': State, f: nat)
    requires Step(s, l, s') && Disabled(s, f) && !StartsFilter(s, l, f)
    ensures Disabled(s', f)
  {
  }

  lemma QuietStep(s: State, l: Label, s': State, f: nat)
    requires Step(s, l, s') && Disabled(s, f) && !Delivering(s, f)
    ensures !Delivering(s', f)
  {
  }

  /** A sync proves that the data thread is between rounds. */
  lemma SyncMeansQuiet(s: State, l: Label, s': State, f: nat)
    requires Inv(s) && Step(s, l, s') && Syncs(l)
    ensures !Delivering(s', f)
  {
  }

  lemma {:induction false} StaysDisabled(b: Behaviour, i: nat, m: nat, f: nat)
    requires IsRun(b) && i < m <= |b.labels|
    requires StopsFilter(b.states[i], b.labels[i], f)
    requires forall k :: i < k < m ==> !StartsFilter(b.states[k], b.labels[k], f)
    ensures Disabled(b.states[m], f)
  {
    hide Step, StopsFilter, StartsFilter, Disabled;
    if m == i + 1 {
      StopDisables(b.states[i], b.labels[i], b.states[m], f);
    } else {
      StaysDisabled(b, i, m - 1, f);
      DisabledStep(b.states[m - 1], b.labels[m - 1], b.states[m], f);
    }
  }

  /**
   Stop or free a filter, then sync from another thread: the data thread does not run that
   filter's callback again until the filter is restarted.
   */
  lemma {:induction false} StoppedIsQuietAfterSync(b: Behaviour, i: nat, j: nat, m: nat, f: nat)
    requires IsRun(b) && i < j < m <= |b.labels|
    requires StopsFilter(b.states[i], b.labels[i], f)
    requires Syncs(b.labels[j])
    requires forall k :: i < k < m ==> !StartsFilter(b.states[k], b.labels[k], f)
    ensures !Delivering(b.states[m], f)
  {
    hide Step, StopsFilter, StartsFilter, Delivering, Syncs, Disabled, Inv;
    if m == j + 1 {
      InvAlways(b, j);
      SyncMeansQuiet(b.states[j], b.labels[j], b.states[m], f);
    } else {
      StoppedIsQuietAfterSync(b, i, j, m - 1, f);
      StaysDisabled(b, i, m - 1, f);
      QuietStep(b.states[m - 1], b.labels[m - 1], b.states[m], f);
    }
  }

  /** The filter is not restarted by any step after i and before m. */
  predicate NotRestarted(b: Behaviour, i: nat, m: nat, f: nat)
    requires |b.states| == |b.labels| + 1 && m <= |b.labels|
  {
    forall k :: i < k < m ==> !StartsFilter(b.states[k], b.labels[k], f)
  }

  lemma {:induction false} QuietStays(b: Behaviour, i: nat, m: nat, f: nat)
    requires IsRun(b) && i < m <= |b.labels| && NotRestarted(b, i, m, f)
    requires StopsFilter(b.states[i], b.labels[i], f) && !Delivering(b.states[i + 1], f)
    ensures !Delivering(b.states[m], f)
  {
    hide Step, StopsFilter, StartsFilter, Delivering, Disabled;
    if m > i + 1 {
      QuietStays(b, i, m - 1, f);
      StaysDisabled(b, i, m - 1, f);
      QuietStep(b.states[m - 1], b.labels[m - 1], b.states[m], f);
    }
  }

  /**
   When a stop alone is enough: the filter's callback stays away until a restart if and only if
   the data thread neither runs it nor has picked it up at the moment the stop takes effect.
   */
  lemma StopAloneIff(b: Behaviour, i: nat, f: nat)
    requires IsRun(b) && i < |b.labels| && StopsFilter(b.states[i], b.labels[i], f)
    ensures !Delivering(b.states[i], f)
       <==> forall m: nat :: i < m <= |b.labels| && NotRestarted(b, i, m, f) ==> !Delivering(b.states[m], f)
  {
    hide IsRun, StopsFilter, Delivering;
    StopLeavesWorker(b, i, f);
    assert NotRestarted(b, i, i + 1, f);
    forall m: nat | i < m <= |b.labels| && NotRestarted(b, i, m, f) && !Delivering(b.states[i], f)
      ensures !Delivering(b.states[m], f)
    {
      QuietStays(b, i, m, f);
    }
  }

  lemma StopLeavesWorker(b: Behaviour, i: nat, f: nat)
    requires IsRun(b) && i < |b.labels| && StopsFilter(b.states[i], b.labels[i], f)
    ensures |b.states| == |b.labels| + 1 && Delivering(b.states[i], f) == Delivering(b.states[i + 1], f)
  {
    hide Effect, Init;
    assert Step(b.states[i], b.labels[i], b.states[i + 1]);
  }

  /** Pair c has been installed for f by one of the steps i..m-1. */
  ghost predicate InstalledBetween(b: Behaviour, i: nat, m: nat, f: nat, c: Callback)
    requires |b.states| == |b.labels| + 1
  {
    exists k :: i <= k < m && k < |b.labels| && Installs(b.states[k], b.labels[k], f, c)
  }

  lemma InstallStep(s: State, l: Label, s': State, f: nat)
    requires Step(s, l, s') && f < FILTER_COUNT
    ensures |s'.filters| == FILTER_COUNT
    ensures s'.filters[f].callback == s.filters[f].callback || Installs(s, l, f, s'.filters[f].callback)
  {
  }

  lemma InstallTakes(s: State, l: Label, s': State, f: nat, c: Callback)
    requires Step(s, l, s') && Installs(s, l, f, c)
    ensures f < |s'.filters| && s'.filters[f].callback == c
  {
  }

  /** What the data thread holds for f is unchanged or comes from the filter. */
  lemma DeliveredStep(s: State, l: Label, s': State, f: nat)
    requires Step(s, l, s') && Delivering(s', f)
    ensures (f < |s.filters| && Delivered(s', f) == s.filters[f].callback)
         || (Delivering(s, f) && Delivered(s', f) == Delivered(s, f))
  {
  }

  lemma {:induction false} FilterPairInstalled(b: Behaviour, i: nat, m: nat, f: nat, c: Callback)
    requires IsRun(b) && i < m <= |b.labels| && f < FILTER_COUNT
    requires Installs(b.states[i], b.labels[i], f, c)
    ensures |b.states[m].filters| == FILTER_COUNT
    ensures InstalledBetween(b, i, m, f, b.states[m].filters[f].callback)
  {
    hide Step, Installs;
    var s, l, s' := b.states[m - 1], b.labels[m - 1], b.states[m];
    InstallStep(s, l, s', f);
    if m == i + 1 {
      InstallTakes(s, l, s', f, c);
    } else {
      FilterPairInstalled(b, i, m - 1, f, c);
    }
  }

  /**
   Install a pair, then sync from another thread: from then on the data thread only uses pairs
   installed for that filter by this or a later call, so the replaced one is out of use.
   */
  lemma {:induction false} ReplacedIsGoneAfterSync(b: Behaviour, i: nat, j: nat, m: nat, f: nat, c: Callback)
    requires IsRun(b) && i < j < m <= |b.labels| && f < FILTER_COUNT
    requires Installs(b.states[i], b.labels[i], f, c)
    requires Syncs(b.labels[j])
    ensures Delivering(b.states[m], f) ==> InstalledBetween(b, i, m, f, Delivered(b.states[m], f))
  {
    hide Step, Installs, Delivering, Delivered, Syncs, Inv;
    var s, l, s' := b.states[m - 1], b.labels[m - 1], b.states[m];
    if m == j + 1 {
      InvAlways(b, j);
      SyncMeansQuiet(s, l, s', f);
    } else if Delivering(s', f) {
      ReplacedIsGoneAfterSync(b, i, j, m - 1, f, c);
      FilterPairInstalled(b, i, m - 1, f, c);
      DeliveredStep(s, l, s', f);
    }
  }

  /** Handler and argument are never mixed: every pair in use is an initial or an installed one. */
  lemma {:induction false} PairsAreInstalledTogether(b: Behaviour, m: nat, f: nat)
    requires IsRun(b) && m <= |b.labels| && f < FILTER_COUNT
    ensures |b.states[m].filters| == FILTER_COUNT && |b.states[0].filters| == FILTER_COUNT
    ensures var c := b.states[m].filters[f].callback;
            c == b.states[0].filters[f].callback || InstalledBetween(b, 0, m, f, c)
    ensures Delivering(b.states[m], f) ==>
              var c := Delivered(b.states[m], f);
              c == b.states[0].filters[f].callback || InstalledBetween(b, 0, m, f, c)
  {
    hide Step, Installs;
    if m > 0 {
      hide Delivering, Delivered;
      var s, l, s' := b.states[m - 1], b.labels[m - 1], b.states[m];
      PairsAreInstalledTogether(b, m - 1, f);
      InstallStep(s, l, s', f);
      if Delivering(s', f) { DeliveredStep(s, l, s', f); }
    }
  }

  function Last(b: Behaviour): State
    requires |b.states| == |b.labels| + 1
  {
    b.states[|b.labels|]
  }

  function Extend(b: Behaviour, l: Label, s: State): Behaviour {
    Behaviour(b.states + [s], b.labels + [l])
  }

  lemma ExtendRun(b: Behaviour, l: Label, s: State)
    requires IsRun(b) && Step(Last(b), l, s)
    ensures IsRun(Extend(b, l, s)) && Last(Extend(b, l, s)) == s
  {
    hide Step, Init;
    var c := Extend(b, l, s);
    forall i | 0 <= i < |c.labels| ensures Step(c.states[i], c.labels[i], c.states[i + 1]) {
      if i < |b.labels| {
        assert c.states[i] == b.states[i] && c.labels[i] == b.labels[i] && c.states[i + 1] == b.states[i + 1];
      }
    }
  }

  /** A round of the data thread up to the point where it has read the callback of filter 0. */
  lemma PickedRun(f: Filter) returns (b: Behaviour)
    requires f.used && f.enable
    ensures IsRun(b) && |b.labels| == 6 && |b.states| == 7
    ensures Last(b) == State(seq(FILTER_COUNT, _ => f), true, None, Picked({0}, 0, Some(f.callback)), map[])
  {
    hide IsRun;
    var s0 := State(seq(FILTER_COUNT, _ => f), false, None, Polling, map[]);
    b := Behaviour([s0], []);
    assert IsRun(b) by { OneStateRun(s0); }
    var s1 := s0.(worker := WantRaise({0}));
    ExtendRun(b, WorkerPoll({0}), s1);
    b := Extend(b, WorkerPoll({0}), s1);
    var s2 := s1.(worker := Raising({0}), lock := Some(Worker));
    ExtendRun(b, WorkerLock, s2);
    b := Extend(b, WorkerLock, s2);
    var s3 := s2.(worker := Scan({0}, 0), lock := None, runCb := true);
    ExtendRun(b, WorkerRaise, s3);
    b := Extend(b, WorkerRaise, s3);
    var s4 := s3.(worker := WantRead({0}, 0));
    ExtendRun(b, WorkerTry, s4);
    b := Extend(b, WorkerTry, s4);
    var s5 := s4.(worker := Reading({0}, 0), lock := Some(Worker));
    ExtendRun(b, WorkerLock, s5);
    b := Extend(b, WorkerLock, s5);
    var s6 := s5.(worker := Picked({0}, 0, Some(f.callback)), lock := None);
    ExtendRun(b, WorkerRead(true), s6);
    b := Extend(b, WorkerRead(true), s6);
  }

  lemma OneStateRun(s: State)
    requires Init(s)
    ensures IsRun(Behaviour([s], []))
  {
  }

  /** A client stops filter 0 and returns while the data thread holds the callback. */
  lemma StopWhilePicked(f: Filter, b0: Behaviour) returns (b: Behaviour)
    requires f.used && f.enable && IsRun(b0) && |b0.labels| == 6 && |b0.states| == 7
    requires Last(b0) == State(seq(FILTER_COUNT, _ => f), true, None, Picked({0}, 0, Some(f.callback)), map[])
    ensures IsRun(b) && |b.labels| == 10 && |b.states| == 11
    ensures StopsFilter(b.states[8], b.labels[8], 0) && b.labels[9] == Return(1)
    ensures Last(b).worker == Picked({0}, 0, Some(f.callback)) && |Last(b).filters| == FILTER_COUNT
  {
    hide IsRun;
    b := b0;
    var op := Stop(0, 0);
    var s6 := Last(b0);
    var s7 := SetPc(s6, 1, Locking(op));
    ExtendRun(b, Enter(1, op), s7);
    b := Extend(b, Enter(1, op), s7);
    var s8 := SetPc(s7, 1, Holding(op)).(lock := Some(Client(1)));
    ExtendRun(b, Acquire(1), s8);
    b := Extend(b, Acquire(1), s8);
    var s9 := SetPc(s8, 1, Returning(0)).(lock := None, filters := s8.filters[0 := f.(enable := false)]);
    ExtendRun(b, Body(1, op), s9);
    b := Extend(b, Body(1, op), s9);
    assert b.states[8] == s8 && b.labels[8] == Body(1, op);
    var s10 := SetPc(s9, 1, Idle);
    ExtendRun(b, Return(1), s10);
    b := Extend(b, Return(1), s10);
  }

  /**
   Why the sync is needed: in this run the callback starts after AM_DMX_StopFilter has
   succeeded and returned.
   */
  lemma StopAloneIsNotEnough() returns (b: Behaviour)
    ensures IsRun(b) && |b.labels| == 11
    ensures StopsFilter(b.states[8], b.labels[8], 0) && b.labels[9] == Return(1)
    ensures b.labels[10] == WorkerCall && b.states[11].worker.InCallback? && b.states[11].worker.id == 0
  {
    hide IsRun, StopsFilter;
    var f := Filter(true, true, Callback(Some(7), 0));
    var b0 := PickedRun(f);
    var b1 := StopWhilePicked(f, b0);
    var s := Last(b1).(worker := InCallback({0}, 0, f.callback));
    ExtendRun(b1, WorkerCall, s);
    b := Extend(b1, WorkerCall, s);
  }
}
