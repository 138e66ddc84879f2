/** What the calls do to a demultiplexer's filters over whole runs, and what the data thread makes of it. */
module DmxFilters {
  import opened Bytes
  import opened DmxPool
  import opened DmxProtocol

  // ---------------------------------------------------------------- enabled filters

  /** Label l is a start of filter f by AM_DMX_StartFilter that the driver, if asked, agrees to. */
  predicate Enables(s: State, l: Label, f: nat)
    requires f < |s.filters|
  {
    l.Body? && l.op.Start? && l.op.fid == f && (s.filters[f].enable || l.op.drv == 0)
  }

  /** Label l is a stop, a free or a new setting of filter f that the driver does not refuse. */
  predicate Disables(l: Label, f: nat) {
    l.Body? && (|| (l.op.Stop? && l.op.fid == f && l.op.drv >= 0)
                || (l.op.SetFilter? && l.op.fid == f && l.op.drv >= 0)
                || (l.op.Free? && l.op.fid == f && l.op.drvStop >= 0))
  }

  /** Only filters in use are enabled. */
  predicate EnabledAreUsed(s: State) {
    |s.filters| == FILTER_COUNT && forall f :: 0 <= f < FILTER_COUNT && s.filters[f].enable ==> s.filters[f].used
  }

  lemma EnableStep(s: State, l: Label, s': State, f: nat)
    requires EnabledAreUsed(s) && Step(s, l, s') && f < FILTER_COUNT
    ensures EnabledAreUsed(s')
    ensures s'.filters[f].enable <==> Enables(s, l, f) || (s.filters[f].enable && !Disables(l, f))
  {
  }

  lemma {:induction false} EnabledAreUsedAlways(b: Behaviour, m: nat)
    requires IsRun(b) && m <= |b.labels| && EnabledAreUsed(b.states[0])
    ensures EnabledAreUsed(b.states[m])
  {
    hide Init, Step;
    if m > 0 {
      EnabledAreUsedAlways(b, m - 1);
      EnableStep(b.states[m - 1], b.labels[m - 1], b.states[m], 0);
    }
  }

  /** Step i enables f, and no step behind it and before m disables it. */
  predicate EnabledSince(b: Behaviour, i: nat, m: nat, f: nat)
    requires i < |b.labels| && i < |b.states| && f < |b.states[i].filters|
  {
    Enables(b.states[i], b.labels[i], f) && forall k :: i < k < m && k < |b.labels| ==> !Disables(b.labels[k], f)
  }

  predicate EnabledFromStart(b: Behaviour, m: nat, f: nat)
    requires |b.states| > 0 && f < |b.states[0].filters|
  {
    b.states[0].filters[f].enable && forall k :: 0 <= k < m && k < |b.labels| ==> !Disables(b.labels[k], f)
  }

  lemma {:induction false} FiltersStay(b: Behaviour, m: nat)
    requires IsRun(b) && m <= |b.labels|
    ensures |b.states[m].filters| == FILTER_COUNT
  {
    hide Init, Step, Inv;
    InvAlways(b, m);
    InvHasFilters(b.states[m]);
  }

  lemma InvHasFilters(s: State)
    requires Inv(s)
    ensures |s.filters| == FILTER_COUNT
  {
  }

  /**
   Over every run: a filter is enabled exactly if some start of it took effect, or it was enabled at
   the beginning, and nothing has disabled it since.
   */
  lemma {:induction false} EnabledIff(b: Behaviour, m: nat, f: nat)
    requires IsRun(b) && m <= |b.labels| && f < FILTER_COUNT && EnabledAreUsed(b.states[0])
    ensures forall i :: 0 <= i <= |b.labels| ==> |b.states[i].filters| == FILTER_COUNT
    ensures b.states[m].filters[f].enable
       <==> EnabledFromStart(b, m, f) || exists i :: 0 <= i < m && EnabledSince(b, i, m, f)
  {
    hide Init, Step, Enables, Disables, EnabledAreUsed;
    forall i | 0 <= i <= |b.labels|
      ensures |b.states[i].filters| == FILTER_COUNT
    {
      FiltersStay(b, i);
    }
    if m > 0 {
      var n := m - 1;
      EnabledIff(b, n, f);
      EnabledAreUsedAlways(b, n);
      EnableStep(b.states[n], b.labels[n], b.states[m], f);
      if i :| 0 <= i < n && EnabledSince(b, i, n, f) {
        assert !Disables(b.labels[n], f) ==> EnabledSince(b, i, m, f);
      }
      if i :| 0 <= i < m && EnabledSince(b, i, m, f) {
        assert i < n ==> EnabledSince(b, i, n, f);
      }
      if Enables(b.states[n], b.labels[n], f) { assert EnabledSince(b, n, m, f); }
    }
  }

  // ---------------------------------------------------------------- filters in use

  /** An allocation hands out one filter, the first that is not in use, and only if the driver agrees. */
  lemma AllocateTakesFirst(s: State, t: nat, drv: int, s': State)
    requires Step(s, Body(t, Allocate(drv)), s')
    ensures |s'.filters| == FILTER_COUNT
    ensures forall f :: 0 <= f < FILTER_COUNT ==>
              (s'.filters[f].used <==>
                 s.filters[f].used || (drv == 0 && forall k :: 0 <= k < f ==> s.filters[k].used))
  {
    var fid := FirstUnused(s.filters, 0);
    forall f | 0 <= f < FILTER_COUNT
      ensures !s.filters[f].used && (forall k :: 0 <= k < f ==> s.filters[k].used) ==> f == fid
    {
    }
  }

  /** A free takes exactly its own filter out of use, if the driver disables and frees it. */
  lemma FreeReturnsOne(s: State, t: nat, fid: int, drvStop: int, drvFree: int, s': State, f: nat)
    requires Step(s, Body(t, Free(fid, drvStop, drvFree)), s') && f < FILTER_COUNT
    ensures |s'.filters| == FILTER_COUNT
    ensures s'.filters[f].used
       <==> s.filters[f].used && (f != fid || drvFree != 0 || (s.filters[f].enable && drvStop != 0))
  {
  }

  /** No other step changes which filters are in use. */
  lemma OnlyThoseChangeUse(s: State, l: Label, s': State, f: nat)
    requires Step(s, l, s') && f < FILTER_COUNT && !(l.Body? && (l.op.Allocate? || l.op.Free?))
    ensures |s'.filters| == FILTER_COUNT && s'.filters[f].used == s.filters[f].used
  {
  }

  // ---------------------------------------------------------------- return values

  predicate InUse(s: State, fid: int) {
    0 <= fid < |s.filters| && s.filters[fid].used
  }

  predicate IsEnabled(s: State, fid: int)
    requires InUse(s, fid)
  {
    s.filters[fid].enable
  }

  /**
   When a call returns zero: its filter is in use, and every driver call that it needs, which starting
   an enabled filter and stopping one that is not does not, returns zero.
   */
  lemma SucceedsIff(s: State, t: nat, op: Op, s': State)
    requires EnabledAreUsed(s) && Step(s, Body(t, op), s')
    ensures Pc(s', t).Returning?
    ensures Pc(s', t).ret == 0
       <==> match op
            case Allocate(drv) => drv == 0 && exists f :: 0 <= f < FILTER_COUNT && !s.filters[f].used
            case SetFilter(fid, drv) => InUse(s, fid) && (drv == 0 || !IsEnabled(s, fid))
            case Free(fid, drvStop, drvFree) =>
              InUse(s, fid) && (drvStop == 0 || !IsEnabled(s, fid)) && drvFree == 0
            case Start(fid, drv) => InUse(s, fid) && (drv == 0 || IsEnabled(s, fid))
            case Stop(fid, drv) => InUse(s, fid) && (drv == 0 || !IsEnabled(s, fid))
            case SetCallback(fid, callback) => InUse(s, fid)
            case Sync => true
  {
  }

  /** A successful installation registers its own pair for its own filter, and nothing else touches a pair. */
  lemma RegistersIff(s: State, l: Label, s': State, f: nat)
    requires Step(s, l, s') && f < FILTER_COUNT
    ensures |s'.filters| == FILTER_COUNT
    ensures s'.filters[f].callback
         == if l.Body? && l.op.SetCallback? && l.op.fid == f && s.filters[f].used then l.op.callback
            else s.filters[f].callback
  {
  }

  // ---------------------------------------------------------------- the data thread

  /** The data thread picks a filter's pair up exactly if it is enabled and in use and its read does not fail. */
  lemma ReadPicksIff(s: State, ok: bool, s': State)
    requires Step(s, WorkerRead(ok), s')
    ensures s.worker.Reading? && s.worker.id < |s.filters|
    ensures var f := s.worker.id;
            && (Delivering(s', f) <==> s.filters[f].enable && s.filters[f].used && ok)
            && (Delivering(s', f) ==> Delivered(s', f) == s.filters[f].callback)
  {
  }

  /**
   A filter that has been started and not been stopped, freed or set again is served: when the data
   thread comes to it and its read does not fail, the pair registered for it is picked up.
   */
  lemma StartedIsServed(b: Behaviour, i: nat, m: nat, f: nat)
    requires IsRun(b) && i < m < |b.labels| && f < FILTER_COUNT && EnabledAreUsed(b.states[0])
    requires |b.states[i].filters| == FILTER_COUNT && EnabledSince(b, i, m, f)
    requires b.labels[m] == WorkerRead(true) && b.states[m].worker.Reading? && b.states[m].worker.id == f
    ensures |b.states[m].filters| == FILTER_COUNT
    ensures Delivering(b.states[m + 1], f) && Delivered(b.states[m + 1], f) == b.states[m].filters[f].callback
  {
    hide Init, Step, Enables, Disables, Delivering, Delivered;
    EnabledIff(b, m, f);
    EnabledAreUsedAlways(b, m);
    ReadPicksIff(b.states[m], true, b.states[m + 1]);
  }

  /** What has been picked up is called, if there is a handler. */
  lemma PickedIsCalled(s: State, s': State, f: nat)
    requires Step(s, WorkerCall, s') && s.worker.Picked? && s.worker.id == f
    ensures s'.worker.InCallback? <==> Delivering(s, f) && Delivered(s, f).cb.Some?
    ensures s'.worker.InCallback? ==> Delivering(s', f) && Delivered(s', f) == Delivered(s, f)
  {
  }

  // ---------------------------------------------------------------- a round

  /** The data thread is between raising and finding that all filters have been looked at. */
  predicate Scanning(pc: WorkerPc) {
    pc.Scan? || pc.WantRead? || pc.Reading? || pc.Picked? || pc.InCallback?
  }

  /** How far the round is: before filter id, or busy with it. */
  function Progress(pc: WorkerPc): nat
    requires Scanning(pc)
  {
    if pc.Scan? then 2 * pc.id else 2 * pc.id + 1
  }

  /** The data thread turns to filter f, to skip it or to try it. */
  predicate Visits(s: State, l: Label, f: nat) {
    s.worker.Scan? && s.worker.id == f && (l.WorkerSkip? || l.WorkerTry?)
  }

  /** One step further in a round: nothing is passed over, and the filters asked for stay the same. */
  lemma ProgressStep(s: State, l: Label, s': State)
    requires Step(s, l, s') && Scanning(s.worker) && !l.WorkerDone?
    ensures Scanning(s'.worker) && s'.worker.mask == s.worker.mask
    ensures var p, p' := Progress(s.worker), Progress(s'.worker);
            if Visits(s, l, s.worker.id) then p' == if l.WorkerTry? then p + 1 else p + 2
            else p' == p || (p % 2 == 1 && p' == p + 1)
    ensures l.WorkerTry? ==> s.worker.id in s.worker.mask
    ensures Visits(s, l, s.worker.id) ==> s.worker.id < 32
  {
  }

  /** No round begins or ends between the steps lo and hi. */
  predicate SameRound(b: Behaviour, lo: nat, hi: nat) {
    forall k :: lo < k < hi && k < |b.labels| ==> !b.labels[k].WorkerDone?
  }

  lemma {:induction false} InRoundAt(b: Behaviour, i: nat, m: nat)
    requires IsRun(b) && i < m <= |b.labels| && b.labels[i] == WorkerRaise && SameRound(b, i, m)
    ensures b.states[i].worker.Raising? && Scanning(b.states[m].worker)
    ensures b.states[m].worker.mask == b.states[i].worker.mask
  {
    hide Init, Step, Scanning;
    if m == i + 1 {
      RaiseStarts(b.states[i], b.states[m]);
    } else {
      InRoundAt(b, i, m - 1);
      ProgressStep(b.states[m - 1], b.labels[m - 1], b.states[m]);
    }
  }

  lemma RaiseStarts(s: State, s': State)
    requires Step(s, WorkerRaise, s')
    ensures s.worker.Raising? && s'.worker == Scan(s.worker.mask, 0) && Scanning(s'.worker)
  {
  }

  lemma {:induction false} ProgressRises(b: Behaviour, i: nat, k: nat, m: nat)
    requires IsRun(b) && i < k <= m <= |b.labels| && b.labels[i] == WorkerRaise && SameRound(b, i, m)
    ensures Scanning(b.states[k].worker) && Scanning(b.states[m].worker)
    ensures Progress(b.states[k].worker) <= Progress(b.states[m].worker)
  {
    hide Init, Step, Scanning, Progress;
    InRoundAt(b, i, k);
    InRoundAt(b, i, m);
    if k < m {
      ProgressRises(b, i, k, m - 1);
      ProgressStep(b.states[m - 1], b.labels[m - 1], b.states[m]);
    }
  }

  /** In one round no filter is turned to twice, and each one that is tried has been asked for. */
  lemma VisitedAtMostOnce(b: Behaviour, i: nat, k: nat, m: nat, f: nat)
    requires IsRun(b) && i < k < m < |b.labels| && b.labels[i] == WorkerRaise && SameRound(b, i, m)
    requires Visits(b.states[k], b.labels[k], f)
    ensures !Visits(b.states[m], b.labels[m], f)
    ensures b.labels[k] == WorkerTry ==> b.states[i].worker.Raising? && f in b.states[i].worker.mask
  {
    hide Init, Step;
    InRoundAt(b, i, k);
    ProgressStep(b.states[k], b.labels[k], b.states[k + 1]);
    ProgressRises(b, i, k + 1, m);
  }

  /** ... and by the end of the round every filter has been turned to. */
  lemma {:induction false} VisitedAtLeastOnce(b: Behaviour, i: nat, m: nat, f: nat) returns (k: nat)
    requires IsRun(b) && i < m <= |b.labels| && b.labels[i] == WorkerRaise && SameRound(b, i, m)
    requires Scanning(b.states[m].worker) && 2 * f < Progress(b.states[m].worker)
    ensures i < k < m && Visits(b.states[k], b.labels[k], f)
  {
    hide Init, Step;
    if m == i + 1 {
      RaiseStarts(b.states[i], b.states[m]);
      assert false;
    } else {
      InRoundAt(b, i, m - 1);
      ProgressStep(b.states[m - 1], b.labels[m - 1], b.states[m]);
      if 2 * f < Progress(b.states[m - 1].worker) {
        k := VisitedAtLeastOnce(b, i, m - 1, f);
      } else {
        k := m - 1;
      }
    }
  }

  lemma DoneIsAtEnd(s: State, s': State)
    requires Step(s, WorkerDone, s')
    ensures s.worker.Scan? && s.worker.id >= 32 && s'.worker == WantClear
  {
  }

  /** A round turns to each of the 32 filters exactly once, and tries only those that were asked for. */
  lemma RoundVisitsEachOnce(b: Behaviour, i: nat, m: nat, f: nat) returns (k: nat)
    requires IsRun(b) && i < m < |b.labels| && b.labels[i] == WorkerRaise && b.labels[m] == WorkerDone
    requires SameRound(b, i, m) && f < 32
    ensures i < k < m && Visits(b.states[k], b.labels[k], f)
    ensures forall j :: i < j < m && Visits(b.states[j], b.labels[j], f) ==> j == k
    ensures b.labels[k] == WorkerTry ==> b.states[i].worker.Raising? && f in b.states[i].worker.mask
  {
    hide Init, Step, Visits;
    InRoundAt(b, i, m);
    DoneIsAtEnd(b.states[m], b.states[m + 1]);
    k := VisitedAtLeastOnce(b, i, m, f);
    forall j | i < j < m && Visits(b.states[j], b.labels[j], f)
      ensures j == k
    {
      if j < k { VisitedAtMostOnce(b, i, j, k, f); }
      if k < j { VisitedAtMostOnce(b, i, k, j, f); }
    }
    VisitIsAsked(b, i, k, f);
  }

  lemma VisitIsAsked(b: Behaviour, i: nat, k: nat, f: nat)
    requires IsRun(b) && i < k < |b.labels| && b.labels[i] == WorkerRaise && SameRound(b, i, k)
    requires Visits(b.states[k], b.labels[k], f)
    ensures b.labels[k] == WorkerTry ==> b.states[i].worker.Raising? && f in b.states[i].worker.mask
  {
    hide Init, Step;
    InRoundAt(b, i, k);
    ProgressStep(b.states[k], b.labels[k], b.states[k + 1]);
  }

  // ---------------------------------------------------------------- waiting

  /** A sync waits exactly while a round is running, and not in the data thread, which would wait for itself. */
  lemma SyncWaitsIff(s: State, t: nat)
    requires Inv(s) && Pc(s, t) == Holding(Sync)
    ensures (exists s' :: Step(s, Body(t, Sync), s')) <==> t == 0 || !s.runCb
    ensures (exists s' :: Step(s, Sleep(t), s')) <==> t != 0 && s.runCb
  {
    var done := SetPc(s, t, Returning(SUCCESS)).(lock := None);
    var asleep := SetPc(s, t, Sleeping).(lock := None);
    if t == 0 || !s.runCb { assert Step(s, Body(t, Sync), done); }
    if t != 0 && s.runCb { assert Step(s, Sleep(t), asleep); }
  }
}
