/** What the frontend protocol guarantees over whole runs. */
module FendRuns {
  import opened Bytes
  import opened FendProtocol

  datatype Behaviour = Behaviour(states: seq<State>, labels: seq<Label>)

  predicate IsRun(b: Behaviour) {
    && |b.states| == |b.labels| + 1
    && Init(b.states[0])
    && forall i :: 0 <= i < |b.labels| ==> Step(b.states[i], b.labels[i], b.states[i + 1])
  }

  lemma {:induction false} InvAlways(b: Behaviour, i: nat)
    requires IsRun(b) && i < |b.states|
    ensures Inv(b.states[i])
  {
    hide Init, Step, Inv;
    if i == 0 {
      InvInit(b.states[0]);
    } else {
      InvAlways(b, i - 1);
      InvStep(b.states[i - 1], b.labels[i - 1], b.states[i]);
    }
  }

  // ---------------------------------------------------------------- the pair in use

  /** The monitor thread is about to call, or is inside, a callback with this pair. */
  predicate Uses(s: State, cb: HandlerCell, data: PointerCell) {
    (s.monitor.Calling? || s.monitor.InUser? || s.monitor.InOld?) && s.monitor.cb == cb && s.monitor.data == data
  }

  /** Handler and argument in use come from one installation, and the handler is not null. */
  lemma UsedPairsInstalledTogether(b: Behaviour, m: nat, cb: HandlerCell, data: PointerCell)
    requires IsRun(b) && m < |b.states| && Uses(b.states[m], cb, data)
    ensures cb.stamp == data.stamp && !cb.handler.NoHandler?
    ensures cb.handler.LockHandler? <==> data.pointer.LockRecord?
    ensures b.states[m].floor <= cb.stamp
  {
    hide Init, Step, Hits;
    InvAlways(b, m);
    var s := b.states[m];
    if s.monitor.Calling? { NoWriters(s); }
  }

  lemma {:induction false} FloorRises(b: Behaviour, i: nat, m: nat)
    requires IsRun(b) && i <= m < |b.states|
    ensures b.states[i].floor <= b.states[m].floor
  {
    hide Step, Inv;
    if i < m {
      FloorRises(b, i, m - 1);
      InvAlways(b, m - 1);
      FloorStep(b.states[m - 1], b.labels[m - 1], b.states[m]);
    }
  }

  lemma FloorStep(s: State, l: Label, s': State)
    requires Inv(s) && Step(s, l, s')
    ensures s.floor <= s'.floor
  {
    hide RoundStep, CallStep, LockCbStep, SetStep, LockStep, ClientStep, Control, Pairs, Reads, Hits;
    if RoundStep(s, l, s') || CallStep(s, l, s') || LockCbStep(s, l, s') {
      MonitorChangesOnly(s, l, s');
    } else if SetStep(s, l, s') {
      SetHas(s, l, s');
    } else if LockStep(s, l, s') {
      LockFloor(s, l, s');
    } else {
      ClientFrame(s, l, s');
    }
  }

  lemma LockFloor(s: State, l: Label, s': State)
    requires LockStep(s, l, s')
    ensures s'.floor == s.floor
  {
  }

  /**
   Once AM_FEND_SetCallback has replaced the pair outside the monitor thread, the replaced pair,
   older than the new installation, is never used again.
   */
  lemma ReplacedNeverUsed(b: Behaviour, i: nat, m: nat, t: nat, cb: HandlerCell, data: PointerCell)
    requires IsRun(b) && i < m < |b.states|
    requires b.labels[i] == SetDone(t) && t != 0
    requires Uses(b.states[m], cb, data)
    ensures b.states[i + 1].cb.stamp == b.states[i + 1].data.stamp == b.states[i].clock
    ensures b.states[i].data.stamp < b.states[i].clock <= cb.stamp
    ensures data != b.states[i].data
  {
    hide Init, Step, Inv;
    var s, l, s' := b.states[i], b.labels[i], b.states[i + 1];
    InvAlways(b, i);
    SetDoneSets(s, t, s');
    FloorRises(b, i + 1, m);
    UsedPairsInstalledTogether(b, m, cb, data);
  }

  lemma SetDoneSets(s: State, t: nat, s': State)
    requires Inv(s) && Step(s, SetDone(t), s') && t != 0
    ensures s'.floor == s'.cb.stamp == s'.data.stamp == s.clock && s.data.stamp < s.clock
  {
    assert Owns(s, t);
  }

  // ---------------------------------------------------------------- AM_FEND_Lock

  /** The record on the caller's stack is only looked at while the call is waiting for its event. */
  lemma RecordOnlyUsedDuringCall(b: Behaviour, m: nat)
    requires IsRun(b) && m < |b.states| && InLockCallback(b.states[m].monitor)
    ensures b.states[m].locker.Some?
    ensures AwaitsEvent(Pc(b.states[m], b.states[m].locker.value))
    ensures b.states[m].monitor.session == b.states[m].record.session
  {
    InvAlways(b, m);
  }

  /** No step lo..hi-1 is the end of thread t's AM_FEND_Lock. */
  predicate NotDone(b: Behaviour, lo: nat, hi: nat, t: nat) {
    forall k :: lo <= k < hi && k < |b.labels| ==> b.labels[k] != LockDone(t)
  }

  /** While thread t is inside AM_FEND_Lock, only its own steps and the monitor's matter. */
  lemma DuringLock(s: State, l: Label, s': State, t: nat)
    requires Inv(s) && Step(s, l, s') && s.locker == Some(t)
    ensures !SetStep(s, l, s')
    ensures LockStep(s, l, s') ==> l.thread == t && Owns(s, t)
  {
    hide RoundStep, CallStep, LockCbStep, ClientStep, Pairs, Reads, Hits, Stamps;
    if SetStep(s, l, s') { NoSetDuringLock(s, l, s'); }
    if LockStep(s, l, s') { assert Owns(s, l.thread) && Owns(s, t); }
  }

  lemma EntryStep(s: State, l: Label, s': State, t: nat)
    requires Inv(s) && Step(s, l, s') && s.locker == Some(t) && l != LockDone(t)
    ensures s'.locker == Some(t) && s'.entry == s.entry
  {
    hide RoundStep, CallStep, LockCbStep, SetStep, Control, Pairs, Reads, Hits, Stamps;
    DuringLock(s, l, s', t);
    if RoundStep(s, l, s') || CallStep(s, l, s') || LockCbStep(s, l, s') { MonitorChangesOnly(s, l, s'); }
  }

  lemma {:induction false} EntryKept(b: Behaviour, e: nat, m: nat, t: nat, para: Para)
    requires IsRun(b) && e < m <= |b.labels| && b.labels[e] == EnterLock(t, para) && NotDone(b, e, m, t)
    ensures b.states[m].locker == Some(t)
    ensures b.states[m].entry == (b.states[e].cb, b.states[e].data)
  {
    hide Init, Step, Inv;
    if m == e + 1 {
      EnterStep(b.states[e], t, para, b.states[m]);
    } else {
      EntryKept(b, e, m - 1, t, para);
      InvAlways(b, m - 1);
      EntryStep(b.states[m - 1], b.labels[m - 1], b.states[m], t);
    }
  }

  lemma EnterStep(s: State, t: nat, para: Para, s': State)
    requires Step(s, EnterLock(t, para), s')
    ensures s'.locker == Some(t) && s'.entry == (s.cb, s.data)
  {
  }

  lemma DoneRestores(s: State, t: nat, s': State)
    requires Inv(s) && Step(s, LockDone(t), s')
    ensures (s'.cb, s'.data) == s.entry
  {
    hide Control, Reads, Hits, Stamps;
    OwnsOf(s, t);
  }

  /** When AM_FEND_Lock returns, with success or not, the pair registered at its entry is back. */
  lemma LockRestoresCallback(b: Behaviour, e: nat, i: nat, t: nat, para: Para)
    requires IsRun(b) && e < i < |b.labels|
    requires b.labels[e] == EnterLock(t, para) && b.labels[i] == LockDone(t) && NotDone(b, e, i, t)
    ensures b.states[i + 1].cb == b.states[e].cb && b.states[i + 1].data == b.states[e].data
  {
    hide Init, Step, Inv;
    EntryKept(b, e, i, t, para);
    InvAlways(b, i);
    DoneRestores(b.states[i], t, b.states[i + 1]);
  }

  /** Step k compares a delivered event with para, finds them equal, and its status is not zero. */
  predicate MatchingEvent(s: State, l: Label, para: Para, status: int) {
    && l == MonCompare && s.monitor.Compare?
    && ParaEqual(s.mode, s.monitor.evt.para, para)
    && s.monitor.evt.status == status != 0
  }

  /** Such a step happened between the steps lo and hi. */
  predicate Matched(b: Behaviour, lo: nat, hi: nat, para: Para, status: int)
    requires |b.states| == |b.labels| + 1
  {
    exists k :: lo < k < hi && k < |b.labels| && MatchingEvent(b.states[k], b.labels[k], para, status)
  }

  /** The newest hit, if it belongs to the record's call. */
  predicate OwnHit(s: State) {
    s.hits != [] && s.hits[|s.hits| - 1].session == s.record.session
  }

  lemma SaveStep(s: State, l: Label, s': State, t: nat, session: nat)
    requires Inv(s) && Step(s, l, s') && l == LockSave(t, session)
    ensures s'.locker == Some(t) && s'.record.session == session && !OwnHit(s')
    ensures RecordLive(LockerPc(s'))
  {
    assert Owns(s, t);
  }

  lemma MonitorHitStep(s: State, l: Label, s': State)
    requires Inv(s) && RecordLive(LockerPc(s))
    requires RoundStep(s, l, s') || CallStep(s, l, s') || LockCbStep(s, l, s')
    ensures MonitorOnly(s, s') && s'.record == s.record.(status := s'.record.status)
    ensures s'.hits == s.hits
         || (s'.hits != [] && MatchingEvent(s, l, s.record.para, s'.hits[|s'.hits| - 1].event.status))
  {
    hide Control, Pairs, Reads, Hits, Stamps, RoundStep, CallStep, LockCbStep, MatchingEvent;
    InRoundIff(s);
    MonitorChangesOnly(s, l, s');
    MonitorHits(s, l, s');
  }

  lemma MonitorHits(s: State, l: Label, s': State)
    requires RoundStep(s, l, s') || CallStep(s, l, s') || LockCbStep(s, l, s')
    ensures s'.hits == s.hits
         || (s'.hits != [] && MatchingEvent(s, l, s.record.para, s'.hits[|s'.hits| - 1].event.status))
  {
  }

  lemma ClientHitStep(s: State, l: Label, s': State, t: nat)
    requires Inv(s) && s.locker == Some(t) && RecordLive(LockerPc(s)) && l != LockDone(t)
    requires ClientStep(s, l, s') || (LockStep(s, l, s') && l.thread == t && Owns(s, t))
    ensures s'.locker == Some(t) && RecordLive(LockerPc(s'))
    ensures s'.record == s.record && s'.hits == s.hits
  {
    hide Control, Pairs, Reads, Hits, Stamps;
    if ClientStep(s, l, s') { ClientFrame(s, l, s'); }
  }

  lemma HitStep(s: State, l: Label, s': State, t: nat)
    requires Inv(s) && Step(s, l, s') && s.locker == Some(t) && RecordLive(LockerPc(s)) && l != LockDone(t)
    ensures s'.locker == Some(t) && RecordLive(LockerPc(s'))
    ensures s'.record.session == s.record.session && s'.record.para == s.record.para
    ensures s'.hits == s.hits
         || (s'.hits != [] && MatchingEvent(s, l, s.record.para, s'.hits[|s'.hits| - 1].event.status))
  {
    hide RoundStep, CallStep, LockCbStep, SetStep, LockStep, ClientStep, MatchingEvent, Inv;
    DuringLock(s, l, s', t);
    if RoundStep(s, l, s') || CallStep(s, l, s') || LockCbStep(s, l, s') {
      MonitorHitStep(s, l, s');
    } else {
      ClientHitStep(s, l, s', t);
    }
  }

  lemma {:induction false} HitsAreMatches(b: Behaviour, j: nat, m: nat, t: nat, session: nat)
    requires IsRun(b) && j < m <= |b.labels| && b.labels[j] == LockSave(t, session) && NotDone(b, j, m, t)
    ensures var s := b.states[m];
            && s.locker == Some(t) && RecordLive(LockerPc(s))
            && s.record.para == b.states[j + 1].record.para
            && (OwnHit(s) ==> Matched(b, j, m, s.record.para, s.hits[|s.hits| - 1].event.status))
  {
    hide Inv, Step, RecordLive, LockerPc, MatchingEvent;
    InvAlways(b, m - 1);
    var s, l, s' := b.states[m - 1], b.labels[m - 1], b.states[m];
    if m == j + 1 {
      SaveStep(s, l, s', t, session);
    } else {
      HitsAreMatches(b, j, m - 1, t, session);
      HitStep(s, l, s', t);
      if s'.hits != s.hits {
        assert MatchingEvent(b.states[m - 1], b.labels[m - 1], s'.record.para, s'.hits[|s'.hits| - 1].event.status);
      }
    }
  }

  lemma DoneHasHit(s: State, t: nat, s': State)
    requires Inv(s) && Step(s, LockDone(t), s') && s'.clients[t] == Returning(0)
    ensures GoodHit(s)
  {
    hide Control, Pairs, Reads, Stamps, GoodHit;
    OwnsOf(s, t);
  }

  /**
   AM_FEND_Lock only succeeds after an event with equal parameters and a status other than zero
   has been delivered during the call, and *status is the status of such an event.
   */
  lemma LockSucceedsOnEvent(b: Behaviour, j: nat, i: nat, t: nat, session: nat)
    requires IsRun(b) && j < i < |b.labels|
    requires b.labels[j] == LockSave(t, session) && b.labels[i] == LockDone(t) && NotDone(b, j, i, t)
    requires Pc(b.states[i + 1], t) == Returning(0)
    ensures Matched(b, j, i, b.states[j + 1].record.para, b.states[i].record.status)
  {
    hide Init, Step, Inv, ParaEqual, MatchingEvent, LockerPc, RecordLive;
    HitsAreMatches(b, j, i, t, session);
    InvAlways(b, i);
    DoneReturns(b.states[i], t, b.states[i + 1]);
    DoneHasHit(b.states[i], t, b.states[i + 1]);
  }

  lemma DoneReturns(s: State, t: nat, s': State)
    requires Step(s, LockDone(t), s')
    ensures t in s'.clients && s'.clients[t] == Pc(s', t)
  {
  }
}
