/** The recorder and the demux filters it owns. */
module Dvr {
  import opened Bytes
  import opened DmxPool

  const AM_DVR_MAX_PID_COUNT := 32

  datatype DvrResult = Success | InvalidDevNo | InvalidArg | Busy | OpenFailed

  /** The filters in use. */
  function UsedIn(fs: seq<Filter>): set<int> {
    set i | 0 <= i < |fs| && fs[i].used
  }

  /** The filter pool of a demux, used by one call at a time. */
  class Pool {
    const filters: array<Filter>
    var driver: Answers
    var pids: map<int, int>  // the PID the driver has last been given for a filter

    ghost predicate Valid()
      reads this
    {
      filters.Length == FILTER_COUNT
    }

    /** No driver call will fail. */
    ghost predicate Good()
      reads this`driver
    {
      forall i :: 0 <= i < |driver| ==> driver[i] == SUCCESS
    }

    ghost function Used(): set<int>
      requires Valid()
      reads this, filters
    {
      UsedIn(filters[..])
    }

    /** Every filter is in use. */
    ghost predicate Full()
      requires Valid()
      reads this, filters
    {
      forall f :: 0 <= f < FILTER_COUNT ==> f in Used()
    }

    constructor (driver: Answers)
      ensures Valid() && fresh(filters) && Used() == {} && this.driver == driver && pids == map[]
      ensures forall f :: 0 <= f < FILTER_COUNT ==> !filters[f].enable
    {
      filters := new Filter[FILTER_COUNT](_ => Filter(false, false, Callback(None, 0)));
      this.driver := driver;
      pids := map[];
    }

    method Call() returns (answer: int)
      modifies this`driver
      ensures answer == Answer(old(driver)) && driver == Later(old(driver))
      ensures old(Good()) ==> Good() && answer == SUCCESS
    {
      if driver == [] { return SUCCESS; }
      answer := driver[0];
      driver := driver[1..];
    }

    /** AM_DMX_AllocateFilter: the first free filter, if the driver agrees. */
    method AllocateFilter() returns (ret: int, fid: int)
      requires Valid()
      modifies this`driver, filters
      ensures Valid() && (old(Good()) ==> Good())
      ensures ret == SUCCESS ==>
                && 0 <= fid < FILTER_COUNT && fid !in old(Used()) && Used() == old(Used()) + {fid}
                && forall f :: 0 <= f < fid ==> f in old(Used())
      ensures ret == SUCCESS ==>
                filters[fid] == old(filters[..])[fid].(used := true) && Only(old(filters[..]), filters[..], fid)
      ensures ret != SUCCESS ==> filters[..] == old(filters[..])
      ensures old(Good()) && ret != SUCCESS ==> old(Full())
    {
      fid := 0;
      while fid < FILTER_COUNT && filters[fid].used
        invariant 0 <= fid <= FILTER_COUNT
        invariant forall f :: 0 <= f < fid ==> filters[f].used
      {
        fid := fid + 1;
      }
      if fid >= FILTER_COUNT { return NO_FREE_FILTER, -1; }
      ret := Call();
      if ret != SUCCESS { return ret, -1; }
      filters[fid] := filters[fid].(used := true);
    }

    /** dmx_get_used_filter */
    method GetUsed(fid: int) returns (ret: int)
      requires Valid()
      ensures ret == Lookup(filters[..], fid)
    {
      if fid < 0 || fid >= FILTER_COUNT { return INVALID_ID; }
      return if filters[fid].used then SUCCESS else NOT_ALLOCATED;
    }

    /** dmx_stop_filter */
    method Disable(fid: int) returns (ret: int)
      requires Valid() && fid in Used()
      modifies this`driver, filters
      ensures Done(filters[fid], driver, ret) == old(Stopped(filters[fid], driver))
      ensures Only(old(filters[..]), filters[..], fid) && Used() == old(Used())
      ensures old(Good()) ==> Good() && ret == SUCCESS
    {
      if !filters[fid].enable { return SUCCESS; }
      ret := Call();
      if ret >= 0 {
        filters[fid] := filters[fid].(enable := false);
      }
    }

    /** AM_DMX_SetPesFilter: the filter is stopped and its PID given to the driver. */
    method SetPesFilter(fid: int, pid: int) returns (ret: int)
      requires Valid()
      modifies this`driver, this`pids, filters
      ensures Used() == old(Used()) && (old(Good()) ==> Good())
      ensures Only(old(filters[..]), filters[..], fid)
      ensures pids == if ret == SUCCESS then old(pids)[fid := pid] else old(pids)
      ensures ret == SUCCESS ==> fid in Used() && !filters[fid].enable
      ensures old(Good()) && fid in Used() ==> ret == SUCCESS
    {
      ret := GetUsed(fid);
      if ret != SUCCESS { return; }
      ret := Disable(fid);
      if ret != SUCCESS { return; }
      ret := Call();
      if ret == SUCCESS { pids := pids[fid := pid]; }
    }

    /** AM_DMX_StartFilter on a filter in use */
    method StartFilter(fid: int) returns (ret: int)
      requires Valid() && fid in Used()
      modifies this`driver, filters
      ensures Used() == old(Used()) && (old(Good()) ==> Good())
      ensures Only(old(filters[..]), filters[..], fid)
      ensures filters[fid] == old(filters[fid]).(enable := old(filters[fid]).enable || ret == SUCCESS)
      ensures ret == (if old(filters[fid]).enable then SUCCESS else old(Answer(driver)))
      ensures old(Good()) ==> ret == SUCCESS
    {
      if filters[fid].enable { return SUCCESS; }
      ret := Call();
      if ret == SUCCESS {
        filters[fid] := filters[fid].(enable := true);
      }
    }

    /** AM_DMX_StopFilter */
    method StopFilter(fid: int) returns (ret: int)
      requires Valid()
      modifies this`driver, filters
      ensures 0 <= fid < FILTER_COUNT ==> Done(filters[fid], driver, ret) == old(Stopped(filters[fid], driver))
      ensures Only(old(filters[..]), filters[..], fid) && Used() == old(Used())
      ensures old(Good()) ==> Good()
    {
      ret := GetUsed(fid);
      if ret == SUCCESS { ret := Disable(fid); }
    }

    /** AM_DMX_FreeFilter with dmx_free_filter */
    method FreeFilter(fid: int) returns (ret: int)
      requires Valid()
      modifies this`driver, filters
      ensures 0 <= fid < FILTER_COUNT ==> Done(filters[fid], driver, ret) == old(Freed(filters[fid], driver))
      ensures Only(old(filters[..]), filters[..], fid)
      ensures ret == SUCCESS ==> fid in old(Used())
      ensures Used() == if ret == SUCCESS then old(Used()) - {fid} else old(Used())
      ensures old(Good()) ==> Good() && (fid in old(Used()) ==> ret == SUCCESS)
    {
      ret := GetUsed(fid);
      if ret != SUCCESS { return; }
      ret := Disable(fid);
      if ret != SUCCESS { return; }
      ret := Call();
      if ret == SUCCESS {
        filters[fid] := filters[fid].(used := false);
      }
    }
  }

  /** Nothing but element i differs. */
  predicate Only<T(==)>(a: seq<T>, b: seq<T>, i: int) {
    |a| == |b| && forall j :: 0 <= j < |a| && j != i ==> b[j] == a[j]
  }

  // ---------------------------------------------------------------- the recorder

  /** fid is -1 for a stream without a filter. */
  datatype Stream = Stream(pid: int, fid: int)

  function Fids(ss: seq<Stream>): set<int> {
    set i | 0 <= i < |ss| && ss[i].fid != -1 :: ss[i].fid
  }

  predicate DistinctFids(ss: seq<Stream>) {
    forall i, j :: 0 <= i < j < |ss| && ss[i].fid != -1 ==> ss[i].fid != ss[j].fid
  }

  predicate Unowned(ss: seq<Stream>) {
    forall i :: 0 <= i < |ss| ==> ss[i].fid == -1
  }

  lemma FidsOfUnowned(ss: seq<Stream>)
    requires Unowned(ss)
    ensures Fids(ss) == {}
  {
  }

  lemma FidsAppend(ss: seq<Stream>, s: Stream)
    ensures Fids(ss + [s]) == Fids(ss) + (if s.fid == -1 then {} else {s.fid})
    ensures DistinctFids(ss) && s.fid !in Fids(ss) ==> DistinctFids(ss + [s])
  {
    var t := ss + [s];
    forall f
      ensures f in Fids(t) <==> f in Fids(ss) || (s.fid != -1 && f == s.fid)
    {
      if f in Fids(ss) {
        var i :| 0 <= i < |ss| && ss[i].fid == f && f != -1;
        assert t[i].fid == f;
      }
      if s.fid != -1 { assert t[|ss|].fid == s.fid; }
    }
  }

  predicate InRange(ss: seq<Stream>) {
    forall i :: 0 <= i < |ss| ==> ss[i].fid == -1 || 0 <= ss[i].fid < FILTER_COUNT
  }

  /** What becomes of a stream's filter, and the driver's answers left for the next stream. */
  function Ended(s: Stream, fs: seq<Filter>, ds: Answers): Done
    requires |fs| == FILTER_COUNT && 0 <= s.fid < FILTER_COUNT
  {
    StoppedAndFreed(fs[s.fid], ds)
  }

  /** The filters that stay in use when the streams ss are stopped with the driver answering ds. */
  function Left(ss: seq<Stream>, fs: seq<Filter>, ds: Answers): set<int>
    requires |fs| == FILTER_COUNT && InRange(ss)
  {
    if ss == [] then {}
    else if ss[0].fid == -1 then Left(ss[1..], fs, ds)
    else
      var d := Ended(ss[0], fs, ds);
      (if d.filter.used then {ss[0].fid} else {}) + Left(ss[1..], fs, d.answers)
  }

  /** The answers the driver has left when it is stream k's turn. */
  function AnswersAt(ss: seq<Stream>, fs: seq<Filter>, ds: Answers, k: nat): Answers
    requires |fs| == FILTER_COUNT && InRange(ss) && k <= |ss|
  {
    if k == 0 then ds
    else AnswersAt(ss[1..], fs, if ss[0].fid == -1 then ds else Ended(ss[0], fs, ds).answers, k - 1)
  }

  lemma {:induction false} LeftAreFids(ss: seq<Stream>, fs: seq<Filter>, ds: Answers)
    requires |fs| == FILTER_COUNT && InRange(ss)
    ensures Left(ss, fs, ds) <= Fids(ss)
  {
    if ss != [] {
      LeftAreFids(ss[1..], fs, if ss[0].fid == -1 then ds else Ended(ss[0], fs, ds).answers);
      assert ss[0..] == ss;
      FidsFrom(ss, 0);
    }
  }

  /** Stream by stream: its filter stays exactly if the driver calls it needs do not end in success. */
  lemma {:induction false} StaysLeftIff(ss: seq<Stream>, fs: seq<Filter>, ds: Answers, k: nat)
    requires |fs| == FILTER_COUNT && InRange(ss) && DistinctFids(ss) && k < |ss| && ss[k].fid != -1
    ensures ss[k].fid in Left(ss, fs, ds) <==> Ended(ss[k], fs, AnswersAt(ss, fs, ds, k)).filter.used
  {
    hide StoppedAndFreed;
    var t := ss[1..];
    var rest := if ss[0].fid == -1 then ds else Ended(ss[0], fs, ds).answers;
    LeftAreFids(t, fs, rest);
    if k == 0 {
      assert forall j :: 0 <= j < |t| ==> t[j] == ss[j + 1];
    } else {
      assert t[k - 1] == ss[k];
      StaysLeftIff(t, fs, rest, k - 1);
    }
  }

  lemma LeftFrom(ss: seq<Stream>, fs: seq<Filter>, ds: Answers, i: nat)
    requires |fs| == FILTER_COUNT && InRange(ss) && i < |ss|
    ensures Left(ss[i..], fs, ds)
         == if ss[i].fid == -1 then Left(ss[i + 1..], fs, ds)
            else (if Ended(ss[i], fs, ds).filter.used then {ss[i].fid} else {})
                 + Left(ss[i + 1..], fs, Ended(ss[i], fs, ds).answers)
  {
    assert ss[i..][1..] == ss[i + 1..];
  }

  lemma LeftOfNothing(fs: seq<Filter>, ds: Answers)
    requires |fs| == FILTER_COUNT
    ensures Left([], fs, ds) == {}
  {
  }

  /** Filters in use are filters of the pool. */
  lemma UsedInRange(ss: seq<Stream>, fs: seq<Filter>)
    requires |fs| == FILTER_COUNT && Fids(ss) <= UsedIn(fs)
    ensures InRange(ss)
  {
    assert forall i :: 0 <= i < |ss| && ss[i].fid != -1 ==> ss[i].fid in Fids(ss);
  }

  /** When no driver call fails nothing stays. */
  lemma {:induction false} NothingLeft(ss: seq<Stream>, fs: seq<Filter>, ds: Answers)
    requires |fs| == FILTER_COUNT && InRange(ss) && forall i :: 0 <= i < |ds| ==> ds[i] == SUCCESS
    ensures Left(ss, fs, ds) == {}
  {
    if ss != [] && ss[0].fid != -1 {
      NothingLeft(ss[1..], fs, Ended(ss[0], fs, ds).answers);
    } else if ss != [] {
      NothingLeft(ss[1..], fs, ds);
    }
  }

  /**
   A filter that is lost: it is enabled and the driver refuses twice to disable it. Refusing once
   does no harm, since the free tries again.
   */
  lemma LostFilter(fs: seq<Filter>)
    requires |fs| == FILTER_COUNT && fs[0].used && fs[0].enable
    ensures Left([Stream(100, 0)], fs, [-1, -1]) == {0}
    ensures Left([Stream(100, 0)], fs, [-1]) == {}
  {
    var ss := [Stream(100, 0)];
    assert ss[1..] == [];
    assert Later([-1, -1]) == [-1] && Later([-1]) == [];
  }

  // ---------------------------------------------------------------- whole runs

  /** A call by one of the recorder's openers or, the last two, by another client of the demux. */
  datatype Request = AskOpen(driverOk: bool)
                   | AskStart(pids: seq<int>, pidCount: int)
                   | AskStop
                   | AskClose
                   | AskFilter
                   | GiveBack(fid: int)

  predicate WellFormed(r: Request) {
    r.AskStart? ==> |r.pids| == AM_DVR_MAX_PID_COUNT
  }

  /** What StopAll finds: the streams, the pool's filters and the driver's answers to come. */
  datatype Ending = Ending(streams: seq<Stream>, filters: seq<Filter>, answers: Answers)

  predicate ValidEnding(e: Ending) {
    |e.filters| == FILTER_COUNT && InRange(e.streams)
  }

  /** The filters lost at these ends of recordings. */
  function Lost(es: seq<Ending>): set<int>
    requires forall i :: 0 <= i < |es| ==> ValidEnding(es[i])
  {
    if es == [] then {}
    else
      var e := es[|es| - 1];
      assert ValidEnding(e);
      Lost(es[..|es| - 1]) + Left(e.streams, e.filters, e.answers)
  }

  class Recorder {
    const pool: Pool
    const streams: array<Stream>
    var streamCnt: nat
    var record: bool
    var openCnt: nat

    ghost function Current(): seq<Stream>
      requires streams.Length == AM_DVR_MAX_PID_COUNT && streamCnt <= AM_DVR_MAX_PID_COUNT
      reads this, streams
    {
      streams[..streamCnt]
    }

    /** The filters that are in use for somebody else. */
    ghost function Others(): set<int>
      requires pool.Valid() && streams.Length == AM_DVR_MAX_PID_COUNT && streamCnt <= AM_DVR_MAX_PID_COUNT
      reads this, streams, pool, pool.filters
    {
      pool.Used() - Fids(Current())
    }

    ghost predicate Valid()
      reads this, streams, pool, pool.filters
    {
      && pool.Valid() && streams.Length == AM_DVR_MAX_PID_COUNT && streamCnt <= AM_DVR_MAX_PID_COUNT
      && (!record ==> streamCnt == 0) && (openCnt == 0 ==> !record)
      && DistinctFids(Current()) && InRange(Current()) && Fids(Current()) <= pool.Used()
    }

    constructor (pool: Pool)
      requires pool.Valid()
      ensures Valid() && this.pool == pool && !record && openCnt == 0 && fresh(streams)
    {
      this.pool := pool;
      streams := new Stream[AM_DVR_MAX_PID_COUNT](_ => Stream(0, 0));
      streamCnt, record, openCnt := 0, false, 0;
    }

    /** AM_DVR_Open */
    method Open(driverOk: bool) returns (ret: DvrResult)
      requires Valid()
      modifies this`openCnt, this`record, this`streamCnt, streams
      ensures Valid() && Others() == old(Others()) && record == old(record)
      ensures ret.Success? <==> old(openCnt) > 0 || driverOk
      ensures openCnt == if ret.Success? then old(openCnt) + 1 else old(openCnt)
      ensures old(openCnt) > 0 ==> Current() == old(Current())
      ensures old(openCnt) == 0 ==> forall i :: 0 <= i < AM_DVR_MAX_PID_COUNT ==> streams[i].fid == -1
    {
      if openCnt > 0 {
        openCnt := openCnt + 1;
        return Success;
      }
      forall i | 0 <= i < AM_DVR_MAX_PID_COUNT {
        streams[i] := streams[i].(fid := -1);
      }
      if !driverOk { return OpenFailed; }
      openCnt, record, streamCnt := openCnt + 1, false, 0;
      return Success;
    }

    /** dvr_add_stream; that the table is never too full for it is part of the contract. */
    method AddStream(pid: int)
      requires streams.Length == AM_DVR_MAX_PID_COUNT && streamCnt < AM_DVR_MAX_PID_COUNT
      modifies this`streamCnt, streams
      ensures streamCnt == old(streamCnt) + 1
      ensures Current() == old(Current()) + [Stream(pid % 0x1_0000, -1)]
    {
      streams[streamCnt] := Stream(pid % 0x1_0000, -1);
      streamCnt := streamCnt + 1;
    }

    /** The stream's filter lets its PID through and is enabled. */
    ghost predicate Recording(s: Stream)
      requires pool.Valid()
      reads this, pool, pool.filters
    {
      && 0 <= s.fid < FILTER_COUNT && pool.filters[s.fid].used && pool.filters[s.fid].enable
      && s.fid in pool.pids && pool.pids[s.fid] == s.pid
    }

    /** One round of dvr_start_all_streams. */
    method StartStream(i: nat)
      requires pool.Valid() && streams.Length == AM_DVR_MAX_PID_COUNT && i < streamCnt <= AM_DVR_MAX_PID_COUNT
      requires streams[i].fid == -1
      requires Fids(streams[..i]) <= pool.Used() && DistinctFids(streams[..i])
      modifies pool`driver, pool`pids, pool.filters, streams
      ensures pool.Valid() && (old(pool.Good()) ==> pool.Good())
      ensures forall j :: 0 <= j < AM_DVR_MAX_PID_COUNT && j != i ==> streams[j] == old(streams[j])
      ensures streams[i].pid == old(streams[i].pid) && DistinctFids(streams[..i + 1])
      ensures Fids(streams[..i + 1]) <= pool.Used()
      ensures pool.Used() - Fids(streams[..i + 1]) == old(pool.Used() - Fids(streams[..i]))
      ensures old(pool.Good()) && streams[i].fid == -1 ==> pool.Full()
      ensures old(pool.Used()) <= pool.Used()
      ensures streams[i].fid != -1 ==>
                && 0 <= streams[i].fid < FILTER_COUNT && streams[i].fid !in old(pool.Used())
                && Only(old(pool.filters[..]), pool.filters[..], streams[i].fid)
                && forall f :: f in old(pool.pids) && f != streams[i].fid ==>
                                 f in pool.pids && pool.pids[f] == old(pool.pids[f])
      ensures streams[i].fid == -1 ==> pool.filters[..] == old(pool.filters[..]) && pool.pids == old(pool.pids)
      ensures old(pool.Good()) && streams[i].fid != -1 ==> Recording(streams[i])
    {
      ghost var ss := streams[..i];
      var ret, fid := pool.AllocateFilter();
      if ret == SUCCESS {
        streams[i] := streams[i].(fid := fid);
        var _ := pool.SetPesFilter(fid, streams[i].pid);
        var _ := pool.StartFilter(fid);
      } else {
        streams[i] := streams[i].(fid := -1);
      }
      assert streams[..i + 1] == ss + [streams[i]];
      FidsAppend(ss, streams[i]);
    }

    /** AM_DVR_StartRecord */
    method StartRecord(pids: seq<int>, pidCount: int) returns (ret: DvrResult)
      requires Valid() && |pids| == AM_DVR_MAX_PID_COUNT
      modifies this`streamCnt, this`record, streams, pool`driver, pool`pids, pool.filters
      ensures Valid() && Others() == old(Others()) && (old(pool.Good()) ==> pool.Good())
      ensures ret == if pidCount <= 0 then InvalidArg
                     else if openCnt == 0 then InvalidDevNo
                     else if old(record) then Busy else Success
      ensures ret.Success? ==>
                && record && streamCnt == (if pidCount > AM_DVR_MAX_PID_COUNT then AM_DVR_MAX_PID_COUNT else pidCount)
                && (forall i :: 0 <= i < streamCnt ==> streams[i].pid == pids[i] % 0x1_0000)
                && (old(pool.Good()) ==> Served(streamCnt))
                && (old(pool.Good()) ==>
                      forall i :: 0 <= i < streamCnt && streams[i].fid != -1 ==> Recording(streams[i]))
      ensures !ret.Success? ==> record == old(record) && Current() == old(Current()) && pool.Used() == old(pool.Used())
    {
      if pidCount <= 0 { return InvalidArg; }
      var cnt := if pidCount > AM_DVR_MAX_PID_COUNT then AM_DVR_MAX_PID_COUNT else pidCount;
      if openCnt == 0 { return InvalidDevNo; }
      if record { return Busy; }
      var i := 0;
      while i < cnt
        invariant 0 <= i <= cnt && streamCnt == i
        invariant Unowned(Current())
        invariant forall j :: 0 <= j < i ==> streams[j].pid == pids[j] % 0x1_0000
        modifies this`streamCnt, streams
      {
        ghost var before := Current();
        AddStream(pids[i]);
        assert forall j :: 0 <= j < i ==> streams[j] == Current()[j] == before[j];
        assert streams[i] == Current()[i];
        i := i + 1;
      }
      FidsOfUnowned(old(Current()));
      StartAll(pids);
      record := true;
      return Success;
    }

    /** A stream is left without a filter only when there is none left. */
    ghost predicate Served(n: nat)
      requires pool.Valid() && n <= streams.Length
      reads this, streams, pool, pool.filters
    {
      forall i :: 0 <= i < n && streams[i].fid == -1 ==> pool.Full()
    }

    /** dvr_start_all_streams for streams that have no filter yet. */
    method StartAll(ghost pids: seq<int>)
      requires pool.Valid() && streams.Length == AM_DVR_MAX_PID_COUNT && streamCnt <= AM_DVR_MAX_PID_COUNT == |pids|
      requires Unowned(Current())
      requires forall j :: 0 <= j < streamCnt ==> streams[j].pid == pids[j] % 0x1_0000
      modifies streams, pool`driver, pool`pids, pool.filters
      ensures pool.Valid() && DistinctFids(Current()) && InRange(Current()) && Fids(Current()) <= pool.Used()
      ensures Others() == old(pool.Used()) && (old(pool.Good()) ==> pool.Good())
      ensures forall j :: 0 <= j < streamCnt ==> streams[j].pid == pids[j] % 0x1_0000
      ensures old(pool.Good()) ==> Served(streamCnt)
      ensures old(pool.Good()) ==> forall j :: 0 <= j < streamCnt && streams[j].fid != -1 ==> Recording(streams[j])
    {
      var i := 0;
      assert Fids(streams[..0]) == {};
      while i < streamCnt
        invariant 0 <= i <= streamCnt
        invariant pool.Valid() && DistinctFids(streams[..i]) && Fids(streams[..i]) <= pool.Used()
        invariant pool.Used() - Fids(streams[..i]) == old(pool.Used()) && (old(pool.Good()) ==> pool.Good())
        invariant forall j :: i <= j < streamCnt ==> streams[j].fid == -1
        invariant forall j :: 0 <= j < streamCnt ==> streams[j].pid == pids[j] % 0x1_0000
        invariant old(pool.Good()) ==> Served(i)
        invariant old(pool.Good()) ==> forall j :: 0 <= j < i && streams[j].fid != -1 ==> Recording(streams[j])
      {
        StartStream(i);
        i := i + 1;
      }
      UsedInRange(Current(), pool.filters[..]);
    }

    /** One round of dvr_stop_all_streams. */
    method StopStream(i: nat)
      requires pool.Valid() && streams.Length == AM_DVR_MAX_PID_COUNT && i < AM_DVR_MAX_PID_COUNT
      requires streams[i].fid == -1 || (0 <= streams[i].fid < FILTER_COUNT && streams[i].fid in pool.Used())
      modifies pool`driver, pool.filters, streams
      ensures pool.Valid() && (old(pool.Good()) ==> pool.Good())
      ensures Only(old(streams[..]), streams[..], i) && streams[i] == old(streams[i]).(fid := -1)
      ensures Only(old(pool.filters[..]), pool.filters[..], old(streams[i].fid))
      ensures old(streams[i].fid) == -1 ==> pool.driver == old(pool.driver) && pool.Used() == old(pool.Used())
      ensures old(streams[i].fid) != -1 ==>
                var d := old(Ended(streams[i], pool.filters[..], pool.driver));
                && pool.driver == d.answers
                && pool.Used() == old(pool.Used()) - if d.filter.used then {} else {old(streams[i].fid)}
    {
      if streams[i].fid != -1 {
        var _ := pool.StopFilter(streams[i].fid);
        var _ := pool.FreeFilter(streams[i].fid);
        streams[i] := streams[i].(fid := -1);
      }
    }

    /**
     The first i of the streams ss have been stopped and left is what they left behind, when the
     pool held fs and the driver was to answer ds at the start.
     */
    ghost predicate Stopping(i: nat, ss: seq<Stream>, fs: seq<Filter>, ds: Answers, others: set<int>, left: set<int>)
      reads this, streams, pool, pool.filters
    {
      && pool.Valid() && streams.Length == AM_DVR_MAX_PID_COUNT && i <= |ss| <= AM_DVR_MAX_PID_COUNT
      && |fs| == FILTER_COUNT && DistinctFids(ss) && InRange(ss) && others !! Fids(ss)
      && (forall j :: i <= j < |ss| ==> streams[j] == ss[j])
      && (forall f :: f in Fids(ss[i..]) ==> 0 <= f < FILTER_COUNT && pool.filters[f] == fs[f])
      && pool.Used() == others + left + Fids(ss[i..])
      && left + Left(ss[i..], fs, pool.driver) == Left(ss, fs, ds)
    }

    method StopNext(i: nat, ghost ss: seq<Stream>, ghost fs: seq<Filter>, ghost ds: Answers, ghost others: set<int>,
                    ghost left: set<int>) returns (ghost left2: set<int>)
      requires Stopping(i, ss, fs, ds, others, left) && i < |ss| && left <= Fids(ss) - Fids(ss[i..])
      modifies pool`driver, pool.filters, streams
      ensures Stopping(i + 1, ss, fs, ds, others, left2) && left2 <= Fids(ss) - Fids(ss[i + 1..])
      ensures old(pool.Good()) ==> pool.Good()
    {
      hide Left, StoppedAndFreed;
      FidsFrom(ss, i);
      LeftFrom(ss, fs, pool.driver, i);
      ghost var fid := ss[i].fid;
      left2 := left + if fid != -1 && Ended(ss[i], fs, pool.driver).filter.used then {fid} else {};
      StopStream(i);
    }

    /** dvr_stop_all_streams: which filters stay in use is decided by the driver's answers alone. */
    method StopAll()
      requires Valid()
      modifies streams, this`streamCnt, pool`driver, pool.filters
      ensures pool.Valid() && streamCnt == 0 && (old(pool.Good()) ==> pool.Good())
      ensures pool.Used() == old(Others()) + old(Left(Current(), pool.filters[..], pool.driver))
      ensures pool.Used() == old(Others()) <==> old(Left(Current(), pool.filters[..], pool.driver)) == {}
      ensures old(pool.Good()) ==> pool.Used() == old(Others())
    {
      hide Left, Stopped, StoppedAndFreed;
      ghost var ss, others, fs, ds, left: set<int> := Current(), Others(), pool.filters[..], pool.driver, {};
      assert ss[0..] == ss;
      LeftAreFids(ss, fs, ds);
      if pool.Good() { NothingLeft(ss, fs, ds); }
      var i := 0;
      while i < streamCnt
        invariant 0 <= i <= streamCnt == |ss|
        invariant Stopping(i, ss, fs, ds, others, left) && left <= Fids(ss) - Fids(ss[i..])
        invariant old(pool.Good()) ==> pool.Good()
        modifies streams, pool`driver, pool.filters
      {
        left := StopNext(i, ss, fs, ds, others, left);
        i := i + 1;
      }
      assert ss[i..] == [];
      FidsOfUnowned([]);
      LeftOfNothing(fs, pool.driver);
      streamCnt := 0;
    }

    /** AM_DVR_StopRecord */
    method StopRecord() returns (ret: DvrResult)
      requires Valid()
      modifies streams, this`streamCnt, this`record, pool`driver, pool.filters
      ensures Valid() && (old(pool.Good()) ==> pool.Good())
      ensures ret == if openCnt == 0 then InvalidDevNo else Success
      ensures openCnt > 0 ==> !record
      ensures pool.Used() == old(Others()) + old(Left(Current(), pool.filters[..], pool.driver))
      ensures old(pool.Good()) && ret.Success? ==> pool.Used() == old(Others())
    {
      FidsOfUnowned([]);
      if openCnt == 0 { return InvalidDevNo; }
      if record {
        StopAll();
        record := false;
        assert Current() == [];
      }
      return Success;
    }

    /** AM_DVR_Close, which stops the recording for every opener. */
    method Close()
      requires Valid()
      modifies streams, this`streamCnt, this`record, this`openCnt, pool`driver, pool.filters
      ensures Valid() && !record && (old(pool.Good()) ==> pool.Good())
      ensures openCnt == if old(openCnt) > 0 then old(openCnt) - 1 else 0
      ensures pool.Used() == old(Others()) + old(Left(Current(), pool.filters[..], pool.driver))
      ensures old(pool.Good()) ==> pool.Used() == old(Others())
    {
      FidsOfUnowned([]);
      if openCnt > 0 {
        StopAll();
        record := false;
        openCnt := openCnt - 1;
        assert Current() == [];
      }
    }

    // ------------------------------------------------------------ other clients of the demux

    /** Somebody else allocates a filter: never one of the recorder's. */
    method OtherAllocates() returns (ret: int, fid: int)
      requires Valid()
      modifies pool`driver, pool.filters
      ensures Valid() && (old(pool.Good()) ==> pool.Good())
      ensures Others() == if ret == SUCCESS then old(Others()) + {fid} else old(Others())
      ensures ret == SUCCESS ==> fid !in Fids(Current()) && fid !in old(Others())
      ensures old(pool.Good()) && ret != SUCCESS ==> old(pool.Full())
    {
      ret, fid := pool.AllocateFilter();
    }

    /** Somebody else frees a filter of its own. */
    method OtherFrees(fid: int) returns (ret: int)
      requires Valid() && fid in Others()
      modifies pool`driver, pool.filters
      ensures Valid() && (old(pool.Good()) ==> pool.Good() && ret == SUCCESS)
      ensures Others() == if ret == SUCCESS then old(Others()) - {fid} else old(Others())
    {
      ret := pool.FreeFilter(fid);
    }

    /** What a stop of the recording would find now. */
    ghost function Now(): (e: Ending)
      requires Valid()
      reads this, streams, pool, pool.filters
      ensures ValidEnding(e)
    {
      Ending(Current(), pool.filters[..], pool.driver)
    }

    /** The filters that stay in use if the recording is stopped now. */
    ghost function LeftNow(): (left: set<int>)
      requires Valid()
      reads this, streams, pool, pool.filters
      ensures left <= Fids(Current())
    {
      LeftAreFids(Current(), pool.filters[..], pool.driver);
      Left(Current(), pool.filters[..], pool.driver)
    }

    /**
     One call. The other client holds the filters in mine and gives back only those; whoever ends
     the recording adds what it could not free to the filters the recorder does not own.
     */
    method Serve(r: Request, mine: set<int>) returns (mine2: set<int>)
      requires Valid() && WellFormed(r) && mine <= Others()
      modifies this, streams, pool`driver, pool`pids, pool.filters
      ensures Valid() && (old(pool.Good()) ==> pool.Good())
      ensures Others() == old(Others()) - mine + mine2 + if r.AskStop? || r.AskClose? then old(LeftNow()) else {}
      ensures mine2 !! old(Others()) - mine
      ensures r.AskFilter? || r.GiveBack? || mine2 == mine
      ensures r.AskFilter? && mine2 == mine && old(pool.Good()) ==> old(pool.Full())
      ensures r.GiveBack? && old(pool.Good()) ==> mine2 == mine - {r.fid}
      ensures old(pool.Good()) ==> old(LeftNow()) == {}
    {
      hide Left, Stopped, StoppedAndFreed, DistinctFids;
      mine2 := mine;
      FidsOfUnowned([]);
      if pool.Good() { NothingLeft(Current(), pool.filters[..], pool.driver); }
      match r {
        case AskOpen(driverOk) =>
          var _ := Open(driverOk);
        case AskStart(pids, pidCount) =>
          var _ := StartRecord(pids, pidCount);
        case AskStop =>
          var _ := StopRecord();
          assert Current() == [];
        case AskClose =>
          Close();
          assert Current() == [];
        case AskFilter =>
          var ret, fid := OtherAllocates();
          if ret == SUCCESS { mine2 := mine + {fid}; }
        case GiveBack(fid) =>
          if fid in mine {
            var ret := OtherFrees(fid);
            if ret == SUCCESS { mine2 := mine - {fid}; }
          }
      }
    }

    /**
     Any calls in any order, the driver answering as it likes: the filters in use are at all times
     those that were in use for others at the start, those another client holds, those lost at the
     ends of recordings, and those of the recording going on, and no filter is two of these.
     */
    method ServeAll(rs: seq<Request>) returns (mine: set<int>, ghost ends: seq<Ending>)
      requires Valid() && forall i :: 0 <= i < |rs| ==> WellFormed(rs[i])
      modifies this, streams, pool`driver, pool`pids, pool.filters
      ensures Valid() && forall i :: 0 <= i < |ends| ==> ValidEnding(ends[i])
      ensures pool.Used() == old(Others()) + mine + Lost(ends) + Fids(Current())
      ensures old(Others()) !! mine !! Lost(ends) !! Fids(Current())
      ensures old(pool.Good()) ==> Lost(ends) == {}
    {
      hide Left, Lost, LeftNow, Now, Others;
      mine, ends := {}, [];
      ghost var others, lost: set<int> := Others(), {};
      NothingLost();
      var i := 0;
      while i < |rs|
        invariant 0 <= i <= |rs| && Valid() && (old(pool.Good()) ==> pool.Good())
        invariant (forall k :: 0 <= k < |ends| ==> ValidEnding(ends[k])) && lost == Lost(ends)
        invariant Others() == others + mine + lost && others !! mine !! lost
        invariant old(pool.Good()) ==> lost == {}
      {
        ghost var left, now, before, held := LeftNow(), Now(), Others(), mine;
        LeftIsForeign();
        mine := Serve(rs[i], mine);
        if rs[i].AskStop? || rs[i].AskClose? {
          LostMore(ends, now);
          ends := ends + [now];
        } else {
          left := {};
        }
        Shares(others, held, lost, left, mine, before, Others());
        lost := lost + left;
        i := i + 1;
      }
      OwnersAre();
    }

    lemma LeftIsForeign()
      requires Valid()
      ensures LeftNow() !! Others()
      ensures LeftNow() == Left(Now().streams, Now().filters, Now().answers)
    {
    }

    lemma OwnersAre()
      requires Valid()
      ensures pool.Used() == Others() + Fids(Current()) && Others() !! Fids(Current())
    {
    }

    /**
     A whole recording with another client at work in the meantime: afterwards the filters in use
     are those of before and the other client's, even if some streams got no filter.
     */
    method Session(pids: seq<int>, pidCount: int) returns (mine: set<int>)
      requires Valid() && !record && openCnt > 0 && pidCount > 0 && |pids| == AM_DVR_MAX_PID_COUNT && pool.Good()
      modifies this, streams, pool`driver, pool`pids, pool.filters
      ensures Valid() && !record && pool.Used() == old(pool.Used()) + mine && mine !! old(pool.Used())
    {
      FidsOfUnowned([]);
      assert Current() == [];
      mine := {};
      var start := StartRecord(pids, pidCount);
      var ret, fid := OtherAllocates();
      if ret == SUCCESS { mine := {fid}; }
      var stop := StopRecord();
    }
  }

  /** A filter of the streams from i on is stream i's or, never both, one of those behind it. */
  lemma FidsFrom(ss: seq<Stream>, i: nat)
    requires i < |ss|
    ensures Fids(ss[i..]) == Fids(ss[i + 1..]) + (if ss[i].fid == -1 then {} else {ss[i].fid})
    ensures DistinctFids(ss) ==> ss[i].fid !in Fids(ss[i + 1..])
    ensures Fids(ss[i..]) <= Fids(ss)
  {
  }

  /** Who owns what after a call, given what it adds for the other client or as lost. */
  lemma Shares(others: set<int>, mine: set<int>, lost: set<int>, left: set<int>, mine2: set<int>,
               before: set<int>, now: set<int>)
    requires before == others + mine + lost && others !! mine !! lost
    requires now == before - mine + mine2 + left && mine2 !! before - mine && left !! before
    requires left == {} || mine2 == mine
    ensures now == others + mine2 + (lost + left) && others !! mine2 !! lost + left
  {
    assert before - mine == others + lost;
  }

  lemma NothingLost()
    ensures Lost([]) == {}
  {
  }

  lemma LostMore(es: seq<Ending>, e: Ending)
    requires ValidEnding(e) && forall i :: 0 <= i < |es| ==> ValidEnding(es[i])
    ensures Lost(es + [e]) == Lost(es) + Left(e.streams, e.filters, e.answers)
  {
    assert (es + [e])[..|es|] == es;
  }
}
