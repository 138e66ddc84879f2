/** The play modes of an AV device and the mapped files its players hold. */
module Av {

  /** The bits of AV_PlayMode_t; a mode word is a set of them. */
  datatype Mode = VideoEs | AudioEs | Ts | File | GetJpeg | DecodeJpeg | Inject | Timeshift

  predicate Jpeg(m: Mode) {
    m == GetJpeg || m == DecodeJpeg
  }

  /** Modes that keep their data in the video player. */
  predicate UsesVideoPara(m: Mode) {
    m == VideoEs || Jpeg(m)
  }

  /** The modes av_start stops before it starts m. */
  function StopSet(m: Mode): set<Mode> {
    match m
    case VideoEs => {DecodeJpeg, GetJpeg, Ts, File, Inject, Timeshift}
    case AudioEs => {Ts, File, AudioEs, Inject, Timeshift}
    case GetJpeg => All() - {AudioEs, File}
    case DecodeJpeg => All() - {AudioEs, File}
    case Ts => All()
    case File => All()
    case Inject => All()
    case Timeshift => All()
  }

  /** AV_MODE_ALL */
  function All(): set<Mode> {
    {VideoEs, AudioEs, Ts, File, GetJpeg, DecodeJpeg, Inject, Timeshift}
  }

  // ---------------------------------------------------------------- which modes go together

  /** At most one of these is set. */
  predicate Main(m: Mode) {
    m == VideoEs || m == Ts || m == Inject || m == Timeshift || Jpeg(m)
  }

  predicate Exclusive(ms: set<Mode>) {
    && (AudioEs in ms ==> Ts !in ms && File !in ms && Inject !in ms && Timeshift !in ms)
    && (forall a, b :: a in ms && b in ms && Main(a) && Main(b) ==> a == b)
    && (File in ms ==> forall m :: m in ms ==> m == File || Jpeg(m))
  }

  lemma StartKeepsExclusive(ms: set<Mode>, m: Mode)
    requires Exclusive(ms)
    ensures Exclusive(ms - StopSet(m)) && Exclusive(ms - StopSet(m) + {m})
  {
  }

  /**
   A start stops exactly what the exclusion rule makes it stop, a player of its own mode unless it
   is the video player, and for a file also the JPEG decoder.
   */
  lemma StopSetIff(m: Mode, x: Mode)
    ensures x in StopSet(m) <==> if x == m then m != VideoEs else !Exclusive({x, m}) || (m == File && Jpeg(x))
  {
    assert m in {x, m} && x in {x, m};
  }

  lemma StopKeepsExclusive(ms: set<Mode>, stopped: set<Mode>)
    requires Exclusive(ms)
    ensures Exclusive(ms - stopped)
  {
  }

  /** The mode word after these modes have been started in turn, the driver opening each. */
  function Reached(starts: seq<Mode>): set<Mode> {
    if starts == [] then {}
    else Reached(starts[..|starts| - 1]) - StopSet(starts[|starts| - 1]) + {starts[|starts| - 1]}
  }

  lemma {:induction false} ReachedIsExclusive(starts: seq<Mode>)
    ensures Exclusive(Reached(starts))
  {
    if starts != [] {
      ReachedIsExclusive(starts[..|starts| - 1]);
      StartKeepsExclusive(Reached(starts[..|starts| - 1]), starts[|starts| - 1]);
    }
  }

  /** The only exclusive sets: nothing, one main mode with or without audio, file with or without JPEG. */
  lemma ExclusiveShapes(ms: set<Mode>)
    requires Exclusive(ms)
    ensures || ms == {} || ms == {AudioEs} || ms == {File}
            || (exists m :: Main(m) && ms == {m})
            || (exists m :: Main(m) && UsesVideoPara(m) && ms == {m, AudioEs})
            || (exists m :: Jpeg(m) && ms == {File, m})
  {
    var others := ms - {AudioEs, File};
    if others == {} {
      assert ms <= {AudioEs, File};
      assert ms == {} || ms == {AudioEs} || ms == {File};
    } else {
      var m :| m in others;
      assert Main(m);
      assert others == {m};
      if AudioEs in ms {
        assert ms == {m, AudioEs};
      } else if File in ms {
        assert ms == {File, m};
      } else {
        assert ms == {m};
      }
    }
  }

  /** The exclusion rule is exact: a set of modes can come about if and only if it keeps the rule. */
  lemma ReachableIff(ms: set<Mode>)
    ensures Exclusive(ms) <==> exists starts :: Reached(starts) == ms
  {
    if starts :| Reached(starts) == ms { ReachedIsExclusive(starts); }
    if Exclusive(ms) {
      ExclusiveShapes(ms);
      if ms == {} {
        assert Reached([]) == ms;
      } else if m :| ms == {m} {
        One(m);
      } else if m :| Main(m) && UsesVideoPara(m) && ms == {m, AudioEs} {
        Two(m, AudioEs);
      } else {
        var m :| Jpeg(m) && ms == {File, m};
        Two(File, m);
      }
    }
  }

  lemma One(m: Mode)
    ensures Reached([m]) == {m}
  {
    assert [m][..0] == [];
  }

  lemma Two(a: Mode, b: Mode)
    requires a != b && a !in StopSet(b)
    ensures Reached([a, b]) == {a, b}
  {
    One(a);
    assert [a, b][..1] == [a];
  }

  // ---------------------------------------------------------------- mapped files

  /** AV_DataPlayPara_t: the mapping (with its descriptor) and whether it is to be released. */
  datatype DataPara = DataPara(id: nat, needFree: bool)

  datatype ErrorCode = Success | InvalidDevNo | Failed | NotSupported | CannotMap | Busy

  /** The driver's part in a start: has it open_mode, does that succeed, does start_mode. */
  datatype Driver = Driver(canOpen: bool, opens: bool, starts: bool)

  predicate HasVideo(ms: set<Mode>) {
    VideoEs in ms || GetJpeg in ms || DecodeJpeg in ms
  }

  /** A player's copy after these modes have been stopped out of those that were set. */
  function VideoAfter(p: DataPara, stopped: set<Mode>): DataPara {
    if HasVideo(stopped) then p.(needFree := false) else p
  }

  function AudioAfter(p: DataPara, stopped: set<Mode>): DataPara {
    if AudioEs in stopped then p.(needFree := false) else p
  }

  function Held(p: DataPara): set<nat> {
    if p.needFree then {p.id} else {}
  }

  class AvDevice {
    var openned: bool
    var mode: set<Mode>
    var vid: DataPara
    var aud: DataPara
    var next: nat                // mappings made so far are 0 .. next - 1
    var released: multiset<nat>  // munmap and close calls
    ghost var leaked: set<nat>   // mappings that nothing refers to any more
    ghost var audio: set<nat>    // mappings made for audio
    ghost var caller: set<nat>   // mappings that a call under way has on its stack only

    /**
     Every mapping has been released once, or is held by the one player that will release it when
     its mode is stopped, or by the call under way, or has leaked; audio mappings never leak.
     */
    ghost predicate Valid()
      reads this
    {
      && Exclusive(mode) && (!openned ==> mode == {})
      && (vid.needFree ==> HasVideo(mode))
      && (aud.needFree ==> AudioEs in mode)
      && Accounted(Held(vid), Held(aud))
      && leaked !! audio && Held(aud) <= audio && Held(vid) !! audio
      && (forall i :: i in audio || i in leaked ==> i < next)
    }

    /** Between two calls. */
    ghost predicate Idle()
      reads this
    {
      Valid() && caller == {}
    }

    /** The account of all mappings when v and a are the ones held for video and audio. */
    ghost predicate Accounted(v: set<nat>, a: set<nat>)
      reads this`next, this`released, this`leaked, this`caller
    {
      && v !! a && v !! leaked && a !! leaked && caller !! v && caller !! a && caller !! leaked
      && (forall i :: i in v || i in a || i in caller ==> i < next)
      && (forall i :: i in released ==> i < next)
      && forall i: nat {:trigger released[i]} ::
           i < next ==> released[i] == if i in v || i in a || i in caller || i in leaked then 0 else 1
    }

    constructor ()
      ensures Idle() && !openned && next == 0
    {
      openned, mode, next := false, {}, 0;
      vid, aud := DataPara(0, false), DataPara(0, false);
      released, leaked, audio, caller := multiset{}, {}, {}, {};
    }

    /** av_free_data_para on the video player's copy. */
    method FreeVideoPara()
      requires Accounted(Held(vid), Held(aud))
      modifies this`vid, this`released
      ensures vid == old(vid).(needFree := false) && Accounted(Held(vid), Held(aud))
    {
      if vid.needFree {
        released := released + multiset{vid.id};
        vid := vid.(needFree := false);
      }
    }

    method FreeAudioPara()
      requires Accounted(Held(vid), Held(aud))
      modifies this`aud, this`released
      ensures aud == old(aud).(needFree := false) && Accounted(Held(vid), Held(aud))
    {
      if aud.needFree {
        released := released + multiset{aud.id};
        aud := aud.(needFree := false);
      }
    }

    /** av_stop */
    method Stop(m: Mode)
      requires Valid()
      modifies this`mode, this`vid, this`aud, this`released
      ensures Valid() && mode == old(mode) - {m}
      ensures vid == VideoAfter(old(vid), old(mode) * {m})
      ensures aud == AudioAfter(old(aud), old(mode) * {m})
    {
      hide Exclusive, Accounted;
      StopKeepsExclusive(mode, {m});
      if m !in mode { return; }
      match m {
        case VideoEs => FreeVideoPara();
        case DecodeJpeg => FreeVideoPara();
        case GetJpeg => FreeVideoPara();
        case AudioEs => FreeAudioPara();
        case _ =>
      }
      mode := mode - {m};
    }

    /** The modes in done have been stopped, as far as ms asks for it. */
    ghost predicate Stopped(was: AvState, ms: set<Mode>, done: set<Mode>)
      reads this
    {
      && Valid() && mode == was.mode - ms * done
      && vid == VideoAfter(was.vid, was.mode * (ms * done)) && aud == AudioAfter(was.aud, was.mode * (ms * done))
    }

    method StopIf(m: Mode, ms: set<Mode>, ghost was: AvState, ghost done: set<Mode>)
      requires Stopped(was, ms, done)
      modifies this`mode, this`vid, this`aud, this`released
      ensures Stopped(was, ms, done + {m})
    {
      hide Exclusive, Accounted, Valid;
      if m in ms {
        assert was.mode * (ms * (done + {m})) == was.mode * (ms * done) + (was.mode - ms * done) * {m};
        Stop(m);
      } else {
        assert ms * (done + {m}) == ms * done;
      }
    }

    /** av_stop_all */
    method StopAll(ms: set<Mode>)
      requires Valid()
      modifies this`mode, this`vid, this`aud, this`released
      ensures Valid() && mode == old(mode) - ms
      ensures vid == VideoAfter(old(vid), old(mode) * ms)
      ensures aud == AudioAfter(old(aud), old(mode) * ms)
    {
      ghost var was := AvState(mode, vid, aud);
      assert ms * {} == {};
      AllIsAll(ms);
      StopIf(VideoEs, ms, was, {});
      StopIf(AudioEs, ms, was, {VideoEs});
      StopIf(GetJpeg, ms, was, {VideoEs} + {AudioEs});
      StopIf(DecodeJpeg, ms, was, {VideoEs} + {AudioEs} + {GetJpeg});
      StopIf(Ts, ms, was, {VideoEs} + {AudioEs} + {GetJpeg} + {DecodeJpeg});
      StopIf(File, ms, was, {VideoEs} + {AudioEs} + {GetJpeg} + {DecodeJpeg} + {Ts});
      StopIf(Inject, ms, was, {VideoEs} + {AudioEs} + {GetJpeg} + {DecodeJpeg} + {Ts} + {File});
      StopIf(Timeshift, ms, was, {VideoEs} + {AudioEs} + {GetJpeg} + {DecodeJpeg} + {Ts} + {File} + {Inject});
    }

    /** open, stat and mmap */
    method MapFile(m: Mode) returns (p: DataPara)
      requires Idle()
      modifies this`next, this`caller, this`audio
      ensures Valid() && caller == Held(p) && p == DataPara(old(next), true) && next == old(next) + 1
      ensures audio == if m == AudioEs then old(audio) + {p.id} else old(audio)
    {
      hide Exclusive;
      p := DataPara(next, true);
      next := next + 1;
      caller := {p.id};
      if m == AudioEs { audio := audio + {p.id}; }
    }

    /** av_free_data_para on the caller's own copy. */
    method FreeCallerPara(p: DataPara)
      requires Valid() && caller == Held(p)
      modifies this`released, this`caller
      ensures Idle()
    {
      hide Exclusive;
      if p.needFree {
        released := released + multiset{p.id};
        caller := {};
      }
    }

    /** The player takes over the caller's copy; what it held before has nobody left to release it. */
    method Record(m: Mode, p: DataPara)
      requires Valid() && m in mode && caller == Held(p)
      requires if m == AudioEs then caller <= audio && !aud.needFree else caller !! audio
      modifies this`vid, this`aud, this`leaked, this`caller
      ensures Valid()
      ensures vid == if UsesVideoPara(m) then p else old(vid)
      ensures aud == if m == AudioEs then p else old(aud)
      ensures leaked == if UsesVideoPara(m) then old(leaked) + Held(old(vid)) else old(leaked)
      ensures caller == if UsesVideoPara(m) || m == AudioEs then {} else old(caller)
    {
      hide Exclusive;
      if UsesVideoPara(m) {
        leaked := leaked + Held(vid);
        vid := p;
        caller := {};
      } else if m == AudioEs {
        aud := p;
        caller := {};
      }
    }

    /** After a failed start the player forgets what it took over, and the caller keeps it. */
    method Forget(m: Mode, p: DataPara)
      requires Idle()
      requires UsesVideoPara(m) ==> vid == p
      requires m == AudioEs ==> aud == p
      requires !UsesVideoPara(m) && m != AudioEs ==> !p.needFree
      modifies this`vid, this`aud, this`caller
      ensures Valid() && caller == Held(p)
      ensures vid == if UsesVideoPara(m) then p.(needFree := false) else old(vid)
      ensures aud == if m == AudioEs then p.(needFree := false) else old(aud)
    {
      hide Exclusive;
      caller := Held(p);
      if UsesVideoPara(m) {
        vid := vid.(needFree := false);
      } else if m == AudioEs {
        aud := aud.(needFree := false);
      }
    }

    /** Whether a start of m gets as far as setting its bit. */
    ghost predicate Opens(m: Mode, drv: Driver)
      reads this`mode
    {
      drv.canOpen && (drv.opens || m in mode - StopSet(m))
    }

    /** av_start; p is the data parameter block of the modes that have one. */
    method Start(m: Mode, p: DataPara, drv: Driver) returns (ret: ErrorCode)
      requires Valid() && openned && caller == Held(p)
      requires p.needFree ==> UsesVideoPara(m) || m == AudioEs
      requires if m == AudioEs then caller <= audio else caller !! audio
      modifies this`mode, this`vid, this`aud, this`released, this`leaked, this`caller
      ensures Valid()
      ensures ret.Success? <==> old(Opens(m, drv)) && drv.starts
      ensures ret.Success? || ret.Failed? || ret.NotSupported?
      ensures mode == old(mode) - StopSet(m) + if old(Opens(m, drv)) then {m} else {}
      ensures caller == if ret.Success? then {} else old(caller)
      ensures leaked == old(leaked) + old(if m == VideoEs && VideoEs in mode && drv.canOpen then Held(vid) else {})
      ensures ret.Success? && UsesVideoPara(m) ==> vid == p
      ensures ret.Success? && m == AudioEs ==> aud == p
    {
      hide Accounted;
      StartKeepsExclusive(mode, m);
      StopSets(mode, m);
      hide Exclusive;
      StopAll(StopSet(m));
      if drv.canOpen && m !in mode {
        if !drv.opens { return Failed; }
      } else if !drv.canOpen {
        return NotSupported;
      }
      mode := mode + {m};
      assert mode == old(mode) - StopSet(m) + {m};
      Record(m, p);
      if !drv.starts {
        Forget(m, p);
        return Failed;
      }
      return Success;
    }

    // -------------------------------------------------------------- the calls

    /** AM_AV_Open; a failing driver leaves the device marked open. */
    method Open(drvOk: bool) returns (ret: ErrorCode)
      requires Idle()
      modifies this`openned, this`mode
      ensures Idle() && openned && mode == old(mode)
      ensures ret == if old(openned) then Busy else if drvOk then Success else Failed
    {
      hide Accounted, Exclusive;
      if openned { return Busy; }
      openned, mode := true, {};
      return if drvOk then Success else Failed;
    }

    /**
     AM_AV_Close: every file mapped for audio has then been released exactly once, and so has
     every other one that did not leak.
     */
    method Close() returns (ret: ErrorCode)
      requires Idle()
      modifies this`openned, this`mode, this`vid, this`aud, this`released
      ensures Idle() && !openned && (ret.Success? <==> old(openned))
      ensures forall i: nat :: i < next ==> released[i] == if i in leaked then 0 else 1
      ensures forall i: nat :: i in audio ==> released[i] == 1
    {
      hide Exclusive;
      if !openned { return InvalidDevNo; }
      StopAll(mode);
      openned := false;
      return Success;
    }

    /** AM_AV_StartAudioES, AM_AV_StartVideoES, AM_AV_GetJPEGInfo and AM_AV_DecodeJPEG */
    method PlayFile(m: Mode, mapped: bool, drv: Driver) returns (ret: ErrorCode)
      requires Idle() && (UsesVideoPara(m) || m == AudioEs)
      modifies this
      ensures Idle() && openned == old(openned)
      ensures (ret.InvalidDevNo? <==> !openned) && (ret.CannotMap? <==> openned && !mapped)
      ensures !openned || !mapped ==> mode == old(mode) && next == old(next) && leaked == old(leaked)
      ensures openned && mapped ==>
                && next == old(next) + 1
                && (ret.Success? <==> old(Opens(m, drv)) && drv.starts)
                && mode == old(mode) - StopSet(m)
                           + (if old(Opens(m, drv)) && !(Jpeg(m) && drv.starts) then {m} else {})
                && leaked == old(leaked) + old(if m == VideoEs && VideoEs in mode && drv.canOpen then Held(vid) else {})
                && (ret.Success? && m == VideoEs ==> vid == DataPara(old(next), true))
                && (ret.Success? && m == AudioEs ==> aud == DataPara(old(next), true))
    {
      hide Accounted, Exclusive;
      if !openned { return InvalidDevNo; }
      if !mapped { return CannotMap; }
      var para := MapFile(m);
      ret := Start(m, para, drv);
      if ret.Success? && Jpeg(m) {
        Stop(m);
        assert m !in old(mode) - StopSet(m);
      }
      if !ret.Success? { FreeCallerPara(para); }
    }

    /** The same calls on data in memory, which nobody has to release. */
    method PlayData(m: Mode, drv: Driver) returns (ret: ErrorCode)
      requires Idle() && (UsesVideoPara(m) || m == AudioEs)
      modifies this
      ensures Idle() && openned == old(openned) && next == old(next)
      ensures openned ==>
                && (ret.Success? <==> old(Opens(m, drv)) && drv.starts)
                && mode == old(mode) - StopSet(m)
                           + (if old(Opens(m, drv)) && !(Jpeg(m) && drv.starts) then {m} else {})
                && leaked == old(leaked) + old(if m == VideoEs && VideoEs in mode && drv.canOpen then Held(vid) else {})
    {
      hide Accounted, Exclusive;
      if !openned { return InvalidDevNo; }
      ret := Start(m, DataPara(0, false), drv);
      if ret.Success? && Jpeg(m) {
        Stop(m);
        assert m !in old(mode) - StopSet(m);
      }
    }

    /** AM_AV_StartTSWithPCR, AM_AV_StartFile, AM_AV_AddFile, AM_AV_StartInject and AM_AV_StartTimeshift */
    method Play(m: Mode, drv: Driver) returns (ret: ErrorCode)
      requires Idle() && !UsesVideoPara(m) && m != AudioEs
      modifies this
      ensures Idle() && openned == old(openned) && next == old(next) && leaked == old(leaked)
      ensures openned ==>
                && (ret.Success? <==> drv.canOpen && drv.opens && drv.starts)
                && mode == if drv.canOpen && drv.opens then {m} else {}
    {
      hide Accounted, Exclusive;
      if !openned { return InvalidDevNo; }
      assert old(mode) - All() == {} by { AllOf(old(mode)); }
      ret := Start(m, DataPara(0, false), drv);
    }

    /** AM_AV_StopTS and its like */
    method StopCall(m: Mode) returns (ret: ErrorCode)
      requires Idle()
      modifies this`mode, this`vid, this`aud, this`released
      ensures Idle() && mode == old(mode) - {m}
      ensures ret.Success? <==> openned
    {
      hide Accounted, Exclusive;
      if !openned { return InvalidDevNo; }
      Stop(m);
      return Success;
    }
  }

  /** Two video files in a row, the second without a stop of the first: closing never releases the first. */
  method RestartLeaks() returns (d: AvDevice)
    ensures fresh(d) && d.Idle() && !d.openned && d.next == 2
    ensures d.leaked == {0} && d.released[0] == 0 && d.released[1] == 1
  {
    hide Exclusive, AvDevice.Accounted;
    var fine := Driver(true, true, true);
    d := new AvDevice();
    var ret := d.Open(true);
    ret := d.PlayFile(VideoEs, true, fine);
    ret := d.PlayFile(VideoEs, true, fine);
    ret := d.Close();
  }

  lemma EveryMode(m: Mode)
    ensures m in All()
  {
  }

  lemma AllOf(ms: set<Mode>)
    ensures ms - All() == {}
  {
    forall m | m in ms
      ensures m in All()
    {
      EveryMode(m);
    }
  }

  /** What the stop sets leave: only a video that is started again without a stop keeps its data. */
  lemma StopSets(ms: set<Mode>, m: Mode)
    requires Exclusive(ms)
    ensures m in ms - StopSet(m) ==> m == VideoEs
    ensures Jpeg(m) ==> !HasVideo(ms - StopSet(m))
    ensures m == VideoEs && VideoEs !in ms ==> !HasVideo(ms - StopSet(m))
    ensures m == VideoEs && VideoEs in ms ==> !HasVideo(ms * StopSet(m))
    ensures m == AudioEs ==> AudioEs !in ms - StopSet(m)
  {
  }

  datatype AvState = AvState(mode: set<Mode>, vid: DataPara, aud: DataPara)

  lemma AllIsAll(ms: set<Mode>)
    ensures ms * ({VideoEs} + {AudioEs} + {GetJpeg} + {DecodeJpeg} + {Ts} + {File} + {Inject} + {Timeshift}) == ms
  {
    forall m | m in ms
      ensures m in {VideoEs} + {AudioEs} + {GetJpeg} + {DecodeJpeg} + {Ts} + {File} + {Inject} + {Timeshift}
    {
      EveryMode(m);
    }
  }
}
