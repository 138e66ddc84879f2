/** The demultiplexer's filters and what stopping and freeing one does. */
module DmxPool {
  import opened Bytes

  const FILTER_COUNT := 32

  /** Handler and argument of a filter, always written together. */
  datatype Callback = Callback(cb: Option<nat>, data: nat)

  datatype Filter = Filter(used: bool, enable: bool, callback: Callback)

  const SUCCESS := 0
  const NO_FREE_FILTER := 1
  const INVALID_ID := 2
  const NOT_ALLOCATED := 3

  predicate ValidId(fid: int) { 0 <= fid < FILTER_COUNT }

  /** dmx_get_used_filter */
  function Lookup(filters: seq<Filter>, fid: int): (ret: int)
    requires |filters| == FILTER_COUNT
  {
    if !ValidId(fid) then INVALID_ID
    else if !filters[fid].used then NOT_ALLOCATED
    else SUCCESS
  }

  /** dmx_stop_filter: a positive answer of the driver stops the filter and is still returned. */
  function StopOne(f: Filter, drv: int): (r: (Filter, int)) {
    if !f.used || !f.enable then (f, SUCCESS)
    else (if drv >= 0 then f.(enable := false) else f, drv)
  }

  /** dmx_free_filter */
  function FreeOne(f: Filter, drvStop: int, drvFree: int): (r: (Filter, int)) {
    if !f.used then (f, SUCCESS) else
    var (g, ret) := StopOne(f, drvStop);
    if ret != SUCCESS then (g, ret)
    else if drvFree != SUCCESS then (g, drvFree)
    else (g.(used := false), SUCCESS)
  }

  function FirstUnused(filters: seq<Filter>, from: nat): (fid: nat)
    requires from <= |filters|
    ensures from <= fid <= |filters|
    ensures fid < |filters| ==> !filters[fid].used
    ensures forall k :: from <= k < fid ==> filters[k].used
    decreases |filters| - from
  {
    if from == |filters| || !filters[from].used then from else FirstUnused(filters, from + 1)
  }

  // ---------------------------------------------------------------- stopping, then freeing

  /** The driver's answers to come; behind the end of the list every call succeeds. */
  type Answers = seq<int>

  function Answer(ds: Answers): int {
    if ds == [] then SUCCESS else ds[0]
  }

  function Later(ds: Answers): Answers {
    if ds == [] then [] else ds[1..]
  }

  /** A filter after a call, with the answers that are left and the return value. */
  datatype Done = Done(filter: Filter, answers: Answers, ret: int)

  /** AM_DMX_StopFilter on a filter of the pool; the driver is asked only for an enabled one. */
  function Stopped(f: Filter, ds: Answers): Done {
    if !f.used then Done(f, ds, NOT_ALLOCATED)
    else if !f.enable then Done(f, ds, SUCCESS)
    else Done(StopOne(f, Answer(ds)).0, Later(ds), StopOne(f, Answer(ds)).1)
  }

  /** AM_DMX_FreeFilter, which stops the filter first. */
  function Freed(f: Filter, ds: Answers): Done {
    var s := Stopped(f, ds);
    if s.ret != SUCCESS then s
    else
      var r := FreeOne(f, Answer(ds), Answer(s.answers));
      Done(r.0, Later(s.answers), r.1)
  }

  function StoppedAndFreed(f: Filter, ds: Answers): Done {
    var s := Stopped(f, ds);
    Freed(s.filter, s.answers)
  }

  /**
   Stopping and then freeing a used filter leaves it in use exactly if the last driver call that
   is needed does not succeed. An enabled filter gets a second attempt at disabling it, inside the
   free, when the first one fails with a negative answer.
   */
  lemma StaysUsedIff(f: Filter, ds: Answers)
    requires f.used
    ensures StoppedAndFreed(f, ds).filter.used
       <==> if !f.enable then Answer(ds) != SUCCESS
            else if Answer(ds) >= 0 then Answer(Later(ds)) != SUCCESS
            else Answer(Later(ds)) != SUCCESS || Answer(Later(Later(ds))) != SUCCESS
  {
  }

  /** How often freeing a filter asks the driver: to free it only once it is disabled. */
  lemma FreeAsks(f: Filter, ds: Answers)
    requires f.used && |ds| >= 2
    ensures Freed(f, ds).answers == if f.enable && ds[0] == SUCCESS then ds[2..] else ds[1..]
    ensures Stopped(f, ds).answers == if f.enable then ds[1..] else ds
  {
  }
}
