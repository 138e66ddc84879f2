/** The event table: fifty bucket lists that stand for one list of subscriptions. */
module Evt {
  const AM_EVT_BUCKET_COUNT := 50

  /** A subscription; cb and data are compared as pointers are. */
  datatype Sub = Sub(dev: int, kind: nat, cb: int, data: int)

  datatype ErrorCode = Success | NoMem | NotSubscribed

  predicate SameKey(a: Sub, b: Sub) {
    a.dev == b.dev && a.kind == b.kind && a.cb == b.cb
  }

  predicate Holds(list: seq<Sub>, s: Sub) {
    exists i :: 0 <= i < |list| && SameKey(list[i], s)
  }

  // ---------------------------------------------------------------- the flat list

  /** AM_EVT_Subscribe on the flat list: newest first, no second entry with the same key. */
  function Added(list: seq<Sub>, s: Sub): seq<Sub> {
    if Holds(list, s) then list else [s] + list
  }

  /** The list without the first entry equal to s. */
  function Removed(list: seq<Sub>, s: Sub): seq<Sub> {
    if list == [] then []
    else if list[0] == s then list[1..]
    else [list[0]] + Removed(list[1..], s)
  }

  /** The subscriptions that a signal calls, in order. */
  function Called(list: seq<Sub>, dev: int, kind: nat): seq<Sub> {
    if list == [] then []
    else if list[0].dev == dev && list[0].kind == kind then [list[0]] + Called(list[1..], dev, kind)
    else Called(list[1..], dev, kind)
  }

  predicate Distinct(list: seq<Sub>) {
    forall i, j :: 0 <= i < j < |list| ==> !SameKey(list[i], list[j])
  }

  // ---------------------------------------------------------------- buckets

  function Bucket(list: seq<Sub>, p: nat): seq<Sub> {
    if list == [] then []
    else if list[0].kind % AM_EVT_BUCKET_COUNT == p then [list[0]] + Bucket(list[1..], p)
    else Bucket(list[1..], p)
  }

  lemma BucketOfAdded(list: seq<Sub>, s: Sub, p: nat)
    ensures Bucket([s] + list, p)
         == if s.kind % AM_EVT_BUCKET_COUNT == p then [s] + Bucket(list, p) else Bucket(list, p)
  {
    assert ([s] + list)[1..] == list;
  }

  lemma {:induction false} BucketOfRemoved(list: seq<Sub>, s: Sub, p: nat)
    ensures Bucket(Removed(list, s), p)
         == if s.kind % AM_EVT_BUCKET_COUNT == p then Removed(Bucket(list, p), s) else Bucket(list, p)
  {
    if list != [] {
      var t := list[1..];
      BucketOfRemoved(t, s, p);
      assert list == [list[0]] + t;
      BucketOfAdded(t, list[0], p);
      assert ([list[0]] + Bucket(t, p))[1..] == Bucket(t, p);
      if list[0] != s { BucketOfAdded(Removed(t, s), list[0], p); }
    }
  }

  /** A signal finds in its bucket exactly what it would find in the whole list. */
  lemma {:induction false} CalledInBucket(list: seq<Sub>, dev: int, kind: nat)
    ensures Called(Bucket(list, kind % AM_EVT_BUCKET_COUNT), dev, kind) == Called(list, dev, kind)
  {
    if list != [] {
      var p := kind % AM_EVT_BUCKET_COUNT;
      CalledInBucket(list[1..], dev, kind);
      if list[0].kind % AM_EVT_BUCKET_COUNT == p {
        assert Bucket(list, p)[1..] == Bucket(list[1..], p);
      }
    }
  }

  lemma {:induction false} InBucket(list: seq<Sub>, s: Sub, p: nat)
    ensures s in Bucket(list, p) <==> s in list && s.kind % AM_EVT_BUCKET_COUNT == p
  {
    if list != [] {
      InBucket(list[1..], s, p);
      assert list == [list[0]] + list[1..];
    }
  }

  lemma {:induction false} RemovedAt(list: seq<Sub>, s: Sub, k: nat)
    requires k < |list| && list[k] == s && s !in list[..k]
    ensures Removed(list, s) == list[..k] + list[k + 1..]
  {
    if k > 0 {
      assert list[..k] == [list[0]] + list[1..][..k - 1];
      RemovedAt(list[1..], s, k - 1);
    }
  }

  lemma {:induction false} RemovedAbsent(list: seq<Sub>, s: Sub)
    requires s !in list
    ensures Removed(list, s) == list
  {
    if list != [] { RemovedAbsent(list[1..], s); }
  }

  lemma HeadIsDistinct(list: seq<Sub>)
    requires Distinct(list) && list != []
    ensures Distinct(list[1..]) && forall x :: x in list[1..] ==> !SameKey(list[0], x)
  {
  }

  /** Only s goes, and what is left still has no two entries with the same key. */
  lemma {:induction false} RemovedIsSubset(list: seq<Sub>, s: Sub)
    requires Distinct(list)
    ensures Distinct(Removed(list, s))
    ensures forall x :: x in Removed(list, s) <==> x in list && x != s
  {
    if list != [] {
      var h, t := list[0], list[1..];
      assert list == [h] + t;
      HeadIsDistinct(list);
      RemovedIsSubset(t, s);
      if h != s {
        var r := Removed(t, s);
        forall j | 0 <= j < |r|
          ensures !SameKey(h, r[j])
        {
          assert r[j] in t;
        }
      }
    }
  }

  /** Which fields keep a subscription out: device, type and callback, not the data. */
  lemma AddedIff(list: seq<Sub>, s: Sub, x: Sub)
    ensures x in Added(list, s)
       <==> x in list || (x == s && forall e :: e in list ==> e.dev != s.dev || e.kind != s.kind || e.cb != s.cb)
    ensures Added(list, s) == list || Added(list, s) == [s] + list
  {
    if Holds(list, s) {
      var i :| 0 <= i < |list| && SameKey(list[i], s);
      assert list[i] in list;
    }
  }

  // ---------------------------------------------------------------- the table

  class EventTable {
    const events: array<seq<Sub>>
    ghost var list: seq<Sub>  // what the buckets stand for

    ghost predicate Valid()
      reads this, events
    {
      && events.Length == AM_EVT_BUCKET_COUNT
      && (forall p :: 0 <= p < AM_EVT_BUCKET_COUNT ==> events[p] == Bucket(list, p))
      && Distinct(list)
    }

    constructor ()
      ensures Valid() && fresh(events) && list == []
    {
      events := new seq<Sub>[AM_EVT_BUCKET_COUNT](_ => []);
      list := [];
    }

    /** The search of AM_EVT_Subscribe through all the buckets. */
    method Find(s: Sub) returns (found: bool)
      requires Valid()
      ensures found <==> Holds(list, s)
    {
      var i := 0;
      while i < AM_EVT_BUCKET_COUNT
        invariant 0 <= i <= AM_EVT_BUCKET_COUNT
        invariant forall p :: 0 <= p < i ==> !Holds(events[p], s)
      {
        var k := 0;
        while k < |events[i]|
          invariant 0 <= k <= |events[i]|
          invariant forall j :: 0 <= j < k ==> !SameKey(events[i][j], s)
        {
          if SameKey(events[i][k], s) {
            InBucket(list, events[i][k], i);
            return true;
          }
          k := k + 1;
        }
        i := i + 1;
      }
      if Holds(list, s) {
        ghost var j :| 0 <= j < |list| && SameKey(list[j], s);
        ghost var p := list[j].kind % AM_EVT_BUCKET_COUNT;
        InBucket(list, list[j], p);
        assert false;
      }
      return false;
    }

    /** AM_EVT_Subscribe; memory tells whether a node can be had. */
    method Subscribe(s: Sub, memory: bool) returns (ret: ErrorCode)
      requires Valid()
      modifies this, events
      ensures Valid()
      ensures ret == if memory || Holds(old(list), s) then Success else NoMem
      ensures list == if ret.Success? then Added(old(list), s) else old(list)
    {
      var found := Find(s);
      if found { return Success; }
      if !memory { return NoMem; }
      var pos := s.kind % AM_EVT_BUCKET_COUNT;
      forall p {
        BucketOfAdded(list, s, p);
      }
      events[pos] := [s] + events[pos];
      list := [s] + list;
      return Success;
    }

    /** AM_EVT_Unsubscribe */
    method Unsubscribe(s: Sub) returns (ret: ErrorCode)
      requires Valid()
      modifies this, events
      ensures Valid()
      ensures ret == if s in old(list) then Success else NotSubscribed
      ensures list == Removed(old(list), s)
    {
      var pos := s.kind % AM_EVT_BUCKET_COUNT;
      var k := 0;
      while k < |events[pos]| && events[pos][k] != s
        invariant 0 <= k <= |events[pos]|
        invariant s !in events[pos][..k]
      {
        k := k + 1;
      }
      InBucket(list, s, pos);
      if k < |events[pos]| {
        RemovedIsSubset(list, s);
        RemovedAt(events[pos], s, k);
        forall p {
          BucketOfRemoved(list, s, p);
        }
        events[pos] := events[pos][..k] + events[pos][k + 1..];
        list := Removed(list, s);
        return Success;
      }
      RemovedAbsent(list, s);
      return NotSubscribed;
    }

    /** AM_EVT_Signal: the callbacks it calls, in order. */
    method Signal(dev: int, kind: nat) returns (calls: seq<Sub>)
      requires Valid()
      ensures calls == Called(list, dev, kind)
    {
      var pos := kind % AM_EVT_BUCKET_COUNT;
      var evt := events[pos];
      calls := [];
      CalledInBucket(list, dev, kind);
      while evt != []
        invariant calls + Called(evt, dev, kind) == Called(list, dev, kind)
        decreases |evt|
      {
        if evt[0].dev == dev && evt[0].kind == kind {
          assert calls + Called(evt, dev, kind) == calls + [evt[0]] + Called(evt[1..], dev, kind);
          calls := calls + [evt[0]];
        }
        evt := evt[1..];
      }
    }
  }

  // ---------------------------------------------------------------- what a signal calls

  /** Exactly the matching subscriptions are called, each once. */
  lemma {:induction false} CalledExactly(list: seq<Sub>, dev: int, kind: nat)
    requires Distinct(list)
    ensures forall x :: x in Called(list, dev, kind) <==> x in list && x.dev == dev && x.kind == kind
    ensures Distinct(Called(list, dev, kind))
  {
    if list != [] {
      var h, t := list[0], list[1..];
      var c := Called(t, dev, kind);
      assert list == [h] + t;
      HeadIsDistinct(list);
      CalledExactly(t, dev, kind);
      forall j | 0 <= j < |c|
        ensures !SameKey(h, c[j])
      {
        assert c[j] in t;
      }
    }
  }

  /**
   What a signal calls changes by an operation as the whole list does if the operation is about
   the signal's device and type, and not at all otherwise: newest first, order kept.
   */
  lemma CalledOfStep(list: seq<Sub>, op: Op, dev: int, kind: nat)
    requires Distinct(list)
    ensures Called(Step(list, op), dev, kind)
         == if op.s.dev == dev && op.s.kind == kind then Step(Called(list, dev, kind), op) else Called(list, dev, kind)
  {
    hide *;
    CalledOfAdded(list, op.s, dev, kind);
    CalledOfRemoved(list, op.s, dev, kind);
    StepIs(list, op);
    StepIs(Called(list, dev, kind), op);
  }

  lemma StepIs(list: seq<Sub>, op: Op)
    ensures Step(list, op) == if op.Subscribe? then Added(list, op.s) else Removed(list, op.s)
  {
  }

  lemma CalledOfAdded(list: seq<Sub>, s: Sub, dev: int, kind: nat)
    requires Distinct(list)
    ensures var c := Called(list, dev, kind);
            Called(Added(list, s), dev, kind) == if s.dev == dev && s.kind == kind then Added(c, s) else c
  {
    var c := Called(list, dev, kind);
    CalledExactly(list, dev, kind);
    assert ([s] + list)[1..] == list;
    if s.dev == dev && s.kind == kind {
      if i :| 0 <= i < |list| && SameKey(list[i], s) {
        assert list[i] in c;
        var j :| 0 <= j < |c| && c[j] == list[i];
        assert SameKey(c[j], s);
      }
      if i :| 0 <= i < |c| && SameKey(c[i], s) {
        assert c[i] in list;
        var j :| 0 <= j < |list| && list[j] == c[i];
        assert SameKey(list[j], s);
      }
    }
  }

  lemma {:induction false} CalledOfRemoved(list: seq<Sub>, s: Sub, dev: int, kind: nat)
    ensures var c := Called(list, dev, kind);
            Called(Removed(list, s), dev, kind) == if s.dev == dev && s.kind == kind then Removed(c, s) else c
  {
    if list != [] {
      var h, t := list[0], list[1..];
      CalledOfRemoved(t, s, dev, kind);
      assert ([h] + Removed(t, s))[1..] == Removed(t, s);
      assert ([h] + Called(t, dev, kind))[1..] == Called(t, dev, kind);
    }
  }

  // ---------------------------------------------------------------- whole runs

  datatype Op = Subscribe(s: Sub) | Unsubscribe(s: Sub)

  function Step(list: seq<Sub>, op: Op): seq<Sub> {
    if op.Subscribe? then Added(list, op.s) else Removed(list, op.s)
  }

  function After(ops: seq<Op>): seq<Sub> {
    if ops == [] then [] else Step(After(ops[..|ops| - 1]), ops[|ops| - 1])
  }

  lemma {:induction false} RunsAreDistinct(ops: seq<Op>)
    ensures Distinct(After(ops))
  {
    if ops != [] {
      var list, op := After(ops[..|ops| - 1]), ops[|ops| - 1];
      RunsAreDistinct(ops[..|ops| - 1]);
      if op.Unsubscribe? { RemovedIsSubset(list, op.s); }
    }
  }

  /** Operation i put s into the list. */
  predicate TookEffect(ops: seq<Op>, i: nat, s: Sub)
    requires i < |ops|
  {
    ops[i] == Subscribe(s) && !Holds(After(ops[..i]), s)
  }

  /** ... and nothing has taken it out again. */
  predicate KeptSince(ops: seq<Op>, i: nat, s: Sub)
    requires i < |ops|
  {
    TookEffect(ops, i, s) && Unsubscribe(s) !in ops[i + 1..]
  }

  lemma KeptByLast(ops: seq<Op>, i: nat, s: Sub)
    requires i < |ops|
    ensures var n := |ops| - 1;
            KeptSince(ops, i, s) <==>
              if i == n then ops[n] == Subscribe(s) && !Holds(After(ops[..n]), s)
              else KeptSince(ops[..n], i, s) && ops[n] != Unsubscribe(s)
  {
    var n := |ops| - 1;
    var before := ops[..n];
    if i < n {
      assert before[..i] == ops[..i];
      assert ops[i + 1..] == before[i + 1..] + [ops[n]];
    }
  }

  /**
   A subscription is in force exactly when some subscribe call for it took effect, because nothing
   with the same device, type and callback was in force, and no unsubscribe followed. A call that
   only differs in data from one in force succeeds without effect.
   */
  lemma {:induction false} InForceIff(ops: seq<Op>, s: Sub)
    ensures s in After(ops) <==> exists i :: 0 <= i < |ops| && KeptSince(ops, i, s)
  {
    hide KeptSince, Distinct, Holds, Step;
    if ops != [] {
      var n := |ops| - 1;
      var before := ops[..n];
      InForceIff(before, s);
      RunsAreDistinct(before);
      LastStep(After(before), ops[n], s);
      KeptByLast(ops, n, s);
      if i :| 0 <= i < n && KeptSince(before, i, s) { KeptByLast(ops, i, s); }
      if i :| 0 <= i < |ops| && KeptSince(ops, i, s) { KeptByLast(ops, i, s); }
    }
  }

  lemma LastStep(list: seq<Sub>, op: Op, s: Sub)
    requires Distinct(list)
    ensures s in Step(list, op)
       <==> (op == Subscribe(s) && !Holds(list, s)) || (s in list && op != Unsubscribe(s))
  {
    if op.Unsubscribe? { RemovedIsSubset(list, op.s); }
  }

  // ---------------------------------------------------------------- one call for each callback

  predicate OnlySubscribes(ops: seq<Op>) {
    forall i :: 0 <= i < |ops| ==> ops[i].Subscribe?
  }

  /** Operation k is a subscription for this device, type and callback. */
  predicate AsksFor(ops: seq<Op>, k: nat, dev: int, kind: nat, cb: int)
    requires k < |ops|
  {
    ops[k].s.dev == dev && ops[k].s.kind == kind && ops[k].s.cb == cb
  }

  /** x is what the first subscription for its device, type and callback asked for. */
  predicate IsFirst(ops: seq<Op>, x: Sub) {
    exists k :: 0 <= k < |ops| && ops[k].s == x && forall j :: 0 <= j < k ==> !AsksFor(ops, j, x.dev, x.kind, x.cb)
  }

  /** Among subscriptions only, what is in force is exactly the first of each device, type and callback. */
  lemma {:induction false} FirstsAreInForce(ops: seq<Op>, x: Sub)
    requires OnlySubscribes(ops)
    ensures x in After(ops) <==> IsFirst(ops, x)
  {
    if ops != [] {
      var n := |ops| - 1;
      var before := ops[..n];
      FirstsAreInForce(before, x);
      AddedIff(After(before), ops[n].s, x);
      NoneBefore(before, x);
      assert forall j :: 0 <= j < n ==> AsksFor(ops, j, x.dev, x.kind, x.cb) == AsksFor(before, j, x.dev, x.kind, x.cb);
      IsFirstStep(ops, x);
    }
  }

  lemma IsFirstStep(ops: seq<Op>, x: Sub)
    requires ops != []
    ensures var n := |ops| - 1;
            IsFirst(ops, x) <==>
              IsFirst(ops[..n], x)
              || (ops[n].s == x && forall j :: 0 <= j < n ==> !AsksFor(ops, j, x.dev, x.kind, x.cb))
  {
    var n := |ops| - 1;
    var before := ops[..n];
    assert forall j :: 0 <= j < n ==> AsksFor(ops, j, x.dev, x.kind, x.cb) == AsksFor(before, j, x.dev, x.kind, x.cb);
    if k :| 0 <= k < |before| && before[k].s == x
            && forall j :: 0 <= j < k ==> !AsksFor(before, j, x.dev, x.kind, x.cb) {
      assert ops[k].s == x;
    }
    if k :| 0 <= k < n && ops[k].s == x && forall j :: 0 <= j < k ==> !AsksFor(ops, j, x.dev, x.kind, x.cb) {
      assert before[k].s == x;
    }
  }

  /** Nothing with x's device, type and callback is in force exactly if nobody has asked for it. */
  lemma {:induction false} NoneBefore(ops: seq<Op>, x: Sub)
    requires OnlySubscribes(ops)
    ensures (forall e :: e in After(ops) ==> e.dev != x.dev || e.kind != x.kind || e.cb != x.cb)
       <==> forall j :: 0 <= j < |ops| ==> !AsksFor(ops, j, x.dev, x.kind, x.cb)
  {
    if ops != [] {
      var n := |ops| - 1;
      var before := ops[..n];
      var list := After(before);
      NoneBefore(before, x);
      assert forall j :: 0 <= j < n ==> AsksFor(ops, j, x.dev, x.kind, x.cb) == AsksFor(before, j, x.dev, x.kind, x.cb);
      forall e
        ensures e in After(ops) <==>
                  e in list
                  || (e == ops[n].s && forall f :: f in list ==> f.dev != e.dev || f.kind != e.kind || f.cb != e.cb)
      {
        AddedIff(list, ops[n].s, e);
      }
      if AsksFor(ops, n, x.dev, x.kind, x.cb) {
        var e := ops[n].s;
        if f :| f in list && f.dev == e.dev && f.kind == e.kind && f.cb == e.cb {
          assert f in After(ops);
        } else {
          assert e in After(ops);
        }
      }
    }
  }

  /**
   After any subscriptions a signal calls each callback subscribed for its device and type exactly
   once, with the data of the first subscription for it.
   */
  lemma OnePerCallback(ops: seq<Op>, dev: int, kind: nat)
    requires OnlySubscribes(ops)
    ensures var c := Called(After(ops), dev, kind);
            && (forall i, j :: 0 <= i < j < |c| ==> c[i].cb != c[j].cb)
            && (forall x :: x in c <==> x.dev == dev && x.kind == kind && IsFirst(ops, x))
            && (forall k :: 0 <= k < |ops| && ops[k].s.dev == dev && ops[k].s.kind == kind ==>
                  exists x :: x in c && x.cb == ops[k].s.cb)
  {
    var list := After(ops);
    var c := Called(list, dev, kind);
    RunsAreDistinct(ops);
    CalledExactly(list, dev, kind);
    forall i, j | 0 <= i < j < |c|
      ensures c[i].cb != c[j].cb
    {
      assert c[i] in c && c[j] in c && !SameKey(c[i], c[j]);
    }
    forall x
      ensures x in c <==> x.dev == dev && x.kind == kind && IsFirst(ops, x)
    {
      FirstsAreInForce(ops, x);
    }
    forall k | 0 <= k < |ops| && ops[k].s.dev == dev && ops[k].s.kind == kind
      ensures exists x :: x in c && x.cb == ops[k].s.cb
    {
      NoneBefore(ops, ops[k].s);
      assert AsksFor(ops, k, dev, kind, ops[k].s.cb);
      var e :| e in list && e.dev == dev && e.kind == kind && e.cb == ops[k].s.cb;
      assert e in c;
    }
  }
}
