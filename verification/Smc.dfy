/** AM_SMC_TransferT0 over its two rings and a driver that moves bytes piecemeal and may fail. */
module Smc {
  import opened Bytes
  import opened Ring
  import opened T0

  /** How one driver call goes: it moves up to n bytes, perhaps past the deadline, or fails. */
  datatype Grant = Move(n: nat, late: bool) | Fail

  /** How many of want bytes the driver calls move, have being there, until one fails or the deadline has passed. */
  function Moved(grants: seq<Grant>, have: nat, want: nat): (n: nat)
    ensures n <= want && n <= have
  {
    if want == 0 || grants == [] || grants[0].Fail? then 0
    else
      var n := MovedAtOnce(grants[0], have, want);
      if n < want && grants[0].late then n else n + Moved(grants[1..], have - n, want - n)
  }

  function MovedAtOnce(g: Grant, have: nat, want: nat): (n: nat)
    requires g.Move?
    ensures n <= want && n <= have && n <= g.n
  {
    var n := if g.n < want then g.n else want;
    if have < n then have else n
  }

  /** The bytes that k driver calls could move. */
  function Offered(grants: seq<Grant>, k: nat): nat
    requires k <= |grants|
  {
    if k == 0 then 0 else (if grants[0].Move? then grants[0].n else 0) + Offered(grants[1..], k - 1)
  }

  /** k calls without a failure can move want bytes, and the deadline does not pass before the last of them. */
  predicate Enough(grants: seq<Grant>, want: nat, k: nat) {
    && 0 < k <= |grants| && (forall i :: 0 <= i < k ==> grants[i].Move?)
    && (forall i :: 0 <= i < k - 1 ==> !grants[i].late) && want <= Offered(grants, k)
  }

  lemma {:induction false} EnoughMoveAll(grants: seq<Grant>, have: nat, want: nat, k: nat)
    requires want <= have && Enough(grants, want, k)
    ensures Moved(grants, have, want) == want
  {
    if 0 < want && grants[0].n < want {
      var n := grants[0].n;
      assert Offered(grants, k) == n + Offered(grants[1..], k - 1);
      assert k > 1 && !grants[0].late;
      EnoughMoveAll(grants[1..], have - n, want - n, k - 1);
    }
  }

  lemma {:induction false} AllMovedAreEnough(grants: seq<Grant>, have: nat, want: nat) returns (k: nat)
    requires 0 < want && Moved(grants, have, want) == want
    ensures Enough(grants, want, k)
  {
    var n := MovedAtOnce(grants[0], have, want);
    if n == want {
      k := 1;
      assert Offered(grants, 1) == grants[0].n + Offered(grants[1..], 0);
    } else {
      var j := AllMovedAreEnough(grants[1..], have - n, want - n);
      k := j + 1;
      assert Offered(grants, k) == grants[0].n + Offered(grants[1..], j);
      forall i | 0 <= i < k
        ensures grants[i].Move? && (i < k - 1 ==> !grants[i].late)
      {
        if i > 0 { assert grants[i] == grants[1..][i - 1]; }
      }
    }
  }

  /** A transfer is complete exactly if the bytes are there and enough calls succeed in time. */
  lemma AllMovedIff(grants: seq<Grant>, have: nat, want: nat)
    ensures Moved(grants, have, want) == want
       <==> want == 0 || (want <= have && exists k: nat :: Enough(grants, want, k))
  {
    hide Enough;
    if want > 0 && Moved(grants, have, want) == want {
      var k := AllMovedAreEnough(grants, have, want);
    }
    if k: nat :| want <= have && Enough(grants, want, k) { EnoughMoveAll(grants, have, want, k); }
  }

  /** The driver and the card behind it; both are arbitrary. */
  class Driver {
    var answers: seq<byte>     // what the card has still to send
    var grants: seq<Grant>     // how the next calls will go; none left: failure
    ghost var taken: seq<byte> // what has been read from the card
    ghost var sent: seq<byte>  // what has been written to it

    method NextGrant() returns (g: Grant)
      modifies this`grants
      ensures |grants| <= |old(grants)| && (g.Move? ==> |grants| < |old(grants)|)
      ensures old(grants) == [] ==> g == Fail && grants == []
      ensures old(grants) != [] ==> g == old(grants[0]) && grants == old(grants[1..])
    {
      if grants == [] { return Fail; }
      g := grants[0];
      grants := grants[1..];
    }

    method Read(buf: array<byte>, pos: nat, want: nat) returns (ok: bool, tlen: nat, late: bool)
      requires pos + want <= buf.Length
      modifies this`answers, this`grants, this`taken, buf
      ensures tlen <= want && (!ok ==> tlen == 0)
      ensures |grants| <= |old(grants)| && (ok ==> |grants| < |old(grants)|)
      ensures forall i :: 0 <= i < pos ==> buf[i] == old(buf[i])
      ensures taken == old(taken) + buf[pos..pos + tlen]
      ensures ok <==> old(grants) != [] && old(grants[0]).Move?
      ensures ok ==> grants == old(grants[1..]) && late == old(grants[0]).late
      ensures ok ==> tlen == MovedAtOnce(old(grants[0]), |old(answers)|, want)
      ensures tlen <= |old(answers)| && buf[pos..pos + tlen] == old(answers)[..tlen] && answers == old(answers)[tlen..]
    {
      var g := NextGrant();
      if g.Fail? { return false, 0, false; }
      tlen := if g.n < want then g.n else want;
      if |answers| < tlen { tlen := |answers|; }
      forall i | 0 <= i < tlen { buf[pos + i] := answers[i]; }
      assert forall i :: 0 <= i < tlen ==> buf[pos..pos + tlen][i] == answers[i];
      assert buf[pos..pos + tlen] == answers[..tlen];
      taken := taken + answers[..tlen];
      answers := answers[tlen..];
      return true, tlen, g.late;
    }

    method Write(data: seq<byte>) returns (ok: bool, tlen: nat, late: bool)
      modifies this`grants, this`sent
      ensures tlen <= |data| && (!ok ==> tlen == 0)
      ensures |grants| <= |old(grants)| && (ok ==> |grants| < |old(grants)|)
      ensures sent == old(sent) + data[..tlen]
      ensures ok <==> old(grants) != [] && old(grants[0]).Move?
      ensures ok ==> grants == old(grants[1..]) && late == old(grants[0]).late
      ensures ok ==> tlen == MovedAtOnce(old(grants[0]), |data|, |data|)
    {
      var g := NextGrant();
      if g.Fail? { return false, 0, false; }
      tlen := if g.n < |data| then g.n else |data|;
      sent := sent + data[..tlen];
      return true, tlen, g.late;
    }
  }

  /** One more driver call. */
  lemma MovedOn(grants: seq<Grant>, have: nat, want: nat)
    requires 0 < want
    ensures grants == [] || grants[0].Fail? ==> Moved(grants, have, want) == 0
    ensures grants != [] && grants[0].Move? ==>
              var n := MovedAtOnce(grants[0], have, want);
              var m := if n < want && grants[0].late then n else n + Moved(grants[1..], have - n, want - n);
              Moved(grants, have, want) == m
  {
  }

  lemma TakeMore(s: seq<byte>, i: nat, n: nat)
    requires i + n <= |s|
    ensures s[..i] + s[i..i + n] == s[..i + n] && s[i..][..n] == s[i..i + n] && s[i..][n..] == s[i + n..]
  {
  }

  /** smc_read: it succeeds exactly when all of len bytes have come. */
  method SmcRead(dev: Driver, buf: array<byte>, len: nat) returns (ok: bool, cnt: nat)
    requires len <= buf.Length
    modifies dev`answers, dev`grants, dev`taken, buf
    ensures cnt <= len && (ok <==> cnt == len)
    ensures dev.taken == old(dev.taken) + buf[..cnt]
    ensures |dev.grants| <= |old(dev.grants)| && (ok && len > 0 ==> |dev.grants| < |old(dev.grants)|)
    ensures cnt == Moved(old(dev.grants), |old(dev.answers)|, len)
    ensures buf[..cnt] == old(dev.answers)[..cnt] && dev.answers == old(dev.answers)[cnt..]
  {
    hide Moved, MovedAtOnce;
    ghost var before, all := dev.taken, dev.answers;
    var left: nat := len;
    ok, cnt := true, 0;
    while left != 0
      invariant ok && left + cnt == len <= buf.Length
      invariant |dev.grants| <= |old(dev.grants)| && (cnt > 0 ==> |dev.grants| < |old(dev.grants)|)
      invariant cnt <= |all| && dev.answers == all[cnt..] && buf[..cnt] == all[..cnt]
      invariant dev.taken == before + all[..cnt]
      invariant cnt + Moved(dev.grants, |dev.answers|, left) == Moved(old(dev.grants), |all|, len)
      decreases |dev.grants|
    {
      MovedOn(dev.grants, |dev.answers|, left);
      ghost var kept := buf[..cnt];
      var tlen, late;
      ok, tlen, late := dev.Read(buf, cnt, left);
      TakeMore(all, cnt, tlen);
      TakeMore(buf[..], cnt, tlen);
      assert buf[..cnt] == kept;
      if !ok { break; }
      left := left - tlen;
      cnt := cnt + tlen;
      if left != 0 && late {
        ok := false;  // AM_SMC_ERR_TIMEOUT
        break;
      }
    }
  }

  /** smc_write */
  method SmcWrite(dev: Driver, data: seq<byte>) returns (ok: bool, cnt: nat)
    modifies dev`grants, dev`sent
    ensures cnt <= |data| && (ok <==> cnt == |data|)
    ensures dev.sent == old(dev.sent) + data[..cnt]
    ensures |dev.grants| <= |old(dev.grants)|
    ensures cnt == Moved(old(dev.grants), |data|, |data|)
  {
    hide Moved, MovedAtOnce;
    var left: nat := |data|;
    ok, cnt := true, 0;
    while left != 0
      invariant ok && cnt <= |data| && left + cnt == |data|
      invariant dev.sent == old(dev.sent) + data[..cnt] && |dev.grants| <= |old(dev.grants)|
      invariant cnt + Moved(dev.grants, left, left) == Moved(old(dev.grants), |data|, |data|)
      decreases |dev.grants|
    {
      MovedOn(dev.grants, left, left);
      var tlen, late;
      ok, tlen, late := dev.Write(data[cnt..]);
      assert data[..cnt] + data[cnt..][..tlen] == data[..cnt + tlen];
      if !ok { break; }
      left := left - tlen;
      cnt := cnt + tlen;
      if left != 0 && late {
        ok := false;
        break;
      }
    }
  }

  // ---------------------------------------------------------------- where the loop stands

  datatype Stand = Stand(tx: seq<byte>, rxlen: byte, sent: seq<byte>, rx: seq<byte>)

  function Rest(ins: byte, s: Stand, t: seq<byte>, a: nat): Outcome {
    Loop(ins, s.tx, s.rxlen, s.sent, s.rx, t, a)
  }

  /** After reading taken and writing s.sent the rest of the call is the loop from s, whatever comes. */
  ghost predicate At(send: seq<byte>, taken: seq<byte>, s: Stand) {
    Command(send) && forall t: seq<byte>, a: nat ::
      Transfer(send, taken + t, |s.sent| + a) == Rest(send[1], s, t, a)
  }

  lemma AtStart(send: seq<byte>)
    requires Command(send)
    ensures At(send, [], Stand(send[5..], if |send| == 5 then send[4] else 0, send[..5], []))
  {
    var s := Stand(send[5..], if |send| == 5 then send[4] else 0, send[..5], []);
    forall t: seq<byte>, a: nat
      ensures Transfer(send, [] + t, |s.sent| + a) == Rest(send[1], s, t, a)
    {
      assert [] + t == t;
    }
  }

  /** Reading c and writing k bytes, then being at s2, is what the loop does from s. */
  ghost predicate Moves(ins: byte, s: Stand, c: seq<byte>, k: nat, s2: Stand) {
    |s2.sent| == |s.sent| + k
    && forall t: seq<byte>, a: nat :: Rest(ins, s, c + t, k + a) == Rest(ins, s2, t, a)
  }

  lemma AtMoves(send: seq<byte>, taken: seq<byte>, s: Stand, c: seq<byte>, k: nat, s2: Stand)
    requires At(send, taken, s) && Moves(send[1], s, c, k, s2)
    ensures At(send, taken + c, s2)
  {
    hide Transfer, Rest;
    forall t: seq<byte>, a: nat
      ensures Transfer(send, (taken + c) + t, |s2.sent| + a) == Rest(send[1], s2, t, a)
    {
      assert (taken + c) + t == taken + (c + t);
      assert Rest(send[1], s, c + t, k + a) == Rest(send[1], s2, t, a);
    }
  }

  /** Reading c and writing no more than k bytes ends the call. */
  lemma AtEnds(send: seq<byte>, taken: seq<byte>, s: Stand, c: seq<byte>, k: nat)
    requires At(send, taken, s)
    ensures Transfer(send, taken + c, |s.sent| + k) == Rest(send[1], s, c, k)
  {
    hide Transfer, Rest;
  }

  lemma WaitMoves(ins: byte, s: Stand)
    ensures Moves(ins, s, [0x60], 0, s)
  {
  }

  lemma SendMoves(ins: byte, s: Stand, b: byte)
    requires b != 0x60 && !StatusByte(b) && AckAll(ins, b) && s.tx != []
    ensures Moves(ins, s, [b], |s.tx|, s.(tx := [], sent := s.sent + s.tx))
  {
  }

  lemma AllMoves(ins: byte, s: Stand, b: byte, data: seq<byte>)
    requires b != 0x60 && !StatusByte(b) && AckAll(ins, b) && s.tx == []
    requires |data| == s.rxlen as int && |s.rx| + |data| < SMC_BUF_SIZE
    ensures Moves(ins, s, [b] + data, 0, s.(rx := s.rx + data))
  {
    forall t: seq<byte>, a: nat
      ensures Rest(ins, s, ([b] + data) + t, 0 + a) == Rest(ins, s.(rx := s.rx + data), t, a)
    {
      var more := data + t;
      assert ([b] + data) + t == [b] + more && ([b] + more)[1..] == more;
      assert more[..|data|] == data && more[|data|..] == t;
    }
  }

  lemma OneMoves(ins: byte, s: Stand, b: byte, x: byte)
    requires b != 0x60 && !StatusByte(b) && !AckAll(ins, b) && AckOne(ins, b) && |s.rx| + 1 < SMC_BUF_SIZE
    ensures Moves(ins, s, [b] + [x], 0, s.(rxlen := Dec(s.rxlen), rx := s.rx + [x]))
  {
  }

  // ---------------------------------------------------------------- the call

  /** What had gone over the wire before the call. */
  datatype Log = Log(taken: seq<byte>, sent: seq<byte>)

  class Smartcard {
    const dev: Driver
    const txbuf: RingBuffer
    const rxbuf: RingBuffer

    ghost predicate Valid()
      reads this, txbuf, rxbuf
    {
      && txbuf.Valid() && rxbuf.Valid() && txbuf != rxbuf && txbuf.data != rxbuf.data
      && txbuf.size == rxbuf.size == SMC_BUF_SIZE
    }

    constructor (dev: Driver)
      ensures Valid() && this.dev == dev && fresh(txbuf) && fresh(rxbuf) && fresh(txbuf.data) && fresh(rxbuf.data)
    {
      this.dev := dev;
      txbuf := new RingBuffer(SMC_BUF_SIZE);
      rxbuf := new RingBuffer(SMC_BUF_SIZE);
    }

    /** The part of the loop's state that is kept in the rings. */
    ghost predicate Holds(tx: seq<byte>, rx: seq<byte>)
      reads this, txbuf, rxbuf, txbuf.data, rxbuf.data
    {
      Valid() && txbuf.Contents() == tx && rxbuf.Contents() == rx
    }

    /** One byte into the receive ring; false where it is full and C would overwrite it. */
    method Keep(buf: array<byte>, n: nat) returns (ok: bool)
      requires Valid() && n <= buf.Length
      modifies rxbuf`pwrite, rxbuf.data
      ensures Valid() && txbuf.Contents() == old(txbuf.Contents())
      ensures ok == (|old(rxbuf.Contents())| + n < SMC_BUF_SIZE)
      ensures rxbuf.Contents() == if ok then old(rxbuf.Contents()) + old(buf[..n]) else old(rxbuf.Contents())
    {
      hide View;
      ghost var tx := txbuf.data[..];
      var avail := rxbuf.Avail();
      if avail + n >= SMC_BUF_SIZE { return false; }
      var data := buf[..n];
      var _ := rxbuf.Write(data, n);
      assert data[..n] == data && txbuf.data[..] == tx;
      return true;
    }

    /** t has been read since base, s.sent written, and the loop stands at s. */
    ghost predicate Running(send: seq<byte>, t: seq<byte>, s: Stand, base: Log)
      reads this, dev, txbuf, rxbuf, txbuf.data, rxbuf.data
    {
      && Command(send) && Holds(s.tx, s.rx) && |s.tx| <= 255 && At(send, t, s)
      && dev.taken == base.taken + t && dev.sent == base.sent + s.sent
    }

    /** The same with the procedure byte b just read. */
    ghost predicate Facing(send: seq<byte>, t: seq<byte>, s: Stand, b: byte, base: Log)
      reads this, dev, txbuf, rxbuf, txbuf.data, rxbuf.data
    {
      && Command(send) && Holds(s.tx, s.rx) && |s.tx| <= 255 && At(send, t, s)
      && dev.taken == base.taken + (t + [b]) && dev.sent == base.sent + s.sent
    }

    /** The call is over; t was read and w written. */
    ghost predicate Over(send: seq<byte>, t: seq<byte>, w: seq<byte>, status: Status, base: Log)
      reads this, dev, txbuf, rxbuf, txbuf.data, rxbuf.data
    {
      && Valid() && Command(send)
      && dev.taken == base.taken + t && dev.sent == base.sent + w
      && Transfer(send, t, |w|) == Outcome(status, w, rxbuf.Contents())
    }

    /** SW1 is kept, SW2 read and kept, and the call ends. */
    method StatusBytes(send: seq<byte>, b: byte, recv: array<byte>, ghost t: seq<byte>, ghost s: Stand, ghost base: Log)
      returns (status: Status, ghost t2: seq<byte>)
      requires Facing(send, t, s, b, base) && StatusByte(b) && recv.Length >= 1
      requires recv != txbuf.data && recv != rxbuf.data
      modifies dev, rxbuf`pwrite, rxbuf.data, recv
      ensures |dev.grants| <= |old(dev.grants)|
      ensures Over(send, t2, s.sent, status, base)
    {
      hide Transfer, At, Loop, View;
      var one := new byte[][b];
      assert one[..1] == [b];
      AtEnds(send, t, s, [b], 0);
      EndsWithSw1(send[1], s, b);
      var ok := Keep(one, 1);
      if !ok { return Overrun, t + [b]; }
      var cnt;
      ghost var ring := rxbuf.data[..];
      ok, cnt := SmcRead(dev, recv, 1);
      assert rxbuf.data[..] == ring;
      if !ok {
        assert recv[..0] == [];
        assert dev.taken == base.taken + (t + [b]);
        return Wire, t + [b];
      }
      ghost var x := recv[0];
      assert recv[..1] == [x];
      t2 := t + ([b] + [x]);
      AtEnds(send, t, s, [b] + [x], 0);
      EndsWithSw2(send[1], s, b, x);
      assert dev.taken == base.taken + t2;
      ok := Keep(recv, 1);
      status := if ok then Success else Overrun;
    }

    /** All that is left is sent. */
    method SendRest(send: seq<byte>, b: byte, cnt: nat, buf: array<byte>,
                    ghost t: seq<byte>, ghost s: Stand, ghost base: Log)
      returns (ok: bool, ghost s2: Stand)
      requires Facing(send, t, s, b, base) && b != 0x60 && !StatusByte(b) && AckAll(send[1], b)
      requires cnt == |s.tx| > 0 && buf.Length == 255 && buf != txbuf.data && buf != rxbuf.data
      modifies dev, txbuf`pread, buf
      ensures |dev.grants| <= |old(dev.grants)|
      ensures s2.rxlen == s.rxlen
      ensures if ok then Running(send, t + [b], s2, base) else Over(send, t + [b], s2.sent, Wire, base)
    {
      hide Transfer, At, Loop, View;
      ghost var ring := rxbuf.data[..];
      txbuf.Read(buf, cnt);
      var data := buf[..cnt];
      assert data == s.tx && rxbuf.data[..] == ring;
      var n;
      ok, n := SmcWrite(dev, data);
      assert dev.sent == base.sent + (s.sent + s.tx[..n]);
      if ok {
        SendMoves(send[1], s, b);
        s2 := s.(tx := [], sent := s.sent + s.tx);
        AtMoves(send, t, s, [b], |s.tx|, s2);
        assert s.tx[..n] == s.tx;
      } else {
        s2 := s.(sent := s.sent + s.tx[..n]);
        AtEnds(send, t, s, [b], n);
        EndsInSending(send[1], s, b, n);
      }
    }

    /** All that is expected is read. */
    method ReadAll(send: seq<byte>, b: byte, rxlen: byte, buf: array<byte>,
                   ghost t: seq<byte>, ghost s: Stand, ghost base: Log)
      returns (status: Status, ghost t2: seq<byte>, ghost s2: Stand)
      requires Facing(send, t, s, b, base) && b != 0x60 && !StatusByte(b) && AckAll(send[1], b)
      requires s.tx == [] && rxlen == s.rxlen && buf.Length == 255 && buf != txbuf.data && buf != rxbuf.data
      modifies dev, rxbuf`pwrite, rxbuf.data, buf
      ensures |dev.grants| <= |old(dev.grants)|
      ensures s2.rxlen == rxlen
      ensures if status.Success? then Running(send, t2, s2, base) else Over(send, t2, s.sent, status, base)
    {
      hide Transfer, At, Loop, View;
      ghost var rings := txbuf.data[..];
      ghost var ring := rxbuf.data[..];
      var ok, cnt := SmcRead(dev, buf, rxlen);
      ghost var data := buf[..cnt];
      assert txbuf.data[..] == rings && rxbuf.data[..] == ring;
      t2, s2 := t + ([b] + data), s;
      assert dev.taken == base.taken + t2;
      AtEnds(send, t, s, [b] + data, 0);
      if !ok {
        EndsInReading(send[1], s, b, data);
        return Wire, t2, s2;
      }
      ok := Keep(buf, rxlen);
      if !ok {
        EndsInReading(send[1], s, b, data);
        return Overrun, t2, s2;
      }
      AllMoves(send[1], s, b, data);
      s2 := s.(rx := s.rx + data);
      AtMoves(send, t, s, [b] + data, 0, s2);
      status := Success;
    }

    /** One byte is read. */
    method ReadOne(send: seq<byte>, b: byte, buf: array<byte>, ghost t: seq<byte>, ghost s: Stand, ghost base: Log)
      returns (status: Status, ghost t2: seq<byte>, ghost s2: Stand)
      requires Facing(send, t, s, b, base) && b != 0x60 && !StatusByte(b) && !AckAll(send[1], b) && AckOne(send[1], b)
      requires buf.Length == 255 && buf != txbuf.data && buf != rxbuf.data
      modifies dev, rxbuf`pwrite, rxbuf.data, buf
      ensures |dev.grants| <= |old(dev.grants)|
      ensures s2.rxlen == Dec(s.rxlen)
      ensures if status.Success? then Running(send, t2, s2, base) else Over(send, t2, s.sent, status, base)
    {
      hide Transfer, At, Loop, View;
      ghost var rings := txbuf.data[..];
      ghost var ring := rxbuf.data[..];
      var ok, cnt := SmcRead(dev, buf, 1);
      ghost var data := buf[..cnt];
      assert txbuf.data[..] == rings && rxbuf.data[..] == ring;
      t2, s2 := t + ([b] + data), s.(rxlen := Dec(s.rxlen));
      assert dev.taken == base.taken + t2;
      AtEnds(send, t, s, [b] + data, 0);
      if !ok {
        EndsInReadingOne(send[1], s, b, data);
        return Wire, t2, s2;
      }
      assert data == [buf[0]];
      ok := Keep(buf, 1);
      if !ok {
        EndsInReadingOne(send[1], s, b, data);
        return Overrun, t2, s2;
      }
      OneMoves(send[1], s, b, data[0]);
      s2 := s.(rxlen := Dec(s.rxlen), rx := s.rx + data);
      AtMoves(send, t, s, [b] + data, 0, s2);
      status := Success;
    }

    /** Rings reset, the command queued, the header sent. */
    method SendHeader(send: seq<byte>, buf: array<byte>, ghost base: Log)
      returns (ok: bool, ghost s: Stand, ghost w: seq<byte>)
      requires Valid() && Command(send) && buf.Length == 255 && buf != txbuf.data && buf != rxbuf.data
      requires base == Log(dev.taken, dev.sent)
      modifies dev, txbuf, rxbuf, txbuf.data, rxbuf.data, buf
      ensures s == Stand(send[5..], if |send| == 5 then send[4] else 0, send[..5], [])
      ensures if ok then Running(send, [], s, base) else Over(send, [], w, Wire, base)
    {
      hide Loop, View;
      s := Stand(send[5..], if |send| == 5 then send[4] else 0, send[..5], []);
      w := [];
      txbuf.Reset();
      rxbuf.Reset();
      ghost var ring := rxbuf.data[..];
      var _ := txbuf.Write(send, |send|);
      assert [] + send[..|send|] == send;
      txbuf.Read(buf, 5);
      var data := buf[..5];
      assert data == send[..5] && rxbuf.data[..] == ring;
      var n;
      ok, n := SmcWrite(dev, data);
      assert base.taken + [] == base.taken;
      if ok {
        assert data[..n] == data;
        AtStart(send);
      } else {
        w := data[..n];
        assert w == send[..n];
      }
    }

    /** AM_SMC_TransferT0 */
    method TransferT0(send: seq<byte>, recv: array<byte>) returns (status: Status, rlen: nat, ghost t: seq<byte>)
      requires Valid() && Command(send) && recv.Length >= SMC_BUF_SIZE
      requires recv != txbuf.data && recv != rxbuf.data
      modifies dev, txbuf, rxbuf, txbuf.data, rxbuf.data, recv
      ensures Valid() && dev.taken == old(dev.taken) + t
      ensures |dev.sent| >= |old(dev.sent)|
      ensures var w := dev.sent[|old(dev.sent)|..];
              && rlen <= recv.Length
              && Transfer(send, t, |w|) == Outcome(status, w, recv[..rlen])
    {
      hide Transfer, At, Loop, View, Moves;
      ghost var base := Log(dev.taken, dev.sent);
      var buf := new byte[255];
      ghost var s, w;
      var ok;
      ok, s, w := SendHeader(send, buf, base);
      t := [];
      status := Wire;
      if ok {
        status, t, w := Exchange(send, buf, recv, s, base);
      }
      assert (base.sent + w)[|base.sent|..] == w;
      rlen := rxbuf.Avail();
      ghost var rx := rxbuf.Contents();
      rxbuf.Read(recv, rlen);
      assert rx[..rlen] == rx;
    }

    /** The procedure-byte loop. */
    method Exchange(send: seq<byte>, buf: array<byte>, recv: array<byte>, ghost s0: Stand, ghost base: Log)
      returns (status: Status, ghost t: seq<byte>, ghost w: seq<byte>)
      requires Running(send, [], s0, base) && s0.rxlen == if |send| == 5 then send[4] else 0
      requires buf.Length == 255 && buf != txbuf.data && buf != rxbuf.data
      requires recv.Length >= 1 && recv != txbuf.data && recv != rxbuf.data
      modifies dev, txbuf`pread, rxbuf`pwrite, rxbuf.data, recv, buf
      ensures Over(send, t, w, status, base)
    {
      hide Transfer, At, Loop, View, Moves;
      var ins: byte := send[1];
      var rxlen: byte := if |send| == 5 then send[4] else 0;
      var one := new byte[1];
      ghost var s := s0;
      t := [];
      while true
        invariant Running(send, t, s, base) && s.rxlen == rxlen
        decreases |dev.grants|
      {
        ghost var ring, tring := rxbuf.data[..], txbuf.data[..];
        var ok, n := SmcRead(dev, one, 1);
        assert rxbuf.data[..] == ring && txbuf.data[..] == tring;
        assert one[..n] == if ok then [one[0]] else [];
        if !ok {
          AtEnds(send, t, s, [], 0);
          EndsInSilence(ins, s);
          assert t + [] == t && base.taken + t + one[..n] == base.taken + t;
          return Wire, t, s.sent;
        }
        var b := one[0];
        assert dev.taken == base.taken + (t + [b]);
        if b == 0x60 {
          WaitMoves(ins, s);
          AtMoves(send, t, s, [b], 0, s);
          t := t + [b];
          continue;
        } else if StatusByte(b) {
          status, t := StatusBytes(send, b, recv, t, s, base);
          return status, t, s.sent;
        } else if AckAll(ins, b) {
          var cnt := txbuf.Avail();
          if cnt > 0 {
            ok, s := SendRest(send, b, cnt, buf, t, s, base);
            t := t + [b];
            if !ok { return Wire, t, s.sent; }
          } else {
            w := s.sent;
            status, t, s := ReadAll(send, b, rxlen, buf, t, s, base);
            if !status.Success? { return status, t, w; }
          }
        } else if AckOne(ins, b) {
          w := s.sent;
          status, t, s := ReadOne(send, b, buf, t, s, base);
          rxlen := Dec(rxlen);
          if !status.Success? { return status, t, w; }
        } else {
          AtEnds(send, t, s, [b], 0);
          EndsInError(ins, s, b);
          return IoError, t + [b], s.sent;
        }
      }
    }
  }

  lemma EndsInSilence(ins: byte, s: Stand)
    ensures Rest(ins, s, [], 0) == Outcome(Wire, s.sent, s.rx)
  {
  }

  lemma EndsInError(ins: byte, s: Stand, b: byte)
    requires b != 0x60 && !StatusByte(b) && !AckAll(ins, b) && !AckOne(ins, b)
    ensures Rest(ins, s, [b], 0) == Outcome(IoError, s.sent, s.rx)
  {
  }

  lemma EndsWithSw1(ins: byte, s: Stand, b: byte)
    requires StatusByte(b)
    ensures Rest(ins, s, [b], 0) == if |s.rx| + 1 >= SMC_BUF_SIZE then Outcome(Overrun, s.sent, s.rx)
                                    else Outcome(Wire, s.sent, s.rx + [b])
  {
    assert (s.rx + [b])[..|s.rx|] == s.rx;
  }

  lemma EndsWithSw2(ins: byte, s: Stand, b: byte, x: byte)
    requires StatusByte(b) && |s.rx| + 1 < SMC_BUF_SIZE
    ensures Rest(ins, s, [b] + [x], 0) == if |s.rx| + 2 >= SMC_BUF_SIZE then Outcome(Overrun, s.sent, s.rx + [b])
                                          else Outcome(Success, s.sent, (s.rx + [b]) + [x])
  {
    assert ([b] + [x])[1..] == [x];
  }

  lemma EndsInSending(ins: byte, s: Stand, b: byte, n: nat)
    requires b != 0x60 && !StatusByte(b) && AckAll(ins, b) && n < |s.tx|
    ensures Rest(ins, s, [b], n) == Outcome(Wire, s.sent + s.tx[..n], s.rx)
  {
  }

  lemma EndsInReading(ins: byte, s: Stand, b: byte, data: seq<byte>)
    requires b != 0x60 && !StatusByte(b) && AckAll(ins, b) && s.tx == []
    requires |data| < s.rxlen as int || (|data| == s.rxlen as int && |s.rx| + |data| >= SMC_BUF_SIZE)
    ensures Rest(ins, s, [b] + data, 0) == Outcome(if |data| < s.rxlen as int then Wire else Overrun, s.sent, s.rx)
  {
    assert ([b] + data)[1..] == data;
  }

  lemma EndsInReadingOne(ins: byte, s: Stand, b: byte, data: seq<byte>)
    requires b != 0x60 && !StatusByte(b) && !AckAll(ins, b) && AckOne(ins, b)
    requires |data| == 0 || (|data| == 1 && |s.rx| + 1 >= SMC_BUF_SIZE)
    ensures Rest(ins, s, [b] + data, 0) == Outcome(if |data| == 0 then Wire else Overrun, s.sent, s.rx)
  {
    assert ([b] + data)[1..] == data;
  }
}
