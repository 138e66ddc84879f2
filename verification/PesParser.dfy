/** The PES parser object: a growing buffer that is filled by each call and emptied in place. */
module PesParser {
  import opened Bytes
  import opened Pes
  import opened PesStray

  /** OutOfRange stands for the use of bytes that have not been received (undefined in C). */
  datatype ErrorCode = Success | InvalidParam | NoMem | OutOfRange

  /** The scan for 00 00 01 that both the decoder and calc_invalid_pes_offset run. */
  method ScanStart(buf: array<byte>, len: nat, base: nat, i0: nat) returns (r: Option<nat>)
    requires base + i0 <= len <= buf.Length
    ensures r == FindStart(buf[..len][base..], i0)
  {
    var i := i0;
    ghost var d := buf[..len][base..];
    while base + i + 4 < len
      invariant i0 <= i && base + i <= len
      invariant FindStart(d, i) == FindStart(d, i0)
    {
      if buf[base + i] == 0 && buf[base + i + 1] == 0 && buf[base + i + 2] == 1 {
        assert StartCodeAt(d, i);
        return Some(i);
      }
      assert !StartCodeAt(d, i);
      i := i + 1;
    }
    return None;
  }

  /**
   Where an open-ended packet at base ends, and its payload: deltas for dpos, dlen and plen. The
   header length is read first, whether it has been received or not; stray tells that it has not.
   */
  method CalcInvalidPesOffset(buf: array<byte>, len: nat, base: nat)
    returns (found: bool, dpos: nat, dlen: nat, plen: nat, stray: bool)
    requires base + 6 <= len <= buf.Length
    requires PacketLength(buf[..len][base..]) == 0 || PacketLength(buf[..len][base..]) == 0xFFFF
    ensures PacketStep(PayloadOnly, buf[..len][base..])
         == if found then Emit(dpos, dpos + dlen, plen + 6) else Wait
    ensures stray == Strays(PayloadOnly, buf[..len][base..])
  {
    var head: int := 0;  // any value would do for a byte that has not been received
    stray := base + 8 >= len;
    if !stray { head := buf[base + 8] as int; }
    var r := ScanStart(buf, len, base, 6);
    match r {
      case None => found, dpos, dlen, plen := false, 0, 0, 0;
      case Some(posn) =>
        found := true;
        if posn < head + 9 {
          dpos, dlen, plen := posn, 0, posn - 6;
        } else {
          dpos, dlen, plen := head + 9, posn - (head + 9), posn - 6;
        }
    }
  }

  method CalcMpeg1PesOffset(buf: array<byte>, len: nat, base: nat, n: nat) returns (posn: nat)
    requires base + n + 6 <= len <= buf.Length
    ensures posn == Mpeg1HeaderLength(buf[..len][base..], n)
  {
    ghost var p := buf[..len][base..];
    posn := 6;
    while posn < n && buf[base + posn] == 0xFF
      invariant 6 <= posn && (posn <= n || posn == 6)
      invariant SkipStuffing(p, posn, n) == SkipStuffing(p, 6, n)
    {
      posn := posn + 1;
    }
    if posn < n {
      if buf[base + posn] / 64 == 1 { posn := posn + 2; }
      if buf[base + posn] / 16 == 2 { posn := posn + 5; }
      else if buf[base + posn] / 16 == 3 { posn := posn + 10; }
      else { posn := posn + 1; }
    }
  }

  /** Header, payload and end of the packet at base, as the decoder's loop body works them out. */
  method LookAtPacket(mode: Mode, buf: array<byte>, len: nat, base: nat) returns (s: Step, stray: bool)
    requires base <= len <= buf.Length
    ensures s == PacketStep(mode, buf[..len][base..])
    ensures stray == Strays(mode, buf[..len][base..])
  {
    if len - base < 6 { return Wait, false; }
    var plen: nat := Word(buf[base + 4], buf[base + 5]);
    var invalid := plen == 0xFFFF || plen == 0;
    if len - base < plen + 6 && !invalid { return Wait, false; }
    if mode.WholePacket? {
      if len - base < plen + 6 { return Fault, false; }
      return Emit(0, plen + 6, plen + 6), false;
    }
    if invalid {
      var found, dpos, dlen, next, peek := CalcInvalidPesOffset(buf, len, base);
      return if found then Emit(dpos, dpos + dlen, next + 6) else Wait, peek;
    }
    var hlen: nat;
    if buf[base + 6] / 64 == 2 {
      if len - base < 9 { return Fault, false; }  // the header length byte has not been received
      hlen := 9 + buf[base + 8] as int;
    } else {
      hlen := CalcMpeg1PesOffset(buf, len, base, plen);
    }
    return Emit(hlen, plen + 6, plen + 6), false;
  }

  /**
   One turn of the decoding loop short of its effects: the next start code at or after pos, and
   what to do about the packet there, all in buffer offsets.
   */
  method NextPacket(mode: Mode, buf: array<byte>, len: nat, pos: nat)
    returns (start: nat, step: Step, stray: bool)
    requires pos <= len <= buf.Length
    ensures pos <= start <= len
    ensures RunStrays(mode, buf[..len][pos..])
         == (stray || (step.Emit? && step.next <= len && RunStrays(mode, buf[..len][step.next..])))
    ensures var a := buf[..len];
            && (step.Wait? ==> Run(mode, a[pos..]) == Outcome([], a[start..], true))
            && (step.Fault? ==> Run(mode, a[pos..]) == Outcome([], a[start..], false))
            && (step.Emit? ==>
                 && start <= step.to <= step.next <= len && start + 6 <= step.next
                 && Run(mode, a[pos..])
                    == Then(Outcome([Handed(a, step.from, step.to)], [], true), Run(mode, a[step.next..])))
  {
    hide Run, RunStrays, Strays, PacketStep, FindStart, Then;
    ghost var a := buf[..len];
    var found := ScanStart(buf, len, pos, 0);
    if found.None? {
      RunNoStart(mode, a[pos..]);
      return pos, Wait, false;
    }
    RunAtStart(mode, a, pos, found.value);
    start := pos + found.value;
    var s;
    s, stray := LookAtPacket(mode, buf, len, start);
    step := if s.Emit? then Emit(start + s.from, start + s.to, start + s.next) else s;
  }

  class Parser {
    const mode: Mode
    var buf: array<byte>
    var len: nat
    var delivered: seq<Delivery>  // what the packet callback has been given so far
    var faulted: bool
    var strayed: bool             // a byte has been looked at that had not been received

    ghost predicate Valid()
      reads this
    {
      len <= buf.Length
    }

    /** The bytes kept between calls. */
    ghost function Pending(): seq<byte>
      requires Valid()
      reads this, buf
    {
      buf[..len]
    }

    constructor (mode: Mode)
      ensures Valid() && fresh(buf)
      ensures this.mode == mode && Pending() == [] && delivered == [] && !faulted && !strayed
    {
      this.mode := mode;
      buf := new byte[0];
      len, delivered, faulted, strayed := 0, [], false, false;
    }

    /** Makes room for total bytes; memory tells whether the allocator has them. */
    method Grow(total: nat, memory: bool) returns (ok: bool)
      requires Valid()
      modifies this`buf
      ensures Valid() && Pending() == old(Pending())
      ensures ok <==> total <= old(buf.Length) || memory
      ensures ok ==> total <= buf.Length
      ensures buf == old(buf) || fresh(buf)
      ensures !ok ==> buf == old(buf)
    {
      if total <= buf.Length { return true; }
      if !memory { return false; }
      var bigger := new byte[total];
      forall k | 0 <= k < len { bigger[k] := buf[k]; }
      buf := bigger;
      return true;
    }

    /** One call of the decoder: the deliveries and the bytes kept are those of Feed. */
    method Decode(chunk: seq<byte>, memory: bool) returns (ret: ErrorCode)
      requires Valid() && !faulted
      modifies this, buf
      ensures Valid() && (buf == old(buf) || fresh(buf))
      ensures ret == InvalidParam <==> chunk == []
      ensures ret == NoMem <==> chunk != [] && !memory && old(len) + |chunk| > old(buf.Length)
      ensures ret == InvalidParam || ret == NoMem ==>
                Pending() == old(Pending()) && delivered == old(delivered) && !faulted && strayed == old(strayed)
      ensures ret == Success || ret == OutOfRange ==>
                var o := Feed(mode, old(Pending()), chunk);
                && delivered == old(delivered) + o.delivered
                && Pending() == o.rest
                && faulted == !o.ok
                && (ret == Success <==> o.ok)
                && strayed == (old(strayed) || FeedStrays(mode, old(Pending()), chunk))
    {
      hide Run, RunStrays;
      if chunk == [] { return InvalidParam; }
      var room := Grow(len + |chunk|, memory);
      if !room { return NoMem; }
      forall k | 0 <= k < |chunk| { buf[len + k] := chunk[k]; }
      assert buf[..len + |chunk|] == old(Pending()) + chunk;
      len := len + |chunk|;
      ret := Parse();
    }

    /** Keeps the bytes from pos on. */
    method MoveToFront(pos: nat)
      requires Valid() && pos <= len
      modifies this`len, buf
      ensures Valid() && Pending() == old(buf[pos..len])
    {
      var left := len - pos;
      forall k | 0 <= k < left { buf[k] := buf[pos + k]; }
      assert buf[..left] == old(buf[pos..len]);
      len := left;
    }

    /** The packet callback for the bytes from..to. */
    method CallBack(from: nat, to: nat)
      requires Valid() && to <= len
      modifies this`delivered
      ensures delivered == old(delivered) + [Handed(buf[..len], from, to)]
    {
      var packet := if from <= to then Range(buf[from..to]) else Overlong(from - to);
      assert from <= to ==> buf[from..to] == buf[..len][from..to];
      delivered := delivered + [packet];
    }

    /** The decoding loop and the move of the bytes it did not use to the front. */
    method Parse() returns (ret: ErrorCode)
      requires Valid() && !faulted
      modifies this`len, this`delivered, this`faulted, this`strayed, buf
      ensures Valid()
      ensures var o := Run(mode, old(Pending()));
              && delivered == old(delivered) + o.delivered
              && Pending() == o.rest
              && faulted == !o.ok
              && ret == if o.ok then Success else OutOfRange
      ensures strayed == (old(strayed) || RunStrays(mode, old(Pending())))
    {
      hide Run, RunStrays, Handed;
      ghost var a := buf[..len];
      ghost var done: seq<Delivery> := [];  // deliveries of this call
      var pos, more := 0, true;
      assert a[0..] == a;
      while more
        invariant pos <= len == old(len) <= buf.Length && buf[..len] == a
        invariant faulted ==> !more
        invariant delivered == old(delivered) + done
        invariant more ==> Run(mode, a) == Then(Outcome(done, [], true), Run(mode, a[pos..]))
        invariant !more ==> Run(mode, a) == Outcome(done, a[pos..], !faulted)
        invariant (old(strayed) || RunStrays(mode, a)) == (strayed || (more && RunStrays(mode, a[pos..])))
        decreases more, len - pos
      {
        var start, step, stray := NextPacket(mode, buf, len, pos);
        strayed := strayed || stray;
        match step {
          case Wait =>
            pos, more := start, false;
          case Fault =>
            pos, faulted, more := start, true, false;
          case Emit(from, to, next) =>
            CallBack(from, to);
            ThenAssocLeft(done, Handed(a, from, to), Run(mode, a[next..]));
            done := done + [Handed(a, from, to)];
            pos := next;
            if pos == len {
              assert a[pos..] == [];
              RunNil(mode);
              more := false;
            }
        }
      }
      assert a[pos..] == buf[pos..len];
      MoveToFront(pos);
      ret := if faulted then OutOfRange else Success;
    }
  }

  lemma RunNoStart(mode: Mode, d: seq<byte>)
    requires FindStart(d, 0).None?
    ensures Run(mode, d) == Outcome([], d, true) && !RunStrays(mode, d)
  {
  }

  /** One unfolding of a run, in offsets of the whole buffer a. */
  lemma RunAtStart(mode: Mode, a: seq<byte>, pos: nat, i: nat)
    requires pos <= |a| && FindStart(a[pos..], 0) == Some(i)
    ensures pos + i <= |a|
    ensures var start := pos + i;
            var s := PacketStep(mode, a[start..]);
            && (s.Wait? ==> Run(mode, a[pos..]) == Outcome([], a[start..], true))
            && (s.Fault? ==> Run(mode, a[pos..]) == Outcome([], a[start..], false))
            && (s.Emit? ==>
                 Run(mode, a[pos..])
                 == Then(Outcome([Handed(a, start + s.from, start + s.to)], [], true), Run(mode, a[start + s.next..])))
            && RunStrays(mode, a[pos..])
               == (Strays(mode, a[start..]) || (s.Emit? && RunStrays(mode, a[start + s.next..])))
  {
    hide PacketStep, FindStart, Run, Then, RunStrays, Strays;
    var d, start := a[pos..], pos + i;
    assert d[i..] == a[start..] by { DropDrop(a, pos, i); }
    RunStep(mode, d, i);
    var s := PacketStep(mode, d[i..]);
    if s.Emit? {
      assert d[i..][s.next..] == a[start + s.next..] by { DropDrop(a, start, s.next); }
      HandedDrop(a, start, s.from, s.to);
    }
  }

  lemma RunStep(mode: Mode, d: seq<byte>, i: nat)
    requires FindStart(d, 0) == Some(i)
    ensures var p := d[i..];
            var s := PacketStep(mode, p);
            && (s.Wait? ==> Run(mode, d) == Outcome([], p, true))
            && (s.Fault? ==> Run(mode, d) == Outcome([], p, false))
            && (s.Emit? ==>
                 Run(mode, d) == Then(Outcome([Handed(p, s.from, s.to)], [], true), Run(mode, p[s.next..])))
            && RunStrays(mode, d) == (Strays(mode, p) || (s.Emit? && RunStrays(mode, p[s.next..])))
  {
    hide PacketStep, FindStart, Strays;
  }

  lemma RunNil(mode: Mode)
    ensures Run(mode, []) == Outcome([], [], true) && !RunStrays(mode, [])
  {
  }

  lemma ThenAssocLeft(done: seq<Delivery>, packet: Delivery, o: Outcome)
    ensures Then(Outcome(done, [], true), Then(Outcome([packet], [], true), o))
         == Then(Outcome(done + [packet], [], true), o)
  {
    assert done + ([packet] + o.delivered) == (done + [packet]) + o.delivered;
  }
}
