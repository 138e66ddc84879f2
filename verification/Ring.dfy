/** The byte ring of the user-data device and of the smart-card driver: one slot always stays free. */
module Ring {
  import opened Bytes

  /** The bytes from r up to w, going round the end. */
  function View(ring: seq<byte>, r: nat, w: nat): (v: seq<byte>)
    requires r < |ring| && w < |ring|
    ensures |v| == Gap(|ring|, r, w)
  {
    if r <= w then ring[r..w] else ring[r..] + ring[..w]
  }

  function Gap(size: nat, r: nat, w: nat): nat
    requires r < size && w < size
  {
    if r <= w then w - r else w - r + size
  }

  function Wrap(i: nat, size: nat): nat {
    if i < size then i else i - size
  }

  lemma ViewAt(ring: seq<byte>, r: nat, w: nat, i: nat)
    requires r < |ring| && w < |ring| && i < |View(ring, r, w)|
    ensures Wrap(r + i, |ring|) < |ring| && View(ring, r, w)[i] == ring[Wrap(r + i, |ring|)]
  {
  }

  /** Bytes written behind w lengthen the view by themselves when they fit. */
  lemma WriteView(a: seq<byte>, b: seq<byte>, r: nat, w: nat, buf: seq<byte>)
    requires r < |a| == |b| && w < |a| && |buf| < |a| - Gap(|a|, r, w)
    requires forall i :: 0 <= i < |buf| ==> b[Wrap(w + i, |a|)] == buf[i]
    requires forall j :: 0 <= j < |a| && !Touched(|a|, w, |buf|, j) ==> b[j] == a[j]
    ensures View(b, r, Wrap(w + |buf|, |a|)) == View(a, r, w) + buf
  {
    var w2 := Wrap(w + |buf|, |a|);
    var n := |View(a, r, w)|;
    assert |View(b, r, w2)| == n + |buf|;
    forall i | 0 <= i < n + |buf|
      ensures View(b, r, w2)[i] == (View(a, r, w) + buf)[i]
    {
      ViewAt(b, r, w2, i);
      if i < n {
        ViewAt(a, r, w, i);
      } else {
        assert Wrap(r + i, |a|) == Wrap(w + (i - n), |a|);
      }
    }
  }

  predicate Touched(size: nat, w: nat, len: nat, j: nat) {
    w <= j < w + len || j < w + len - size
  }

  lemma ReadView(ring: seq<byte>, r: nat, w: nat, len: nat)
    requires r < |ring| && w < |ring| && len <= |View(ring, r, w)|
    ensures Wrap(r + len, |ring|) < |ring|
    ensures View(ring, Wrap(r + len, |ring|), w) == View(ring, r, w)[len..]
    ensures forall i :: 0 <= i < len ==> View(ring, r, w)[i] == ring[Wrap(r + i, |ring|)]
  {
    hide View, Gap, Wrap;
    Advance(|ring|, r, w, len);
    var r2 := Wrap(r + len, |ring|);
    forall i | 0 <= i < |View(ring, r2, w)|
      ensures View(ring, r2, w)[i] == View(ring, r, w)[len + i]
    {
      ViewAt(ring, r2, w, i);
      ViewAt(ring, r, w, len + i);
      WrapTwice(|ring|, r, len, i);
    }
    forall i | 0 <= i < len
      ensures Wrap(r + i, |ring|) < |ring| && View(ring, r, w)[i] == ring[Wrap(r + i, |ring|)]
    {
      ViewAt(ring, r, w, i);
    }
  }

  lemma Advance(size: nat, r: nat, w: nat, len: nat)
    requires r < size && w < size && len <= Gap(size, r, w)
    ensures Gap(size, r, w) < size
    ensures Wrap(r + len, size) < size && Gap(size, Wrap(r + len, size), w) == Gap(size, r, w) - len
  {
  }

  lemma WrapTwice(size: nat, r: nat, len: nat, i: nat)
    requires r < size && len + i < size
    ensures Wrap(Wrap(r + len, size) + i, size) == Wrap(r + len + i, size)
  {
  }

  class RingBuffer {
    const data: array<byte>
    const size: nat
    var pread: nat
    var pwrite: nat

    ghost predicate Valid()
      reads this
    {
      data.Length == size && pread < size && pwrite < size
    }

    ghost function Contents(): seq<byte>
      requires Valid()
      reads this, data
    {
      View(data[..], pread, pwrite)
    }

    /** userdata_ring_buf_init */
    constructor (len: nat)
      requires len > 0
      ensures Valid() && fresh(data) && size == len && Contents() == []
    {
      data := new byte[len];
      size := len;
      pread, pwrite := 0, 0;
    }

    /** ringbuffer_reset of the smart-card driver */
    method Reset()
      requires Valid()
      modifies this`pread, this`pwrite
      ensures Valid() && Contents() == []
    {
      pread, pwrite := 0, 0;
    }

    /** userdata_ring_buf_free */
    method Free() returns (free: int)
      requires Valid()
      ensures free == size - |Contents()| - 1
    {
      free := pread - pwrite;
      if free <= 0 { free := free + size; }
      free := free - 1;
    }

    /** userdata_ring_buf_avail */
    method Avail() returns (avail: int)
      requires Valid()
      ensures avail == |Contents()|
    {
      avail := pwrite - pread;
      if avail < 0 { avail := avail + size; }
    }

    /** userdata_ring_buf_read, for a caller that asks for no more than there is. */
    method Read(buf: array<byte>, len: nat)
      requires Valid() && len <= |Contents()| && len <= buf.Length && buf != data
      modifies this`pread, buf
      ensures Valid() && Contents() == old(Contents())[len..]
      ensures buf[..len] == old(Contents())[..len]
      ensures forall i :: len <= i < buf.Length ==> buf[i] == old(buf[i])
    {
      hide View, Gap;
      ghost var r, a, v := pread, data[..], Contents();
      ReadView(a, r, pwrite, len);
      var todo := len;
      var split := if pread + len > size then size - pread else 0;
      if split > 0 {
        forall i | 0 <= i < split { buf[i] := data[pread + i]; }
        todo := todo - split;
        pread := 0;
      }
      forall i | 0 <= i < todo { buf[split + i] := data[pread + i]; }
      pread := (pread + todo) % size;
      ModIsWrap(if split > 0 then 0 else r, todo, size);
      assert data[..] == a;
      assert forall i :: 0 <= i < len ==> buf[i] == v[i];
    }

    /** userdata_ring_buf_write, for a caller that has made sure of the space. */
    method Write(buf: seq<byte>, len: nat) returns (written: int)
      requires Valid() && len <= |buf| && len < size - |Contents()|
      modifies this`pwrite, data
      ensures Valid() && Contents() == old(Contents()) + buf[..len]
      ensures written == len
    {
      hide View;
      var todo := len;
      var split := if pwrite + len > size then size - pwrite else 0;
      ghost var w, a := pwrite, data[..];
      if split > 0 {
        forall i | 0 <= i < split { data[pwrite + i] := buf[i]; }
        todo := todo - split;
        pwrite := 0;
      }
      forall i | 0 <= i < todo { data[pwrite + i] := buf[split + i]; }
      pwrite := (pwrite + todo) % size;
      ModIsWrap(if split > 0 then 0 else w, todo, size);
      WriteView(a, data[..], pread, w, buf[..len]);
      return len;
    }
  }

  lemma ModIsWrap(p: nat, n: nat, size: nat)
    requires p + n <= size && p < size
    ensures (p + n) % size == Wrap(p + n, size)
  {
  }
}
