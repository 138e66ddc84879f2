/** AM_Check_UTF8: copying the well-formed characters of a string, control codes left out. */
module Utf8Filter {
  import opened Bytes
  import opened Utf8

  type Code = v: nat | v < LIMIT

  /** is_ctrl_code */
  predicate Control(v: nat) {
    0x80 <= v <= 0x9F || 0xE080 <= v <= 0xE09F
  }

  predicate Clean(vs: seq<Code>) {
    forall i :: 0 <= i < |vs| ==> !Control(vs[i])
  }

  function Text(vs: seq<Code>): seq<byte> {
    if vs == [] then [] else Encode(vs[0]) + Text(vs[1..])
  }

  /** The characters of a string that are kept, in order. */
  function Values(s: seq<byte>): seq<Code>
    decreases |s|
  {
    if s == [] then []
    else
      var g := Getc(s);
      if g.ret < 0 then Values(s[1..])
      else if Control(g.value) then Values(s[g.ret..])
      else [g.value] + Values(s[g.ret..])
  }

  /** How many of the characters are copied: up to the first that does not fit. */
  function Fit(vs: seq<Code>, room: int): (k: nat)
    ensures k <= |vs|
  {
    if vs == [] || |Encode(vs[0])| > room then 0
    else 1 + Fit(vs[1..], room - |Encode(vs[0])|)
  }

  function Kept(s: seq<byte>, room: int): seq<byte> {
    Text(Values(s)[..Fit(Values(s), room)])
  }

  // ---------------------------------------------------------------- the loop

  lemma KeptStep(s: seq<byte>, room: int)
    requires s != []
    ensures var g := Getc(s);
            Kept(s, room) == if g.ret < 0 then Kept(s[1..], room)
                             else if Control(g.value) then Kept(s[g.ret..], room)
                             else if g.ret > room then []
                             else s[..g.ret] + Kept(s[g.ret..], room - g.ret)
  {
    var g := Getc(s);
    if g.ret > 0 && !Control(g.value) {
      EncodeOfDecode(s);
      var vs := Values(s);
      var k := Fit(vs, room);
      assert vs[1..] == Values(s[g.ret..]);
      if g.ret <= room {
        assert vs[..k][1..] == vs[1..][..k - 1];
      }
    }
  }

  /** UTF8_getc at position p, and what it means for the rest of the output. */
  method GetcAt(src: seq<byte>, p: nat, ghost room: int) returns (ret: int, value: nat)
    requires p < |src|
    ensures ret != 0 && p + ret <= |src|
    ensures Kept(src[p..], room) == if ret < 0 then Kept(src[p + 1..], room)
                                    else if Control(value) then Kept(src[p + ret..], room)
                                    else if ret > room then []
                                    else src[p..p + ret] + Kept(src[p + ret..], room - ret)
  {
    hide *;
    var g := Getc(src[p..]);
    ret, value := g.ret, g.value;
    KeptStep(src[p..], room);
    DropDrop(src, p, if ret < 0 then 1 else ret);
    if ret > 0 { SliceDrop(src, p, 0, ret); }
  }

  /** memcpy of n bytes behind the pos bytes already written; more is what is still to come. */
  method Append(src: seq<byte>, p: nat, n: nat, dest: array<byte>, pos: nat,
                ghost was: seq<byte>, ghost more: seq<byte>)
    returns (ghost out: seq<byte>)
    requires p + n <= |src| && pos + n <= dest.Length && |was| == pos && forall i :: 0 <= i < pos ==> dest[i] == was[i]
    modifies dest
    ensures |out| == pos + n && (forall i :: 0 <= i < pos + n ==> dest[i] == out[i])
    ensures out + more == was + (src[p..p + n] + more)
    ensures forall i :: pos + n <= i < dest.Length ==> dest[i] == old(dest[i])
  {
    ghost var done, s := was, src[p..p + n];
    forall i | 0 <= i < n {
      dest[pos + i] := src[p + i];
    }
    out := done + s;
    assert dest[..pos + n] == out;
    assert (done + s) + more == done + (s + more);
  }

  /** AM_Check_UTF8 with the loop of traverse_string; capacity comes in through dest_len. */
  method CheckUtf8(src: seq<byte>, dest: array<byte>, capacity: int) returns (destLen: nat)
    requires capacity <= dest.Length
    modifies dest
    ensures destLen <= dest.Length && (destLen == 0 || destLen <= capacity)
    ensures dest[..destLen] == Kept(src, capacity)
    ensures forall i :: destLen <= i < dest.Length ==> dest[i] == old(dest[i])
  {
    hide *;
    var p: nat, len: nat := 0, |src|;
    destLen := 0;
    assert src[0..] == src;
    ghost var out, ahead: seq<byte> := dest[..0], Kept(src, capacity);
    while len != 0
      invariant p + len == |src| && destLen <= dest.Length && (destLen == 0 || destLen <= capacity)
      invariant |out| == destLen && (forall i :: 0 <= i < destLen ==> dest[i] == out[i])
      invariant out + ahead == Kept(src, capacity)
      invariant ahead == Kept(src[p..], capacity - destLen)
      invariant forall i :: destLen <= i < dest.Length ==> dest[i] == old(dest[i])
      decreases len
    {
      var ret, value := GetcAt(src, p, capacity - destLen);
      if ret < 0 {
        len := len - 1;
        p := p + 1;
        continue;
      } else if Control(value) {
        len := len - ret;
        p := p + ret;
        continue;
      } else {
        if destLen + ret > capacity {
          ahead := [];
          break;
        }
        ahead := Kept(src[p + ret..], capacity - destLen - ret);
        out := Append(src, p, ret, dest, destLen, out, ahead);
        len := len - ret;
        p := p + ret;
        destLen := destLen + ret;
      }
    }
    if len == 0 {
      assert src[p..] == [];
      KeptOfNothing(capacity - destLen);
    }
    assert ahead == [] && out + ahead == out;
  }

  lemma KeptOfNothing(room: int)
    ensures Kept([], room) == []
  {
  }

  // ---------------------------------------------------------------- what is kept

  /** The output is the longest run of whole characters that fits. */
  lemma {:induction false} FitIsLongest(vs: seq<Code>, room: nat)
    ensures |Text(vs[..Fit(vs, room)])| <= room
    ensures forall j :: Fit(vs, room) < j <= |vs| ==> |Text(vs[..j])| > room
  {
    if vs != [] {
      var n := |Encode(vs[0])|;
      if n <= room { FitIsLongest(vs[1..], room - n); }
      forall j | 1 <= j <= |vs|
        ensures |Text(vs[..j])| == n + |Text(vs[1..][..j - 1])|
      {
        assert vs[..j][1..] == vs[1..][..j - 1];
      }
    }
  }

  /** No control code is kept. */
  lemma {:induction false} ValuesAreClean(s: seq<byte>)
    ensures Clean(Values(s))
    ensures forall v :: v in Values(s) ==> !(0x80 <= v <= 0x9F) && !(0xE080 <= v <= 0xE09F)
    decreases |s|
  {
    if s != [] {
      var g := Getc(s);
      if g.ret < 0 { ValuesAreClean(s[1..]); } else { ValuesAreClean(s[g.ret..]); }
    }
  }

  function WithoutControls(vs: seq<Code>): seq<Code> {
    if vs == [] then []
    else (if Control(vs[0]) then [] else [vs[0]]) + WithoutControls(vs[1..])
  }

  lemma {:induction false} CleanIsUntouched(vs: seq<Code>)
    requires Clean(vs)
    ensures WithoutControls(vs) == vs
  {
    if vs != [] { CleanIsUntouched(vs[1..]); }
  }

  lemma ValuesHead(v: Code, rest: seq<byte>)
    ensures Values(Encode(v) + rest) == (if Control(v) then [] else [v]) + Values(rest)
  {
    DecodeOfEncode(v, rest);
    var e := Encode(v);
    hide Encode, Getc;
    assert (e + rest)[|e|..] == rest;
  }

  /** From an encoded text exactly the control codes go, whatever bytes follow. */
  lemma {:induction false} ValuesOfText(vs: seq<Code>, rest: seq<byte>)
    ensures Values(Text(vs) + rest) == WithoutControls(vs) + Values(rest)
  {
    hide Encode, Getc, Values;
    if vs == [] {
      assert Text(vs) + rest == rest;
      assert WithoutControls(vs) + Values(rest) == Values(rest);
    } else {
      var head: seq<Code> := if Control(vs[0]) then [] else [vs[0]];
      var e, t := Encode(vs[0]), Text(vs[1..]);
      assert Text(vs) + rest == e + (t + rest);
      assert WithoutControls(vs) == head + WithoutControls(vs[1..]);
      ValuesHead(vs[0], t + rest);
      ValuesOfText(vs[1..], rest);
      hide *;
      assert (head + WithoutControls(vs[1..])) + Values(rest) == head + (WithoutControls(vs[1..]) + Values(rest));
    }
  }

  /** Every other character is kept. */
  lemma OthersAreKept(v: Code, rest: seq<byte>)
    requires v < 0x80 || 0x9F < v < 0xE080 || 0xE09F < v
    ensures Values(Encode(v) + rest) == [v] + Values(rest)
  {
    ValuesHead(v, rest);
  }

  /** A continuation byte is no beginning of a character. */
  lemma ContinuationIsStray(b: byte)
    ensures Continuation(b) ==> Announced(b) == 0
  {
  }

  lemma {:induction false} ContinuationsAreSkipped(t: seq<byte>, rest: seq<byte>)
    requires forall i :: 0 <= i < |t| ==> Continuation(t[i])
    ensures Values(t + rest) == Values(rest)
  {
    hide Values;
    if t == [] {
      assert t + rest == rest;
    } else {
      ContinuationsAreSkipped(t[1..], rest);
      ContinuationIsStray(t[0]);
      StrayByteIsSkipped(t[0], t[1..] + rest);
      assert t + rest == [t[0]] + (t[1..] + rest);
    }
  }

  /** The first byte of an encoding is not a continuation byte. */
  lemma EncodingBegins(vs: seq<Code>)
    ensures Text(vs) == [] || !Continuation(Text(vs)[0])
  {
    if vs != [] {
      LengthIsLeast(vs[0], 1);
      TopIs(Length(vs[0]), vs[0]);
    }
  }

  /**
   Resynchronisation: a first byte with some continuation bytes, but fewer than it announces, is lost
   with them and takes nothing of the text behind it along.
   */
  lemma BrokenIsSkipped(b: byte, t: seq<byte>, vs: seq<Code>)
    requires b >= 0x80 && |t| + 1 < Announced(b) && forall i :: 0 <= i < |t| ==> Continuation(t[i])
    ensures Values([b] + (t + Text(vs))) == WithoutControls(vs)
  {
    hide Text, WithoutControls, Encode;
    var s := [b] + (t + Text(vs));
    EncodingBegins(vs);
    GetcByForm(s);
    if |s| >= Announced(b) {
      assert s[|t| + 1] == Text(vs)[0];
      assert !AllContinue(s, Announced(b));
    }
    assert s[1..] == t + Text(vs);
    ContinuationsAreSkipped(t, Text(vs));
    ValuesOfText(vs, []);
    assert Text(vs) + [] == Text(vs);
    assert WithoutControls(vs) + Values([]) == WithoutControls(vs);
  }

  /** An overlong form is lost alone. */
  lemma OverlongIsSkipped(n: nat, v: nat, vs: seq<Code>)
    requires Holds(n, v) && Length(v) < n
    ensures Values(Form(n, v) + Text(vs)) == WithoutControls(vs)
  {
    hide Text, WithoutControls, Encode, Holds;
    var f := Form(n, v);
    var s := f + Text(vs);
    LongFormIsOverlong(n, v, Text(vs));
    RawOfForm(n, v, Text(vs));
    assert s[1..] == f[1..] + Text(vs);
    forall i | 0 <= i < |f[1..]|
      ensures Continuation(f[1..][i])
    {
      assert f[1..][i] == s[i + 1];
    }
    ContinuationsAreSkipped(f[1..], Text(vs));
    ValuesOfText(vs, []);
    assert Text(vs) + [] == Text(vs);
    assert WithoutControls(vs) + Values([]) == WithoutControls(vs);
  }

  /** A byte that no character begins with is skipped alone. */
  lemma StrayByteIsSkipped(b: byte, rest: seq<byte>)
    requires Announced(b) == 0
    ensures Values([b] + rest) == Values(rest)
  {
    GetcByForm([b] + rest);
    assert ([b] + rest)[1..] == rest;
  }

  lemma ValuesOfClean(vs: seq<Code>)
    requires Clean(vs)
    ensures Values(Text(vs)) == vs
  {
    ValuesOfText(vs, []);
    CleanIsUntouched(vs);
    assert Text(vs) + [] == Text(vs);
  }

  /** A string comes out unchanged exactly when it is a clean text that fits. */
  lemma UnchangedIff(s: seq<byte>, room: nat)
    ensures Kept(s, room) == s <==> |s| <= room && exists vs :: Clean(vs) && s == Text(vs)
  {
    var vs := Values(s);
    var k := Fit(vs, room);
    ValuesAreClean(s);
    FitIsLongest(vs, room);
    if Kept(s, room) == s {
      assert Clean(vs[..k]) && s == Text(vs[..k]);
    }
    if ws :| |s| <= room && Clean(ws) && s == Text(ws) {
      ValuesOfClean(ws);
      assert vs[..|vs|] == vs;
    }
  }

  /** What was kept once is kept again. */
  lemma KeepingIsIdempotent(s: seq<byte>, room: nat, room2: nat)
    requires |Kept(s, room)| <= room2
    ensures Kept(Kept(s, room), room2) == Kept(s, room)
    ensures |Kept(s, room)| <= room
  {
    var vs := Values(s);
    ValuesAreClean(s);
    FitIsLongest(vs, room);
    assert Clean(vs[..Fit(vs, room)]);
    UnchangedIff(Kept(s, room), room2);
  }
}
