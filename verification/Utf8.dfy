/** The UTF-8 decoder, the encoder of section 2 of RFC 2279 and the string filter built on the decoder. */
module Utf8 {
  import opened Bytes

  const LIMIT := 0x8000_0000

  /** ret > 0: bytes consumed; 0: nothing to read; -1: too short; -2, -3, -4: malformed. */
  datatype Got = Got(ret: int, value: nat)

  predicate Continuation(b: byte) {
    b / 64 == 2
  }

  function Part(b: byte): nat {
    b % 64
  }

  /** UTF8_getc. Its bit tests are written as divisions and its disjoint ors as sums. */
  function Getc(s: seq<byte>): (g: Got)
    ensures s != [] ==> g.ret != 0
    ensures g.ret <= |s| && (g.ret > 0 ==> g.value < LIMIT)
  {
    if s == [] then Got(0, 0)
    else if s[0] < 0x80 then Got(1, s[0])
    else if s[0] / 32 == 6 then Getc2(s)
    else if s[0] / 16 == 14 then Getc3(s)
    else if s[0] / 8 == 30 then Getc4(s)
    else if s[0] / 4 == 62 then Getc5(s)
    else if s[0] / 2 == 126 then Getc6(s)
    else Got(-2, 0)
  }

  function Getc2(s: seq<byte>): (g: Got)
    requires s != []
    ensures g.ret >= 0 ==> 2 == g.ret <= |s| && g.value < LIMIT
  {
    if |s| < 2 then Got(-1, 0)
    else if !Continuation(s[1]) then Got(-3, 0)
    else
      var value := s[0] % 32 * 64 + Part(s[1]);
      if value < 0x80 then Got(-4, 0) else Got(2, value)
  }

  function Getc3(s: seq<byte>): (g: Got)
    requires s != []
    ensures g.ret >= 0 ==> 3 == g.ret <= |s| && g.value < LIMIT
  {
    if |s| < 3 then Got(-1, 0)
    else if !Continuation(s[1]) || !Continuation(s[2]) then Got(-3, 0)
    else
      var value := s[0] % 16 * 0x1000 + Part(s[1]) * 64 + Part(s[2]);
      if value < 0x800 then Got(-4, 0) else Got(3, value)
  }

  function Getc4(s: seq<byte>): (g: Got)
    requires s != []
    ensures g.ret >= 0 ==> 4 == g.ret <= |s| && g.value < LIMIT
  {
    if |s| < 4 then Got(-1, 0)
    else if !Continuation(s[1]) || !Continuation(s[2]) || !Continuation(s[3]) then Got(-3, 0)
    else
      var value := s[0] % 8 * 0x4_0000 + Part(s[1]) * 0x1000 + Part(s[2]) * 64 + Part(s[3]);
      if value < 0x1_0000 then Got(-4, 0) else Got(4, value)
  }

  function Getc5(s: seq<byte>): (g: Got)
    requires s != []
    ensures g.ret >= 0 ==> 5 == g.ret <= |s| && g.value < LIMIT
  {
    if |s| < 5 then Got(-1, 0)
    else if !Continuation(s[1]) || !Continuation(s[2]) || !Continuation(s[3]) || !Continuation(s[4]) then Got(-3, 0)
    else
      var value := s[0] % 4 * 0x100_0000 + Part(s[1]) * 0x4_0000 + Part(s[2]) * 0x1000 + Part(s[3]) * 64 + Part(s[4]);
      if value < 0x20_0000 then Got(-4, 0) else Got(5, value)
  }

  function Getc6(s: seq<byte>): (g: Got)
    requires s != []
    ensures g.ret >= 0 ==> 6 == g.ret <= |s| && g.value < LIMIT
  {
    if |s| < 6 then Got(-1, 0)
    else if !Continuation(s[1]) || !Continuation(s[2]) || !Continuation(s[3]) || !Continuation(s[4])
            || !Continuation(s[5]) then Got(-3, 0)
    else
      var value := s[0] % 2 * 0x4000_0000 + Part(s[1]) * 0x100_0000 + Part(s[2]) * 0x4_0000
                   + Part(s[3]) * 0x1000 + Part(s[4]) * 64 + Part(s[5]);
      if value < 0x400_0000 then Got(-4, 0) else Got(6, value)
  }

  // ---------------------------------------------------------------- the encoder

  /** The last k bytes of a form: six bits of v each, most significant first. */
  function Tail(k: nat, v: nat): (t: seq<byte>)
    ensures |t| == k
  {
    if k == 0 then [] else Tail(k - 1, v / 64) + [0x80 + v % 64]
  }

  /** What is left of v for the first byte of an n-byte form. */
  function Top(n: nat, v: nat): nat {
    if n <= 1 then v else Top(n - 1, v / 64)
  }

  /** First byte values are Mark(n) up to Mark(n) + Room(n) - 1. */
  function Mark(n: nat): byte {
    if n == 1 then 0 else if n == 2 then 0xC0 else if n == 3 then 0xE0
    else if n == 4 then 0xF0 else if n == 5 then 0xF8 else 0xFC
  }

  function Room(n: nat): nat {
    if n == 1 then 0x80 else if n == 2 then 32 else if n == 3 then 16
    else if n == 4 then 8 else if n == 5 then 4 else 2
  }

  /** v can be written with n bytes. */
  predicate Holds(n: nat, v: nat) {
    1 <= n <= 6 && Top(n, v) < Room(n)
  }

  /** The n-byte form of v, minimal or not. */
  function Form(n: nat, v: nat): (s: seq<byte>)
    requires Holds(n, v)
    ensures |s| == n
  {
    [Mark(n) + Top(n, v)] + Tail(n - 1, v)
  }

  /** The length that RFC 2279 prescribes. */
  function Length(v: nat): nat {
    if v < 0x80 then 1 else if v < 0x800 then 2 else if v < 0x1_0000 then 3
    else if v < 0x20_0000 then 4 else if v < 0x400_0000 then 5 else 6
  }

  lemma TopIs(n: nat, v: nat)
    requires 1 <= n <= 6
    ensures n == 1 ==> Top(n, v) == v
    ensures n == 2 ==> Top(n, v) == v / 64
    ensures n == 3 ==> Top(n, v) == v / 0x1000
    ensures n == 4 ==> Top(n, v) == v / 0x4_0000
    ensures n == 5 ==> Top(n, v) == v / 0x100_0000
    ensures n == 6 ==> Top(n, v) == v / 0x4000_0000
  {
    if n > 1 { TopIs(n - 1, v / 64); }
  }

  /** The prescribed length is the least number of bytes that hold the value. */
  lemma LengthIsLeast(v: nat, n: nat)
    requires v < LIMIT
    ensures Holds(Length(v), v)
    ensures Holds(n, v) ==> Length(v) <= n
  {
    TopIs(Length(v), v);
    if 1 <= n <= 6 { TopIs(n, v); }
  }

  function Encode(v: nat): (s: seq<byte>)
    requires v < LIMIT
    ensures |s| == Length(v)
  {
    LengthIsLeast(v, 1);
    Form(Length(v), v)
  }

  // ---------------------------------------------------------------- forms are what the decoder reads

  /** The value that a run of continuation bytes appends to the bits h. */
  function Shift(h: nat, t: seq<byte>): nat {
    if t == [] then h else Shift(h, t[..|t| - 1]) * 64 + Part(t[|t| - 1])
  }

  lemma {:induction false} ShiftTail(n: nat, v: nat)
    requires n >= 1
    ensures Shift(Top(n, v), Tail(n - 1, v)) == v
    ensures forall b :: b in Tail(n - 1, v) ==> Continuation(b)
  {
    if n > 1 {
      ShiftTail(n - 1, v / 64);
      var t := Tail(n - 1, v);
      assert t[..|t| - 1] == Tail(n - 2, v / 64);
    }
  }

  lemma {:induction false} TailShift(h: nat, t: seq<byte>)
    requires forall i :: 0 <= i < |t| ==> Continuation(t[i])
    ensures Top(|t| + 1, Shift(h, t)) == h && Tail(|t|, Shift(h, t)) == t
  {
    if t != [] {
      var u := t[..|t| - 1];
      TailShift(h, u);
      assert Shift(h, t) / 64 == Shift(h, u);
      assert t == u + [t[|t| - 1]];
    }
  }

  /** The length that a first byte announces; 0 for a byte that cannot come first. */
  function Announced(b: byte): nat {
    if b < 0x80 then 1 else if b < 0xC0 then 0 else if b < 0xE0 then 2 else if b < 0xF0 then 3
    else if b < 0xF8 then 4 else if b < 0xFC then 5 else if b < 0xFE then 6 else 0
  }

  /** The bits of all n bytes of a form. */
  function Raw(n: nat, s: seq<byte>): nat
    requires 1 <= n <= |s| && s[0] >= Mark(n)
  {
    Shift(s[0] - Mark(n), s[1..n])
  }

  lemma ShiftUnrolled(h: nat, t: seq<byte>)
    requires |t| <= 5
    ensures |t| == 0 ==> Shift(h, t) == h
    ensures |t| == 1 ==> Shift(h, t) == h * 64 + Part(t[0])
    ensures |t| == 2 ==> Shift(h, t) == h * 0x1000 + Part(t[0]) * 64 + Part(t[1])
    ensures |t| == 3 ==> Shift(h, t) == h * 0x4_0000 + Part(t[0]) * 0x1000 + Part(t[1]) * 64 + Part(t[2])
    ensures |t| == 4 ==> Shift(h, t) == h * 0x100_0000 + Part(t[0]) * 0x4_0000 + Part(t[1]) * 0x1000
                                        + Part(t[2]) * 64 + Part(t[3])
    ensures |t| == 5 ==> Shift(h, t) == h * 0x4000_0000 + Part(t[0]) * 0x100_0000 + Part(t[1]) * 0x4_0000
                                        + Part(t[2]) * 0x1000 + Part(t[3]) * 64 + Part(t[4])
  {
  }

  predicate AllContinue(s: seq<byte>, n: nat)
    requires n <= |s|
  {
    forall i :: 1 <= i < n ==> Continuation(s[i])
  }

  /** The decoder's six branches as one rule. */
  function ByForm(s: seq<byte>): Got
    requires s != []
  {
    var n := Announced(s[0]);
    if n == 0 then Got(-2, 0)
    else if |s| < n then Got(-1, 0)
    else if !AllContinue(s, n) then Got(-3, 0)
    else if Length(Raw(n, s)) < n then Got(-4, 0)
    else Got(n, Raw(n, s))
  }

  lemma ByForm2(s: seq<byte>)
    requires s != [] && Announced(s[0]) == 2
    ensures Getc2(s) == ByForm(s)
  {
    if |s| >= 2 {
      var t := s[1..2];
      ShiftUnrolled(s[0] - Mark(2), t);
      assert s[0] % 32 == s[0] - Mark(2);
      assert t[0] == s[1];
      hide Shift, Part;
    }
  }

  lemma ByForm3(s: seq<byte>)
    requires s != [] && Announced(s[0]) == 3
    ensures Getc3(s) == ByForm(s)
  {
    if |s| >= 3 {
      var t := s[1..3];
      ShiftUnrolled(s[0] - Mark(3), t);
      assert s[0] % 16 == s[0] - Mark(3);
      assert t[0] == s[1] && t[1] == s[2];
      hide Shift, Part;
    }
  }

  lemma ByForm4(s: seq<byte>)
    requires s != [] && Announced(s[0]) == 4
    ensures Getc4(s) == ByForm(s)
  {
    if |s| >= 4 {
      var t := s[1..4];
      ShiftUnrolled(s[0] - Mark(4), t);
      assert s[0] % 8 == s[0] - Mark(4);
      assert t[0] == s[1] && t[1] == s[2] && t[2] == s[3];
      hide Shift, Part;
    }
  }

  lemma ByForm5(s: seq<byte>)
    requires s != [] && Announced(s[0]) == 5
    ensures Getc5(s) == ByForm(s)
  {
    if |s| >= 5 {
      var t := s[1..5];
      ShiftUnrolled(s[0] - Mark(5), t);
      assert s[0] % 4 == s[0] - Mark(5);
      assert t[0] == s[1] && t[1] == s[2] && t[2] == s[3] && t[3] == s[4];
      hide Shift, Part;
    }
  }

  lemma ByForm6(s: seq<byte>)
    requires s != [] && Announced(s[0]) == 6
    ensures Getc6(s) == ByForm(s)
  {
    if |s| >= 6 {
      var t := s[1..6];
      ShiftUnrolled(s[0] - Mark(6), t);
      assert s[0] % 2 == s[0] - Mark(6);
      assert t[0] == s[1] && t[1] == s[2] && t[2] == s[3] && t[3] == s[4] && t[4] == s[5];
      hide Shift, Part;
    }
  }

  lemma GetcByForm(s: seq<byte>)
    requires s != []
    ensures Getc(s) == ByForm(s)
  {
    var n := Announced(s[0]);
    if n == 1 { ShiftUnrolled(s[0], s[1..1]); }
    if n == 2 { ByForm2(s); }
    if n == 3 { ByForm3(s); }
    if n == 4 { ByForm4(s); }
    if n == 5 { ByForm5(s); }
    if n == 6 { ByForm6(s); }
    assert s[0] / 32 == 6 <==> n == 2;
    assert s[0] / 16 == 14 <==> n == 3;
    assert s[0] / 8 == 30 <==> n == 4;
    assert s[0] / 4 == 62 <==> n == 5;
    assert s[0] / 2 == 126 <==> n == 6;
    hide Getc2, Getc3, Getc4, Getc5, Getc6, Shift;
  }

  /** The first n bytes are a form, of the value of their bits. */
  lemma FormOfRaw(n: nat, s: seq<byte>)
    requires s != [] && n == Announced(s[0]) && 1 <= n <= |s|
    requires AllContinue(s, n)
    ensures Holds(n, Raw(n, s)) && s[..n] == Form(n, Raw(n, s)) && Raw(n, s) < LIMIT
  {
    TailShift(s[0] - Mark(n), s[1..n]);
    TopIs(n, Raw(n, s));
    assert s[..n] == [s[0]] + s[1..n];
  }

  /** A form announces its length, consists of continuation bytes and carries its value. */
  lemma RawOfForm(n: nat, v: nat, rest: seq<byte>)
    requires Holds(n, v)
    ensures var s := Form(n, v) + rest;
            && Announced(s[0]) == n && AllContinue(s, n) && Raw(n, s) == v
  {
    var s := Form(n, v) + rest;
    ShiftTail(n, v);
    assert s[1..n] == Tail(n - 1, v);
    forall i | 1 <= i < n
      ensures Continuation(s[i])
    {
      assert s[i] == Tail(n - 1, v)[i - 1];
    }
  }

  /** Every value is decoded from its encoding, whatever bytes follow. */
  lemma DecodeOfEncode(v: nat, rest: seq<byte>)
    requires v < LIMIT
    ensures Getc(Encode(v) + rest) == Got(|Encode(v)|, v)
  {
    LengthIsLeast(v, 1);
    RawOfForm(Length(v), v, rest);
    GetcByForm(Encode(v) + rest);
  }

  /** A positive return has consumed exactly the encoding of the value it gives. */
  lemma EncodeOfDecode(s: seq<byte>)
    requires Getc(s).ret > 0
    ensures Getc(s).value < LIMIT && Getc(s).ret <= |s|
    ensures s[..Getc(s).ret] == Encode(Getc(s).value)
  {
    GetcByForm(s);
    var n := Announced(s[0]);
    FormOfRaw(n, s);
    LengthIsLeast(Getc(s).value, n);
  }

  lemma OverlongIsForm(s: seq<byte>)
    requires Getc(s).ret == -4
    ensures var n := Announced(s[0]);
            && 1 <= n <= |s| && Holds(n, Raw(n, s)) && Length(Raw(n, s)) < n && Raw(n, s) < LIMIT
            && s[..n] == Form(n, Raw(n, s))
  {
    GetcByForm(s);
    FormOfRaw(Announced(s[0]), s);
  }

  lemma LongFormIsOverlong(n: nat, v: nat, rest: seq<byte>)
    requires Holds(n, v) && Length(v) < n
    ensures Getc(Form(n, v) + rest).ret == -4
  {
    RawOfForm(n, v, rest);
    GetcByForm(Form(n, v) + rest);
  }

  /** -4 is returned exactly for the forms that are longer than needed. */
  lemma OverlongIff(s: seq<byte>)
    ensures Getc(s).ret == -4
       <==> exists n: nat, v: nat :: Holds(n, v) && Length(v) < n <= |s| && v < LIMIT && s[..n] == Form(n, v)
  {
    hide Getc, Holds, Form, Length, Raw;
    if Getc(s).ret == -4 { OverlongIsForm(s); }
    forall n: nat, v: nat | Holds(n, v) && Length(v) < n <= |s| && v < LIMIT && s[..n] == Form(n, v)
      ensures Getc(s).ret == -4
    {
      LongFormIsOverlong(n, v, s[n..]);
      assert s == s[..n] + s[n..];
    }
  }

  /** No two values share an encoding, and none is the beginning of another. */
  lemma EncodingsArePrefixFree(v: nat, w: nat)
    requires v < LIMIT && w < LIMIT && Encode(v) <= Encode(w)
    ensures v == w
  {
    var rest := Encode(w)[|Encode(v)|..];
    assert Encode(w) == Encode(v) + rest;
    assert Encode(w) == Encode(w) + [];
    DecodeOfEncode(v, rest);
    DecodeOfEncode(w, []);
  }
}
