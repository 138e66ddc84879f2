/**
 The T=0 exchange of AM_SMC_TransferT0 as a function of the bytes the card sends, and what it
 gives against cards that keep to the procedure bytes of section 10.3.3 of ISO/IEC 7816-3:2006.
 */
module T0 {
  import opened Bytes

  const SMC_BUF_SIZE := 1024

  /** Wire: the driver failed or the time ran out. Overrun: more than the receive ring can hold. */
  datatype Status = Success | IoError | Wire | Overrun

  /** How the call ends, what has been sent by then and what is handed to the caller. */
  datatype Outcome = Outcome(status: Status, sent: seq<byte>, recv: seq<byte>)

  /** b ^ 0x01 */
  function Flip(b: byte): byte {
    if b % 2 == 0 then b + 1 else b - 1
  }

  /** b ^ 0xff */
  function Invert(b: byte): byte {
    255 - b
  }

  predicate AckAll(ins: byte, b: byte) {
    b == ins || b == Flip(ins)
  }

  predicate AckOne(ins: byte, b: byte) {
    b == Invert(ins) || b == Flip(Invert(ins))
  }

  predicate StatusByte(b: byte) {
    b != 0x60 && (b / 16 == 6 || b / 16 == 9)
  }

  /** SW1 is 6X but 60, or 9X. */
  lemma StatusBytesAre(b: byte)
    ensures StatusByte(b) <==> 0x61 <= b <= 0x6F || 0x90 <= b <= 0x9F
  {
  }

  /** The acknowledgements are INS and its neighbour, and their complements. */
  lemma AcknowledgementsAre(ins: byte, b: byte)
    ensures AckAll(ins, b) <==> b / 2 == ins / 2
    ensures AckOne(ins, b) <==> b / 2 == (255 - ins) / 2
  {
  }

  /** A command: five bytes of header and up to 255 of data. */
  predicate Command(send: seq<byte>) {
    5 <= |send| <= 260
  }

  /**
   The procedure-byte loop. tx has still to be sent, rx has been received, rxlen bytes are
   expected; answers is what the card sends from here on and accepts how many bytes it will take.
   */
  function Loop(ins: byte, tx: seq<byte>, rxlen: byte, sent: seq<byte>, rx: seq<byte>,
                answers: seq<byte>, accepts: nat): Outcome
    decreases |answers|
  {
    if answers == [] then Outcome(Wire, sent, rx)
    else
      var b, more := answers[0], answers[1..];
      if b == 0x60 then Loop(ins, tx, rxlen, sent, rx, more, accepts)
      else if StatusByte(b) then Finish(sent, rx + [b], more)
      else if AckAll(ins, b) then
        if tx != [] then
          if |tx| > accepts then Outcome(Wire, sent + tx[..accepts], rx)
          else Loop(ins, [], rxlen, sent + tx, rx, more, accepts - |tx|)
        else
          if |more| < rxlen as int then Outcome(Wire, sent, rx)
          else if |rx| + rxlen as int >= SMC_BUF_SIZE then Outcome(Overrun, sent, rx)
          else Loop(ins, tx, rxlen, sent, rx + more[..rxlen], more[rxlen..], accepts)
      else if AckOne(ins, b) then
        if more == [] then Outcome(Wire, sent, rx)
        else if |rx| + 1 >= SMC_BUF_SIZE then Outcome(Overrun, sent, rx)
        else Loop(ins, tx, Dec(rxlen), sent, rx + [more[0]], more[1..], accepts)
      else Outcome(IoError, sent, rx)
  }

  /** SW1 has come; SW2 ends the exchange. */
  function Finish(sent: seq<byte>, rx: seq<byte>, more: seq<byte>): Outcome {
    if |rx| >= SMC_BUF_SIZE then Outcome(Overrun, sent, rx[..|rx| - 1])
    else if more == [] then Outcome(Wire, sent, rx)
    else if |rx| + 1 >= SMC_BUF_SIZE then Outcome(Overrun, sent, rx)
    else Outcome(Success, sent, rx + [more[0]])
  }

  /** The whole call: the header goes first, the data of a longer command waits for the card. */
  function Transfer(send: seq<byte>, answers: seq<byte>, accepts: nat): Outcome
    requires Command(send)
  {
    if accepts < 5 then Outcome(Wire, send[..accepts], [])
    else Loop(send[1], send[5..], if |send| == 5 then send[4] else 0, send[..5], [], answers, accepts - 5)
  }

  /**
   What the first byte that is not a null byte means, for every byte and every command of five bytes
   or more: it is a status byte and ends the call with the next one, or an acknowledgement, or it
   ends the call in an error with nothing received.
   */
  lemma FirstByteDecides(send: seq<byte>, waits: nat, b: byte, x: byte, rest: seq<byte>, accepts: nat)
    requires Command(send) && accepts >= 5 && b != 0x60
    ensures var o := Transfer(send, Waits(waits) + ([b, x] + rest), accepts);
            && (0x61 <= b <= 0x6F || 0x90 <= b <= 0x9F ==> o == Outcome(Success, send[..5], [b, x]))
            && (!(0x61 <= b <= 0x6F || 0x90 <= b <= 0x9F) && b / 2 != send[1] / 2 && b / 2 != (255 - send[1]) / 2
                ==> o == Outcome(IoError, send[..5], []))
  {
    hide Loop;
    var rxlen := if |send| == 5 then send[4] else 0;
    var more := [x] + rest;
    assert [b, x] + rest == [b] + more;
    LoopWaits(send[1], send[5..], rxlen, send[..5], [], waits, [b] + more, accepts - 5);
    AfterWaits(send[1], send[5..], rxlen, send[..5], b, x, rest, accepts - 5);
  }

  /** Null bytes. */
  function Waits(n: nat): (w: seq<byte>)
    ensures |w| == n && forall i :: 0 <= i < n ==> w[i] == 0x60
  {
    seq(n, _ => 0x60)
  }

  lemma {:induction false} LoopWaits(ins: byte, tx: seq<byte>, rxlen: byte, sent: seq<byte>, rx: seq<byte>, n: nat,
                                     more: seq<byte>, accepts: nat)
    ensures Loop(ins, tx, rxlen, sent, rx, Waits(n) + more, accepts) == Loop(ins, tx, rxlen, sent, rx, more, accepts)
  {
    if n == 0 {
      assert Waits(0) + more == more;
    } else {
      assert Waits(n) + more == [0x60] + (Waits(n - 1) + more);
      assert ([0x60] + (Waits(n - 1) + more))[1..] == Waits(n - 1) + more;
      LoopWaits(ins, tx, rxlen, sent, rx, n - 1, more, accepts);
    }
  }

  lemma AfterWaits(ins: byte, tx: seq<byte>, rxlen: byte, sent: seq<byte>, b: byte, x: byte, rest: seq<byte>,
                   accepts: nat)
    requires b != 0x60
    ensures var o := Loop(ins, tx, rxlen, sent, [], [b] + ([x] + rest), accepts);
            && (0x61 <= b <= 0x6F || 0x90 <= b <= 0x9F ==> o == Outcome(Success, sent, [b, x]))
            && (!(0x61 <= b <= 0x6F || 0x90 <= b <= 0x9F) && b / 2 != ins / 2 && b / 2 != (255 - ins) / 2
                ==> o == Outcome(IoError, sent, []))
  {
    StatusBytesAre(b);
    AcknowledgementsAre(ins, b);
    assert ([b] + ([x] + rest))[1..] == [x] + rest;
    assert [] + [b] + [x] == [b, x];
  }

  // ---------------------------------------------------------------- cards

  /** What a card does between the header and the status: wait, take or give all, give one byte. */
  datatype Step = Null | All(flip: bool) | One(flip: bool)

  function AckByte(ins: byte, s: Step): byte {
    match s
    case Null => 0x60
    case All(flip) => if flip then Flip(ins) else ins
    case One(flip) => if flip then Flip(Invert(ins)) else Invert(ins)
  }

  /** Both forms of an acknowledgement are among the cards' steps. */
  lemma BothForms(ins: byte)
    ensures AckByte(ins, All(false)) == ins && AckByte(ins, One(false)) == 255 - ins
    ensures AckByte(ins, All(true)) != ins && AckByte(ins, All(true)) / 2 == ins / 2
    ensures AckByte(ins, One(true)) != 255 - ins && AckByte(ins, One(true)) / 2 == (255 - ins) / 2
  {
  }

  /** INS values the standard allows: 6X and 9X would be mistaken for status bytes. */
  predicate GoodIns(ins: byte) {
    ins / 16 != 6 && ins / 16 != 9
  }

  lemma AcksAreDistinct(ins: byte, s: Step)
    requires GoodIns(ins)
    ensures s.All? ==> var b := AckByte(ins, s); b != 0x60 && !StatusByte(b) && AckAll(ins, b)
    ensures s.One? ==> var b := AckByte(ins, s); b != 0x60 && !StatusByte(b) && !AckAll(ins, b) && AckOne(ins, b)
  {
  }

  /** What the card sends when it gives data by these steps. */
  function Giving(ins: byte, steps: seq<Step>, data: seq<byte>): seq<byte>
    decreases |steps|
  {
    if steps == [] then []
    else
      var n := Given(steps[0], data);
      [AckByte(ins, steps[0])] + data[..n] + Giving(ins, steps[1..], data[n..])
  }

  function Given(s: Step, data: seq<byte>): (n: nat)
    ensures n <= |data|
  {
    if s.Null? then 0 else if s.All? || data == [] then |data| else 1
  }

  /** The steps give all of data and acknowledge nothing once it is given. */
  predicate Gives(steps: seq<Step>, data: seq<byte>)
    decreases |steps|
  {
    if steps == [] then data == []
    else (steps[0].Null? || data != []) && Gives(steps[1..], data[Given(steps[0], data)..])
  }

  /** rxlen-- in a uint8_t. */
  function Dec(n: byte): byte {
    if n == 0 then 255 else n - 1
  }

  /** One step of a giving card, seen from the loop. */
  lemma LoopStep(ins: byte, s: Step, rxlen: byte, sent: seq<byte>, rx: seq<byte>, head: seq<byte>, t: seq<byte>,
                 accepts: nat)
    requires GoodIns(ins) && |rx| + |head| < SMC_BUF_SIZE
    requires s.Null? ==> head == []
    requires s.One? ==> |head| == 1
    requires s.All? ==> |head| == rxlen as int
    ensures Loop(ins, [], rxlen, sent, rx, [AckByte(ins, s)] + (head + t), accepts)
         == Loop(ins, [], if s.One? then Dec(rxlen) else rxlen, sent, rx + head, t, accepts)
  {
    AcksAreDistinct(ins, s);
    var answers := [AckByte(ins, s)] + (head + t);
    assert answers[1..] == head + t;
    assert (head + t)[..|head|] == head && (head + t)[|head|..] == t;
    if s.One? { assert head == [(head + t)[0]]; }
    if s.Null? { assert rx + head == rx && head + t == t; }
  }

  /** The first acknowledgement is for everything at once. */
  predicate FirstAckAll(steps: seq<Step>): (first: bool)
    ensures first ==> steps != []
  {
    steps != [] && (steps[0].All? || (steps[0].Null? && FirstAckAll(steps[1..])))
  }

  lemma FirstAckStep(steps: seq<Step>)
    requires steps != []
    ensures FirstAckAll(steps) == (steps[0].All? || (steps[0].Null? && FirstAckAll(steps[1..])))
  {
  }

  lemma {:induction false} LoopReceives(ins: byte, rxlen: byte, sent: seq<byte>, rx: seq<byte>, steps: seq<Step>,
                                        data: seq<byte>, sw1: byte, sw2: byte, rest: seq<byte>, accepts: nat)
    requires GoodIns(ins) && StatusByte(sw1) && Gives(steps, data)
    requires data != [] ==> |data| <= 256 && |data| % 256 == rxlen as int && (|data| == 256 ==> !FirstAckAll(steps))
    requires |rx| + |data| + 2 < SMC_BUF_SIZE
    ensures Loop(ins, [], rxlen, sent, rx, Giving(ins, steps, data) + ([sw1, sw2] + rest), accepts)
         == Outcome(Success, sent, rx + data + [sw1, sw2])
    decreases |steps|
  {
    hide *;
    DecIsModular(rxlen);
    var end := [sw1, sw2] + rest;
    if steps == [] {
      GivingNothing(ins, data, end);
      LoopEnds(ins, [], rxlen, sent, rx, sw1, sw2, rest, accepts);
      assert rx + data + [sw1, sw2] == rx + [sw1, sw2];
    } else {
      var s, n := steps[0], Given(steps[0], data);
      var head, left := data[..n], data[n..];
      GivingStep(ins, steps, data, end);
      FirstAckStep(steps);
      LoopStep(ins, s, rxlen, sent, rx, head, Giving(ins, steps[1..], left) + end, accepts);
      LoopReceives(ins, if s.One? then Dec(rxlen) else rxlen, sent, rx + head, steps[1..], left, sw1, sw2, rest,
                   accepts);
      assert (rx + head) + left == rx + data;
    }
  }

  lemma DecIsModular(n: byte)
    ensures Dec(n) as int == (n as int + 255) % 256
  {
  }

  lemma GivingNothing(ins: byte, data: seq<byte>, end: seq<byte>)
    requires Gives([], data)
    ensures data == [] && Giving(ins, [], data) + end == end
  {
  }

  lemma GivingStep(ins: byte, steps: seq<Step>, data: seq<byte>, end: seq<byte>)
    requires steps != [] && Gives(steps, data)
    ensures var s, n := steps[0], Given(steps[0], data);
            && Gives(steps[1..], data[n..]) && (s.Null? || data != [])
            && n == (if s.Null? then 0 else if s.All? then |data| else 1)
            && Giving(ins, steps, data) + end
               == [AckByte(ins, s)] + (data[..n] + (Giving(ins, steps[1..], data[n..]) + end))
  {
  }

  lemma LoopEnds(ins: byte, tx: seq<byte>, rxlen: byte, sent: seq<byte>, rx: seq<byte>, sw1: byte, sw2: byte,
                 rest: seq<byte>, accepts: nat)
    requires StatusByte(sw1) && |rx| + 2 < SMC_BUF_SIZE
    ensures Loop(ins, tx, rxlen, sent, rx, [sw1, sw2] + rest, accepts) == Outcome(Success, sent, rx + [sw1, sw2])
  {
    assert ([sw1, sw2] + rest)[1..] == [sw2] + rest;
    assert rx + [sw1] + [sw2] == rx + [sw1, sw2];
  }

  /**
   Reading: a card that gives the bytes P3 asks for by any steps, and then its status, gets
   exactly the header, and the caller gets exactly the data and the two status bytes, unless
   P3 is 0 and the card gives everything at once.
   */
  lemma ReceiveIff(send: seq<byte>, steps: seq<Step>, data: seq<byte>, sw1: byte, sw2: byte, accepts: nat)
    requires |send| == 5 && GoodIns(send[1]) && accepts >= 5
    requires |data| == (if send[4] == 0 then 256 else send[4]) && Gives(steps, data)
    requires 0x61 <= sw1 <= 0x6F || 0x90 <= sw1 <= 0x9F
    ensures Transfer(send, Giving(send[1], steps, data) + [sw1, sw2], accepts)
         == Outcome(Success, send, data + [sw1, sw2])
       <==> !(send[4] == 0 && FirstAckAll(steps))
  {
    hide Loop, Giving, Gives, FirstAckAll, StatusByte;
    StatusBytesAre(sw1);
    assert [sw1, sw2] + [] == [sw1, sw2];
    assert send[..5] == send && send[5..] == [] && [] + data == data;
    if send[4] == 0 && FirstAckAll(steps) {
      LoopStopsShort(send[1], send, steps, data, sw1, sw2, accepts - 5);
    } else {
      LoopReceives(send[1], send[4], send, [], steps, data, sw1, sw2, [], accepts - 5);
    }
  }

  /** With P3 = 0 an acknowledgement for everything reads nothing and the data are taken for procedure bytes. */
  lemma {:induction false} LoopStopsShort(ins: byte, sent: seq<byte>, steps: seq<Step>, data: seq<byte>,
                                          sw1: byte, sw2: byte, accepts: nat)
    requires GoodIns(ins) && |data| == 256 && Gives(steps, data) && FirstAckAll(steps) && StatusByte(sw1)
    ensures Loop(ins, [], 0, sent, [], Giving(ins, steps, data) + [sw1, sw2], accepts)
         != Outcome(Success, sent, data + [sw1, sw2])
    decreases |steps|
  {
    hide Loop, Giving, Gives, FirstAckAll, Solid;
    var end, none: seq<byte> := [sw1, sw2], [];
    var s, n := steps[0], Given(steps[0], data);
    FirstAckStep(steps);
    GivingStep(ins, steps, data, end);
    if s.Null? {
      assert data[0..] == data && data[..0] == [];
      assert none + none == none;
      LoopStep(ins, s, 0, sent, [], [], Giving(ins, steps[1..], data) + end, accepts);
      LoopStopsShort(ins, sent, steps[1..], data, sw1, sw2, accepts);
    } else {
      var waits := Giving(ins, steps[1..], data[n..]) + end;
      assert data[..n] == data && data[n..] == [];
      assert [] + (data + waits) == data + waits;
      assert none + none == none;
      LoopStep(ins, s, 0, sent, [], [], data + waits, accepts);
      LoopBounds(ins, [], 0, sent, [], data + waits, accepts);
      OnlyWaits(ins, steps[1..], end);
      SolidAppend(data, waits);
      SolidAppend(data, end);
      SolidOfNothing();
    }
  }

  /** The number of bytes other than 60. */
  function Solid(s: seq<byte>): nat {
    if s == [] then 0 else (if s[0] == 0x60 then 0 else 1) + Solid(s[1..])
  }

  lemma SolidOfNothing()
    ensures Solid([]) == 0
  {
  }

  lemma {:induction false} SolidAppend(a: seq<byte>, b: seq<byte>)
    ensures Solid(a + b) == Solid(a) + Solid(b)
  {
    if a == [] {
      assert a + b == b;
    } else {
      assert (a + b)[1..] == a[1..] + b;
      SolidAppend(a[1..], b);
    }
  }

  lemma {:induction false} OnlyWaits(ins: byte, steps: seq<Step>, end: seq<byte>)
    requires Gives(steps, [])
    ensures Solid(Giving(ins, steps, []) + end) == Solid(end)
  {
    var nothing: seq<byte> := [];
    if steps == [] {
      GivingNothing(ins, nothing, end);
    } else {
      GivingStep(ins, steps, nothing, end);
      var t := Giving(ins, steps[1..], []) + end;
      OnlyWaits(ins, steps[1..], end);
      hide Giving, Gives;
      assert nothing[0..] == [] && nothing[..0] == [];
      assert [] + t == t;
      assert ([0x60] + t)[1..] == t;
    }
  }

  /** A successful exchange ends with two status bytes; if it gave more, a procedure byte was used up. */
  lemma {:induction false} LoopBounds(ins: byte, tx: seq<byte>, rxlen: byte, sent: seq<byte>, rx: seq<byte>,
                                      answers: seq<byte>, accepts: nat)
    ensures var o := Loop(ins, tx, rxlen, sent, rx, answers, accepts);
            o.status == Success ==>
              && |o.recv| >= |rx| + 2
              && Solid(o.recv) <= Solid(rx) + Solid(answers)
              && (|o.recv| == |rx| + 2 || Solid(o.recv) < Solid(rx) + Solid(answers))
    decreases |answers|
  {
    if answers != [] {
      var b, more := answers[0], answers[1..];
      if b == 0x60 {
        LoopBounds(ins, tx, rxlen, sent, rx, more, accepts);
      } else if StatusByte(b) {
        FinishBounds(sent, rx, b, more);
      } else if AckAll(ins, b) {
        if tx != [] {
          if |tx| <= accepts { LoopBounds(ins, [], rxlen, sent + tx, rx, more, accepts - |tx|); }
        } else if |more| >= rxlen as int {
          LoopBounds(ins, tx, rxlen, sent, rx + more[..rxlen], more[rxlen..], accepts);
          SolidAppend(rx, more[..rxlen]);
          SolidAppend(more[..rxlen], more[rxlen..]);
          assert more == more[..rxlen] + more[rxlen..];
        }
      } else if AckOne(ins, b) && more != [] {
        LoopBounds(ins, tx, Dec(rxlen), sent, rx + [more[0]], more[1..], accepts);
        SolidAppend(rx, [more[0]]);
        SolidAppend([more[0]], more[1..]);
        assert more == [more[0]] + more[1..];
      }
    }
  }

  lemma FinishBounds(sent: seq<byte>, rx: seq<byte>, b: byte, more: seq<byte>)
    requires b != 0x60
    ensures var o := Finish(sent, rx + [b], more);
            o.status == Success ==> |o.recv| == |rx| + 2 && Solid(o.recv) <= Solid(rx) + 1 + Solid(more)
  {
    if more != [] {
      SolidAppend(rx + [b], [more[0]]);
      SolidAppend(rx, [b]);
      SolidAppend([more[0]], more[1..]);
      assert more == [more[0]] + more[1..];
    }
  }

  /** The ring never holds more than it can, and it only runs over when the card sends more than it can hold. */
  lemma {:induction false} LoopFits(ins: byte, tx: seq<byte>, rxlen: byte, sent: seq<byte>, rx: seq<byte>,
                                    answers: seq<byte>, accepts: nat)
    requires |rx| < SMC_BUF_SIZE
    ensures var o := Loop(ins, tx, rxlen, sent, rx, answers, accepts);
            && |o.recv| <= 1023
            && (o.status == Overrun ==> |rx| + |answers| >= 1024)
    decreases |answers|
  {
    if answers != [] {
      var b, more := answers[0], answers[1..];
      if b == 0x60 {
        LoopFits(ins, tx, rxlen, sent, rx, more, accepts);
      } else if StatusByte(b) {
      } else if AckAll(ins, b) {
        if tx != [] {
          if |tx| <= accepts { LoopFits(ins, [], rxlen, sent + tx, rx, more, accepts - |tx|); }
        } else if |more| >= rxlen as int && |rx| + rxlen as int < SMC_BUF_SIZE {
          LoopFits(ins, tx, rxlen, sent, rx + more[..rxlen], more[rxlen..], accepts);
        }
      } else if AckOne(ins, b) && more != [] && |rx| + 1 < SMC_BUF_SIZE {
        LoopFits(ins, tx, Dec(rxlen), sent, rx + [more[0]], more[1..], accepts);
      }
    }
  }

  /** A card that sends fewer bytes than the ring has is never too much for it. */
  lemma RingSuffices(send: seq<byte>, answers: seq<byte>, accepts: nat)
    requires Command(send)
    ensures var o := Transfer(send, answers, accepts);
            |o.recv| <= 1023 && (|answers| <= 1023 ==> o.status != Overrun)
  {
    if accepts >= 5 {
      LoopFits(send[1], send[5..], if |send| == 5 then send[4] else 0, send[..5], [], answers, accepts - 5);
    }
  }

  // ---------------------------------------------------------------- writing

  /** What the card sends while it asks for the data of a command by these steps. */
  function Asking(ins: byte, steps: seq<Step>): (a: seq<byte>)
    ensures |a| == |steps|
  {
    if steps == [] then [] else [AckByte(ins, steps[0])] + Asking(ins, steps[1..])
  }

  /** The steps ask for all n bytes and acknowledge nothing once they have them. */
  predicate Asks(steps: seq<Step>, n: nat) {
    if steps == [] then n == 0
    else if steps[0].Null? then Asks(steps[1..], n)
    else n > 0 && Asks(steps[1..], if steps[0].All? then 0 else n - 1)
  }

  lemma AskingStep(ins: byte, steps: seq<Step>, end: seq<byte>)
    requires steps != []
    ensures Asking(ins, steps) + end == [AckByte(ins, steps[0])] + (Asking(ins, steps[1..]) + end)
  {
  }

  lemma {:induction false} LoopSends(ins: byte, tx: seq<byte>, sent: seq<byte>, steps: seq<Step>,
                                     sw1: byte, sw2: byte, accepts: nat)
    requires GoodIns(ins) && StatusByte(sw1) && accepts >= |tx| && Asks(steps, |tx|)
    ensures Loop(ins, tx, 0, sent, [], Asking(ins, steps) + [sw1, sw2], accepts)
         == Outcome(Success, sent + tx, [sw1, sw2])
       <==> tx == [] || FirstAckAll(steps)
    decreases |steps|
  {
    var end := [sw1, sw2];
    if steps == [] {
      assert Asking(ins, steps) + end == end + [];
      LoopEnds(ins, tx, 0, sent, [], sw1, sw2, [], accepts);
      assert sent + tx == sent && [] + end == end;
    } else {
      var s, t := steps[0], Asking(ins, steps[1..]) + end;
      AskingStep(ins, steps, end);
      AcksAreDistinct(ins, s);
      var answers := [AckByte(ins, s)] + t;
      assert answers[1..] == t;
      if s.Null? {
        LoopSends(ins, tx, sent, steps[1..], sw1, sw2, accepts);
      } else if s.All? {
        LoopSends(ins, [], sent + tx, steps[1..], sw1, sw2, accepts - |tx|);
        assert (sent + tx) + [] == sent + tx;
      } else {
        LoopBounds(ins, tx, 255, sent, [] + [t[0]], t[1..], accepts);
      }
    }
  }

  /**
   Writing: a card that asks for the data of a command by any steps, and then sends its status, is
   sent exactly the caller's buffer and the caller gets exactly the status, if and only if the
   first acknowledgement is for all the data: single-byte requests are answered by reading.
   */
  lemma SendIff(send: seq<byte>, steps: seq<Step>, sw1: byte, sw2: byte, accepts: nat)
    requires Command(send) && |send| > 5 && GoodIns(send[1]) && accepts >= |send|
    requires Asks(steps, |send| - 5) && (0x61 <= sw1 <= 0x6F || 0x90 <= sw1 <= 0x9F)
    ensures Transfer(send, Asking(send[1], steps) + [sw1, sw2], accepts) == Outcome(Success, send, [sw1, sw2])
       <==> FirstAckAll(steps)
  {
    hide Loop, Asks, Asking, StatusByte;
    StatusBytesAre(sw1);
    assert send[..5] + send[5..] == send;
    LoopSends(send[1], send[5..], send[..5], steps, sw1, sw2, accepts - 5);
  }

  /** While the driver accepts bytes the card has got either the header alone or the whole command. */
  lemma {:induction false} LoopSendsAllOrNothing(ins: byte, tx: seq<byte>, rxlen: byte, sent: seq<byte>, rx: seq<byte>,
                                                 answers: seq<byte>, accepts: nat)
    requires accepts >= |tx|
    ensures var o := Loop(ins, tx, rxlen, sent, rx, answers, accepts); o.sent == sent || o.sent == sent + tx
    decreases |answers|
  {
    if answers != [] {
      var b, more := answers[0], answers[1..];
      if b == 0x60 {
        LoopSendsAllOrNothing(ins, tx, rxlen, sent, rx, more, accepts);
      } else if StatusByte(b) {
      } else if AckAll(ins, b) {
        if tx != [] {
          LoopSendsAllOrNothing(ins, [], rxlen, sent + tx, rx, more, accepts - |tx|);
        } else if |more| >= rxlen as int {
          LoopSendsAllOrNothing(ins, tx, rxlen, sent, rx + more[..rxlen], more[rxlen..], accepts);
        }
      } else if AckOne(ins, b) && more != [] {
        LoopSendsAllOrNothing(ins, tx, Dec(rxlen), sent, rx + [more[0]], more[1..], accepts);
      }
    }
  }

  lemma {:induction false} LoopSendsInOrder(ins: byte, tx: seq<byte>, rxlen: byte, sent: seq<byte>, rx: seq<byte>,
                                            answers: seq<byte>, accepts: nat)
    ensures var o := Loop(ins, tx, rxlen, sent, rx, answers, accepts);
            sent <= o.sent <= sent + tx && |o.sent| <= |sent| + accepts
    decreases |answers|
  {
    if answers != [] {
      var b, more := answers[0], answers[1..];
      if b == 0x60 {
        LoopSendsInOrder(ins, tx, rxlen, sent, rx, more, accepts);
      } else if StatusByte(b) {
      } else if AckAll(ins, b) {
        if tx != [] {
          if |tx| <= accepts {
            LoopSendsInOrder(ins, [], rxlen, sent + tx, rx, more, accepts - |tx|);
            assert (sent + tx) + [] == sent + tx;
          }
        } else if |more| >= rxlen as int {
          LoopSendsInOrder(ins, tx, rxlen, sent, rx + more[..rxlen], more[rxlen..], accepts);
        }
      } else if AckOne(ins, b) && more != [] {
        LoopSendsInOrder(ins, tx, Dec(rxlen), sent, rx + [more[0]], more[1..], accepts);
      }
    }
  }

  /** Whatever the driver accepts is a beginning of the command, and without the header nothing comes back. */
  lemma SendsInOrder(send: seq<byte>, answers: seq<byte>, accepts: nat)
    requires Command(send)
    ensures var o := Transfer(send, answers, accepts);
            && o.sent <= send && |o.sent| <= accepts
            && (accepts < 5 ==> o == Outcome(Wire, send[..accepts], []))
            && (accepts >= 5 ==> |o.sent| >= 5)
  {
    if accepts >= 5 {
      LoopSendsInOrder(send[1], send[5..], if |send| == 5 then send[4] else 0, send[..5], [], answers, accepts - 5);
      assert send[..5] + send[5..] == send;
    }
  }

  lemma SendsAllOrNothing(send: seq<byte>, answers: seq<byte>, accepts: nat)
    requires Command(send) && accepts >= |send|
    ensures var o := Transfer(send, answers, accepts); o.sent == send[..5] || o.sent == send
  {
    LoopSendsAllOrNothing(send[1], send[5..], if |send| == 5 then send[4] else 0, send[..5], [], answers, accepts - 5);
    assert send[..5] + send[5..] == send;
  }
}
