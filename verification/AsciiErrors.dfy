/**
 What the ASCII framing promises: every short enough message arrives unchanged, longer ones never
 do, and a single damaged character is noticed by the receiver, except for one family of frames
 when the damage looks like a new start character.
 */
module AsciiErrors {
  import opened Words
  import opened AsciiFrame
  import opened AsciiLine

  // ---------------------------------------------------------------- frames as prefixes

  /** Inside a frame only the last two characters are a line end. */
  lemma {:induction false} EndOnlyAtEnd(id: uint8, pdu: seq<uint8>, j: nat)
    requires j + 1 < |Frame(id, pdu)|
    ensures EndAt(Frame(id, pdu), j) <==> j == |Frame(id, pdu)| - 2
  {
    FrameChars(id, pdu);
    var f := Frame(id, pdu);
    if j < |f| - 2 {
      assert j == 0 || IsHex(f[j]);
    }
  }

  lemma {:induction false} FrameInjective(a: Message, b: Message)
    requires Frame(a.id, a.pdu) == Frame(b.id, b.pdu)
    ensures a == b
  {
    FrameChars(a.id, a.pdu);
    FrameChars(b.id, b.pdu);
    UnhexOfHex(Body(a.id, a.pdu));
    UnhexOfHex(Body(b.id, b.pdu));
    var x, y := Body(a.id, a.pdu), Body(b.id, b.pdu);
    assert x == y;
    assert x[0] == a.id && y[0] == b.id && x[1..|x| - 1] == a.pdu && y[1..|y| - 1] == b.pdu;
  }

  /** A frame at the start of `s` puts the first line end of `s` at its own end. */
  lemma {:induction false} FirstEndIsFrameEnd(s: seq<uint8>, m: Message, j: nat)
    requires Frame(m.id, m.pdu) <= s && j <= |Frame(m.id, m.pdu)| - 2
    ensures EndAt(s, j) <==> j == |Frame(m.id, m.pdu)| - 2
  {
    EndOnlyAtEnd(m.id, m.pdu, j);
    var f := Frame(m.id, m.pdu);
    assert s[j] == f[j] && s[j + 1] == f[j + 1] && s[0] == f[0];
  }

  /** Two frames that start the same character sequence are the same frame. */
  lemma {:induction false} FramesArePrefixFree(s: seq<uint8>, a: Message, b: Message)
    requires Frame(a.id, a.pdu) <= s && Frame(b.id, b.pdu) <= s
    ensures a == b
  {
    var m, n := |Frame(a.id, a.pdu)| - 2, |Frame(b.id, b.pdu)| - 2;
    FirstEndIsFrameEnd(s, a, if m <= n then m else n);
    FirstEndIsFrameEnd(s, b, if m <= n then m else n);
    assert Frame(a.id, a.pdu) == s[..m + 2] && Frame(b.id, b.pdu) == s[..n + 2];
    FrameInjective(a, b);
  }

  // ---------------------------------------------------------------- round trip

  /** A buffer that starts with a frame delivers that message, or nothing when it is cut by `int8_t`. */
  lemma {:induction false} FrameDecides(s: seq<uint8>, m: Message)
    requires Frame(m.id, m.pdu) <= s
    ensures Receive(s) ==
            if |m.pdu| >= 1 && |Frame(m.id, m.pdu)| <= ToInt8(|s|) then Some(m) else None
  {
    ReceiveIffFrame(s, m);
    if Receive(s).Some? {
      ReceiveIffFrame(s, Receive(s).value);
      FramesArePrefixFree(s, m, Receive(s).value);
    }
  }

  /** The round trip holds for exactly the PDUs of 1 to 60 bytes. */
  lemma {:induction false} RoundTrip(id: uint8, pdu: seq<uint8>)
    ensures 1 <= |pdu| <= 60 ==> Receive(Frame(id, pdu)) == Some(Message(id, pdu))
    ensures !(1 <= |pdu| <= 60) ==> Receive(Frame(id, pdu)) == None
  {
    FrameDecides(Frame(id, pdu), Message(id, pdu));
  }

  /** Whatever follows it in the buffer, a frame with more than 60 PDU bytes is never delivered. */
  lemma {:induction false} LongFrameNeverDelivered(s: seq<uint8>, id: uint8, pdu: seq<uint8>)
    requires |pdu| > 60 && Frame(id, pdu) <= s
    ensures Receive(s) == None
  {
    FrameDecides(s, Message(id, pdu));
  }

  /** No proper prefix of a frame is taken for a message: nothing is delivered early. */
  lemma {:induction false} ProperPrefixNotDelivered(s: seq<uint8>, id: uint8, pdu: seq<uint8>)
    requires s < Frame(id, pdu)
    ensures Receive(s) == None && CheckComplete(s, ToInt8(|s|)) == -1
  {
    var f := Frame(id, pdu);
    var end := CheckComplete(s, ToInt8(|s|));
    if end != -1 {
      assert EndAt(s, end - 2) && EndAt(f, end - 2);
      EndOnlyAtEnd(id, pdu, end - 2);
      assert false;
    }
  }

  /**
   What a receiver makes of a frame of its own: sending leaves the number of characters received as it is,
   so the receiver looks at the first `n` characters of a buffer that begins with the frame.
   */
  lemma {:induction false} OwnFrame(id: uint8, pdu: seq<uint8>, rest: seq<uint8>, n: nat)
    requires n <= |Frame(id, pdu)| + |rest|
    ensures Receive((Frame(id, pdu) + rest)[..n]) ==
            if 1 <= |pdu| && |Frame(id, pdu)| <= ToInt8(n) then Some(Message(id, pdu)) else None
  {
    var f := Frame(id, pdu);
    var s := (f + rest)[..n];
    if n < |f| {
      assert s == f[..n];
      ProperPrefixNotDelivered(s, id, pdu);
    } else {
      assert f <= s;
      FrameDecides(s, Message(id, pdu));
    }
  }

  // ---------------------------------------------------------------- one damaged character

  lemma {:induction false} SameDigitsSameByte(a: seq<uint8>, b: seq<uint8>, k: nat)
    requires k < |a| == |b| && Hex(a)[2 * k] == Hex(b)[2 * k] && Hex(a)[2 * k + 1] == Hex(b)[2 * k + 1]
    ensures a[k] == b[k]
  {
    HexAt(a, k);
    HexAt(b, k);
    HexCharIsHex(a[k] / 16);
    HexCharIsHex(a[k] % 16);
    HexCharIsHex(b[k] / 16);
    HexCharIsHex(b[k] % 16);
  }

  lemma {:induction false} DifferentDigitDifferentByte(a: seq<uint8>, b: seq<uint8>, j: nat)
    requires |a| == |b| && j < 2 * |a| && Hex(a)[j] != Hex(b)[j]
    ensures a[j / 2] != b[j / 2]
  {
    HexAt(a, j / 2);
    HexAt(b, j / 2);
    assert j == 2 * (j / 2) || j == 2 * (j / 2) + 1;
  }

  /** One changed digit changes the sum of the bytes modulo 256. */
  lemma {:induction false} OneDigitChangesSum(x: seq<uint8>, y: seq<uint8>, j: nat)
    requires |x| == |y| && j < 2 * |x| && Hex(x)[j] != Hex(y)[j]
    requires forall t :: 0 <= t < 2 * |x| && t != j ==> Hex(x)[t] == Hex(y)[t]
    ensures Sum(x) % 256 != Sum(y) % 256
  {
    var k := j / 2;
    DifferentDigitDifferentByte(x, y, j);
    forall t | 0 <= t < |x| && t != k ensures x[t] == y[t] {
      assert 2 * t != j && 2 * t + 1 != j;
      SameDigitsSameByte(x, y, t);
    }
    OneByteChangesSum(x, y, k);
  }

  lemma {:induction false} OneByteChangesSum(x: seq<uint8>, y: seq<uint8>, k: nat)
    requires |x| == |y| && k < |x| && x[k] != y[k]
    requires forall t :: 0 <= t < |x| && t != k ==> x[t] == y[t]
    ensures Sum(x) % 256 != Sum(y) % 256
  {
    assert y == x[k := y[k]];
    SumOfUpdate(x, k, y[k]);
  }

  /** Two different frames of the same length differ in more than one character. */
  lemma {:induction false} FramesFarApart(a: Message, b: Message, i: nat, c: uint8)
    requires i < |Frame(a.id, a.pdu)| && c != Frame(a.id, a.pdu)[i]
    ensures Frame(a.id, a.pdu)[i := c] != Frame(b.id, b.pdu)
  {
    var f, g := Frame(a.id, a.pdu), Frame(b.id, b.pdu);
    if f[i := c] == g {
      FrameChars(a.id, a.pdu);
      FrameChars(b.id, b.pdu);
      BodySum(a.id, a.pdu);
      BodySum(b.id, b.pdu);
      var x, y := Body(a.id, a.pdu), Body(b.id, b.pdu);
      DigitsOfChange(f, g, Hex(x), Hex(y), i, c);
      OneDigitChangesSum(x, y, i - 1);
    }
  }

  lemma {:induction false} DigitsOfChange(f: seq<uint8>, g: seq<uint8>, x: seq<uint8>, y: seq<uint8>, i: nat, c: uint8)
    requires |f| >= 3 && i < |f| && f[i := c] == g && c != f[i]
    requires f[0] == g[0] && f[|f| - 2] == g[|f| - 2] && f[|f| - 1] == g[|f| - 1]
    requires f[1..|f| - 2] == x && g[1..|f| - 2] == y
    ensures 0 < i < |f| - 2 && x[i - 1] != y[i - 1]
    ensures forall t :: 0 <= t < |x| && t != i - 1 ==> x[t] == y[t]
  {
    assert g[i] == c;
    forall t | 0 <= t < |x| && t != i - 1 ensures x[t] == y[t] {
      assert x[t] == f[t + 1] && y[t] == g[t + 1];
    }
    assert x[i - 1] == f[i] && y[i - 1] == g[i];
  }

  /** A frame with one changed character in the buffer delivers nothing, whatever the change. */
  lemma {:induction false} DamagedFrameRejected(id: uint8, pdu: seq<uint8>, i: nat, c: uint8)
    requires i < |Frame(id, pdu)| && c != Frame(id, pdu)[i]
    ensures Receive(Frame(id, pdu)[i := c]) == None
  {
    var f := Frame(id, pdu);
    var g := f[i := c];
    FrameChars(id, pdu);
    if Receive(g).Some? {
      var m := Receive(g).value;
      ReceiveIffFrame(g, m);
      var h := Frame(m.id, m.pdu);
      FrameChars(m.id, m.pdu);
      assert g[|h| - 2] == CR && g[|h| - 1] == LF;
      assert |h| == |g|;
      FramesFarApart(Message(id, pdu), m, i, c);
      assert false;
    }
  }

  /**
   The damage that survives on the line: the second digit of a byte turned into a start character,
   when the bytes up to and including that one add up to zero and at least three bytes are left.
   */
  predicate FalseStart(id: uint8, pdu: seq<uint8>, i: nat, c: uint8) {
    && c == START && 2 <= i && i % 2 == 0
    && i / 2 + 3 <= |Body(id, pdu)| && Sum(Body(id, pdu)[..i / 2]) % 256 == 0
  }

  /**
   On the line the receiver restarts at every start character, so here rejection is not certain:
   a damaged frame, of any length, delivers a message if and only if the damage is a `FalseStart` and
   what follows it is short enough. A frame too long to be delivered may so be delivered in part.
   */
  lemma {:induction false} DamagedOnLine(id: uint8, pdu: seq<uint8>, i: nat, c: uint8)
    requires i < |Frame(id, pdu)| && c != Frame(id, pdu)[i]
    ensures Receive(FromLastStart(Frame(id, pdu)[i := c])).Some? <==> FalseStart(id, pdu, i, c) && |pdu| - i / 2 <= 60
  {
    var f := Frame(id, pdu);
    var g := f[i := c];
    FrameChars(id, pdu);
    if c != START || i == 0 {
      LastStartIs(g, if i == 0 then -1 else 0);
      assert FromLastStart(g) == g;
      DamagedFrameRejected(id, pdu, i, c);
    } else {
      RestartAt(id, pdu, i);
      TailIffFalseStart(id, pdu, i);
    }
  }

  /** A start character inside a frame: the receiver keeps that and what follows. */
  lemma {:induction false} RestartAt(id: uint8, pdu: seq<uint8>, i: nat)
    requires 0 < i < |Frame(id, pdu)|
    ensures FromLastStart(Frame(id, pdu)[i := START]) == [START] + Frame(id, pdu)[i + 1..]
  {
    var f := Frame(id, pdu);
    FrameChars(id, pdu);
    LastStartIs(f[i := START], i);
    assert FromLastStart(f[i := START]) == [START] + f[i + 1..];
  }

  lemma {:induction false} TailIffFalseStart(id: uint8, pdu: seq<uint8>, i: nat)
    requires 0 < i < |Frame(id, pdu)|
    ensures Receive([START] + Frame(id, pdu)[i + 1..]).Some? <==> FalseStart(id, pdu, i, START) && |pdu| - i / 2 <= 60
  {
    var tail := [START] + Frame(id, pdu)[i + 1..];
    if FalseStart(id, pdu, i, START) {
      TailIsFrame(id, pdu, i);
      var rest := Body(id, pdu)[i / 2..];
      FrameDecides(tail, Message(rest[0], rest[1..|rest| - 1]));
    }
    if Receive(tail).Some? {
      TailNeedsFalseStart(id, pdu, i, Receive(tail).value);
    }
  }

  /** The tail of a frame from byte `i / 2` on, behind a start character. */
  lemma {:induction false} TailChars(id: uint8, pdu: seq<uint8>, i: nat)
    requires 2 <= i && i % 2 == 0 && i / 2 <= |Body(id, pdu)|
    ensures [START] + Frame(id, pdu)[i + 1..] == [START] + Hex(Body(id, pdu)[i / 2..]) + [CR, LF]
  {
    var body, k := Body(id, pdu), i / 2;
    HexOfConcat(body[..k], body[k..]);
    assert body[..k] + body[k..] == body;
    assert Frame(id, pdu) == ([START] + Hex(body[..k])) + (Hex(body[k..]) + [CR, LF]);
  }

  lemma {:induction false} SumOfSplit(bs: seq<uint8>, k: nat)
    requires k <= |bs|
    ensures Sum(bs) == Sum(bs[..k]) + Sum(bs[k..])
  {
    SumOfConcat(bs[..k], bs[k..]);
    assert bs[..k] + bs[k..] == bs;
  }

  lemma {:induction false} SumOfHead(bs: seq<uint8>, k: nat)
    requires k <= |bs| && Sum(bs) % 256 == 0
    ensures Sum(bs[..k]) % 256 == 0 <==> Sum(bs[k..]) % 256 == 0
  {
    SumOfSplit(bs, k);
    var a, b := Sum(bs[..k]), Sum(bs[k..]);
    assert (a + b) % 256 == 0;
  }

  lemma {:induction false} TailIsFrame(id: uint8, pdu: seq<uint8>, i: nat)
    requires FalseStart(id, pdu, i, START)
    ensures var rest := Body(id, pdu)[i / 2..];
            [START] + Frame(id, pdu)[i + 1..] == Frame(rest[0], rest[1..|rest| - 1])
  {
    var rest := Body(id, pdu)[i / 2..];
    TailChars(id, pdu, i);
    BodySum(id, pdu);
    SumOfHead(Body(id, pdu), i / 2);
    LrcIffSumZero(rest);
    BodyOfParts(rest);
  }

  lemma {:induction false} ReceivedIsShort(s: seq<uint8>, m: Message)
    requires Receive(s) == Some(m)
    ensures |m.pdu| <= 60
  {
    ReceiveIffFrame(s, m);
  }

  lemma {:induction false} TailNeedsFalseStart(id: uint8, pdu: seq<uint8>, i: nat, m: Message)
    requires 0 < i < |Frame(id, pdu)|
    requires Receive([START] + Frame(id, pdu)[i + 1..]) == Some(m)
    ensures FalseStart(id, pdu, i, START) && |pdu| - i / 2 <= 60
  {
    TailIsWhole(id, pdu, i, m);
    ReceivedIsShort([START] + Frame(id, pdu)[i + 1..], m);
    var d := |pdu| - |m.pdu|;
    assert i / 2 == d && i % 2 == 0;
    TailSum(id, pdu, d, m);
  }

  lemma {:induction false} TailSum(id: uint8, pdu: seq<uint8>, d: nat, m: Message)
    requires 1 <= d <= |pdu| && Frame(m.id, m.pdu) == [START] + Frame(id, pdu)[2 * d + 1..]
    ensures Sum(Body(id, pdu)[..d]) % 256 == 0
  {
    TailBody(id, pdu, d, m);
    BodySum(m.id, m.pdu);
    BodySum(id, pdu);
    SumOfHead(Body(id, pdu), d);
  }

  lemma {:induction false} TailBody(id: uint8, pdu: seq<uint8>, d: nat, m: Message)
    requires 1 <= d <= |pdu| && Frame(m.id, m.pdu) == [START] + Frame(id, pdu)[2 * d + 1..]
    ensures Body(m.id, m.pdu) == Body(id, pdu)[d..]
  {
    TailChars(id, pdu, 2 * d);
    SameHexSameBody(Body(m.id, m.pdu), Body(id, pdu)[d..]);
  }

  /** A message found behind the false start takes all the characters that are left. */
  lemma {:induction false} TailIsWhole(id: uint8, pdu: seq<uint8>, i: nat, m: Message)
    requires 0 < i < |Frame(id, pdu)|
    requires Receive([START] + Frame(id, pdu)[i + 1..]) == Some(m)
    ensures Frame(m.id, m.pdu) == [START] + Frame(id, pdu)[i + 1..]
    ensures |m.pdu| >= 1 && i == 2 * (|pdu| - |m.pdu|)
  {
    var f, h := Frame(id, pdu), Frame(m.id, m.pdu);
    var tail := [START] + f[i + 1..];
    ReceiveIffFrame(tail, m);
    FrameChars(id, pdu);
    FrameChars(m.id, m.pdu);
    assert tail[|h| - 1] == LF && tail[|h| - 1] == f[i + |h| - 1];
    assert |h| == |tail|;
  }

  lemma {:induction false} SameHexSameBody(a: seq<uint8>, b: seq<uint8>)
    requires [START] + Hex(a) + [CR, LF] == [START] + Hex(b) + [CR, LF]
    ensures a == b
  {
    var x, y := [START] + Hex(a) + [CR, LF], [START] + Hex(b) + [CR, LF];
    assert Hex(a) == x[1..|x| - 2] && Hex(b) == y[1..|y| - 2];
    UnhexOfHex(a);
    UnhexOfHex(b);
  }

  /**
   The family is not empty: any broadcast whose second address digit turns into a start character. With
   61 bytes the frame itself would not have been delivered.
   */
  lemma {:induction false} BroadcastFalseStart(pdu: seq<uint8>)
    requires 2 <= |pdu| <= 61
    ensures Receive(FromLastStart(Frame(0, pdu)[2 := START])) == Some(Message(pdu[0], pdu[1..]))
  {
    RestartAt(0, pdu, 2);
    BroadcastTail(pdu);
    RoundTrip(pdu[0], pdu[1..]);
  }

  lemma {:induction false} BroadcastTail(pdu: seq<uint8>)
    requires |pdu| >= 2
    ensures [START] + Frame(0, pdu)[3..] == Frame(pdu[0], pdu[1..])
  {
    BroadcastBody(pdu);
    TailIsFrame(0, pdu, 2);
  }

  lemma {:induction false} BroadcastBody(pdu: seq<uint8>)
    requires |pdu| >= 2
    ensures FalseStart(0, pdu, 2, START)
    ensures var rest := Body(0, pdu)[1..]; rest[0] == pdu[0] && rest[1..|rest| - 1] == pdu[1..]
  {
    assert Body(0, pdu)[..1] == [0];
    assert Sum([0]) == 0;
  }
}
