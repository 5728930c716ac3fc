/**
 The Modbus ASCII frame as a function on values: hexadecimal coding, the longitudinal redundancy
 check (LRC), the frame a sender emits and the message a receiver finds in a buffer.
 The transport that works in place on its buffer is in AsciiPort.dfy.
 */
module AsciiFrame {
  import opened Words

  const START: uint8 := 0x3A
  const CR: uint8 := 0x0D
  const LF: uint8 := 0x0A
  const MAXLENGTH := 512
  const MINLENGTH := 9

  /** A slave identification and a protocol data unit. */
  datatype Message = Message(id: uint8, pdu: seq<uint8>)

  // ---------------------------------------------------------------- hexadecimal coding

  /** The table `ciaaModbus_binToAsciiTable`. */
  function HexChar(n: int): uint8
    requires 0 <= n < 16
  {
    if n < 10 then 0x30 + n else 0x41 + n - 10
  }

  predicate IsHex(c: uint8) {
    0x30 <= c <= 0x39 || 0x41 <= c <= 0x46
  }

  function HexValue(c: uint8): (n: int)
    requires IsHex(c)
    ensures 0 <= n < 16 && HexChar(n) == c
  {
    if c <= 0x39 then c as int - 0x30 else c as int - 0x41 + 10
  }

  lemma HexCharIsHex(n: int)
    requires 0 <= n < 16
    ensures IsHex(HexChar(n)) && HexValue(HexChar(n)) == n
  {
  }

  /** The hexadecimal characters of a byte sequence, high digit first. */
  function Hex(bs: seq<uint8>): (r: seq<uint8>)
    ensures |r| == 2 * |bs|
  {
    if bs == [] then []
    else
      var b := bs[|bs| - 1];
      Hex(bs[..|bs| - 1]) + [HexChar(b / 16), HexChar(b % 16)]
  }

  predicate AllHex(cs: seq<uint8>) {
    forall i :: 0 <= i < |cs| ==> IsHex(cs[i])
  }

  /** The bytes written in an even number of hexadecimal characters. */
  function Unhex(cs: seq<uint8>): (r: seq<uint8>)
    requires |cs| % 2 == 0 && AllHex(cs)
    ensures |r| == |cs| / 2
  {
    if cs == [] then []
    else
      var n := |cs| - 2;
      Unhex(cs[..n]) + [16 * HexValue(cs[n]) + HexValue(cs[n + 1])]
  }

  lemma {:induction false} HexAt(bs: seq<uint8>, k: nat)
    requires k < |bs|
    ensures Hex(bs)[2 * k] == HexChar(bs[k] / 16) && Hex(bs)[2 * k + 1] == HexChar(bs[k] % 16)
    decreases |bs|
  {
    if k == |bs| - 1 {
    } else {
      HexAt(bs[..|bs| - 1], k);
    }
  }

  lemma {:induction false} UnhexAt(cs: seq<uint8>, k: nat)
    requires |cs| % 2 == 0 && AllHex(cs) && 2 * k < |cs|
    ensures Unhex(cs)[k] == 16 * HexValue(cs[2 * k]) + HexValue(cs[2 * k + 1])
    decreases |cs|
  {
    if k == |cs| / 2 - 1 {
    } else {
      UnhexAt(cs[..|cs| - 2], k);
    }
  }

  lemma {:induction false} HexIsHex(bs: seq<uint8>)
    ensures AllHex(Hex(bs))
  {
    if bs == [] {
    } else {
      HexIsHex(bs[..|bs| - 1]);
      HexCharIsHex(bs[|bs| - 1] / 16);
      HexCharIsHex(bs[|bs| - 1] % 16);
    }
  }

  lemma {:induction false} UnhexOfHex(bs: seq<uint8>)
    ensures AllHex(Hex(bs)) && Unhex(Hex(bs)) == bs
  {
    HexIsHex(bs);
    forall k | 0 <= k < |bs| ensures Unhex(Hex(bs))[k] == bs[k] {
      HexAt(bs, k);
      UnhexAt(Hex(bs), k);
      HexCharIsHex(bs[k] / 16);
      HexCharIsHex(bs[k] % 16);
    }
  }

  lemma {:induction false} HexOfUnhex(cs: seq<uint8>)
    requires |cs| % 2 == 0 && AllHex(cs)
    ensures Hex(Unhex(cs)) == cs
  {
    var hs := Hex(Unhex(cs));
    forall k | 0 <= k < |cs| / 2 ensures hs[2 * k] == cs[2 * k] && hs[2 * k + 1] == cs[2 * k + 1] {
      UnhexAt(cs, k);
      HexAt(Unhex(cs), k);
    }
    PairsEqual(hs, cs);
  }

  lemma {:induction false} HexOfConcat(a: seq<uint8>, b: seq<uint8>)
    ensures Hex(a + b) == Hex(a) + Hex(b)
    decreases |b|
  {
    if b == [] {
      assert a + b == a;
    } else {
      HexOfConcat(a, b[..|b| - 1]);
      assert (a + b)[..|a + b| - 1] == a + b[..|b| - 1];
    }
  }

  // ---------------------------------------------------------------- redundancy check

  function Sum(bs: seq<uint8>): nat {
    if bs == [] then 0 else Sum(bs[..|bs| - 1]) + bs[|bs| - 1]
  }

  /** Two's complement of the eight-bit sum. */
  function Lrc(bs: seq<uint8>): (r: uint8)
    ensures (Sum(bs) + r) % 256 == 0
  {
    (256 - Sum(bs) % 256) % 256
  }

  lemma {:induction false} SumOfConcat(a: seq<uint8>, b: seq<uint8>)
    ensures Sum(a + b) == Sum(a) + Sum(b)
    decreases |b|
  {
    if b == [] {
      assert a + b == a;
    } else {
      SumOfConcat(a, b[..|b| - 1]);
      assert (a + b)[..|a + b| - 1] == a + b[..|b| - 1];
    }
  }

  lemma {:induction false} SumOfUpdate(bs: seq<uint8>, k: nat, v: uint8)
    requires k < |bs|
    ensures Sum(bs[k := v]) == Sum(bs) - bs[k] as int + v as int
  {
    var cs := bs[k := v];
    assert bs == bs[..k] + ([bs[k]] + bs[k + 1..]) && cs == bs[..k] + ([v] + bs[k + 1..]);
    SumOfConcat(bs[..k], [bs[k]] + bs[k + 1..]);
    SumOfConcat(bs[..k], [v] + bs[k + 1..]);
    SumOfConcat([bs[k]], bs[k + 1..]);
    SumOfConcat([v], bs[k + 1..]);
    assert Sum([bs[k]]) == bs[k] && Sum([v]) == v;
  }

  /** A body carries its own LRC exactly when all its bytes add up to a multiple of 256. */
  lemma {:induction false} LrcIffSumZero(bs: seq<uint8>)
    requires bs != []
    ensures bs[|bs| - 1] == Lrc(bs[..|bs| - 1]) <==> Sum(bs) % 256 == 0
  {
    var s, l, r := Sum(bs[..|bs| - 1]), bs[|bs| - 1], Lrc(bs[..|bs| - 1]);
    assert Sum(bs) == s + l;
    assert (s + r) % 256 == 0;
    assert (s + l) % 256 == 0 ==> (l - r) % 256 == 0;
  }

  // ---------------------------------------------------------------- the frame

  /** Identification, protocol data unit and LRC: what is sent in hexadecimal. */
  function Body(id: uint8, pdu: seq<uint8>): seq<uint8> {
    [id] + pdu + [Lrc([id] + pdu)]
  }

  function Frame(id: uint8, pdu: seq<uint8>): (r: seq<uint8>)
    ensures |r| == 2 * |pdu| + 7
  {
    [START] + Hex(Body(id, pdu)) + [CR, LF]
  }

  lemma {:induction false} BodySum(id: uint8, pdu: seq<uint8>)
    ensures Sum(Body(id, pdu)) % 256 == 0
  {
    var b := Body(id, pdu);
    assert b[..|b| - 1] == [id] + pdu;
    LrcIffSumZero(b);
  }

  /** The characters of a frame, by position. */
  lemma {:induction false} FrameChars(id: uint8, pdu: seq<uint8>)
    ensures var f := Frame(id, pdu);
            f[0] == START && f[|f| - 2] == CR && f[|f| - 1] == LF && f[1..|f| - 2] == Hex(Body(id, pdu))
    ensures forall i :: 0 < i < |Frame(id, pdu)| - 2 ==> IsHex(Frame(id, pdu)[i])
  {
    var f, h := Frame(id, pdu), Hex(Body(id, pdu));
    assert f[1..|f| - 2] == h;
    HexIsHex(Body(id, pdu));
    forall i | 0 < i < |f| - 2 ensures IsHex(f[i]) {
      assert f[i] == h[i - 1];
    }
  }

  /** The frame written out: colon, two digits for each byte, high digit first, CR and LF. */
  lemma {:induction false} FrameLayout(id: uint8, pdu: seq<uint8>, k: nat)
    requires k < |pdu| + 2
    ensures var f, body := Frame(id, pdu), Body(id, pdu);
            && f[0] as char == ':' && f[|f| - 2] as char == '\r' && f[|f| - 1] as char == '\n'
            && |body| == |pdu| + 2 && body[0] == id && body[1..|body| - 1] == pdu
            && f[1 + 2 * k] as char == "0123456789ABCDEF"[body[k] / 16]
            && f[2 + 2 * k] as char == "0123456789ABCDEF"[body[k] % 16]
  {
    FrameChars(id, pdu);
    var f, body := Frame(id, pdu), Body(id, pdu);
    HexAt(body, k);
    var hex := f[1..|f| - 2];
    assert hex[2 * k] == f[1 + 2 * k] && hex[2 * k + 1] == f[2 + 2 * k];
    HexDigit(body[k] / 16);
    HexDigit(body[k] % 16);
  }

  lemma {:induction false} HexDigit(n: int)
    requires 0 <= n < 16
    ensures HexChar(n) as char == "0123456789ABCDEF"[n]
  {
    var table := "0123456789ABCDEF";
    assert n == 0 || n == 1 || n == 2 || n == 3 || n == 4 || n == 5 || n == 6 || n == 7 || n == 8 || n == 9 || n == 10
        || n == 11 || n == 12 || n == 13 || n == 14 || n == 15;
  }

  lemma {:induction false} SumAppend(s: seq<uint8>, b: uint8)
    ensures Sum(s + [b]) == Sum(s) + b
  {
    assert (s + [b])[..|s|] == s;
  }

  /** The frame of slave 0x11, function 3, address 0x006B, quantity 3 ends with the LRC 0x7E. */
  lemma {:induction false} LrcExample()
    ensures Lrc([0x11, 0x03, 0x00, 0x6B, 0x00, 0x03]) == 0x7E
  {
    var a: seq<uint8> := [0x11, 0x03, 0x00];
    SumAppend([], 0x11);
    SumAppend([0x11], 0x03);
    SumAppend([0x11, 0x03], 0x00);
    assert [] + [0x11] == [0x11] && [0x11] + [0x03] == [0x11, 0x03] && [0x11, 0x03] + [0x00] == a;
    SumAppend(a, 0x6B);
    SumAppend(a + [0x6B], 0x00);
    SumAppend(a + [0x6B] + [0x00], 0x03);
    assert [0x11, 0x03, 0x00, 0x6B, 0x00, 0x03] == a + [0x6B] + [0x00] + [0x03];
  }

  // ---------------------------------------------------------------- frame detection

  predicate EndAt(b: seq<uint8>, i: int) {
    0 <= i && i + 1 < |b| && b[i] == CR && b[i + 1] == LF && b[0] == START
  }

  /** The search loop of `ciaaModbus_asciiCheckCompleteMsg`, from position `i`. */
  function FindEnd(b: seq<uint8>, i: nat, length: int): (end: int)
    requires length <= |b|
    ensures end == -1 <==> forall k :: i <= k < length - 1 ==> !EndAt(b, k)
    ensures end != -1 ==> i + 2 <= end <= length && EndAt(b, end - 2)
    ensures end != -1 ==> forall k :: i <= k < end - 2 ==> !EndAt(b, k)
    decreases length - i
  {
    if i >= length - 1 then -1
    else if EndAt(b, i) then i + 2
    else FindEnd(b, i + 1, length)
  }

  /** Length of the complete message at the start of `b`, or -1; `length` is an `int8_t`. */
  function CheckComplete(b: seq<uint8>, length: int): (end: int)
    requires length <= |b|
    ensures end == -1 || MINLENGTH <= end <= length
  {
    if MINLENGTH <= length then FindEnd(b, MINLENGTH - 2, length) else -1
  }

  /** The bytes between start character and line end. */
  function Decode(digits: seq<uint8>): Option<seq<uint8>> {
    if |digits| % 2 != 0 || !AllHex(digits) then None else Some(Unhex(digits))
  }

  /** The message in decoded bytes, if their LRC is right. */
  function Unpack(bin: seq<uint8>): Option<Message>
    requires |bin| >= 2
  {
    var n := |bin| - 1;
    if bin[n] != Lrc(bin[..n]) then None else Some(Message(bin[0], bin[1..n]))
  }

  /** What `ciaaModbus_asciiRecvMsg` delivers when the port holds the characters `b`. */
  function Receive(b: seq<uint8>): Option<Message> {
    var end := CheckComplete(b, ToInt8(|b|));
    if end == -1 then None
    else match Decode(b[1..end - 2])
      case None => None
      case Some(bin) => Unpack(bin)
  }

  // ---------------------------------------------------------------- what is accepted

  /** The messages delivered are exactly the well-formed frames among the first `int8_t` characters. */
  lemma {:induction false} ReceiveIffFrame(b: seq<uint8>, m: Message)
    ensures Receive(b) == Some(m) <==>
            |m.pdu| >= 1 && |Frame(m.id, m.pdu)| <= ToInt8(|b|) && Frame(m.id, m.pdu) <= b
  {
    if Receive(b) == Some(m) {
      ReceivedIsFrame(b, m);
    }
    if |m.pdu| >= 1 && |Frame(m.id, m.pdu)| <= ToInt8(|b|) && Frame(m.id, m.pdu) <= b {
      FrameIsReceived(b, m);
    }
  }

  lemma {:induction false} ReceivedIsFrame(b: seq<uint8>, m: Message)
    requires Receive(b) == Some(m)
    ensures |m.pdu| >= 1 && |Frame(m.id, m.pdu)| <= ToInt8(|b|) && Frame(m.id, m.pdu) <= b
  {
    var end, bin := ReceivedParts(b, m);
    BodyOfParts(bin);
    PrefixIsFrame(b, end, m, bin);
  }

  /** The pieces of the buffer a delivered message was read from. */
  lemma {:induction false} ReceivedParts(b: seq<uint8>, m: Message) returns (end: nat, bin: seq<uint8>)
    requires Receive(b) == Some(m)
    ensures MINLENGTH <= end <= ToInt8(|b|) && EndAt(b, end - 2) && b[1..end - 2] == Hex(bin)
    ensures |bin| >= 3 && bin[|bin| - 1] == Lrc(bin[..|bin| - 1])
    ensures m == Message(bin[0], bin[1..|bin| - 1])
  {
    end := CheckComplete(b, ToInt8(|b|));
    bin := Unhex(b[1..end - 2]);
    HexOfUnhex(b[1..end - 2]);
  }

  lemma {:induction false} PrefixIsFrame(b: seq<uint8>, end: nat, m: Message, bin: seq<uint8>)
    requires MINLENGTH <= end <= |b| && EndAt(b, end - 2)
    requires b[1..end - 2] == Hex(bin) && Body(m.id, m.pdu) == bin
    ensures |Frame(m.id, m.pdu)| == end && Frame(m.id, m.pdu) <= b
  {
    assert b[..end] == [START] + b[1..end - 2] + [CR, LF];
  }

  lemma {:induction false} BodyOfParts(bin: seq<uint8>)
    requires |bin| >= 2 && bin[|bin| - 1] == Lrc(bin[..|bin| - 1])
    ensures Body(bin[0], bin[1..|bin| - 1]) == bin
  {
    assert [bin[0]] + bin[1..|bin| - 1] == bin[..|bin| - 1];
  }

  lemma {:induction false} FrameIsReceived(b: seq<uint8>, m: Message)
    requires |m.pdu| >= 1 && |Frame(m.id, m.pdu)| <= ToInt8(|b|) && Frame(m.id, m.pdu) <= b
    ensures Receive(b) == Some(m)
  {
    var f, body := Frame(m.id, m.pdu), Body(m.id, m.pdu);
    FrameEnds(b, m);
    assert b[1..|f| - 2] == Hex(body);
    UnhexOfHex(body);
    assert Decode(Hex(body)) == Some(body);
    BodyUnpacks(m);
  }

  /** The first line end of a buffer that starts with a frame is the frame's. */
  lemma {:induction false} FrameEnds(b: seq<uint8>, m: Message)
    requires |m.pdu| >= 1 && |Frame(m.id, m.pdu)| <= ToInt8(|b|) && Frame(m.id, m.pdu) <= b
    ensures CheckComplete(b, ToInt8(|b|)) == |Frame(m.id, m.pdu)|
    ensures b[1..|Frame(m.id, m.pdu)| - 2] == Hex(Body(m.id, m.pdu))
  {
    var f := Frame(m.id, m.pdu);
    FrameChars(m.id, m.pdu);
    assert forall i :: 0 <= i < |f| ==> b[i] == f[i];
    forall k | 7 <= k < |f| - 2 ensures !EndAt(b, k) {
      assert IsHex(b[k]);
    }
    assert EndAt(b, |f| - 2);
    assert b[1..|f| - 2] == f[1..|f| - 2];
  }

  lemma {:induction false} BodyUnpacks(m: Message)
    ensures Unpack(Body(m.id, m.pdu)) == Some(m)
  {
    var body := Body(m.id, m.pdu);
    assert body[..|body| - 1] == [m.id] + m.pdu;
    assert body[1..|body| - 1] == m.pdu;
  }
}
