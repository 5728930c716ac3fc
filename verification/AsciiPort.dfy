/**
 The ASCII transport object: one buffer, used in place for receiving, decoding, encoding and
 sending. Every method is proved against the value-level description of AsciiFrame and AsciiLine.
 */
module AsciiPort {
  import opened Words
  import opened AsciiFrame
  import opened AsciiLine
  import opened Memory

  // ---------------------------------------------------------------- in-place decoding

  function Digit(c: uint8): (n: int)
    ensures 0 <= n < 16
  {
    if IsHex(c) then HexValue(c) else 0
  }

  /** The byte built from the two characters at `2 * j + 1`; a wrong character counts as zero. */
  function PairByte(b: seq<uint8>, j: nat): uint8
    requires 2 * j + 2 < |b|
  {
    16 * Digit(b[2 * j + 1]) + Digit(b[2 * j + 2])
  }

  predicate BadPair(b: seq<uint8>, j: nat)
    requires 2 * j + 2 < |b|
  {
    !IsHex(b[2 * j + 1]) || !IsHex(b[2 * j + 2])
  }

  /** How many bytes get stored: all `n`, or up to and including the first wrong pair. */
  function Stored(b: seq<uint8>, n: nat): (k: nat)
    requires 2 * n < |b|
    ensures k <= n
    ensures k == n || (k > 0 && BadPair(b, k - 1))
    ensures forall j :: 0 <= j < k - 1 ==> !BadPair(b, j)
  {
    if n == 0 then 0
    else
      var k := Stored(b, n - 1);
      if k == n - 1 && (k == 0 || !BadPair(b, k - 1)) then n else k
  }

  predicate AllPairsGood(b: seq<uint8>, n: nat)
    requires 2 * n < |b|
  {
    forall j :: 0 <= j < n ==> !BadPair(b, j)
  }

  /** `ciaaModbus_ascii_ascii2bin`. An even `len` makes the last pair end on `buf[len]`. */
  method Ascii2Bin(buf: array<uint8>, len: nat) returns (ret: int)
    requires 2 * (len / 2) < buf.Length
    modifies buf
    ensures ret == if AllPairsGood(old(buf[..]), len / 2) then len / 2 else -1
    ensures forall j :: 0 <= j < buf.Length ==>
              buf[j] == if j < Stored(old(buf[..]), len / 2) then PairByte(old(buf[..]), j) else old(buf[j])
  {
    ghost var was := buf[..];
    ret := 0;
    var i := 1;
    ghost var k := 0;
    while i < len && ret != -1
      invariant i == 2 * k + 1 && k <= len / 2
      invariant if ret == -1 then k > 0 && BadPair(was, k - 1) && AllPairsGood(was, k - 1)
          else ret == k && AllPairsGood(was, k)
      invariant forall j :: 0 <= j < buf.Length ==> buf[j] == if j < k then PairByte(was, j) else was[j]
      decreases len - i
    {
      assert buf[i] == was[2 * k + 1] && buf[i + 1] == was[2 * k + 2];
      var aux := 0;
      if IsHex(buf[i]) {
        aux := HexValue(buf[i]) * 16;
      } else {
        ret := -2;
      }
      if IsHex(buf[i + 1]) {
        aux := aux + HexValue(buf[i + 1]);
      } else {
        ret := -2;
      }
      buf[(i - 1) / 2] := aux;
      ret := ret + 1;
      i := i + 2;
      k := k + 1;
    }
    StoredIs(was, len / 2, k);
  }

  lemma {:induction false} StoredIs(b: seq<uint8>, n: nat, k: nat)
    requires 2 * n < |b| && k <= n
    requires forall j :: 0 <= j < k - 1 ==> !BadPair(b, j)
    requires k == n || (k > 0 && BadPair(b, k - 1))
    ensures Stored(b, n) == k
  {
    var s := Stored(b, n);
    assert s == n || BadPair(b, s - 1);
  }

  // ---------------------------------------------------------------- LRC

  /** `ciaaModbus_calcLRC`: an eight-bit accumulator, negated at the end. */
  method CalcLRC(buf: array<uint8>, len: nat) returns (lrc: uint8)
    requires len <= buf.Length
    ensures lrc == Lrc(buf[..len])
  {
    lrc := 0;
    for i := 0 to len
      invariant lrc == Sum(buf[..i]) % 256
    {
      assert buf[..i + 1][..i] == buf[..i];
      lrc := (lrc + buf[i] as int) % 256;
    }
    lrc := (256 - lrc) % 256;
  }

  // ---------------------------------------------------------------- the object

  class Port {
    var bufferSize: nat
    var timeOut: nat
    const buffer: array<uint8>
    /** Everything handed to the device. */
    ghost var written: seq<uint8>

    ghost predicate Valid()
      reads this
    {
      buffer.Length == MAXLENGTH && bufferSize <= MAXLENGTH
    }

    /** The receive side as a value. */
    ghost function LineOf(): Line
      requires Valid()
      reads this, buffer
    {
      Line(buffer[..bufferSize], timeOut)
    }

    /** `ciaaModbus_asciiOpen` on an object that was never used. */
    constructor ()
      ensures Valid() && fresh(buffer) && LineOf() == Line([], 0) && written == []
    {
      buffer := new uint8[MAXLENGTH];
      bufferSize := 0;
      timeOut := 0;
      written := [];
    }

    /** `ciaaModbus_asciiTask` when the read returns `chunk`. */
    method Task(chunk: seq<uint8>)
      requires Valid() && Fits(LineOf(), chunk)
      modifies this`bufferSize, this`timeOut, buffer
      ensures Valid() && LineOf() == AsciiLine.Task(old(LineOf()), chunk)
    {
      ghost var was := LineOf();
      if timeOut == 0 {
        bufferSize := 0;
      } else {
        timeOut := timeOut - 1;
      }
      if bufferSize == MAXLENGTH {
        bufferSize := 0;
      }
      assert buffer[..bufferSize] == BeforeRead(was);
      if chunk != [] {
        CopyIn(buffer, bufferSize, chunk);
        timeOut := TIMEOUT;
        bufferSize := bufferSize + |chunk|;
        ghost var all := BeforeRead(was) + chunk;
        assert buffer[..bufferSize] == all;
        bufferSize := KeepFromStart(buffer, bufferSize);
      }
    }

    /** `ciaaModbus_asciiCheckCompleteMsg` on the object's own buffer. */
    method CheckCompleteMsg() returns (end: int)
      requires Valid()
      ensures end == CheckComplete(buffer[..bufferSize], ToInt8(bufferSize))
    {
      var length := ToInt8(bufferSize);
      ghost var s := buffer[..bufferSize];
      end := -1;
      if MINLENGTH <= length {
        var i := MINLENGTH - 2;
        while i < length - 1 && end == -1
          invariant MINLENGTH - 2 <= i
          invariant end == -1 ==> FindEnd(s, MINLENGTH - 2, length) == FindEnd(s, i, length)
          invariant end != -1 ==> FindEnd(s, MINLENGTH - 2, length) == end
          decreases length - i
        {
          if buffer[i] == CR && buffer[i + 1] == LF && buffer[0] == START {
            end := i + 2;
          }
          assert EndAt(s, i) <==> end != -1;
          i := i + 1;
        }
      }
    }

    /**
     `ciaaModbus_asciiRecvMsg`: `idIn` is what `*id` held before the call. Buffer and counters end
     as `AfterRecv` says; the caller's memory is written only when a message is delivered. The copy
     takes the LRC along, so that memory must have room for one byte more than the PDU.
     */
    method RecvMsg(idIn: uint8, pdu: array<uint8>) returns (id: uint8, size: nat)
      requires Valid() && pdu != buffer
      requires Receive(LineOf().chars).Some? ==> |Receive(LineOf().chars).value.pdu| + 1 <= pdu.Length
      modifies this`bufferSize, buffer, pdu
      ensures Valid() && LineOf() == AfterRecv(old(LineOf()))
      ensures match old(Receive(LineOf().chars))
              case None => id == idIn && size == 0 && pdu[..] == old(pdu[..])
              case Some(m) => id == m.id && size == |m.pdu|
                              && pdu[..] == m.pdu + [Lrc([m.id] + m.pdu)] + old(pdu[size + 1..])
    {
      ghost var s := LineOf().chars;
      id, size := idIn, 0;
      var end := CheckCompleteMsg();
      if MINLENGTH <= end {
        bufferSize := 0;
        id, size := Extract(buffer, end, s, idIn, pdu);
      }
    }

    /**
     `ciaaModbus_asciiSendMsg`: the frame is built in the receive buffer without touching
     `bufferSize`; a PDU of more than 252 bytes is dropped after the buffer has been overwritten.
     */
    method SendMsg(id: uint8, pdu: array<uint8>, size: nat)
      requires Valid() && pdu != buffer && size <= pdu.Length && size + 2 <= MAXLENGTH
      modifies this`written, buffer
      ensures Valid()
      ensures size <= 252 ==> written == old(written) + Frame(id, pdu[..size])
      ensures size <= 252 ==> Frame(id, pdu[..size]) <= buffer[..]
      ensures size > 252 ==> written == old(written)
      ensures size > 252 ==> Body(id, pdu[..size]) <= buffer[..]
      ensures forall i :: 2 * size + 7 <= i < MAXLENGTH ==> buffer[i] == old(buffer[i])
    {
      var n := LoadBody(buffer, id, pdu, size);
      ghost var body := Body(id, pdu[..size]);
      if MAXLENGTH >= n * 2 + 3 {
        EncodeInPlace(buffer, n, body);
        buffer[0] := START;
        var lenAscii := n * 2 + 1;
        buffer[lenAscii] := CR;
        lenAscii := lenAscii + 1;
        buffer[lenAscii] := LF;
        lenAscii := lenAscii + 1;
        assert buffer[..lenAscii] == [START] + buffer[1..2 * n + 1] + [CR, LF];
        written := written + buffer[..lenAscii];
      }
    }
  }

  /** The message in the first `end` characters `s` of the buffer, if it can be decoded and its LRC is right. */
  method Extract(buf: array<uint8>, end: int, ghost s: seq<uint8>, idIn: uint8, pdu: array<uint8>)
      returns (id: uint8, size: nat)
    requires pdu != buf && s <= buf[..] && MINLENGTH <= end <= |s| && EndAt(s, end - 2)
    requires match Decode(s[1..end - 2])
             case None => true
             case Some(bin) => |bin| >= 2 && Unpack(bin).Some? ==> |Unpack(bin).value.pdu| + 1 <= pdu.Length
    modifies buf, pdu
    ensures match Decode(s[1..end - 2])
            case None => id == idIn && size == 0 && pdu[..] == old(pdu[..])
            case Some(bin) =>
              |bin| >= 3 && match Unpack(bin)
              case None => id == idIn && size == 0 && pdu[..] == old(pdu[..])
              case Some(m) => id == m.id && size == |m.pdu|
                              && pdu[..] == m.pdu + [Lrc([m.id] + m.pdu)] + old(pdu[size + 1..])
  {
    id, size := idIn, 0;
    var n := DecodeInPlace(buf, end, s);
    if 0 < n {
      id, size := UnpackTo(buf, n, idIn, pdu);
    }
  }

  /** Decodes the complete message `s[..end]` at the start of the buffer. */
  method DecodeInPlace(buf: array<uint8>, end: int, ghost s: seq<uint8>) returns (n: int)
    requires s <= buf[..] && MINLENGTH <= end <= |s| && EndAt(s, end - 2)
    modifies buf
    ensures match Decode(s[1..end - 2])
            case None => n == -1
            case Some(bin) => n == |bin| >= 3 && n <= buf.Length && buf[..n] == bin
  {
    ghost var was := buf[..];
    n := Ascii2Bin(buf, end - 2);
    DecodedIs(was, s, end);
  }

  /** Checks the LRC of the `n` decoded bytes and copies the PDU out, with the LRC behind it. */
  method UnpackTo(buf: array<uint8>, n: int, idIn: uint8, pdu: array<uint8>) returns (id: uint8, size: nat)
    requires pdu != buf && 2 <= n <= buf.Length
    requires Unpack(buf[..n]).Some? ==> n - 1 <= pdu.Length
    modifies pdu
    ensures match Unpack(buf[..n])
            case None => id == idIn && size == 0 && pdu[..] == old(pdu[..])
            case Some(m) => id == m.id && size == |m.pdu|
                            && pdu[..] == m.pdu + [Lrc([m.id] + m.pdu)] + old(pdu[size + 1..])
  {
    id, size := idIn, 0;
    var lrc := CalcLRC(buf, n - 1);
    assert buf[..n][..n - 1] == buf[..n - 1];
    if buf[n - 1] == lrc {
      CopyOut(buf, 1, pdu, 0, n - 1);
      id := buf[0];
      size := n - 2;
      assert buf[..n][1..n - 1] == buf[1..n - 1];
      assert [buf[0]] + buf[1..n - 1] == buf[..n - 1];
      assert buf[1..n] == buf[1..n - 1] + [buf[n - 1]];
    }
  }

  /** Identification, PDU and LRC at the start of the buffer, in binary. */
  method LoadBody(buf: array<uint8>, id: uint8, pdu: array<uint8>, size: nat) returns (n: nat)
    requires pdu != buf && size <= pdu.Length && size + 2 <= buf.Length
    modifies buf
    ensures n == size + 2 && buf[..n] == Body(id, pdu[..size])
    ensures forall j :: n <= j < buf.Length ==> buf[j] == old(buf[j])
  {
    ghost var data := pdu[..size];
    buf[0] := id;
    for i := 0 to size
      invariant buf[0] == id && buf[1..i + 1] == data[..i]
      invariant forall j :: i + 1 <= j < buf.Length ==> buf[j] == old(buf[j])
    {
      buf[i + 1] := pdu[i];
    }
    n := size + 1;
    assert buf[..n] == [id] + data;
    var lrc := CalcLRC(buf, n);
    buf[n] := lrc;
    n := n + 1;
    assert buf[..n] == [id] + data + [lrc];
  }

  /** With an odd digit count the last pair the decoder looks at holds the CR. */
  lemma OddCountIsBad(b: seq<uint8>, s: seq<uint8>, end: int)
    requires s <= b && MINLENGTH <= end <= |s| && EndAt(s, end - 2)
    ensures end % 2 == 0 ==> BadPair(b, (end - 2) / 2 - 1)
  {
    if end % 2 == 0 {
      assert b[2 * ((end - 2) / 2 - 1) + 2] == CR;
    }
  }

  /** The result of the in-place decoder on a complete message. */
  lemma {:induction false} DecodedIs(b: seq<uint8>, s: seq<uint8>, end: int)
    requires s <= b && MINLENGTH <= end <= |s| && EndAt(s, end - 2)
    ensures var digits := s[1..end - 2]; var n := (end - 2) / 2;
            && (AllPairsGood(b, n) <==> |digits| % 2 == 0 && AllHex(digits))
            && (AllPairsGood(b, n) ==> Stored(b, n) == n && n == |digits| / 2
                                       && forall j :: 0 <= j < n ==> PairByte(b, j) == Unhex(digits)[j])
  {
    var digits, n := s[1..end - 2], (end - 2) / 2;
    assert forall i :: 0 <= i < |digits| ==> digits[i] == b[i + 1];
    OddCountIsBad(b, s, end);
    if AllPairsGood(b, n) {
      forall i | 0 <= i < |digits| ensures IsHex(digits[i]) {
        assert !BadPair(b, i / 2);
      }
      StoredIs(b, n, n);
      forall j | 0 <= j < n ensures PairByte(b, j) == Unhex(digits)[j] {
        UnhexAt(digits, j);
        assert !BadPair(b, j);
      }
    }
    if |digits| % 2 == 0 && AllHex(digits) {
      forall j | 0 <= j < n ensures !BadPair(b, j) {
        assert IsHex(digits[2 * j]) && IsHex(digits[2 * j + 1]);
      }
    }
  }

  /** The encoding loop: runs backwards, so that no byte is overwritten before it is read. */
  method EncodeInPlace(buf: array<uint8>, n: nat, ghost bytes: seq<uint8>)
    requires 2 * n < buf.Length && buf[..n] == bytes
    modifies buf
    ensures buf[1..2 * n + 1] == Hex(bytes)
    ensures forall j :: 2 * n < j < buf.Length ==> buf[j] == old(buf[j])
  {
    ghost var hex := Hex(bytes);
    var i := n;
    while i > 0
      invariant 0 <= i <= n
      invariant forall j :: 0 <= j < i ==> buf[j] == bytes[j]
      invariant forall j :: 2 * i <= j < 2 * n ==> buf[j + 1] == hex[j]
      invariant forall j :: 2 * n < j < buf.Length ==> buf[j] == old(buf[j])
    {
      HexAt(bytes, i - 1);
      var upper := buf[i - 1] / 16;
      var lower := buf[i - 1] % 16;
      buf[i * 2 - 1] := HexChar(upper);
      buf[i * 2] := HexChar(lower);
      i := i - 1;
    }
  }

  /** The received characters from the last start character on are moved to the beginning. */
  method KeepFromStart(buf: array<uint8>, size: nat) returns (kept: nat)
    requires size <= buf.Length
    modifies buf
    ensures kept <= size && buf[..kept] == FromLastStart(old(buf[..size]))
  {
    var begin := FindStart(buf, size);
    kept := size;
    if begin > 0 {
      MoveDown(buf, begin, size);
      kept := size - begin;
    }
  }

  /** The backward search for the start character. */
  method FindStart(buf: array<uint8>, size: nat) returns (begin: int)
    requires size <= buf.Length
    ensures begin == LastStart(buf[..size])
  {
    begin := -1;
    var i := size - 1;
    while 0 <= i && begin == -1
      invariant -1 <= i < size && -1 <= begin < size && (begin == -1 || begin == i + 1)
      invariant begin >= 0 ==> buf[begin] == START
      invariant forall k :: (if begin == -1 then i else begin) < k < size ==> buf[k] != START
    {
      if buf[i] == START {
        begin := i;
      }
      i := i - 1;
    }
    LastStartIs(buf[..size], begin);
  }

  /** The loop that moves the received part to the beginning of the buffer. */
  method MoveDown(buf: array<uint8>, begin: nat, size: nat)
    requires 0 < begin <= size <= buf.Length
    modifies buf
    ensures buf[..size - begin] == old(buf[begin..size])
  {
    ghost var was := buf[..];
    for i := begin to size
      invariant forall j :: 0 <= j < i - begin ==> buf[j] == was[begin + j]
      invariant forall j :: i <= j < size ==> buf[j] == was[j]
    {
      buf[i - begin] := buf[i];
    }
  }
}
