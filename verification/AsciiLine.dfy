/**
 The receive side of the ASCII transport as a function on values: what the port holds after each
 read, how it finds the start of a message again, and what a whole sequence of polls delivers.
 */
module AsciiLine {
  import opened Words
  import opened AsciiFrame

  /** Time in polls without a character before the buffer is dropped: 1000 ms in steps of 5 ms. */
  const TIMEOUT: nat := 1000 / 5

  /** The characters held by the port and its countdown. */
  datatype Line = Line(chars: seq<uint8>, timeOut: nat)

  // ---------------------------------------------------------------- finding the start again

  /** Index of the last start character, -1 if there is none. */
  function LastStart(s: seq<uint8>): (r: int)
    ensures -1 <= r < |s|
    ensures r >= 0 ==> s[r] == START
    ensures forall i :: r < i < |s| ==> s[i] != START
  {
    if s == [] then -1
    else if s[|s| - 1] == START then |s| - 1
    else LastStart(s[..|s| - 1])
  }

  /** The characters from the last start character on; all of them if there is none. */
  function FromLastStart(s: seq<uint8>): seq<uint8> {
    if LastStart(s) > 0 then s[LastStart(s)..] else s
  }

  lemma {:induction false} LastStartIs(s: seq<uint8>, r: int)
    requires -1 <= r < |s| && (r >= 0 ==> s[r] == START)
    requires forall i :: r < i < |s| ==> s[i] != START
    ensures LastStart(s) == r
  {
  }

  /** The last start character of `d + s`, where no start character before `s` matters. */
  lemma {:induction false} ResyncOfTail(d: seq<uint8>, s: seq<uint8>)
    requires d != [] ==> s != [] && s[0] == START
    ensures FromLastStart(d + s) == FromLastStart(s)
  {
    if d == [] {
      assert d + s == s;
    } else {
      var r, t := LastStart(s), d + s;
      assert r >= 0;
      assert forall i :: |d| <= i < |t| ==> t[i] == s[i - |d|];
      LastStartIs(t, |d| + r);
      assert FromLastStart(t) == t[|d| + r..] == s[r..];
    }
  }

  /** Dropping what precedes the last start character early or late makes no difference. */
  lemma {:induction false} ResyncTwice(a: seq<uint8>, b: seq<uint8>)
    ensures FromLastStart(FromLastStart(a) + b) == FromLastStart(a + b)
  {
    var r := FromLastStart(a);
    var d := a[..|a| - |r|];
    assert a + b == d + (r + b);
    ResyncOfTail(d, r + b);
  }

  // ---------------------------------------------------------------- one poll

  /** What is left in the buffer when the next read is issued. */
  function BeforeRead(l: Line): seq<uint8> {
    if l.timeOut == 0 || |l.chars| == MAXLENGTH then [] else l.chars
  }

  predicate Fits(l: Line, chunk: seq<uint8>) {
    |BeforeRead(l)| + |chunk| <= MAXLENGTH
  }

  /** `ciaaModbus_asciiTask` when the device returns `chunk` (empty for nothing or an error). */
  function Task(l: Line, chunk: seq<uint8>): Line {
    if chunk == [] then Line(BeforeRead(l), if l.timeOut == 0 then 0 else l.timeOut - 1)
    else Line(FromLastStart(BeforeRead(l) + chunk), TIMEOUT)
  }

  /** The state after `ciaaModbus_asciiRecvMsg`: a complete message empties the buffer, valid or not. */
  function AfterRecv(l: Line): Line {
    if CheckComplete(l.chars, ToInt8(|l.chars|)) == -1 then l else l.(chars := [])
  }

  /** CR and LF, with a start character in front, among the characters that count, and not too early. */
  predicate LineEndAt(s: seq<uint8>, j: nat) {
    7 <= j && j + 2 <= ToInt8(|s|) && s[0] as char == ':' && s[j] as char == '\r' && s[j + 1] as char == '\n'
  }

  /** A receive empties the port exactly on a line end, whether the message is sound or not; the countdown goes on. */
  lemma {:induction false} ReceiveEmptiesIff(l: Line)
    ensures AfterRecv(l) == if exists j: nat :: LineEndAt(l.chars, j) then Line([], l.timeOut) else l
  {
    var n := ToInt8(|l.chars|);
    var end := CheckComplete(l.chars, n);
    if end != -1 {
      assert LineEndAt(l.chars, end - 2);
    } else {
      forall j: nat ensures !LineEndAt(l.chars, j) {
        assert n >= 9 && 7 <= j < n - 1 ==> !EndAt(l.chars, j);
      }
    }
  }

  // ---------------------------------------------------------------- runs of reads

  function Concat(chunks: seq<seq<uint8>>): seq<uint8> {
    if chunks == [] then [] else Concat(chunks[..|chunks| - 1]) + chunks[|chunks| - 1]
  }

  function Tasks(l: Line, chunks: seq<seq<uint8>>): Line {
    if chunks == [] then l else Task(Tasks(l, chunks[..|chunks| - 1]), chunks[|chunks| - 1])
  }

  /** No read of the sequence meets an expired countdown or a full buffer. */
  predicate NothingDropped(l: Line, chunks: seq<seq<uint8>>) {
    forall k :: 0 <= k < |chunks| ==>
      var s := Tasks(l, chunks[..k]); s.chars == [] || (s.timeOut > 0 && |s.chars| < MAXLENGTH)
  }

  /**
   However the characters are cut into reads, the buffer holds all that was received from the last
   start character on.
   */
  lemma {:induction false} ResyncAnyChunking(chunks: seq<seq<uint8>>)
    requires NothingDropped(Line([], 0), chunks)
    ensures Tasks(Line([], 0), chunks).chars == FromLastStart(Concat(chunks))
    decreases |chunks|
  {
    if chunks == [] {
    } else {
      var n := |chunks| - 1;
      var before := chunks[..n];
      assert forall k :: 0 <= k < n ==> before[..k] == chunks[..k];
      ResyncAnyChunking(before);
      ResyncStep(Tasks(Line([], 0), before), Concat(before), chunks[n]);
    }
  }

  lemma {:induction false} ResyncStep(l: Line, all: seq<uint8>, chunk: seq<uint8>)
    requires l.chars == FromLastStart(all) && (l.chars == [] || (l.timeOut > 0 && |l.chars| < MAXLENGTH))
    ensures Task(l, chunk).chars == FromLastStart(all + chunk)
  {
    assert BeforeRead(l) == l.chars;
    ResyncTwice(all, chunk);
    if chunk == [] {
      assert all + [] == all;
    }
  }

  /** Two ways of cutting the same characters into reads leave the same buffer. */
  lemma {:induction false} ChunkingIrrelevant(a: seq<seq<uint8>>, b: seq<seq<uint8>>)
    requires NothingDropped(Line([], 0), a) && NothingDropped(Line([], 0), b) && Concat(a) == Concat(b)
    ensures Tasks(Line([], 0), a).chars == Tasks(Line([], 0), b).chars
    ensures forall i :: 0 < i < |Tasks(Line([], 0), a).chars| ==> Tasks(Line([], 0), a).chars[i] != START
  {
    ResyncAnyChunking(a);
    ResyncAnyChunking(b);
  }
}
