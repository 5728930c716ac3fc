/**
 Silence on the ASCII line: a port that hears nothing for 1000 ms drops what it holds, and a frame that
 is interrupted for so long is lost.
 */
module AsciiSilence {
  import opened Words
  import opened AsciiFrame
  import opened AsciiLine
  import opened AsciiErrors
  import opened AsciiDelivery

  // ---------------------------------------------------------------- what a read leaves

  /**
   The characters from the last start character on: an end of `s` that begins with that character and has no
   other; all of `s` if there is none.
   */
  lemma {:induction false} FromLastStartIs(s: seq<uint8>)
    ensures var r := FromLastStart(s);
            && |r| <= |s| && r == s[|s| - |r|..]
            && (START in s ==> r != [] && r[0] == START) && (START !in s ==> r == s)
            && forall i :: 0 < i < |r| ==> r[i] != START
  {
    var i := LastStart(s);
    if START in s {
      assert i >= 0;
    }
  }

  /**
   What a read that brings something leaves: on an expired countdown, or with the buffer full, what it brought
   itself; otherwise that behind what was there; both from the last start character on. The countdown
   starts again at 200 reads.
   */
  lemma {:induction false} ReadBrings(l: Line, chunk: seq<uint8>)
    requires chunk != []
    ensures l.timeOut == 0 || |l.chars| == 512 ==> Task(l, chunk) == Line(FromLastStart(chunk), 200)
    ensures l.timeOut > 0 && |l.chars| != 512 ==> Task(l, chunk) == Line(FromLastStart(l.chars + chunk), 200)
  {
    assert [] + chunk == chunk;
  }

  predicate AllEmpty(chunks: seq<seq<uint8>>) {
    forall i :: 0 <= i < |chunks| ==> chunks[i] == []
  }

  /** Reads that bring nothing: the port keeps its characters for as many of them as its countdown says, no longer. */
  lemma {:induction false} EmptyReads(l: Line, chunks: seq<seq<uint8>>)
    requires AllEmpty(chunks)
    ensures Tasks(l, chunks).timeOut == if |chunks| <= l.timeOut then l.timeOut - |chunks| else 0
    ensures Tasks(l, chunks).chars ==
            if |chunks| > l.timeOut || (chunks != [] && |l.chars| == 512) then [] else l.chars
    decreases |chunks|
  {
    if chunks == [] {
    } else {
      EmptyReads(l, chunks[..|chunks| - 1]);
    }
  }

  /** 201 reads that bring nothing empty every port whose countdown was started by a read. */
  lemma {:induction false} SilenceEmpties(l: Line, chunks: seq<seq<uint8>>)
    requires l.timeOut <= 200 && AllEmpty(chunks)
    ensures |chunks| >= 201 ==> Tasks(l, chunks).chars == []
    ensures l.timeOut == 200 && |l.chars| != 512 && |chunks| <= 200 ==> Tasks(l, chunks).chars == l.chars
  {
    EmptyReads(l, chunks);
  }

  // ---------------------------------------------------------------- an interrupted frame

  /** The first read that finds an expired countdown. */
  lemma {:induction false} FirstLate(before: seq<uint8>, chunks: seq<seq<uint8>>, n: nat) returns (k: nat)
    requires n <= |chunks| && !InTimeUpTo(before, chunks, n)
    ensures k < n && InTimeUpTo(before, chunks, k) && Seen(before, chunks, k) != [] && Silence(chunks, k) == TIMEOUT
  {
    k := 0;
    while InTime(before, chunks, k)
      invariant k < n && InTimeUpTo(before, chunks, k)
      decreases n - k
    {
      if k + 1 == n {
        assert InTimeUpTo(before, chunks, n);
      }
      k := k + 1;
    }
    LateAfter(before, chunks, k);
  }

  lemma {:induction false} LateAfter(before: seq<uint8>, chunks: seq<seq<uint8>>, k: nat)
    requires k <= |chunks| && !InTime(before, chunks, k) && InTimeUpTo(before, chunks, k)
    ensures Seen(before, chunks, k) != [] && Silence(chunks, k) == TIMEOUT
  {
    assert k > 0;
    assert Seen(before, chunks, k) == Seen(before, chunks, k - 1) + [];
    assert InTime(before, chunks, k - 1);
  }

  /** No start character in the port, or nothing of it will be read again. */
  predicate Lost(l: Line) {
    l.timeOut == 0 || START !in l.chars
  }

  lemma {:induction false} MessageHasStart(s: seq<uint8>)
    requires Found(s) != []
    ensures START in s
  {
    var m := Receive(s).value;
    ReceiveIffFrame(s, m);
    assert s[0] == Frame(m.id, m.pdu)[0];
  }

  lemma {:induction false} LostRead(r: Run, chunk: seq<uint8>)
    requires Lost(r.line) && START !in chunk
    ensures Lost(Poll(r, chunk).line) && Poll(r, chunk).delivered == r.delivered
  {
    var kept := BeforeRead(r.line);
    assert START !in kept + chunk;
    FromLastStartIs(kept + chunk);
    var read := Task(r.line, chunk).chars;
    assert START !in read;
    if Found(read) != [] {
      MessageHasStart(read);
    }
  }

  /** Nothing is delivered any more from the characters that follow. */
  lemma {:induction false} LostPolls(r: Run, chunks: seq<seq<uint8>>, k: nat, n: nat)
    requires k <= n <= |chunks| && Lost(Polls(r, chunks, k).line)
    requires forall j :: k <= j < n ==> START !in chunks[j]
    ensures Polls(r, chunks, n).delivered == Polls(r, chunks, k).delivered
    ensures Lost(Polls(r, chunks, n).line)
  {
    if n == k {
    } else {
      LostPolls(r, chunks, k, n - 1);
      LostRead(Polls(r, chunks, n - 1), chunks[n - 1]);
    }
  }

  /** What follows the first character of a frame has no start character. */
  lemma {:induction false} RestHasNoStart(before: seq<uint8>, chunks: seq<seq<uint8>>, j: nat, id: uint8,
      pdu: seq<uint8>)
    requires j < |chunks| && Seen(before, chunks, j) != [] && Seen(before, chunks, |chunks|) == Frame(id, pdu)
    ensures START !in chunks[j]
  {
    SeenPrefix(before, chunks, j + 1, |chunks|);
    FrameChars(id, pdu);
    var s := Seen(before, chunks, j);
    forall i | 0 <= i < |chunks[j]| ensures chunks[j][i] != START {
      assert chunks[j][i] == (s + chunks[j])[|s| + i] == Frame(id, pdu)[|s| + i];
    }
  }

  lemma {:induction false} LateFrameLost(r: Run, before: seq<uint8>, chunks: seq<seq<uint8>>, k: nat, id: uint8,
      pdu: seq<uint8>)
    requires |pdu| <= 252 && Holding(r.line, before, 0) && Arrives(before, chunks, Frame(id, pdu))
    requires k < |chunks| && InTimeUpTo(before, chunks, k) && Seen(before, chunks, k) != []
        && Silence(chunks, k) == TIMEOUT
    ensures Polls(r, chunks, |chunks|).delivered == r.delivered
  {
    FrameQuiet(before, chunks, id, pdu);
    QuietPolls(r, before, chunks, k);
    forall j | k <= j < |chunks| ensures START !in chunks[j] {
      SeenPrefix(before, chunks, k, j);
      RestHasNoStart(before, chunks, j, id, pdu);
    }
    LostPolls(r, chunks, k, |chunks|);
  }

  /**
   A frame that comes in any number of reads, into a port that holds its beginning `before` (nothing of it, in an
   empty port), and with any silence in it: it is delivered, once, if and only if it is short enough and no
   read finds that the countdown has run out on a part of it. Otherwise nothing is delivered.
   */
  lemma {:induction false} DeliveredIffInTime(r: Run, before: seq<uint8>, chunks: seq<seq<uint8>>, id: uint8,
      pdu: seq<uint8>)
    requires |pdu| <= 252 && Holding(r.line, before, 0) && Arrives(before, chunks, Frame(id, pdu))
    ensures Polls(r, chunks, |chunks|).delivered == r.delivered +
            if 1 <= |pdu| <= 60 && NoLongSilence(before, chunks) then [Message(id, pdu)] else []
  {
    if NoLongSilence(before, chunks) {
      FrameQuiet(before, chunks, id, pdu);
      LastPoll(r, before, chunks, Frame(id, pdu));
      FrameFound(id, pdu);
    } else {
      var k := FirstLate(before, chunks, |chunks|);
      LateFrameLost(r, before, chunks, k, id, pdu);
    }
  }

  /** `n` reads that bring nothing. */
  function Pause(n: nat): (p: seq<seq<uint8>>)
    ensures |p| == n && AllEmpty(p)
  {
    if n == 0 then [] else Pause(n - 1) + [[]]
  }

  /** A frame cut in two, with `n` reads that bring nothing in between. */
  function Interrupted(head: seq<uint8>, n: nat, tail: seq<uint8>): (chunks: seq<seq<uint8>>)
    ensures |chunks| == n + 2
  {
    [head] + Pause(n) + [tail]
  }

  lemma {:induction false} DuringPause(head: seq<uint8>, n: nat, tail: seq<uint8>, j: nat)
    requires j <= n && head != []
    ensures Seen([], Interrupted(head, n, tail), j + 1) == head && Silence(Interrupted(head, n, tail), j + 1) == j
  {
    var chunks := Interrupted(head, n, tail);
    if j == 0 {
      assert Seen([], chunks, 0) + chunks[0] == head;
    } else {
      DuringPause(head, n, tail, j - 1);
      assert chunks[j] == Pause(n)[j - 1];
    }
  }

  /** It is delivered if and only if the silence is shorter than 200 reads. */
  lemma {:induction false} InterruptedIff(t: nat, head: seq<uint8>, n: nat, tail: seq<uint8>, id: uint8,
      pdu: seq<uint8>)
    requires head != [] && tail != [] && head + tail == Frame(id, pdu) && 1 <= |pdu| <= 60
    ensures Polls(Run(Line([], t), []), Interrupted(head, n, tail), n + 2).delivered ==
            if n < 200 then [Message(id, pdu)] else []
  {
    var chunks := Interrupted(head, n, tail);
    DuringPause(head, n, tail, n);
    assert Seen([], chunks, n + 2) == head + tail;
    if n < 200 {
      forall k | 0 <= k < |chunks| ensures InTime([], chunks, k) {
        if k > 0 {
          DuringPause(head, n, tail, k - 1);
        }
      }
    } else {
      assert !InTime([], chunks, n + 1);
    }
    DeliveredIffInTime(Run(Line([], t), []), [], chunks, id, pdu);
  }
}
