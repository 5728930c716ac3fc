/**
 Whole receptions, polled as the gateway polls them: a frame cut into reads in any way, sound or with
 one damaged character, into an empty port or into one that holds anything.
 */
module AsciiDelivery {
  import opened Words
  import opened AsciiFrame
  import opened AsciiLine
  import opened AsciiErrors

  /** A run of polls, each a read followed by a receive, and what was delivered in order. */
  datatype Run = Run(line: Line, delivered: seq<Message>)

  function Poll(r: Run, chunk: seq<uint8>): Run {
    var read := Task(r.line, chunk);
    Run(AfterRecv(read), r.delivered + Found(read.chars))
  }

  function Found(s: seq<uint8>): seq<Message> {
    if Receive(s).Some? then [Receive(s).value] else []
  }

  /** After the first `n` of the reads. */
  function Polls(r: Run, chunks: seq<seq<uint8>>, n: nat): Run
    requires n <= |chunks|
  {
    if n == 0 then r else Poll(Polls(r, chunks, n - 1), chunks[n - 1])
  }

  /** `before` and all that the first `n` reads brought. */
  function Seen(before: seq<uint8>, chunks: seq<seq<uint8>>, n: nat): seq<uint8>
    requires n <= |chunks|
  {
    if n == 0 then before else Seen(before, chunks, n - 1) + chunks[n - 1]
  }

  /** Number of empty reads in a row up to the `n`-th. */
  function Silence(chunks: seq<seq<uint8>>, n: nat): nat
    requires n <= |chunks|
  {
    if n == 0 || chunks[n - 1] != [] then 0 else 1 + Silence(chunks, n - 1)
  }

  /** After `k` reads either nothing has arrived yet, or fewer than `TIMEOUT` empty reads have come in a row. */
  predicate InTime(before: seq<uint8>, chunks: seq<seq<uint8>>, k: nat)
    requires k <= |chunks|
  {
    Seen(before, chunks, k) == [] || Silence(chunks, k) < TIMEOUT
  }

  /** So it is after fewer than `n` reads. */
  predicate InTimeUpTo(before: seq<uint8>, chunks: seq<seq<uint8>>, n: nat)
    requires n <= |chunks|
  {
    forall k :: 0 <= k < n ==> InTime(before, chunks, k)
  }

  predicate NoLongSilence(before: seq<uint8>, chunks: seq<seq<uint8>>) {
    InTimeUpTo(before, chunks, |chunks|)
  }

  /** The last read brings something, and with it all of `s` has come, however long it took. */
  predicate Arrives(before: seq<uint8>, chunks: seq<seq<uint8>>, s: seq<uint8>) {
    chunks != [] && chunks[|chunks| - 1] != [] && Seen(before, chunks, |chunks|) == s
  }

  predicate Brings(before: seq<uint8>, chunks: seq<seq<uint8>>, s: seq<uint8>) {
    Arrives(before, chunks, s) && NoLongSilence(before, chunks)
  }

  // ---------------------------------------------------------------- polls in general

  /** No line end in the port, and room for more. */
  predicate Quiet(s: seq<uint8>) {
    |s| < MAXLENGTH && forall j :: 0 <= j < |s| ==> !EndAt(s, j)
  }

  /** What is left after `k` reads is quiet. */
  predicate QuietAt(before: seq<uint8>, chunks: seq<seq<uint8>>, k: nat)
    requires k <= |chunks|
  {
    Quiet(FromLastStart(Seen(before, chunks, k)))
  }

  /** All but the last of the reads leave the port quiet. */
  predicate QuietBefore(before: seq<uint8>, chunks: seq<seq<uint8>>) {
    forall k :: 0 <= k < |chunks| ==> QuietAt(before, chunks, k)
  }

  /** A port that holds what is left of `seen`, since when `empty` reads brought nothing. */
  predicate Holding(l: Line, seen: seq<uint8>, empty: nat) {
    l.chars == FromLastStart(seen) && (seen == [] || l.timeOut as int == TIMEOUT - empty)
  }

  lemma {:induction false} QuietRead(l: Line, seen: seq<uint8>, empty: nat, chunk: seq<uint8>)
    requires Holding(l, seen, empty) && |l.chars| < MAXLENGTH && (seen == [] || empty < TIMEOUT)
    ensures Holding(Task(l, chunk), seen + chunk, if chunk == [] then empty + 1 else 0)
    ensures chunk != [] ==> Task(l, chunk) == Line(FromLastStart(seen + chunk), TIMEOUT)
  {
    ResyncStep(l, seen, chunk);
    if chunk == [] {
      assert seen + chunk == seen;
    }
  }

  lemma {:induction false} QuietPoll(r: Run, chunk: seq<uint8>)
    requires Quiet(Task(r.line, chunk).chars)
    ensures Poll(r, chunk) == Run(Task(r.line, chunk), r.delivered)
  {
  }

  lemma {:induction false} QuietStep(r: Run, seen: seq<uint8>, empty: nat, chunk: seq<uint8>)
    requires Holding(r.line, seen, empty) && (seen == [] || empty < TIMEOUT)
    requires Quiet(FromLastStart(seen)) && Quiet(FromLastStart(seen + chunk))
    ensures Poll(r, chunk).delivered == r.delivered
    ensures Holding(Poll(r, chunk).line, seen + chunk, if chunk == [] then empty + 1 else 0)
  {
    QuietRead(r.line, seen, empty, chunk);
    QuietPoll(r, chunk);
  }

  lemma {:induction false} QuietStepAt(r: Run, before: seq<uint8>, chunks: seq<seq<uint8>>, n: nat)
    requires n + 1 < |chunks| && InTime(before, chunks, n) && QuietAt(before, chunks, n)
        && QuietAt(before, chunks, n + 1)
    requires Holding(r.line, Seen(before, chunks, n), Silence(chunks, n))
    ensures Poll(r, chunks[n]).delivered == r.delivered
    ensures Holding(Poll(r, chunks[n]).line, Seen(before, chunks, n + 1), Silence(chunks, n + 1))
  {
    QuietStep(r, Seen(before, chunks, n), Silence(chunks, n), chunks[n]);
  }

  /** As long as the port is quiet nothing is delivered, and it holds all from the last start character on. */
  lemma {:induction false} QuietPolls(r: Run, before: seq<uint8>, chunks: seq<seq<uint8>>, n: nat)
    requires n < |chunks| && Holding(r.line, before, 0) && InTimeUpTo(before, chunks, n) && QuietBefore(before, chunks)
    ensures Polls(r, chunks, n).delivered == r.delivered
    ensures Holding(Polls(r, chunks, n).line, Seen(before, chunks, n), Silence(chunks, n))
  {
    for i := 0 to n
      invariant Polls(r, chunks, i).delivered == r.delivered
      invariant Holding(Polls(r, chunks, i).line, Seen(before, chunks, i), Silence(chunks, i))
    {
      QuietStepAt(Polls(r, chunks, i), before, chunks, i);
    }
  }

  lemma {:induction false} NothingEarly(r: Run, before: seq<uint8>, chunks: seq<seq<uint8>>)
    requires Holding(r.line, before, 0) && NoLongSilence(before, chunks) && QuietBefore(before, chunks)
    ensures forall k :: 0 <= k < |chunks| ==> Polls(r, chunks, k).delivered == r.delivered
  {
    forall k | 0 <= k < |chunks| ensures Polls(r, chunks, k).delivered == r.delivered {
      QuietPolls(r, before, chunks, k);
    }
  }

  /** The last of such reads decides: what is delivered is what the receiver finds in all the characters. */
  lemma {:induction false} LastPoll(r: Run, before: seq<uint8>, chunks: seq<seq<uint8>>, s: seq<uint8>)
    requires Holding(r.line, before, 0) && Brings(before, chunks, s) && QuietBefore(before, chunks)
    ensures Polls(r, chunks, |chunks|)
        == Run(AfterRecv(Line(FromLastStart(s), TIMEOUT)), r.delivered + Found(FromLastStart(s)))
  {
    var n := |chunks| - 1;
    QuietPolls(r, before, chunks, n);
    assert InTime(before, chunks, n) && QuietAt(before, chunks, n);
    QuietRead(Polls(r, chunks, n).line, Seen(before, chunks, n), Silence(chunks, n), chunks[n]);
  }

  lemma {:induction false} SeenPrefix(before: seq<uint8>, chunks: seq<seq<uint8>>, k: nat, n: nat)
    requires k <= n <= |chunks|
    ensures Seen(before, chunks, k) <= Seen(before, chunks, n)
    ensures k < n && chunks[n - 1] != [] ==> Seen(before, chunks, k) < Seen(before, chunks, n)
    decreases n
  {
    if k == n {
    } else {
      SeenPrefix(before, chunks, k, n - 1);
    }
  }

  // ---------------------------------------------------------------- a sound frame

  /** A prefix of a frame has no start character to restart at. */
  lemma {:induction false} PrefixKeeps(s: seq<uint8>, id: uint8, pdu: seq<uint8>)
    requires s <= Frame(id, pdu)
    ensures FromLastStart(s) == s
  {
    FrameChars(id, pdu);
    var f := Frame(id, pdu);
    assert forall i :: 0 < i < |s| ==> s[i] == f[i] && f[i] != START;
    if s != [] {
      LastStartIs(s, 0);
    }
  }

  lemma {:induction false} FrameQuiet(before: seq<uint8>, chunks: seq<seq<uint8>>, id: uint8, pdu: seq<uint8>)
    requires |pdu| <= 252 && Arrives(before, chunks, Frame(id, pdu))
    ensures QuietBefore(before, chunks)
  {
    forall k | 0 <= k < |chunks| ensures QuietAt(before, chunks, k) {
      SeenPrefix(before, chunks, k, |chunks|);
      PrefixQuiet(Seen(before, chunks, k), id, pdu);
    }
  }

  lemma {:induction false} PrefixQuiet(s: seq<uint8>, id: uint8, pdu: seq<uint8>)
    requires |pdu| <= 252 && s < Frame(id, pdu)
    ensures FromLastStart(s) == s && Quiet(s)
  {
    PrefixKeeps(s, id, pdu);
    forall j: nat | j + 1 < |s| ensures !EndAt(s, j) {
      EndOnlyAtEnd(id, pdu, j);
      assert EndAt(s, j) <==> EndAt(Frame(id, pdu), j);
    }
  }

  /** What the receiver finds in a whole frame, and what is left of it. */
  lemma {:induction false} FrameFound(id: uint8, pdu: seq<uint8>)
    ensures FromLastStart(Frame(id, pdu)) == Frame(id, pdu)
    ensures 1 <= |pdu| <= 60 ==>
              Found(Frame(id, pdu)) == [Message(id, pdu)]
                  && AfterRecv(Line(Frame(id, pdu), TIMEOUT)) == Line([], TIMEOUT)
    ensures !(1 <= |pdu| <= 60) ==> Found(Frame(id, pdu)) == []
  {
    PrefixKeeps(Frame(id, pdu), id, pdu);
    RoundTrip(id, pdu);
  }

  /**
   However a frame is cut into reads, and with the receiver asked after each of them, it is
   delivered exactly once and only at the last character if its PDU has 1 to 60 bytes, and
   never otherwise.
   */
  lemma {:induction false} DeliveredOnce(t: nat, chunks: seq<seq<uint8>>, id: uint8, pdu: seq<uint8>)
    requires |pdu| <= 252 && Brings([], chunks, Frame(id, pdu))
    ensures forall k :: 0 <= k < |chunks| ==> Polls(Run(Line([], t), []), chunks, k).delivered == []
    ensures 1 <= |pdu| <= 60 ==>
              Polls(Run(Line([], t), []), chunks, |chunks|) == Run(Line([], TIMEOUT), [Message(id, pdu)])
    ensures !(1 <= |pdu| <= 60) ==> Polls(Run(Line([], t), []), chunks, |chunks|).delivered == []
  {
    FrameQuiet([], chunks, id, pdu);
    NothingEarly(Run(Line([], t), []), [], chunks);
    LastPoll(Run(Line([], t), []), [], chunks, Frame(id, pdu));
    FrameFound(id, pdu);
  }

  /** The read that brings the start of a frame leaves only that in the port, whatever was in it. */
  lemma {:induction false} StartRead(r: Run, noise: seq<uint8>, start: seq<uint8>, id: uint8, pdu: seq<uint8>)
    requires start != [] && start <= Frame(id, pdu)
    ensures FromLastStart(start) == start && Task(r.line, noise + start) == Line(start, TIMEOUT)
  {
    FrameChars(id, pdu);
    PrefixKeeps(start, id, pdu);
    ResyncOfTail(BeforeRead(r.line) + noise, start);
    Assoc(BeforeRead(r.line), noise, start);
  }

  lemma {:induction false} Assoc(a: seq<uint8>, b: seq<uint8>, c: seq<uint8>)
    ensures a + b + c == a + (b + c)
  {
  }

  /**
   The same from any state of the port, whatever it holds, however long it has been silent and whatever
   it has delivered: the first read brings `start`, the beginning of the frame, with `noise` before it.
   */
  lemma {:induction false} DeliveredAfterNoise(r: Run, noise: seq<uint8>, start: seq<uint8>, rest: seq<seq<uint8>>,
      id: uint8, pdu: seq<uint8>)
    requires |pdu| <= 252 && start != []
        && (if rest == [] then start == Frame(id, pdu) else Brings(start, rest, Frame(id, pdu)))
    ensures var first := Poll(r, noise + start);
            && (forall k :: 0 <= k < |rest| ==> Polls(first, rest, k).delivered == r.delivered)
            && (1 <= |pdu| <= 60 ==>
                Polls(first, rest, |rest|) == Run(Line([], TIMEOUT), r.delivered + [Message(id, pdu)]))
            && (!(1 <= |pdu| <= 60) ==> Polls(first, rest, |rest|).delivered == r.delivered)
  {
    var first := Poll(r, noise + start);
    FrameFound(id, pdu);
    SeenPrefix(start, rest, 0, |rest|);
    StartRead(r, noise, start, id, pdu);
    if rest == [] {
    } else {
      FrameQuiet(start, rest, id, pdu);
      assert QuietAt(start, rest, 0);
      QuietPoll(r, noise + start);
      NothingEarly(first, start, rest);
      LastPoll(first, start, rest, Frame(id, pdu));
    }
  }

  // ---------------------------------------------------------------- a frame of its own

  /**
   A port that has just sent a frame, with `n` characters of an earlier reception still counted and its
   countdown running: the next poll, without a character from the line, delivers the port's own request
   as an answer if and only if the count is not less than the frame, in eight bits.
   */
  lemma {:induction false} OwnRequestDelivered(r: Run, id: uint8, pdu: seq<uint8>, rest: seq<uint8>, n: nat)
    requires n <= |Frame(id, pdu)| + |rest| && n < MAXLENGTH
    requires r.line.chars == (Frame(id, pdu) + rest)[..n] && r.line.timeOut > 0
    ensures Poll(r, []).delivered ==
            r.delivered + if 1 <= |pdu| && |Frame(id, pdu)| <= ToInt8(n) then [Message(id, pdu)] else []
  {
    OwnFrame(id, pdu, rest, n);
  }

  // ---------------------------------------------------------------- a damaged frame

  /** In a damaged frame CR and LF do not follow each other before its last two characters. */
  lemma {:induction false} DamagedNoEnd(id: uint8, pdu: seq<uint8>, i: nat, c: uint8, t: nat)
    requires i < |Frame(id, pdu)| && c != Frame(id, pdu)[i] && t + 2 < |Frame(id, pdu)|
    ensures var g := Frame(id, pdu)[i := c]; !(g[t] == CR && g[t + 1] == LF)
  {
    FrameChars(id, pdu);
  }

  /** No proper prefix of a damaged frame ends a message, wherever the receiver restarts in it. */
  lemma {:induction false} DamagedPrefixQuiet(s: seq<uint8>, id: uint8, pdu: seq<uint8>, i: nat, c: uint8)
    requires |pdu| <= 252 && i < |Frame(id, pdu)| && c != Frame(id, pdu)[i] && s < Frame(id, pdu)[i := c]
    ensures Quiet(FromLastStart(s))
  {
    var u := FromLastStart(s);
    var d := |s| - |u|;
    forall j: nat | j + 1 < |u| ensures !EndAt(u, j) {
      DamagedNoEnd(id, pdu, i, c, d + j);
      assert u[j] == s[d + j] && u[j + 1] == s[d + j + 1];
    }
  }

  /**
   A damaged frame, cut into reads in any way and polled after each of them: nothing is delivered before
   its last character, one message at most then, and one exactly if the damage is a `FalseStart` that
   leaves 60 bytes at most.
   */
  lemma {:induction false} DamagedDelivery(t: nat, chunks: seq<seq<uint8>>, id: uint8, pdu: seq<uint8>, i: nat,
      c: uint8)
    requires |pdu| <= 252 && i < |Frame(id, pdu)| && c != Frame(id, pdu)[i]
        && Brings([], chunks, Frame(id, pdu)[i := c])
    ensures forall k :: 0 <= k < |chunks| ==> Polls(Run(Line([], t), []), chunks, k).delivered == []
    ensures |Polls(Run(Line([], t), []), chunks, |chunks|).delivered|
            == if FalseStart(id, pdu, i, c) && |pdu| - i / 2 <= 60 then 1 else 0
  {
    var g := Frame(id, pdu)[i := c];
    forall k | 0 <= k < |chunks| ensures QuietAt([], chunks, k) {
      SeenPrefix([], chunks, k, |chunks|);
      DamagedPrefixQuiet(Seen([], chunks, k), id, pdu, i, c);
    }
    NothingEarly(Run(Line([], t), []), [], chunks);
    LastPoll(Run(Line([], t), []), [], chunks, g);
    DamagedOnLine(id, pdu, i, c);
  }
}
