/**
 One producer and one consumer on the same circular buffer, running in parallel: Put and Get cut
 into the reads and writes of shared memory they are made of. A Put reads `head` once, writes its
 bytes in any order and then stores `tail`; a Get reads `tail` once, reads its bytes in any order
 and then stores `head`. Memory is sequentially consistent.
 */
module CircBufParallel {
  import opened Words
  import opened Bits
  import opened CircBuf

  datatype Producer =
    | Ready
    | Writing(data: seq<uint8>, headSeen: nat, todo: set<nat>)

  datatype Consumer =
    | Waiting
    | Reading(tailSeen: nat, got: seq<uint8>, todo: set<nat>)

  /** Shared memory, the two program positions, and what went in and came out so far. */
  datatype State = State(buf: seq<uint8>, head: nat, tail: nat, prod: Producer, cons: Consumer,
                         accepted: seq<uint8>, consumed: seq<uint8>)

  datatype Action =
    | PutBegin(data: seq<uint8>)
    | PutByte(i: nat)
    | PutEnd
    | GetBegin(nbytes: nat)
    | GetByte(i: nat)
    | GetEnd

  /** Where Put stores byte `i` of `n`. */
  function PutAddress(headSeen: nat, tail: nat, size: nat, n: nat, i: nat): int {
    if i < RawSpace(headSeen, tail, size) || n <= RawSpace(headSeen, tail, size) then tail + i
    else i - RawSpace(headSeen, tail, size)
  }

  /** Where Get finds byte `i` of `n`. */
  function GetAddress(head: nat, tailSeen: nat, size: nat, n: nat, i: nat): int {
    if i < RawCount(head, tailSeen, size) || n <= RawCount(head, tailSeen, size) then head + i
    else i - RawCount(head, tailSeen, size)
  }

  function Indexes(n: nat): (r: set<nat>)
    ensures forall i: nat :: i in r <==> i < n
  {
    if n == 0 then {} else Indexes(n - 1) + {n - 1}
  }

  function Min(a: nat, b: nat): nat {
    if a < b then a else b
  }

  /** The action is the next one of its thread, by the position of that thread in its program alone. */
  predicate InTurn(s: State, a: Action) {
    match a
    case PutBegin(_) => s.prod.Ready?
    case PutByte(i) => s.prod.Writing? && i in s.prod.todo
    case PutEnd => s.prod.Writing? && s.prod.todo == {}
    case GetBegin(_) => s.cons.Waiting?
    case GetByte(i) => s.cons.Reading? && i in s.cons.todo
    case GetEnd => s.cons.Reading? && s.cons.todo == {}
  }

  /**
   One step of one of the two threads. `None` if the action is not in turn, and for an access outside
   the memory or the data, which `NoAccessOutside` shows never to happen.
   */
  function Step(size: nat, s: State, a: Action): Option<State> {
    if !InTurn(s, a) then None
    else match a
      case PutBegin(data) =>
        if Space(s.head, s.tail, size) >= |data| then Some(s.(prod := Writing(data, s.head, Indexes(|data|))))
            else Some(s)
      case PutByte(i) =>
        if i >= |s.prod.data| then None
        else
          var at := PutAddress(s.prod.headSeen, s.tail, size, |s.prod.data|, i);
          if !(0 <= at < |s.buf|) then None
          else Some(s.(buf := s.buf[at := s.prod.data[i]], prod := s.prod.(todo := s.prod.todo - {i})))
      case PutEnd =>
        Some(s.(tail := Advance(s.tail, |s.prod.data|, size), prod := Ready, accepted := s.accepted + s.prod.data))
      case GetBegin(nbytes) =>
        var n := Min(nbytes, Count(s.head, s.tail, size));
        if n == 0 then Some(s) else Some(s.(cons := Reading(s.tail, seq(n, _ => 0), Indexes(n))))
      case GetByte(i) =>
        if i >= |s.cons.got| then None
        else
          var at := GetAddress(s.head, s.cons.tailSeen, size, |s.cons.got|, i);
          if !(0 <= at < |s.buf|) then None
          else Some(s.(cons := s.cons.(got := s.cons.got[i := s.buf[at]], todo := s.cons.todo - {i})))
      case GetEnd =>
        Some(s.(head := Advance(s.head, |s.cons.got|, size), cons := Waiting, consumed := s.consumed + s.cons.got))
  }

  // ---------------------------------------------------------------- the invariant

  /** Index in the ring of the `j`-th byte ever accepted. */
  function Slot(j: nat, size: nat): (r: nat)
    ensures r <= size
  {
    j % (size + 1)
  }

  /** The producer saw the head when `c` bytes had been consumed, and its data fit behind `a` accepted bytes then. */
  predicate SawHead(p: Producer, c: nat, a: nat, size: nat)
    requires p.Writing?
  {
    p.headSeen == Slot(c, size) && c <= a && a + |p.data| <= c + size
  }

  /** The consumer saw the tail when `t` bytes had been accepted, and the bytes it wants were among them. */
  predicate SawTail(r: Consumer, t: nat, c: nat, size: nat)
    requires r.Reading?
  {
    r.tailSeen == Slot(t, size) && c + |r.got| <= t <= c + size
  }

  ghost predicate ProducerInv(size: nat, s: State)
    requires |s.buf| == size + 1
  {
    match s.prod
    case Ready => true
    case Writing(data, headSeen, todo) =>
      && (forall i :: i in todo ==> i < |data|)
      && (exists c: nat :: c <= |s.consumed| && SawHead(s.prod, c, |s.accepted|, size))
      && (forall i :: 0 <= i < |data| && i !in todo ==> s.buf[Slot(|s.accepted| + i, size)] == data[i])
  }

  ghost predicate ConsumerInv(size: nat, s: State) {
    match s.cons
    case Waiting => true
    case Reading(tailSeen, got, todo) =>
      && (forall i :: i in todo ==> i < |got|)
      && (exists t: nat :: t <= |s.accepted| && SawTail(s.cons, t, |s.consumed|, size))
      && (forall i :: 0 <= i < |got| && i !in todo ==> got[i] == s.accepted[|s.consumed| + i])
  }

  ghost predicate Inv(size: nat, k: nat, s: State) {
    && k < WIDTH && size + 1 == Pow2(k) && |s.buf| == size + 1
    && |s.consumed| <= |s.accepted| <= |s.consumed| + size
    && s.head == Slot(|s.consumed|, size) && s.tail == Slot(|s.accepted|, size)
    && (forall j :: |s.consumed| <= j < |s.accepted| ==> s.buf[Slot(j, size)] == s.accepted[j])
    && s.consumed <= s.accepted
    && ProducerInv(size, s) && ConsumerInv(size, s)
  }

  // ---------------------------------------------------------------- arithmetic of slots

  lemma {:induction false} SlotAfter(a: nat, i: nat, size: nat)
    requires i <= size
    ensures Slot(a + i, size) == Wrap(Slot(a, size) + i, size)
  {
    var n := size + 1;
    var q, r := a / n, a % n;
    assert a == q * n + r;
    if r + i < n {
      ModUnique(a + i, n, q, r + i);
    } else {
      assert (q + 1) * n == q * n + n;
      ModUnique(a + i, n, q + 1, r + i - n);
    }
  }

  /** Fewer than a full turn apart, two bytes never share a slot. */
  lemma {:induction false} SlotsDiffer(a: nat, b: nat, size: nat)
    requires a < b <= a + size
    ensures Slot(a, size) != Slot(b, size)
  {
    SlotAfter(a, b - a, size);
  }

  /** The distance macros, read on byte numbers. */
  lemma {:induction false} CountOfSlots(c: nat, a: nat, size: nat, k: nat)
    requires k < WIDTH && size + 1 == Pow2(k) && c <= a <= c + size
    ensures Count(Slot(c, size), Slot(a, size), size) == a - c
    ensures Space(Slot(c, size), Slot(a, size), size) == size - (a - c)
  {
    SlotAfter(c, a - c, size);
    Distances(Slot(c, size), Slot(a, size), size, k);
  }

  lemma {:induction false} AdvanceSlot(a: nat, n: nat, size: nat, k: nat)
    requires k < WIDTH && size + 1 == Pow2(k) && n <= size
    ensures Advance(Slot(a, size), n, size) == Slot(a + n, size)
  {
    SlotAfter(a, n, size);
    AdvanceIs(Slot(a, size), n, size, k);
  }

  /** The address computed from a head seen earlier is the slot of the byte. */
  lemma {:induction false} PutAddressIsSlot(c: nat, a: nat, size: nat, n: nat, i: nat)
    requires c <= a && i < n && a + n <= c + size
    ensures PutAddress(Slot(c, size), Slot(a, size), size, n, i) == Slot(a + i, size)
  {
    SlotAfter(a, i, size);
    SlotAfter(c, a - c, size);
  }

  lemma {:induction false} GetAddressIsSlot(c: nat, t: nat, size: nat, n: nat, i: nat)
    requires i < n && c + n <= t <= c + size
    ensures GetAddress(Slot(c, size), Slot(t, size), size, n, i) == Slot(c + i, size)
  {
    SlotAfter(c, i, size);
    SlotAfter(c, t - c, size);
  }

  // ---------------------------------------------------------------- every step keeps the invariant

  lemma {:induction false} PutBeginKeeps(size: nat, k: nat, s: State, data: seq<uint8>)
    requires Inv(size, k, s) && Step(size, s, PutBegin(data)).Some?
    ensures Inv(size, k, Step(size, s, PutBegin(data)).value)
  {
    var s' := Step(size, s, PutBegin(data)).value;
    CountOfSlots(|s.consumed|, |s.accepted|, size, k);
    if s'.prod.Writing? {
      assert SawHead(s'.prod, |s'.consumed|, |s'.accepted|, size);
    }
    ConsumerSurvives(size, s, s');
  }

  /** The byte a producer step writes. */
  lemma {:induction false} PutByteAt(size: nat, k: nat, s: State, i: nat)
    requires Inv(size, k, s) && Step(size, s, PutByte(i)).Some?
    ensures var m := Slot(|s.accepted| + i, size);
            Step(size, s, PutByte(i)) == Some(s.(buf := s.buf[m := s.prod.data[i]],
                prod := s.prod.(todo := s.prod.todo - {i})))
    ensures i < |s.prod.data| && |s.accepted| + |s.prod.data| <= |s.consumed| + size
    ensures exists c: nat :: c <= |s.consumed| && SawHead(s.prod, c, |s.accepted|, size)
  {
    var a, n := |s.accepted|, |s.prod.data|;
    var c: nat :| c <= |s.consumed| && SawHead(s.prod, c, a, size);
    PutAddressIsSlot(c, a, size, n, i);
  }

  lemma {:induction false} PutByteKeeps(size: nat, k: nat, s: State, i: nat)
    requires Inv(size, k, s) && Step(size, s, PutByte(i)).Some?
    ensures Inv(size, k, Step(size, s, PutByte(i)).value)
  {
    PutByteAt(size, k, s, i);
    OtherSlots(|s.consumed|, |s.accepted| + |s.prod.data|, |s.accepted| + i, size);
    var s' := Step(size, s, PutByte(i)).value;
    ConsumerSurvives(size, s, s');
    var c: nat :| c <= |s.consumed| && SawHead(s.prod, c, |s.accepted|, size);
    assert SawHead(s'.prod, c, |s'.accepted|, size);
    ByteWritten(size, s, s', i);
  }

  lemma {:induction false} ByteWritten(size: nat, s: State, s': State, i: nat)
    requires |s.buf| == size + 1 && s.prod.Writing? && i < |s.prod.data| && ProducerInv(size, s)
    requires forall j: nat :: |s.consumed| <= j < |s.accepted| + |s.prod.data| && j != |s.accepted| + i ==>
               Slot(j, size) != Slot(|s.accepted| + i, size)
    requires |s.consumed| <= |s.accepted|
    requires s' == s.(buf := s.buf[Slot(|s.accepted| + i, size) := s.prod.data[i]],
        prod := s.prod.(todo := s.prod.todo - {i}))
    ensures forall j ::
        0 <= j < |s'.prod.data| && j !in s'.prod.todo ==> s'.buf[Slot(|s'.accepted| + j, size)] == s'.prod.data[j]
    ensures forall j: nat :: |s.consumed| <= j < |s.accepted| ==> s'.buf[Slot(j, size)] == s.buf[Slot(j, size)]
  {
    forall j | 0 <= j < |s'.prod.data| && j !in s'.prod.todo
      ensures s'.buf[Slot(|s'.accepted| + j, size)] == s'.prod.data[j]
    {
      if j != i {
        assert Slot(|s.accepted| + j, size) != Slot(|s.accepted| + i, size);
      }
    }
  }

  lemma {:induction false} OtherSlots(lo: nat, hi: nat, m: nat, size: nat)
    requires lo <= m < hi <= lo + size + 1
    ensures forall j: nat :: lo <= j < hi && j != m ==> Slot(j, size) != Slot(m, size)
  {
    forall j: nat | lo <= j < hi && j != m ensures Slot(j, size) != Slot(m, size) {
      if j < m { SlotsDiffer(j, m, size); } else { SlotsDiffer(m, j, size); }
    }
  }

  lemma {:induction false} PutEndKeeps(size: nat, k: nat, s: State)
    requires Inv(size, k, s) && Step(size, s, PutEnd).Some?
    ensures Inv(size, k, Step(size, s, PutEnd).value)
  {
    var a, data, s' := |s.accepted|, s.prod.data, Step(size, s, PutEnd).value;
    AdvanceSlot(a, |data|, size, k);
    forall j | |s'.consumed| <= j < |s'.accepted| ensures s'.buf[Slot(j, size)] == s'.accepted[j] {
      if j >= a {
        assert s'.accepted[j] == data[j - a] && Slot(a + (j - a), size) == Slot(j, size);
      }
    }
    ConsumerSurvives(size, s, s');
  }

  /** The consumer's own facts stay true while bytes are added behind. */
  lemma {:induction false} ConsumerSurvives(size: nat, s: State, s': State)
    requires ConsumerInv(size, s) && s'.cons == s.cons && s'.consumed == s.consumed && s.accepted <= s'.accepted
    ensures ConsumerInv(size, s')
  {
    if s.cons.Reading? {
      var t: nat :| t <= |s.accepted| && SawTail(s.cons, t, |s.consumed|, size);
      assert t <= |s'.accepted| && SawTail(s'.cons, t, |s'.consumed|, size);
    }
  }

  lemma {:induction false} GetBeginKeeps(size: nat, k: nat, s: State, nbytes: nat)
    requires Inv(size, k, s) && Step(size, s, GetBegin(nbytes)).Some?
    ensures Inv(size, k, Step(size, s, GetBegin(nbytes)).value)
  {
    var s' := Step(size, s, GetBegin(nbytes)).value;
    CountOfSlots(|s.consumed|, |s.accepted|, size, k);
    if s'.cons.Reading? {
      assert SawTail(s'.cons, |s'.accepted|, |s'.consumed|, size);
    }
    ProducerSurvives(size, s, s');
  }

  lemma {:induction false} GetByteKeeps(size: nat, k: nat, s: State, i: nat)
    requires Inv(size, k, s) && Step(size, s, GetByte(i)).Some?
    ensures Inv(size, k, Step(size, s, GetByte(i)).value)
  {
    var c, n := |s.consumed|, |s.cons.got|;
    var t: nat :| t <= |s.accepted| && SawTail(s.cons, t, c, size);
    GetAddressIsSlot(c, t, size, n, i);
    var s' := Step(size, s, GetByte(i)).value;
    assert SawTail(s'.cons, t, c, size);
    assert s'.cons.got == s.cons.got[i := s.accepted[c + i]];
    assert ConsumerInv(size, s');
    ProducerSurvives(size, s, s');
  }

  lemma {:induction false} GetEndKeeps(size: nat, k: nat, s: State)
    requires Inv(size, k, s) && Step(size, s, GetEnd).Some?
    ensures Inv(size, k, Step(size, s, GetEnd).value)
  {
    var c, got, s' := |s.consumed|, s.cons.got, Step(size, s, GetEnd).value;
    AdvanceSlot(c, |got|, size, k);
    GotIsNext(size, s);
    ProducerSurvives(size, s, s');
  }

  /** The bytes a finished Get has read are the next ones in order. */
  lemma {:induction false} GotIsNext(size: nat, s: State)
    requires ConsumerInv(size, s) && s.cons.Reading? && s.cons.todo == {} && s.consumed <= s.accepted
    ensures |s.consumed| + |s.cons.got| <= |s.accepted| && s.consumed + s.cons.got <= s.accepted
  {
    var c, n := |s.consumed|, |s.cons.got|;
    assert s.cons.got == s.accepted[c..c + n];
    assert s.accepted[..c + n] == s.accepted[..c] + s.accepted[c..c + n];
  }

  /** The producer's own facts stay true while bytes are removed in front. */
  lemma {:induction false} ProducerSurvives(size: nat, s: State, s': State)
    requires |s.buf| == size + 1 && ProducerInv(size, s)
    requires s'.prod == s.prod && s'.buf == s.buf && s'.accepted == s.accepted && |s.consumed| <= |s'.consumed|
    ensures ProducerInv(size, s')
  {
    if s.prod.Writing? {
      var c: nat :| c <= |s.consumed| && SawHead(s.prod, c, |s.accepted|, size);
      assert c <= |s'.consumed| && SawHead(s'.prod, c, |s'.accepted|, size);
    }
  }

  lemma {:induction false} StepKeeps(size: nat, k: nat, s: State, a: Action)
    requires Inv(size, k, s) && Step(size, s, a).Some?
    ensures Inv(size, k, Step(size, s, a).value)
  {
    match a
    case PutBegin(data) => PutBeginKeeps(size, k, s, data);
    case PutByte(i) => PutByteKeeps(size, k, s, i);
    case PutEnd => PutEndKeeps(size, k, s);
    case GetBegin(n) => GetBeginKeeps(size, k, s, n);
    case GetByte(i) => GetByteKeeps(size, k, s, i);
    case GetEnd => GetEndKeeps(size, k, s);
  }

  // ---------------------------------------------------------------- all interleavings

  /** The state after a sequence of actions of the two threads, in any interleaving. */
  function Run(size: nat, s: State, actions: seq<Action>): Option<State> {
    if actions == [] then Some(s)
    else match Run(size, s, actions[..|actions| - 1])
      case None => None
      case Some(t) => Step(size, t, actions[|actions| - 1])
  }

  predicate Initial(size: nat, k: nat, s: State) {
    && k < WIDTH && size + 1 == Pow2(k) && |s.buf| == size + 1 && s.head == 0 && s.tail == 0
    && s.prod == Ready && s.cons == Waiting && s.accepted == [] && s.consumed == []
  }

  lemma {:induction false} RunKeeps(size: nat, k: nat, s: State, actions: seq<Action>)
    requires Initial(size, k, s) && Run(size, s, actions).Some?
    ensures Inv(size, k, Run(size, s, actions).value)
  {
    if actions == [] {
    } else {
      var n := |actions| - 1;
      RunKeeps(size, k, s, actions[..n]);
      StepKeeps(size, k, Run(size, s, actions[..n]).value, actions[n]);
    }
  }

  lemma {:induction false} PutByteInside(size: nat, k: nat, s: State, i: nat)
    requires Inv(size, k, s) && s.prod.Writing? && i in s.prod.todo
    ensures Step(size, s, PutByte(i)).Some?
  {
    var c: nat :| c <= |s.consumed| && SawHead(s.prod, c, |s.accepted|, size);
    PutAddressIsSlot(c, |s.accepted|, size, |s.prod.data|, i);
  }

  lemma {:induction false} GetByteInside(size: nat, k: nat, s: State, i: nat)
    requires Inv(size, k, s) && s.cons.Reading? && i in s.cons.todo
    ensures Step(size, s, GetByte(i)).Some?
  {
    var t: nat :| t <= |s.accepted| && SawTail(s.cons, t, |s.consumed|, size);
    GetAddressIsSlot(|s.consumed|, t, size, |s.cons.got|, i);
  }

  lemma {:induction false} StepIffInTurn(size: nat, k: nat, s: State, a: Action)
    requires Inv(size, k, s)
    ensures Step(size, s, a).Some? <==> InTurn(s, a)
  {
    if InTurn(s, a) && a.PutByte? {
      PutByteInside(size, k, s, a.i);
    } else if InTurn(s, a) && a.GetByte? {
      GetByteInside(size, k, s, a.i);
    }
  }

  /** Actions in an order in which each is the next one of its thread: any interleaving of the two programs. */
  predicate Interleaving(size: nat, s: State, actions: seq<Action>) {
    actions == [] ||
    var before := actions[..|actions| - 1];
    Interleaving(size, s, before)
    && (Run(size, s, before).Some? ==> InTurn(Run(size, s, before).value, actions[|actions| - 1]))
  }

  /** No interleaving ever accesses memory outside the ring: each of them runs to its end. */
  lemma {:induction false} NoAccessOutside(size: nat, k: nat, s: State, actions: seq<Action>)
    requires Initial(size, k, s)
    ensures Run(size, s, actions).Some? <==> Interleaving(size, s, actions)
  {
    if actions == [] {
    } else {
      var before, a := actions[..|actions| - 1], actions[|actions| - 1];
      NoAccessOutside(size, k, s, before);
      if Run(size, s, before).Some? {
        RunKeeps(size, k, s, before);
        StepIffInTurn(size, k, Run(size, s, before).value, a);
      }
    }
  }

  /** In every interleaving the bytes read are the first bytes written, in order. */
  lemma {:induction false} ConsumedIsPrefix(size: nat, k: nat, s: State, actions: seq<Action>)
    requires Initial(size, k, s) && Interleaving(size, s, actions)
    ensures Run(size, s, actions).Some?
    ensures Run(size, s, actions).value.consumed <= Run(size, s, actions).value.accepted
  {
    NoAccessOutside(size, k, s, actions);
    RunKeeps(size, k, s, actions);
  }

  /** One access leaves the bytes that were accepted and not yet read as they are. */
  lemma {:induction false} StepSpares(size: nat, k: nat, t: State, a: Action)
    requires Inv(size, k, t) && Step(size, t, a).Some?
    ensures var t' := Step(size, t, a).value;
            |t.buf| == size + 1 == |t'.buf|
            && forall j :: |t.consumed| <= j < |t.accepted| ==> t'.buf[Slot(j, size)] == t.buf[Slot(j, size)]
  {
    if a.PutByte? {
      PutByteAt(size, k, t, a.i);
      OtherSlots(|t.consumed|, |t.accepted| + |t.prod.data|, |t.accepted| + a.i, size);
    }
  }

  /** No step of an interleaving changes a byte that was accepted and is still to be read. */
  lemma {:induction false} NoUnreadByteOverwritten(size: nat, k: nat, s: State, actions: seq<Action>, a: Action)
    requires Initial(size, k, s) && Interleaving(size, s, actions + [a])
    ensures Run(size, s, actions).Some? && Run(size, s, actions + [a]).Some?
    ensures var t, t' := Run(size, s, actions).value, Run(size, s, actions + [a]).value;
            |t.buf| == size + 1 == |t'.buf|
            && forall j :: |t.consumed| <= j < |t.accepted| ==> t'.buf[Slot(j, size)] == t.buf[Slot(j, size)]
  {
    NoAccessOutside(size, k, s, actions + [a]);
    assert (actions + [a])[..|actions|] == actions;
    RunKeeps(size, k, s, actions);
    StepSpares(size, k, Run(size, s, actions).value, a);
  }

  /** The bytes stored: accepted and not yet consumed. */
  function Stored(s: State): seq<uint8>
    requires |s.consumed| <= |s.accepted|
  {
    s.accepted[|s.consumed|..]
  }

  /** A step seen from outside, on the bytes stored before and after it. */
  predicate QueueStep(size: nat, t: State, t': State, a: Action)
    requires |t.consumed| <= |t.accepted| && |t'.consumed| <= |t'.accepted|
  {
    match a
    case PutEnd => t.prod.Writing? && Stored(t') == Stored(t) + t.prod.data
    case GetEnd => t.cons.Reading? && Stored(t) == t.cons.got + Stored(t')
    case PutBegin(data) => Stored(t') == Stored(t) && (t'.prod.Ready? <==> |Stored(t)| + |data| > size)
    case GetBegin(n) =>
      && Stored(t') == Stored(t)
      && (t'.cons.Reading? <==> Min(n, |Stored(t)|) > 0)
      && (t'.cons.Reading? ==> |t'.cons.got| == Min(n, |Stored(t)|))
    case PutByte(_) => Stored(t') == Stored(t)
    case GetByte(_) => Stored(t') == Stored(t)
  }

  lemma {:induction false} BeginIsQueueStep(size: nat, k: nat, t: State, a: Action)
    requires Inv(size, k, t) && Step(size, t, a).Some? && (a.PutBegin? || a.GetBegin?)
    ensures QueueStep(size, t, Step(size, t, a).value, a)
  {
    CountOfSlots(|t.consumed|, |t.accepted|, size, k);
    assert |Stored(t)| == |t.accepted| - |t.consumed|;
  }

  lemma {:induction false} PutEndIsQueueStep(size: nat, t: State)
    requires t.consumed <= t.accepted && Step(size, t, PutEnd).Some?
    ensures QueueStep(size, t, Step(size, t, PutEnd).value, PutEnd)
  {
    assert (t.accepted + t.prod.data)[|t.consumed|..] == t.accepted[|t.consumed|..] + t.prod.data;
  }

  lemma {:induction false} GetEndIsQueueStep(size: nat, k: nat, t: State)
    requires Inv(size, k, t) && Step(size, t, GetEnd).Some?
    requires |Step(size, t, GetEnd).value.consumed| <= |t.accepted|
    ensures QueueStep(size, t, Step(size, t, GetEnd).value, GetEnd)
  {
    var c, n := |t.consumed|, |t.cons.got|;
    assert t.cons.got == t.accepted[c..c + n];
    assert t.accepted[c..] == t.accepted[c..c + n] + t.accepted[c + n..];
  }

  lemma {:induction false} StepIsQueueStep(size: nat, k: nat, t: State, a: Action)
    requires Inv(size, k, t) && Step(size, t, a).Some? && Inv(size, k, Step(size, t, a).value)
    ensures QueueStep(size, t, Step(size, t, a).value, a)
  {
    match a
    case PutBegin(_) => BeginIsQueueStep(size, k, t, a);
    case GetBegin(_) => BeginIsQueueStep(size, k, t, a);
    case PutEnd => PutEndIsQueueStep(size, t);
    case GetEnd => GetEndIsQueueStep(size, k, t);
    case PutByte(_) =>
    case GetByte(_) =>
  }

  /**
   In every interleaving, every step is one of a plain queue of at most `size` bytes: the end of a
   Put appends its data, the end of a Get removes the bytes it returns from the front, and the
   other steps change nothing. A Put is refused exactly when its data do not fit at its first step,
   and a Get takes what is stored at its first step, or less if it asked for less.
   */
  lemma {:induction false} RefinesQueue(size: nat, k: nat, s: State, actions: seq<Action>, a: Action)
    requires Initial(size, k, s) && Interleaving(size, s, actions + [a])
    ensures Run(size, s, actions).Some? && Run(size, s, actions + [a]).Some?
    ensures var t, t' := Run(size, s, actions).value, Run(size, s, actions + [a]).value;
            && |t.consumed| <= |t.accepted| && |t'.consumed| <= |t'.accepted|
            && |Stored(t')| <= size && QueueStep(size, t, t', a)
  {
    NoAccessOutside(size, k, s, actions + [a]);
    assert (actions + [a])[..|actions|] == actions;
    RunKeeps(size, k, s, actions);
    var t := Run(size, s, actions).value;
    StepKeeps(size, k, t, a);
    StepIsQueueStep(size, k, t, a);
  }
}
