/** One direction of a packet connection: the descriptor ring, the byte window and the
    wake-up of a sender blocked on backpressure.

    The sender is a task inside itsSendPacket (linkWaitForSpace, then linkEnqueue),
    itsWaitForSpace (linkWaitForSpace alone, for any number of bytes) or
    itsSetFreeNotify; the receiver is a task inside linkDequeue.  Every ring
    operation, atomic update, semaphore operation and flag write is one step.  The
    connection stays up for the whole run and the link is not reset.
  */
module PacketLink {
  import opened Machine
  import opened StreamBuffers

  const DESC_BYTES: nat := 8

  type word = x: int | 0 <= x < 0x1_0000_0000

  /** One queued message: its length and its payload block. */
  datatype Desc = Desc(len: word, ptr: word)

  // ---- Descriptors as ring bytes ----

  function WordBytes(w: word): (r: seq<byte>)
    ensures |r| == 4
  {
    [w % 256, w / 256 % 256, w / 65536 % 256, w / 16777216]
  }

  function BytesWord(b: seq<byte>): (w: word)
    requires |b| == 4
  {
    (b[0] as int) + 256 * (b[1] as int) + 65536 * (b[2] as int) + 16777216 * (b[3] as int)
  }

  function Encode(d: Desc): (r: seq<byte>)
    ensures |r| == DESC_BYTES
  {
    WordBytes(d.len) + WordBytes(d.ptr)
  }

  function Decode(b: seq<byte>): Desc
    requires |b| == DESC_BYTES
  {
    Desc(BytesWord(b[..4]), BytesWord(b[4..]))
  }

  lemma WordRoundTrip(w: word)
    ensures BytesWord(WordBytes(w)) == w
  {
    assert w / 65536 == w / 256 / 256 && w / 16777216 == w / 65536 / 256;
    assert w == w % 256 + 256 * (w / 256);
    assert w / 256 == w / 256 % 256 + 256 * (w / 65536);
    assert w / 65536 == w / 65536 % 256 + 256 * (w / 16777216);
  }

  lemma DescRoundTrip(d: Desc)
    ensures Decode(Encode(d)) == d
  {
    assert Encode(d)[..4] == WordBytes(d.len) && Encode(d)[4..] == WordBytes(d.ptr);
    WordRoundTrip(d.len);
    WordRoundTrip(d.ptr);
  }

  /** The ring contents that hold a queue of descriptors. */
  function Bytes(q: seq<Desc>): (r: seq<byte>)
    ensures |r| == DESC_BYTES * |q|
  {
    if q == [] then [] else Encode(q[0]) + Bytes(q[1..])
  }

  function RingCapacity(depth: nat): nat {
    Capacity((depth + 1) * DESC_BYTES)
  }

  /** A ring sized for depth + 1 records, less one byte, admits a record exactly while
      it holds fewer than depth of them. */
  lemma SlotFreeIff(depth: nat, q: seq<Desc>)
    requires |q| <= depth
    ensures SpacesAvailable(RingCapacity(depth), Bytes(q)) >= DESC_BYTES <==> |q| < depth
  {
  }

  lemma {:induction false} BytesAppend(q: seq<Desc>, d: Desc)
    ensures Bytes(q + [d]) == Bytes(q) + Encode(d)
  {
    if q == [] {
      assert q + [d] == [d] && Bytes([d]) == Encode(d) + Bytes([]);
    } else {
      assert (q + [d])[1..] == q[1..] + [d];
      BytesAppend(q[1..], d);
    }
  }

  /** A send into a ring with a free slot queues the whole descriptor. */
  lemma SendQueues(depth: nat, q: seq<Desc>, d: Desc)
    requires |q| < depth
    ensures Send(RingCapacity(depth), Bytes(q), Encode(d)) == (Bytes(q + [d]), DESC_BYTES)
  {
    SlotFreeIff(depth, q);
    BytesAppend(q, d);
    assert Encode(d)[..DESC_BYTES] == Encode(d);
  }

  /** A receive from a non-empty ring takes exactly the oldest descriptor. */
  lemma ReceiveDequeues(q: seq<Desc>)
    requires q != []
    ensures var r := Receive(Bytes(q), DESC_BYTES);
            |r.1| == DESC_BYTES && Decode(r.1) == q[0] && r.0 == Bytes(q[1..])
  {
    assert Bytes(q)[..DESC_BYTES] == Encode(q[0]) && Bytes(q)[DESC_BYTES..] == Bytes(q[1..]);
    DescRoundTrip(q[0]);
  }

  // ---- The machine ----

  /** Where the sending task stands.  `d` is the message it wants to send; a task that only
      waits for space has a length there and no payload. */
  datatype SenderPc =
    | SIdle
    | FirstSlot(d: Desc)        // first linkCanSend: read the ring
    | FirstWindow(d: Desc)      //                    read outstanding
    | Refused(d: Desc)          // not admitted at once: return if the timeout is 0
    | Drain(d: Desc)            // loop head: clear a stale signal
    | Arm(d: Desc)              // freeNotify = len
    | CheckSlot(d: Desc)        // linkCanSend after arming
    | CheckWindow(d: Desc)
    | Park(d: Desc)             // blocked on spaceFreedSem
    | WokenSlot(d: Desc)        // linkCanSend after a wake-up
    | WokenWindow(d: Desc)
    | Retry(d: Desc)            // not admitted: time out or go round again
    | Disarm(d: Desc, ok: bool) // freeNotify = 0 on the way out
    | Charge(d: Desc)           // admitted: a wait returns, a send goes on to charge the window
    | Enqueue(d: Desc)          // charged, descriptor not yet in the ring
    | NotifyDrain(k: nat)       // itsSetFreeNotify: clear a stale signal
    | NotifyArm(k: nat)         //                   freeNotify = k
    | NotifySlot(k: nat)        //                   linkSendSpace: read the ring
    | NotifyWindow(k: nat)      //                                  read outstanding
    | NotifyClear               //                   threshold met: freeNotify = 0
    | NotifyGive                //                   ... and signal ourselves

  datatype ReceiverPc =
    | RIdle
    | Ready                     // a whole descriptor is available
    | Credit(d: Desc)           // dequeued, window not yet credited
    | Wake(d: Desc)             // credited, sender not yet signalled

  datatype State = State(
    depth: nat,
    byteCap: nat,
    maxMsg: nat,
    ring: seq<byte>,
    outstanding: int,
    freeNotify: nat,
    sem: bool,                  // spaceFreedSem, binary
    sender: SenderPc,
    waits: bool,                // the sender is inside itsWaitForSpace and will send nothing
    receiver: ReceiverPc,
    sent: seq<Desc>,            // history: descriptors whose send completed
    received: seq<Desc>)        // history: descriptors dequeued

  predicate SlotFree(s: State) {
    SpacesAvailable(RingCapacity(s.depth), s.ring) >= DESC_BYTES
  }

  /** The byte window admits `len`, by a 32-bit addition. */
  predicate WindowAdmits(s: State, len: nat) {
    s.outstanding == 0 || Low32(s.outstanding + len) <= s.byteCap
  }

  /** linkCanSend, were it evaluated in one step. */
  predicate CanSend(s: State, len: nat) {
    SlotFree(s) && WindowAdmits(s, len)
  }

  /** linkSendSpace, were it evaluated in one step. */
  function SendSpace(s: State): int {
    if SlotFree(s) then OpenWindow(s) else 0
  }

  function OpenWindow(s: State): int {
    if s.outstanding == 0 then s.maxMsg
    else if s.outstanding < s.byteCap then s.byteCap - s.outstanding
    else 0
  }

  datatype Action =
    | BeginSend(d: Desc)
    | BeginWait(len: word)      // itsWaitForSpace, for any number of bytes
    | BeginNotify(k: nat)
    | SenderStep
    | WaitExpires               // the take on spaceFreedSem times out
    | GiveUp                    // no time left
    | NoMemory                  // payAlloc failed after admission
    | ReceiverStep

  predicate Enabled(s: State, a: Action) {
    match a
    case BeginSend(d) => s.sender.SIdle? && 0 < d.len <= s.maxMsg
    case BeginWait(len) => s.sender.SIdle? && 0 < len
    case BeginNotify(_) => s.sender.SIdle?
    case SenderStep =>
      && !s.sender.SIdle?
      && (s.sender.Park? ==> s.sem)
    case WaitExpires => s.sender.Park? && !s.sem
    case GiveUp => s.sender.Refused? || s.sender.Retry?
    case NoMemory => s.sender.Charge? && !s.waits
    case ReceiverStep => s.receiver.RIdle? ==> |s.ring| >= DESC_BYTES
  }

  function Do(s: State, a: Action): State
    requires Enabled(s, a)
  {
    match a
    case BeginSend(d) => s.(sender := FirstSlot(d), waits := false)
    case BeginWait(len) => s.(sender := FirstSlot(Desc(len, 0)), waits := true)
    case BeginNotify(k) => s.(sender := NotifyDrain(k))
    case SenderStep => DoSender(s)
    case WaitExpires => s.(sender := Retry(s.sender.d))
    case GiveUp => if s.sender.Refused? then s.(sender := SIdle) else s.(sender := Disarm(s.sender.d, false))
    case NoMemory => s.(sender := SIdle)
    case ReceiverStep => DoReceiver(s)
  }

  function DoSender(s: State): State
    requires Enabled(s, SenderStep)
  {
    match s.sender
    case FirstSlot(d) => s.(sender := if SlotFree(s) then FirstWindow(d) else Refused(d))
    case FirstWindow(d) => s.(sender := if WindowAdmits(s, d.len) then Charge(d) else Refused(d))
    case Refused(d) => s.(sender := Drain(d))
    case Drain(d) => s.(sem := false, sender := Arm(d))
    case Arm(d) => s.(freeNotify := d.len, sender := CheckSlot(d))
    case CheckSlot(d) => s.(sender := if SlotFree(s) then CheckWindow(d) else Park(d))
    case CheckWindow(d) => s.(sender := if WindowAdmits(s, d.len) then Disarm(d, true) else Park(d))
    case Park(d) => s.(sem := false, sender := WokenSlot(d))
    case WokenSlot(d) => s.(sender := if SlotFree(s) then WokenWindow(d) else Retry(d))
    case WokenWindow(d) => s.(sender := if WindowAdmits(s, d.len) then Disarm(d, true) else Retry(d))
    case Retry(d) => s.(sender := Drain(d))
    case Disarm(d, ok) => s.(freeNotify := 0, sender := if ok then Charge(d) else SIdle)
    case Charge(d) =>
      if s.waits then s.(sender := SIdle) else s.(outstanding := s.outstanding + d.len, sender := Enqueue(d))
    case Enqueue(d) =>
      var r := Send(RingCapacity(s.depth), s.ring, Encode(d));
      s.(ring := r.0, sent := if r.1 == DESC_BYTES then s.sent + [d] else s.sent, sender := SIdle)
    case NotifyDrain(k) => s.(sem := false, sender := NotifyArm(k))
    case NotifyArm(k) => s.(freeNotify := k, sender := if k > 0 then NotifySlot(k) else SIdle)
    case NotifySlot(k) => s.(sender := if SlotFree(s) then NotifyWindow(k) else SIdle)
    case NotifyWindow(k) =>
      s.(sender := if OpenWindow(s) >= k then NotifyClear else SIdle)
    case NotifyClear => s.(freeNotify := 0, sender := NotifyGive)
    case NotifyGive => s.(sem := true, sender := SIdle)
  }

  function DoReceiver(s: State): State
    requires Enabled(s, ReceiverStep)
  {
    match s.receiver
    case RIdle => s.(receiver := Ready)
    case Ready =>
      var r := Receive(s.ring, DESC_BYTES);
      if |r.1| == DESC_BYTES then
        s.(ring := r.0, received := s.received + [Decode(r.1)], receiver := Credit(Decode(r.1)))
      else s.(ring := r.0, receiver := RIdle)
    case Credit(d) => s.(outstanding := s.outstanding - d.len, receiver := Wake(d))
    case Wake(_) => s.(sem := true, receiver := RIdle)
  }

  /** Links are set up for less than 2 GB, so a send's 32-bit additions do not wrap. */
  const LINK_LIMIT: nat := 0x8000_0000

  predicate Init(s: State) {
    && s.depth >= 1 && s.byteCap < LINK_LIMIT && s.maxMsg < LINK_LIMIT
    && s.ring == [] && s.outstanding == 0 && s.freeNotify == 0 && !s.sem
    && s.sender == SIdle && !s.waits && s.receiver == RIdle
    && s.sent == [] && s.received == []
  }

  ghost predicate Next(s: State, s': State) {
    exists a :: Enabled(s, a) && s' == Do(s, a)
  }

  ghost predicate StepAt(run: seq<State>, i: nat)
    requires i + 1 < |run|
  {
    Next(run[i], run[i + 1])
  }

  ghost predicate IsRun(run: seq<State>) {
    && |run| > 0 && Init(run[0])
    && forall i :: 0 <= i < |run| - 1 ==> StepAt(run, i)
  }

  // ---- The inductive invariant ----

  function SumLen(q: seq<Desc>): (r: nat)
    ensures |q| == 0 ==> r == 0
  {
    if q == [] then 0 else q[0].len + SumLen(q[1..])
  }

  lemma {:induction false} SumAppend(q: seq<Desc>, d: Desc)
    ensures SumLen(q + [d]) == SumLen(q) + d.len
  {
    if q == [] {
      assert q + [d] == [d];
    } else {
      assert (q + [d])[1..] == q[1..] + [d];
      SumAppend(q[1..], d);
    }
  }

  lemma {:induction false} SumPositive(q: seq<Desc>)
    requires forall i :: 0 <= i < |q| ==> q[i].len > 0
    ensures SumLen(q) >= |q|
  {
    if q == [] {
    } else {
      SumPositive(q[1..]);
    }
  }

  /** The messages in the ring: sent but not yet dequeued. */
  function Queued(s: State): seq<Desc>
    requires |s.received| <= |s.sent|
  {
    s.sent[|s.received|..]
  }

  /** Charged to the window but not yet in the ring. */
  function Entering(s: State): nat { if s.sender.Enqueue? then s.sender.d.len else 0 }

  /** Taken out of the ring but not yet credited to the window. */
  function Leaving(s: State): nat { if s.receiver.Credit? then s.receiver.d.len else 0 }

  /** Messages the window is charged for. */
  function Messages(s: State): nat
    requires |s.received| <= |s.sent|
  {
    |Queued(s)| + (if s.sender.Enqueue? then 1 else 0) + (if s.receiver.Credit? then 1 else 0)
  }

  predicate HasMessage(pc: SenderPc) {
    !(pc.SIdle? || pc.NotifyDrain? || pc.NotifyArm? || pc.NotifySlot? || pc.NotifyWindow? || pc.NotifyClear? || pc.NotifyGive?)
  }

  predicate SlotSeen(pc: SenderPc) {
    pc.FirstWindow? || pc.CheckWindow? || pc.WokenWindow? || pc.Charge? || pc.Enqueue? || (pc.Disarm? && pc.ok)
  }

  predicate Admitted(pc: SenderPc) { pc.Charge? || (pc.Disarm? && pc.ok) }

  ghost predicate RingOk(s: State) {
    && s.depth >= 1 && s.byteCap < LINK_LIMIT && s.maxMsg < LINK_LIMIT
    && s.received <= s.sent
    && s.ring == Bytes(Queued(s)) && |Queued(s)| <= s.depth
    && (s.receiver.Ready? ==> Queued(s) != [])
    && (SlotSeen(s.sender) ==> |Queued(s)| < s.depth)
    && (forall i :: 0 <= i < |s.sent| ==> 0 < s.sent[i].len <= s.maxMsg)
    && (HasMessage(s.sender) ==> 0 < s.sender.d.len && (s.waits || s.sender.d.len <= s.maxMsg))
    && (s.sender.Enqueue? ==> !s.waits)
    && (s.receiver.Credit? ==> 0 < s.receiver.d.len <= s.maxMsg)
  }

  ghost predicate WindowOk(s: State)
    requires s.received <= s.sent
  {
    && s.outstanding == SumLen(Queued(s)) + Entering(s) + Leaving(s)
    && (Admitted(s.sender) && !s.waits ==> WindowAdmits(s, s.sender.d.len))
    && (s.outstanding > s.byteCap ==> Messages(s) == 1)
  }

  /** A parked sender whose message would be admitted now has a token, or the receiver
      is on its way to give one. */
  ghost predicate WakeOk(s: State) {
    s.sender.Park? && CanSend(s, s.sender.d.len) ==> s.sem || s.receiver.Credit? || s.receiver.Wake?
  }

  ghost predicate Inv(s: State) {
    RingOk(s) && WindowOk(s) && WakeOk(s)
  }

  lemma EnqueueKeeps(s: State)
    requires Inv(s) && s.sender.Enqueue?
    ensures Inv(Do(s, SenderStep))
  {
    EnqueueIs(s);
    EnqueuedRing(s, Do(s, SenderStep));
    EnqueuedWindow(s, Do(s, SenderStep));
  }

  lemma EnqueueIs(s: State)
    requires RingOk(s) && s.sender.Enqueue?
    ensures Do(s, SenderStep) ==
            s.(ring := Bytes(Queued(s) + [s.sender.d]), sent := s.sent + [s.sender.d], sender := SIdle)
  {
    SendQueues(s.depth, Queued(s), s.sender.d);
  }

  lemma EnqueuedRing(s: State, s': State)
    requires RingOk(s) && s.sender.Enqueue?
    requires s' == s.(ring := Bytes(Queued(s) + [s.sender.d]), sent := s.sent + [s.sender.d], sender := SIdle)
    ensures RingOk(s') && Queued(s') == Queued(s) + [s.sender.d]
  {
    assert s'.sent[|s.received|..] == s.sent[|s.received|..] + [s.sender.d];
    assert Queued(s') == Queued(s) + [s.sender.d];
  }

  lemma EnqueuedWindow(s: State, s': State)
    requires RingOk(s) && WindowOk(s) && s.sender.Enqueue? && s'.received <= s'.sent
    requires s' == s.(ring := s'.ring, sent := s'.sent, sender := SIdle) && Queued(s') == Queued(s) + [s.sender.d]
    ensures WindowOk(s') && WakeOk(s')
  {
    SumAppend(Queued(s), s.sender.d);
  }

  /** A sender step that enqueues nothing leaves the ring alone; it claims a slot or a
      window only after reading them, parks only after finding that it cannot send, and
      changes the window only when it charges it. */
  lemma SenderEffect(s: State)
    requires Enabled(s, SenderStep) && !s.sender.Enqueue?
    ensures Effect(s, Do(s, SenderStep))
  {
    if !HasMessage(s.sender) {
      NotifyEffect(s);
    } else if s.sender.Disarm? || s.sender.Charge? || s.sender.Park? || s.sender.Retry? || s.sender.Drain? || s.sender.Arm? {
      TurnEffect(s);
    } else {
      CheckEffect(s);
    }
  }

  lemma NotifyEffect(s: State)
    requires Enabled(s, SenderStep) && !HasMessage(s.sender)
    ensures Effect(s, Do(s, SenderStep))
  {
  }

  lemma TurnEffect(s: State)
    requires Enabled(s, SenderStep)
    requires s.sender.Disarm? || s.sender.Charge? || s.sender.Park? || s.sender.Retry? || s.sender.Drain? || s.sender.Arm?
    ensures Effect(s, Do(s, SenderStep))
  {
  }

  lemma CheckEffect(s: State)
    requires Enabled(s, SenderStep) && HasMessage(s.sender) && !s.sender.Enqueue?
    requires !(s.sender.Disarm? || s.sender.Charge? || s.sender.Park? || s.sender.Retry? || s.sender.Drain? || s.sender.Arm?)
    ensures Effect(s, Do(s, SenderStep))
  {
  }

  ghost predicate Effect(s: State, s': State) {
    && s' == s.(sender := s'.sender, sem := s'.sem, freeNotify := s'.freeNotify, outstanding := s'.outstanding)
    && (HasMessage(s'.sender) ==> HasMessage(s.sender) && s'.sender.d == s.sender.d)
    && (SlotSeen(s'.sender) ==> SlotSeen(s.sender) || SlotFree(s))
    && (Admitted(s'.sender) ==> Admitted(s.sender) || WindowAdmits(s, s.sender.d.len))
    && (s'.sender.Park? ==> s' == s.(sender := s'.sender) && !CanSend(s, s.sender.d.len))
    && (s'.sender.Enqueue? <==> s.sender.Charge? && !s.waits)
    && s'.outstanding == s.outstanding + (if s.sender.Charge? && !s.waits then s.sender.d.len else 0)
  }

  lemma SenderKeepsRing(s: State)
    requires RingOk(s) && Enabled(s, SenderStep) && !s.sender.Enqueue?
    ensures RingOk(Do(s, SenderStep))
  {
    SenderEffect(s);
    SlotFreeIff(s.depth, Queued(s));
  }

  lemma SenderKeepsWindow(s: State)
    requires RingOk(s) && WindowOk(s) && Enabled(s, SenderStep) && !s.sender.Enqueue?
    ensures Do(s, SenderStep).received <= Do(s, SenderStep).sent && WindowOk(Do(s, SenderStep))
  {
    SenderEffect(s);
    SumPositive(Queued(s));
    WindowBound(s);
  }

  /** The window is overdrawn by a lone message only, so never past the message guard. */
  lemma WindowBound(s: State)
    requires RingOk(s) && WindowOk(s)
    ensures s.outstanding <= s.byteCap || s.outstanding <= s.maxMsg
    ensures 0 <= s.outstanding < LINK_LIMIT
  {
    var q := Queued(s);
    if |q| == 1 { assert SumLen(q) == q[0].len + SumLen(q[1..]) && q[0] == s.sent[|s.received|]; }
  }

  lemma SenderKeepsWake(s: State)
    requires WakeOk(s) && Enabled(s, SenderStep) && !s.sender.Enqueue?
    ensures WakeOk(Do(s, SenderStep))
  {
    SenderEffect(s);
  }

  lemma ReceiverKeepsRing(s: State)
    requires RingOk(s) && Enabled(s, ReceiverStep)
    ensures RingOk(Do(s, ReceiverStep))
    ensures s.receiver.Ready? ==> Queued(s) != [] && Do(s, ReceiverStep).receiver == Credit(Queued(s)[0])
    ensures var s' := Do(s, ReceiverStep);
            Queued(s') == if s.receiver.Ready? then Queued(s)[1..] else Queued(s)
  {
    if s.receiver.Ready? {
      ReceiveDequeues(Queued(s));
      assert Queued(s)[0] == s.sent[|s.received|];
      assert Queued(Do(s, ReceiverStep)) == Queued(s)[1..];
    }
  }

  lemma ReceiverKeepsWindow(s: State)
    requires RingOk(s) && WindowOk(s) && Enabled(s, ReceiverStep)
    ensures Do(s, ReceiverStep).received <= Do(s, ReceiverStep).sent && WindowOk(Do(s, ReceiverStep))
  {
    if s.receiver.Ready? { DequeueKeepsWindow(s); } else if s.receiver.Credit? { CreditKeepsWindow(s); }
  }

  lemma CreditKeepsWindow(s: State)
    requires RingOk(s) && WindowOk(s) && s.receiver.Credit?
    ensures Do(s, ReceiverStep).received <= Do(s, ReceiverStep).sent && WindowOk(Do(s, ReceiverStep))
  {
    var s' := Do(s, ReceiverStep);
    SumPositive(Queued(s));
    WindowBound(s);
    assert Queued(s') == Queued(s);
  }

  lemma DequeueKeepsWindow(s: State)
    requires RingOk(s) && WindowOk(s) && s.receiver.Ready?
    ensures Do(s, ReceiverStep).received <= Do(s, ReceiverStep).sent && WindowOk(Do(s, ReceiverStep))
  {
    ReceiverKeepsRing(s);
    SumPositive(Queued(s));
  }

  lemma ReceiverKeepsWake(s: State)
    requires WakeOk(s) && Enabled(s, ReceiverStep) && (s.receiver.Ready? ==> |s.ring| >= DESC_BYTES)
    ensures WakeOk(Do(s, ReceiverStep))
  {
  }

  /** Starting, timing out and giving up touch nothing but the sender's own place. */
  lemma OtherKeeps(s: State, a: Action)
    requires Inv(s) && Enabled(s, a) && !a.SenderStep? && !a.ReceiverStep?
    ensures Inv(Do(s, a))
  {
    var s' := Do(s, a);
    assert s' == s.(sender := s'.sender, waits := s'.waits) && !SlotSeen(s'.sender) && !s'.sender.Park?;
    assert HasMessage(s'.sender) ==> 0 < s'.sender.d.len && (s'.waits || s'.sender.d.len <= s.maxMsg);
  }

  lemma StepInv(s: State, a: Action)
    requires Inv(s) && Enabled(s, a)
    ensures Inv(Do(s, a))
  {
    match a
    case SenderStep =>
      if s.sender.Enqueue? {
        EnqueueKeeps(s);
      } else {
        SenderKeepsRing(s);
        SenderKeepsWindow(s);
        SenderKeepsWake(s);
      }
    case ReceiverStep =>
      ReceiverKeepsRing(s);
      ReceiverKeepsWindow(s);
      ReceiverKeepsWake(s);
    case _ => OtherKeeps(s, a);
  }

  lemma NextInv(s: State, s': State)
    requires Inv(s) && Next(s, s')
    ensures Inv(s')
  {
    var a :| Enabled(s, a) && s' == Do(s, a);
    StepInv(s, a);
  }

  lemma {:induction false} RunInv(run: seq<State>, i: nat)
    requires IsRun(run) && i < |run|
    ensures Inv(run[i])
  {
    if i == 0 {
    } else {
      RunInv(run, i - 1);
      assert StepAt(run, i - 1);
      NextInv(run[i - 1], run[i]);
    }
  }

  // ---- What a run guarantees ----

  /** The window counts exactly the bytes in the ring, those charged but not yet in it,
      and those out of it but not yet credited.  So it never underflows. */
  lemma WindowIsExact(run: seq<State>, i: nat)
    requires IsRun(run) && i < |run|
    ensures run[i].received <= run[i].sent
    ensures run[i].outstanding == SumLen(Queued(run[i])) + Entering(run[i]) + Leaving(run[i])
    ensures run[i].outstanding >= 0
  {
    RunInv(run, i);
  }

  /** The window is overdrawn only by a lone message, and never past the message guard. */
  lemma WindowIsBounded(run: seq<State>, i: nat)
    requires IsRun(run) && i < |run|
    ensures run[i].received <= run[i].sent
    ensures run[i].outstanding > run[i].byteCap ==> Messages(run[i]) == 1
    ensures run[i].outstanding <= run[i].byteCap || run[i].outstanding <= run[i].maxMsg
  {
    RunInv(run, i);
    WindowBound(run[i]);
  }

  /** The ring is a queue of at most depth whole descriptors: they come out in the order
      they went in, and the send in linkEnqueue always takes the whole descriptor. */
  lemma RingIsFifo(run: seq<State>, i: nat)
    requires IsRun(run) && i < |run|
    ensures var s := run[i];
            && s.received <= s.sent
            && |s.sent| - |s.received| <= s.depth
            && s.ring == Bytes(s.sent[|s.received|..])
            && (s.sender.Enqueue? ==> Send(RingCapacity(s.depth), s.ring, Encode(s.sender.d)).1 == DESC_BYTES)
  {
    RunInv(run, i);
    if run[i].sender.Enqueue? { SendQueues(run[i].depth, Queued(run[i]), run[i].sender.d); }
  }

  /** No lost wake-up, for a send or a wait of any size, whatever itsSetFreeNotify armed
      before. */
  lemma ParkedSenderWillWake(run: seq<State>, i: nat)
    requires IsRun(run) && i < |run|
    requires run[i].sender.Park? && CanSend(run[i], run[i].sender.d.len)
    ensures run[i].sem || run[i].receiver.Credit? || run[i].receiver.Wake?
  {
    RunInv(run, i);
  }

  /** A drained link never leaves its sender asleep: with the ring empty and the
      receiver done, a parked sender has its token, whatever it sends or waits for. */
  lemma DrainedLinkWakesSender(run: seq<State>, i: nat)
    requires IsRun(run) && i < |run|
    requires run[i].sender.Park? && run[i].ring == [] && (run[i].receiver.RIdle? || run[i].receiver.Ready?)
    ensures run[i].sem
  {
    RunInv(run, i);
    SlotFreeIff(run[i].depth, Queued(run[i]));
  }

  // ---- The space a sender is told about ----

  /** itsSend with timeout 0 takes a message of this length. */
  predicate Accepts(s: State, len: nat) { 0 < len <= s.maxMsg && CanSend(s, len) }

  /** The reported space admits exactly what a non-blocking send accepts, but for the lengths
      above the message guard that fit the open window of a link that is not idle. */
  lemma SendSpaceIsExact(run: seq<State>, i: nat, len: word)
    requires IsRun(run) && i < |run| && len > 0
    ensures var s := run[i];
            (SendSpace(s) >= len <==> Accepts(s, len)) <==>
            !(len > s.maxMsg && SlotFree(s) && 0 < s.outstanding && s.outstanding + len <= s.byteCap)
    ensures Accepts(run[i], len) ==> SendSpace(run[i]) >= len
  {
    RunInv(run, i);
    WindowBound(run[i]);
  }

  /** Every run of a link set up like this reports exact space at every point. */
  ghost predicate ReportsExactly(depth: nat, byteCap: nat, maxMsg: nat) {
    forall run, i, len: word ::
      IsRun(run) && IsLink(run[0], depth, byteCap, maxMsg) && 0 <= i < |run| && len > 0 ==>
        (SendSpace(run[i]) >= len <==> Accepts(run[i], len))
  }

  predicate IsLink(s: State, depth: nat, byteCap: nat, maxMsg: nat) {
    s.depth == depth && s.byteCap == byteCap && s.maxMsg == maxMsg
  }

  lemma {:induction false} SetUpStays(run: seq<State>, i: nat)
    requires IsRun(run) && i < |run|
    ensures IsLink(run[i], run[0].depth, run[0].byteCap, run[0].maxMsg)
  {
    if i == 0 {
    } else {
      SetUpStays(run, i - 1);
      assert StepAt(run, i - 1);
      var a :| Enabled(run[i - 1], a) && run[i] == Do(run[i - 1], a);
      StepKeepsSetUp(run[i - 1], a);
    }
  }

  lemma StepKeepsSetUp(s: State, a: Action)
    requires Enabled(s, a)
    ensures IsLink(Do(s, a), s.depth, s.byteCap, s.maxMsg)
  {
    if a.SenderStep? && !s.sender.Enqueue? { SenderEffect(s); }
  }

  /** When a link is set up it can be told whether its reports will be exact: if and only if
      the window is at most one byte wider than the message guard, or nothing can be sent. */
  lemma ExactIffWindowFits(depth: nat, byteCap: nat, maxMsg: nat)
    requires depth >= 1 && byteCap < LINK_LIMIT && maxMsg < LINK_LIMIT
    ensures ReportsExactly(depth, byteCap, maxMsg) <==> byteCap <= maxMsg + 1 || maxMsg == 0
  {
    if byteCap <= maxMsg + 1 || maxMsg == 0 {
      forall run, i, len: word
        | IsRun(run) && IsLink(run[0], depth, byteCap, maxMsg) && 0 <= i < |run| && len > 0
        ensures SendSpace(run[i]) >= len <==> Accepts(run[i], len)
      {
        SendSpaceIsExact(run, i, len);
        SetUpStays(run, i);
        if maxMsg == 0 { IdleForGood(run, i); }
      }
    } else {
      var run := OneTaken(depth, byteCap, maxMsg, 1);
      assert SendSpace(run[|run| - 1]) >= maxMsg + 1 && !Accepts(run[|run| - 1], maxMsg + 1);
    }
  }

  /** A link that admits no message never has any bytes outstanding. */
  lemma IdleForGood(run: seq<State>, i: nat)
    requires IsRun(run) && i < |run| && run[0].maxMsg == 0
    ensures run[i].outstanding == 0
  {
    RunInv(run, i);
    SetUpStays(run, i);
    WindowBound(run[i]);
    NothingSent(run[i]);
  }

  lemma SentWithinGuard(s: State, i: nat)
    requires RingOk(s) && i < |s.sent|
    ensures s.maxMsg > 0
  {
    assert s.sent[i].len > 0;
  }

  lemma NothingSent(s: State)
    requires RingOk(s) && WindowOk(s) && s.maxMsg == 0
    ensures s.outstanding == 0
  {
    if |s.sent| > 0 { SentWithinGuard(s, 0); }
    assert Queued(s) == [];
  }

  lemma Extended(run: seq<State>, a: Action) returns (run': seq<State>)
    requires IsRun(run) && Enabled(run[|run| - 1], a)
    ensures run' == run + [Do(run[|run| - 1], a)] && IsRun(run')
  {
    run' := run + [Do(run[|run| - 1], a)];
    forall i | 0 <= i < |run'| - 1 ensures StepAt(run', i) {
      if i < |run| - 1 {
        assert StepAt(run, i);
      } else {
        assert Enabled(run'[i], a) && run'[i + 1] == Do(run'[i], a);
      }
    }
  }

  /** A message of n bytes is sent. */
  lemma OneSent(depth: nat, byteCap: nat, maxMsg: nat, n: word) returns (run: seq<State>)
    requires depth >= 1 && byteCap < LINK_LIMIT && maxMsg < LINK_LIMIT && 0 < n <= maxMsg
    ensures IsRun(run) && IsLink(run[0], depth, byteCap, maxMsg)
    ensures run[|run| - 1] ==
            State(depth, byteCap, maxMsg, Bytes([Desc(n, 0)]), n, 0, false, SIdle, false, RIdle, [Desc(n, 0)], [])
  {
    var d := Desc(n, 0);
    run := OneAdmitted(Fresh(depth, byteCap, maxMsg), d);
    run := Extended(run, SenderStep);
    assert run[|run| - 1] == Fresh(depth, byteCap, maxMsg).(sender := Enqueue(d), outstanding := n);
    SendQueues(depth, [], d);
    assert [] + [d] == [d] && Bytes([]) == [];
    run := Extended(run, SenderStep);
  }

  /** A link just set up. */
  function Fresh(depth: nat, byteCap: nat, maxMsg: nat): State {
    State(depth, byteCap, maxMsg, [], 0, 0, false, SIdle, false, RIdle, [], [])
  }

  lemma OneAdmitted(s: State, d: Desc) returns (run: seq<State>)
    requires Init(s) && 0 < d.len <= s.maxMsg
    ensures IsRun(run) && run[0] == s && run[|run| - 1] == s.(sender := Charge(d), waits := false)
  {
    SlotFreeIff(s.depth, []);
    run := [s];
    run := Extended(run, BeginSend(d));
    assert run[|run| - 1] == s.(sender := FirstSlot(d), waits := false);
    run := Extended(run, SenderStep);
    assert run[|run| - 1] == s.(sender := FirstWindow(d), waits := false);
    run := Extended(run, SenderStep);
  }

  /** And taken out of the ring, but not credited yet. */
  lemma OneTaken(depth: nat, byteCap: nat, maxMsg: nat, n: word) returns (run: seq<State>)
    requires depth >= 1 && byteCap < LINK_LIMIT && maxMsg < LINK_LIMIT && 0 < n <= maxMsg
    ensures IsRun(run) && IsLink(run[0], depth, byteCap, maxMsg)
    ensures run[|run| - 1].outstanding == n && SlotFree(run[|run| - 1])
    ensures IsLink(run[|run| - 1], depth, byteCap, maxMsg)
  {
    run := OneSent(depth, byteCap, maxMsg, n);
    ReceiveDequeues([Desc(n, 0)]);
    SlotFreeIff(depth, []);
    run := Extended(run, ReceiverStep);
    run := Extended(run, ReceiverStep);
    assert [Desc(n, 0)][1..] == [];
  }

  /** For instance: an 8 KB window, a guard of 100 bytes and 10 bytes outstanding.  The space
      reported is 8182 bytes, and a message of 2000 is refused. */
  lemma ReportsTooMuch() returns (run: seq<State>)
    ensures IsRun(run) && IsLink(run[0], 4, 8192, 100)
    ensures SendSpace(run[|run| - 1]) == 8182 && !Accepts(run[|run| - 1], 2000)
  {
    run := OneTaken(4, 8192, 100, 10);
  }

  /** What a successful wait for space says about the space there is: as much as was waited
      for, if and only if the link is not idle or that is within the message guard, and the
      32-bit addition did not wrap. */
  lemma WaitMeansSpace(run: seq<State>, i: nat, len: word)
    requires IsRun(run) && i < |run| && len > 0 && CanSend(run[i], len)
    ensures var s := run[i];
            SendSpace(s) >= len <==> if s.outstanding == 0 then len <= s.maxMsg else s.outstanding + len < U32
  {
    RunInv(run, i);
    WindowBound(run[i]);
  }

  /** An idle link lets any wait through, also for more than it could ever take. */
  lemma IdleLinkEndsAnyWait(s: State, len: word)
    requires Init(s)
    ensures CanSend(s, len) && SendSpace(s) == s.maxMsg
  {
    SlotFreeIff(s.depth, []);
  }
}
