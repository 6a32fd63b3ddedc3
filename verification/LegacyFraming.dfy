/** Legacy packets: whole messages framed inside a stream buffer by a 4-byte header.

    The writer puts the header and the body in with two separate sends, and the reader
    takes them out with separate receives, so the other side can run in between.  Each
    send and each receive is one step.
  */
module LegacyFraming {
  import opened StreamBuffers

  const HEADER: nat := 4
  const MAX_BODY: nat := 0xFFFFFF
  const SCRATCH: nat := 64

  type Body = seq<byte>

  function Header(len: nat): (r: seq<byte>)
    ensures |r| == HEADER
  {
    [0, len / 65536 % 256, len / 256 % 256, len % 256]
  }

  function BodyLen(hdr: seq<byte>): (n: nat)
    requires |hdr| == HEADER
  {
    65536 * (hdr[1] as int) + 256 * (hdr[2] as int) + (hdr[3] as int)
  }

  lemma HeaderRoundTrip(len: nat)
    requires len <= MAX_BODY
    ensures BodyLen(Header(len)) == len
  {
    assert len / 65536 == len / 256 / 256;
    assert len == len % 256 + 256 * (len / 256);
    assert len / 256 == len / 256 % 256 + 256 * (len / 65536);
  }

  datatype SenderPc =
    | SIdle
    | SendHeader(body: Body)    // room for the whole packet was seen
    | SendBody(body: Body)      // header is in the buffer

  datatype ReceiverPc =
    | RIdle
    | WaitPacket(max: nat)      // inside itsRecv with a buffer of max bytes
    | TakeBody(len: nat, max: nat)
    | Discard(len: nat, left: nat, max: nat)

  datatype Outcome =
    | Delivered(body: Body, max: nat)
    | Dropped(len: nat, max: nat)

  datatype State = State(
    size: nat,                  // the pool entry's size
    q: seq<byte>,
    sender: SenderPc,
    receiver: ReceiverPc,
    sent: seq<Body>,            // history: bodies whose send completed
    outcomes: seq<Outcome>,     // history: what itsRecv did, in order
    broken: bool)               // history: some send or receive came up short

  /** What itsSend requires of a packet before it waits for room. */
  predicate GuardAccepts(size: nat, body: Body) {
    0 < |body| <= MAX_BODY && HEADER + |body| <= size
  }

  datatype Action =
    | Admit(body: Body)         // itsWaitForSpace saw room for the whole packet
    | SenderStep
    | Recv(max: nat)
    | ReceiverStep
    | RecvTimesOut

  predicate Enabled(s: State, a: Action) {
    match a
    case Admit(body) =>
      s.sender.SIdle? && GuardAccepts(s.size, body) && SpacesAvailable(Capacity(s.size), s.q) >= HEADER + |body|
    case SenderStep => !s.sender.SIdle?
    case Recv(_) => s.receiver.RIdle?
    case ReceiverStep => !s.receiver.RIdle? && (s.receiver.WaitPacket? ==> |s.q| > HEADER)
    case RecvTimesOut => s.receiver.WaitPacket? && |s.q| <= HEADER
  }

  function Do(s: State, a: Action): State
    requires Enabled(s, a)
  {
    match a
    case Admit(body) => s.(sender := SendHeader(body))
    case SenderStep => DoSender(s)
    case Recv(max) => s.(receiver := WaitPacket(max))
    case ReceiverStep => DoReceiver(s)
    case RecvTimesOut => s.(receiver := RIdle)
  }

  function DoSender(s: State): State
    requires Enabled(s, SenderStep)
  {
    var body := s.sender.body;
    if s.sender.SendHeader? then
      var r := Send(Capacity(s.size), s.q, Header(|body|));
      if r.1 == HEADER then s.(q := r.0, sender := SendBody(body))
      else s.(q := r.0, sender := SIdle, broken := true)
    else
      var r := Send(Capacity(s.size), s.q, body);
      if r.1 == |body| then s.(q := r.0, sender := SIdle, sent := s.sent + [body])
      else s.(q := r.0, sender := SIdle, broken := true)
  }

  function DoReceiver(s: State): State
    requires Enabled(s, ReceiverStep)
  {
    match s.receiver
    case WaitPacket(max) =>
      var r := Receive(s.q, HEADER);
      if |r.1| == HEADER then
        var len := BodyLen(r.1);
        s.(q := r.0, receiver := if len > max then Discard(len, len, max) else TakeBody(len, max))
      else s.(q := r.0, receiver := RIdle, broken := true)
    case TakeBody(len, max) =>
      var r := Receive(s.q, len);
      s.(q := r.0, receiver := RIdle, outcomes := s.outcomes + [Delivered(r.1, max)],
         broken := s.broken || |r.1| != len)
    case Discard(len, left, max) =>
      if left == 0 then s.(receiver := RIdle, outcomes := s.outcomes + [Dropped(len, max)])
      else
        var r := Receive(s.q, Min(SCRATCH, left));
        if |r.1| == 0 then s.(receiver := RIdle, broken := true)
        else s.(q := r.0, receiver := Discard(len, left - |r.1|, max))
  }

  predicate Init(s: State) {
    s.q == [] && s.sender == SIdle && s.receiver == RIdle && s.sent == [] && s.outcomes == [] && !s.broken
  }

  ghost predicate Next(s: State, s': State) {
    exists a :: Enabled(s, a) && s' == Do(s, a)
  }

  ghost predicate StepAt(run: seq<State>, i: nat)
    requires i + 1 < |run|
  {
    Next(run[i], run[i + 1])
  }

  ghost predicate IsRun(run: seq<State>) {
    && |run| > 0 && Init(run[0])
    && forall i :: 0 <= i < |run| - 1 ==> StepAt(run, i)
  }

  // ---- What is in the buffer ----

  function Frame(body: Body): seq<byte> { Header(|body|) + body }

  function Frames(bodies: seq<Body>): seq<byte> {
    if bodies == [] then [] else Frame(bodies[0]) + Frames(bodies[1..])
  }

  lemma Assoc(a: seq<byte>, b: seq<byte>, c: seq<byte>)
    ensures a + b + c == a + (b + c)
  {
  }

  lemma {:induction false} FramesAppend(bodies: seq<Body>, body: Body)
    ensures Frames(bodies + [body]) == Frames(bodies) + Frame(body)
  {
    if bodies == [] {
      assert bodies + [body] == [body] && Frames([body]) == Frame(body) + Frames([]);
    } else {
      assert (bodies + [body])[1..] == bodies[1..] + [body];
      FramesAppend(bodies[1..], body);
      Assoc(Frame(bodies[0]), Frames(bodies[1..]), Frame(body));
    }
  }

  /** A header whose body has not been sent yet. */
  function Tail(s: State): seq<byte> {
    if s.sender.SendBody? then Header(|s.sender.body|) else []
  }

  /** What is left of the packet the reader is in the middle of. */
  function Rest(s: State): seq<byte>
    requires |s.outcomes| < |s.sent|
  {
    var body := s.sent[|s.outcomes|];
    match s.receiver
    case TakeBody(_, _) => body
    case Discard(_, left, _) => if left <= |body| then body[|body| - left..] else body
    case _ => Frame(body)
  }

  ghost predicate QueueOk(s: State) {
    var n := |s.outcomes|;
    && n <= |s.sent|
    && (s.receiver.TakeBody? || s.receiver.Discard? ==> n < |s.sent|)
    && s.q == (if n < |s.sent| then Rest(s) + Frames(s.sent[n + 1..]) else []) + Tail(s)
    && (s.receiver.TakeBody? ==> s.receiver.len == |s.sent[n]| <= s.receiver.max)
    && (s.receiver.Discard? ==> s.receiver.left <= s.receiver.len == |s.sent[n]| && s.receiver.len > s.receiver.max)
  }

  ghost predicate RoomOk(s: State) {
    && |s.q| <= Capacity(s.size)
    && (forall i :: 0 <= i < |s.sent| ==> GuardAccepts(s.size, s.sent[i]))
    && (!s.sender.SIdle? ==> GuardAccepts(s.size, s.sender.body))
    && (s.sender.SendHeader? ==> SpacesAvailable(Capacity(s.size), s.q) >= HEADER + |s.sender.body|)
    && (s.sender.SendBody? ==> SpacesAvailable(Capacity(s.size), s.q) >= |s.sender.body|)
  }

  /** Outcome i is the delivery of body i, or its loss to a buffer it does not fit. */
  predicate Answers(o: Outcome, body: Body) {
    match o
    case Delivered(b, max) => b == body && |body| <= max
    case Dropped(len, max) => len == |body| && |body| > max
  }

  ghost predicate OutcomesOk(s: State) {
    && |s.outcomes| <= |s.sent|
    && (forall i :: 0 <= i < |s.outcomes| ==> Answers(s.outcomes[i], s.sent[i]))
  }

  ghost predicate Inv(s: State) {
    QueueOk(s) && RoomOk(s) && OutcomesOk(s) && !s.broken
  }

  lemma HeaderSent(s: State)
    requires Inv(s) && s.sender.SendHeader?
    ensures Inv(Do(s, SenderStep))
  {
    var hdr := Header(|s.sender.body|);
    assert hdr[..HEADER] == hdr;
    assert Send(Capacity(s.size), s.q, hdr) == (s.q + hdr, HEADER);
  }

  lemma BodySent(s: State)
    requires Inv(s) && s.sender.SendBody?
    ensures Inv(Do(s, SenderStep))
  {
    var body := s.sender.body;
    assert body[..|body|] == body;
    assert Send(Capacity(s.size), s.q, body) == (s.q + body, |body|);
    BodyQueued(s, s.(q := s.q + body, sender := SIdle, sent := s.sent + [body]));
  }

  lemma BodyQueued(s: State, s': State)
    requires QueueOk(s) && s.sender.SendBody?
    requires s' == s.(q := s.q + s.sender.body, sender := SIdle, sent := s.sent + [s.sender.body])
    ensures QueueOk(s')
  {
    var n := |s.outcomes|;
    var body := s.sender.body;
    if n < |s.sent| {
      var frames := Frames(s.sent[n + 1..]);
      assert s'.sent[n + 1..] == s.sent[n + 1..] + [body];
      FramesAppend(s.sent[n + 1..], body);
      Reassociate(Rest(s), frames, Header(|body|), body);
      assert s'.sent[n] == s.sent[n] && Rest(s') == Rest(s);
    } else {
      assert s'.sent[n] == body && s'.sent[n + 1..] == [];
      assert s'.q == Frame(body);
    }
  }

  lemma Reassociate(a: seq<byte>, b: seq<byte>, c: seq<byte>, d: seq<byte>)
    ensures a + b + c + d == a + (b + (c + d)) + []
  {
  }

  /** More than a header in the buffer means the packet at its head is complete. */
  lemma WholePacketAtHead(s: State)
    requires Inv(s) && (s.receiver.RIdle? || s.receiver.WaitPacket?) && |s.q| > HEADER
    ensures |s.outcomes| < |s.sent|
    ensures Frame(s.sent[|s.outcomes|]) <= s.q
    ensures BodyLen(s.q[..HEADER]) == |s.sent[|s.outcomes|]|
    ensures s.q[HEADER..] == s.sent[|s.outcomes|] + Frames(s.sent[|s.outcomes| + 1..]) + Tail(s)
  {
    var body := s.sent[|s.outcomes|];
    HeaderRoundTrip(|body|);
    PullApart(s.q, Header(|body|), body, Frames(s.sent[|s.outcomes| + 1..]), Tail(s));
  }

  lemma PullApart(q: seq<byte>, hdr: seq<byte>, body: Body, frames: seq<byte>, tail: seq<byte>)
    requires q == hdr + body + frames + tail
    ensures hdr + body <= q && q[..|hdr|] == hdr && q[|hdr|..] == body + frames + tail
  {
  }

  lemma HeaderKeeps(s: State)
    requires Inv(s) && s.receiver.WaitPacket? && |s.q| > HEADER
    ensures Inv(Do(s, ReceiverStep))
  {
    WholePacketAtHead(s);
  }

  lemma BodyKeeps(s: State)
    requires Inv(s) && s.receiver.TakeBody?
    ensures Inv(Do(s, ReceiverStep))
  {
    TakeBodyIs(s);
    PacketGone(s, Do(s, ReceiverStep));
    TakenKeeps(s, Do(s, ReceiverStep));
  }

  lemma TakeBodyIs(s: State)
    requires QueueOk(s) && s.receiver.TakeBody?
    ensures Do(s, ReceiverStep) ==
            s.(q := Frames(s.sent[|s.outcomes| + 1..]) + Tail(s), receiver := RIdle,
               outcomes := s.outcomes + [Delivered(s.sent[|s.outcomes|], s.receiver.max)])
  {
    var n := |s.outcomes|;
    TakeFront(s.q, s.sent[n], Frames(s.sent[n + 1..]), Tail(s));
  }

  lemma TakenKeeps(s: State, s': State)
    requires Inv(s) && s.receiver.TakeBody?
    requires s' == s.(q := Frames(s.sent[|s.outcomes| + 1..]) + Tail(s), receiver := RIdle,
                      outcomes := s.outcomes + [Delivered(s.sent[|s.outcomes|], s.receiver.max)])
    ensures RoomOk(s') && OutcomesOk(s') && !s'.broken
  {
    assert |s'.q| <= |s.q|;
  }

  lemma TakeFront(q: seq<byte>, body: Body, frames: seq<byte>, tail: seq<byte>)
    requires q == body + frames + tail
    ensures q[..|body|] == body && q[|body|..] == frames + tail
  {
  }

  /** The reader is done with the packet at the head, delivered or dropped. */
  lemma PacketGone(s: State, s': State)
    requires |s.outcomes| < |s.sent|
    requires s'.sent == s.sent && s'.sender == s.sender && s'.receiver.RIdle? && |s'.outcomes| == |s.outcomes| + 1
    requires s'.q == Frames(s.sent[|s.outcomes| + 1..]) + Tail(s)
    ensures QueueOk(s')
  {
    NextFrame(s, |s.outcomes|);
  }

  lemma DiscardEnds(s: State)
    requires Inv(s) && s.receiver.Discard? && s.receiver.left == 0
    ensures Inv(Do(s, ReceiverStep))
  {
    NothingLeft(s);
    PacketGone(s, s.(receiver := RIdle, outcomes := s.outcomes + [Dropped(s.receiver.len, s.receiver.max)]));
  }

  lemma NothingLeft(s: State)
    requires QueueOk(s) && s.receiver.Discard? && s.receiver.left == 0
    ensures s.q == Frames(s.sent[|s.outcomes| + 1..]) + Tail(s)
  {
    assert Rest(s) == [];
    assert [] + Frames(s.sent[|s.outcomes| + 1..]) == Frames(s.sent[|s.outcomes| + 1..]);
  }

  lemma DiscardKeeps(s: State)
    requires Inv(s) && s.receiver.Discard? && s.receiver.left > 0
    ensures Inv(Do(s, ReceiverStep))
  {
    var r := s.receiver;
    var k := Min(SCRATCH, r.left);
    RestFits(s);
    DiscardStep(s, k);
    BytesDiscarded(s, s.(q := s.q[k..], receiver := Discard(r.len, r.left - k, r.max)), k);
  }

  lemma RestFits(s: State)
    requires QueueOk(s) && s.receiver.Discard?
    ensures s.receiver.left <= |s.q|
  {
    assert |Rest(s)| == s.receiver.left;
  }

  lemma DiscardStep(s: State, k: nat)
    requires s.receiver.Discard? && 0 < k == Min(SCRATCH, s.receiver.left) <= |s.q|
    ensures Do(s, ReceiverStep) ==
            s.(q := s.q[k..], receiver := Discard(s.receiver.len, s.receiver.left - k, s.receiver.max))
  {
  }

  lemma BytesDiscarded(s: State, s': State, k: nat)
    requires QueueOk(s) && s.receiver.Discard? && k <= s.receiver.left && k <= |s.q|
    requires s' == s.(q := s.q[k..], receiver := Discard(s.receiver.len, s.receiver.left - k, s.receiver.max))
    ensures QueueOk(s')
  {
    var n := |s.outcomes|;
    DropFromFront(s.sent[n], s.receiver.left, k, Frames(s.sent[n + 1..]), Tail(s));
  }

  lemma DropFromFront(body: Body, left: nat, k: nat, frames: seq<byte>, tail: seq<byte>)
    requires k <= left <= |body|
    ensures (body[|body| - left..] + frames + tail)[k..] == body[|body| - (left - k)..] + frames + tail
  {
  }

  /** The frames behind packet n start with the frame of packet n + 1. */
  lemma NextFrame(s: State, n: nat)
    requires n < |s.sent|
    ensures n + 1 < |s.sent| ==>
              Frames(s.sent[n + 1..]) == Frame(s.sent[n + 1]) + Frames(s.sent[n + 2..])
  {
    if n + 1 < |s.sent| { assert s.sent[n + 1..][1..] == s.sent[n + 2..]; }
  }

  lemma OtherKeeps(s: State, a: Action)
    requires Inv(s) && Enabled(s, a) && !a.SenderStep? && !a.ReceiverStep?
    ensures Inv(Do(s, a))
  {
    var s' := Do(s, a);
    assert Tail(s') == Tail(s);
    assert |s.outcomes| < |s.sent| ==> Rest(s') == Rest(s);
  }

  lemma StepInv(s: State, a: Action)
    requires Inv(s) && Enabled(s, a)
    ensures Inv(Do(s, a))
  {
    match a
    case SenderStep => if s.sender.SendHeader? { HeaderSent(s); } else { BodySent(s); }
    case ReceiverStep =>
      if s.receiver.WaitPacket? { HeaderKeeps(s); }
      else if s.receiver.TakeBody? { BodyKeeps(s); }
      else if s.receiver.left == 0 { DiscardEnds(s); }
      else { DiscardKeeps(s); }
    case _ => OtherKeeps(s, a);
  }

  lemma NextInv(s: State, s': State)
    requires Inv(s) && Next(s, s')
    ensures Inv(s')
  {
    var a :| Enabled(s, a) && s' == Do(s, a);
    StepInv(s, a);
  }

  lemma {:induction false} RunInv(run: seq<State>, i: nat)
    requires IsRun(run) && i < |run|
    ensures Inv(run[i])
  {
    if i == 0 {
    } else {
      RunInv(run, i - 1);
      assert StepAt(run, i - 1);
      NextInv(run[i - 1], run[i]);
    }
  }

  // ---- What a run guarantees ----

  /** Packet boundaries are never lost and no send or receive ever comes up short: the
      k-th itsRecv that takes a packet delivers the k-th body sent, whole, or drops it
      whole because the caller's buffer is too small for it. */
  lemma PacketsArriveInOrder(run: seq<State>, i: nat)
    requires IsRun(run) && i < |run|
    ensures !run[i].broken
    ensures |run[i].outcomes| <= |run[i].sent|
    ensures forall k :: 0 <= k < |run[i].outcomes| ==> Answers(run[i].outcomes[k], run[i].sent[k])
  {
    RunInv(run, i);
  }

  /** What the reader's wait relies on: between packets, more than four bytes available
      means a complete packet is at the head. */
  lemma AvailableMeansComplete(run: seq<State>, i: nat)
    requires IsRun(run) && i < |run|
    requires run[i].receiver.RIdle? || run[i].receiver.WaitPacket?
    ensures |run[i].q| > HEADER <==> |run[i].outcomes| < |run[i].sent|
    ensures |run[i].q| > HEADER ==> Frame(run[i].sent[|run[i].outcomes|]) <= run[i].q
  {
    RunInv(run, i);
    if |run[i].q| > HEADER { WholePacketAtHead(run[i]); }
  }

  /** The size guard admits one packet length that can never be sent: the buffer holds
      one byte less than its size.  A guarded packet fits an empty buffer if and only if
      it is strictly smaller than the buffer size with its header. */
  lemma GuardGap(size: nat, body: Body)
    requires GuardAccepts(size, body)
    ensures SpacesAvailable(Capacity(size), []) >= HEADER + |body| <==> HEADER + |body| < size
    ensures HEADER + |body| == size ==> forall q :: SpacesAvailable(Capacity(size), q) < HEADER + |body|
  {
  }
}
