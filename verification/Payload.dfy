/** The one ownership rule: who holds each message header and each payload block, and
    what the live counters (the transport's leak detector) say about it.

    Any number of tasks send copying and owned messages into mailboxes and packet links,
    dispatch, receive, hand blocks off and tear links down.  Every heap operation, queue
    operation and counter update is one step, so the block and byte counters move
    separately.  A task is one activation of the transport: a callback that calls back
    into it while its message is still held counts as another task.  Messages may be
    received and handed off while their link is being torn down.  No send is in progress
    on a link while it is being freed, and links are not reset while in use.
  */
module Payload {
  import opened Sums

  const HEADER_BYTES: nat := 28

  /** One stay of a payload block inside the transport.  Each entry draws a fresh
      ticket, so a block handed out and sent again is a new stay.  `nonNull` is false for
      the null pointer a caller may pass as an owned block. */
  datatype Block = Block(ticket: nat, len: nat, nonNull: bool)

  datatype Msg = Msg(payload: Option<Block>)

  datatype Option<T> = None | Some(value: T)

  datatype Exit = Freed | HandedOff | Returned

  /** Where a message under construction goes. */
  datatype Dest = ToInbox(target: nat) | ToLink(link: nat)

  /** The payload a caller asks to send. */
  datatype Source = Empty | Copy(len: nat) | Adopt(len: nat, nonNull: bool)

  /** What a task does once it is rid of a payload. */
  datatype After = Done | FreeHeader | ContinueDrain(link: nat)

  datatype Pc =
    | Idle
    | HdrNew(target: nat, src: Source)       // header allocated, not counted
    | HdrHalf(target: nat, src: Source)      // its block is counted
    | HdrCounted(target: nat, src: Source)
    | PayNew(b: Block, dest: Dest, owned: bool)      // payload acquired, not counted
    | PayHalf(b: Block, dest: Dest, owned: bool)     // its block is counted
    | PayCounted(b: Block, dest: Dest, owned: bool)  // ready to enqueue
    | BareReady(target: nat)                 // header-only message, ready to enqueue
    | Holding(b: Block, exit: Exit, after: After)    // about to part with b
    | Uncount(b: Block, exit: Exit, after: After)    // still counted
    | UncountHalf(b: Block, exit: Exit, after: After) // bytes still counted
    | HdrFreed                               // header freed, still counted
    | HdrUncountHalf                         // its bytes still counted
    | Draining(link: nat)                    // the drain loop of linkFree

  datatype LinkPhase = Unused | InUse | BeingFreed

  datatype Link = Link(ring: seq<Block>, phase: LinkPhase)

  datatype State = State(
    tasks: seq<Pc>,
    inboxes: seq<seq<Msg>>,
    links: seq<Link>,
    hdrBlocks: int, hdrBytes: int,           // hdrCtr
    payBlocks: int, payBytes: int,           // payCtr
    tickets: nat,                            // history: stays so far
    exits: seq<(Block, Exit)>,               // history: stays that ended, and how
    stuck: seq<Block>)                       // history: null blocks whose count was never undone

  datatype Action =
    | BeginMail(i: nat, target: nat, src: Source)
    | BeginPacket(i: nat, link: nat, src: Source)
    | Step(i: nat)
    | AllocFails(i: nat)
    | EnqueueFails(i: nat)
    | Dispatch(i: nat, t: nat)   // task i takes the head of mailbox t
    | Recv(i: nat, link: nat)
    | RecvRef(i: nat, link: nat)
    | FreeLink(i: nat, link: nat)
    | AcquireLink(link: nat)

  predicate Sending(pc: Pc, link: nat) {
    (pc.PayNew? || pc.PayHalf? || pc.PayCounted?) && pc.dest == ToLink(link)
  }

  predicate Enabled(s: State, a: Action) {
    match a
    case BeginMail(i, target, src) =>
      i < |s.tasks| && s.tasks[i].Idle? && target < |s.inboxes| && (src.Copy? ==> src.len > 0)
    case BeginPacket(i, link, src) =>
      i < |s.tasks| && s.tasks[i].Idle? && link < |s.links| && s.links[link].phase.InUse? && !src.Empty? && src.len > 0
    case Step(i) =>
      i < |s.tasks| && !s.tasks[i].Idle? && Bounded(s, s.tasks[i])
    case AllocFails(i) => i < |s.tasks| && s.tasks[i].HdrCounted? && s.tasks[i].src.Copy?
    case EnqueueFails(i) =>
      i < |s.tasks| && (s.tasks[i].BareReady? || (s.tasks[i].PayCounted? && s.tasks[i].dest.ToInbox?))
    case Dispatch(i, t) => i < |s.tasks| && s.tasks[i].Idle? && t < |s.inboxes| && s.inboxes[t] != []
    case Recv(i, link) => i < |s.tasks| && s.tasks[i].Idle? && link < |s.links| && s.links[link].ring != []
    case RecvRef(i, link) => i < |s.tasks| && s.tasks[i].Idle? && link < |s.links| && s.links[link].ring != []
    case FreeLink(i, link) =>
      && i < |s.tasks| && s.tasks[i].Idle? && link < |s.links| && s.links[link].phase.InUse?
      && forall j :: 0 <= j < |s.tasks| ==> !Sending(s.tasks[j], link)
    case AcquireLink(link) => link < |s.links| && s.links[link].phase.Unused?
  }

  /** The inbox or link a task is about to touch exists. */
  predicate Bounded(s: State, pc: Pc) {
    match pc
    case PayCounted(_, ToInbox(t), _) => t < |s.inboxes|
    case PayCounted(_, ToLink(l), _) => l < |s.links|
    case BareReady(t) => t < |s.inboxes|
    case Draining(l) => l < |s.links|
    case _ => true
  }

  function At(s: State, i: nat, pc: Pc): State
    requires i < |s.tasks|
  {
    s.(tasks := s.tasks[i := pc])
  }

  function Resume(after: After): Pc {
    match after
    case Done => Idle
    case FreeHeader => HdrFreed
    case ContinueDrain(l) => Draining(l)
  }

  function Do(s: State, a: Action): State
    requires Enabled(s, a)
  {
    match a
    case BeginMail(i, target, src) => At(s, i, HdrNew(target, src))
    case BeginPacket(i, link, src) => Acquire(s, i, src, ToLink(link))
    case Step(i) => DoStep(s, i)
    case AllocFails(i) => At(s, i, HdrFreed)
    case EnqueueFails(i) =>
      var pc := s.tasks[i];
      if pc.BareReady? then At(s, i, HdrFreed)
      else At(s, i, Holding(pc.b, if pc.owned then Returned else Freed, FreeHeader))
    case Dispatch(i, t) =>
      var m := s.inboxes[t][0];
      var s1 := s.(inboxes := s.inboxes[t := s.inboxes[t][1..]]);
      At(s1, i, if m.payload.Some? then Holding(m.payload.value, Freed, FreeHeader) else HdrFreed)
    case Recv(i, link) => At(Pop(s, link), i, Holding(s.links[link].ring[0], Freed, Done))
    case RecvRef(i, link) => At(Pop(s, link), i, Holding(s.links[link].ring[0], HandedOff, Done))
    case FreeLink(i, link) =>
      At(s.(links := s.links[link := s.links[link].(phase := BeingFreed)]), i, Draining(link))
    case AcquireLink(link) => s.(links := s.links[link := Link([], InUse)])
  }

  /** A payload block enters the transport: a fresh copy or an adopted block. */
  function Acquire(s: State, i: nat, src: Source, dest: Dest): State
    requires i < |s.tasks| && !src.Empty?
  {
    At(s, i, PayNew(Block(s.tickets, src.len, src.Copy? || src.nonNull), dest, src.Adopt?)).(tickets := s.tickets + 1)
  }

  function Pop(s: State, link: nat): State
    requires link < |s.links| && s.links[link].ring != []
  {
    s.(links := s.links[link := s.links[link].(ring := s.links[link].ring[1..])])
  }

  function DoStep(s: State, i: nat): State
    requires Enabled(s, Step(i))
  {
    match s.tasks[i]
    case HdrNew(t, src) => At(s, i, HdrHalf(t, src)).(hdrBlocks := s.hdrBlocks + 1)
    case HdrHalf(t, src) => At(s, i, HdrCounted(t, src)).(hdrBytes := s.hdrBytes + HEADER_BYTES)
    case HdrCounted(t, src) => if src.Empty? then At(s, i, BareReady(t)) else Acquire(s, i, src, ToInbox(t))
    case PayNew(b, dest, owned) => At(s, i, PayHalf(b, dest, owned)).(payBlocks := s.payBlocks + 1)
    case PayHalf(b, dest, owned) => At(s, i, PayCounted(b, dest, owned)).(payBytes := s.payBytes + b.len)
    case PayCounted(b, dest, owned) =>
      (match dest
       case ToInbox(t) => At(s, i, Idle).(inboxes := s.inboxes[t := s.inboxes[t] + [Msg(Some(b))]])
       case ToLink(l) =>
         At(s, i, Idle).(links := s.links[l := s.links[l].(ring := s.links[l].ring + [b])]))
    case BareReady(t) => At(s, i, Idle).(inboxes := s.inboxes[t := s.inboxes[t] + [Msg(None)]])
    case Holding(b, exit, after) =>
      if exit.Freed? && !b.nonNull then At(s, i, Resume(after)).(stuck := s.stuck + [b])   // payDrop(NULL) returns
      else if exit.Freed? then At(s, i, Uncount(b, exit, after)).(exits := s.exits + [(b, exit)])
      else At(s, i, Uncount(b, exit, after))
    case Uncount(b, exit, after) => At(s, i, UncountHalf(b, exit, after)).(payBlocks := s.payBlocks - 1)
    case UncountHalf(b, exit, after) =>
      At(s, i, Resume(after)).(payBytes := s.payBytes - b.len,
                               exits := if exit.Freed? then s.exits else s.exits + [(b, exit)])
    case HdrFreed => At(s, i, HdrUncountHalf).(hdrBlocks := s.hdrBlocks - 1)
    case HdrUncountHalf => At(s, i, Idle).(hdrBytes := s.hdrBytes - HEADER_BYTES)
    case Draining(l) =>
      if s.links[l].ring != [] then At(Pop(s, l), i, Holding(s.links[l].ring[0], Freed, ContinueDrain(l)))
      else At(s, i, Idle).(links := s.links[l := Link([], Unused)])
  }

  predicate Init(s: State) {
    && (forall i :: 0 <= i < |s.tasks| ==> s.tasks[i] == Idle)
    && (forall i :: 0 <= i < |s.inboxes| ==> s.inboxes[i] == [])
    && (forall i :: 0 <= i < |s.links| ==> s.links[i] == Link([], Unused))
    && s.hdrBlocks == s.hdrBytes == s.payBlocks == s.payBytes == 0
    && s.tickets == 0 && s.exits == [] && s.stuck == []
  }

  ghost predicate Next(s: State, s': State) {
    exists a :: Enabled(s, a) && s' == Do(s, a)
  }

  ghost predicate StepAt(run: seq<State>, i: nat)
    requires i + 1 < |run|
  {
    Next(run[i], run[i + 1])
  }

  ghost predicate IsRun(run: seq<State>) {
    && |run| > 0 && Init(run[0])
    && forall i :: 0 <= i < |run| - 1 ==> StepAt(run, i)
  }

  // ---- Taking stock ----

  /** What is being counted: headers, their bytes, payloads, their bytes, or how often
      the stay with a given ticket is held. */
  datatype Measure = Hdrs | HdrBytes | Pays | PayBytes | Stay(ticket: nat)

  function OfHeader(q: Measure): int {
    if q.Hdrs? then 1 else if q.HdrBytes? then HEADER_BYTES else 0
  }

  function OfBlock(q: Measure, b: Block): int {
    match q
    case Hdrs => 0
    case HdrBytes => 0
    case Pays => 1
    case PayBytes => b.len
    case Stay(k) => if b.ticket == k then 1 else 0
  }

  function OfMsg(q: Measure, m: Msg): int {
    OfHeader(q) + if m.payload.Some? then OfBlock(q, m.payload.value) else 0
  }

  function OfDest(q: Measure, dest: Dest): int { if dest.ToInbox? then OfHeader(q) else 0 }

  function OfAfter(q: Measure, after: After): int { if after.FreeHeader? then OfHeader(q) else 0 }

  /** A block a task is parting with.  A freed block is gone at once; a block handed
      off or returned leaves last. */
  function OfParting(q: Measure, b: Block, exit: Exit): int {
    if q.Stay? && exit.Freed? then 0 else OfBlock(q, b)
  }

  /** What a task holds in the middle of an operation. */
  function OfPc(q: Measure, pc: Pc): int {
    match pc
    case Idle => 0
    case HdrNew(_, _) => 0
    case HdrHalf(_, _) => if q.Hdrs? then 1 else 0
    case HdrCounted(_, _) => OfHeader(q)
    case PayNew(b, dest, _) => OfDest(q, dest) + if q.Pays? || q.PayBytes? then 0 else OfBlock(q, b)
    case PayHalf(b, dest, _) => OfDest(q, dest) + if q.PayBytes? then 0 else OfBlock(q, b)
    case PayCounted(b, dest, _) => OfDest(q, dest) + OfBlock(q, b)
    case BareReady(_) => OfHeader(q)
    case Holding(b, _, after) => OfAfter(q, after) + OfBlock(q, b)
    case Uncount(b, exit, after) => OfAfter(q, after) + OfParting(q, b, exit)
    case UncountHalf(b, exit, after) => OfAfter(q, after) + if q.Pays? then 0 else OfParting(q, b, exit)
    case HdrFreed => OfHeader(q)
    case HdrUncountHalf => if q.Hdrs? then 0 else OfHeader(q)
    case Draining(_) => 0
  }

  function Blocks(q: Measure, ring: seq<Block>): (r: seq<int>)
    ensures |r| == |ring| && forall i :: 0 <= i < |r| ==> r[i] == OfBlock(q, ring[i])
  {
    seq(|ring|, i requires 0 <= i < |ring| => OfBlock(q, ring[i]))
  }

  function Msgs(q: Measure, inbox: seq<Msg>): (r: seq<int>)
    ensures |r| == |inbox| && forall i :: 0 <= i < |r| ==> r[i] == OfMsg(q, inbox[i])
  {
    seq(|inbox|, i requires 0 <= i < |inbox| => OfMsg(q, inbox[i]))
  }

  function Tasks(q: Measure, tasks: seq<Pc>): (r: seq<int>)
    ensures |r| == |tasks| && forall i :: 0 <= i < |r| ==> r[i] == OfPc(q, tasks[i])
  {
    seq(|tasks|, i requires 0 <= i < |tasks| => OfPc(q, tasks[i]))
  }

  function Inboxes(q: Measure, inboxes: seq<seq<Msg>>): (r: seq<int>)
    ensures |r| == |inboxes| && forall i :: 0 <= i < |r| ==> r[i] == Sum(Msgs(q, inboxes[i]))
  {
    seq(|inboxes|, i requires 0 <= i < |inboxes| => Sum(Msgs(q, inboxes[i])))
  }

  function Links(q: Measure, links: seq<Link>): (r: seq<int>)
    ensures |r| == |links| && forall i :: 0 <= i < |r| ==> r[i] == Sum(Blocks(q, links[i].ring))
  {
    seq(|links|, i requires 0 <= i < |links| => Sum(Blocks(q, links[i].ring)))
  }

  /** Everything in mailboxes, link rings and tasks' hands. */
  function Held(q: Measure, s: State): int {
    Sum(Tasks(q, s.tasks)) + Sum(Inboxes(q, s.inboxes)) + Sum(Links(q, s.links))
  }

  /** How often a stay has ended. */
  function ExitsOf(k: nat, exits: seq<(Block, Exit)>): (n: nat) {
    if exits == [] then 0
    else ExitsOf(k, exits[..|exits| - 1]) + if exits[|exits| - 1].0.ticket == k then 1 else 0
  }

  function StuckOf(q: Measure, stuck: seq<Block>): int { Sum(Blocks(q, stuck)) }

  /** What the transport has on its books: the live counters, and for a stay whether it
      has begun and not ended. */
  function Books(q: Measure, s: State): int {
    match q
    case Hdrs => s.hdrBlocks
    case HdrBytes => s.hdrBytes
    case Pays => s.payBlocks
    case PayBytes => s.payBytes
    case Stay(k) => (if k < s.tickets then 1 else 0) - ExitsOf(k, s.exits)
  }

  // ---- The inductive invariant ----

  /** The books agree with what is held, but for the null blocks that got stuck. */
  ghost predicate Balanced(q: Measure, s: State) {
    Books(q, s) == Held(q, s) + StuckOf(q, s.stuck)
  }

  /** A link out of use has an empty ring, so acquiring and resetting it loses nothing. */
  ghost predicate RingsOk(s: State) {
    forall l :: 0 <= l < |s.links| && s.links[l].phase.Unused? ==> s.links[l].ring == []
  }

  /** Every send in progress is on a link in use, every drain on a link being freed. */
  ghost predicate PlacesOk(s: State) {
    forall i :: 0 <= i < |s.tasks| ==> PlaceOk(s, s.tasks[i])
  }

  /** A link being freed is drained by one task. */
  ghost predicate DrainsOk(s: State) {
    forall i, j :: 0 <= i < j < |s.tasks| && Frees(s.tasks[i]).Some? ==> Frees(s.tasks[i]) != Frees(s.tasks[j])
  }

  predicate Releasing(pc: Pc) { pc.Holding? || pc.Uncount? || pc.UncountHalf? }

  /** The link this task is freeing. */
  function Frees(pc: Pc): Option<nat> {
    if pc.Draining? then Some(pc.link)
    else if Releasing(pc) && pc.after.ContinueDrain? then Some(pc.after.link)
    else None
  }

  ghost predicate PlaceOk(s: State, pc: Pc) {
    && (Frees(pc).Some? ==> Frees(pc).value < |s.links| && s.links[Frees(pc).value].phase.BeingFreed?)
    && ((pc.PayNew? || pc.PayHalf? || pc.PayCounted?) && pc.dest.ToLink? ==>
          pc.dest.link < |s.links| && s.links[pc.dest.link].phase.InUse?)
    && ((pc.PayNew? || pc.PayHalf? || pc.PayCounted?) && pc.dest.ToInbox? ==> pc.dest.target < |s.inboxes|)
    && ((pc.HdrNew? || pc.HdrHalf? || pc.HdrCounted? || pc.BareReady?) ==> pc.target < |s.inboxes|)
  }

  lemma RingsStep(s: State, a: Action)
    requires RingsOk(s) && PlacesOk(s) && Enabled(s, a)
    ensures RingsOk(Do(s, a))
  {
  }

  /** Only one task moves, and a link changes phase only when that task frees it or has
      drained it. */
  lemma StepShape(s: State, a: Action)
    requires Enabled(s, a)
    ensures Shape(s, a)
  {
    if a.Step? { OwnShape(s, a); } else { OtherShape(s, a); }
  }

  ghost predicate Shape(s: State, a: Action)
    requires Enabled(s, a)
  {
    var s' := Do(s, a);
    && |s'.tasks| == |s.tasks| && |s'.inboxes| == |s.inboxes| && |s'.links| == |s.links|
    && (forall j :: 0 <= j < |s.tasks| && (a.AcquireLink? || j != a.i) ==> s'.tasks[j] == s.tasks[j])
    && (forall l :: 0 <= l < |s.links| ==>
          || s'.links[l].phase == s.links[l].phase
          || (a == AcquireLink(l) && s.links[l].phase.Unused?)
          || (a.FreeLink? && a.link == l && s'.links[l].phase.BeingFreed?)
          || (a.Step? && s.tasks[a.i] == Draining(l)))
  }

  lemma OwnShape(s: State, a: Action)
    requires Enabled(s, a) && a.Step?
    ensures Shape(s, a)
  {
  }

  lemma OtherShape(s: State, a: Action)
    requires Enabled(s, a) && !a.Step?
    ensures Shape(s, a)
  {
  }

  /** The acting task is where it may be, and it took up freeing a link only by FreeLink. */
  ghost predicate ActorOk(s: State, a: Action)
    requires Enabled(s, a) && !a.AcquireLink?
  {
    var s' := Do(s, a);
    var pc := s'.tasks[a.i];
    && PlaceOk(s', pc)
    && (Frees(pc).Some? ==> Frees(pc) == Frees(s.tasks[a.i]) || (a.FreeLink? && Frees(pc) == Some(a.link)))
  }

  lemma SendStepPlace(s: State, i: nat)
    requires Enabled(s, Step(i)) && PlaceOk(s, s.tasks[i])
    requires !Releasing(s.tasks[i]) && !s.tasks[i].Draining?
    ensures ActorOk(s, Step(i))
  {
  }

  lemma ReleaseStepPlace(s: State, i: nat)
    requires Enabled(s, Step(i)) && PlaceOk(s, s.tasks[i])
    requires Releasing(s.tasks[i]) || s.tasks[i].Draining?
    ensures ActorOk(s, Step(i))
  {
    if Releasing(s.tasks[i]) { PartingPlace(s, i); } else { DrainPlace(s, i); }
  }

  lemma PartingPlace(s: State, i: nat)
    requires Enabled(s, Step(i)) && PlaceOk(s, s.tasks[i]) && Releasing(s.tasks[i])
    ensures ActorOk(s, Step(i))
  {
  }

  lemma DrainPlace(s: State, i: nat)
    requires Enabled(s, Step(i)) && PlaceOk(s, s.tasks[i]) && s.tasks[i].Draining?
    ensures ActorOk(s, Step(i))
  {
  }

  lemma BeginPlace(s: State, a: Action)
    requires Enabled(s, a) && !a.AcquireLink? && !a.Step? && PlaceOk(s, s.tasks[a.i])
    ensures ActorOk(s, a)
  {
  }

  lemma ActorPlace(s: State, a: Action)
    requires Enabled(s, a) && !a.AcquireLink? && PlaceOk(s, s.tasks[a.i])
    ensures ActorOk(s, a)
  {
    if !a.Step? { BeginPlace(s, a); }
    else if Releasing(s.tasks[a.i]) || s.tasks[a.i].Draining? { ReleaseStepPlace(s, a.i); }
    else { SendStepPlace(s, a.i); }
  }

  lemma PlacesStep(s: State, a: Action)
    requires PlacesOk(s) && DrainsOk(s) && Enabled(s, a)
    ensures PlacesOk(Do(s, a))
  {
    StepShape(s, a);
    forall j | 0 <= j < |s.tasks| ensures PlaceOk(Do(s, a), Do(s, a).tasks[j]) {
      assert PlaceOk(s, s.tasks[j]);
      if !a.AcquireLink? && j == a.i { ActorPlace(s, a); }
    }
  }

  lemma DrainsStep(s: State, a: Action)
    requires DrainsOk(s) && PlacesOk(s) && Enabled(s, a)
    ensures DrainsOk(Do(s, a))
  {
    StepShape(s, a);
    if !a.AcquireLink? { ActorPlace(s, a); }
  }

  // ---- The books stay balanced ----

  lemma TaskMoved(q: Measure, s: State, s': State, i: nat)
    requires i < |s.tasks| == |s'.tasks| && s'.tasks == s.tasks[i := s'.tasks[i]]
    requires s'.inboxes == s.inboxes && s'.links == s.links
    ensures Held(q, s') == Held(q, s) - OfPc(q, s.tasks[i]) + OfPc(q, s'.tasks[i])
  {
    SumUpdate(Tasks(q, s.tasks), i, OfPc(q, s'.tasks[i]));
    assert Tasks(q, s'.tasks) == Tasks(q, s.tasks)[i := OfPc(q, s'.tasks[i])];
  }

  lemma InboxMoved(q: Measure, s: State, t: nat, inbox: seq<Msg>)
    requires t < |s.inboxes|
    ensures Held(q, s.(inboxes := s.inboxes[t := inbox])) == Held(q, s) - Sum(Msgs(q, s.inboxes[t])) + Sum(Msgs(q, inbox))
  {
    SumUpdate(Inboxes(q, s.inboxes), t, Sum(Msgs(q, inbox)));
    assert Inboxes(q, s.inboxes[t := inbox]) == Inboxes(q, s.inboxes)[t := Sum(Msgs(q, inbox))];
  }

  lemma LinkMoved(q: Measure, s: State, l: nat, link: Link)
    requires l < |s.links|
    ensures Held(q, s.(links := s.links[l := link])) ==
            Held(q, s) - Sum(Blocks(q, s.links[l].ring)) + Sum(Blocks(q, link.ring))
  {
    SumUpdate(Links(q, s.links), l, Sum(Blocks(q, link.ring)));
    assert Links(q, s.links[l := link]) == Links(q, s.links)[l := Sum(Blocks(q, link.ring))];
  }

  lemma QueueMsg(q: Measure, inbox: seq<Msg>, m: Msg)
    ensures Sum(Msgs(q, inbox + [m])) == Sum(Msgs(q, inbox)) + OfMsg(q, m)
  {
    assert Msgs(q, inbox + [m]) == Msgs(q, inbox) + [OfMsg(q, m)];
    SumAppend(Msgs(q, inbox), OfMsg(q, m));
  }

  lemma TakeMsg(q: Measure, inbox: seq<Msg>)
    requires inbox != []
    ensures Sum(Msgs(q, inbox)) == OfMsg(q, inbox[0]) + Sum(Msgs(q, inbox[1..]))
  {
    assert Msgs(q, inbox)[1..] == Msgs(q, inbox[1..]);
  }

  lemma QueueBlock(q: Measure, ring: seq<Block>, b: Block)
    ensures Sum(Blocks(q, ring + [b])) == Sum(Blocks(q, ring)) + OfBlock(q, b)
  {
    assert Blocks(q, ring + [b]) == Blocks(q, ring) + [OfBlock(q, b)];
    SumAppend(Blocks(q, ring), OfBlock(q, b));
  }

  lemma TakeBlock(q: Measure, ring: seq<Block>)
    requires ring != []
    ensures Sum(Blocks(q, ring)) == OfBlock(q, ring[0]) + Sum(Blocks(q, ring[1..]))
  {
    assert Blocks(q, ring)[1..] == Blocks(q, ring[1..]);
  }

  /** A message is posted: what its sender held is in the mailbox. */
  lemma Posted(q: Measure, s: State, i: nat, m: Msg, t: nat)
    requires i < |s.tasks| && t < |s.inboxes| && OfPc(q, s.tasks[i]) == OfMsg(q, m)
    ensures Held(q, At(s, i, Idle).(inboxes := s.inboxes[t := s.inboxes[t] + [m]])) == Held(q, s)
  {
    TaskMoved(q, s, At(s, i, Idle), i);
    InboxMoved(q, At(s, i, Idle), t, s.inboxes[t] + [m]);
    QueueMsg(q, s.inboxes[t], m);
  }

  /** A message is taken off a mailbox: what was in the mailbox is in its dispatcher's hands. */
  lemma Dispatched(q: Measure, s: State, i: nat, t: nat, pc: Pc)
    requires i < |s.tasks| && t < |s.inboxes| && s.inboxes[t] != []
    requires OfPc(q, s.tasks[i]) == 0 && OfPc(q, pc) == OfMsg(q, s.inboxes[t][0])
    ensures Held(q, At(s.(inboxes := s.inboxes[t := s.inboxes[t][1..]]), i, pc)) == Held(q, s)
  {
    var s1 := s.(inboxes := s.inboxes[t := s.inboxes[t][1..]]);
    InboxMoved(q, s, t, s.inboxes[t][1..]);
    TaskMoved(q, s1, At(s1, i, pc), i);
    TakeMsg(q, s.inboxes[t]);
  }

  /** A descriptor is queued. */
  lemma Queued(q: Measure, s: State, i: nat, b: Block, l: nat)
    requires i < |s.tasks| && l < |s.links| && OfPc(q, s.tasks[i]) == OfBlock(q, b)
    ensures Held(q, At(s, i, Idle).(links := s.links[l := s.links[l].(ring := s.links[l].ring + [b])])) == Held(q, s)
  {
    TaskMoved(q, s, At(s, i, Idle), i);
    LinkMoved(q, At(s, i, Idle), l, s.links[l].(ring := s.links[l].ring + [b]));
    QueueBlock(q, s.links[l].ring, b);
  }

  /** A descriptor is dequeued. */
  lemma Popped(q: Measure, s: State, i: nat, l: nat, pc: Pc)
    requires i < |s.tasks| && l < |s.links| && s.links[l].ring != []
    requires OfPc(q, s.tasks[i]) == 0 && OfPc(q, pc) == OfBlock(q, s.links[l].ring[0])
    ensures Held(q, At(Pop(s, l), i, pc)) == Held(q, s)
  {
    LinkMoved(q, s, l, s.links[l].(ring := s.links[l].ring[1..]));
    TaskMoved(q, Pop(s, l), At(Pop(s, l), i, pc), i);
    TakeBlock(q, s.links[l].ring);
  }

  /** A link changes phase; its ring holds what it held. */
  lemma Rephased(q: Measure, s: State, l: nat, link: Link)
    requires l < |s.links| && link.ring == s.links[l].ring
    ensures Held(q, s.(links := s.links[l := link])) == Held(q, s)
  {
    LinkMoved(q, s, l, link);
  }

  /** A step that only moves task i keeps the balance if what it does to the books and
      the stuck list matches what it does to that task's hands. */
  lemma OwnMove(q: Measure, s: State, s': State, i: nat)
    requires Balanced(q, s)
    requires i < |s.tasks| == |s'.tasks| && s'.tasks == s.tasks[i := s'.tasks[i]]
    requires s'.inboxes == s.inboxes && s'.links == s.links
    requires Books(q, s') - Books(q, s) ==
             OfPc(q, s'.tasks[i]) - OfPc(q, s.tasks[i]) + StuckOf(q, s'.stuck) - StuckOf(q, s.stuck)
    ensures Balanced(q, s')
  {
    TaskMoved(q, s, s', i);
  }

  lemma BeginMove(q: Measure, s: State, a: Action)
    requires Balanced(q, s)
    requires Enabled(s, a) && (a.BeginMail? || a.BeginPacket? || a.AllocFails? || a.EnqueueFails?)
    ensures Balanced(q, Do(s, a))
  {
    OwnMove(q, s, Do(s, a), a.i);
  }

  predicate CountsHeader(pc: Pc) {
    pc.HdrNew? || pc.HdrHalf? || pc.HdrCounted? || pc.HdrFreed? || pc.HdrUncountHalf?
  }

  lemma HeaderMove(q: Measure, s: State, i: nat)
    requires Balanced(q, s) && Enabled(s, Step(i)) && CountsHeader(s.tasks[i])
    ensures Balanced(q, Do(s, Step(i)))
  {
    match s.tasks[i]
    case HdrCounted(_, _) => AcquireMove(q, s, i);
    case HdrFreed => HeaderLeaves(q, s, i);
    case HdrUncountHalf => HeaderLeaves(q, s, i);
    case _ => HeaderEnters(q, s, i);
  }

  lemma HeaderEnters(q: Measure, s: State, i: nat)
    requires Balanced(q, s) && Enabled(s, Step(i)) && (s.tasks[i].HdrNew? || s.tasks[i].HdrHalf?)
    ensures Balanced(q, Do(s, Step(i)))
  {
    OwnMove(q, s, Do(s, Step(i)), i);
  }

  lemma HeaderLeaves(q: Measure, s: State, i: nat)
    requires Balanced(q, s) && Enabled(s, Step(i)) && (s.tasks[i].HdrFreed? || s.tasks[i].HdrUncountHalf?)
    ensures Balanced(q, Do(s, Step(i)))
  {
    OwnMove(q, s, Do(s, Step(i)), i);
  }

  lemma AcquireMove(q: Measure, s: State, i: nat)
    requires Balanced(q, s) && Enabled(s, Step(i)) && s.tasks[i].HdrCounted?
    ensures Balanced(q, Do(s, Step(i)))
  {
    OwnMove(q, s, Do(s, Step(i)), i);
  }

  lemma PayloadMove(q: Measure, s: State, i: nat)
    requires Balanced(q, s) && Enabled(s, Step(i)) && (s.tasks[i].PayNew? || s.tasks[i].PayHalf?)
    ensures Balanced(q, Do(s, Step(i)))
  {
    OwnMove(q, s, Do(s, Step(i)), i);
  }

  lemma PartMove(q: Measure, s: State, i: nat)
    requires Balanced(q, s) && Enabled(s, Step(i)) && s.tasks[i].Holding?
    ensures Balanced(q, Do(s, Step(i)))
  {
    var Holding(b, exit, after) := s.tasks[i];
    if exit.Freed? && !b.nonNull {
      QueueBlock(q, s.stuck, b);
      ResumeHolds(q, after);
      OwnMove(q, s, At(s, i, Resume(after)).(stuck := s.stuck + [b]), i);
    } else if exit.Freed? {
      assert (s.exits + [(b, Freed)])[..|s.exits|] == s.exits;
      OwnMove(q, s, At(s, i, Uncount(b, exit, after)).(exits := s.exits + [(b, exit)]), i);
    } else {
      OwnMove(q, s, At(s, i, Uncount(b, exit, after)), i);
    }
  }

  lemma ResumeHolds(q: Measure, after: After)
    ensures OfPc(q, Resume(after)) == OfAfter(q, after)
  {
  }

  lemma UncountMove(q: Measure, s: State, i: nat)
    requires Balanced(q, s) && Enabled(s, Step(i)) && (s.tasks[i].Uncount? || s.tasks[i].UncountHalf?)
    ensures Balanced(q, Do(s, Step(i)))
  {
    var pc := s.tasks[i];
    assert (s.exits + [(pc.b, pc.exit)])[..|s.exits|] == s.exits;
    OwnMove(q, s, Do(s, Step(i)), i);
  }

  lemma PlaceMove(q: Measure, s: State, i: nat)
    requires Balanced(q, s) && Enabled(s, Step(i))
    requires s.tasks[i].PayCounted? || s.tasks[i].BareReady? || s.tasks[i].Draining?
    ensures Balanced(q, Do(s, Step(i)))
  {
    var s' := Do(s, Step(i));
    match s.tasks[i]
    case PayCounted(b, dest, _) =>
      if dest.ToInbox? { Posted(q, s, i, Msg(Some(b)), dest.target); } else { Queued(q, s, i, b, dest.link); }
    case BareReady(t) => Posted(q, s, i, Msg(None), t);
    case Draining(l) =>
      if s.links[l].ring != [] {
        Popped(q, s, i, l, s'.tasks[i]);
      } else {
        Rephased(q, s, l, Link([], Unused));
        TaskMoved(q, s.(links := s'.links), s', i);
      }
  }

  lemma FreeMove(q: Measure, s: State, i: nat, l: nat)
    requires Balanced(q, s) && Enabled(s, FreeLink(i, l))
    ensures Balanced(q, Do(s, FreeLink(i, l)))
  {
    var s' := Do(s, FreeLink(i, l));
    Rephased(q, s, l, s'.links[l]);
    TaskMoved(q, s.(links := s'.links), s', i);
  }

  lemma TakeMove(q: Measure, s: State, a: Action)
    requires Balanced(q, s) && Enabled(s, a) && (a.Dispatch? || a.Recv? || a.RecvRef?)
    ensures Balanced(q, Do(s, a))
  {
    var pc := Do(s, a).tasks[a.i];
    if a.Dispatch? { Dispatched(q, s, a.i, a.t, pc); } else { Popped(q, s, a.i, a.link, pc); }
  }

  lemma StepBalanced(q: Measure, s: State, a: Action)
    requires Balanced(q, s) && RingsOk(s) && Enabled(s, a)
    ensures Balanced(q, Do(s, a))
  {
    var s' := Do(s, a);
    match a
    case Step(i) =>
      if CountsHeader(s.tasks[i]) { HeaderMove(q, s, i); }
      else if s.tasks[i].PayNew? || s.tasks[i].PayHalf? { PayloadMove(q, s, i); }
      else if s.tasks[i].Holding? { PartMove(q, s, i); }
      else if Releasing(s.tasks[i]) { UncountMove(q, s, i); }
      else { PlaceMove(q, s, i); }
    case Dispatch(_, _) => TakeMove(q, s, a);
    case Recv(_, _) => TakeMove(q, s, a);
    case RecvRef(_, _) => TakeMove(q, s, a);
    case FreeLink(i, l) => FreeMove(q, s, i, l);
    case AcquireLink(l) => Rephased(q, s, l, Link([], InUse));
    case _ => BeginMove(q, s, a);
  }

  ghost predicate Inv(s: State) {
    (forall q :: Balanced(q, s)) && RingsOk(s) && PlacesOk(s) && DrainsOk(s)
  }

  lemma NextInv(s: State, s': State)
    requires Inv(s) && Next(s, s')
    ensures Inv(s')
  {
    var a :| Enabled(s, a) && s' == Do(s, a);
    RingsStep(s, a);
    PlacesStep(s, a);
    DrainsStep(s, a);
    forall q ensures Balanced(q, s') { StepBalanced(q, s, a); }
  }

  lemma NothingHeld(q: Measure, s: State)
    requires forall j :: 0 <= j < |s.tasks| ==> s.tasks[j].Idle?
    requires forall j :: 0 <= j < |s.inboxes| ==> s.inboxes[j] == []
    requires forall l :: 0 <= l < |s.links| ==> s.links[l].ring == []
    ensures Held(q, s) == 0
  {
    SumZero(Tasks(q, s.tasks));
    SumZero(Inboxes(q, s.inboxes));
    SumZero(Links(q, s.links));
  }

  lemma InitInv(s: State)
    requires Init(s)
    ensures Inv(s)
  {
    forall q ensures Balanced(q, s) { NothingHeld(q, s); }
  }

  lemma {:induction false} RunInv(run: seq<State>, i: nat)
    requires IsRun(run) && i < |run|
    ensures Inv(run[i])
  {
    if i == 0 {
      InitInv(run[0]);
    } else {
      RunInv(run, i - 1);
      StepKeepsInv(run, i - 1);
    }
  }

  lemma StepKeepsInv(run: seq<State>, i: nat)
    requires IsRun(run) && i + 1 < |run| && Inv(run[i])
    ensures Inv(run[i + 1])
  {
    assert StepAt(run, i);
    NextInv(run[i], run[i + 1]);
  }

  // ---- What a run guarantees ----

  /** The live counters are what sits in mailboxes and link rings plus what tasks hold
      mid-operation, plus each null block that was sent as owned and dropped. */
  lemma CountersBalance(run: seq<State>, i: nat)
    requires IsRun(run) && i < |run|
    ensures var s := run[i];
            && s.hdrBlocks == Held(Hdrs, s) && s.hdrBytes == Held(HdrBytes, s)
            && s.payBlocks == Held(Pays, s) + |s.stuck|
            && s.payBytes == Held(PayBytes, s) + StuckOf(PayBytes, s.stuck)
  {
    RunInv(run, i);
    assert Balanced(Hdrs, run[i]) && Balanced(HdrBytes, run[i]) && Balanced(Pays, run[i]) && Balanced(PayBytes, run[i]);
    StuckSize(run[i].stuck);
    StuckHeaders(run[i].stuck);
  }

  lemma {:induction false} StuckSize(stuck: seq<Block>)
    ensures StuckOf(Pays, stuck) == |stuck|
  {
    if stuck == [] {
    } else {
      TakeBlock(Pays, stuck);
      StuckSize(stuck[1..]);
    }
  }

  lemma StuckHeaders(stuck: seq<Block>)
    ensures StuckOf(Hdrs, stuck) == StuckOf(HdrBytes, stuck) == 0
  {
    SumZero(Blocks(Hdrs, stuck));
    SumZero(Blocks(HdrBytes, stuck));
  }

  // ---- Owned blocks that are not null ----

  /** A call that passes a null pointer as an owned block. */
  predicate SendsNull(a: Action) {
    (a.BeginMail? || a.BeginPacket?) && a.src.Adopt? && !a.src.nonNull
  }

  /** A step of callers that pass null owned blocks only if they may. */
  ghost predicate CallerStep(run: seq<State>, i: nat, mayNull: bool)
    requires i + 1 < |run|
  {
    exists a :: Enabled(run[i], a) && run[i + 1] == Do(run[i], a) && (SendsNull(a) ==> mayNull)
  }

  ghost predicate IsCallerRun(run: seq<State>, mayNull: bool) {
    && |run| > 0 && Init(run[0])
    && forall i :: 0 <= i < |run| - 1 ==> CallerStep(run, i, mayNull)
  }

  lemma CallerRunIsRun(run: seq<State>, mayNull: bool)
    requires IsCallerRun(run, mayNull)
    ensures IsRun(run)
  {
    forall i | 0 <= i < |run| - 1 ensures StepAt(run, i) { assert CallerStep(run, i, mayNull); }
  }

  predicate HoldsNoNull(pc: Pc) {
    match pc
    case HdrNew(_, src) => !(src.Adopt? && !src.nonNull)
    case HdrHalf(_, src) => !(src.Adopt? && !src.nonNull)
    case HdrCounted(_, src) => !(src.Adopt? && !src.nonNull)
    case PayNew(b, _, _) => b.nonNull
    case PayHalf(b, _, _) => b.nonNull
    case PayCounted(b, _, _) => b.nonNull
    case Holding(b, _, _) => b.nonNull
    case _ => true
  }

  /** No null block anywhere, and none got stuck. */
  ghost predicate NoNulls(s: State) {
    && s.stuck == []
    && (forall i :: 0 <= i < |s.tasks| ==> HoldsNoNull(s.tasks[i]))
    && (forall t :: 0 <= t < |s.inboxes| ==> InboxNoNull(s.inboxes[t]))
    && (forall l :: 0 <= l < |s.links| ==> RingNoNull(s.links[l].ring))
  }

  ghost predicate InboxNoNull(inbox: seq<Msg>) {
    forall m :: 0 <= m < |inbox| && inbox[m].payload.Some? ==> inbox[m].payload.value.nonNull
  }

  ghost predicate RingNoNull(ring: seq<Block>) { forall b :: 0 <= b < |ring| ==> ring[b].nonNull }

  lemma NoNullOwnStep(s: State, i: nat)
    requires NoNulls(s) && Enabled(s, Step(i))
    ensures NoNulls(Do(s, Step(i)))
  {
    match s.tasks[i]
    case PayCounted(_, _, _) => NoNullPlaced(s, i);
    case BareReady(_) => NoNullPlaced(s, i);
    case Draining(_) => NoNullDrained(s, i);
    case _ => NoNullInHand(s, i);
  }

  lemma NoNullPlaced(s: State, i: nat)
    requires NoNulls(s) && Enabled(s, Step(i)) && (s.tasks[i].PayCounted? || s.tasks[i].BareReady?)
    ensures NoNulls(Do(s, Step(i)))
  {
  }

  lemma NoNullDrained(s: State, i: nat)
    requires NoNulls(s) && Enabled(s, Step(i)) && s.tasks[i].Draining?
    ensures NoNulls(Do(s, Step(i)))
  {
    assert RingNoNull(s.links[s.tasks[i].link].ring);
  }

  lemma NoNullInHand(s: State, i: nat)
    requires NoNulls(s) && Enabled(s, Step(i))
    requires !s.tasks[i].PayCounted? && !s.tasks[i].BareReady? && !s.tasks[i].Draining?
    ensures NoNulls(Do(s, Step(i)))
  {
    assert HoldsNoNull(s.tasks[i]);
    InHandEffect(s, i);
  }

  /** Such a step moves only its own task and counters. */
  lemma InHandEffect(s: State, i: nat)
    requires Enabled(s, Step(i)) && HoldsNoNull(s.tasks[i])
    requires !s.tasks[i].PayCounted? && !s.tasks[i].BareReady? && !s.tasks[i].Draining?
    ensures var s' := Do(s, Step(i));
            && |s'.tasks| == |s.tasks| && s'.tasks == s.tasks[i := s'.tasks[i]] && HoldsNoNull(s'.tasks[i])
            && s'.inboxes == s.inboxes && s'.links == s.links && s'.stuck == s.stuck
  {
  }

  lemma NoNullStep(s: State, a: Action)
    requires NoNulls(s) && Enabled(s, a) && !SendsNull(a)
    ensures NoNulls(Do(s, a))
  {
    match a
    case Step(i) => NoNullOwnStep(s, i);
    case _ =>
  }

  lemma {:induction false} NoNullRun(run: seq<State>, i: nat)
    requires IsCallerRun(run, false) && i < |run|
    ensures NoNulls(run[i])
  {
    if i == 0 {
    } else {
      NoNullRun(run, i - 1);
      assert CallerStep(run, i - 1, false);
      var a :| Enabled(run[i - 1], a) && run[i] == Do(run[i - 1], a) && !SendsNull(a);
      NoNullStep(run[i - 1], a);
    }
  }

  /** All four counters say exactly what is held. */
  ghost predicate Exact(s: State) {
    && s.hdrBlocks == Held(Hdrs, s) && s.hdrBytes == Held(HdrBytes, s)
    && s.payBlocks == Held(Pays, s) && s.payBytes == Held(PayBytes, s)
  }

  /** While no caller passes a null owned block the counters are exact in every state. */
  lemma CountersAreExact(run: seq<State>, i: nat)
    requires IsCallerRun(run, false) && i < |run|
    ensures Exact(run[i])
  {
    CallerRunIsRun(run, false);
    NoNullRun(run, i);
    CountersBalance(run, i);
  }

  /** One caller passing null is enough to spoil them: exactness in every state of every
      run is the same as callers never passing a null owned block. */
  lemma ExactIffNoNullOwned(mayNull: bool)
    ensures (forall run, i :: IsCallerRun(run, mayNull) && 0 <= i < |run| ==> Exact(run[i])) <==> !mayNull
  {
    if mayNull {
      var run := NullMailRun();
      NothingHeld(Pays, run[|run| - 1]);
    } else {
      forall run, i | IsCallerRun(run, false) && 0 <= i < |run| ensures Exact(run[i]) { CountersAreExact(run, i); }
    }
  }

  lemma Extended(run: seq<State>, a: Action) returns (run': seq<State>)
    requires IsCallerRun(run, true) && Enabled(run[|run| - 1], a)
    ensures run' == run + [Do(run[|run| - 1], a)] && IsCallerRun(run', true)
  {
    run' := run + [Do(run[|run| - 1], a)];
    forall i | 0 <= i < |run'| - 1 ensures CallerStep(run', i, true) {
      if i < |run| - 1 {
        assert CallerStep(run, i, true);
        var b :| Enabled(run[i], b) && run[i + 1] == Do(run[i], b);
        StepsBy(run', i, b);
      } else {
        StepsBy(run', i, a);
      }
    }
  }

  lemma StepsBy(run: seq<State>, i: nat, a: Action)
    requires i + 1 < |run| && Enabled(run[i], a) && run[i + 1] == Do(run[i], a)
    ensures CallerStep(run, i, true)
  {
  }

  /** One task with one mailbox and nothing going on. */
  const QUIET: State := State([Idle], [[]], [], 0, 0, 0, 0, 0, [], [])

  /** A task mails itself a null owned block of n bytes, as far as the mailbox. */
  lemma NullMailSent(n: nat) returns (run: seq<State>)
    ensures IsCallerRun(run, true)
    ensures run[|run| - 1] ==
            State([Idle], [[Msg(Some(Block(0, n, false)))]], [], 1, HEADER_BYTES, 1, n, 1, [], [])
  {
    run := [QUIET];
    run := Extended(run, BeginMail(0, 0, Adopt(n, false)));
    assert run[|run| - 1] == QUIET.(tasks := [HdrNew(0, Adopt(n, false))]);
    run := Extended(run, Step(0));
    assert run[|run| - 1] == QUIET.(tasks := [HdrHalf(0, Adopt(n, false))], hdrBlocks := 1);
    run := Extended(run, Step(0));
    assert run[|run| - 1] == QUIET.(tasks := [HdrCounted(0, Adopt(n, false))], hdrBlocks := 1, hdrBytes := HEADER_BYTES);
    run := NullPayload(run, n);
  }

  /** The rest of that send: the payload adopted, counted and put into the mailbox. */
  lemma NullPayload(before: seq<State>, n: nat) returns (run: seq<State>)
    requires IsCallerRun(before, true)
    requires before[|before| - 1] ==
             QUIET.(tasks := [HdrCounted(0, Adopt(n, false))], hdrBlocks := 1, hdrBytes := HEADER_BYTES)
    ensures IsCallerRun(run, true)
    ensures run[|run| - 1] ==
            State([Idle], [[Msg(Some(Block(0, n, false)))]], [], 1, HEADER_BYTES, 1, n, 1, [], [])
  {
    var b := Block(0, n, false);
    run := Extended(before, Step(0));
    run := Extended(run, Step(0));
    run := Extended(run, Step(0));
    assert run[|run| - 1] ==
           State([PayCounted(b, ToInbox(0), true)], [[]], [], 1, HEADER_BYTES, 1, n, 1, [], []);
    OneMessage(Msg(Some(b)));
    run := Extended(run, Step(0));
    assert [PayCounted(b, ToInbox(0), true)][0 := Idle] == [Idle];
  }

  /** A mailbox of its own with one message put in, and taken out again. */
  lemma OneMessage(m: Msg)
    ensures var empty: seq<seq<Msg>> := [[]]; empty[0 := empty[0] + [m]] == [[m]]
    ensures var full: seq<seq<Msg>> := [[m]]; full[0 := full[0][1..]] == [[]]
  {
    var none: seq<Msg> := [];
    assert none + [m] == [m] && [m][1..] == none;
  }

  /** And dispatches it: everything is idle and empty again, and the counter reads one. */
  lemma NullMailRun() returns (run: seq<State>)
    ensures IsCallerRun(run, true)
    ensures run[|run| - 1] == State([Idle], [[]], [], 0, 0, 1, 5, 1, [], [Block(0, 5, false)])
  {
    var b := Block(0, 5, false);
    run := NullMailSent(5);
    OneMessage(Msg(Some(b)));
    run := Extended(run, Dispatch(0, 0));
    assert [Idle][0 := Holding(b, Freed, FreeHeader)] == [Holding(b, Freed, FreeHeader)];
    assert run[|run| - 1] == State([Holding(b, Freed, FreeHeader)], [[]], [], 1, HEADER_BYTES, 1, 5, 1, [], []);
    run := Extended(run, Step(0));
    assert run[|run| - 1] == State([HdrFreed], [[]], [], 1, HEADER_BYTES, 1, 5, 1, [], [b]);
    run := Extended(run, Step(0));
    run := Extended(run, Step(0));
  }

  lemma StuckStep(s: State, a: Action)
    requires Enabled(s, a)
    ensures s.stuck <= Do(s, a).stuck
  {
  }

  lemma {:induction false} StuckGrows(run: seq<State>, i: nat, j: nat)
    requires IsRun(run) && i <= j < |run|
    ensures |run[i].stuck| <= |run[j].stuck|
    decreases j - i
  {
    if i == j {
    } else {
      StuckGrows(run, i, j - 1);
      assert StepAt(run, j - 1);
      var a :| Enabled(run[j - 1], a) && run[j] == Do(run[j - 1], a);
      StuckStep(run[j - 1], a);
    }
  }

  /** Once the payload counter has read high it reads high in every later state. */
  lemma SpoiltForGood(run: seq<State>, i: nat, j: nat)
    requires IsRun(run) && i <= j < |run| && run[i].payBlocks > Held(Pays, run[i])
    ensures run[j].payBlocks > Held(Pays, run[j])
  {
    CountersBalance(run, i);
    CountersBalance(run, j);
    StuckGrows(run, i, j);
  }

  /** Idle residue is zero: with every mailbox and ring empty and every task idle, the
      counters read zero, as long as no caller passed a null owned block. */
  lemma IdleMeansNoResidue(run: seq<State>, i: nat)
    requires IsCallerRun(run, false) && i < |run|
    requires forall j :: 0 <= j < |run[i].tasks| ==> run[i].tasks[j].Idle?
    requires forall j :: 0 <= j < |run[i].inboxes| ==> run[i].inboxes[j] == []
    requires forall l :: 0 <= l < |run[i].links| ==> run[i].links[l].ring == []
    ensures run[i].hdrBlocks == run[i].hdrBytes == run[i].payBlocks == run[i].payBytes == 0
  {
    CountersAreExact(run, i);
    NothingHeld(Hdrs, run[i]);
    NothingHeld(HdrBytes, run[i]);
    NothingHeld(Pays, run[i]);
    NothingHeld(PayBytes, run[i]);
  }

  /** Every stay of a block is in exactly one place or has ended in exactly one way:
      freed, handed off, returned, or dropped as a null pointer. */
  lemma EachBlockOnce(run: seq<State>, i: nat, k: nat)
    requires IsRun(run) && i < |run| && k < run[i].tickets
    ensures Held(Stay(k), run[i]) + ExitsOf(k, run[i].exits) + StuckOf(Stay(k), run[i].stuck) == 1
    ensures Held(Stay(k), run[i]) >= 0 && StuckOf(Stay(k), run[i].stuck) >= 0
  {
    RunInv(run, i);
    assert Balanced(Stay(k), run[i]);
    HeldNonNegative(k, run[i]);
  }

  lemma HeldNonNegative(k: nat, s: State)
    ensures Held(Stay(k), s) >= 0 && StuckOf(Stay(k), s.stuck) >= 0
  {
    var q := Stay(k);
    SumNonNegative(Tasks(q, s.tasks));
    forall j | 0 <= j < |s.inboxes| ensures Inboxes(q, s.inboxes)[j] >= 0 { SumNonNegative(Msgs(q, s.inboxes[j])); }
    SumNonNegative(Inboxes(q, s.inboxes));
    forall l | 0 <= l < |s.links| ensures Links(q, s.links)[l] >= 0 { SumNonNegative(Blocks(q, s.links[l].ring)); }
    SumNonNegative(Links(q, s.links));
    SumNonNegative(Blocks(q, s.stuck));
  }

  /** No block is freed, handed off or returned twice. */
  lemma ExitsAreUnique(run: seq<State>, i: nat, x: nat, y: nat)
    requires IsRun(run) && i < |run| && x < y < |run[i].exits|
    ensures run[i].exits[x].0.ticket != run[i].exits[y].0.ticket
  {
    var s := run[i];
    var k := s.exits[y].0.ticket;
    RunInv(run, i);
    assert Balanced(Stay(k), s);
    HeldNonNegative(k, s);
    if s.exits[x].0.ticket == k { TwoExits(k, s.exits, x, y); }
  }

  lemma {:induction false} TwoExits(k: nat, exits: seq<(Block, Exit)>, x: nat, y: nat)
    requires x < y < |exits| && exits[x].0.ticket == k && exits[y].0.ticket == k
    ensures ExitsOf(k, exits) >= 2
  {
    var last := |exits| - 1;
    if y < last { TwoExits(k, exits[..last], x, y); } else { OneExit(k, exits[..last], x); }
  }

  lemma {:induction false} OneExit(k: nat, exits: seq<(Block, Exit)>, x: nat)
    requires x < |exits| && exits[x].0.ticket == k
    ensures ExitsOf(k, exits) >= 1
  {
    var last := |exits| - 1;
    if x == last {
    } else {
      OneExit(k, exits[..last], x);
    }
  }

  // ---- Blocks that go back to their caller ----

  /** Step j of the run is task k failing to enqueue the owned block b. */
  ghost predicate FailsAt(run: seq<State>, j: nat, k: nat, b: Block)
    requires j + 1 < |run|
  {
    && k < |run[j].tasks| && run[j].tasks[k].PayCounted? && run[j].tasks[k].owned && run[j].tasks[k].b == b
    && Enabled(run[j], EnqueueFails(k)) && run[j + 1] == Do(run[j], EnqueueFails(k))
  }

  ghost predicate FailedBefore(run: seq<State>, i: nat, b: Block)
    requires i < |run|
  {
    exists j: nat, k: nat :: j < i && FailsAt(run, j, k, b)
  }

  predicate Returning(pc: Pc) { Releasing(pc) && pc.exit.Returned? }

  /** Every return under way or done goes back to a failed enqueue of that very stay. */
  ghost predicate ReturnsOk(run: seq<State>, i: nat)
    requires i < |run|
  {
    && (forall k :: 0 <= k < |run[i].tasks| && Returning(run[i].tasks[k]) ==> FailedBefore(run, i, run[i].tasks[k].b))
    && (forall x :: 0 <= x < |run[i].exits| && run[i].exits[x].1.Returned? ==> FailedBefore(run, i, run[i].exits[x].0))
  }

  /** Where a return comes from, one step back. */
  lemma ReturnOrigin(s: State, a: Action, k: nat)
    requires Enabled(s, a) && k < |Do(s, a).tasks| && Returning(Do(s, a).tasks[k])
    ensures k < |s.tasks|
    ensures var b := Do(s, a).tasks[k].b;
            || (Returning(s.tasks[k]) && s.tasks[k].b == b)
            || (a == EnqueueFails(k) && s.tasks[k].PayCounted? && s.tasks[k].owned && s.tasks[k].b == b)
  {
    StepShape(s, a);
    if !a.AcquireLink? && k == a.i {
      if a.Step? { OwnReturnOrigin(s, k); }
    }
  }

  lemma OwnReturnOrigin(s: State, k: nat)
    requires Enabled(s, Step(k)) && k < |Do(s, Step(k)).tasks| && Returning(Do(s, Step(k)).tasks[k])
    ensures Returning(s.tasks[k]) && s.tasks[k].b == Do(s, Step(k)).tasks[k].b
  {
  }

  lemma ExitOrigin(s: State, a: Action, x: nat)
    requires Enabled(s, a) && x < |Do(s, a).exits| && Do(s, a).exits[x].1.Returned?
    ensures || (x < |s.exits| && s.exits[x] == Do(s, a).exits[x])
            || (a.Step? && a.i < |s.tasks| && Returning(s.tasks[a.i]) && s.tasks[a.i].b == Do(s, a).exits[x].0)
  {
  }

  lemma Sooner(run: seq<State>, i: nat, b: Block)
    requires i + 1 < |run| && FailedBefore(run, i, b)
    ensures FailedBefore(run, i + 1, b)
  {
    var j: nat, k: nat :| j < i && FailsAt(run, j, k, b);
    assert j < i + 1 && FailsAt(run, j, k, b);
  }

  lemma ReturnsStep(run: seq<State>, i: nat, a: Action)
    requires i + 1 < |run| && ReturnsOk(run, i) && Enabled(run[i], a) && run[i + 1] == Do(run[i], a)
    ensures ReturnsOk(run, i + 1)
  {
    var s, s' := run[i], run[i + 1];
    forall k | 0 <= k < |s'.tasks| && Returning(s'.tasks[k]) ensures FailedBefore(run, i + 1, s'.tasks[k].b) {
      ReturnOrigin(s, a, k);
      if Returning(s.tasks[k]) && s.tasks[k].b == s'.tasks[k].b {
        Sooner(run, i, s'.tasks[k].b);
      } else {
        assert FailsAt(run, i, k, s'.tasks[k].b);
      }
    }
    forall x | 0 <= x < |s'.exits| && s'.exits[x].1.Returned? ensures FailedBefore(run, i + 1, s'.exits[x].0) {
      ExitOrigin(s, a, x);
      Sooner(run, i, s'.exits[x].0);
    }
  }

  lemma {:induction false} ReturnsRun(run: seq<State>, i: nat)
    requires IsRun(run) && i < |run|
    ensures ReturnsOk(run, i)
  {
    if i == 0 {
    } else {
      ReturnsRun(run, i - 1);
      assert StepAt(run, i - 1);
      var a :| Enabled(run[i - 1], a) && run[i] == Do(run[i - 1], a);
      ReturnsStep(run, i - 1, a);
    }
  }

  /** Ownership transfers on success only: a block that went back to its caller was an owned
      block of an enqueue that failed earlier in the run. */
  lemma ReturnedOnlyOnFailure(run: seq<State>, i: nat, x: nat)
    requires IsRun(run) && i < |run| && x < |run[i].exits| && run[i].exits[x].1.Returned?
    ensures FailedBefore(run, i, run[i].exits[x].0)
  {
    ReturnsRun(run, i);
  }
}
