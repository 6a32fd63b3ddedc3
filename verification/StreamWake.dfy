/** One direction of a stream or legacy-packet connection: a sender inside
    itsWaitForSpace or itsSetFreeNotify against a receiver whose consume path ends in
    wakeSenderIfReady.

    Unlike a packet link, the receiver signals only when the armed threshold is met, and
    it reads, compares and clears that threshold without a lock.  Each of those is one
    step.  C++ leaves the order of the two reads in the comparison open, so both orders
    are steps of the machine.  The connection stays up for the whole run.
  */
module StreamWake {

  datatype SenderPc =
    | SIdle
    | First(n: nat)             // enough space already?
    | Refused(n: nat)           // no: return if the timeout is 0
    | Drain(n: nat)             // loop head: clear a stale signal
    | Arm(n: nat)               // freeNotify = n
    | Check(n: nat)             // re-check after arming
    | Park(n: nat)              // blocked on spaceFreedSem
    | Woken(n: nat)             // took a token, space not yet re-read
    | Retry(n: nat)             // still not enough: time out or go round again
    | Leave                     // freeNotify = 0 on the way out
    | NotifyDrain(k: nat)       // itsSetFreeNotify: clear a stale signal
    | NotifyArm(k: nat)
    | NotifyCheck(k: nat)       // threshold already met?
    | NotifyClear
    | NotifyGive

  datatype ReceiverPc =
    | RIdle
    | Consumed                  // took bytes; wakeSenderIfReady still to run
    | Compare                   // freeNotify was non-zero
    | HaveSpaces(sp: nat)       // read the space first
    | HaveNotify(f: nat)        // read the threshold first
    | ClearNotify               // threshold met
    | GiveSem

  datatype State = State(
    capacity: nat,
    fill: nat,                  // bytes in the buffer
    freeNotify: nat,
    sem: bool,
    sender: SenderPc,
    receiver: ReceiverPc)

  function Spaces(s: State): int { s.capacity - s.fill }

  datatype Action =
    | Write(n: nat)             // an idle sender puts n bytes in
    | BeginWait(n: nat)
    | BeginNotify(k: nat)
    | SenderStep
    | WaitExpires
    | GiveUp
    | Consume(n: nat)           // the receiver takes n bytes out
    | ReceiverStep
    | ReadThresholdFirst

  predicate Enabled(s: State, a: Action) {
    match a
    case Write(n) => s.sender.SIdle? && n <= Spaces(s)
    case BeginWait(n) => s.sender.SIdle? && n > 0
    case BeginNotify(_) => s.sender.SIdle?
    case SenderStep => !s.sender.SIdle? && (s.sender.Park? ==> s.sem)
    case WaitExpires => s.sender.Park? && !s.sem
    case GiveUp => s.sender.Refused? || s.sender.Retry?
    case Consume(n) => (s.receiver.RIdle? || s.receiver.Consumed?) && 0 < n <= s.fill
    case ReceiverStep => !s.receiver.RIdle?
    case ReadThresholdFirst => s.receiver.Compare?
  }

  function Do(s: State, a: Action): State
    requires Enabled(s, a)
  {
    match a
    case Write(n) => s.(fill := s.fill + n)
    case BeginWait(n) => s.(sender := First(n))
    case BeginNotify(k) => s.(sender := NotifyDrain(k))
    case SenderStep => DoSender(s)
    case WaitExpires => s.(sender := Leave)
    case GiveUp => s.(sender := if s.sender.Refused? then SIdle else Leave)
    case Consume(n) => s.(fill := s.fill - n, receiver := Consumed)
    case ReceiverStep => DoReceiver(s)
    case ReadThresholdFirst => s.(receiver := HaveNotify(s.freeNotify))
  }

  function DoSender(s: State): State
    requires Enabled(s, SenderStep)
  {
    match s.sender
    case First(n) => s.(sender := if Spaces(s) >= n then SIdle else Refused(n))
    case Refused(n) => s.(sender := Drain(n))
    case Drain(n) => s.(sem := false, sender := Arm(n))
    case Arm(n) => s.(freeNotify := n, sender := Check(n))
    case Check(n) => s.(sender := if Spaces(s) >= n then Leave else Park(n))
    case Park(n) => s.(sem := false, sender := Woken(n))
    case Woken(n) => s.(sender := if Spaces(s) >= n then Leave else Retry(n))
    case Retry(n) => s.(sender := Drain(n))
    case Leave => s.(freeNotify := 0, sender := SIdle)
    case NotifyDrain(k) => s.(sem := false, sender := NotifyArm(k))
    case NotifyArm(k) => s.(freeNotify := k, sender := if k > 0 then NotifyCheck(k) else SIdle)
    case NotifyCheck(k) => s.(sender := if Spaces(s) >= k then NotifyClear else SIdle)
    case NotifyClear => s.(freeNotify := 0, sender := NotifyGive)
    case NotifyGive => s.(sem := true, sender := SIdle)
  }

  function DoReceiver(s: State): State
    requires Enabled(s, ReceiverStep)
  {
    match s.receiver
    case Consumed => s.(receiver := if s.freeNotify == 0 then RIdle else Compare)
    case Compare => s.(receiver := HaveSpaces(if Spaces(s) < 0 then 0 else Spaces(s)))
    case HaveSpaces(sp) => s.(receiver := if sp < s.freeNotify then RIdle else ClearNotify)
    case HaveNotify(f) => s.(receiver := if Spaces(s) < f then RIdle else ClearNotify)
    case ClearNotify => s.(freeNotify := 0, receiver := GiveSem)
    case GiveSem => s.(sem := true, receiver := RIdle)
  }

  predicate Init(s: State) {
    s.fill == 0 && s.freeNotify == 0 && !s.sem && s.sender == SIdle && s.receiver == RIdle
  }

  ghost predicate Next(s: State, s': State) {
    exists a :: Enabled(s, a) && s' == Do(s, a)
  }

  ghost predicate StepAt(run: seq<State>, i: nat)
    requires i + 1 < |run|
  {
    Next(run[i], run[i + 1])
  }

  ghost predicate IsRun(run: seq<State>) {
    && |run| > 0 && Init(run[0])
    && forall i :: 0 <= i < |run| - 1 ==> StepAt(run, i)
  }

  // ---- The inductive invariant ----

  /** The receiver has decided to signal. */
  predicate WillGive(s: State) { s.receiver.ClearNotify? || s.receiver.GiveSem? }

  /** The receiver has consumed and, finding threshold n armed and met, will decide to signal. */
  predicate WillDecide(s: State, n: nat) {
    || s.receiver.Consumed? || s.receiver.Compare?
    || (s.receiver.HaveSpaces? && s.receiver.sp >= n)
    || (s.receiver.HaveNotify? && s.receiver.f <= n)
  }

  ghost predicate Inv(s: State) {
    && s.fill <= s.capacity
    && (s.receiver.HaveSpaces? ==> s.receiver.sp >= Spaces(s))
    && ((s.sender.Check? || s.sender.Park?) ==> s.sender.n > 0)
    && (s.sender.Check? && !s.sem && !WillGive(s) ==> s.freeNotify == s.sender.n)
    && (s.sender.Park? && !s.sem && !WillGive(s) ==>
          s.freeNotify == s.sender.n && (Spaces(s) >= s.sender.n ==> WillDecide(s, s.sender.n)))
    && ((s.sender.First? || s.sender.Refused? || s.sender.Drain? || s.sender.Arm? || s.sender.Woken? || s.sender.Retry?) ==>
          s.sender.n > 0)
  }

  lemma StepInv(s: State, a: Action)
    requires Inv(s) && Enabled(s, a)
    ensures Inv(Do(s, a))
  {
  }

  lemma {:induction false} RunInv(run: seq<State>, i: nat)
    requires IsRun(run) && i < |run|
    ensures Inv(run[i])
  {
    if i == 0 {
    } else {
      RunInv(run, i - 1);
      assert StepAt(run, i - 1);
      var a :| Enabled(run[i - 1], a) && run[i] == Do(run[i - 1], a);
      StepInv(run[i - 1], a);
    }
  }

  // ---- What a run guarantees ----

  /** The receiver, run alone from here, gives the semaphore within five of its steps,
      whichever of its two reads comes first. */
  predicate GivesAlone(s: State) { GivesWithin(s, 5) }

  predicate GivesWithin(s: State, k: nat)
    decreases k
  {
    || s.sem
    || (k > 0 && !s.receiver.RIdle? && GivesWithin(Do(s, ReceiverStep), k - 1)
        && (s.receiver.Compare? ==> GivesWithin(Do(s, ReadThresholdFirst), k - 1)))
  }

  /** How many receiver steps the signal is away. */
  function StepsToGive(r: ReceiverPc): nat {
    match r
    case Consumed => 5
    case Compare => 4
    case GiveSem => 1
    case ClearNotify => 2
    case RIdle => 0
    case _ => 3
  }

  /** A parked sender's request that would be met stays so while only the receiver runs. */
  lemma {:induction false} ReceiverGives(s: State, k: nat)
    requires Inv(s) && s.sender.Park? && Spaces(s) >= s.sender.n && StepsToGive(s.receiver) <= k
    ensures GivesWithin(s, k)
    decreases k
  {
    if s.sem {
    } else {
      StepInv(s, ReceiverStep);
      ReceiverGives(Do(s, ReceiverStep), k - 1);
      if s.receiver.Compare? {
        StepInv(s, ReadThresholdFirst);
        ReceiverGives(Do(s, ReadThresholdFirst), k - 1);
      }
    }
  }

  /** No lost wake-up: a parked sender whose request would be met now has a token, or
      the receiver steps already under way give one, in either order of its reads.  This
      holds although the receiver may clear a threshold armed after it decided, as happens
      when itsSetFreeNotify armed a smaller one earlier. */
  lemma ParkedSenderWillWake(run: seq<State>, i: nat)
    requires IsRun(run) && i < |run|
    requires run[i].sender.Park? && Spaces(run[i]) >= run[i].sender.n
    ensures GivesAlone(run[i])
  {
    RunInv(run, i);
    ReceiverGives(run[i], 5);
  }

  /** When the receiver has finished and the buffer is empty, a parked sender that asked
      for no more than the buffer holds has its token. */
  lemma DrainedBufferWakesSender(run: seq<State>, i: nat)
    requires IsRun(run) && i < |run|
    requires run[i].sender.Park? && run[i].fill == 0 && run[i].receiver.RIdle?
    requires run[i].sender.n <= run[i].capacity
    ensures run[i].sem
  {
    RunInv(run, i);
  }

  /** A threshold the receiver cleared under a parked sender costs it nothing but one
      extra trip round its loop: until it is armed again a token is there or coming. */
  lemma ClearedThresholdIsMadeGood(run: seq<State>, i: nat)
    requires IsRun(run) && i < |run|
    requires run[i].sender.Park? && run[i].freeNotify != run[i].sender.n
    ensures run[i].sem || WillGive(run[i])
  {
    RunInv(run, i);
  }
}
