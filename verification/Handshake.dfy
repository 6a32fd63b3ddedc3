/** The connect / ack / cancel handshake of the inter-task transport.

    One server task, any number of client tasks.  Every queue operation, semaphore
    operation and plain write to a client's ack fields is one step, and steps of all
    tasks interleave freely.  A timeout is a step that may happen whenever the wait
    would block.  Nonces are unbounded, so each (client, nonce) names one connect.
  */
module Handshake {

  const MAX_CONNS: nat := 128

  /** One call of itsConnect: the client task and the nonce it drew. */
  datatype Key = Key(client: nat, nonce: nat)

  datatype Msg =
    | Connect(key: Key)
    | Cancel(key: Key)

  /** Where a client stands inside itsConnectByTaskHandle. */
  datatype ClientPc =
    | Idle
    | Drained                  // stale ack token taken
    | Cleared                  // ackHandle = -1
    | Tagged(nonce: nat)       // nonce drawn, CONNECT not yet posted
    | Waiting(nonce: nat)      // blocked on ackSem
    | Woken(nonce: nat)        // took a token, ackNonce not yet read
    | Matched(nonce: nat)      // ackNonce was ours, ackHandle not yet read
    | TimedOut(nonce: nat)     // gave up, CANCEL not yet posted

  datatype ClientState = ClientState(
    pc: ClientPc,
    token: bool,               // the binary ackSem
    ackHandle: int,
    ackNonce: nat,
    gen: nat,                  // connectGen
    served: nat)               // history: highest nonce of this client the server has dispatched

  /** Where the server stands inside processInboxMsg for a CONNECT. */
  datatype ServerPc =
    | Polling
    | WriteHandle(key: Key, handle: int)
    | WriteNonce(key: Key, handle: int)
    | GiveAck(key: Key, handle: int)

  datatype State = State(
    clients: seq<ClientState>,
    inbox: seq<Msg>,
    server: ServerPc,
    conns: map<nat, Key>,      // live entries of connTable: handle -> (clientTask, connectNonce)
    answered: map<Key, int>,   // history: what the server decided for a connect (-1 = rejected)
    returned: map<Key, int>,   // history: what itsConnect returned
    posted: set<Key>,          // history: connects whose CANCEL entered the inbox
    reaped: set<Key>,          // history: CANCELs the server has dispatched
    lost: set<Key>)            // history: connects whose CANCEL could not be posted

  datatype Action =
    | Drain(c: nat)
    | Clear(c: nat)
    | Tag(c: nat)
    | PostConnect(c: nat)
    | PostConnectFails(c: nat)
    | Take(c: nat)
    | Timeout(c: nat)
    | ReadNonce(c: nat)
    | ReadHandle(c: nat)
    | PostCancel(c: nat)
    | PostCancelFails(c: nat)
    | Accept(h: nat)
    | Reject
    | AckHandle
    | AckNonce
    | AckGive
    | DispatchCancel
    | Disconnect(h: nat)       // either end frees a live connection

  predicate ClientAction(a: Action) {
    a.Drain? || a.Clear? || a.Tag? || a.PostConnect? || a.PostConnectFails? || a.Take? || a.Timeout? ||
    a.ReadNonce? || a.ReadHandle? || a.PostCancel? || a.PostCancelFails?
  }

  /** The server is back in itsPoll and its inbox is not empty. */
  predicate Dispatchable(s: State) {
    s.server.Polling? && s.inbox != [] && s.inbox[0].key.client < |s.clients|
  }

  predicate Enabled(s: State, a: Action) {
    if ClientAction(a) then
      a.c < |s.clients| &&
      var k := s.clients[a.c];
      match a
      case Drain(_) => k.pc.Idle?
      case Clear(_) => k.pc.Drained?
      case Tag(_) => k.pc.Cleared?
      case PostConnect(_) => k.pc.Tagged?
      case PostConnectFails(_) => k.pc.Tagged?
      case Take(_) => k.pc.Waiting? && k.token
      case Timeout(_) => k.pc.Waiting? && !k.token
      case ReadNonce(_) => k.pc.Woken?
      case ReadHandle(_) => k.pc.Matched?
      case PostCancel(_) => k.pc.TimedOut?
      case PostCancelFails(_) => k.pc.TimedOut?
      case _ => false
    else
      match a
      case Accept(h) => Dispatchable(s) && s.inbox[0].Connect? && h < MAX_CONNS && h !in s.conns
      case Reject => Dispatchable(s) && s.inbox[0].Connect?
      case AckHandle => s.server.WriteHandle? && s.server.key.client < |s.clients|
      case AckNonce => s.server.WriteNonce? && s.server.key.client < |s.clients|
      case AckGive => s.server.GiveAck? && s.server.key.client < |s.clients|
      case DispatchCancel => Dispatchable(s) && s.inbox[0].Cancel?
      case Disconnect(h) => h in s.conns
      case _ => false
  }

  /** The lowest live handle at or above h that carries the given connect: the
      table walk of the CANCEL arm, which stops at its first hit. */
  function FirstOf(conns: map<nat, Key>, key: Key, h: nat): (r: nat)
    requires h <= MAX_CONNS
    ensures h <= r <= MAX_CONNS
    ensures r < MAX_CONNS ==> r in conns && conns[r] == key
    ensures forall i :: h <= i < r ==> !(i in conns && conns[i] == key)
    decreases MAX_CONNS - h
  {
    if h == MAX_CONNS || (h in conns && conns[h] == key) then h else FirstOf(conns, key, h + 1)
  }

  function Reap(conns: map<nat, Key>, key: Key): map<nat, Key> {
    var h := FirstOf(conns, key, 0);
    if h < MAX_CONNS then conns - {h} else conns
  }

  function Do(s: State, a: Action): State
    requires Enabled(s, a)
  {
    if ClientAction(a) then DoClient(s, a) else DoServer(s, a)
  }

  function DoClient(s: State, a: Action): State
    requires ClientAction(a) && Enabled(s, a)
  {
    var c := a.c;
    var k := s.clients[c];
    match a
    case Drain(_) => s.(clients := s.clients[c := k.(pc := Drained, token := false)])
    case Clear(_) => s.(clients := s.clients[c := k.(pc := Cleared, ackHandle := -1)])
    case Tag(_) => s.(clients := s.clients[c := k.(pc := Tagged(k.gen + 1), gen := k.gen + 1)])
    case PostConnect(_) =>
      s.(clients := s.clients[c := k.(pc := Waiting(k.pc.nonce))],
         inbox := s.inbox + [Connect(Key(c, k.pc.nonce))])
    case PostConnectFails(_) =>
      s.(clients := s.clients[c := k.(pc := Idle)],
         returned := s.returned[Key(c, k.pc.nonce) := -1])
    case Take(_) => s.(clients := s.clients[c := k.(pc := Woken(k.pc.nonce), token := false)])
    case Timeout(_) => s.(clients := s.clients[c := k.(pc := TimedOut(k.pc.nonce))])
    case ReadNonce(_) =>
      s.(clients := s.clients[c := k.(pc := if k.ackNonce == k.pc.nonce then Matched(k.pc.nonce)
                                            else Waiting(k.pc.nonce))])
    case ReadHandle(_) =>
      s.(clients := s.clients[c := k.(pc := Idle)],
         returned := s.returned[Key(c, k.pc.nonce) := if k.ackHandle < 0 then -1 else k.ackHandle])
    case PostCancel(_) =>
      s.(clients := s.clients[c := k.(pc := Idle)],
         inbox := s.inbox + [Cancel(Key(c, k.pc.nonce))],
         posted := s.posted + {Key(c, k.pc.nonce)},
         returned := s.returned[Key(c, k.pc.nonce) := -1])
    case PostCancelFails(_) =>
      s.(clients := s.clients[c := k.(pc := Idle)],
         returned := s.returned[Key(c, k.pc.nonce) := -1],
         lost := s.lost + {Key(c, k.pc.nonce)})
  }

  /** Take the head message off the inbox. */
  function Dispatch(s: State): State
    requires Dispatchable(s)
  {
    var key := s.inbox[0].key;
    var k := s.clients[key.client];
    s.(inbox := s.inbox[1..],
       clients := s.clients[key.client := k.(served := if key.nonce > k.served then key.nonce else k.served)])
  }

  function DoServer(s: State, a: Action): State
    requires !ClientAction(a) && Enabled(s, a)
  {
    match a
    case Accept(h) =>
      var key := s.inbox[0].key;
      Dispatch(s).(server := WriteHandle(key, h), conns := s.conns[h := key], answered := s.answered[key := h])
    case Reject =>
      var key := s.inbox[0].key;
      Dispatch(s).(server := WriteHandle(key, -1), answered := s.answered[key := -1])
    case AckHandle =>
      var c := s.server.key.client;
      s.(clients := s.clients[c := s.clients[c].(ackHandle := s.server.handle)],
         server := WriteNonce(s.server.key, s.server.handle))
    case AckNonce =>
      var c := s.server.key.client;
      s.(clients := s.clients[c := s.clients[c].(ackNonce := s.server.key.nonce)],
         server := GiveAck(s.server.key, s.server.handle))
    case AckGive =>
      var c := s.server.key.client;
      s.(clients := s.clients[c := s.clients[c].(token := true)], server := Polling)
    case DispatchCancel =>
      var key := s.inbox[0].key;
      Dispatch(s).(conns := Reap(s.conns, key), reaped := s.reaped + {key})
    case Disconnect(h) => s.(conns := s.conns - {h})
  }

  predicate Init(s: State) {
    && (forall c :: 0 <= c < |s.clients| ==> s.clients[c] == ClientState(Idle, false, -1, 0, 0, 0))
    && s.inbox == [] && s.server == Polling && s.conns == map[]
    && s.answered == map[] && s.returned == map[] && s.posted == {} && s.reaped == {} && s.lost == {}
  }

  ghost predicate Next(s: State, s': State) {
    exists a :: Enabled(s, a) && s' == Do(s, a)
  }

  ghost predicate IsRun(run: seq<State>) {
    && |run| > 0 && Init(run[0])
    && forall i :: 0 <= i < |run| - 1 ==> StepAt(run, i)
  }

  ghost predicate StepAt(run: seq<State>, i: nat)
    requires i + 1 < |run|
  {
    Next(run[i], run[i + 1])
  }

  // ---- The inductive invariant ----

  /** The connect a client is in the middle of, from drawing the nonce to returning. */
  ghost predicate InProgress(k: ClientState, nonce: nat) {
    Busy(k) && k.pc.nonce == nonce
  }

  ghost predicate Busy(k: ClientState) {
    k.pc.Tagged? || k.pc.Waiting? || k.pc.Woken? || k.pc.Matched? || k.pc.TimedOut?
  }

  ghost predicate Acking(s: State, key: Key) {
    !s.server.Polling? && s.server.key == key
  }

  ghost predicate Known(s: State, key: Key) {
    key.client < |s.clients| && 1 <= key.nonce <= s.clients[key.client].gen
  }

  /** A client's counters, and the nonce of the connect it is in. */
  ghost predicate TagOk(s: State, c: nat, k: ClientState) {
    var key := Key(c, k.gen);
    && k.ackNonce <= k.served <= k.gen
    && (Busy(k) ==> k.pc.nonce == k.gen && k.gen >= 1 && key !in s.returned && key !in s.posted && key !in s.lost)
    && (k.pc.Tagged? ==> k.served < k.gen)
    && (k.pc.Matched? ==> k.ackNonce == k.gen)
  }

  /** Once the ack nonce is ours the ack handle is ours too, and once the server has
      answered the ack is there to be taken. */
  ghost predicate AnswerOk(s: State, c: nat, k: ClientState) {
    var key := Key(c, k.gen);
    && (Busy(k) && !k.pc.TimedOut? && k.ackNonce == k.gen ==> key in s.answered && k.ackHandle == s.answered[key])
    && ((k.pc.Waiting? || k.pc.Woken?) && key in s.answered && !Acking(s, key) ==>
          k.ackNonce == k.gen && (k.pc.Waiting? ==> k.token))
  }

  /** The three ack writes are those of the connect being answered. */
  ghost predicate AckOk(s: State) {
    !s.server.Polling? ==>
      && var key := s.server.key;
      && Known(s, key) && key in s.answered && s.answered[key] == s.server.handle
      && var k := s.clients[key.client];
      && k.served == key.nonce
      && (s.server.GiveAck? ==> k.ackNonce == key.nonce)
      && (!s.server.GiveAck? ==> k.ackNonce < key.nonce)
      && (InProgress(k, key.nonce) && s.server.WriteNonce? ==> k.ackHandle == s.server.handle)
  }

  /** Every queued message belongs to a connect someone still answers for, and a
      queued CONNECT is newer than anything of its client dispatched before it. */
  ghost predicate InboxOk(s: State) {
    forall i :: 0 <= i < |s.inbox| ==>
      var key := s.inbox[i].key;
      && Known(s, key)
      && (s.inbox[i].Connect? ==> s.clients[key.client].served < key.nonce && Claimed(s, key))
      && (s.inbox[i].Cancel? ==> key in s.posted)
      && (s.clients[key.client].pc.Tagged? ==> key.nonce < s.clients[key.client].gen)
  }

  /** Messages of one client are queued in the order it posted them. */
  ghost predicate OrderOk(s: State) {
    forall i, j :: 0 <= i < j < |s.inbox| && s.inbox[i].key.client == s.inbox[j].key.client && s.inbox[j].Connect? ==>
      s.inbox[i].key.nonce < s.inbox[j].key.nonce
  }

  ghost predicate ServedOk(s: State) {
    && (forall key :: key in s.answered ==> Known(s, key) && key.nonce <= s.clients[key.client].served)
    && (forall key :: key in s.reaped ==> Known(s, key) && key.nonce <= s.clients[key.client].served && key in s.posted)
  }

  ghost predicate ReturnedOk(s: State) {
    && (forall key :: key in s.returned ==>
          && Known(s, key)
          && (s.returned[key] != -1 ==> key in s.answered && s.answered[key] == s.returned[key]))
    && (forall key :: key in s.posted || key in s.lost ==> key in s.returned && s.returned[key] == -1)
  }

  ghost predicate ConnsOk(s: State) {
    forall h :: h in s.conns ==>
      var key := s.conns[h];
      && h < MAX_CONNS && key in s.answered && s.answered[key] == h
      && key !in s.reaped
      && (Claimed(s, key) || (key in s.returned && s.returned[key] == h))
  }

  /** Someone still answers for this connect: its client is inside itsConnect, its
      CANCEL is on the way, or its CANCEL could not be posted. */
  ghost predicate Claimed(s: State, key: Key) {
    || (key.client < |s.clients| && InProgress(s.clients[key.client], key.nonce))
    || (key in s.posted && key !in s.reaped)
    || key in s.lost
  }

  ghost predicate TagsOk(s: State) {
    forall c :: 0 <= c < |s.clients| ==> TagOk(s, c, s.clients[c])
  }

  ghost predicate AnswersOk(s: State) {
    forall c :: 0 <= c < |s.clients| ==> AnswerOk(s, c, s.clients[c])
  }

  ghost predicate Inv(s: State) {
    && TagsOk(s) && AnswersOk(s) && AckOk(s) && InboxOk(s) && OrderOk(s) && ServedOk(s) && ReturnedOk(s) && ConnsOk(s)
  }

  // ---- Every step keeps it ----

  /** The client leaves itsConnect by this step. */
  predicate Leaves(a: Action) { a.PostConnectFails? || a.ReadHandle? || a.PostCancel? || a.PostCancelFails? }

  lemma ClientKeepsTags(s: State, a: Action)
    requires TagsOk(s) && ReturnedOk(s)
    requires Enabled(s, a) && ClientAction(a)
    ensures TagsOk(Do(s, a))
  {
    if Leaves(a) { LeavingKeepsTags(s, a); } else { StayingKeepsTags(s, a); }
  }

  lemma LeavingKeepsTags(s: State, a: Action)
    requires TagsOk(s) && ReturnedOk(s)
    requires Enabled(s, a) && ClientAction(a) && Leaves(a)
    ensures TagsOk(Do(s, a))
  {
  }

  lemma StayingKeepsTags(s: State, a: Action)
    requires TagsOk(s) && ReturnedOk(s)
    requires Enabled(s, a) && ClientAction(a) && !Leaves(a)
    ensures TagsOk(Do(s, a))
  {
  }

  lemma ClientKeepsAnswers(s: State, a: Action)
    requires TagsOk(s) && AnswersOk(s) && ServedOk(s)
    requires Enabled(s, a) && ClientAction(a)
    ensures AnswersOk(Do(s, a))
  {
    var s' := Do(s, a);
    forall c | 0 <= c < |s'.clients| ensures AnswerOk(s', c, s'.clients[c]) {
      assert TagOk(s, c, s.clients[c]) && AnswerOk(s, c, s.clients[c]);
    }
  }

  lemma ClientKeepsAck(s: State, a: Action)
    requires TagsOk(s) && AnswersOk(s) && AckOk(s)
    requires Enabled(s, a) && ClientAction(a)
    ensures AckOk(Do(s, a))
  {
  }

  lemma ClientKeepsOrder(s: State, a: Action)
    requires TagsOk(s) && InboxOk(s) && OrderOk(s)
    requires Enabled(s, a) && ClientAction(a)
    ensures OrderOk(Do(s, a))
  {
  }

  lemma ClientKeepsInbox(s: State, a: Action)
    requires TagsOk(s) && InboxOk(s) && ServedOk(s)
    requires Enabled(s, a) && ClientAction(a)
    ensures InboxOk(Do(s, a))
  {
    if Leaves(a) { LeavingKeepsInbox(s, a); } else { StayingKeepsInbox(s, a); }
  }

  lemma LeavingKeepsInbox(s: State, a: Action)
    requires TagsOk(s) && InboxOk(s) && ServedOk(s)
    requires Enabled(s, a) && ClientAction(a) && Leaves(a)
    ensures InboxOk(Do(s, a))
  {
  }

  lemma StayingKeepsInbox(s: State, a: Action)
    requires TagsOk(s) && InboxOk(s) && ServedOk(s)
    requires Enabled(s, a) && ClientAction(a) && !Leaves(a)
    ensures InboxOk(Do(s, a))
  {
    if a.PostConnect? { PostingKeepsInbox(s, a); } else { WaitingKeepsInbox(s, a); }
  }

  lemma PostingKeepsInbox(s: State, a: Action)
    requires TagsOk(s) && InboxOk(s) && ServedOk(s)
    requires Enabled(s, a) && a.PostConnect?
    ensures InboxOk(Do(s, a))
  {
  }

  lemma WaitingKeepsInbox(s: State, a: Action)
    requires TagsOk(s) && InboxOk(s)
    requires Enabled(s, a) && ClientAction(a) && !Leaves(a) && !a.PostConnect?
    ensures InboxOk(Do(s, a))
  {
  }

  lemma ClientKeepsReturned(s: State, a: Action)
    requires TagsOk(s) && AnswersOk(s) && ServedOk(s) && ReturnedOk(s)
    requires Enabled(s, a) && ClientAction(a)
    ensures ReturnedOk(Do(s, a))
  {
  }

  lemma ClientKeepsServed(s: State, a: Action)
    requires ServedOk(s)
    requires Enabled(s, a) && ClientAction(a)
    ensures ServedOk(Do(s, a))
  {
  }

  lemma ClientKeepsConns(s: State, a: Action)
    requires TagsOk(s) && ConnsOk(s) && ReturnedOk(s) && ServedOk(s) && AnswersOk(s)
    requires Enabled(s, a) && ClientAction(a)
    ensures ConnsOk(Do(s, a))
  {
    if Leaves(a) { LeavingKeepsConns(s, a); } else { StayingKeepsConns(s, a); }
  }

  lemma LeavingKeepsConns(s: State, a: Action)
    requires TagsOk(s) && ConnsOk(s) && ReturnedOk(s) && ServedOk(s) && AnswersOk(s)
    requires Enabled(s, a) && ClientAction(a) && Leaves(a)
    ensures ConnsOk(Do(s, a))
  {
  }

  lemma StayingKeepsConns(s: State, a: Action)
    requires ConnsOk(s) && TagsOk(s)
    requires Enabled(s, a) && ClientAction(a) && !Leaves(a)
    ensures ConnsOk(Do(s, a))
  {
  }

  lemma ServerKeepsTags(s: State, a: Action)
    requires TagsOk(s) && AckOk(s) && InboxOk(s)
    requires Enabled(s, a) && !ClientAction(a)
    ensures TagsOk(Do(s, a))
  {
  }

  lemma ServerKeepsAnswers(s: State, a: Action)
    requires TagsOk(s) && AnswersOk(s) && AckOk(s) && InboxOk(s) && ServedOk(s)
    requires Enabled(s, a) && !ClientAction(a)
    ensures AnswersOk(Do(s, a))
  {
    var s' := Do(s, a);
    forall c | 0 <= c < |s'.clients| ensures AnswerOk(s', c, s'.clients[c]) {
      assert TagOk(s, c, s.clients[c]) && AnswerOk(s, c, s.clients[c]);
    }
  }

  lemma ServerKeepsAck(s: State, a: Action)
    requires TagsOk(s) && AckOk(s) && InboxOk(s)
    requires Enabled(s, a) && !ClientAction(a)
    ensures AckOk(Do(s, a))
  {
  }

  lemma ServerKeepsOrder(s: State, a: Action)
    requires OrderOk(s)
    requires Enabled(s, a) && !ClientAction(a)
    ensures OrderOk(Do(s, a))
  {
  }

  lemma ServerKeepsInbox(s: State, a: Action)
    requires InboxOk(s) && OrderOk(s) && ServedOk(s) && AckOk(s)
    requires Enabled(s, a) && !ClientAction(a)
    ensures InboxOk(Do(s, a))
  {
    if a.Accept? || a.Reject? || a.DispatchCancel? { DispatchKeepsInbox(s, a); } else { AckKeepsInbox(s, a); }
  }

  lemma DispatchKeepsInbox(s: State, a: Action)
    requires InboxOk(s) && OrderOk(s) && ServedOk(s)
    requires Enabled(s, a) && (a.Accept? || a.Reject? || a.DispatchCancel?)
    ensures InboxOk(Do(s, a))
  {
  }

  lemma AckKeepsInbox(s: State, a: Action)
    requires InboxOk(s) && AckOk(s)
    requires Enabled(s, a) && !ClientAction(a) && !a.Accept? && !a.Reject? && !a.DispatchCancel?
    ensures InboxOk(Do(s, a))
  {
  }

  lemma ServerKeepsServed(s: State, a: Action)
    requires ServedOk(s) && InboxOk(s)
    requires Enabled(s, a) && !ClientAction(a)
    ensures ServedOk(Do(s, a))
  {
    if a.Accept? || a.Reject? || a.DispatchCancel? { DispatchKeepsServed(s, a); } else { AckKeepsServed(s, a); }
  }

  lemma DispatchKeepsServed(s: State, a: Action)
    requires ServedOk(s) && InboxOk(s)
    requires Enabled(s, a) && !ClientAction(a)
    requires a.Accept? || a.Reject? || a.DispatchCancel?
    ensures ServedOk(Do(s, a))
  {
  }

  lemma AckKeepsServed(s: State, a: Action)
    requires ServedOk(s) && InboxOk(s)
    requires Enabled(s, a) && !ClientAction(a)
    requires !a.Accept? && !a.Reject? && !a.DispatchCancel?
    ensures ServedOk(Do(s, a))
  {
  }

  lemma ServerKeepsReturned(s: State, a: Action)
    requires ReturnedOk(s) && InboxOk(s) && ServedOk(s)
    requires Enabled(s, a) && !ClientAction(a)
    ensures ReturnedOk(Do(s, a))
  {
  }

  lemma ConnectKeepsConns(s: State, a: Action)
    requires ConnsOk(s) && InboxOk(s) && ServedOk(s)
    requires Enabled(s, a) && (a.Accept? || a.Reject?)
    ensures ConnsOk(Do(s, a))
  {
  }

  lemma CancelKeepsConns(s: State)
    requires ConnsOk(s) && InboxOk(s) && ReturnedOk(s)
    requires Enabled(s, DispatchCancel)
    ensures ConnsOk(Do(s, DispatchCancel))
  {
  }

  lemma AckKeepsConns(s: State, a: Action)
    requires ConnsOk(s)
    requires Enabled(s, a) && !ClientAction(a) && !(a.Accept? || a.Reject? || a.DispatchCancel?)
    ensures ConnsOk(Do(s, a))
  {
  }

  lemma StepInv(s: State, a: Action)
    requires Inv(s) && Enabled(s, a)
    ensures Inv(Do(s, a))
  {
    if ClientAction(a) {
      ClientKeepsTags(s, a);
      ClientKeepsAnswers(s, a);
      ClientKeepsAck(s, a);
      ClientKeepsOrder(s, a);
      ClientKeepsInbox(s, a);
      ClientKeepsReturned(s, a);
      ClientKeepsServed(s, a);
      ClientKeepsConns(s, a);
    } else {
      ServerKeepsTags(s, a);
      ServerKeepsAnswers(s, a);
      ServerKeepsAck(s, a);
      ServerKeepsOrder(s, a);
      ServerKeepsInbox(s, a);
      ServerKeepsServed(s, a);
      ServerKeepsReturned(s, a);
      if a.DispatchCancel? {
        CancelKeepsConns(s);
      } else if a.Accept? || a.Reject? {
        ConnectKeepsConns(s, a);
      } else {
        AckKeepsConns(s, a);
      }
    }
  }

  lemma NextInv(s: State, s': State)
    requires Inv(s) && Next(s, s')
    ensures Inv(s')
  {
    var a :| Enabled(s, a) && s' == Do(s, a);
    StepInv(s, a);
  }

  /** Every state of every run satisfies the invariant. */
  lemma {:induction false} RunInv(run: seq<State>, i: nat)
    requires IsRun(run) && i < |run|
    ensures Inv(run[i])
  {
    if i == 0 {
    } else {
      RunInv(run, i - 1);
      assert StepAt(run, i - 1);
      NextInv(run[i - 1], run[i]);
    }
  }

  /** A queued-message fact that only the theorems about what is still on its way need. */
  ghost predicate QueuedOk(s: State) {
    && (forall key :: key in s.posted && key !in s.reaped ==> Cancel(key) in s.inbox)
    && (forall c :: 0 <= c < |s.clients| && (s.clients[c].pc.Waiting? || s.clients[c].pc.Woken?) ==>
          Connect(Key(c, s.clients[c].pc.nonce)) in s.inbox || Key(c, s.clients[c].pc.nonce) in s.answered)
  }

  lemma StepQueued(s: State, a: Action)
    requires QueuedOk(s) && Enabled(s, a)
    ensures QueuedOk(Do(s, a))
  {
    var s' := Do(s, a);
    if a.PostConnect? || a.PostCancel? {
      assert s'.inbox[|s.inbox|] in s'.inbox;
      assert forall m :: m in s.inbox ==> m in s'.inbox;
    } else if a.Accept? || a.Reject? || a.DispatchCancel? {
      assert s.inbox == [s.inbox[0]] + s'.inbox;
      assert forall m :: m in s.inbox ==> m == s.inbox[0] || m in s'.inbox;
    }
  }

  lemma {:induction false} RunQueued(run: seq<State>, i: nat)
    requires IsRun(run) && i < |run|
    ensures QueuedOk(run[i])
  {
    if i == 0 {
    } else {
      RunQueued(run, i - 1);
      assert StepAt(run, i - 1);
      var a :| Enabled(run[i - 1], a) && run[i] == Do(run[i - 1], a);
      StepQueued(run[i - 1], a);
    }
  }

  // ---- What a run guarantees ----

  /** A handle that itsConnect returned is the one the server allocated while
      dispatching that very (client, nonce), and it is one of the table's handles. */
  lemma ReturnedHandleIsOurs(run: seq<State>, i: nat, key: Key)
    requires IsRun(run) && i < |run|
    requires key in run[i].returned && run[i].returned[key] != -1
    ensures key in run[i].answered && run[i].answered[key] == run[i].returned[key]
    ensures run[i].returned[key] >= 0
  {
    RunInv(run, i);
    RunAnswers(run, i);
  }

  ghost predicate AnswersInTable(s: State) {
    forall key :: key in s.answered ==> -1 <= s.answered[key] < MAX_CONNS
  }

  /** What the server answers is a table handle or the rejection -1. */
  lemma {:induction false} RunAnswers(run: seq<State>, i: nat)
    requires IsRun(run) && i < |run|
    ensures AnswersInTable(run[i])
  {
    if i == 0 {
    } else {
      RunAnswers(run, i - 1);
      AnswersStep(run, i - 1);
    }
  }

  lemma AnswersStep(run: seq<State>, i: nat)
    requires i + 1 < |run| && StepAt(run, i)
    requires AnswersInTable(run[i])
    ensures AnswersInTable(run[i + 1])
  {
  }

  /** No ack is lost to a stale token: a client blocked in its wait, whose connect the
      server has finished answering, finds a token, its own nonce and its own handle. */
  lemma AnsweredClientCanReturn(run: seq<State>, i: nat, c: nat)
    requires IsRun(run) && i < |run|
    requires c < |run[i].clients| && run[i].clients[c].pc.Waiting?
    requires Key(c, run[i].clients[c].pc.nonce) in run[i].answered
    requires !Acking(run[i], Key(c, run[i].clients[c].pc.nonce))
    ensures var k := run[i].clients[c];
            k.token && k.ackNonce == k.pc.nonce && k.ackHandle == run[i].answered[Key(c, k.pc.nonce)]
  {
    RunInv(run, i);
  }

  /** A waiting client is never forgotten: its CONNECT is queued, or is being answered,
      or its ack is ready. */
  lemma WaitingClientIsServed(run: seq<State>, i: nat, c: nat)
    requires IsRun(run) && i < |run|
    requires c < |run[i].clients| && run[i].clients[c].pc.Waiting?
    ensures var k := run[i].clients[c];
            var key := Key(c, k.pc.nonce);
            Connect(key) in run[i].inbox || Acking(run[i], key) || (k.token && k.ackNonce == k.pc.nonce)
  {
    RunInv(run, i);
    RunQueued(run, i);
  }

  /** Once a CANCEL has been dispatched, no connection of that connect is live, then
      or in any later state. */
  lemma CancelledStaysDead(run: seq<State>, i: nat, j: nat, key: Key, h: nat)
    requires IsRun(run) && i <= j < |run|
    requires key in run[i].reaped
    ensures key in run[j].reaped
    ensures !(h in run[j].conns && run[j].conns[h] == key)
  {
    RunInv(run, j);
    ReapedGrows(run, i, j);
  }

  lemma {:induction false} ReapedGrows(run: seq<State>, i: nat, j: nat)
    requires IsRun(run) && i <= j < |run|
    ensures run[i].reaped <= run[j].reaped
  {
    if i == j {
    } else {
      ReapedGrows(run, i, j - 1);
      assert StepAt(run, j - 1);
    }
  }

  /** Dispatching a CANCEL frees no connection but the one it names, and the connect it
      names did not succeed and never will. */
  lemma CancelSparesSuccesses(run: seq<State>, i: nat)
    requires IsRun(run) && i < |run| && Enabled(run[i], DispatchCancel)
    ensures var s := run[i];
            var s' := Do(s, DispatchCancel);
            && s.inbox[0].key in s.returned && s.returned[s.inbox[0].key] == -1
            && (forall h :: h in s.conns && s.conns[h] != s.inbox[0].key ==> h in s'.conns && s'.conns[h] == s.conns[h])
            && (forall h :: h in s.conns && s.conns[h] in s.returned && s.returned[s.conns[h]] == h ==> h in s'.conns)
  {
    RunInv(run, i);
  }

  lemma RunTags(run: seq<State>, i: nat)
    requires IsRun(run) && i < |run|
    ensures TagsOk(run[i])
  {
    RunInv(run, i);
  }

  lemma NextReturns(s: State, s': State, key: Key)
    requires TagsOk(s) && Next(s, s') && key in s.returned
    ensures key in s'.returned && s'.returned[key] == s.returned[key]
  {
  }

  /** itsConnect returns once: what it returned for a connect never changes. */
  lemma {:induction false} ReturnIsFinal(run: seq<State>, i: nat, j: nat, key: Key)
    requires IsRun(run) && i <= j < |run| && key in run[i].returned
    ensures key in run[j].returned && run[j].returned[key] == run[i].returned[key]
  {
    if i == j {
    } else {
      ReturnIsFinal(run, i, j - 1, key);
      RunTags(run, j - 1);
      assert StepAt(run, j - 1);
      NextReturns(run[j - 1], run[j], key);
    }
  }

  /** No orphans: a live connection whose client is not inside that connect was handed
      to its client, or has its CANCEL queued.  The one exception is a CANCEL that
      the inbox had no room for. */
  lemma NoOrphans(run: seq<State>, i: nat, h: nat)
    requires IsRun(run) && i < |run| && h in run[i].conns
    ensures var s := run[i];
            var key := s.conns[h];
            || (key.client < |s.clients| && InProgress(s.clients[key.client], key.nonce))
            || (key in s.returned && s.returned[key] == h)
            || Cancel(key) in s.inbox
            || key in s.lost
  {
    RunInv(run, i);
    RunQueued(run, i);
  }

  lemma StepSplits(s: State, a: Action)
    requires TagsOk(s) && s.posted !! s.lost && Enabled(s, a)
    ensures Do(s, a).posted !! Do(s, a).lost
  {
  }

  /** A CANCEL was posted or lost, not both. */
  lemma {:induction false} RunSplits(run: seq<State>, i: nat)
    requires IsRun(run) && i < |run|
    ensures run[i].posted !! run[i].lost
  {
    if i == 0 {
    } else {
      RunSplits(run, i - 1);
      RunTags(run, i - 1);
      assert StepAt(run, i - 1);
      var a :| Enabled(run[i - 1], a) && run[i] == Do(run[i - 1], a);
      StepSplits(run[i - 1], a);
    }
  }

  /** Nobody answers for this live connection any more: its client is not inside the
      connect and was not given the handle, and no CANCEL is on its way. */
  ghost predicate Orphaned(s: State, h: nat)
    requires h in s.conns
  {
    var key := s.conns[h];
    && !(key.client < |s.clients| && InProgress(s.clients[key.client], key.nonce))
    && !(key in s.returned && s.returned[key] == h)
    && Cancel(key) !in s.inbox
  }

  /** The orphans are exactly the live connections whose CANCEL was lost. */
  lemma OrphansLostTheirCancel(run: seq<State>, i: nat, h: nat)
    requires IsRun(run) && i < |run| && h in run[i].conns
    ensures Orphaned(run[i], h) <==> run[i].conns[h] in run[i].lost
  {
    NoOrphans(run, i, h);
    var s, key := run[i], run[i].conns[h];
    if key in s.lost {
      RunInv(run, i);
      RunSplits(run, i);
      assert key in s.returned && s.returned[key] == -1;
      assert key.client < |s.clients| ==> TagOk(s, key.client, s.clients[key.client]);
      forall m | 0 <= m < |s.inbox| ensures s.inbox[m] != Cancel(key) {
        assert s.inbox[m].Cancel? ==> s.inbox[m].key in s.posted;
      }
    }
  }

  lemma Extended(run: seq<State>, a: Action) returns (run': seq<State>)
    requires IsRun(run) && Enabled(run[|run| - 1], a)
    ensures run' == run + [Do(run[|run| - 1], a)] && IsRun(run')
  {
    run' := run + [Do(run[|run| - 1], a)];
    forall i | 0 <= i < |run'| - 1 ensures StepAt(run', i) {
      if i < |run| - 1 {
        assert StepAt(run, i);
      } else {
        assert Enabled(run'[i], a) && run'[i + 1] == Do(run'[i], a);
      }
    }
  }

  const BASE: State := State([ClientState(Idle, false, -1, 0, 0, 0)], [], Polling, map[], map[], map[], {}, {}, {})

  /** One client, waiting on its first connect. */
  lemma FirstConnectPosted() returns (run: seq<State>)
    ensures IsRun(run)
    ensures run[|run| - 1] == BASE.(clients := [ClientState(Waiting(1), false, -1, 0, 1, 0)], inbox := [Connect(Key(0, 1))])
  {
    run := [BASE];
    run := Extended(run, Drain(0));
    run := Extended(run, Clear(0));
    assert run[|run| - 1] == BASE.(clients := [ClientState(Cleared, false, -1, 0, 0, 0)]);
    run := Extended(run, Tag(0));
    assert run[|run| - 1] == BASE.(clients := [ClientState(Tagged(1), false, -1, 0, 1, 0)]);
    run := Extended(run, PostConnect(0));
    assert run[|run| - 1].clients == [ClientState(Waiting(1), false, -1, 0, 1, 0)];
  }

  /** The server commits the connection, the client times out before the ack and its CANCEL
      finds the inbox full. */
  lemma CancelLost() returns (run: seq<State>)
    ensures IsRun(run)
    ensures var key := Key(0, 1);
            run[|run| - 1] == State([ClientState(Idle, false, -1, 0, 1, 1)], [], WriteHandle(key, 0), map[0 := key],
                                    map[key := 0], map[key := -1], {}, {}, {key})
  {
    var key := Key(0, 1);
    run := FirstConnectPosted();
    run := Extended(run, Accept(0));
    assert run[|run| - 1] == State([ClientState(Waiting(1), false, -1, 0, 1, 1)], [], WriteHandle(key, 0), map[0 := key],
                                   map[key := 0], map[], {}, {}, {});
    run := Extended(run, Timeout(0));
    assert run[|run| - 1].clients == [ClientState(TimedOut(1), false, -1, 0, 1, 1)];
    run := Extended(run, PostCancelFails(0));
    assert run[|run| - 1].clients == [ClientState(Idle, false, -1, 0, 1, 1)];
  }

  /** There are such orphans: everyone is idle again, nothing is queued, and the connection
      of the failed connect is still live. */
  lemma LostCancelOrphans() returns (run: seq<State>)
    ensures IsRun(run)
    ensures var s := run[|run| - 1];
            && s.clients == [ClientState(Idle, true, 0, 1, 1, 1)] && s.server == Polling && s.inbox == []
            && Key(0, 1) in s.returned && s.returned[Key(0, 1)] == -1
            && 0 in s.conns && Orphaned(s, 0)
  {
    run := CancelLost();
    run := Extended(run, AckHandle);
    assert run[|run| - 1].clients == [ClientState(Idle, false, 0, 0, 1, 1)];
    run := Extended(run, AckNonce);
    assert run[|run| - 1].clients == [ClientState(Idle, false, 0, 1, 1, 1)];
    run := Extended(run, AckGive);
    assert run[|run| - 1].clients == [ClientState(Idle, true, 0, 1, 1, 1)];
    OrphansLostTheirCancel(run, |run| - 1, 0);
  }

  /** At most one live connection per connect. */
  lemma OneConnectionPerConnect(run: seq<State>, i: nat, g: nat, h: nat)
    requires IsRun(run) && i < |run|
    requires g in run[i].conns && h in run[i].conns && run[i].conns[g] == run[i].conns[h]
    ensures g == h
  {
    RunInv(run, i);
  }
}
