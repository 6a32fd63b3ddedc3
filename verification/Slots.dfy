/** The connection table and the two buffer tables behind it: who holds which slot.

    A slot of the stream-buffer pool or of the packet-link table is claimed by a task
    building a connection, stored in the connection's record, taken back out by
    whichever task frees the connection, and released.  Each critical section and each
    write of a record field is one step; any task may free any handle at any time, also
    one that has since been reused.
  */
module Slots {
  import opened Sums

  const MAX_CONNS: nat := 128
  const MAX_POOL: nat := 128
  const MAX_LINKS: nat := 256

  /** Connection record: -1 in an index field means no slot.  `used` records whether the
      record was ever allocated: before that its index fields are zero, not -1. */
  datatype Conn = Conn(used: bool, active: bool, toPool: int, fromPool: int, toLink: int, fromLink: int)

  /** A stream-buffer pool entry.  `created` is false while its handle is null. */
  datatype PoolSlot = PoolSlot(inUse: bool, pooled: bool, created: bool, size: nat)

  datatype LinkSlot = LinkSlot(inUse: bool, created: bool, depth: nat)

  datatype Slot = P(i: nat) | L(i: nat)

  datatype Field = ToPool | FromPool | ToLink | FromLink

  // ---- The critical sections ----

  /** The j-th record the rotating search looks at. */
  function Turn(start: nat, j: nat): (r: nat)
    ensures r < MAX_CONNS
  {
    (start + j) % MAX_CONNS
  }

  /** Where connAlloc's rotating search ends: the first inactive record counting from
      `start`, or MAX_CONNS steps if there is none. */
  function FirstInactive(conns: seq<Conn>, start: nat, i: nat): (r: nat)
    requires |conns| == MAX_CONNS && i <= MAX_CONNS
    ensures i <= r <= MAX_CONNS
    ensures r < MAX_CONNS ==> !conns[Turn(start, r)].active
    ensures forall j :: i <= j < r ==> conns[Turn(start, j)].active
    decreases MAX_CONNS - i
  {
    if i == MAX_CONNS || !conns[Turn(start, i)].active then i
    else FirstInactive(conns, start, i + 1)
  }

  const BLANK_CONN: Conn := Conn(false, false, 0, 0, 0, 0)
  const NEW_CONN: Conn := Conn(true, true, -1, -1, -1, -1)
  const NO_CONN: Conn := Conn(true, false, -1, -1, -1, -1)

  /** The first free retained entry of exactly this size, or |pool|. */
  function FirstReusable(pool: seq<PoolSlot>, size: nat, i: nat): (r: nat)
    requires i <= |pool|
    ensures i <= r <= |pool|
    ensures r < |pool| ==> !pool[r].inUse && pool[r].pooled && pool[r].created && pool[r].size == size
    ensures forall j :: i <= j < r ==> !(!pool[j].inUse && pool[j].pooled && pool[j].created && pool[j].size == size)
    decreases |pool| - i
  {
    if i == |pool| || (!pool[i].inUse && pool[i].pooled && pool[i].created && pool[i].size == size) then i
    else FirstReusable(pool, size, i + 1)
  }

  /** The first free entry without a buffer, or |pool|. */
  function FirstEmpty(pool: seq<PoolSlot>, i: nat): (r: nat)
    requires i <= |pool|
    ensures i <= r <= |pool|
    ensures r < |pool| ==> !pool[r].inUse && !pool[r].created
    ensures forall j :: i <= j < r ==> pool[j].inUse || pool[j].created
    decreases |pool| - i
  {
    if i == |pool| || (!pool[i].inUse && !pool[i].created) then i else FirstEmpty(pool, i + 1)
  }

  /** What a claim finds: a ready slot, a slot whose buffer must still be created, or no
      room in the table. */
  datatype Claim = Ready(idx: nat) | Fresh(idx: nat) | TableFull

  /** A claim may take this entry: retained and of the right size, or without a buffer. */
  predicate PoolFits(e: PoolSlot, size: nat, noPool: bool) {
    !e.inUse && (!e.created || (!noPool && e.pooled && e.size == size))
  }

  /** The critical section of poolGet. */
  function PoolClaim(pool: seq<PoolSlot>, size: nat, noPool: bool): (r: (Claim, seq<PoolSlot>))
    ensures |pool| <= |r.1| <= |pool| + 1 && (|pool| <= MAX_POOL ==> |r.1| <= MAX_POOL)
    ensures r.0.TableFull? ==> r.1 == pool
    ensures r.0.TableFull? <==> |pool| >= MAX_POOL && forall j :: 0 <= j < |pool| ==> !PoolFits(pool[j], size, noPool)
    ensures !r.0.TableFull? ==>
              && r.0.idx < |r.1| && r.1[r.0.idx].inUse
              && (r.0.idx < |pool| ==> !pool[r.0.idx].inUse && |r.1| == |pool|)
              && (r.0.idx >= |pool| ==> r.0.idx == |pool| && |r.1| == |pool| + 1)
              && (forall j :: 0 <= j < |pool| && j != r.0.idx ==> r.1[j] == pool[j])
    ensures r.0.Ready? ==> !noPool && r.1[r.0.idx].created && r.1[r.0.idx].size == size
  {
    var i := FirstReusable(pool, size, 0);
    var e := FirstEmpty(pool, 0);
    var entry := PoolSlot(true, !noPool, false, size);
    if !noPool && i < |pool| then (Ready(i), pool[i := pool[i].(inUse := true)])
    else if e < |pool| then (Fresh(e), pool[e := entry])
    else if |pool| >= MAX_POOL then (TableFull, pool)
    else (Fresh(|pool|), pool + [entry])
  }

  function FirstSameDepth(links: seq<LinkSlot>, depth: nat, i: nat): (r: nat)
    requires i <= |links|
    ensures i <= r <= |links|
    ensures r < |links| ==> !links[r].inUse && links[r].created && links[r].depth == depth
    ensures forall j :: i <= j < r ==> !(!links[j].inUse && links[j].created && links[j].depth == depth)
    decreases |links| - i
  {
    if i == |links| || (!links[i].inUse && links[i].created && links[i].depth == depth) then i
    else FirstSameDepth(links, depth, i + 1)
  }

  function FirstRingless(links: seq<LinkSlot>, i: nat): (r: nat)
    requires i <= |links|
    ensures i <= r <= |links|
    ensures r < |links| ==> !links[r].inUse && !links[r].created
    ensures forall j :: i <= j < r ==> links[j].inUse || links[j].created
    decreases |links| - i
  {
    if i == |links| || (!links[i].inUse && !links[i].created) then i else FirstRingless(links, i + 1)
  }

  predicate LinkFits(e: LinkSlot, depth: nat) {
    !e.inUse && (!e.created || e.depth == if depth == 0 then 1 else depth)
  }

  /** The critical section of linkAcquire. */
  function LinkClaim(links: seq<LinkSlot>, depth: nat): (r: (Claim, seq<LinkSlot>))
    ensures |links| <= |r.1| <= |links| + 1 && (|links| <= MAX_LINKS ==> |r.1| <= MAX_LINKS)
    ensures r.0.TableFull? ==> r.1 == links
    ensures r.0.TableFull? <==> |links| >= MAX_LINKS && forall j :: 0 <= j < |links| ==> !LinkFits(links[j], depth)
    ensures !r.0.TableFull? ==>
              && r.0.idx < |r.1| && r.1[r.0.idx].inUse
              && (r.0.idx < |links| ==> !links[r.0.idx].inUse && |r.1| == |links|)
              && (r.0.idx >= |links| ==> r.0.idx == |links| && |r.1| == |links| + 1)
              && (forall j :: 0 <= j < |links| && j != r.0.idx ==> r.1[j] == links[j])
    ensures r.0.Ready? ==> r.1[r.0.idx].created && r.1[r.0.idx].depth == if depth == 0 then 1 else depth
  {
    var d := if depth == 0 then 1 else depth;
    var i := FirstSameDepth(links, d, 0);
    var e := FirstRingless(links, 0);
    var entry := LinkSlot(true, false, d);
    if i < |links| then (Ready(i), links[i := links[i].(inUse := true)])
    else if e < |links| then (Fresh(e), links[e := entry])
    else if |links| >= MAX_LINKS then (TableFull, links)
    else (Fresh(|links|), links + [entry])
  }

  /** poolFree: a retained entry keeps its buffer, a no_pool entry loses it. */
  function ReleasedPool(e: PoolSlot): PoolSlot {
    if e.pooled then e.(inUse := false) else PoolSlot(false, e.pooled, false, 0)
  }

  // ---- The machine ----

  datatype Task =
    | Idle
    | Building(h: nat, todo: seq<Field>)                  // processInboxMsg, between acquisitions
    | Creating(h: nat, todo: seq<Field>, slot: Slot)      // fresh slot claimed, buffer not created
    | Storing(h: nat, todo: seq<Field>, slot: Slot)       // slot ready, record field not written
    | Releasing(slots: seq<Slot>)                         // connFree, after taking the indices

  datatype State = State(
    conns: seq<Conn>,
    counter: nat,                // connCounter
    pool: seq<PoolSlot>,
    links: seq<LinkSlot>,
    tasks: seq<Task>,
    failed: seq<Slot>,           // history: slots whose buffer could not be created
    lost: seq<Slot>,             // history: slots whose record field was overwritten
    tidy: bool)                  // history: no handle was freed while another task was building it

  datatype Action =
    | AllocConn(t: nat, packet: bool)
    | Skip(t: nat)               // this direction has size 0
    | ClaimPool(t: nat, size: nat, noPool: bool)
    | ClaimLink(t: nat, depth: nat)
    | Create(t: nat)
    | CreateFails(t: nat)
    | Store(t: nat)
    | Finish(t: nat)             // all buffers there, or giving up on them
    | FreeConn(t: nat, h: nat)
    | Release(t: nat)

  function Get(c: Conn, f: Field): int {
    match f
    case ToPool => c.toPool
    case FromPool => c.fromPool
    case ToLink => c.toLink
    case FromLink => c.fromLink
  }

  function Set(c: Conn, f: Field, v: int): Conn {
    match f
    case ToPool => c.(toPool := v)
    case FromPool => c.(fromPool := v)
    case ToLink => c.(toLink := v)
    case FromLink => c.(fromLink := v)
  }

  predicate IsPool(f: Field) { f.ToPool? || f.FromPool? }

  function SlotOf(f: Field, idx: int): seq<Slot> {
    if idx < 0 then [] else if IsPool(f) then [P(idx)] else [L(idx)]
  }

  /** The slots connFree takes out of a record, in the order it releases them. */
  function Taken(c: Conn): seq<Slot> {
    SlotOf(ToPool, c.toPool) + SlotOf(FromPool, c.fromPool) + SlotOf(ToLink, c.toLink) + SlotOf(FromLink, c.fromLink)
  }

  /** The slots a record owns.  The zeros of a record never allocated are not slots. */
  function Owned(c: Conn): seq<Slot> {
    if c.used then Taken(c) else []
  }

  predicate Builds(task: Task, h: nat) {
    (task.Building? || task.Creating? || task.Storing?) && task.h == h
  }

  predicate Enabled(s: State, a: Action) {
    && |s.conns| == MAX_CONNS
    && a.t < |s.tasks|
    && var task := s.tasks[a.t];
    match a
    case AllocConn(_, _) => task.Idle?
    case Skip(_) => task.Building? && task.todo != []
    case ClaimPool(_, size, _) => task.Building? && task.h < MAX_CONNS && task.todo != [] && IsPool(task.todo[0]) && size > 0
    case ClaimLink(_, _) => task.Building? && task.h < MAX_CONNS && task.todo != [] && !IsPool(task.todo[0])
    case Create(_) => task.Creating? && InTable(s, task.slot)
    case CreateFails(_) => task.Creating? && task.h < MAX_CONNS && task.todo != []
    case Store(_) => task.Storing? && task.h < MAX_CONNS && task.todo != []
    case Finish(_) => task.Building?
    case FreeConn(_, h) => (task.Idle? || task.Building?) && h < MAX_CONNS && s.conns[h].used
    case Release(_) => task.Releasing? && (task.slots != [] ==> InTable(s, task.slots[0]))
  }

  predicate InTable(s: State, x: Slot) {
    match x
    case P(i) => i < |s.pool|
    case L(i) => i < |s.links|
  }

  predicate InUse(s: State, x: Slot) {
    match x
    case P(i) => i < |s.pool| && s.pool[i].inUse
    case L(i) => i < |s.links| && s.links[i].inUse
  }

  function At(s: State, t: nat, task: Task): State
    requires t < |s.tasks|
  {
    s.(tasks := s.tasks[t := task])
  }

  /** Write a record field.  A slot it named before is named by nothing any more. */
  function Write(s: State, h: nat, f: Field, v: int): State
    requires h < |s.conns|
  {
    s.(conns := s.conns[h := Set(s.conns[h], f, v)], lost := s.lost + SlotOf(f, Get(s.conns[h], f)))
  }

  function Do(s: State, a: Action): State
    requires Enabled(s, a)
  {
    var task := s.tasks[a.t];
    match a
    case AllocConn(t, packet) =>
      var i := FirstInactive(s.conns, s.counter, 0);
      if i == MAX_CONNS then s
      else
        var h := Turn(s.counter, i);
        At(s, t, Building(h, if packet then [ToLink, FromLink] else [ToPool, FromPool]))
          .(conns := s.conns[h := NEW_CONN], counter := (h + 1) % MAX_CONNS, lost := s.lost + Owned(s.conns[h]))
    case Skip(t) => At(s, t, Building(task.h, task.todo[1..]))
    case ClaimPool(t, size, noPool) =>
      var r := PoolClaim(s.pool, size, noPool);
      (match r.0
       case Ready(i) => At(s, t, Storing(task.h, task.todo, P(i))).(pool := r.1)
       case Fresh(i) => At(s, t, Creating(task.h, task.todo, P(i))).(pool := r.1)
       case TableFull => At(Write(s, task.h, task.todo[0], -1), t, Building(task.h, task.todo[1..])))
    case ClaimLink(t, depth) =>
      var r := LinkClaim(s.links, depth);
      (match r.0
       case Ready(i) => At(s, t, Storing(task.h, task.todo, L(i))).(links := r.1)
       case Fresh(i) => At(s, t, Creating(task.h, task.todo, L(i))).(links := r.1)
       case TableFull => At(Write(s, task.h, task.todo[0], -1), t, Building(task.h, task.todo[1..])))
    case Create(t) =>
      var s1 := At(s, t, Storing(task.h, task.todo, task.slot));
      (match task.slot
       case P(i) => s1.(pool := s.pool[i := s.pool[i].(created := true)])
       case L(i) => s1.(links := s.links[i := s.links[i].(created := true)]))
    case CreateFails(t) =>
      At(Write(s, task.h, task.todo[0], -1), t, Building(task.h, task.todo[1..])).(failed := s.failed + [task.slot])
    case Store(t) =>
      At(Write(s, task.h, task.todo[0], task.slot.i), t, Building(task.h, task.todo[1..]))
    case Finish(t) => At(s, t, Idle)
    case FreeConn(t, h) =>
      At(s, t, Releasing(Taken(s.conns[h])))
        .(conns := s.conns[h := NO_CONN],
          tidy := s.tidy && forall u :: 0 <= u < |s.tasks| && u != t ==> !Builds(s.tasks[u], h))
    case Release(t) =>
      if task.slots == [] then At(s, t, Idle)
      else
        var x := task.slots[0];
        var s1 := At(s, t, Releasing(task.slots[1..]));
        match x
        case P(i) => s1.(pool := s.pool[i := ReleasedPool(s.pool[i])])
        case L(i) => s1.(links := s.links[i := s.links[i].(inUse := false)])
  }

  predicate Init(s: State) {
    && |s.conns| == MAX_CONNS && (forall h :: 0 <= h < MAX_CONNS ==> s.conns[h] == BLANK_CONN)
    && s.counter == 0 && s.pool == [] && s.links == []
    && (forall t :: 0 <= t < |s.tasks| ==> s.tasks[t] == Idle)
    && s.failed == [] && s.lost == [] && s.tidy
  }

  ghost predicate Next(s: State, s': State) {
    exists a :: Enabled(s, a) && s' == Do(s, a)
  }

  ghost predicate StepAt(run: seq<State>, i: nat)
    requires i + 1 < |run|
  {
    Next(run[i], run[i + 1])
  }

  ghost predicate IsRun(run: seq<State>) {
    && |run| > 0 && Init(run[0])
    && forall i :: 0 <= i < |run| - 1 ==> StepAt(run, i)
  }

  // ---- Counting holders ----

  function Is(x: Slot, y: Slot): int { if x == y then 1 else 0 }

  function Matches(x: Slot, slots: seq<Slot>): (r: seq<int>)
    ensures |r| == |slots| && forall i :: 0 <= i < |r| ==> r[i] == Is(x, slots[i])
  {
    seq(|slots|, i requires 0 <= i < |slots| => Is(x, slots[i]))
  }

  function Count(x: Slot, slots: seq<Slot>): int { Sum(Matches(x, slots)) }

  function OfTask(x: Slot, task: Task): int {
    match task
    case Idle => 0
    case Building(_, _) => 0
    case Creating(_, _, y) => Is(x, y)
    case Storing(_, _, y) => Is(x, y)
    case Releasing(slots) => Count(x, slots)
  }

  function OfConn(x: Slot, c: Conn): int { Count(x, Owned(c)) }

  function Conns(x: Slot, conns: seq<Conn>): (r: seq<int>)
    ensures |r| == |conns| && forall i :: 0 <= i < |r| ==> r[i] == OfConn(x, conns[i])
  {
    seq(|conns|, i requires 0 <= i < |conns| => OfConn(x, conns[i]))
  }

  function Tasks(x: Slot, tasks: seq<Task>): (r: seq<int>)
    ensures |r| == |tasks| && forall i :: 0 <= i < |r| ==> r[i] == OfTask(x, tasks[i])
  {
    seq(|tasks|, i requires 0 <= i < |tasks| => OfTask(x, tasks[i]))
  }

  /** How many connections and tasks hold a slot. */
  function Holders(x: Slot, s: State): int {
    Sum(Conns(x, s.conns)) + Sum(Tasks(x, s.tasks))
  }

  function Gone(x: Slot, s: State): int { Count(x, s.failed) + Count(x, s.lost) }

  /** A slot is in use exactly once over: by one holder, or by nobody any more. */
  ghost predicate Balanced(x: Slot, s: State) {
    (if InUse(s, x) then 1 else 0) == Holders(x, s) + Gone(x, s)
  }

  // ---- Every step keeps the balance ----

  lemma {:induction false} CountConcat(x: Slot, a: seq<Slot>, b: seq<Slot>)
    ensures Count(x, a + b) == Count(x, a) + Count(x, b)
    decreases |b|
  {
    if b == [] {
      assert a + b == a;
    } else {
      var last := |b| - 1;
      assert a + b == a + b[..last] + [b[last]] && b == b[..last] + [b[last]];
      CountConcat(x, a, b[..last]);
      CountOneMore(x, a + b[..last], b[last]);
      CountOneMore(x, b[..last], b[last]);
    }
  }

  lemma CountOneMore(x: Slot, a: seq<Slot>, y: Slot)
    ensures Count(x, a + [y]) == Count(x, a) + Is(x, y)
  {
    assert Matches(x, a + [y]) == Matches(x, a) + [Is(x, y)];
    SumAppend(Matches(x, a), Is(x, y));
  }

  lemma CountHead(x: Slot, a: seq<Slot>)
    requires a != []
    ensures Count(x, a) == Is(x, a[0]) + Count(x, a[1..])
  {
    assert Matches(x, a)[1..] == Matches(x, a[1..]);
  }

  /** What a record holds, field by field. */
  lemma ConnCount(x: Slot, c: Conn)
    requires c.used
    ensures OfConn(x, c) == Count(x, SlotOf(ToPool, c.toPool)) + Count(x, SlotOf(FromPool, c.fromPool))
                          + Count(x, SlotOf(ToLink, c.toLink)) + Count(x, SlotOf(FromLink, c.fromLink))
  {
    var a, b := SlotOf(ToPool, c.toPool), SlotOf(FromPool, c.fromPool);
    var d, e := SlotOf(ToLink, c.toLink), SlotOf(FromLink, c.fromLink);
    CountConcat(x, a, b);
    CountConcat(x, a + b, d);
    CountConcat(x, a + b + d, e);
  }

  lemma SetCount(x: Slot, c: Conn, f: Field, v: int)
    requires c.used
    ensures OfConn(x, Set(c, f, v)) == OfConn(x, c) - Count(x, SlotOf(f, Get(c, f))) + Count(x, SlotOf(f, v))
  {
    ConnCount(x, c);
    ConnCount(x, Set(c, f, v));
  }

  lemma TaskMoved(x: Slot, s: State, s': State, t: nat)
    requires t < |s.tasks| == |s'.tasks| && s'.tasks == s.tasks[t := s'.tasks[t]] && s'.conns == s.conns
    ensures Holders(x, s') == Holders(x, s) - OfTask(x, s.tasks[t]) + OfTask(x, s'.tasks[t])
  {
    SumUpdate(Tasks(x, s.tasks), t, OfTask(x, s'.tasks[t]));
    assert Tasks(x, s'.tasks) == Tasks(x, s.tasks)[t := OfTask(x, s'.tasks[t])];
  }

  lemma ConnMoved(x: Slot, s: State, h: nat, c: Conn)
    requires h < |s.conns|
    ensures Holders(x, s.(conns := s.conns[h := c])) == Holders(x, s) - OfConn(x, s.conns[h]) + OfConn(x, c)
  {
    SumUpdate(Conns(x, s.conns), h, OfConn(x, c));
    assert Conns(x, s.conns[h := c]) == Conns(x, s.conns)[h := OfConn(x, c)];
  }

  /** Writing a field moves the slot it named to the lost list and takes on a new one. */
  lemma Written(x: Slot, s: State, h: nat, f: Field, v: int)
    requires h < |s.conns| && s.conns[h].used
    ensures var s' := Write(s, h, f, v);
            Holders(x, s') + Gone(x, s') == Holders(x, s) + Gone(x, s) + Count(x, SlotOf(f, v))
  {
    ConnMoved(x, s, h, Set(s.conns[h], f, v));
    SetCount(x, s.conns[h], f, v);
    CountConcat(x, s.lost, SlotOf(f, Get(s.conns[h], f)));
  }

  /** Slots a task refers to exist, and match the kind of field they are for. */
  ghost predicate TaskOk(s: State, task: Task) {
    && (Constructing(task) ==> task.h < |s.conns| == MAX_CONNS && s.conns[task.h].used)
    && ((task.Creating? || task.Storing?) ==>
          task.todo != [] && (IsPool(task.todo[0]) <==> task.slot.P?))
  }

  predicate Constructing(task: Task) { task.Building? || task.Creating? || task.Storing? }

  ghost predicate ShapeOk(s: State) {
    |s.conns| == MAX_CONNS && forall t :: 0 <= t < |s.tasks| ==> TaskOk(s, s.tasks[t])
  }

  lemma ShapeStep(s: State, a: Action)
    requires ShapeOk(s) && Enabled(s, a)
    ensures ShapeOk(Do(s, a))
  {
    ActorShape(s, a);
    OthersStay(s, a);
    UsedStays(s, a);
    forall t | 0 <= t < |s.tasks| && t != a.t ensures TaskOk(Do(s, a), Do(s, a).tasks[t]) {
      assert TaskOk(s, s.tasks[t]);
    }
  }

  lemma ActorShape(s: State, a: Action)
    requires |s.conns| == MAX_CONNS && Enabled(s, a) && TaskOk(s, s.tasks[a.t])
    ensures |Do(s, a).tasks| == |s.tasks| && TaskOk(Do(s, a), Do(s, a).tasks[a.t])
  {
    OthersStay(s, a);
    UsedStays(s, a);
    match a
    case AllocConn(_, _) => AllocShape(s, a);
    case ClaimPool(_, _, _) => ClaimShape(s, a);
    case ClaimLink(_, _) => ClaimShape(s, a);
    case _ =>
  }

  lemma AllocShape(s: State, a: Action)
    requires Enabled(s, a) && a.AllocConn?
    ensures |Do(s, a).tasks| == |s.tasks| && TaskOk(Do(s, a), Do(s, a).tasks[a.t])
  {
  }

  lemma ClaimShape(s: State, a: Action)
    requires Enabled(s, a) && TaskOk(s, s.tasks[a.t]) && (a.ClaimPool? || a.ClaimLink?)
    ensures |Do(s, a).tasks| == |s.tasks| && TaskOk(Do(s, a), Do(s, a).tasks[a.t])
  {
  }

  lemma OthersStay(s: State, a: Action)
    requires Enabled(s, a)
    ensures |Do(s, a).tasks| == |s.tasks|
    ensures forall u :: 0 <= u < |s.tasks| && u != a.t ==> Do(s, a).tasks[u] == s.tasks[u]
  {
  }

  lemma UsedStays(s: State, a: Action)
    requires Enabled(s, a)
    ensures |Do(s, a).conns| == |s.conns| && forall h :: 0 <= h < |s.conns| && s.conns[h].used ==> Do(s, a).conns[h].used
  {
  }

  lemma AllocBalanced(x: Slot, s: State, t: nat, packet: bool)
    requires Balanced(x, s) && Enabled(s, AllocConn(t, packet))
    ensures Balanced(x, Do(s, AllocConn(t, packet)))
  {
    var s' := Do(s, AllocConn(t, packet));
    var i := FirstInactive(s.conns, s.counter, 0);
    if i < MAX_CONNS {
      var h := Turn(s.counter, i);
      ConnMoved(x, s, h, NEW_CONN);
      ConnCount(x, NEW_CONN);
      TaskMoved(x, s.(conns := s'.conns), s', t);
      CountConcat(x, s.lost, Owned(s.conns[h]));
    }
  }

  /** A claim puts exactly one slot into use, and that slot was not in use. */
  lemma PoolClaimUse(x: Slot, s: State, size: nat, noPool: bool)
    ensures var r := PoolClaim(s.pool, size, noPool);
            !r.0.TableFull? ==>
              && !InUse(s, P(r.0.idx))
              && (InUse(s.(pool := r.1), x) <==> InUse(s, x) || x == P(r.0.idx))
  {
  }

  lemma LinkClaimUse(x: Slot, s: State, depth: nat)
    ensures var r := LinkClaim(s.links, depth);
            !r.0.TableFull? ==>
              && !InUse(s, L(r.0.idx))
              && (InUse(s.(links := r.1), x) <==> InUse(s, x) || x == L(r.0.idx))
  {
  }

  /** A task takes a slot that has just come into use. */
  lemma Claimed(x: Slot, s: State, s': State, t: nat, y: Slot)
    requires Balanced(x, s) && t < |s.tasks| == |s'.tasks| && s'.tasks == s.tasks[t := s'.tasks[t]]
    requires s'.conns == s.conns && s'.failed == s.failed && s'.lost == s.lost
    requires OfTask(x, s.tasks[t]) == 0 && OfTask(x, s'.tasks[t]) == Is(x, y)
    requires !InUse(s, y) && (InUse(s', x) <==> InUse(s, x) || x == y)
    ensures Balanced(x, s')
  {
    TaskMoved(x, s, s', t);
  }

  /** The table was full: the field is written as -1. */
  lemma Refused(x: Slot, s: State, t: nat)
    requires Balanced(x, s) && t < |s.tasks| && s.tasks[t].Building? && s.tasks[t].h < |s.conns| && s.tasks[t].todo != []
    requires s.conns[s.tasks[t].h].used
    ensures var task := s.tasks[t];
            Balanced(x, At(Write(s, task.h, task.todo[0], -1), t, Building(task.h, task.todo[1..])))
  {
    var task := s.tasks[t];
    var s1 := Write(s, task.h, task.todo[0], -1);
    Written(x, s, task.h, task.todo[0], -1);
    TaskMoved(x, s1, At(s1, t, Building(task.h, task.todo[1..])), t);
  }

  lemma ClaimPoolBalanced(x: Slot, s: State, t: nat, size: nat, noPool: bool)
    requires Balanced(x, s) && Enabled(s, ClaimPool(t, size, noPool)) && TaskOk(s, s.tasks[t])
    ensures Balanced(x, Do(s, ClaimPool(t, size, noPool)))
  {
    var r := PoolClaim(s.pool, size, noPool);
    PoolClaimUse(x, s, size, noPool);
    if r.0.TableFull? { Refused(x, s, t); }
    else { Claimed(x, s, Do(s, ClaimPool(t, size, noPool)), t, P(r.0.idx)); }
  }

  lemma ClaimLinkBalanced(x: Slot, s: State, t: nat, depth: nat)
    requires Balanced(x, s) && Enabled(s, ClaimLink(t, depth)) && TaskOk(s, s.tasks[t])
    ensures Balanced(x, Do(s, ClaimLink(t, depth)))
  {
    var r := LinkClaim(s.links, depth);
    LinkClaimUse(x, s, depth);
    if r.0.TableFull? { Refused(x, s, t); }
    else { Claimed(x, s, Do(s, ClaimLink(t, depth)), t, L(r.0.idx)); }
  }

  lemma StoreBalanced(x: Slot, s: State, t: nat)
    requires Balanced(x, s) && Enabled(s, Store(t)) && TaskOk(s, s.tasks[t])
    ensures Balanced(x, Do(s, Store(t)))
  {
    var task := s.tasks[t];
    Written(x, s, task.h, task.todo[0], task.slot.i);
    TaskMoved(x, Write(s, task.h, task.todo[0], task.slot.i), Do(s, Store(t)), t);
    CountHead(x, SlotOf(task.todo[0], task.slot.i));
  }

  lemma CreateFailsBalanced(x: Slot, s: State, t: nat)
    requires Balanced(x, s) && Enabled(s, CreateFails(t)) && TaskOk(s, s.tasks[t])
    ensures Balanced(x, Do(s, CreateFails(t)))
  {
    var task := s.tasks[t];
    Written(x, s, task.h, task.todo[0], -1);
    TaskMoved(x, Write(s, task.h, task.todo[0], -1), Do(s, CreateFails(t)), t);
    CountOneMore(x, s.failed, task.slot);
  }

  /** Creating the buffer of a claimed slot changes no one's use of any slot. */
  lemma CreatedUse(x: Slot, s: State, t: nat)
    requires Enabled(s, Create(t))
    ensures InUse(Do(s, Create(t)), x) <==> InUse(s, x)
  {
  }

  lemma BuildBalanced(x: Slot, s: State, a: Action)
    requires Balanced(x, s) && Enabled(s, a) && (a.Skip? || a.Create? || a.Finish?)
    ensures Balanced(x, Do(s, a))
  {
    if a.Create? { CreatedUse(x, s, a.t); }
    Passed(x, s, Do(s, a), a.t);
  }

  /** A step that changes neither what its task holds nor which slots are in use. */
  lemma Passed(x: Slot, s: State, s': State, t: nat)
    requires Balanced(x, s) && t < |s.tasks| == |s'.tasks| && s'.tasks == s.tasks[t := s'.tasks[t]]
    requires s'.conns == s.conns && s'.failed == s.failed && s'.lost == s.lost
    requires OfTask(x, s.tasks[t]) == OfTask(x, s'.tasks[t]) && (InUse(s', x) <==> InUse(s, x))
    ensures Balanced(x, s')
  {
    TaskMoved(x, s, s', t);
  }

  /** A freeing task takes over what the record owned. */
  lemma HandedOver(x: Slot, s: State, s': State, t: nat, h: nat)
    requires Balanced(x, s) && t < |s.tasks| && h < |s.conns| && s.conns[h].used
    requires OfTask(x, s.tasks[t]) == 0 && s'.tasks == s.tasks[t := Releasing(Taken(s.conns[h]))]
    requires s'.conns == s.conns[h := NO_CONN] && s'.failed == s.failed && s'.lost == s.lost
    requires s'.pool == s.pool && s'.links == s.links
    ensures Balanced(x, s')
  {
    ConnMoved(x, s, h, NO_CONN);
    assert Owned(NO_CONN) == [];
    TaskMoved(x, s.(conns := s'.conns), s', t);
  }

  lemma FreeBalanced(x: Slot, s: State, t: nat, h: nat)
    requires Balanced(x, s) && Enabled(s, FreeConn(t, h))
    ensures Balanced(x, Do(s, FreeConn(t, h)))
  {
    HandedOver(x, s, Do(s, FreeConn(t, h)), t, h);
  }

  lemma HoldersNonNegative(x: Slot, s: State)
    ensures forall t :: 0 <= t < |s.tasks| ==> Tasks(x, s.tasks)[t] >= 0
    ensures forall h :: 0 <= h < |s.conns| ==> Conns(x, s.conns)[h] >= 0
    ensures Sum(Conns(x, s.conns)) >= 0 && Sum(Tasks(x, s.tasks)) >= 0 && Gone(x, s) >= 0
  {
    forall t | 0 <= t < |s.tasks| ensures Tasks(x, s.tasks)[t] >= 0 {
      if s.tasks[t].Releasing? { SumNonNegative(Matches(x, s.tasks[t].slots)); }
    }
    forall h | 0 <= h < |s.conns| ensures Conns(x, s.conns)[h] >= 0 { SumNonNegative(Matches(x, Owned(s.conns[h]))); }
    SumNonNegative(Conns(x, s.conns));
    SumNonNegative(Tasks(x, s.tasks));
    SumNonNegative(Matches(x, s.failed));
    SumNonNegative(Matches(x, s.lost));
  }

  /** A slot someone holds is in use. */
  lemma HeldIsInUse(x: Slot, s: State, t: nat)
    requires Balanced(x, s) && t < |s.tasks| && OfTask(x, s.tasks[t]) > 0
    ensures InUse(s, x) && OfTask(x, s.tasks[t]) == 1
  {
    HoldersNonNegative(x, s);
    SumAtLeast(Tasks(x, s.tasks), t);
  }

  /** A task lets go of a slot that has just gone out of use. */
  lemma LetGo(x: Slot, s: State, s': State, t: nat, y: Slot)
    requires Balanced(x, s) && t < |s.tasks| == |s'.tasks| && s'.tasks == s.tasks[t := s'.tasks[t]]
    requires s'.conns == s.conns && s'.failed == s.failed && s'.lost == s.lost
    requires OfTask(x, s'.tasks[t]) == OfTask(x, s.tasks[t]) - Is(x, y) && OfTask(x, s'.tasks[t]) >= 0
    requires InUse(s', x) <==> InUse(s, x) && x != y
    ensures Balanced(x, s')
  {
    TaskMoved(x, s, s', t);
    if x == y { HeldIsInUse(x, s, t); }
  }

  lemma ReleasedUse(x: Slot, s: State, t: nat)
    requires Enabled(s, Release(t)) && s.tasks[t].slots != []
    ensures InUse(Do(s, Release(t)), x) <==> InUse(s, x) && x != s.tasks[t].slots[0]
  {
  }

  lemma ReleaseBalanced(x: Slot, s: State, t: nat)
    requires Balanced(x, s) && Enabled(s, Release(t))
    ensures Balanced(x, Do(s, Release(t)))
  {
    var slots := s.tasks[t].slots;
    if slots == [] {
      Passed(x, s, Do(s, Release(t)), t);
    } else {
      ReleasedUse(x, s, t);
      CountHead(x, slots);
      SumNonNegative(Matches(x, slots[1..]));
      LetGo(x, s, Do(s, Release(t)), t, slots[0]);
    }
  }

  lemma StepBalanced(x: Slot, s: State, a: Action)
    requires Balanced(x, s) && ShapeOk(s) && Enabled(s, a)
    ensures Balanced(x, Do(s, a))
  {
    match a
    case AllocConn(t, packet) => AllocBalanced(x, s, t, packet);
    case ClaimPool(t, size, noPool) => ClaimPoolBalanced(x, s, t, size, noPool);
    case ClaimLink(t, depth) => ClaimLinkBalanced(x, s, t, depth);
    case FreeConn(t, h) => FreeBalanced(x, s, t, h);
    case Release(t) => ReleaseBalanced(x, s, t);
    case Store(t) => StoreBalanced(x, s, t);
    case CreateFails(t) => CreateFailsBalanced(x, s, t);
    case _ => BuildBalanced(x, s, a);
  }

  // ---- Runs in which no handle is freed under its builder ----

  ghost predicate Distinct(todo: seq<Field>) {
    forall i, j :: 0 <= i < j < |todo| ==> todo[i] != todo[j]
  }

  /** A builder alone builds its record, which is active and still empty where slots are
      to be stored. */
  ghost predicate BuilderOk(s: State, task: Task) {
    Constructing(task) ==>
      && task.h < |s.conns| && s.conns[task.h].active && Distinct(task.todo)
      && forall i :: 0 <= i < |task.todo| ==> Get(s.conns[task.h], task.todo[i]) == -1
  }

  ghost predicate TidyOk(s: State) {
    s.tidy ==>
      && s.lost == []
      && (forall h :: 0 <= h < |s.conns| && !s.conns[h].active ==> Owned(s.conns[h]) == [])
      && (forall t :: 0 <= t < |s.tasks| ==> BuilderOk(s, s.tasks[t]))
      && (forall t, u :: 0 <= t < u < |s.tasks| && Constructing(s.tasks[t]) && Constructing(s.tasks[u]) ==>
            s.tasks[t].h != s.tasks[u].h)
  }

  lemma TidyStep(s: State, a: Action)
    requires TidyOk(s) && ShapeOk(s) && Enabled(s, a)
    ensures TidyOk(Do(s, a))
  {
    match a
    case AllocConn(_, _) => TidyAlloc(s, a);
    case FreeConn(_, _) => TidyFree(s, a);
    case _ => TidyBuild(s, a);
  }

  lemma TidyAlloc(s: State, a: Action)
    requires TidyOk(s) && Enabled(s, a) && a.AllocConn?
    ensures TidyOk(Do(s, a))
  {
    var i := FirstInactive(s.conns, s.counter, 0);
    if s.tidy && i < MAX_CONNS {
      TidyOpened(s, Do(s, a), a.t, Turn(s.counter, i), if a.packet then [ToLink, FromLink] else [ToPool, FromPool]);
    }
  }

  lemma TidyOpened(s: State, s': State, t: nat, h: nat, todo: seq<Field>)
    requires s.tidy && TidyOk(s) && t < |s.tasks| && h < |s.conns| && !s.conns[h].active && Distinct(todo)
    requires s'.tasks == s.tasks[t := Building(h, todo)] && s'.conns == s.conns[h := NEW_CONN]
    requires s'.lost == s.lost + Owned(s.conns[h])
    ensures TidyOk(s')
  {
    forall u | 0 <= u < |s'.tasks| ensures BuilderOk(s', s'.tasks[u]) {
      assert BuilderOk(s, s.tasks[u]);
    }
  }

  lemma TidyFree(s: State, a: Action)
    requires TidyOk(s) && Enabled(s, a) && a.FreeConn?
    ensures TidyOk(Do(s, a))
  {
  }

  lemma TidyBuild(s: State, a: Action)
    requires TidyOk(s) && ShapeOk(s) && Enabled(s, a) && !a.AllocConn? && !a.FreeConn?
    ensures TidyOk(Do(s, a))
  {
    if s.tidy {
      OthersStay(s, a);
      var task := s.tasks[a.t];
      assert TaskOk(s, task) && BuilderOk(s, task);
      BuildEffect(s, a);
      if Constructing(task) { TidyKept(s, Do(s, a), a.t); }
    }
  }

  /** A building step stays with its record, leaves all others alone, writes only the field
      at the head of its list, which it then drops, and never over a slot. */
  lemma BuildEffect(s: State, a: Action)
    requires Enabled(s, a) && !a.AllocConn? && !a.FreeConn? && TaskOk(s, s.tasks[a.t]) && BuilderOk(s, s.tasks[a.t])
    ensures Constructing(s.tasks[a.t]) ==> Rebuilt(s, Do(s, a), a.t)
    ensures !Constructing(s.tasks[a.t]) ==> Do(s, a).conns == s.conns && Do(s, a).lost == s.lost && !Constructing(Do(s, a).tasks[a.t])
    ensures Do(s, a).tidy == s.tidy
  {
    match a
    case ClaimPool(_, _, _) => ClaimEffect(s, a);
    case ClaimLink(_, _) => ClaimEffect(s, a);
    case _ =>
  }

  lemma ClaimEffect(s: State, a: Action)
    requires Enabled(s, a) && (a.ClaimPool? || a.ClaimLink?) && BuilderOk(s, s.tasks[a.t])
    ensures |Do(s, a).tasks| == |s.tasks| && Rebuilt(s, Do(s, a), a.t)
  {
  }

  ghost predicate Rebuilt(s: State, s': State, t: nat)
    requires t < |s.tasks| && t < |s'.tasks| && Constructing(s.tasks[t])
  {
    var task, task' := s.tasks[t], s'.tasks[t];
    && task.h < |s.conns| == |s'.conns|
    && (forall h :: 0 <= h < |s.conns| && h != task.h ==> s'.conns[h] == s.conns[h])
    && s'.lost == s.lost && s'.tidy == s.tidy
    && (Constructing(task') ==> task'.h == task.h)
    && s.conns[task.h].active && s'.conns[task.h].active
    && if Constructing(task') && task'.todo != task.todo
       then task.todo != [] && task'.todo == task.todo[1..] && SameBut(s.conns[task.h], s'.conns[task.h], task.todo[0])
       else s'.conns[task.h] == s.conns[task.h]
  }

  ghost predicate SameBut(c: Conn, c': Conn, f: Field) {
    forall g :: g != f ==> Get(c', g) == Get(c, g)
  }

  lemma TidyKept(s: State, s': State, t: nat)
    requires s.tidy && TidyOk(s) && t < |s.tasks| == |s'.tasks| && Constructing(s.tasks[t]) && Rebuilt(s, s', t)
    requires forall u :: 0 <= u < |s.tasks| && u != t ==> s'.tasks[u] == s.tasks[u]
    ensures TidyOk(s')
  {
    assert BuilderOk(s, s.tasks[t]);
    forall u | 0 <= u < |s'.tasks| ensures BuilderOk(s', s'.tasks[u]) {
      assert BuilderOk(s, s.tasks[u]);
    }
  }

  ghost predicate Inv(s: State) {
    (forall x :: Balanced(x, s)) && ShapeOk(s) && TidyOk(s)
  }

  lemma NextInv(s: State, s': State)
    requires Inv(s) && Next(s, s')
    ensures Inv(s')
  {
    var a :| Enabled(s, a) && s' == Do(s, a);
    forall x ensures Balanced(x, s') { StepBalanced(x, s, a); }
    ShapeStep(s, a);
    TidyStep(s, a);
  }

  lemma InitInv(s: State)
    requires Init(s)
    ensures Inv(s)
  {
    forall x ensures Balanced(x, s) {
      assert Owned(BLANK_CONN) == [];
      SumZero(Conns(x, s.conns));
      SumZero(Tasks(x, s.tasks));
    }
  }

  lemma StepKeepsInv(run: seq<State>, i: nat)
    requires IsRun(run) && i + 1 < |run| && Inv(run[i])
    ensures Inv(run[i + 1])
  {
    assert StepAt(run, i);
    NextInv(run[i], run[i + 1]);
  }

  lemma {:induction false} RunInv(run: seq<State>, i: nat)
    requires IsRun(run) && i < |run|
    ensures Inv(run[i])
  {
    if i == 0 {
      InitInv(run[0]);
    } else {
      RunInv(run, i - 1);
      StepKeepsInv(run, i - 1);
    }
  }

  // ---- What a run guarantees ----

  /** No slot is held twice, and every held slot is in use. */
  lemma OneHolder(run: seq<State>, i: nat, x: Slot)
    requires IsRun(run) && i < |run|
    ensures 0 <= Holders(x, run[i]) <= 1
    ensures Holders(x, run[i]) == 1 ==> InUse(run[i], x)
  {
    RunInv(run, i);
    assert Balanced(x, run[i]);
    HoldersNonNegative(x, run[i]);
  }

  /** Two tasks racing to free the same connection release each slot at most once: a slot
      about to be released is in use and on no other task's list. */
  lemma ReleaseIsExclusive(run: seq<State>, i: nat, t: nat, u: nat, k: nat)
    requires IsRun(run) && i < |run| && t < |run[i].tasks| && u < |run[i].tasks| && t != u
    requires run[i].tasks[t].Releasing? && k < |run[i].tasks[t].slots|
    ensures InUse(run[i], run[i].tasks[t].slots[k])
    ensures OfTask(run[i].tasks[t].slots[k], run[i].tasks[u]) == 0
  {
    var s := run[i];
    var slots := s.tasks[t].slots;
    var x := slots[k];
    RunInv(run, i);
    assert Balanced(x, s);
    HoldersNonNegative(x, s);
    SumAtLeast(Matches(x, slots), k);
    if t < u { SumAtLeastTwo(Tasks(x, s.tasks), t, u); } else { SumAtLeastTwo(Tasks(x, s.tasks), u, t); }
  }

  /** A task in the middle of creating or releasing can always take its next step: the
      slots it holds are in the tables. */
  lemma NeverStuck(run: seq<State>, i: nat, t: nat)
    requires IsRun(run) && i < |run| && t < |run[i].tasks|
    ensures run[i].tasks[t].Creating? ==> Enabled(run[i], Create(t)) && Enabled(run[i], CreateFails(t))
    ensures run[i].tasks[t].Storing? ==> Enabled(run[i], Store(t))
    ensures run[i].tasks[t].Releasing? ==> Enabled(run[i], Release(t))
  {
    var s, task := run[i], run[i].tasks[t];
    RunInv(run, i);
    assert TaskOk(s, task);
    if task.Creating? {
      assert Balanced(task.slot, s);
      HeldIsInUse(task.slot, s, t);
    } else if task.Releasing? && task.slots != [] {
      assert Balanced(task.slots[0], s);
      SumNonNegative(Matches(task.slots[0], task.slots));
      SumAtLeast(Matches(task.slots[0], task.slots), 0);
      HeldIsInUse(task.slots[0], s, t);
    }
  }

  /** Step i of the run is task t releasing slot x. */
  ghost predicate ReleasesAt(run: seq<State>, i: nat, t: nat, x: Slot)
    requires i + 1 < |run|
  {
    && t < |run[i].tasks| && run[i].tasks[t].Releasing? && run[i].tasks[t].slots != [] && run[i].tasks[t].slots[0] == x
    && Enabled(run[i], Release(t)) && run[i + 1] == Do(run[i], Release(t))
  }

  lemma {:induction false} UsedAgain(run: seq<State>, i: nat, j: nat, x: Slot) returns (k: nat)
    requires i <= j < |run| && !InUse(run[i], x) && InUse(run[j], x)
    ensures i <= k < j && !InUse(run[k], x) && InUse(run[k + 1], x)
    decreases j - i
  {
    if InUse(run[j - 1], x) { k := UsedAgain(run, i, j - 1, x); } else { k := j - 1; }
  }

  /** Each claim is released at most once: between two releases of a slot, by whichever
      tasks, the slot was claimed anew. */
  lemma ReleasedOncePerClaim(run: seq<State>, i: nat, t: nat, j: nat, u: nat, x: Slot) returns (k: nat)
    requires IsRun(run) && i < j && j + 1 < |run| && ReleasesAt(run, i, t, x) && ReleasesAt(run, j, u, x)
    ensures i < k < j && !InUse(run[k], x) && InUse(run[k + 1], x)
  {
    NotInUseAfter(run, i, t, x);
    InUseBefore(run, j, u, x);
    k := UsedAgain(run, i + 1, j, x);
  }

  lemma NotInUseAfter(run: seq<State>, i: nat, t: nat, x: Slot)
    requires i + 1 < |run| && ReleasesAt(run, i, t, x)
    ensures !InUse(run[i + 1], x)
  {
    ReleasedUse(x, run[i], t);
  }

  lemma InUseBefore(run: seq<State>, j: nat, u: nat, x: Slot)
    requires IsRun(run) && j < |run| && u < |run[j].tasks|
    requires run[j].tasks[u].Releasing? && run[j].tasks[u].slots != [] && run[j].tasks[u].slots[0] == x
    ensures InUse(run[j], x)
  {
    RunInv(run, j);
    assert Balanced(x, run[j]);
    var slots := run[j].tasks[u].slots;
    SumNonNegative(Matches(x, slots));
    SumAtLeast(Matches(x, slots), 0);
    HeldIsInUse(x, run[j], u);
  }

  /** The action writes into record h: allocates it, or stores an index into it. */
  predicate WritesRecord(s: State, a: Action, h: nat)
    requires Enabled(s, a)
  {
    match a
    case AllocConn(_, _) => var i := FirstInactive(s.conns, s.counter, 0); i < MAX_CONNS && Turn(s.counter, i) == h
    case ClaimPool(t, size, noPool) => s.tasks[t].h == h && PoolClaim(s.pool, size, noPool).0.TableFull?
    case ClaimLink(t, depth) => s.tasks[t].h == h && LinkClaim(s.links, depth).0.TableFull?
    case CreateFails(t) => s.tasks[t].h == h
    case Store(t) => s.tasks[t].h == h
    case _ => false
  }

  ghost predicate SparesAt(run: seq<State>, k: nat, h: nat)
    requires k + 1 < |run|
  {
    exists a :: Enabled(run[k], a) && run[k + 1] == Do(run[k], a) && !WritesRecord(run[k], a, h)
  }

  lemma ClearedStays(s: State, a: Action, h: nat)
    requires Enabled(s, a) && !WritesRecord(s, a, h) && h < |s.conns| && s.conns[h] == NO_CONN
    ensures h < |Do(s, a).conns| && Do(s, a).conns[h] == NO_CONN
  {
  }

  lemma {:induction false} StaysCleared(run: seq<State>, i: nat, j: nat, h: nat)
    requires i <= j < |run| && h < |run[i].conns| && run[i].conns[h] == NO_CONN
    requires forall k :: i <= k < j ==> SparesAt(run, k, h)
    ensures h < |run[j].conns| && run[j].conns[h] == NO_CONN
    decreases j - i
  {
    if i == j {
    } else {
      StaysCleared(run, i, j - 1, h);
      assert SparesAt(run, j - 1, h);
      var a :| Enabled(run[j - 1], a) && run[j] == Do(run[j - 1], a) && !WritesRecord(run[j - 1], a, h);
      ClearedStays(run[j - 1], a, h);
    }
  }

  /** Of two frees of a handle the second finds nothing to release, whatever the tasks do
      in between short of writing into that record. */
  lemma SecondFreeFindsNothing(run: seq<State>, i: nat, t: nat, j: nat, u: nat, h: nat)
    requires i < j < |run| && Enabled(run[i], FreeConn(t, h)) && run[i + 1] == Do(run[i], FreeConn(t, h))
    requires (forall k :: i < k < j ==> SparesAt(run, k, h)) && Enabled(run[j], FreeConn(u, h))
    ensures Do(run[j], FreeConn(u, h)).tasks[u] == Releasing([])
  {
    StaysCleared(run, i + 1, j, h);
  }

  /** Where slots go missing: exactly the slots in use that nobody holds had their buffer
      creation fail, or their record freed under its builder.  In a run without the latter,
      failed creations are the only leak. */
  lemma LeaksAreFailures(run: seq<State>, i: nat, x: Slot)
    requires IsRun(run) && i < |run|
    ensures InUse(run[i], x) && Holders(x, run[i]) == 0 <==> x in run[i].failed || x in run[i].lost
    ensures run[i].tidy ==> (InUse(run[i], x) && Holders(x, run[i]) == 0 <==> x in run[i].failed)
  {
    RunInv(run, i);
    assert Balanced(x, run[i]);
    HoldersNonNegative(x, run[i]);
    CountIn(x, run[i].failed);
    CountIn(x, run[i].lost);
  }

  lemma CountIn(x: Slot, slots: seq<Slot>)
    ensures Count(x, slots) >= 0 && (Count(x, slots) > 0 <==> x in slots)
  {
    SumNonNegative(Matches(x, slots));
    if x in slots {
      var k :| 0 <= k < |slots| && slots[k] == x;
      SumAtLeast(Matches(x, slots), k);
    } else {
      SumZero(Matches(x, slots));
    }
  }

  /** And conversely a slot whose buffer creation failed is never free again. */
  lemma FailedSlotStaysInUse(run: seq<State>, i: nat, k: nat)
    requires IsRun(run) && i < |run| && k < |run[i].failed|
    ensures InUse(run[i], run[i].failed[k]) && Holders(run[i].failed[k], run[i]) == 0
  {
    var x := run[i].failed[k];
    RunInv(run, i);
    assert Balanced(x, run[i]);
    HoldersNonNegative(x, run[i]);
    SumNonNegative(Matches(x, run[i].lost));
    SumAtLeast(Matches(x, run[i].failed), k);
  }
}
