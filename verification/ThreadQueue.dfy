/**
 `TC_ThreadQueue` over `TC_Monitor` as a protocol of steps.  Threads contend for a non-recursive
 mutex; inside it they change the queue and count notifications, which the monitor delivers, one
 signal after the other, just before the mutex is released or slept on.
 */
module ThreadQueues {
  import opened Threads

  /** The time limit of a wait: 0, -1, or a number of milliseconds. */
  datatype Limit = NoWait | Forever | Timed

  datatype Op<T> =
    | PopFront(limit: Limit)
    | PushBack(x: T)
    | PushBackAll(xs: seq<T>)
    | PushFront(x: T)
    | PushFrontAll(xs: seq<T>)
    | Swap(batch: seq<T>, limit: Limit)
    | Clear
    | NotifyT
    | Size
    | Empty

  datatype Result<T> = Item(x: T) | Batch(xs: seq<T>) | NoData | Done | Number(n: int) | Flag(b: bool)

  /** What follows the delivery of notifications: unlocking and returning, or sleeping on the condition. */
  datatype Next<T> = Unlock(r: Result<T>) | Sleep(op: Op<T>)

  datatype Pc<T> =
    | Calling(op: Op<T>)                       // about to lock
    | Entered(op: Op<T>)                       // has the mutex, has done nothing yet
    | Pushing(op: Op<T>, done: nat)            // in the loop of a batch push, with so many pushed
    | Signalling(left: int, next: Next<T>)     // in notifyImpl; -1 stands for a broadcast
    | Waiting(op: Op<T>)                       // asleep, not signalled
    | Woken(op: Op<T>)                         // signalled or woken spuriously, needs the mutex again
    | TimedOut(op: Op<T>)                      // the time limit has passed, needs the mutex again
    | Resumed(op: Op<T>, inTime: bool)         // has the mutex again after a wait
    | Returned(r: Result<T>)

  datatype State<T> = State(
    queue: seq<T>,
    size: int,
    nnotify: int,
    owner: Option<nat>,
    pcs: map<nat, Pc<T>>,
    failed: bool)

  function Init<T>(): State<T> {
    State([], 0, 0, None, map[], false)
  }

  /** One step of a thread, or of the scheduler for it. */
  datatype Label<T> =
    | Call(t: nat, op: Op<T>)
    | Lock(t: nat)
    | Body(t: nat)
    | Signal(t: nat, who: nat)
    | SignalNobody(t: nat)
    | Broadcast(t: nat)
    | Release(t: nat)
    | TimeOut(t: nat)
    | Spurious(t: nat)
    | Relock(t: nat)

  predicate IsWaiting<T>(pc: Pc<T>) {
    pc.Waiting?
  }

  predicate IsWoken<T>(pc: Pc<T>) {
    pc.Woken?
  }

  function Sleeping<T>(pcs: map<nat, Pc<T>>): set<nat> {
    At(pcs, IsWaiting)
  }

  function Awake<T>(pcs: map<nat, Pc<T>>): set<nat> {
    At(pcs, IsWoken)
  }

  predicate CanWait<T>(op: Op<T>) {
    op.PopFront? || op.Swap?
  }

  predicate Enabled<T>(s: State<T>, l: Label<T>) {
    && !s.failed
    && (l.Call? || l.t in s.pcs)
    && match l
       case Call(t, _) => t in s.pcs ==> s.pcs[t].Returned?
       case Lock(t) => s.owner == None && s.pcs[t].Calling?
       case Body(t) => s.pcs[t].Entered? || s.pcs[t].Pushing? || s.pcs[t].Resumed?
       case Signal(t, who) => s.pcs[t].Signalling? && s.pcs[t].left > 0 && who in Sleeping(s.pcs)
       case SignalNobody(t) => s.pcs[t].Signalling? && s.pcs[t].left > 0 && Sleeping(s.pcs) == {}
       case Broadcast(t) => s.pcs[t].Signalling? && s.pcs[t].left == -1
       case Release(t) => s.pcs[t].Signalling? && s.pcs[t].left == 0
       case TimeOut(t) => s.pcs[t].Waiting? && CanWait(s.pcs[t].op) && s.pcs[t].op.limit.Timed?
       case Spurious(t) => s.pcs[t].Waiting?
       case Relock(t) => s.owner == None && (s.pcs[t].Woken? || s.pcs[t].TimedOut?)
  }

  /** `notify` counts, except that a pending `notifyAll` stays. */
  function Bump(nnotify: int): int {
    if nnotify != -1 then nnotify + 1 else nnotify
  }

  function Go<T>(s: State<T>, t: nat, pc: Pc<T>): State<T> {
    s.(pcs := s.pcs[t := pc])
  }

  /** Leave the operation: deliver what has been counted, then unlock. */
  function Leave<T>(s: State<T>, t: nat, r: Result<T>): State<T> {
    Go(s, t, Signalling(s.nnotify, Unlock(r)))
  }

  /** The end of `pop_front` and `swap`, behind the waiting. */
  function Take<T>(s: State<T>, t: nat, op: Op<T>): State<T> {
    if s.queue == [] then Leave(s, t, NoData)
    else if op.Swap? then
      Leave(s.(queue := op.batch, size := |s.queue|), t, Batch(s.queue))
    else if s.size <= 0 then s.(failed := true)
    else
      Leave(s.(queue := s.queue[1..], size := s.size - 1), t, Item(s.queue[0]))
  }

  function Push<T>(s: State<T>, back: bool, x: T): State<T> {
    s.(queue := if back then s.queue + [x] else [x] + s.queue,
       size := s.size + 1,
       nnotify := Bump(s.nnotify))
  }

  /** The elements of a batch push. */
  function Elements<T>(op: Op<T>): seq<T> {
    if op.PushBackAll? || op.PushFrontAll? then op.xs else []
  }

  /** What a thread that has just locked does with the mutex held. */
  function Enter<T>(s: State<T>, t: nat, op: Op<T>): State<T> {
    match op
    case PopFront(limit) => TakeOrSleep(s, t, op)
    case Swap(batch, limit) => TakeOrSleep(s, t, op)
    case PushBack(x) => Leave(Push(s, true, x), t, Done)
    case PushFront(x) => Leave(Push(s, false, x), t, Done)
    case PushBackAll(xs) => Go(s, t, Pushing(op, 0))
    case PushFrontAll(xs) => Go(s, t, Pushing(op, 0))
    case Clear => Leave(s.(queue := [], size := 0), t, Done)
    case NotifyT => Leave(s.(nnotify := -1), t, Done)
    case Size => Leave(s, t, Number(s.size))
    case Empty => Leave(s, t, Flag(s.queue == []))
  }

  function TakeOrSleep<T>(s: State<T>, t: nat, op: Op<T>): State<T>
    requires CanWait(op)
  {
    if s.queue != [] then Take(s, t, op)
    else if op.limit.NoWait? then Leave(s, t, NoData)
    else Go(s, t, Signalling(s.nnotify, Sleep(op)))
  }

  function Apply<T>(s: State<T>, l: Label<T>): State<T>
    requires Enabled(s, l)
  {
    match l
    case Call(t, op) => Go(s, t, Calling(op))
    case Lock(t) => Go(s.(owner := Some(t), nnotify := 0), t, Entered(s.pcs[t].op))
    case Body(t) =>
      (match s.pcs[t]
       case Entered(op) => Enter(s, t, op)
       case Pushing(op, done) =>
         if done >= |Elements(op)| then Leave(s, t, Done)
         else Go(Push(s, op.PushBackAll?, Elements(op)[done]), t, Pushing(op, done + 1))
       case Resumed(op, inTime) => if inTime then Take(s, t, op) else Leave(s, t, NoData)
       case _ => s)
    case Signal(t, who) =>
      Go(Go(s, who, Woken(s.pcs[who].op)), t, Signalling(s.pcs[t].left - 1, s.pcs[t].next))
    case SignalNobody(t) => Go(s, t, Signalling(s.pcs[t].left - 1, s.pcs[t].next))
    case Broadcast(t) => Go(s.(pcs := WakeAll(s.pcs)), t, Signalling(0, s.pcs[t].next))
    case Release(t) =>
      Go(s.(owner := None), t,
         match s.pcs[t].next case Unlock(r) => Returned(r) case Sleep(op) => Waiting(op))
    case TimeOut(t) => Go(s, t, TimedOut(s.pcs[t].op))
    case Spurious(t) => Go(s, t, Woken(s.pcs[t].op))
    case Relock(t) => Go(s.(owner := Some(t), nnotify := 0), t, Resumed(s.pcs[t].op, s.pcs[t].Woken?))
  }

  function WakeAll<T>(pcs: map<nat, Pc<T>>): map<nat, Pc<T>> {
    map t | t in pcs :: if pcs[t].Waiting? then Woken(pcs[t].op) else pcs[t]
  }

  /** The state after a run of steps, if each of them can be taken where it stands. */
  function Run<T>(run: seq<Label<T>>): Option<State<T>>
  {
    if run == [] then Some(Init()) else
    match Run(run[..|run| - 1])
    case None => None
    case Some(s) => if Enabled(s, run[|run| - 1]) then Some(Apply(s, run[|run| - 1])) else None
  }

  // ---------- who holds the mutex ----------

  predicate Holds<T>(pc: Pc<T>) {
    pc.Entered? || pc.Pushing? || pc.Resumed? || pc.Signalling?
  }

  /** The mutex is held by exactly the thread that is between locking and unlocking. */
  ghost predicate Exclusive<T>(s: State<T>) {
    && (s.owner.Some? ==> s.owner.value in s.pcs && Holds(s.pcs[s.owner.value]))
    && (forall t :: t in s.pcs && Holds(s.pcs[t]) ==> s.owner == Some(t))
  }

  /** An operation that waits, called with leave to wait. */
  predicate MayWait<T>(op: Op<T>) {
    CanWait(op) && !op.limit.NoWait?
  }

  /** What each position of a thread says about the counter of notifications and the operation. */
  ghost predicate Local<T>(s: State<T>, pc: Pc<T>) {
    match pc
    case Entered(_) => s.nnotify == 0
    case Pushing(op, done) => s.nnotify == done <= |Elements(op)| && (op.PushBackAll? || op.PushFrontAll?)
    case Signalling(left, next) => left >= -1 && (next.Sleep? ==> left == 0 && s.queue == [] && MayWait(next.op))
    case Waiting(op) => MayWait(op)
    case Woken(op) => MayWait(op)
    case TimedOut(op) => MayWait(op) && op.limit.Timed?
    case Resumed(op, inTime) => s.nnotify == 0 && MayWait(op) && (inTime || op.limit.Timed?)
    case _ => true
  }

  /** Wake-ups still to come out of what the owner of the mutex is doing. */
  function Credit<T>(s: State<T>): int {
    if s.owner.None? || s.owner.value !in s.pcs then 0 else
    match s.pcs[s.owner.value]
    case Pushing(_, _) => s.nnotify
    case Signalling(left, _) => left
    case Resumed(_, inTime) => if inTime then 1 else 0
    case _ => 0
  }

  predicate BroadcastPending<T>(s: State<T>) {
    s.owner.Some? && s.owner.value in s.pcs &&
    s.pcs[s.owner.value].Signalling? && s.pcs[s.owner.value].left == -1
  }

  /** As long as somebody sleeps, there is a wake-up under way for every element in the queue. */
  ghost predicate Covered<T>(s: State<T>) {
    Sleeping(s.pcs) != {} ==> BroadcastPending(s) || |Awake(s.pcs)| + Credit(s) >= |s.queue|
  }

  /** What the position of a thread means for its current call. */
  function StageOf<T>(pc: Pc<T>): Stage<Op<T>, Result<T>> {
    match pc
    case Calling(op) => Open(op)
    case Entered(op) => Open(op)
    case Pushing(op, _) => Open(op)
    case Signalling(_, Sleep(op)) => Open(op)
    case Signalling(_, Unlock(r)) => Settled(r)
    case Waiting(op) => Open(op)
    case Woken(op) => Open(op)
    case TimedOut(op) => Open(op)
    case Resumed(op, _) => Open(op)
    case Returned(r) => Settled(r)
  }

  /** All calls not yet carried out are of a kind. */
  ghost predicate OpsAre<T>(s: State<T>, kind: Op<T> -> bool) {
    forall t :: t in s.pcs && StageOf(s.pcs[t]).Open? ==> kind(StageOf(s.pcs[t]).op)
  }

  /** The batch given to `swap` is empty. */
  predicate PlainOp<T>(op: Op<T>) {
    op.Swap? ==> op.batch == []
  }

  ghost predicate Locals<T>(s: State<T>) {
    forall t :: t in s.pcs ==> Local(s, s.pcs[t])
  }

  // ---------- every step keeps the invariants ----------

  lemma KeepsExclusive<T>(s: State<T>, l: Label<T>)
    requires Exclusive(s) && Enabled(s, l)
    ensures Exclusive(Apply(s, l))
  {
    if l.Body? {
      BodyKeepsExclusive(s, l.t);
    } else {
      hide Enter, Take, Push;
    }
  }

  lemma BodyKeepsExclusive<T>(s: State<T>, t: nat)
    requires Exclusive(s) && Enabled(s, Body(t))
    ensures Exclusive(Apply(s, Body(t)))
  {
  }

  lemma KeepsLocals<T>(s: State<T>, l: Label<T>)
    requires Exclusive(s) && Locals(s) && Enabled(s, l)
    ensures Locals(Apply(s, l))
  {
    if l.Body? {
      BodyKeepsLocals(s, l.t);
    } else {
      hide Enter, Take, Push;
    }
  }

  lemma BodyKeepsLocals<T>(s: State<T>, t: nat)
    requires Exclusive(s) && Locals(s) && Enabled(s, Body(t))
    ensures Locals(Apply(s, Body(t)))
  {
    if s.pcs[t].Entered? {
      EnterKeepsLocals(s, t, s.pcs[t].op);
    } else {
      hide Enter;
      assert Local(s, s.pcs[t]);
    }
  }

  lemma EnterKeepsLocals<T>(s: State<T>, t: nat, op: Op<T>)
    requires Exclusive(s) && Locals(s) && t in s.pcs && s.pcs[t] == Entered(op)
    ensures Locals(Enter(s, t, op))
  {
    assert Local(s, s.pcs[t]);
  }

  lemma KeepsOps<T>(s: State<T>, l: Label<T>, kind: Op<T> -> bool)
    requires OpsAre(s, kind) && Enabled(s, l) && (l.Call? ==> kind(l.op))
    ensures OpsAre(Apply(s, l), kind)
  {
    if l.Body? {
      BodyKeepsOps(s, l.t, kind);
    } else {
      hide Enter, Take, Push;
    }
  }

  lemma BodyKeepsOps<T>(s: State<T>, t: nat, kind: Op<T> -> bool)
    requires OpsAre(s, kind) && Enabled(s, Body(t))
    ensures OpsAre(Apply(s, Body(t)), kind)
  {
  }

  lemma KeepsCovered<T>(s: State<T>, l: Label<T>)
    requires Exclusive(s) && Locals(s) && OpsAre(s, PlainOp) && Covered(s) && Enabled(s, l)
    ensures Covered(Apply(s, l))
  {
    hide At, Exclusive, Locals, OpsAre, Covered, Apply;
    match l
    case Call(t, op) => CallKeepsCovered(s, t, op);
    case Lock(t) => LockKeepsCovered(s, l);
    case Relock(t) => LockKeepsCovered(s, l);
    case Body(t) => BodyKeepsCovered(s, t);
    case Signal(t, who) => SignalKeepsCovered(s, t, who);
    case SignalNobody(t) => NotifyKeepsCovered(s, l);
    case Broadcast(t) => NotifyKeepsCovered(s, l);
    case Release(t) => ReleaseKeepsCovered(s, t);
    case TimeOut(t) => WakingKeepsCovered(s, l);
    case Spurious(t) => WakingKeepsCovered(s, l);
  }

  lemma CallKeepsCovered<T>(s: State<T>, t: nat, op: Op<T>)
    requires Exclusive(s) && Covered(s) && Enabled(s, Call(t, op))
    ensures Covered(Apply(s, Call(t, op)))
  {
    hide At;
    Move(s.pcs, t, Calling(op), IsWaiting, IsWoken);
  }

  lemma LockKeepsCovered<T>(s: State<T>, l: Label<T>)
    requires Exclusive(s) && Covered(s) && Enabled(s, l) && (l.Lock? || l.Relock?)
    ensures Covered(Apply(s, l))
  {
    hide At;
    Move(s.pcs, l.t, Apply(s, l).pcs[l.t], IsWaiting, IsWoken);
  }

  lemma SignalKeepsCovered<T>(s: State<T>, t: nat, who: nat)
    requires Exclusive(s) && Covered(s) && Enabled(s, Signal(t, who))
    ensures Covered(Apply(s, Signal(t, who)))
  {
    assert who in s.pcs && s.pcs[who].Waiting?;
    hide At;
    var pcs := s.pcs[who := Woken(s.pcs[who].op)];
    Move(s.pcs, who, Woken(s.pcs[who].op), IsWaiting, IsWoken);
    Move(pcs, t, Signalling(s.pcs[t].left - 1, s.pcs[t].next), IsWaiting, IsWoken);
  }

  lemma NotifyKeepsCovered<T>(s: State<T>, l: Label<T>)
    requires Exclusive(s) && Covered(s) && Enabled(s, l) && (l.SignalNobody? || l.Broadcast?)
    ensures Covered(Apply(s, l))
  {
    hide At;
    var pcs := if l.Broadcast? then WakeAll(s.pcs) else s.pcs;
    NobodySleeps(s.pcs);
    Move(pcs, l.t, Apply(s, l).pcs[l.t], IsWaiting, IsWoken);
  }

  lemma ReleaseKeepsCovered<T>(s: State<T>, t: nat)
    requires Exclusive(s) && Locals(s) && Covered(s) && Enabled(s, Release(t))
    ensures Covered(Apply(s, Release(t)))
  {
    hide At;
    Move(s.pcs, t, Apply(s, Release(t)).pcs[t], IsWaiting, IsWoken);
    assert Local(s, s.pcs[t]);
  }

  lemma WakingKeepsCovered<T>(s: State<T>, l: Label<T>)
    requires Exclusive(s) && Covered(s) && Enabled(s, l) && (l.TimeOut? || l.Spurious?)
    ensures Covered(Apply(s, l))
  {
    hide At;
    Move(s.pcs, l.t, Apply(s, l).pcs[l.t], IsWaiting, IsWoken);
  }

  lemma NobodySleeps<T>(pcs: map<nat, Pc<T>>)
    ensures Sleeping(WakeAll(pcs)) == {}
  {
  }

  lemma BodyKeepsCovered<T>(s: State<T>, t: nat)
    requires Exclusive(s) && Locals(s) && OpsAre(s, PlainOp) && Covered(s) && Enabled(s, Body(t))
    ensures Covered(Apply(s, Body(t)))
  {
    hide At, Covered, Enter, Take;
    assert Local(s, s.pcs[t]) && PlainOp(StageOf(s.pcs[t]).op);
    match s.pcs[t]
    case Entered(op) => EnterKeepsCovered(s, t);
    case _ =>
      assert Covered(Apply(s, Body(t))) by {
        GoOnKeepsCovered(s, t);
      }
  }

  lemma EnterKeepsCovered<T>(s: State<T>, t: nat)
    requires Exclusive(s) && Covered(s) && Enabled(s, Body(t)) && s.pcs[t].Entered?
    requires s.nnotify == 0 && PlainOp(s.pcs[t].op)
    ensures Covered(Enter(s, t, s.pcs[t].op))
  {
    hide At, Take, Covered;
    var op := s.pcs[t].op;
    if CanWait(op) && s.queue != [] {
      TakeKeepsCovered(s, t, op);
    } else {
      OtherKeepsCovered(s, t, op);
    }
  }

  lemma OtherKeepsCovered<T>(s: State<T>, t: nat, op: Op<T>)
    requires Exclusive(s) && Covered(s) && !s.failed && t in s.pcs && s.pcs[t].Entered?
    requires s.nnotify == 0 && !(CanWait(op) && s.queue != [])
    ensures Covered(Enter(s, t, op))
  {
    hide Covered, Take;
    OwnerStep(s, Enter(s, t, op), t);
  }

  lemma TakeKeepsCovered<T>(s: State<T>, t: nat, op: Op<T>)
    requires Exclusive(s) && Covered(s) && !s.failed && t in s.pcs && (s.pcs[t].Entered? || s.pcs[t].Resumed?)
    requires s.nnotify == 0 && CanWait(op) && PlainOp(op)
    ensures Covered(Take(s, t, op))
  {
    hide Covered;
    OwnerStep(s, Take(s, t, op), t);
  }

  lemma GoOnKeepsCovered<T>(s: State<T>, t: nat)
    requires Exclusive(s) && Covered(s) && Enabled(s, Body(t)) && (s.pcs[t].Pushing? || s.pcs[t].Resumed?)
    requires Local(s, s.pcs[t]) && PlainOp(StageOf(s.pcs[t]).op)
    ensures Covered(Apply(s, Body(t)))
  {
    hide Covered, Take;
    if s.pcs[t].Resumed? && s.pcs[t].inTime {
      TakeKeepsCovered(s, t, s.pcs[t].op);
    } else {
      OwnerStep(s, Apply(s, Body(t)), t);
    }
  }

  /** A step of the owner that uses up no more wake-ups than it takes elements, or that leaves the queue empty. */
  lemma OwnerStep<T>(s: State<T>, s': State<T>, t: nat)
    requires Exclusive(s) && Covered(s) && t in s.pcs && Holds(s.pcs[t]) && !BroadcastPending(s)
    requires s'.failed || (t in s'.pcs && Holds(s'.pcs[t]) && s'.pcs == s.pcs[t := s'.pcs[t]])
    requires s'.failed ==> s' == s.(failed := true)
    requires BroadcastPending(s') || Credit(s') - |s'.queue| >= Credit(s) - |s.queue| ||
      (s'.queue == [] && Credit(s') >= 0)
    ensures Covered(s')
  {
    hide At;
    if !s'.failed {
      Move(s.pcs, t, s'.pcs[t], IsWaiting, IsWoken);
    }
  }

  // ---------- the sequential queue ----------

  /** The queue and its counter as one operation after the other would see them. */
  datatype Deque<T> = Deque(items: seq<T>, size: int)

  /** An operation that has been carried out. */
  type Event<T> = Entry<Op<T>, Result<T>>

  function Reverse<T>(xs: seq<T>): (r: seq<T>)
    ensures |r| == |xs|
  {
    if xs == [] then [] else [xs[|xs| - 1]] + Reverse(xs[..|xs| - 1])
  }

  function PushAll<T>(d: Deque<T>, back: bool, xs: seq<T>): Deque<T> {
    Deque(if back then d.items + xs else Reverse(xs) + d.items, d.size + |xs|)
  }

  /** When an operation that can wait comes back without data. */
  predicate NothingToTake<T>(d: Deque<T>, limit: Limit) {
    limit.Timed? || d.items == []
  }

  /** The sequential queue after an operation, if the operation can have that result there. */
  function Serve<T(==)>(d: Deque<T>, op: Op<T>, r: Result<T>): Option<Deque<T>> {
    match (op, r)
    case (PopFront(_), Item(x)) =>
      if d.items != [] && d.items[0] == x && d.size > 0 then Some(Deque(d.items[1..], d.size - 1)) else None
    case (PopFront(limit), NoData) => if NothingToTake(d, limit) then Some(d) else None
    case (Swap(batch, _), Batch(xs)) => if d.items == xs != [] then Some(Deque(batch, |xs|)) else None
    case (Swap(_, limit), NoData) => if NothingToTake(d, limit) then Some(d) else None
    case (PushBack(x), Done) => Some(PushAll(d, true, [x]))
    case (PushBackAll(xs), Done) => Some(PushAll(d, true, xs))
    case (PushFront(x), Done) => Some(PushAll(d, false, [x]))
    case (PushFrontAll(xs), Done) => Some(PushAll(d, false, xs))
    case (Clear, Done) => Some(Deque([], 0))
    case (NotifyT, Done) => Some(d)
    case (Size, Number(n)) => if n == d.size then Some(d) else None
    case (Empty, Flag(b)) => if b == (d.items == []) then Some(d) else None
    case _ => None
  }

  function ServeAll<T(==)>(h: seq<Event<T>>): Option<Deque<T>> {
    if h == [] then Some(Deque([], 0)) else
    match ServeAll(h[..|h| - 1])
    case None => None
    case Some(d) => Serve(d, h[|h| - 1].op, h[|h| - 1].r)
  }

  /** The step with which a thread gets its result carries its operation out. */
  function Effect<T>(s: State<T>, l: Label<T>): seq<Event<T>>
    requires Enabled(s, l)
  {
    if !l.Body? then [] else
    match Apply(s, l).pcs[l.t]
    case Signalling(_, Unlock(r)) => [Entry(l.t, s.pcs[l.t].op, r)]
    case _ => []
  }

  /** The operations of a run in the order in which they were carried out. */
  function History<T>(run: seq<Label<T>>): seq<Event<T>>
    requires Run(run).Some?
  {
    if run == [] then []
    else History(run[..|run| - 1]) + Effect(Run(run[..|run| - 1]).value, run[|run| - 1])
  }

  /** What a step calls for, for thread `t`. */
  function Called<T>(l: Label<T>, t: nat): seq<Op<T>> {
    if l.Call? && l.t == t then [l.op] else []
  }

  function StageAt<T>(s: State<T>, t: nat): Stage<Op<T>, Result<T>> {
    if t in s.pcs then StageOf(s.pcs[t]) else New
  }

  /** The part of a batch push that is in the queue while the loop is still running. */
  function Begun<T>(s: State<T>): seq<T> {
    if s.owner.None? || s.owner.value !in s.pcs then [] else
    match s.pcs[s.owner.value]
    case Pushing(op, done) => if done <= |Elements(op)| then Elements(op)[..done] else []
    case _ => []
  }

  predicate AtFront<T>(s: State<T>) {
    && s.owner.Some? && s.owner.value in s.pcs
    && s.pcs[s.owner.value].Pushing? && s.pcs[s.owner.value].op.PushFrontAll?
  }

  /** The state is that of the sequential queue with the begun batch pushed on it. */
  ghost predicate Follows<T>(s: State<T>, d: Deque<T>) {
    Deque(s.queue, s.size) == PushAll(d, !AtFront(s), Begun(s))
  }

  /** Every step of a thread is a call, the effect of its call, or nothing to it, and nothing to the others. */
  lemma StepProceeds<T>(s: State<T>, l: Label<T>, t: nat)
    requires Exclusive(s) && Enabled(s, l)
    ensures Proceeds(StageAt(s, t), StageAt(Apply(s, l), t), t, Called(l, t), if l.t == t then Effect(s, l) else [])
  {
    hide Enter, Take, Push;
    if l.Body? {
      BodyMoves(s, l.t);
    }
  }

  /** With the mutex held a thread moves by itself, and goes on with its call or has its result. */
  lemma BodyMoves<T>(s: State<T>, t: nat)
    requires Enabled(s, Body(t))
    ensures var pcs := Apply(s, Body(t)).pcs;
      && t in pcs && pcs == s.pcs[t := pcs[t]]
      && (StageOf(pcs[t]).Settled? || StageOf(pcs[t]) == StageOf(s.pcs[t]))
      && (StageOf(pcs[t]).Settled? ==> pcs[t].Signalling?)
  {
    if !s.pcs[t].Entered? {
      hide Enter;
    }
  }

  /** One step does to the sequential queue what the operation with that result does, or nothing. */
  ghost predicate Served<T>(d: Deque<T>, s': State<T>, es: seq<Event<T>>) {
    if es == [] then Follows(s', d)
    else |es| == 1 && Serve(d, es[0].op, es[0].r).Some? && Follows(s', Serve(d, es[0].op, es[0].r).value)
  }

  lemma NoneBegun<T>(s: State<T>, d: Deque<T>)
    requires Begun(s) == []
    ensures Follows(s, d) <==> Deque(s.queue, s.size) == d
  {
    assert d.items + [] == d.items && Reverse<T>([]) + d.items == d.items;
  }

  lemma EffectIsServed<T>(s: State<T>, l: Label<T>, d: Deque<T>)
    requires Exclusive(s) && Locals(s) && Enabled(s, l) && Follows(s, d)
    ensures Served(d, Apply(s, l), Effect(s, l))
    ensures Effect(s, l) != [] ==> Effect(s, l)[0].t == l.t
  {
    hide Follows, Serve, Enter, Take, Reverse;
    if l.Body? {
      BodyIsServed(s, l.t, d);
    } else {
      OtherIsServed(s, l, d);
    }
  }

  lemma OtherIsServed<T>(s: State<T>, l: Label<T>, d: Deque<T>)
    requires Exclusive(s) && Enabled(s, l) && Follows(s, d) && !l.Body?
    ensures Follows(Apply(s, l), d)
  {
    hide Reverse, Enter, Take;
    var s' := Apply(s, l);
    assert s'.queue == s.queue && s'.size == s.size && Begun(s') == Begun(s);
    assert Begun(s) != [] ==> AtFront(s') == AtFront(s);
    if Begun(s) == [] {
      NoneBegun(s, d);
      NoneBegun(s', d);
    }
  }

  lemma ReverseOne<T>(x: T)
    ensures Reverse([x]) == [x]
  {
    assert Reverse([x]) == [x] + Reverse<T>([]);
  }

  lemma BodyIsServed<T>(s: State<T>, t: nat, d: Deque<T>)
    requires Exclusive(s) && Locals(s) && Enabled(s, Body(t)) && Follows(s, d)
    ensures Served(d, Apply(s, Body(t)), Effect(s, Body(t)))
  {
    hide Follows, Serve, Enter, Take, Reverse;
    assert Local(s, s.pcs[t]);
    match s.pcs[t]
    case Entered(op) =>
      NoneBegun(s, d);
      EnterIsServed(s, t, op);
    case Pushing(op, done) => PushingIsServed(s, t, d);
    case Resumed(op, inTime) =>
      NoneBegun(s, d);
      ResumedIsServed(s, t, op, inTime);
  }

  lemma EnterIsServed<T>(s: State<T>, t: nat, op: Op<T>)
    requires Exclusive(s) && Enabled(s, Body(t)) && s.pcs[t] == Entered(op)
    ensures Served(Deque(s.queue, s.size), Enter(s, t, op), Effect(s, Body(t)))
  {
    hide Follows, Take;
    if CanWait(op) && s.queue != [] {
      TakeIsServed(s, t, op);
    } else {
      var s' := Enter(s, t, op);
      NoneBegun(s', Deque(s'.queue, s'.size));
      if op.PushFront? {
        ReverseOne(op.x);
      }
    }
  }

  lemma TakeIsServed<T>(s: State<T>, t: nat, op: Op<T>)
    requires Exclusive(s) && t in s.pcs && (s.pcs[t].Entered? || s.pcs[t].Resumed?)
    requires s.pcs[t].op == op && CanWait(op)
    ensures var s' := Take(s, t, op);
      Served(Deque(s.queue, s.size), s', match s'.pcs[t]
        case Signalling(_, Unlock(r)) => [Entry(t, op, r)]
        case _ => [])
  {
    hide Follows;
    var s' := Take(s, t, op);
    NoneBegun(s', Deque(s'.queue, s'.size));
  }

  lemma ResumedIsServed<T>(s: State<T>, t: nat, op: Op<T>, inTime: bool)
    requires Exclusive(s) && Enabled(s, Body(t)) && s.pcs[t] == Resumed(op, inTime) && Local(s, s.pcs[t])
    ensures Served(Deque(s.queue, s.size), Apply(s, Body(t)), Effect(s, Body(t)))
  {
    hide Follows, Take;
    if inTime {
      TakeIsServed(s, t, op);
    } else {
      NoneBegun(Apply(s, Body(t)), Deque(s.queue, s.size));
    }
  }

  lemma PushingIsServed<T>(s: State<T>, t: nat, d: Deque<T>)
    requires Exclusive(s) && Enabled(s, Body(t)) && s.pcs[t].Pushing? && Local(s, s.pcs[t]) && Follows(s, d)
    ensures Served(d, Apply(s, Body(t)), Effect(s, Body(t)))
  {
    hide Enter, Take, Reverse;
    var op, done := s.pcs[t].op, s.pcs[t].done;
    var xs := Elements(op);
    var s' := Apply(s, Body(t));
    assert Begun(s) == xs[..done];
    if done >= |xs| {
      assert xs[..done] == xs;
      NoneBegun(s', Deque(s'.queue, s'.size));
    } else {
      assert Begun(s') == xs[..done + 1] && AtFront(s') == AtFront(s);
      PushMore(d, !AtFront(s), xs, done);
    }
  }

  lemma PushMore<T>(d: Deque<T>, back: bool, xs: seq<T>, n: nat)
    requires n < |xs|
    ensures var d' := PushAll(d, back, xs[..n]);
      PushAll(d, back, xs[..n + 1]) ==
      Deque(if back then d'.items + [xs[n]] else [xs[n]] + d'.items, d'.size + 1)
  {
    assert xs[..n + 1][..n] == xs[..n];
  }

  // ---------- what a history comes to ----------

  /** How far `size` is off: a swap leaves the length handed out, a clear puts it right. */
  function Gap<T>(h: seq<Event<T>>): int {
    if h == [] then 0 else
    match (h[|h| - 1].op, h[|h| - 1].r)
    case (Swap(batch, _), Batch(out)) => |out| - |batch|
    case (Clear, _) => 0
    case _ => Gap(h[..|h| - 1])
  }

  lemma {:induction false} GapOfSize<T>(h: seq<Event<T>>)
    requires ServeAll(h).Some?
    ensures ServeAll(h).value.size == |ServeAll(h).value.items| + Gap(h)
  {
    if h != [] {
      GapOfSize(h[..|h| - 1]);
    }
  }

  /** The elements that an operation puts in. */
  function PushedBy<T>(e: Event<T>): seq<T> {
    match (e.op, e.r)
    case (PushBack(x), _) => [x]
    case (PushFront(x), _) => [x]
    case (PushBackAll(xs), _) => xs
    case (PushFrontAll(xs), _) => xs
    case (Swap(batch, _), Batch(_)) => batch
    case _ => []
  }

  /** The elements that an operation takes out or throws away. */
  function TakenBy<T>(d: Deque<T>, e: Event<T>): seq<T> {
    match (e.op, e.r)
    case (Clear, _) => d.items
    case (_, Item(x)) => [x]
    case (_, Batch(xs)) => xs
    case _ => []
  }

  /** All that went in, in the order of the operations. */
  function AllIn<T>(h: seq<Event<T>>): seq<T> {
    if h == [] then [] else AllIn(h[..|h| - 1]) + PushedBy(h[|h| - 1])
  }

  /** All that came out, in the order of the operations. */
  function AllOut<T(==)>(h: seq<Event<T>>): seq<T>
    requires ServeAll(h).Some?
  {
    if h == [] then [] else AllOut(h[..|h| - 1]) + TakenBy(ServeAll(h[..|h| - 1]).value, h[|h| - 1])
  }

  /** Whatever goes in comes out at most once, or is still there, and nothing else comes out. */
  lemma {:induction false} TakenOnce<T>(h: seq<Event<T>>)
    requires ServeAll(h).Some?
    ensures multiset(AllIn(h)) == multiset(AllOut(h)) + multiset(ServeAll(h).value.items)
  {
    if h == [] {
    } else {
      hide PushedBy, TakenBy, Serve;
      var init, e := h[..|h| - 1], h[|h| - 1];
      TakenOnce(init);
      var d, d' := ServeAll(init).value, ServeAll(h).value;
      ServeConserves(d, e);
      Sum(AllIn(init), PushedBy(e));
      Sum(AllOut(init), TakenBy(d, e));
      Balance(multiset(AllIn(init)), multiset(AllOut(init)), multiset(d.items), multiset(PushedBy(e)),
              multiset(TakenBy(d, e)), multiset(d'.items));
    }
  }

  lemma {:induction false} ReverseCounts<T>(xs: seq<T>)
    ensures multiset(Reverse(xs)) == multiset(xs)
  {
    if xs != [] {
      var n := |xs| - 1;
      ReverseCounts(xs[..n]);
      assert xs == xs[..n] + [xs[n]];
    }
  }

  /** An operation adds at one end, or takes away at the front, or replaces everything. */
  lemma ServeAtEnds<T>(d: Deque<T>, e: Event<T>)
    requires Serve(d, e.op, e.r).Some?
    ensures var items, put, out := Serve(d, e.op, e.r).value.items, PushedBy(e), TakenBy(d, e);
      || (out == [] && (items == d.items + put || items == Reverse(put) + d.items))
      || (put == [] && d.items == out + items)
      || (out == d.items && items == put)
  {
    if e.op.PushFront? {
      ReverseOne(e.op.x);
    }
    assert d.items + [] == d.items;
  }

  lemma ServeConserves<T>(d: Deque<T>, e: Event<T>)
    requires Serve(d, e.op, e.r).Some?
    ensures multiset(d.items) + multiset(PushedBy(e)) ==
      multiset(TakenBy(d, e)) + multiset(Serve(d, e.op, e.r).value.items)
  {
    hide Serve, PushedBy, TakenBy, Reverse;
    ServeAtEnds(d, e);
    var items, put := Serve(d, e.op, e.r).value.items, PushedBy(e);
    Sum(d.items, put);
    Sum(Reverse(put), d.items);
    ReverseCounts(put);
    Sum(TakenBy(d, e), items);
  }

  predicate BackOp<T>(op: Op<T>) {
    !op.PushFront? && !op.PushFrontAll? && !op.Clear?
  }

  /** Pushing at the back and taking from the front keeps the order. */
  lemma {:induction false} FirstInFirstOut<T>(h: seq<Event<T>>)
    requires ServeAll(h).Some? && forall k :: 0 <= k < |h| ==> BackOp(h[k].op)
    ensures AllIn(h) == AllOut(h) + ServeAll(h).value.items
  {
    if h == [] {
    } else {
      hide PushedBy, TakenBy, Serve, BackOp;
      var init, e := h[..|h| - 1], h[|h| - 1];
      FirstInFirstOut(init);
      var d := ServeAll(init).value;
      var items, put, out := ServeAll(h).value.items, PushedBy(e), TakenBy(d, e);
      ServeInOrder(d, e);
      Regroup(AllIn(init), AllOut(init), d.items, put, out, items);
    }
  }

  lemma Regroup<T>(a: seq<T>, b: seq<T>, q: seq<T>, i: seq<T>, o: seq<T>, q': seq<T>)
    requires a == b + q && q + i == o + q'
    ensures a + i == b + o + q'
  {
    assert b + q + i == b + (q + i);
    assert b + o + q' == b + (o + q');
  }

  lemma ServeInOrder<T>(d: Deque<T>, e: Event<T>)
    requires Serve(d, e.op, e.r).Some? && BackOp(e.op)
    ensures d.items + PushedBy(e) == TakenBy(d, e) + Serve(d, e.op, e.r).value.items
  {
  }

  // ---------- whole runs ----------

  /** All operations called for in a run are of a kind. */
  ghost predicate CallsAre<T>(run: seq<Label<T>>, kind: Op<T> -> bool) {
    forall k :: 0 <= k < |run| && run[k].Call? ==> kind(run[k].op)
  }

  lemma {:induction false} RunKeepsInvariants<T>(run: seq<Label<T>>)
    requires Run(run).Some?
    ensures Exclusive(Run(run).value) && Locals(Run(run).value)
  {
    if run == [] {
    } else {
      hide Exclusive, Locals, Enabled, Apply;
      var init, l := run[..|run| - 1], run[|run| - 1];
      RunKeepsInvariants(init);
      KeepsExclusive(Run(init).value, l);
      KeepsLocals(Run(init).value, l);
    }
  }

  /** Then those under way and those carried out are of that kind. */
  lemma {:induction false} RunKeepsOps<T>(run: seq<Label<T>>, kind: Op<T> -> bool)
    requires Run(run).Some? && CallsAre(run, kind)
    ensures OpsAre(Run(run).value, kind)
    ensures forall k :: 0 <= k < |History(run)| ==> kind(History(run)[k].op)
  {
    if run == [] {
    } else {
      hide Enabled, Apply, OpsAre, Effect;
      var init, l := run[..|run| - 1], run[|run| - 1];
      var s := Run(init).value;
      assert CallsAre(init, kind);
      RunKeepsOps(init, kind);
      KeepsOps(s, l, kind);
      EffectIs(s, l, kind);
    }
  }

  lemma EffectIs<T>(s: State<T>, l: Label<T>, kind: Op<T> -> bool)
    requires Enabled(s, l) && OpsAre(s, kind)
    ensures forall k :: 0 <= k < |Effect(s, l)| ==> kind(Effect(s, l)[k].op)
  {
    hide Apply;
    if l.Body? {
      assert StageOf(s.pcs[l.t]).Open?;
    }
  }

  lemma {:induction false} RunKeepsCovered<T>(run: seq<Label<T>>)
    requires Run(run).Some? && CallsAre(run, PlainOp)
    ensures Covered(Run(run).value)
  {
    if run == [] {
    } else {
      hide Exclusive, Locals, OpsAre, Covered, Enabled, Apply;
      var init, l := run[..|run| - 1], run[|run| - 1];
      assert CallsAre(init, PlainOp);
      RunKeepsCovered(init);
      RunKeepsInvariants(init);
      RunKeepsOps(init, PlainOp);
      KeepsCovered(Run(init).value, l);
    }
  }

  /** No two threads are between locking and unlocking at the same time. */
  lemma MutualExclusion<T>(run: seq<Label<T>>, t: nat, u: nat)
    requires Run(run).Some?
    requires var pcs := Run(run).value.pcs; t in pcs && Holds(pcs[t]) && u in pcs && Holds(pcs[u])
    ensures t == u
  {
    RunKeepsInvariants(run);
  }

  lemma {:induction false} RunIsServed<T>(run: seq<Label<T>>)
    requires Run(run).Some?
    ensures ServeAll(History(run)).Some? && Follows(Run(run).value, ServeAll(History(run)).value)
  {
    if run == [] {
      NoneBegun(Init<T>(), Deque([], 0));
    } else {
      hide Enabled, Apply, Effect, Follows, Serve, ServeAll, Exclusive, Locals;
      var init, l := run[..|run| - 1], run[|run| - 1];
      RunIsServed(init);
      RunKeepsInvariants(init);
      EffectIsServed(Run(init).value, l, ServeAll(History(init)).value);
      ServedAll(History(init), Effect(Run(init).value, l));
    }
  }

  lemma {:induction false} RunInStep<T>(run: seq<Label<T>>, t: nat)
    requires Run(run).Some?
    ensures InStep(StageAt(Run(run).value, t), CallsBy(run, t, Called), ServedTo(History(run), t))
  {
    if run != [] {
      hide Enabled, Apply, Effect, InStep, StageAt, Called, Exclusive, Locals, Proceeds;
      var init, l := run[..|run| - 1], run[|run| - 1];
      var s := Run(init).value;
      var es := Effect(s, l);
      RunInStep(init, t);
      RunKeepsInvariants(init);
      StepProceeds(s, l, t);
      EffectOfOne(s, l);
      StaysInStep(StageAt(s, t), StageAt(Apply(s, l), t), t, Called(l, t), if l.t == t then es else [],
                  CallsBy(init, t, Called), ServedTo(History(init), t));
      ServedMore(History(init), es, t);
    }
  }

  lemma EffectOfOne<T>(s: State<T>, l: Label<T>)
    requires Enabled(s, l)
    ensures Effect(s, l) == [] || (|Effect(s, l)| == 1 && Effect(s, l)[0].t == l.t)
  {
    hide Apply;
  }

  /**
   Every interleaving has the results and the final queue and counter of carrying out, one after the
   other, each call at one moment between its start and its return.
   */
  lemma Linearizable<T>(run: seq<Label<T>>, t: nat)
    requires Run(run).Some?
    ensures var s, d := Run(run).value, ServeAll(History(run));
      && d.Some? && Follows(s, d.value)
      && (s.owner == None ==> d.value == Deque(s.queue, s.size))
      && InStep(StageAt(s, t), CallsBy(run, t, Called), ServedTo(History(run), t))
  {
    hide Run, History, Serve, InStep, Follows;
    RunIsServed(run);
    RunInStep(run, t);
    if Run(run).value.owner == None {
      NoneBegun(Run(run).value, ServeAll(History(run)).value);
    }
  }

  lemma ServedAll<T>(h: seq<Event<T>>, es: seq<Event<T>>)
    requires ServeAll(h).Some? && |es| <= 1
    ensures es == [] ==> h + es == h
    ensures es != [] ==> ServeAll(h + es) == Serve(ServeAll(h).value, es[0].op, es[0].r)
  {
    if es != [] {
      assert (h + es)[..|h|] == h;
    }
  }

  /** Whatever threads put in comes out at most once, or is still there. */
  lemma Conserved<T>(run: seq<Label<T>>)
    requires Run(run).Some?
    ensures var s, h := Run(run).value, History(run);
      && ServeAll(h).Some?
      && multiset(AllIn(h)) + multiset(Begun(s)) == multiset(AllOut(h)) + multiset(s.queue)
  {
    hide Reverse, Serve, Begun;
    var s, h := Run(run).value, History(run);
    RunIsServed(run);
    TakenOnce(h);
    var d := ServeAll(h).value;
    ReverseCounts(Begun(s));
    Sum(d.items, Begun(s));
    Sum(Reverse(Begun(s)), d.items);
  }

  /**
   Consumers get the elements in the order in which they were put in, when all pushes are at the back
   and nothing is cleared.
   */
  lemma FifoRun<T>(run: seq<Label<T>>)
    requires Run(run).Some? && CallsAre(run, BackOp)
    ensures var s, h := Run(run).value, History(run);
      && ServeAll(h).Some?
      && AllIn(h) + Begun(s) == AllOut(h) + s.queue
  {
    hide Run, History, Serve, Begun, AllIn, AllOut, BackOp;
    var s, h := Run(run).value, History(run);
    RunIsServed(run);
    RunKeepsOps(run, BackOp);
    FirstInFirstOut(h);
    NeverAtFront(run);
    var items := ServeAll(h).value.items;
    assert s.queue == items + Begun(s);
    assert AllOut(h) + items + Begun(s) == AllOut(h) + (items + Begun(s));
  }

  lemma NeverAtFront<T>(run: seq<Label<T>>)
    requires Run(run).Some? && CallsAre(run, BackOp)
    ensures !AtFront(Run(run).value)
  {
    hide Run;
    RunKeepsOps(run, BackOp);
    var s := Run(run).value;
    if s.owner.Some? && s.owner.value in s.pcs {
      var stage := StageOf(s.pcs[s.owner.value]);
      assert stage.Open? ==> BackOp(stage.op);
    }
  }

  // ---------- no lost wake-ups ----------

  /**
   When the mutex is free and somebody still sleeps unsignalled, at least as many threads are awake
   and on their way as there are elements.
   */
  ghost predicate Balanced<T>(s: State<T>) {
    s.owner == None && Sleeping(s.pcs) != {} ==> |Awake(s.pcs)| >= |s.queue|
  }

  /** No lost wake-ups: so it is in every run in which all batches given to `swap` are empty. */
  lemma NoLostWakeUp<T>(run: seq<Label<T>>)
    requires Run(run).Some? && CallsAre(run, PlainOp)
    ensures Balanced(Run(run).value)
  {
    hide At, Exclusive, Locals, OpsAre;
    RunKeepsCovered(run);
  }

  lemma Extend<T>(run: seq<Label<T>>, l: Label<T>)
    requires Run(run).Some? && Enabled(Run(run).value, l)
    ensures Run(run + [l]) == Some(Apply(Run(run).value, l))
  {
    assert (run + [l])[..|run|] == run;
  }

  /** Hence an element is never left lying while all consumers sleep: one of them can go on and take it. */
  lemma SomebodyTakes<T>(run: seq<Label<T>>) returns (t: nat)
    requires Run(run).Some? && CallsAre(run, PlainOp)
    requires var s := Run(run).value;
      s.owner == None && Sleeping(s.pcs) != {} && s.queue != []
    ensures t in Run(run).value.pcs && Run(run).value.pcs[t].Woken?
    ensures Run(run + [Relock(t)] + [Body(t)]).Some?
    ensures var s := Run(run).value;
      var s' := Run(run + [Relock(t)] + [Body(t)]).value;
      !s'.failed && s'.queue == if s.pcs[t].op.Swap? then [] else s.queue[1..]
  {
    var s := Run(run).value;
    NoLostWakeUp(run);
    assert Awake(s.pcs) != {};
    t :| t in Awake(s.pcs);
    RunKeepsInvariants(run);
    RunKeepsOps(run, PlainOp);
    NeverFails(run);
    assert Local(s, s.pcs[t]) && PlainOp(StageOf(s.pcs[t]).op);
    Extend(run, Relock(t));
    Extend(run + [Relock(t)], Body(t));
  }

  // ---------- who waits, and for how long ----------

  /**
   A call with a time limit of 0 never waits: until it has its result it is only about to lock or about
   to look at the queue, and the one look gives the result, without data exactly when the queue is empty.
   */
  lemma NoWaitReturns<T>(run: seq<Label<T>>, t: nat)
    requires Run(run).Some? && t in Run(run).value.pcs
    requires var stage := StageOf(Run(run).value.pcs[t]);
      stage.Open? && CanWait(stage.op) && stage.op.limit.NoWait?
    ensures var s := Run(run).value;
      && (s.pcs[t].Calling? || s.pcs[t].Entered?)
      && (s.pcs[t].Entered? && !s.failed && !Apply(s, Body(t)).failed ==>
            var stage := StageOf(Apply(s, Body(t)).pcs[t]);
            stage.Settled? && (stage.r == NoData <==> s.queue == []))
  {
    hide Run;
    RunKeepsInvariants(run);
    assert Local(Run(run).value, Run(run).value.pcs[t]);
  }

  /** Any other call that finds the queue empty goes to sleep before it can come back without data. */
  lemma OthersSleep<T>(run: seq<Label<T>>, t: nat)
    requires Run(run).Some? && Enabled(Run(run).value, Body(t))
    requires Run(run).value.pcs[t].Entered? && MayWait(Run(run).value.pcs[t].op)
    ensures var s := Run(run).value;
      var s' := Apply(s, Body(t));
      !s'.failed ==>
        if s.queue == [] then s'.pcs[t] == Signalling(0, Sleep(s.pcs[t].op))
        else StageOf(s'.pcs[t]).Settled? && StageOf(s'.pcs[t]).r != NoData
  {
    hide Run;
    RunKeepsInvariants(run);
    assert Local(Run(run).value, Run(run).value.pcs[t]);
  }

  /**
   Only a call with a number of milliseconds times out, and then it returns without data whatever the
   queue holds.
   */
  lemma TimedOutReturns<T>(run: seq<Label<T>>, t: nat)
    requires Run(run).Some? && !Run(run).value.failed && Run(run).value.owner == None
    requires t in Run(run).value.pcs && Run(run).value.pcs[t].TimedOut?
    ensures var op := Run(run).value.pcs[t].op; CanWait(op) && op.limit.Timed?
    ensures Run(run + [Relock(t)] + [Body(t)]).Some?
    ensures var s, s' := Run(run).value, Run(run + [Relock(t)] + [Body(t)]).value;
      !s'.failed && s'.queue == s.queue && s'.size == s.size && StageAt(s', t) == Settled(NoData)
  {
    RunKeepsInvariants(run);
    assert Local(Run(run).value, Run(run).value.pcs[t]);
    Extend(run, Relock(t));
    Extend(run + [Relock(t)], Body(t));
  }

  /** A call woken in time looks at the queue once more, and returns without data exactly when it is empty. */
  lemma WokenReturns<T>(run: seq<Label<T>>, t: nat)
    requires Run(run).Some? && !Run(run).value.failed && Run(run).value.owner == None
    requires t in Run(run).value.pcs && Run(run).value.pcs[t].Woken?
    ensures Run(run + [Relock(t)] + [Body(t)]).Some?
    ensures var s, s' := Run(run).value, Run(run + [Relock(t)] + [Body(t)]).value;
      !s'.failed ==> StageAt(s', t).Settled? && (StageAt(s', t).r == NoData <==> s.queue == [])
  {
    RunKeepsInvariants(run);
    assert Local(Run(run).value, Run(run).value.pcs[t]);
    Extend(run, Relock(t));
    Extend(run + [Relock(t)], Body(t));
  }

  // ---------- how many are signalled, and that everybody gets on ----------

  /** A signal for each element pushed, a broadcast for `notifyT`. */
  ghost function Due<T>(op: Op<T>): int {
    match op
    case PushBack(_) => 1
    case PushFront(_) => 1
    case PushBackAll(xs) => |xs|
    case PushFrontAll(xs) => |xs|
    case NotifyT => -1
    case _ => 0
  }

  /** What a thread has to deliver when it has its result is exactly what its operation calls for. */
  lemma SignalsCounted<T>(run: seq<Label<T>>, t: nat)
    requires Run(run).Some? && Enabled(Run(run).value, Body(t))
    ensures var s := Run(run).value;
      var pc := Apply(s, Body(t)).pcs[t];
      pc.Signalling? ==> pc.left == Due(s.pcs[t].op)
  {
    hide Run;
    RunKeepsInvariants(run);
    assert Local(Run(run).value, Run(run).value.pcs[t]);
  }

  /** Meanwhile all other threads stay where they are, but for sleepers that may be woken. */
  ghost predicate OthersStay<T>(s: State<T>, s': State<T>, t: nat) {
    forall u :: u in s.pcs && u != t ==>
      u in s'.pcs && (s'.pcs[u] == s.pcs[u] || (s.pcs[u].Waiting? && s'.pcs[u] == Woken(s.pcs[u].op)))
  }

  /** The owner of the mutex can deliver its signals, each to one sleeper as long as there is one, and release. */
  lemma {:induction false} FinishSignals<T>(run: seq<Label<T>>, t: nat) returns (run': seq<Label<T>>)
    requires Run(run).Some? && !Run(run).value.failed
    requires t in Run(run).value.pcs && Run(run).value.pcs[t].Signalling?
    ensures run <= run' && Run(run').Some?
    ensures var s, s' := Run(run).value, Run(run').value;
      && !s'.failed && s'.owner == None && s'.queue == s.queue && OthersStay(s, s', t) && t in s'.pcs
      && (match s.pcs[t].next
          case Unlock(r) =>
            s'.pcs[t] == Returned(r) &&
            |Sleeping(s'.pcs)| == StillAsleep(|Sleeping(s.pcs)|, s.pcs[t].left)
          case Sleep(op) => s'.pcs[t] == Waiting(op))
    decreases if Run(run).value.pcs[t].left < 0 then 1 else Run(run).value.pcs[t].left
  {
    var s := Run(run).value;
    RunKeepsInvariants(run);
    assert Local(s, s.pcs[t]);
    var l := SignalStep(s, t);
    Extend(run, l);
    run' := run + [l];
    if s.pcs[t].left != 0 {
      hide Run;
      run' := FinishSignals(run', t);
    }
  }

  /** The state after one step of a delivery that leads to `pc` and leaves `sleepers` asleep. */
  ghost predicate Delivering<T>(s: State<T>, s': State<T>, t: nat, pc: Pc<T>, sleepers: nat) {
    && !s'.failed && s'.queue == s.queue && OthersStay(s, s', t)
    && t in s'.pcs && s'.pcs[t] == pc && |Sleeping(s'.pcs)| == sleepers
  }

  /** The next step of a delivery. */
  lemma SignalStep<T>(s: State<T>, t: nat) returns (l: Label<T>)
    requires !s.failed && t in s.pcs && s.pcs[t].Signalling? && s.pcs[t].left >= -1
    ensures l.t == t && Enabled(s, l)
    ensures var left, next, n := s.pcs[t].left, s.pcs[t].next, |Sleeping(s.pcs)|;
      if left < 0 then Delivering(s, Apply(s, l), t, Signalling(0, next), 0)
      else if left > 0 then Delivering(s, Apply(s, l), t, Signalling(left - 1, next), StillAsleep(n, 1))
      else
        && Apply(s, l).owner == None
        && match next
           case Unlock(r) => Delivering(s, Apply(s, l), t, Returned(r), n)
           case Sleep(op) => Delivering(s, Apply(s, l), t, Waiting(op), n + 1)
  {
    hide At, Delivering;
    if s.pcs[t].left < 0 {
      l := Broadcast(t);
      BroadcastStep(s, t);
    } else if s.pcs[t].left == 0 {
      l := Release(t);
      ReleaseStep(s, t);
    } else if Sleeping(s.pcs) == {} {
      l := SignalNobody(t);
      SignalNobodyStep(s, t);
    } else {
      var who :| who in Sleeping(s.pcs);
      l := Signal(t, who);
      SignalOneStep(s, t, who);
    }
  }

  lemma BroadcastStep<T>(s: State<T>, t: nat)
    requires Enabled(s, Broadcast(t))
    ensures Delivering(s, Apply(s, Broadcast(t)), t, Signalling(0, s.pcs[t].next), 0)
  {
    NobodySleeps(s.pcs);
    hide At;
    Moves(WakeAll(s.pcs), t, Signalling(0, s.pcs[t].next), IsWaiting);
  }

  lemma ReleaseStep<T>(s: State<T>, t: nat)
    requires Enabled(s, Release(t))
    ensures Apply(s, Release(t)).owner == None
    ensures var n := |Sleeping(s.pcs)|;
      match s.pcs[t].next
      case Unlock(r) => Delivering(s, Apply(s, Release(t)), t, Returned(r), n)
      case Sleep(op) => Delivering(s, Apply(s, Release(t)), t, Waiting(op), n + 1)
  {
    hide At;
    Moves(s.pcs, t, Apply(s, Release(t)).pcs[t], IsWaiting);
  }

  lemma SignalNobodyStep<T>(s: State<T>, t: nat)
    requires Enabled(s, SignalNobody(t))
    ensures Delivering(s, Apply(s, SignalNobody(t)), t, Signalling(s.pcs[t].left - 1, s.pcs[t].next), 0)
  {
    hide At;
    Moves(s.pcs, t, Signalling(s.pcs[t].left - 1, s.pcs[t].next), IsWaiting);
  }

  lemma SignalOneStep<T>(s: State<T>, t: nat, who: nat)
    requires Enabled(s, Signal(t, who))
    ensures Delivering(s, Apply(s, Signal(t, who)), t, Signalling(s.pcs[t].left - 1, s.pcs[t].next),
                       StillAsleep(|Sleeping(s.pcs)|, 1))
  {
    assert who in s.pcs && s.pcs[who].Waiting?;
    hide At;
    var woken, pc := Woken(s.pcs[who].op), Signalling(s.pcs[t].left - 1, s.pcs[t].next);
    assert Apply(s, Signal(t, who)).pcs == s.pcs[who := woken][t := pc];
    Moves(s.pcs, who, woken, IsWaiting);
    Moves(s.pcs[who := woken], t, pc, IsWaiting);
  }

  /** The owner of the mutex can always go on until it releases it, unless it runs into the assertion. */
  lemma {:induction false} FinishOwner<T>(run: seq<Label<T>>, t: nat) returns (run': seq<Label<T>>)
    requires Run(run).Some? && !Run(run).value.failed && t in Run(run).value.pcs && Holds(Run(run).value.pcs[t])
    ensures run <= run' && Run(run').Some?
    ensures var s, s' := Run(run).value, Run(run').value;
      && OthersStay(s, s', t) && t in s'.pcs
      && (s'.failed || (s'.owner == None && (s'.pcs[t].Returned? || s'.pcs[t].Waiting?)))
    decreases BodySteps(Run(run).value.pcs[t])
  {
    var s := Run(run).value;
    RunKeepsInvariants(run);
    assert Local(s, s.pcs[t]);
    if s.pcs[t].Signalling? {
      run' := FinishSignals(run, t);
    } else {
      Extend(run, Body(t));
      run' := run + [Body(t)];
      BodyAdvances(s, t);
      if !Run(run').value.failed {
        hide Run;
        run' := FinishOwner(run', t);
      }
    }
  }

  /** How many steps inside the mutex are left before the delivery at most. */
  function BodySteps<T>(pc: Pc<T>): nat {
    match pc
    case Entered(op) => |Elements(op)| + 2
    case Pushing(op, done) => if done <= |Elements(op)| then |Elements(op)| - done + 1 else 0
    case Resumed(_, _) => 1
    case _ => 0
  }

  lemma BodyAdvances<T>(s: State<T>, t: nat)
    requires Enabled(s, Body(t)) && Local(s, s.pcs[t])
    ensures var s' := Apply(s, Body(t));
      && OthersStay(s, s', t) && t in s'.pcs
      && (s'.failed || (Holds(s'.pcs[t]) && BodySteps(s'.pcs[t]) < BodySteps(s.pcs[t])))
  {
  }

  /**
   No thread gets stuck: whoever is not asleep can go on until it has returned or sleeps, or the
   assertion fails.
   */
  lemma NeverStuck<T>(run: seq<Label<T>>, t: nat) returns (run': seq<Label<T>>)
    requires Run(run).Some? && !Run(run).value.failed
    requires t in Run(run).value.pcs && !Run(run).value.pcs[t].Waiting?
    ensures run <= run' && Run(run').Some?
    ensures var s' := Run(run').value;
      s'.failed || (t in s'.pcs && (s'.pcs[t].Returned? || s'.pcs[t].Waiting?))
  {
    var s := Run(run).value;
    RunKeepsInvariants(run);
    run' := run;
    if s.owner.Some? {
      run' := FinishOwner(run, s.owner.value);
    }
    var s' := Run(run').value;
    if !s'.failed && !s'.pcs[t].Returned? && !s'.pcs[t].Waiting? {
      RunKeepsInvariants(run');
      var l := if s'.pcs[t].Calling? then Lock(t) else Relock(t);
      Extend(run', l);
      run' := FinishOwner(run' + [l], t);
    }
  }

  /**
   The client and the system are free: any thread without an open call may call anything, any sleeper may
   be the one signalled or wake for no reason, and a sleeper with a time limit may time out.
   */
  lemma AnythingMayHappen<T>(s: State<T>, t: nat, op: Op<T>)
    requires !s.failed
    ensures t !in s.pcs || s.pcs[t].Returned? ==>
      Enabled(s, Call(t, op)) && Apply(s, Call(t, op)) == s.(pcs := s.pcs[t := Calling(op)])
    ensures t in Sleeping(s.pcs) ==>
      && Enabled(s, Spurious(t)) && Apply(s, Spurious(t)) == s.(pcs := s.pcs[t := Woken(s.pcs[t].op)])
      && (forall u :: u in s.pcs && s.pcs[u].Signalling? && s.pcs[u].left > 0 ==> Enabled(s, Signal(u, t)))
      && (CanWait(s.pcs[t].op) && s.pcs[t].op.limit.Timed? ==>
            Enabled(s, TimeOut(t)) && Apply(s, TimeOut(t)) == s.(pcs := s.pcs[t := TimedOut(s.pcs[t].op)]))
  {
  }

  // ---------- when the assertion in pop_front holds ----------

  /** The batch given to `swap` has at most one element. */
  predicate SmallOp<T>(op: Op<T>) {
    op.Swap? ==> |op.batch| <= 1
  }

  /** In every state `size` is the length of the queue and what the last swap since the last clear left over. */
  lemma SizeIsOff<T>(run: seq<Label<T>>)
    requires Run(run).Some?
    ensures Run(run).value.size == |Run(run).value.queue| + Gap(History(run))
  {
    hide Serve, Gap, Begun;
    RunIsServed(run);
    GapOfSize(History(run));
  }

  /** A step of a thread runs into the assertion exactly when it pops while the counter does not cover the queue. */
  lemma FailsExactly<T>(run: seq<Label<T>>, t: nat)
    requires Run(run).Some? && Enabled(Run(run).value, Body(t))
    ensures var s := Run(run).value;
      var pc := s.pcs[t];
      Apply(s, Body(t)).failed <==>
        && (pc.Entered? || (pc.Resumed? && pc.inTime)) && pc.op.PopFront?
        && s.queue != [] && |s.queue| + Gap(History(run)) <= 0
  {
    hide History, Gap;
    SizeIsOff(run);
    RunKeepsInvariants(run);
    assert Local(Run(run).value, Run(run).value.pcs[t]);
  }

  /** A swap that succeeds hands out at least one element and puts in at most one. */
  lemma {:induction false} SmallGap<T>(h: seq<Event<T>>)
    requires ServeAll(h).Some? && forall k :: 0 <= k < |h| ==> SmallOp(h[k].op)
    ensures Gap(h) >= 0
  {
    if h != [] {
      SmallGap(h[..|h| - 1]);
    }
  }

  /** With such batches the assertion always holds, and the counter is never less than the length of the queue. */
  lemma {:induction false} NeverFails<T>(run: seq<Label<T>>)
    requires Run(run).Some? && CallsAre(run, SmallOp)
    ensures !Run(run).value.failed && Run(run).value.size >= |Run(run).value.queue|
  {
    SizeIsOff(run);
    SmallRun(run);
    if run != [] {
      hide Gap, History, SmallOp;
      var init, l := run[..|run| - 1], run[|run| - 1];
      assert CallsAre(init, SmallOp);
      NeverFails(init);
      SmallRun(init);
      if l.Body? {
        FailsExactly(init, l.t);
      }
    }
  }

  lemma SmallRun<T>(run: seq<Label<T>>)
    requires Run(run).Some? && CallsAre(run, SmallOp)
    ensures Gap(History(run)) >= 0
  {
    hide Run, History, Serve;
    RunIsServed(run);
    RunKeepsOps(run, SmallOp);
    SmallGap(History(run));
  }

  /** Until a swap succeeds, and again right after a clear, the counter is the length of the queue. */
  lemma SizeIsLength<T>(run: seq<Label<T>>)
    requires Run(run).Some?
    requires var h := History(run);
      (forall k :: 0 <= k < |h| ==> !h[k].r.Batch?) || (h != [] && h[|h| - 1].op.Clear?)
    ensures Run(run).value.size == |Run(run).value.queue|
  {
    SizeIsOff(run);
    if forall k :: 0 <= k < |History(run)| ==> !History(run)[k].r.Batch? {
      NoBatchNoGap(History(run));
    }
  }

  lemma {:induction false} NoBatchNoGap<T>(h: seq<Event<T>>)
    requires forall k :: 0 <= k < |h| ==> !h[k].r.Batch?
    ensures Gap(h) == 0
  {
    if h != [] {
      NoBatchNoGap(h[..|h| - 1]);
    }
  }

  // ---------- exactly which batches do no harm ----------

  /** All batches given to `swap` are taken from these. */
  ghost predicate SwapsFrom<T>(run: seq<Label<T>>, batches: iset<seq<T>>) {
    forall k :: 0 <= k < |run| && run[k].Call? && run[k].op.Swap? ==> run[k].op.batch in batches
  }

  lemma Then<T>(run: seq<Label<T>>, l: Label<T>, batches: iset<seq<T>>) returns (run': seq<Label<T>>)
    requires Run(run).Some? && Enabled(Run(run).value, l)
    requires SwapsFrom(run, batches) && (l.Call? && l.op.Swap? ==> l.op.batch in batches)
    ensures Run(run') == Some(Apply(Run(run).value, l)) && SwapsFrom(run', batches)
  {
    run' := run + [l];
    Extend(run, l);
  }

  lemma OnePushed<T>(x: T, batches: iset<seq<T>>) returns (run: seq<Label<T>>)
    ensures Run(run) == Some(State([x], 1, 1, None, map[0 := Returned(Done)], false))
    ensures SwapsFrom(run, batches)
  {
    run := [];
    assert Run(run) == Some(Init());
    hide Run, SwapsFrom;
    assert SwapsFrom(run, batches) by {
      NoSwaps<T>(batches);
    }
    run := Then(run, Call(0, PushBack(x)), batches);
    run := Then(run, Lock(0), batches);
    run := Then(run, Body(0), batches);
    assert Run(run).value.queue == [x];
    run := Then(run, SignalNobody(0), batches);
    run := Then(run, Release(0), batches);
    assert Run(run).value.pcs == map[0 := Returned(Done)];
  }

  lemma NoSwaps<T>(batches: iset<seq<T>>)
    ensures SwapsFrom<T>([], batches)
  {
  }

  /** A swap that puts a batch in for one element leaves the counter at 1. */
  lemma OneSwapped<T>(x: T, batch: seq<T>, batches: iset<seq<T>>) returns (run: seq<Label<T>>)
    requires batch in batches
    ensures Run(run) == Some(State(batch, 1, 0, None, map[0 := Returned(Batch([x]))], false))
    ensures SwapsFrom(run, batches)
  {
    hide Run, SwapsFrom;
    run := OnePushed(x, batches);
    run := Then(run, Call(0, Swap(batch, NoWait)), batches);
    run := Then(run, Lock(0), batches);
    run := Then(run, Body(0), batches);
    run := Then(run, Release(0), batches);
    assert Run(run).value.pcs == map[0 := Returned(Batch([x]))];
  }

  /** With two elements or more in the batch, the second pop runs into the assertion. */
  lemma BatchBreaksCounter<T>(batch: seq<T>, batches: iset<seq<T>>)
    returns (run: seq<Label<T>>, swapped: seq<Label<T>>)
    requires batch in batches && |batch| >= 2
    ensures Run(swapped).Some? && SwapsFrom(swapped, batches) && Run(swapped).value.size < |Run(swapped).value.queue|
    ensures Run(run).Some? && SwapsFrom(run, batches) && Run(run).value.failed
  {
    hide Run, SwapsFrom;
    swapped := OneSwapped(batch[0], batch, batches);
    run := Then(swapped, Call(0, PopFront(NoWait)), batches);
    run := Then(run, Lock(0), batches);
    run := Then(run, Body(0), batches);
    run := Then(run, Release(0), batches);
    assert Run(run).value.pcs == map[0 := Returned(Item(batch[0]))];
    run := Then(run, Call(0, PopFront(NoWait)), batches);
    run := Then(run, Lock(0), batches);
    run := Then(run, Body(0), batches);
  }

  /**
   The assertion holds in all runs, and the counter covers the queue in all runs, exactly when no batch
   has two elements.
   */
  lemma AssertionHoldsExactly<T>(batches: iset<seq<T>>)
    ensures (forall run: seq<Label<T>> :: Run(run).Some? && SwapsFrom(run, batches) ==> !Run(run).value.failed) <==>
      (forall batch :: batch in batches ==> |batch| <= 1)
    ensures (forall run: seq<Label<T>> :: Run(run).Some? && SwapsFrom(run, batches) ==>
                                            Run(run).value.size >= |Run(run).value.queue|) <==>
      (forall batch :: batch in batches ==> |batch| <= 1)
  {
    hide Run;
    if batch :| batch in batches && |batch| >= 2 {
      var _, _ := BatchBreaksCounter(batch, batches);
    } else {
      forall run: seq<Label<T>> | Run(run).Some? && SwapsFrom(run, batches)
        ensures !Run(run).value.failed && Run(run).value.size >= |Run(run).value.queue|
      {
        NeverFails(run);
      }
    }
  }

  lemma OneAsleep<T>(batch: seq<T>, batches: iset<seq<T>>) returns (run: seq<Label<T>>)
    requires batch in batches
    ensures Run(run) == Some(State([], 0, 0, None, map[0 := Waiting(Swap(batch, Forever))], false))
    ensures SwapsFrom(run, batches)
  {
    run := [];
    assert Run(run) == Some(Init());
    hide Run, SwapsFrom;
    assert SwapsFrom(run, batches) by {
      NoSwaps<T>(batches);
    }
    run := Then(run, Call(0, Swap(batch, Forever)), batches);
    run := Then(run, Lock(0), batches);
    run := Then(run, Body(0), batches);
    run := Then(run, Release(0), batches);
    assert Run(run).value.pcs == map[0 := Waiting(Swap(batch, Forever))];
  }

  lemma TwoAsleep<T>(batch: seq<T>, batches: iset<seq<T>>) returns (run: seq<Label<T>>)
    requires batch in batches
    ensures Run(run) == Some(State([], 0, 0, None,
      map[0 := Waiting(Swap(batch, Forever)), 1 := Waiting(PopFront(Forever))], false))
    ensures SwapsFrom(run, batches)
  {
    hide Run, SwapsFrom;
    run := OneAsleep(batch, batches);
    run := Then(run, Call(1, PopFront(Forever)), batches);
    run := Then(run, Lock(1), batches);
    run := Then(run, Body(1), batches);
    run := Then(run, Release(1), batches);
    assert Run(run).value.pcs == map[0 := Waiting(Swap(batch, Forever)), 1 := Waiting(PopFront(Forever))];
  }

  lemma OneWoken<T>(x: T, batch: seq<T>, batches: iset<seq<T>>) returns (run: seq<Label<T>>)
    requires batch in batches
    ensures Run(run) == Some(State([x], 1, 1, None,
      map[0 := Woken(Swap(batch, Forever)), 1 := Waiting(PopFront(Forever)), 2 := Returned(Done)], false))
    ensures SwapsFrom(run, batches)
  {
    hide Run, SwapsFrom;
    run := TwoAsleep(batch, batches);
    run := Then(run, Call(2, PushBack(x)), batches);
    run := Then(run, Lock(2), batches);
    run := Then(run, Body(2), batches);
    assert Run(run).value.queue == [x];
    run := Then(run, Signal(2, 0), batches);
    run := Then(run, Release(2), batches);
    assert Run(run).value.pcs ==
      map[0 := Woken(Swap(batch, Forever)), 1 := Waiting(PopFront(Forever)), 2 := Returned(Done)];
  }

  lemma OneSwaps<T>(batch: seq<T>, batches: iset<seq<T>>) returns (run: seq<Label<T>>)
    requires batch in batches && batch != []
    ensures Run(run) == Some(State(batch, 1, 0, None,
      map[0 := Returned(Batch([batch[0]])), 1 := Waiting(PopFront(Forever)), 2 := Returned(Done)], false))
    ensures SwapsFrom(run, batches)
  {
    hide Run, SwapsFrom;
    run := OneWoken(batch[0], batch, batches);
    run := Then(run, Relock(0), batches);
    run := Then(run, Body(0), batches);
    run := Then(run, Release(0), batches);
    assert Run(run).value.pcs ==
      map[0 := Returned(Batch([batch[0]])), 1 := Waiting(PopFront(Forever)), 2 := Returned(Done)];
  }

  /**
   A thread woken for one element swaps it for a batch: another goes on sleeping, unsignalled, beside
   the batch, and nobody is awake.
   */
  lemma BatchLosesWakeUp<T>(batch: seq<T>, batches: iset<seq<T>>) returns (run: seq<Label<T>>)
    requires batch in batches && batch != []
    ensures Run(run).Some? && SwapsFrom(run, batches)
    ensures var s := Run(run).value;
      s.owner == None && s.queue == batch && Sleeping(s.pcs) == {1} && Awake(s.pcs) == {} &&
      forall t :: t in s.pcs && t != 1 ==> s.pcs[t].Returned?
  {
    hide Run, SwapsFrom;
    run := OneSwaps(batch, batches);
  }

  /** No wake-up is lost in any run exactly when all batches are empty. */
  lemma WakeUpsKeptExactly<T>(batches: iset<seq<T>>)
    ensures (forall run: seq<Label<T>> :: Run(run).Some? && SwapsFrom(run, batches) ==> Balanced(Run(run).value)) <==>
      (forall batch :: batch in batches ==> batch == [])
  {
    hide Run;
    if batch :| batch in batches && batch != [] {
      var _ := BatchLosesWakeUp(batch, batches);
    } else {
      forall run: seq<Label<T>> | Run(run).Some? && SwapsFrom(run, batches) ensures Balanced(Run(run).value) {
        NoLostWakeUp(run);
      }
    }
  }
}
