/**
 `dobala::blocking_queue` as a protocol of steps.  Pushes notify with the mutex held; pops wait in a
 loop until the queue has an element or the queue has been stopped.
 */
module BlockingQueues {
  import opened Threads

  datatype Op<T> = PushBack(x: T) | PushFront(x: T) | PopFront | PopBack | Stop | Size

  /** What an operation returns; `NullOpt` is the empty optional. */
  datatype Result<T> = Item(x: T) | NullOpt | Done | Number(n: nat)

  datatype Pc<T> =
    | Calling(op: Op<T>)        // about to lock
    | Entered(op: Op<T>)        // has the mutex and is about to look at the queue
    | NotifyOne(r: Result<T>)   // has pushed
    | NotifyAll(r: Result<T>)   // has stopped the queue
    | Leaving(r: Result<T>)     // about to unlock
    | Waiting(op: Op<T>)        // asleep, not notified
    | Woken(op: Op<T>)          // notified or woken spuriously, needs the mutex again
    | Returned(r: Result<T>)

  datatype State<T> = State(
    queue: seq<T>,
    stopped: bool,
    owner: Option<nat>,
    pcs: map<nat, Pc<T>>)

  function Init<T>(): State<T> {
    State([], false, None, map[])
  }

  datatype Label<T> =
    | Call(t: nat, op: Op<T>)
    | Lock(t: nat)
    | Body(t: nat)
    | Notify(t: nat, who: nat)
    | NotifyNobody(t: nat)
    | NotifyEverybody(t: nat)
    | Release(t: nat)
    | Spurious(t: nat)

  predicate IsWaiting<T>(pc: Pc<T>) {
    pc.Waiting?
  }

  predicate IsWoken<T>(pc: Pc<T>) {
    pc.Woken?
  }

  function Sleeping<T>(pcs: map<nat, Pc<T>>): set<nat> {
    At(pcs, IsWaiting)
  }

  function Awake<T>(pcs: map<nat, Pc<T>>): set<nat> {
    At(pcs, IsWoken)
  }

  predicate IsPop<T>(op: Op<T>) {
    op.PopFront? || op.PopBack?
  }

  predicate Enabled<T>(s: State<T>, l: Label<T>) {
    && (l.Call? || l.t in s.pcs)
    && match l
       case Call(t, _) => t in s.pcs ==> s.pcs[t].Returned?
       case Lock(t) => s.owner == None && (s.pcs[t].Calling? || s.pcs[t].Woken?)
       case Body(t) => s.pcs[t].Entered?
       case Notify(t, who) => s.pcs[t].NotifyOne? && who in Sleeping(s.pcs)
       case NotifyNobody(t) => s.pcs[t].NotifyOne? && Sleeping(s.pcs) == {}
       case NotifyEverybody(t) => s.pcs[t].NotifyAll?
       case Release(t) => s.pcs[t].Leaving?
       case Spurious(t) => s.pcs[t].Waiting?
  }

  function Go<T>(s: State<T>, t: nat, pc: Pc<T>): State<T> {
    s.(pcs := s.pcs[t := pc])
  }

  /** A pop with the mutex held: the waiting loop's predicate, then the two ways out; sleeping releases the mutex. */
  function Pop<T>(s: State<T>, t: nat, op: Op<T>): State<T>
    requires IsPop(op)
  {
    if s.queue != [] then
      if op.PopFront? then Go(s.(queue := s.queue[1..]), t, Leaving(Item(s.queue[0])))
      else Go(s.(queue := s.queue[..|s.queue| - 1]), t, Leaving(Item(s.queue[|s.queue| - 1])))
    else if s.stopped then Go(s, t, Leaving(NullOpt))
    else Go(s.(owner := None), t, Waiting(op))
  }

  function Enter<T>(s: State<T>, t: nat, op: Op<T>): State<T> {
    match op
    case PushBack(x) => Go(s.(queue := s.queue + [x]), t, NotifyOne(Done))
    case PushFront(x) => Go(s.(queue := [x] + s.queue), t, NotifyOne(Done))
    case PopFront => Pop(s, t, op)
    case PopBack => Pop(s, t, op)
    case Stop => Go(s.(stopped := true), t, NotifyAll(Done))
    case Size => Go(s, t, Leaving(Number(|s.queue|)))
  }

  function Apply<T>(s: State<T>, l: Label<T>): State<T>
    requires Enabled(s, l)
  {
    match l
    case Call(t, op) => Go(s, t, Calling(op))
    case Lock(t) => Go(s.(owner := Some(t)), t, Entered(s.pcs[t].op))
    case Body(t) => Enter(s, t, s.pcs[t].op)
    case Notify(t, who) => Go(Go(s, who, Woken(s.pcs[who].op)), t, Leaving(s.pcs[t].r))
    case NotifyNobody(t) => Go(s, t, Leaving(s.pcs[t].r))
    case NotifyEverybody(t) => Go(s.(pcs := WakeAll(s.pcs)), t, Leaving(s.pcs[t].r))
    case Release(t) => Go(s.(owner := None), t, Returned(s.pcs[t].r))
    case Spurious(t) => Go(s, t, Woken(s.pcs[t].op))
  }

  function WakeAll<T>(pcs: map<nat, Pc<T>>): map<nat, Pc<T>> {
    map t | t in pcs :: if pcs[t].Waiting? then Woken(pcs[t].op) else pcs[t]
  }

  /** The state after a run of steps, if each of them can be taken where it stands. */
  function Run<T>(run: seq<Label<T>>): Option<State<T>> {
    if run == [] then Some(Init()) else
    match Run(run[..|run| - 1])
    case None => None
    case Some(s) => if Enabled(s, run[|run| - 1]) then Some(Apply(s, run[|run| - 1])) else None
  }

  // ---------- invariants ----------

  predicate Holds<T>(pc: Pc<T>) {
    pc.Entered? || pc.NotifyOne? || pc.NotifyAll? || pc.Leaving?
  }

  ghost predicate Exclusive<T>(s: State<T>) {
    && (s.owner.Some? ==> s.owner.value in s.pcs && Holds(s.pcs[s.owner.value]))
    && (forall t :: t in s.pcs && Holds(s.pcs[t]) ==> s.owner == Some(t))
  }

  /** Only pops sleep, and an empty optional is handed out only after the queue has been stopped. */
  ghost predicate Local<T>(s: State<T>, pc: Pc<T>) {
    match pc
    case Waiting(op) => IsPop(op)
    case Woken(op) => IsPop(op)
    case NotifyOne(r) => r == Done
    case NotifyAll(r) => r == Done && s.stopped
    case Leaving(r) => r == NullOpt ==> s.stopped
    case Returned(r) => r == NullOpt ==> s.stopped
    case _ => true
  }

  ghost predicate Locals<T>(s: State<T>) {
    forall t :: t in s.pcs ==> Local(s, s.pcs[t])
  }

  /** What the owner of the mutex is still going to do: notify somebody, or take an element itself. */
  function Credit<T>(s: State<T>): nat {
    if s.owner.None? || s.owner.value !in s.pcs then 0 else
    match s.pcs[s.owner.value]
    case Entered(op) => if IsPop(op) then 1 else 0
    case NotifyOne(_) => 1
    case _ => 0
  }

  predicate NotifyAllPending<T>(s: State<T>) {
    s.owner.Some? && s.owner.value in s.pcs && s.pcs[s.owner.value].NotifyAll?
  }

  /** While somebody sleeps the queue is not stopped, and a wake-up is under way for every element. */
  ghost predicate Covered<T>(s: State<T>) {
    Sleeping(s.pcs) != {} ==> NotifyAllPending(s) || (!s.stopped && |Awake(s.pcs)| + Credit(s) >= |s.queue|)
  }

  // ---------- every step keeps them ----------

  lemma KeepsExclusive<T>(s: State<T>, l: Label<T>)
    requires Exclusive(s) && Enabled(s, l)
    ensures Exclusive(Apply(s, l))
  {
  }

  lemma KeepsLocals<T>(s: State<T>, l: Label<T>)
    requires Exclusive(s) && Locals(s) && Enabled(s, l)
    ensures Locals(Apply(s, l))
  {
    if !l.Body? {
      hide Enter;
    }
  }

  lemma NobodySleeps<T>(pcs: map<nat, Pc<T>>)
    ensures Sleeping(WakeAll(pcs)) == {}
  {
  }

  lemma KeepsCovered<T>(s: State<T>, l: Label<T>)
    requires Exclusive(s) && Locals(s) && Covered(s) && Enabled(s, l)
    ensures Covered(Apply(s, l))
  {
    hide At, Exclusive, Locals, Covered, Apply;
    match l
    case Body(t) => BodyKeepsCovered(s, t);
    case Notify(t, who) => NotifyKeepsCovered(s, t, who);
    case NotifyEverybody(t) => NotifyEverybodyKeepsCovered(s, t);
    case _ => OneMoveKeepsCovered(s, l);
  }

  lemma OneMoveKeepsCovered<T>(s: State<T>, l: Label<T>)
    requires Exclusive(s) && Locals(s) && Covered(s) && Enabled(s, l)
    requires !l.Body? && !l.Notify? && !l.NotifyEverybody?
    ensures Covered(Apply(s, l))
  {
    hide At;
    Move(s.pcs, l.t, Apply(s, l).pcs[l.t], IsWaiting, IsWoken);
    if l.Lock? {
      assert Local(s, s.pcs[l.t]);
    }
  }

  lemma BodyKeepsCovered<T>(s: State<T>, t: nat)
    requires Exclusive(s) && Covered(s) && Enabled(s, Body(t))
    ensures Covered(Apply(s, Body(t)))
  {
    hide At, Pop, Exclusive, Covered;
    var op := s.pcs[t].op;
    if IsPop(op) {
      PopKeepsCovered(s, t, op);
    } else {
      EnterKeepsCovered(s, t, op);
    }
  }

  lemma EnterKeepsCovered<T>(s: State<T>, t: nat, op: Op<T>)
    requires Exclusive(s) && Covered(s) && t in s.pcs && s.pcs[t] == Entered(op) && !IsPop(op)
    ensures Covered(Enter(s, t, op))
  {
    hide At, Pop;
    Move(s.pcs, t, Enter(s, t, op).pcs[t], IsWaiting, IsWoken);
  }

  lemma PopKeepsCovered<T>(s: State<T>, t: nat, op: Op<T>)
    requires Exclusive(s) && Covered(s) && t in s.pcs && s.pcs[t] == Entered(op) && IsPop(op)
    ensures Covered(Pop(s, t, op))
  {
    hide At;
    Move(s.pcs, t, Pop(s, t, op).pcs[t], IsWaiting, IsWoken);
  }

  lemma NotifyKeepsCovered<T>(s: State<T>, t: nat, who: nat)
    requires Exclusive(s) && Covered(s) && Enabled(s, Notify(t, who))
    ensures Covered(Apply(s, Notify(t, who)))
  {
    assert who in s.pcs && s.pcs[who].Waiting?;
    hide At;
    Move(s.pcs, who, Woken(s.pcs[who].op), IsWaiting, IsWoken);
    Move(s.pcs[who := Woken(s.pcs[who].op)], t, Leaving(s.pcs[t].r), IsWaiting, IsWoken);
  }

  lemma NotifyEverybodyKeepsCovered<T>(s: State<T>, t: nat)
    requires Enabled(s, NotifyEverybody(t))
    ensures Covered(Apply(s, NotifyEverybody(t)))
  {
    hide At;
    NobodySleeps(s.pcs);
    Move(WakeAll(s.pcs), t, Leaving(s.pcs[t].r), IsWaiting, IsWoken);
  }

  // ---------- whole runs ----------

  lemma {:induction false} RunKeepsInvariants<T>(run: seq<Label<T>>)
    requires Run(run).Some?
    ensures var s := Run(run).value;
      Exclusive(s) && Locals(s) && Covered(s)
  {
    if run == [] {
    } else {
      hide Exclusive, Locals, Covered, Enabled, Apply;
      var s := Run(run[..|run| - 1]).value;
      var l := run[|run| - 1];
      RunKeepsInvariants(run[..|run| - 1]);
      KeepsExclusive(s, l);
      KeepsLocals(s, l);
      KeepsCovered(s, l);
    }
  }

  /**
   When the mutex is free and somebody still sleeps, the queue has not been stopped and at least as
   many threads are awake and on their way as there are elements in the queue.
   */
  lemma NoLostWakeUp<T>(run: seq<Label<T>>)
    requires Run(run).Some?
    ensures var s := Run(run).value;
      s.owner == None && Sleeping(s.pcs) != {} ==> !s.stopped && |Awake(s.pcs)| >= |s.queue|
  {
    hide At, Exclusive, Locals;
    RunKeepsInvariants(run);
  }

  lemma Extend<T>(run: seq<Label<T>>, l: Label<T>)
    requires Run(run).Some? && Enabled(Run(run).value, l)
    ensures Run(run + [l]) == Some(Apply(Run(run).value, l))
  {
    assert (run + [l])[..|run|] == run;
  }

  /** A pop that looks at the queue takes an element at its end, comes back empty-handed, or sleeps. */
  ghost predicate Looked<T>(s: State<T>, s': State<T>, t: nat, op: Op<T>) {
    && t in s'.pcs
    && if s.queue == [] then s'.queue == [] && s'.pcs[t] == if s.stopped then Leaving(NullOpt) else Waiting(op)
       else if op.PopFront? then s.queue == [s.queue[0]] + s'.queue && s'.pcs[t] == Leaving(Item(s.queue[0]))
       else
         var last := s.queue[|s.queue| - 1];
         op.PopBack? && s.queue == s'.queue + [last] && s'.pcs[t] == Leaving(Item(last))
  }

  lemma PopLooks<T>(s: State<T>, t: nat, op: Op<T>)
    requires IsPop(op)
    ensures Looked(s, Pop(s, t, op), t, op)
  {
  }

  /** A pop that is awake can lock and look at the queue again. */
  lemma WokenGoesOn<T>(run: seq<Label<T>>, t: nat)
    requires Run(run).Some? && Run(run).value.owner == None
    requires t in Run(run).value.pcs && Run(run).value.pcs[t].Woken?
    ensures Run(run + [Lock(t)] + [Body(t)]).Some?
    ensures Looked(Run(run).value, Run(run + [Lock(t)] + [Body(t)]).value, t, Run(run).value.pcs[t].op)
  {
    hide Run, Pop, Looked;
    var s := Run(run).value;
    RunKeepsInvariants(run);
    assert Local(s, s.pcs[t]);
    Extend(run, Lock(t));
    var s1 := Apply(s, Lock(t));
    Extend(run + [Lock(t)], Body(t));
    PopLooks(s1, t, s.pcs[t].op);
    SameLook(s, s1, Apply(s1, Body(t)), t, s.pcs[t].op);
  }

  lemma SameLook<T>(s: State<T>, s1: State<T>, s': State<T>, t: nat, op: Op<T>)
    requires Looked(s1, s', t, op) && s1.queue == s.queue && s1.stopped == s.stopped
    ensures Looked(s, s', t, op)
  {
  }

  /** Hence an element is never left lying while all consumers sleep: one of them can go on and take it. */
  lemma SomebodyTakes<T>(run: seq<Label<T>>) returns (t: nat)
    requires Run(run).Some?
    requires var s := Run(run).value;
      s.owner == None && Sleeping(s.pcs) != {} && s.queue != []
    ensures t in Run(run).value.pcs && Run(run).value.pcs[t].Woken?
    ensures Run(run + [Lock(t)] + [Body(t)]).Some?
    ensures var s' := Run(run + [Lock(t)] + [Body(t)]).value;
      |s'.queue| == |Run(run).value.queue| - 1 && t in s'.pcs && s'.pcs[t].Leaving? && s'.pcs[t].r.Item?
  {
    var s := Run(run).value;
    NoLostWakeUp(run);
    assert Awake(s.pcs) != {};
    t :| t in Awake(s.pcs);
    WokenGoesOn(run, t);
  }

  /** A push has one waiting pop to notify when it has changed the queue, `stop` all of them, and nothing else does. */
  lemma NotifiesDue<T>(s: State<T>, t: nat)
    requires Enabled(s, Body(t))
    ensures var pc, op := Apply(s, Body(t)).pcs[t], s.pcs[t].op;
      && (pc.NotifyOne? <==> op.PushBack? || op.PushFront?)
      && (pc.NotifyAll? <==> op.Stop?)
  {
  }

  /** A notification wakes one sleeper if there is any, notifying all leaves none asleep. */
  lemma NotificationWakes<T>(s: State<T>, l: Label<T>)
    requires Enabled(s, l) && (l.Notify? || l.NotifyNobody? || l.NotifyEverybody?)
    ensures |Sleeping(Apply(s, l).pcs)| == StillAsleep(|Sleeping(s.pcs)|, if l.NotifyEverybody? then -1 else 1)
  {
    assert l.Notify? ==> l.who in s.pcs && s.pcs[l.who].Waiting?;
    NobodySleeps(s.pcs);
    hide At;
    var pc := Leaving(s.pcs[l.t].r);
    match l
    case Notify(t, who) =>
      var woken := Woken(s.pcs[who].op);
      Moves(s.pcs, who, woken, IsWaiting);
      Moves(s.pcs[who := woken], t, pc, IsWaiting);
    case NotifyNobody(t) => Moves(s.pcs, t, pc, IsWaiting);
    case NotifyEverybody(t) => Moves(WakeAll(s.pcs), t, pc, IsWaiting);
  }

  /** How many steps inside the mutex are left at most. */
  function StepsLeft<T>(pc: Pc<T>): nat {
    match pc
    case Entered(_) => 3
    case NotifyOne(_) => 2
    case NotifyAll(_) => 2
    case Leaving(_) => 1
    case _ => 0
  }

  /** Meanwhile all other threads stay where they are, but for sleepers that may be woken. */
  ghost predicate OthersStay<T>(s: State<T>, s': State<T>, t: nat) {
    forall u :: u in s.pcs && u != t ==>
      u in s'.pcs && (s'.pcs[u] == s.pcs[u] || (s.pcs[u].Waiting? && s'.pcs[u] == Woken(s.pcs[u].op)))
  }

  lemma OwnerStep<T>(s: State<T>, t: nat) returns (l: Label<T>)
    requires Exclusive(s) && t in s.pcs && Holds(s.pcs[t])
    ensures Enabled(s, l)
    ensures var s' := Apply(s, l);
      && OthersStay(s, s', t) && t in s'.pcs
      && if Holds(s'.pcs[t]) then StepsLeft(s'.pcs[t]) < StepsLeft(s.pcs[t])
         else s'.owner == None && (s'.pcs[t].Returned? || s'.pcs[t].Waiting?)
  {
    match s.pcs[t]
    case Entered(_) => l := Body(t);
    case NotifyAll(_) => l := NotifyEverybody(t);
    case Leaving(_) => l := Release(t);
    case NotifyOne(_) =>
      if Sleeping(s.pcs) == {} {
        l := NotifyNobody(t);
      } else {
        var who :| who in Sleeping(s.pcs);
        l := Notify(t, who);
      }
  }

  /** The owner of the mutex can always go on until it releases it. */
  lemma {:induction false} FinishOwner<T>(run: seq<Label<T>>, t: nat) returns (run': seq<Label<T>>)
    requires Run(run).Some? && t in Run(run).value.pcs && Holds(Run(run).value.pcs[t])
    ensures run <= run' && Run(run').Some?
    ensures var s, s' := Run(run).value, Run(run').value;
      OthersStay(s, s', t) && s'.owner == None && t in s'.pcs && (s'.pcs[t].Returned? || s'.pcs[t].Waiting?)
    decreases StepsLeft(Run(run).value.pcs[t])
  {
    RunKeepsInvariants(run);
    var l := OwnerStep(Run(run).value, t);
    Extend(run, l);
    run' := run + [l];
    if Holds(Run(run').value.pcs[t]) {
      hide Run;
      run' := FinishOwner(run', t);
    }
  }

  /** No thread gets stuck: whoever is not asleep can go on until it has returned or sleeps. */
  lemma NeverStuck<T>(run: seq<Label<T>>, t: nat) returns (run': seq<Label<T>>)
    requires Run(run).Some? && t in Run(run).value.pcs && !Run(run).value.pcs[t].Waiting?
    ensures run <= run' && Run(run').Some?
    ensures var s' := Run(run').value;
      t in s'.pcs && (s'.pcs[t].Returned? || s'.pcs[t].Waiting?)
  {
    RunKeepsInvariants(run);
    run' := run;
    if Run(run).value.owner.Some? {
      run' := FinishOwner(run, Run(run).value.owner.value);
    }
    var s' := Run(run').value;
    if !s'.pcs[t].Returned? && !s'.pcs[t].Waiting? {
      RunKeepsInvariants(run');
      Extend(run', Lock(t));
      run' := FinishOwner(run' + [Lock(t)], t);
    }
  }

  /**
   The client and the system are free: any thread without an open call may call anything, and any sleeper
   may be the one notified or wake for no reason.
   */
  lemma AnythingMayHappen<T>(s: State<T>, t: nat, op: Op<T>)
    ensures t !in s.pcs || s.pcs[t].Returned? ==>
      Enabled(s, Call(t, op)) && Apply(s, Call(t, op)) == s.(pcs := s.pcs[t := Calling(op)])
    ensures t in Sleeping(s.pcs) ==>
      && Enabled(s, Spurious(t)) && Apply(s, Spurious(t)) == s.(pcs := s.pcs[t := Woken(s.pcs[t].op)])
      && forall u :: u in s.pcs && s.pcs[u].NotifyOne? ==> Enabled(s, Notify(u, t))
  {
  }

  // ---------- linearizability ----------

  /** The sequential queue that the operations are meant for. */
  datatype Deque<T> = Deque(items: seq<T>, stopped: bool)

  /** An operation that has been carried out. */
  type Event<T> = Entry<Op<T>, Result<T>>

  /** The sequential queue after an operation, if the operation can have that result there. */
  function Serve<T(==)>(d: Deque<T>, op: Op<T>, r: Result<T>): Option<Deque<T>> {
    match (op, r)
    case (PushBack(x), Done) => Some(d.(items := d.items + [x]))
    case (PushFront(x), Done) => Some(d.(items := [x] + d.items))
    case (PopFront, Item(x)) => if d.items != [] && d.items[0] == x then Some(d.(items := d.items[1..])) else None
    case (PopBack, Item(x)) =>
      if d.items != [] && d.items[|d.items| - 1] == x then Some(d.(items := d.items[..|d.items| - 1])) else None
    case (PopFront, NullOpt) => if d.items == [] && d.stopped then Some(d) else None
    case (PopBack, NullOpt) => if d.items == [] && d.stopped then Some(d) else None
    case (Stop, Done) => Some(d.(stopped := true))
    case (Size, Number(n)) => if n == |d.items| then Some(d) else None
    case _ => None
  }

  function ServeAll<T(==)>(h: seq<Event<T>>): Option<Deque<T>> {
    if h == [] then Some(Deque([], false)) else
    match ServeAll(h[..|h| - 1])
    case None => None
    case Some(d) => Serve(d, h[|h| - 1].op, h[|h| - 1].r)
  }

  /** A step carries out its thread's operation, unless the thread goes to sleep. */
  function Effect<T>(s: State<T>, l: Label<T>): seq<Event<T>>
    requires Enabled(s, l)
  {
    if !l.Body? then [] else
    match Apply(s, l).pcs[l.t]
    case NotifyOne(r) => [Entry(l.t, s.pcs[l.t].op, r)]
    case NotifyAll(r) => [Entry(l.t, s.pcs[l.t].op, r)]
    case Leaving(r) => [Entry(l.t, s.pcs[l.t].op, r)]
    case _ => []
  }

  /** The operations of a run in the order in which they were carried out. */
  function History<T>(run: seq<Label<T>>): seq<Event<T>>
    requires Run(run).Some?
  {
    if run == [] then []
    else History(run[..|run| - 1]) + Effect(Run(run[..|run| - 1]).value, run[|run| - 1])
  }

  /** What a step calls for, for thread `t`. */
  function Called<T>(l: Label<T>, t: nat): seq<Op<T>> {
    if l.Call? && l.t == t then [l.op] else []
  }

  /** What the position of a thread means for its current call. */
  function StageAt<T>(s: State<T>, t: nat): Stage<Op<T>, Result<T>> {
    if t !in s.pcs then New else
    match s.pcs[t]
    case Calling(op) => Open(op)
    case Entered(op) => Open(op)
    case Waiting(op) => Open(op)
    case Woken(op) => Open(op)
    case NotifyOne(r) => Settled(r)
    case NotifyAll(r) => Settled(r)
    case Leaving(r) => Settled(r)
    case Returned(r) => Settled(r)
  }

  /** Carrying an operation out is what the sequential queue does for it. */
  lemma EffectIsServed<T>(s: State<T>, l: Label<T>)
    requires Enabled(s, l)
    ensures var s' := Apply(s, l);
      var es := Effect(s, l);
      && |es| <= 1 && (es != [] ==> es[0].t == l.t)
      && (if es == [] then s'.queue == s.queue && s'.stopped == s.stopped
          else Serve(Deque(s.queue, s.stopped), es[0].op, es[0].r) == Some(Deque(s'.queue, s'.stopped)))
  {
  }

  /** Every step of a thread is a call, the effect of its call, or nothing to it, and nothing to the others. */
  lemma StepProceeds<T>(s: State<T>, l: Label<T>, t: nat)
    requires Enabled(s, l)
    ensures Proceeds(StageAt(s, t), StageAt(Apply(s, l), t), t, Called(l, t), if l.t == t then Effect(s, l) else [])
  {
    if !l.Body? {
      hide Enter;
    }
  }

  lemma ServedAll<T>(h: seq<Event<T>>, es: seq<Event<T>>)
    requires ServeAll(h).Some? && |es| <= 1
    ensures es == [] ==> h + es == h
    ensures es != [] ==> ServeAll(h + es) == Serve(ServeAll(h).value, es[0].op, es[0].r)
  {
    if es != [] {
      assert (h + es)[..|h|] == h;
    }
  }

  /**
   Every interleaving has the results and the final queue of carrying out, one after the other, each
   call at one moment between its start and its return.
   */
  lemma {:induction false} Linearizable<T>(run: seq<Label<T>>, t: nat)
    requires Run(run).Some?
    ensures var s := Run(run).value;
      && ServeAll(History(run)) == Some(Deque(s.queue, s.stopped))
      && InStep(StageAt(s, t), CallsBy(run, t, Called), ServedTo(History(run), t))
  {
    if run != [] {
      hide Enabled, Apply, Effect, InStep, Serve, ServeAll, StageAt, Called, Proceeds;
      var init, l := run[..|run| - 1], run[|run| - 1];
      var s := Run(init).value;
      var es := Effect(s, l);
      Linearizable(init, t);
      EffectIsServed(s, l);
      ServedAll(History(init), es);
      StepProceeds(s, l, t);
      StaysInStep(StageAt(s, t), StageAt(Apply(s, l), t), t, Called(l, t), if l.t == t then es else [],
                  CallsBy(init, t, Called), ServedTo(History(init), t));
      ServedMore(History(init), es, t);
    }
  }

  function Pushed<T>(h: seq<Event<T>>): seq<T> {
    if h == [] then [] else Pushed(h[..|h| - 1]) + PushedBy(h[|h| - 1])
  }

  function PushedBy<T>(e: Event<T>): seq<T> {
    match e.op
    case PushBack(x) => [x]
    case PushFront(x) => [x]
    case _ => []
  }

  /** All that operations have returned. */
  function Popped<T>(h: seq<Event<T>>): seq<T> {
    if h == [] then [] else Popped(h[..|h| - 1]) + PoppedBy(h[|h| - 1])
  }

  function PoppedBy<T>(e: Event<T>): seq<T> {
    if e.r.Item? then [e.r.x] else []
  }

  /** Whatever is pushed is returned by at most one pop, or is still there, and nothing else is returned. */
  lemma {:induction false} TakenOnce<T>(h: seq<Event<T>>)
    requires ServeAll(h).Some?
    ensures multiset(Pushed(h)) == multiset(Popped(h)) + multiset(ServeAll(h).value.items)
  {
    if h == [] {
    } else {
      hide PushedBy, PoppedBy, Serve;
      var init, e := h[..|h| - 1], h[|h| - 1];
      TakenOnce(init);
      var d, d' := ServeAll(init).value, ServeAll(h).value;
      ServeConserves(d, e);
      Sum(Pushed(init), PushedBy(e));
      Sum(Popped(init), PoppedBy(e));
      Balance(multiset(Pushed(init)), multiset(Popped(init)), multiset(d.items), multiset(PushedBy(e)),
              multiset(PoppedBy(e)), multiset(d'.items));
    }
  }

  /** An operation adds at one end or takes away at one end. */
  lemma ServeAtEnds<T>(d: Deque<T>, e: Event<T>)
    requires Serve(d, e.op, e.r).Some?
    ensures var items := Serve(d, e.op, e.r).value.items;
      || (PoppedBy(e) == [] && (items == d.items + PushedBy(e) || items == PushedBy(e) + d.items))
      || (PushedBy(e) == [] && (d.items == items + PoppedBy(e) || d.items == PoppedBy(e) + items))
  {
  }

  lemma ServeConserves<T>(d: Deque<T>, e: Event<T>)
    requires Serve(d, e.op, e.r).Some?
    ensures multiset(d.items) + multiset(PushedBy(e)) ==
      multiset(PoppedBy(e)) + multiset(Serve(d, e.op, e.r).value.items)
  {
    hide Serve, PushedBy, PoppedBy;
    ServeAtEnds(d, e);
    var items := Serve(d, e.op, e.r).value.items;
    Sum(d.items, PushedBy(e));
    Sum(PushedBy(e), d.items);
    Sum(items, PoppedBy(e));
    Sum(PoppedBy(e), items);
  }

  /**
   In every run each pushed element is returned by at most one pop, or is still there, and nothing else
   is returned.
   */
  lemma PoppedOnce<T>(run: seq<Label<T>>)
    requires Run(run).Some?
    ensures multiset(Pushed(History(run))) == multiset(Popped(History(run))) + multiset(Run(run).value.queue)
  {
    hide Run, History, ServeAll;
    Linearizable(run, 0);
    TakenOnce(History(run));
  }

  /** A pop comes back empty-handed only from a queue that has been stopped. */
  lemma NullOptMeansStopped<T>(run: seq<Label<T>>, t: nat)
    requires Run(run).Some?
    requires t in Run(run).value.pcs && Run(run).value.pcs[t] == Returned(NullOpt)
    ensures Run(run).value.stopped
  {
    RunKeepsInvariants(run);
    assert Local(Run(run).value, Run(run).value.pcs[t]);
  }

  /** After `stop` nobody sleeps for ever: with the mutex free, all who slept are awake. */
  lemma StopWakesAll<T>(run: seq<Label<T>>)
    requires Run(run).Some? && Run(run).value.stopped && Run(run).value.owner == None
    ensures Sleeping(Run(run).value.pcs) == {}
  {
    hide At, Exclusive, Locals;
    RunKeepsInvariants(run);
  }
}
