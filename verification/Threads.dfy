/** What the two queue protocols have in common: positions of threads, and what threads call for and get. */
module Threads {
  datatype Option<+T> = None | Some(value: T)

  // ---------- positions ----------

  /** The threads at a position of a kind. */
  function At<P>(pcs: map<nat, P>, kind: P -> bool): set<nat> {
    set t | t in pcs && kind(pcs[t])
  }

  lemma MovesSet<P>(pcs: map<nat, P>, t: nat, pc: P, kind: P -> bool)
    ensures At(pcs[t := pc], kind) == if kind(pc) then At(pcs, kind) + {t} else At(pcs, kind) - {t}
    ensures t in At(pcs, kind) <==> t in pcs && kind(pcs[t])
  {
  }

  /** A thread that moves enters or leaves such a set alone. */
  lemma Moves<P>(pcs: map<nat, P>, t: nat, pc: P, kind: P -> bool)
    ensures At(pcs[t := pc], kind) == if kind(pc) then At(pcs, kind) + {t} else At(pcs, kind) - {t}
    ensures t in At(pcs, kind) <==> t in pcs && kind(pcs[t])
    ensures |At(pcs[t := pc], kind)| ==
      |At(pcs, kind)| + (if kind(pc) then 1 else 0) - (if t in pcs && kind(pcs[t]) then 1 else 0)
  {
    MovesSet(pcs, t, pc, kind);
    var those := At(pcs, kind);
    hide At;
    assert t in those ==> those + {t} == those;
    assert t !in those ==> those - {t} == those;
  }

  /** A thread that moves from or to sleep or wakefulness changes the two sets by itself alone. */
  lemma Move<P>(pcs: map<nat, P>, t: nat, pc: P, asleep: P -> bool, woken: P -> bool)
    ensures t in At(pcs, asleep) <==> t in pcs && asleep(pcs[t])
    ensures At(pcs[t := pc], asleep) == if asleep(pc) then At(pcs, asleep) + {t} else At(pcs, asleep) - {t}
    ensures |At(pcs[t := pc], woken)| ==
      |At(pcs, woken)| + (if woken(pc) then 1 else 0) - (if t in pcs && woken(pcs[t]) then 1 else 0)
  {
    Moves(pcs, t, pc, asleep);
    Moves(pcs, t, pc, woken);
  }

  /** How many of `n` sleepers go on sleeping after so many signals; -1 stands for a broadcast. */
  ghost function StillAsleep(n: nat, signals: int): nat {
    if signals < 0 || n <= signals then 0 else n - signals
  }

  // ---------- calls and results ----------

  /** An operation that has been carried out for thread `t`, and its result. */
  datatype Entry<O, R> = Entry(t: nat, op: O, r: R)

  /** How far a thread is: before its first call, with a call not yet carried out, or with its result. */
  datatype Stage<O, R> = New | Open(op: O) | Settled(r: R)

  /** What has been carried out for thread `t`, in order. */
  function ServedTo<O, R>(h: seq<Entry<O, R>>, t: nat): seq<Entry<O, R>> {
    if h == [] then [] else ServedTo(h[..|h| - 1], t) + if h[|h| - 1].t == t then [h[|h| - 1]] else []
  }

  function Ops<O, R>(h: seq<Entry<O, R>>): seq<O> {
    seq(|h|, k requires 0 <= k < |h| => h[k].op)
  }

  /**
   Every call but an open one has been carried out once, in the order of the calls, and what the
   thread is about to return, or has returned, is the result that its last operation had.
   */
  ghost predicate InStep<O, R>(stage: Stage<O, R>, calls: seq<O>, served: seq<Entry<O, R>>) {
    match stage
    case New => calls == [] && served == []
    case Open(op) => calls == Ops(served) + [op]
    case Settled(r) => calls == Ops(served) && served != [] && served[|served| - 1].r == r
  }

  /** The three things that a step can mean for a thread: a call, its effect, or nothing. */
  ghost predicate Proceeds<O, R>(stage: Stage<O, R>, stage': Stage<O, R>, t: nat, called: seq<O>,
                                 es: seq<Entry<O, R>>) {
    || (called == [] && es == [] && stage' == stage)
    || (!stage.Open? && stage'.Open? && called == [stage'.op] && es == [])
    || (stage.Open? && stage'.Settled? && called == [] && es == [Entry(t, stage.op, stage'.r)])
  }

  lemma StaysInStep<O, R>(stage: Stage<O, R>, stage': Stage<O, R>, t: nat, called: seq<O>, es: seq<Entry<O, R>>,
                          calls: seq<O>, served: seq<Entry<O, R>>)
    requires InStep(stage, calls, served) && Proceeds(stage, stage', t, called, es)
    ensures InStep(stage', calls + called, served + es)
  {
    if called == [] && es == [] {
      assert calls + called == calls && served + es == served;
    } else if es == [] {
      assert served + es == served;
    } else {
      assert calls + called == calls;
      assert Ops(served + es) == Ops(served) + [es[0].op];
    }
  }

  lemma ServedMore<O, R>(h: seq<Entry<O, R>>, es: seq<Entry<O, R>>, t: nat)
    requires |es| <= 1
    ensures ServedTo(h + es, t) == ServedTo(h, t) + if es != [] && es[0].t == t then es else []
  {
    if es == [] {
      assert h + es == h;
    } else {
      assert (h + es)[..|h|] == h;
    }
  }

  /** What thread `t` has called for in a run, in order, when each step calls for what `called` says. */
  function CallsBy<L, O>(run: seq<L>, t: nat, called: (L, nat) -> seq<O>): seq<O> {
    if run == [] then [] else CallsBy(run[..|run| - 1], t, called) + called(run[|run| - 1], t)
  }

  // ---------- counting ----------

  lemma Sum<T>(a: seq<T>, b: seq<T>)
    ensures multiset(a + b) == multiset(a) + multiset(b)
  {
  }

  lemma Balance<T>(a: multiset<T>, b: multiset<T>, q: multiset<T>, i: multiset<T>, o: multiset<T>, q': multiset<T>)
    requires a == b + q && q + i == o + q'
    ensures a + i == b + o + q'
  {
    assert a + i == b + (q + i);
    assert b + (o + q') == b + o + q';
  }
}
