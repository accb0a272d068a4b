/**
 The worker pool as interleaved steps (src/rpc_server/libev_thread_pool.cpp).

 Each locked block is one step; restarts add threads to a slot; pipe writes can fail.  A
 worker may be cancelled anywhere outside a locked block and outside the cleanup handler, so
 that the invariants hold for either type of cancellation.  Workers keep the default type,
 deferred, under which only the points of `CancellationPoint` are left.
 */
module WorkerPool {

  /** The address of a queue item; zero is NULL. */
  type Ptr = nat

  const NULL: Ptr := 0

  /** A queued item with the number of the dispatch that queued it. */
  datatype Entry = Entry(item: Ptr, call: nat)

  /** A byte in a notification pipe: 'c' or 'q'. */
  datatype Note = Call | Quit

  /**
   Where a worker thread is in `LibevProcessor`: waiting, past reading a 'c', past the pop,
   inside the cleanup scope, past it, running the cleanup handler, or gone.  `Crashed` is a
   pop that found the queue empty.
   */
  datatype Phase =
    | Idle
    | Notified
    | Popped(item: Ptr)
    | Running(item: Ptr)
    | Finished(item: Ptr)
    | Cleanup(item: Ptr)
    | Dead
    | Crashed

  datatype Thread = Thread(slot: nat, phase: Phase)

  /** Where a caller is in `DispatchRpcCall`. */
  datatype Dispatcher = Ready | Missed | Holding(item: Ptr) | Pushed(slot: nat)

  datatype Pool = Pool(
    free: seq<Ptr>,
    queues: seq<seq<Entry>>,
    pipes: seq<seq<Note>>,
    threads: seq<Thread>,
    dispatchers: seq<Dispatcher>,
    born: set<Ptr>,
    leaked: multiset<Ptr>,
    pushes: nat,
    popped: seq<seq<nat>>)

  const ITEMS_PER_ALLOC: nat := 64

  datatype Step =
    | Take(d: nat)
    | Alloc(d: nat, block: seq<Ptr>)
    | AllocFail(d: nat)
    | Push(d: nat)
    | Notify(d: nat, written: bool)
    | SendQuit(slot: nat)
    | Read(t: nat)
    | Pop(t: nat)
    | Register(t: nat)
    | Complete(t: nat)
    | Release(t: nat)
    | Cancel(t: nat)
    | CleanupFree(t: nat)
    | Restart(slot: nat)

  predicate Distinct(s: seq<Ptr>) {
    forall i, j | 0 <= i < j < |s| :: s[i] != s[j]
  }

  ghost predicate Shaped(p: Pool) {
    && |p.queues| == |p.pipes| == |p.popped| > 0
    && (forall t | 0 <= t < |p.threads| :: p.threads[t].slot < |p.queues|)
    && (forall d | 0 <= d < |p.dispatchers| && p.dispatchers[d].Pushed? :: p.dispatchers[d].slot < |p.queues|)
  }

  ghost predicate Enabled(p: Pool, step: Step)
    requires Shaped(p)
  {
    match step
    case Take(d) => d < |p.dispatchers| && p.dispatchers[d].Ready?
    case Alloc(d, block) =>
      && d < |p.dispatchers| && p.dispatchers[d].Missed?
      && |block| == ITEMS_PER_ALLOC && Distinct(block) && forall x | x in block :: x != NULL && x !in p.born
    case AllocFail(d) => d < |p.dispatchers| && p.dispatchers[d].Missed?
    case Push(d) => d < |p.dispatchers| && p.dispatchers[d].Holding?
    case Notify(d, _) => d < |p.dispatchers| && p.dispatchers[d].Pushed?
    case SendQuit(w) => w < |p.pipes|
    case Read(t) => t < |p.threads| && p.threads[t].phase.Idle? && p.pipes[p.threads[t].slot] != []
    case Pop(t) => t < |p.threads| && p.threads[t].phase.Notified?
    case Register(t) => t < |p.threads| && p.threads[t].phase.Popped?
    case Complete(t) => t < |p.threads| && p.threads[t].phase.Running?
    case Release(t) => t < |p.threads| && p.threads[t].phase.Finished?
    case Cancel(t) => t < |p.threads| && !p.threads[t].phase.Cleanup?
    case CleanupFree(t) => t < |p.threads| && p.threads[t].phase.Cleanup?
    case Restart(w) => w < |p.queues|
  }

  function SetPhase(p: Pool, t: nat, phase: Phase): Pool
    requires t < |p.threads|
  {
    p.(threads := p.threads[t := p.threads[t].(phase := phase)])
  }

  function SetDispatcher(p: Pool, d: nat, state: Dispatcher): Pool
    requires d < |p.dispatchers|
  {
    p.(dispatchers := p.dispatchers[d := state])
  }

  ghost function Next(p: Pool, step: Step): Pool
    requires Shaped(p) && Enabled(p, step)
  {
    match step
    case Take(d) =>
      if p.free == [] then SetDispatcher(p, d, Missed)
      else SetDispatcher(p, d, Holding(p.free[0])).(free := p.free[1..])
    case Alloc(d, block) =>
      SetDispatcher(p, d, Holding(block[0])).(
        free := block[1..] + p.free,
        born := p.born + set x | x in block)
    case AllocFail(d) => SetDispatcher(p, d, Ready)
    case Push(d) =>
      var w := p.pushes % |p.queues|;
      SetDispatcher(p, d, Pushed(w)).(
        queues := p.queues[w := p.queues[w] + [Entry(p.dispatchers[d].item, p.pushes)]],
        pushes := p.pushes + 1)
    case Notify(d, written) =>
      var w := p.dispatchers[d].slot;
      SetDispatcher(p, d, Ready).(pipes := if written then p.pipes[w := p.pipes[w] + [Call]] else p.pipes)
    case SendQuit(w) => p.(pipes := p.pipes[w := p.pipes[w] + [Quit]])
    case Read(t) =>
      var w := p.threads[t].slot;
      SetPhase(p, t, if p.pipes[w][0].Call? then Notified else Dead).(pipes := p.pipes[w := p.pipes[w][1..]])
    case Pop(t) =>
      var w := p.threads[t].slot;
      if p.queues[w] == [] then SetPhase(p, t, Crashed)
      else
        SetPhase(p, t, Popped(p.queues[w][0].item)).(
          queues := p.queues[w := p.queues[w][1..]],
          popped := p.popped[w := p.popped[w] + [p.queues[w][0].call]])
    case Register(t) => SetPhase(p, t, Running(p.threads[t].phase.item))
    case Complete(t) => SetPhase(p, t, Finished(p.threads[t].phase.item))
    case Release(t) => SetPhase(p, t, Idle).(free := [p.threads[t].phase.item] + p.free)
    case Cancel(t) =>
      (match p.threads[t].phase
       case Popped(x) => SetPhase(p, t, Dead).(leaked := p.leaked + multiset{x})
       case Finished(x) => SetPhase(p, t, Dead).(leaked := p.leaked + multiset{x})
       case Running(x) => SetPhase(p, t, Cleanup(x))
       case _ => SetPhase(p, t, Dead))
    case CleanupFree(t) => SetPhase(p, t, Dead).(free := [p.threads[t].phase.item] + p.free)
    case Restart(w) => p.(threads := p.threads + [Thread(w, Idle)])
  }

  // ----- Sums over the threads, queues and dispatchers -----

  function Sum(ns: seq<nat>): nat {
    if ns == [] then 0 else Sum(ns[..|ns| - 1]) + ns[|ns| - 1]
  }

  lemma {:induction false} SumUpdate(ns: seq<nat>, i: nat, n: nat)
    requires i < |ns|
    ensures Sum(ns[i := n]) == Sum(ns) - ns[i] + n
    decreases |ns|
  {
    var last := |ns| - 1;
    if i < last {
      SumUpdate(ns[..last], i, n);
      assert ns[i := n][..last] == ns[..last][i := n];
    } else {
      assert ns[i := n][..last] == ns[..last];
    }
  }

  lemma SumAppend(ns: seq<nat>, n: nat)
    ensures Sum(ns + [n]) == Sum(ns) + n
  {
    assert (ns + [n])[..|ns|] == ns;
  }

  lemma {:induction false} SumAtLeast(ns: seq<nat>, i: nat)
    requires i < |ns|
    ensures ns[i] <= Sum(ns)
    decreases |ns|
  {
    if i < |ns| - 1 {
      SumAtLeast(ns[..|ns| - 1], i);
    }
  }

  lemma {:induction false} SumAtLeastTwo(ns: seq<nat>, i: nat, j: nat)
    requires i < j < |ns|
    ensures ns[i] + ns[j] <= Sum(ns)
    decreases |ns|
  {
    var last := |ns| - 1;
    if j < last {
      SumAtLeastTwo(ns[..last], i, j);
    } else {
      SumAtLeast(ns[..last], i);
    }
  }

  // ----- Who owns an item -----

  function Items(queue: seq<Entry>): (s: seq<Ptr>)
    ensures |s| == |queue| && forall i | 0 <= i < |queue| :: s[i] == queue[i].item
  {
    seq(|queue|, i requires 0 <= i < |queue| => queue[i].item)
  }

  function Calls(queue: seq<Entry>): (s: seq<nat>)
    ensures |s| == |queue| && forall i | 0 <= i < |queue| :: s[i] == queue[i].call
  {
    seq(|queue|, i requires 0 <= i < |queue| => queue[i].call)
  }

  predicate HoldsItem(phase: Phase, x: Ptr) {
    (phase.Popped? || phase.Running? || phase.Finished? || phase.Cleanup?) && phase.item == x
  }

  ghost function ThreadShare(threads: seq<Thread>, x: Ptr): (ns: seq<nat>)
    ensures |ns| == |threads|
    ensures forall t | 0 <= t < |threads| :: ns[t] == if HoldsItem(threads[t].phase, x) then 1 else 0
  {
    seq(|threads|, t requires 0 <= t < |threads| => if HoldsItem(threads[t].phase, x) then 1 else 0)
  }

  ghost function DispatcherShare(ds: seq<Dispatcher>, x: Ptr): (ns: seq<nat>)
    ensures |ns| == |ds|
    ensures forall d | 0 <= d < |ds| :: ns[d] == if ds[d].Holding? && ds[d].item == x then 1 else 0
  {
    seq(|ds|, d requires 0 <= d < |ds| => if ds[d].Holding? && ds[d].item == x then 1 else 0)
  }

  ghost function QueueShare(queues: seq<seq<Entry>>, x: Ptr): (ns: seq<nat>)
    ensures |ns| == |queues|
    ensures forall w | 0 <= w < |queues| :: ns[w] == multiset(Items(queues[w]))[x]
  {
    seq(|queues|, w requires 0 <= w < |queues| => multiset(Items(queues[w]))[x])
  }

  /** How many owners an item has: the free list, the queues, the workers, the dispatchers. */
  ghost function Owners(p: Pool, x: Ptr): nat {
    multiset(p.free)[x] + Sum(QueueShare(p.queues, x)) + Sum(ThreadShare(p.threads, x)) + Sum(DispatcherShare(p.dispatchers, x))
  }

  /** Every allocated item has one owner or was leaked once; nothing else is owned. */
  ghost predicate OwnedOnce(p: Pool, x: Ptr) {
    Owners(p, x) + p.leaked[x] == if x in p.born then 1 else 0
  }

  lemma PhaseShare(p: Pool, t: nat, phase: Phase, x: Ptr)
    requires t < |p.threads|
    ensures var was, now := HoldsItem(p.threads[t].phase, x), HoldsItem(phase, x);
            Sum(ThreadShare(SetPhase(p, t, phase).threads, x))
            == Sum(ThreadShare(p.threads, x)) - (if was then 1 else 0) + (if now then 1 else 0)
  {
    var ns, ns' := ThreadShare(p.threads, x), ThreadShare(SetPhase(p, t, phase).threads, x);
    SumUpdate(ns, t, ns'[t]);
    assert ns' == ns[t := ns'[t]];
  }

  lemma StateShare(p: Pool, d: nat, state: Dispatcher, x: Ptr)
    requires d < |p.dispatchers|
    ensures var was, now := p.dispatchers[d].Holding? && p.dispatchers[d].item == x, state.Holding? && state.item == x;
            Sum(DispatcherShare(SetDispatcher(p, d, state).dispatchers, x))
            == Sum(DispatcherShare(p.dispatchers, x)) - (if was then 1 else 0) + (if now then 1 else 0)
  {
    var ns, ns' := DispatcherShare(p.dispatchers, x), DispatcherShare(SetDispatcher(p, d, state).dispatchers, x);
    SumUpdate(ns, d, ns'[d]);
    assert ns' == ns[d := ns'[d]];
  }

  lemma QueueUpdateShare(queues: seq<seq<Entry>>, w: nat, queue: seq<Entry>, x: Ptr)
    requires w < |queues|
    ensures Sum(QueueShare(queues[w := queue], x))
         == Sum(QueueShare(queues, x)) - multiset(Items(queues[w]))[x] + multiset(Items(queue))[x]
  {
    var ns, ns' := QueueShare(queues, x), QueueShare(queues[w := queue], x);
    SumUpdate(ns, w, ns'[w]);
    assert ns' == ns[w := ns'[w]];
  }

  lemma CountHead(s: seq<Ptr>, x: Ptr)
    requires s != []
    ensures multiset(s)[x] == multiset(s[1..])[x] + if s[0] == x then 1 else 0
  {
    assert s == [s[0]] + s[1..];
  }

  lemma CountSnoc(queue: seq<Entry>, e: Entry, x: Ptr)
    ensures multiset(Items(queue + [e]))[x] == multiset(Items(queue))[x] + if e.item == x then 1 else 0
  {
    assert Items(queue + [e]) == Items(queue) + [e.item];
  }

  lemma {:induction false} CountDistinct(s: seq<Ptr>, x: Ptr)
    requires Distinct(s)
    ensures multiset(s)[x] == if x in s then 1 else 0
    decreases |s|
  {
    if s != [] {
      CountDistinct(s[1..], x);
      CountHead(s, x);
    }
  }

  predicate ByDispatcher(step: Step) {
    step.Take? || step.Alloc? || step.AllocFail? || step.Push? || step.Notify?
  }

  /** Each step hands an item on, allocates it or leaks it; it never copies one. */
  lemma StepKeepsOwners(p: Pool, step: Step, x: Ptr)
    requires Shaped(p) && Enabled(p, step) && OwnedOnce(p, x)
    ensures OwnedOnce(Next(p, step), x)
  {
    if ByDispatcher(step) {
      DispatcherKeepsOwners(p, step, x);
    } else {
      ThreadKeepsOwners(p, step, x);
    }
  }

  lemma DispatcherKeepsOwners(p: Pool, step: Step, x: Ptr)
    requires Shaped(p) && Enabled(p, step) && OwnedOnce(p, x) && ByDispatcher(step)
    ensures OwnedOnce(Next(p, step), x)
  {
    hide Sum, Items, ThreadShare, DispatcherShare, QueueShare;
    match step
    case Take(d) =>
      StateShare(p, d, if p.free == [] then Missed else Holding(p.free[0]), x);
      if p.free != [] {
        CountHead(p.free, x);
      }
    case Alloc(d, block) =>
      AllocKeepsOwners(p, d, block, x);
    case AllocFail(d) =>
      StateShare(p, d, Ready, x);
    case Push(d) =>
      var w := p.pushes % |p.queues|;
      var e := Entry(p.dispatchers[d].item, p.pushes);
      StateShare(p, d, Pushed(w), x);
      QueueUpdateShare(p.queues, w, p.queues[w] + [e], x);
      CountSnoc(p.queues[w], e, x);
    case Notify(d, _) =>
      StateShare(p, d, Ready, x);
  }

  lemma AllocKeepsOwners(p: Pool, d: nat, block: seq<Ptr>, x: Ptr)
    requires Shaped(p) && Enabled(p, Alloc(d, block)) && OwnedOnce(p, x)
    ensures OwnedOnce(Next(p, Alloc(d, block)), x)
  {
    hide Sum, Items, ThreadShare, DispatcherShare, QueueShare;
    StateShare(p, d, Holding(block[0]), x);
    CountDistinct(block, x);
    CountHead(block, x);
    assert multiset(block[1..] + p.free)[x] == multiset(block[1..])[x] + multiset(p.free)[x];
  }

  lemma ThreadKeepsOwners(p: Pool, step: Step, x: Ptr)
    requires Shaped(p) && Enabled(p, step) && OwnedOnce(p, x) && !ByDispatcher(step)
    ensures OwnedOnce(Next(p, step), x)
  {
    hide Sum, Items, ThreadShare, DispatcherShare, QueueShare;
    match step
    case SendQuit(_) =>
    case Read(t) =>
      PhaseShare(p, t, if p.pipes[p.threads[t].slot][0].Call? then Notified else Dead, x);
    case Pop(t) =>
      PopKeepsOwners(p, t, x);
    case Register(t) =>
      PhaseShare(p, t, Running(p.threads[t].phase.item), x);
    case Complete(t) =>
      PhaseShare(p, t, Finished(p.threads[t].phase.item), x);
    case Release(t) =>
      ReleaseKeepsOwners(p, t, Idle, x);
    case Cancel(t) =>
      CancelKeepsOwners(p, t, x);
    case CleanupFree(t) =>
      ReleaseKeepsOwners(p, t, Dead, x);
    case Restart(w) =>
      RestartShare(p.threads, Thread(w, Idle), x);
  }

  lemma ReleaseKeepsOwners(p: Pool, t: nat, phase: Phase, x: Ptr)
    requires t < |p.threads| && (p.threads[t].phase.Finished? || p.threads[t].phase.Cleanup?)
    requires (phase.Idle? || phase.Dead?) && OwnedOnce(p, x)
    ensures OwnedOnce(SetPhase(p, t, phase).(free := [p.threads[t].phase.item] + p.free), x)
  {
    hide Sum, Items, ThreadShare, DispatcherShare, QueueShare;
    PhaseShare(p, t, phase, x);
    CountHead([p.threads[t].phase.item] + p.free, x);
    assert ([p.threads[t].phase.item] + p.free)[1..] == p.free;
  }

  lemma CancelKeepsOwners(p: Pool, t: nat, x: Ptr)
    requires Shaped(p) && Enabled(p, Cancel(t)) && OwnedOnce(p, x)
    ensures OwnedOnce(Next(p, Cancel(t)), x)
  {
    hide Sum, Items, ThreadShare, DispatcherShare, QueueShare;
    PhaseShare(p, t, Dead, x);
    if p.threads[t].phase.Running? {
      PhaseShare(p, t, Cleanup(p.threads[t].phase.item), x);
    }
  }

  lemma RestartShare(threads: seq<Thread>, t: Thread, x: Ptr)
    requires t.phase.Idle?
    ensures Sum(ThreadShare(threads + [t], x)) == Sum(ThreadShare(threads, x))
  {
    SumAppend(ThreadShare(threads, x), 0);
    assert ThreadShare(threads + [t], x) == ThreadShare(threads, x) + [0];
  }

  lemma PopKeepsOwners(p: Pool, t: nat, x: Ptr)
    requires Shaped(p) && Enabled(p, Pop(t)) && OwnedOnce(p, x)
    ensures OwnedOnce(Next(p, Pop(t)), x)
  {
    hide Sum, ThreadShare, DispatcherShare, QueueShare;
    var w := p.threads[t].slot;
    var queue := p.queues[w];
    if queue == [] {
      PhaseShare(p, t, Crashed, x);
    } else {
      PhaseShare(p, t, Popped(queue[0].item), x);
      QueueUpdateShare(p.queues, w, queue[1..], x);
      CountHead(Items(queue), x);
      assert Items(queue)[1..] == Items(queue[1..]);
    }
  }

  // ----- Notification tokens -----

  function CallBytes(pipe: seq<Note>): nat {
    if pipe == [] then 0 else CallBytes(pipe[..|pipe| - 1]) + if pipe[|pipe| - 1].Call? then 1 else 0
  }

  lemma {:induction false} CallBytesHead(pipe: seq<Note>)
    requires pipe != []
    ensures CallBytes(pipe) == CallBytes(pipe[1..]) + if pipe[0].Call? then 1 else 0
    decreases |pipe|
  {
    var last := |pipe| - 1;
    if last > 0 {
      CallBytesHead(pipe[..last]);
      assert pipe[1..][..last - 1] == pipe[..last][1..];
    }
  }

  lemma CallBytesSnoc(pipe: seq<Note>, note: Note)
    ensures CallBytes(pipe + [note]) == CallBytes(pipe) + if note.Call? then 1 else 0
  {
    assert (pipe + [note])[..|pipe|] == pipe;
  }

  /** The readers of slot `w` that hold a consumed byte but have not popped. */
  ghost function Readers(threads: seq<Thread>, w: nat): (ns: seq<nat>)
    ensures |ns| == |threads|
    ensures forall t | 0 <= t < |threads| :: ns[t] == if threads[t].slot == w && threads[t].phase.Notified? then 1 else 0
  {
    seq(|threads|, t requires 0 <= t < |threads| => if threads[t].slot == w && threads[t].phase.Notified? then 1 else 0)
  }

  /** The dispatchers that have pushed to slot `w` but not yet written its byte. */
  ghost function Writers(ds: seq<Dispatcher>, w: nat): (ns: seq<nat>)
    ensures |ns| == |ds|
    ensures forall d | 0 <= d < |ds| :: ns[d] == if ds[d] == Pushed(w) then 1 else 0
  {
    seq(|ds|, d requires 0 <= d < |ds| => if ds[d] == Pushed(w) then 1 else 0)
  }

  /** Bytes sent, taken and still to come. */
  ghost function Tokens(p: Pool, w: nat): nat
    requires w < |p.pipes|
  {
    CallBytes(p.pipes[w]) + Sum(Readers(p.threads, w)) + Sum(Writers(p.dispatchers, w))
  }

  ghost predicate TokensCovered(p: Pool, w: nat)
    requires w < |p.pipes| && w < |p.queues|
  {
    Tokens(p, w) <= |p.queues[w]|
  }

  /** A queued item of slot `w` loses its byte: the write failed, or its reader was cancelled before the pop. */
  ghost predicate Strands(p: Pool, step: Step, w: nat)
    requires Shaped(p) && Enabled(p, step)
  {
    || (step.Notify? && !step.written && p.dispatchers[step.d].slot == w)
    || (step.Cancel? && p.threads[step.t].phase.Notified? && p.threads[step.t].slot == w)
  }

  /** The queue and its tokens move together, but for the items that a step strands. */
  ghost predicate TokensMove(p: Pool, step: Step, w: nat)
    requires Shaped(p) && Enabled(p, step) && w < |p.queues|
  {
    var p' := Next(p, step);
    && |p'.queues| == |p'.pipes| == |p.queues|
    && |p'.queues[w]| - Tokens(p', w) == |p.queues[w]| - Tokens(p, w) + if Strands(p, step, w) then 1 else 0
  }

  lemma PhaseReaders(p: Pool, t: nat, phase: Phase, w: nat)
    requires t < |p.threads|
    ensures var here := p.threads[t].slot == w;
            Sum(Readers(SetPhase(p, t, phase).threads, w))
            == Sum(Readers(p.threads, w)) - (if here && p.threads[t].phase.Notified? then 1 else 0)
                                          + (if here && phase.Notified? then 1 else 0)
  {
    var ns, ns' := Readers(p.threads, w), Readers(SetPhase(p, t, phase).threads, w);
    SumUpdate(ns, t, ns'[t]);
    assert ns' == ns[t := ns'[t]];
  }

  lemma StateWriters(p: Pool, d: nat, state: Dispatcher, w: nat)
    requires d < |p.dispatchers|
    ensures Sum(Writers(SetDispatcher(p, d, state).dispatchers, w))
         == Sum(Writers(p.dispatchers, w)) - (if p.dispatchers[d] == Pushed(w) then 1 else 0)
                                           + (if state == Pushed(w) then 1 else 0)
  {
    var ns, ns' := Writers(p.dispatchers, w), Writers(SetDispatcher(p, d, state).dispatchers, w);
    SumUpdate(ns, d, ns'[d]);
    assert ns' == ns[d := ns'[d]];
  }

  /** A thread that has read its byte finds its queue occupied. */
  lemma ReaderFindsItem(p: Pool, t: nat)
    requires Shaped(p) && t < |p.threads| && p.threads[t].phase.Notified? && TokensCovered(p, p.threads[t].slot)
    ensures p.queues[p.threads[t].slot] != []
  {
    SumAtLeast(Readers(p.threads, p.threads[t].slot), t);
  }

  lemma StepKeepsTokens(p: Pool, step: Step, w: nat)
    requires Shaped(p) && Enabled(p, step) && w < |p.queues|
    requires forall v | 0 <= v < |p.queues| :: TokensCovered(p, v)
    ensures TokensMove(p, step, w) && TokensCovered(Next(p, step), w)
  {
    assert TokensCovered(p, w);
    if ByDispatcher(step) {
      DispatcherMovesTokens(p, step, w);
    } else if step.Pop? || step.Read? {
      assert TokensCovered(p, p.threads[step.t].slot);
      ReaderMovesTokens(p, step, w);
    } else {
      ThreadMovesTokens(p, step, w);
    }
  }

  lemma DispatcherMovesTokens(p: Pool, step: Step, w: nat)
    requires Shaped(p) && Enabled(p, step) && w < |p.queues| && ByDispatcher(step)
    ensures TokensMove(p, step, w)
  {
    hide Sum, Readers, Writers, CallBytes, Distinct;
    match step
    case Take(d) =>
      StateWriters(p, d, if p.free == [] then Missed else Holding(p.free[0]), w);
    case Alloc(d, block) =>
      StateWriters(p, d, Holding(block[0]), w);
    case AllocFail(d) =>
      StateWriters(p, d, Ready, w);
    case Push(d) =>
      StateWriters(p, d, Pushed(p.pushes % |p.queues|), w);
    case Notify(d, _) =>
      StateWriters(p, d, Ready, w);
      CallBytesSnoc(p.pipes[w], Call);
  }

  lemma ReaderMovesTokens(p: Pool, step: Step, w: nat)
    requires Shaped(p) && Enabled(p, step) && w < |p.queues| && (step.Read? || step.Pop?)
    requires TokensCovered(p, p.threads[step.t].slot)
    ensures TokensMove(p, step, w)
  {
    hide Sum, Readers, Writers, CallBytes;
    var slot := p.threads[step.t].slot;
    if step.Read? {
      CallBytesHead(p.pipes[slot]);
      PhaseReaders(p, step.t, if p.pipes[slot][0].Call? then Notified else Dead, w);
    } else {
      ReaderFindsItem(p, step.t);
      PhaseReaders(p, step.t, Popped(p.queues[slot][0].item), w);
    }
  }

  lemma ThreadMovesTokens(p: Pool, step: Step, w: nat)
    requires Shaped(p) && Enabled(p, step) && w < |p.queues|
    requires !ByDispatcher(step) && !step.Read? && !step.Pop?
    ensures TokensMove(p, step, w)
  {
    hide Sum, Readers, Writers, CallBytes;
    match step
    case SendQuit(_) =>
      CallBytesSnoc(p.pipes[w], Quit);
    case Register(t) =>
      PhaseReaders(p, t, Running(p.threads[t].phase.item), w);
    case Complete(t) =>
      PhaseReaders(p, t, Finished(p.threads[t].phase.item), w);
    case Release(t) =>
      PhaseReaders(p, t, Idle, w);
    case Cancel(t) =>
      PhaseReaders(p, t, if p.threads[t].phase.Running? then Cleanup(p.threads[t].phase.item) else Dead, w);
    case CleanupFree(t) =>
      PhaseReaders(p, t, Dead, w);
    case Restart(v) =>
      SumAppend(Readers(p.threads, w), 0);
      ReadersAppend(p.threads, v, w);
  }

  lemma ReadersAppend(threads: seq<Thread>, v: nat, w: nat)
    ensures Readers(threads + [Thread(v, Idle)], w) == Readers(threads, w) + [0]
  {}

  // ----- Order -----

  /** The dispatch numbers below `k` that fall on slot `w` of `n`, in order. */
  function Schedule(w: nat, n: nat, k: nat): seq<nat>
    requires n > 0
    decreases k
  {
    if k == 0 then []
    else Schedule(w, n, k - 1) + if (k - 1) % n == w then [k - 1] else []
  }

  /** What was popped from a slot followed by what is queued there is the slot's schedule. */
  ghost predicate InOrder(p: Pool, w: nat)
    requires Shaped(p) && w < |p.queues|
  {
    p.popped[w] + Calls(p.queues[w]) == Schedule(w, |p.queues|, p.pushes)
  }

  lemma StepKeepsOrder(p: Pool, step: Step, w: nat)
    requires Shaped(p) && Enabled(p, step) && w < |p.queues| && Shaped(Next(p, step)) && InOrder(p, w)
    ensures |Next(p, step).queues| == |p.queues| && InOrder(Next(p, step), w)
  {
    if step.Push? {
      PushKeepsOrder(p, step.d, w);
    } else if step.Pop? {
      PopKeepsOrder(p, step.t, w);
    } else {
      hide Distinct, Schedule, Calls;
    }
  }

  lemma PushKeepsOrder(p: Pool, d: nat, w: nat)
    requires Shaped(p) && Enabled(p, Push(d)) && w < |p.queues| && Shaped(Next(p, Push(d))) && InOrder(p, w)
    ensures InOrder(Next(p, Push(d)), w)
  {
    var e := Entry(p.dispatchers[d].item, p.pushes);
    assert Calls(p.queues[w] + [e]) == Calls(p.queues[w]) + [e.call];
    assert p.popped[w] + (Calls(p.queues[w]) + [e.call]) == p.popped[w] + Calls(p.queues[w]) + [e.call];
  }

  lemma PopKeepsOrder(p: Pool, t: nat, w: nat)
    requires Shaped(p) && Enabled(p, Pop(t)) && w < |p.queues| && Shaped(Next(p, Pop(t))) && InOrder(p, w)
    ensures InOrder(Next(p, Pop(t)), w)
  {
    hide Distinct, Schedule, Calls;
    if p.threads[t].slot == w && p.queues[w] != [] {
      CallsMove(p.popped[w], p.queues[w]);
    }
  }

  lemma CallsMove(popped: seq<nat>, queue: seq<Entry>)
    requires queue != []
    ensures popped + [queue[0].call] + Calls(queue[1..]) == popped + Calls(queue)
  {
    assert Calls(queue) == [queue[0].call] + Calls(queue[1..]);
  }

  /** The j-th dispatch that a slot gets is number `w + j * n`. */
  lemma {:induction false} ScheduleIsRoundRobin(w: nat, n: nat, k: nat)
    requires w < n
    ensures forall j | 0 <= j < |Schedule(w, n, k)| :: Schedule(w, n, k)[j] == w + j * n
    ensures k <= w + |Schedule(w, n, k)| * n < k + n
    decreases k
  {
    if k > 0 {
      ScheduleIsRoundRobin(w, n, k - 1);
      var next := w + |Schedule(w, n, k - 1)| * n;
      ModOfSlot(w, |Schedule(w, n, k - 1)|, n);
      SameResidue(k - 1, next, n);
      assert (|Schedule(w, n, k - 1)| + 1) * n == |Schedule(w, n, k - 1)| * n + n;
    }
  }

  lemma {:induction false} ModOfSlot(w: nat, q: nat, n: nat)
    requires w < n
    ensures (w + q * n) % n == w
    decreases q
  {
    if q > 0 {
      ModOfSlot(w, q - 1, n);
      assert w + q * n == w + (q - 1) * n + n;
      ModPlus(w + (q - 1) * n, n);
    }
  }

  lemma ModPlus(a: nat, n: nat)
    requires n > 0
    ensures (a + n) % n == a % n
  {
    var q := a / n;
    assert a + n == n * (q + 1) + a % n;
    RemainderIs(a + n, n, q + 1, a % n);
  }

  lemma RemainderIs(a: nat, n: nat, q: int, r: nat)
    requires n > 0 && r < n && a == n * q + r
    ensures a % n == r
  {
    var d := a / n - q;
    assert n * d == r - a % n;
    MultipleIsFar(n, d);
  }

  lemma MultipleIsFar(n: nat, d: int)
    ensures d >= 1 ==> n * d >= n
    ensures d <= -1 ==> n * d <= -1 * n
  {}

  /** Two numbers less than `n` apart are equal exactly when they leave one remainder. */
  lemma SameResidue(a: nat, b: nat, n: nat)
    requires n > 0 && a <= b < a + n
    ensures a == b <==> a % n == b % n
  {
    if a % n == b % n {
      var d := b / n - a / n;
      assert n * d == b - a;
      MultipleIsFar(n, d);
    }
  }

  // ----- Whole runs -----

  ghost predicate NoCrash(p: Pool) {
    forall t | 0 <= t < |p.threads| :: !p.threads[t].phase.Crashed?
  }

  ghost predicate Inv(p: Pool) {
    && Shaped(p) && NoCrash(p) && NULL !in p.born
    && (forall w | 0 <= w < |p.queues| :: TokensCovered(p, w) && InOrder(p, w))
    && forall x :: OwnedOnce(p, x)
  }

  ghost predicate Init(p: Pool, slots: nat, dispatchers: nat) {
    && slots > 0
    && p == Pool([], seq(slots, _ => []), seq(slots, _ => []), seq(slots, (w: nat) => Thread(w, Idle)),
                 seq(dispatchers, _ => Ready), {}, multiset{}, 0, seq(slots, _ => []))
  }

  /** A run is a schedule of enabled steps. */
  ghost predicate Run(p: Pool, steps: seq<Step>, p': Pool)
    decreases |steps|
  {
    if steps == [] then p' == p
    else Shaped(p) && Enabled(p, steps[0]) && Run(Next(p, steps[0]), steps[1..], p')
  }

  lemma {:induction false} SumOfZeros(ns: seq<nat>)
    requires forall i | 0 <= i < |ns| :: ns[i] == 0
    ensures Sum(ns) == 0
    decreases |ns|
  {
    if ns != [] {
      SumOfZeros(ns[..|ns| - 1]);
    }
  }

  lemma InitHasInv(p: Pool, slots: nat, dispatchers: nat)
    requires Init(p, slots, dispatchers)
    ensures Inv(p)
  {
    forall x
      ensures OwnedOnce(p, x)
    {
      forall w | 0 <= w < slots
        ensures QueueShare(p.queues, x)[w] == 0
      {
        assert Items(p.queues[w]) == [];
      }
      SumOfZeros(QueueShare(p.queues, x));
      SumOfZeros(ThreadShare(p.threads, x));
      SumOfZeros(DispatcherShare(p.dispatchers, x));
    }
    forall w | 0 <= w < slots
      ensures TokensCovered(p, w) && InOrder(p, w)
    {
      SumOfZeros(Readers(p.threads, w));
      SumOfZeros(Writers(p.dispatchers, w));
      assert Calls(p.queues[w]) == [];
    }
  }

  lemma StepKeepsShape(p: Pool, step: Step)
    requires Shaped(p) && NoCrash(p) && NULL !in p.born && Enabled(p, step)
    requires forall w | 0 <= w < |p.queues| :: TokensCovered(p, w)
    ensures Shaped(Next(p, step)) && NoCrash(Next(p, step)) && NULL !in Next(p, step).born
    ensures |Next(p, step).queues| == |p.queues|
  {
    hide TokensCovered;
    if ByDispatcher(step) {
      DispatcherKeepsShape(p, step);
    } else {
      if step.Pop? {
        ReaderFindsItem(p, step.t);
      }
      ThreadKeepsShape(p, step);
    }
  }

  lemma DispatcherKeepsShape(p: Pool, step: Step)
    requires Shaped(p) && NoCrash(p) && NULL !in p.born && Enabled(p, step) && ByDispatcher(step)
    ensures Shaped(Next(p, step)) && NoCrash(Next(p, step)) && NULL !in Next(p, step).born
    ensures |Next(p, step).queues| == |p.queues|
  {
    hide Distinct;
  }

  lemma ThreadKeepsShape(p: Pool, step: Step)
    requires Shaped(p) && NoCrash(p) && NULL !in p.born && Enabled(p, step) && !ByDispatcher(step)
    requires step.Pop? ==> p.queues[p.threads[step.t].slot] != []
    ensures Shaped(Next(p, step)) && NoCrash(Next(p, step)) && NULL !in Next(p, step).born
    ensures |Next(p, step).queues| == |p.queues|
  {}

  lemma StepKeepsInv(p: Pool, step: Step)
    requires Inv(p) && Enabled(p, step)
    ensures Inv(Next(p, step)) && |Next(p, step).queues| == |p.queues|
  {
    hide Next, Enabled, TokensCovered, InOrder, OwnedOnce, Shaped, NoCrash;
    StepKeepsShape(p, step);
    forall x
      ensures OwnedOnce(Next(p, step), x)
    {
      StepKeepsOwners(p, step, x);
    }
    forall w | 0 <= w < |p.queues|
      ensures |Next(p, step).pipes| == |p.queues| && TokensCovered(Next(p, step), w) && InOrder(Next(p, step), w)
    {
      StepKeepsTokens(p, step, w);
      StepKeepsOrder(p, step, w);
    }
  }

  lemma {:induction false} RunKeepsInv(p: Pool, steps: seq<Step>, p': Pool)
    requires Inv(p) && Run(p, steps, p')
    ensures Inv(p') && |p'.queues| == |p.queues|
    decreases |steps|
  {
    hide Inv;
    if steps != [] {
      StepKeepsInv(p, steps[0]);
      RunKeepsInv(Next(p, steps[0]), steps[1..], p');
    }
  }

  // ----- What every run guarantees -----

  /** No pop finds its queue empty, and no reader ever will. */
  lemma PopNeverNull(p: Pool, slots: nat, dispatchers: nat, steps: seq<Step>, p': Pool, t: nat)
    requires Init(p, slots, dispatchers) && Run(p, steps, p') && t < |p'.threads|
    ensures |p'.queues| == slots && p'.threads[t].slot < slots
    ensures !p'.threads[t].phase.Crashed?
    ensures p'.threads[t].phase.Notified? ==> p'.queues[p'.threads[t].slot] != []
  {
    hide Run, Sum;
    InitHasInv(p, slots, dispatchers);
    RunKeepsInv(p, steps, p');
    if p'.threads[t].phase.Notified? {
      ReaderFindsItem(p', t);
    }
  }

  /** The j-th item that slot `w` hands out is dispatch number `w + j * slots`. */
  lemma PopsInDispatchOrder(p: Pool, slots: nat, dispatchers: nat, steps: seq<Step>, p': Pool, w: nat, j: nat)
    requires Init(p, slots, dispatchers) && Run(p, steps, p') && w < slots
    requires |p'.popped| == slots ==> j < |p'.popped[w]|
    ensures |p'.popped| == slots && p'.popped[w][j] == w + j * slots
  {
    hide Run, TokensCovered, OwnedOnce;
    InitHasInv(p, slots, dispatchers);
    RunKeepsInv(p, steps, p');
    assert InOrder(p', w);
    ScheduleIsRoundRobin(w, slots, p'.pushes);
    assert Schedule(w, slots, p'.pushes)[j] == p'.popped[w][j];
  }

  /** How many items of slot `w` a run strands. */
  ghost function Strandings(p: Pool, steps: seq<Step>, p': Pool, w: nat): nat
    requires Run(p, steps, p')
    decreases |steps|
  {
    if steps == [] then 0
    else (if Strands(p, steps[0], w) then 1 else 0) + Strandings(Next(p, steps[0]), steps[1..], p', w)
  }

  lemma {:induction false} RunMovesTokens(p: Pool, steps: seq<Step>, p': Pool, w: nat)
    requires Inv(p) && Run(p, steps, p') && w < |p.queues|
    ensures |p'.queues| == |p'.pipes| == |p.queues|
    ensures |p'.queues[w]| - Tokens(p', w) == |p.queues[w]| - Tokens(p, w) + Strandings(p, steps, p', w)
    decreases |steps|
  {
    hide Tokens, Strands, Next, Enabled, InOrder, OwnedOnce, NoCrash, TokensCovered;
    if steps != [] {
      StepKeepsTokens(p, steps[0], w);
      StepKeepsInv(p, steps[0]);
      RunMovesTokens(Next(p, steps[0]), steps[1..], p', w);
    }
  }

  /** In every run the items of a slot are its bytes, readers and writers and those that were stranded. */
  lemma StrandedItems(p: Pool, slots: nat, dispatchers: nat, steps: seq<Step>, p': Pool, w: nat)
    requires Init(p, slots, dispatchers) && Run(p, steps, p') && w < slots
    ensures |p'.queues| == |p'.pipes| == slots
    ensures |p'.queues[w]| == Tokens(p', w) + Strandings(p, steps, p', w)
  {
    hide Run, Strandings;
    InitHasInv(p, slots, dispatchers);
    RunMovesTokens(p, steps, p', w);
    SumOfZeros(Readers(p.threads, w));
    SumOfZeros(Writers(p.dispatchers, w));
  }

  // ----- Cancellation -----

  /** A cancellation between the pop and the cleanup scope, or between that scope and the release. */
  ghost predicate HitsGap(p: Pool, step: Step)
    requires Shaped(p) && Enabled(p, step)
  {
    step.Cancel? && (p.threads[step.t].phase.Popped? || p.threads[step.t].phase.Finished?)
  }

  ghost function GapHits(p: Pool, steps: seq<Step>, p': Pool): nat
    requires Run(p, steps, p')
    decreases |steps|
  {
    if steps == [] then 0
    else (if HitsGap(p, steps[0]) then 1 else 0) + GapHits(Next(p, steps[0]), steps[1..], p')
  }

  /** Items are lost one by one, and only by cancellations that hit one of the two gaps. */
  lemma {:induction false} LeaksAreGapHits(p: Pool, steps: seq<Step>, p': Pool)
    requires Run(p, steps, p')
    ensures |p'.leaked| == |p.leaked| + GapHits(p, steps, p')
    decreases |steps|
  {
    if steps != [] {
      LeaksAreGapHits(Next(p, steps[0]), steps[1..], p');
    }
  }

  /** While no cancellation hits a gap, every allocated item has exactly one owner. */
  lemma NothingLost(p: Pool, slots: nat, dispatchers: nat, steps: seq<Step>, p': Pool, x: Ptr)
    requires Init(p, slots, dispatchers) && Run(p, steps, p')
    ensures Owners(p', x) <= 1
    ensures GapHits(p, steps, p') == 0 ==> (Owners(p', x) == 1 <==> x in p'.born)
    ensures GapHits(p, steps, p') != 0 <==> exists y :: y in p'.born && Owners(p', y) == 0
  {
    hide Owners, GapHits, Run;
    InitHasInv(p, slots, dispatchers);
    RunKeepsInv(p, steps, p');
    LeaksAreGapHits(p, steps, p');
    assert OwnedOnce(p', x);
    if GapHits(p, steps, p') == 0 {
      assert p'.leaked == multiset{};
      forall y
        ensures y in p'.born ==> Owners(p', y) == 1
      {
        assert OwnedOnce(p', y);
      }
    } else {
      var y :| y in p'.leaked;
      assert OwnedOnce(p', y);
    }
  }

  lemma RunSnoc(p: Pool, steps: seq<Step>, p': Pool, step: Step)
    requires Run(p, steps, p') && Shaped(p') && Enabled(p', step)
    ensures Run(p, steps + [step], Next(p', step))
    decreases |steps|
  {
    if steps != [] {
      RunSnoc(Next(p, steps[0]), steps[1..], p', step);
      assert (steps + [step])[1..] == steps[1..] + [step];
    } else {
      assert [step][1..] == [];
    }
  }

  /** The first item that is dispatched is queued for the first worker. */
  lemma FirstItemQueued(p: Pool, slots: nat, dispatchers: nat, block: seq<Ptr>) returns (steps: seq<Step>, p': Pool)
    requires Init(p, slots, dispatchers) && dispatchers > 0
    requires |block| == ITEMS_PER_ALLOC && Distinct(block) && NULL !in block
    ensures Run(p, steps, p') && Shaped(p') && p'.dispatchers != [] && p'.dispatchers[0] == Pushed(0)
    ensures p'.threads != [] && p'.threads[0] == Thread(0, Idle)
    ensures p'.queues[0] == [Entry(block[0], 0)] && p'.pipes[0] == []
  {
    hide Run, Distinct;
    steps, p' := [], p;
    RunNothing(p);
    RunSnoc(p, steps, p', Take(0));
    steps, p' := steps + [Take(0)], Next(p', Take(0));
    RunSnoc(p, steps, p', Alloc(0, block));
    steps, p' := steps + [Alloc(0, block)], Next(p', Alloc(0, block));
    RunSnoc(p, steps, p', Push(0));
    steps, p' := steps + [Push(0)], Next(p', Push(0));
  }

  /** It is popped by that worker. */
  lemma FirstItemPopped(p: Pool, slots: nat, dispatchers: nat, block: seq<Ptr>) returns (steps: seq<Step>, p': Pool)
    requires Init(p, slots, dispatchers) && dispatchers > 0
    requires |block| == ITEMS_PER_ALLOC && Distinct(block) && NULL !in block
    ensures Run(p, steps, p') && Shaped(p') && Enabled(p', Cancel(0))
    ensures p'.threads[0].phase == Popped(block[0])
  {
    hide Init, Run, Distinct;
    steps, p' := FirstItemQueued(p, slots, dispatchers, block);
    RunSnoc(p, steps, p', Notify(0, true));
    steps, p' := steps + [Notify(0, true)], Next(p', Notify(0, true));
    RunSnoc(p, steps, p', Read(0));
    steps, p' := steps + [Read(0)], Next(p', Read(0));
    RunSnoc(p, steps, p', Pop(0));
    steps, p' := steps + [Pop(0)], Next(p', Pop(0));
  }

  lemma RunNothing(p: Pool)
    ensures Run(p, [], p)
  {}

  /** With asynchronous cancellation every pool with a caller has a run that loses an item. */
  lemma AsynchronousLoses(p: Pool, slots: nat, dispatchers: nat)
    requires Init(p, slots, dispatchers) && dispatchers > 0
    ensures exists steps, p', x :: Run(p, steps, p') && x in p'.born && Owners(p', x) == 0
  {
    hide Owners, Run;
    var block := seq(ITEMS_PER_ALLOC, (i: nat) => i + 1);
    var steps, p' := FirstItemPopped(p, slots, dispatchers, block);
    RunSnoc(p, steps, p', Cancel(0));
    var lost := Next(p', Cancel(0));
    InitHasInv(p, slots, dispatchers);
    RunKeepsInv(p, steps + [Cancel(0)], lost);
    assert OwnedOnce(lost, block[0]);
    assert block[0] in lost.leaked;
    assert Run(p, steps + [Cancel(0)], lost) && block[0] in lost.born && Owners(lost, block[0]) == 0;
  }

  /**
   Where a deferred cancellation can act: a worker waits for a byte, or runs the call inside
   the cleanup scope.  No function between these points is a cancellation point.  A thread
   that is gone ignores it.
   */
  predicate CancellationPoint(phase: Phase) {
    phase.Idle? || phase.Running? || phase.Dead?
  }

  /** A run in which every cancellation is deferred, as it is for all workers of the pool. */
  ghost predicate DeferredRun(p: Pool, steps: seq<Step>, p': Pool)
    decreases |steps|
  {
    if steps == [] then p' == p
    else
      && Shaped(p) && Enabled(p, steps[0])
      && (steps[0].Cancel? ==> CancellationPoint(p.threads[steps[0].t].phase))
      && DeferredRun(Next(p, steps[0]), steps[1..], p')
  }

  /** The failed writes to slot `w`. */
  ghost function FailedWrites(p: Pool, steps: seq<Step>, p': Pool, w: nat): nat
    requires Run(p, steps, p')
    decreases |steps|
  {
    if steps == [] then 0
    else
      (if steps[0].Notify? && !steps[0].written && p.dispatchers[steps[0].d].slot == w then 1 else 0)
      + FailedWrites(Next(p, steps[0]), steps[1..], p', w)
  }

  /** A deferred cancellation hits no gap and strands no item. */
  lemma {:induction false} DeferredHitsNothing(p: Pool, steps: seq<Step>, p': Pool, w: nat)
    requires DeferredRun(p, steps, p')
    ensures Run(p, steps, p') && GapHits(p, steps, p') == 0
    ensures Strandings(p, steps, p', w) == FailedWrites(p, steps, p', w)
    decreases |steps|
  {
    hide Next;
    if steps != [] {
      DeferredHitsNothing(Next(p, steps[0]), steps[1..], p', w);
    }
  }

  /**
   The pool as it runs loses nothing: at every moment every allocated item has exactly one
   owner, and the only items of a slot without a byte, reader or writer are those whose
   notification could not be written.
   */
  lemma DeferredLosesNothing(p: Pool, slots: nat, dispatchers: nat, steps: seq<Step>, p': Pool)
    requires Init(p, slots, dispatchers) && DeferredRun(p, steps, p')
    ensures Run(p, steps, p') && |p'.queues| == |p'.pipes| == slots
    ensures forall x :: Owners(p', x) == if x in p'.born then 1 else 0
    ensures forall w | 0 <= w < slots :: |p'.queues[w]| == Tokens(p', w) + FailedWrites(p, steps, p', w)
  {
    hide Init, Run, DeferredRun, Owners, Tokens, GapHits, Strandings, FailedWrites;
    DeferredHitsNothing(p, steps, p', 0);
    RunsHaveSlots(p, slots, dispatchers, steps, p');
    forall x
      ensures Owners(p', x) == if x in p'.born then 1 else 0
    {
      NothingLost(p, slots, dispatchers, steps, p', x);
    }
    forall w | 0 <= w < slots
      ensures |p'.queues[w]| == Tokens(p', w) + FailedWrites(p, steps, p', w)
    {
      DeferredHitsNothing(p, steps, p', w);
      StrandedItems(p, slots, dispatchers, steps, p', w);
    }
  }

  lemma RunsHaveSlots(p: Pool, slots: nat, dispatchers: nat, steps: seq<Step>, p': Pool)
    requires Init(p, slots, dispatchers) && Run(p, steps, p')
    ensures |p'.queues| == |p'.pipes| == slots
  {
    hide Run;
    InitHasInv(p, slots, dispatchers);
    RunKeepsInv(p, steps, p');
  }

  /** The lists never share or repeat an item, and what a worker or caller holds is on none of them. */
  ghost predicate Separate(p: Pool)
    requires Shaped(p)
  {
    && Distinct(p.free)
    && (forall w | 0 <= w < |p.queues| :: Distinct(Items(p.queues[w])))
    && (forall w, x | 0 <= w < |p.queues| && x in Items(p.queues[w]) :: x !in p.free)
    && (forall v, w, x | 0 <= v < w < |p.queues| && x in Items(p.queues[v]) :: x !in Items(p.queues[w]))
    && (forall d | 0 <= d < |p.dispatchers| && p.dispatchers[d].Holding? :: OnNoList(p, p.dispatchers[d].item))
    && (forall t, x | 0 <= t < |p.threads| && HoldsItem(p.threads[t].phase, x) :: OnNoList(p, x))
  }

  ghost predicate OnNoList(p: Pool, x: Ptr) {
    x !in p.free && forall w | 0 <= w < |p.queues| :: x !in Items(p.queues[w])
  }

  lemma ListsSeparate(p: Pool)
    requires Inv(p)
    ensures Separate(p)
    ensures forall x | x in p.free :: x != NULL && x in p.born
    ensures forall w, x | 0 <= w < |p.queues| && x in Items(p.queues[w]) :: x != NULL && x in p.born
  {
    hide TokensCovered, InOrder, OwnedOnce;
    forall x
      ensures Placed(p, x)
    {
      assert OwnedOnce(p, x);
      OwnerPlaces(p, x);
    }
    forall x
      ensures multiset(p.free)[x] <= 1
    {
      assert Placed(p, x);
    }
    CountOneDistinct(p.free);
    forall w | 0 <= w < |p.queues|
      ensures Distinct(Items(p.queues[w]))
    {
      forall x
        ensures multiset(Items(p.queues[w]))[x] <= 1
      {
        assert Placed(p, x);
      }
      CountOneDistinct(Items(p.queues[w]));
    }
    forall w, x | 0 <= w < |p.queues| && x in Items(p.queues[w])
      ensures x !in p.free && x in p.born
    {
      assert Placed(p, x);
    }
    forall v, w, x | 0 <= v < w < |p.queues| && x in Items(p.queues[v])
      ensures x !in Items(p.queues[w])
    {
      assert Placed(p, x);
    }
    forall x | x in p.free
      ensures x in p.born
    {
      assert Placed(p, x);
    }
    forall d | 0 <= d < |p.dispatchers| && p.dispatchers[d].Holding?
      ensures OnNoList(p, p.dispatchers[d].item)
    {
      assert Placed(p, p.dispatchers[d].item);
    }
    forall t, x | 0 <= t < |p.threads| && HoldsItem(p.threads[t].phase, x)
      ensures OnNoList(p, x)
    {
      assert Placed(p, x);
    }
  }

  /** An item is in at most one place, and only if it was allocated. */
  ghost predicate Placed(p: Pool, x: Ptr) {
    && multiset(p.free)[x] <= 1
    && (x in p.free ==> x in p.born)
    && (forall w | 0 <= w < |p.queues| ::
          multiset(Items(p.queues[w]))[x] <= 1 && (x in Items(p.queues[w]) ==> x !in p.free && x in p.born))
    && (forall v, w | 0 <= v < w < |p.queues| :: x in Items(p.queues[w]) ==> x !in Items(p.queues[v]))
    && ((exists t :: 0 <= t < |p.threads| && HoldsItem(p.threads[t].phase, x)) ==> OnNoList(p, x))
    && ((exists d :: 0 <= d < |p.dispatchers| && p.dispatchers[d] == Holding(x)) ==> OnNoList(p, x))
  }

  lemma OwnerPlaces(p: Pool, x: Ptr)
    requires OwnedOnce(p, x)
    ensures Placed(p, x)
  {
    hide Sum;
    var qs, ts, ds := QueueShare(p.queues, x), ThreadShare(p.threads, x), DispatcherShare(p.dispatchers, x);
    forall w | 0 <= w < |qs|
      ensures multiset(Items(p.queues[w]))[x] <= Sum(qs)
    {
      SumAtLeast(qs, w);
    }
    forall v, w | 0 <= v < w < |qs|
      ensures multiset(Items(p.queues[v]))[x] + multiset(Items(p.queues[w]))[x] <= Sum(qs)
    {
      SumAtLeastTwo(qs, v, w);
    }
    forall t | 0 <= t < |ts| && HoldsItem(p.threads[t].phase, x)
      ensures 1 <= Sum(ts)
    {
      SumAtLeast(ts, t);
    }
    forall d | 0 <= d < |ds| && p.dispatchers[d] == Holding(x)
      ensures 1 <= Sum(ds)
    {
      SumAtLeast(ds, d);
    }
  }

  lemma CountOneDistinct(s: seq<Ptr>)
    requires forall x :: multiset(s)[x] <= 1
    ensures Distinct(s)
  {
    forall i, j | 0 <= i < j < |s|
      ensures s[i] != s[j]
    {
      assert s == s[..j] + s[j..];
      assert s[j..][0] == s[j] && s[..j][i] == s[i];
      assert multiset(s)[s[j]] == multiset(s[..j])[s[j]] + multiset(s[j..])[s[j]];
      assert s[j] !in s[..j];
    }
  }
}
