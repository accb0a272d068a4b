/**
 The pool's linked lists: one free list and one queue per worker, threaded through the
 `next` field of the items (src/rpc_server/libev_thread_pool.cpp).  Every locked block edits
 links in place and is proved to be a step of `WorkerPool`.
 */
module LinkedPool {
  import opened WorkerPool

  /** What a caller dispatches: a function and its argument, both any pointer. */
  datatype Task = Task(processor: Ptr, param: Ptr)

  /** The `next` fields of the items and the tasks in them, and the list heads and tails. */
  datatype Links = Links(
    next: map<Ptr, Ptr>, task: map<Ptr, Task>, freelist: Ptr, heads: seq<Ptr>, tails: seq<Ptr>)

  // ----- Chains of links -----

  /** From `head`, the links run through `s` and end in NULL. */
  ghost predicate Chain(next: map<Ptr, Ptr>, head: Ptr, s: seq<Ptr>) {
    && head == At(s, 0)
    && forall i | 0 <= i < |s| :: s[i] in next && next[s[i]] == At(s, i + 1)
  }

  ghost function At(s: seq<Ptr>, i: nat): Ptr {
    if i < |s| then s[i] else NULL
  }

  ghost function AtOr(s: seq<Ptr>, i: nat, end: Ptr): Ptr {
    if i < |s| then s[i] else end
  }

  ghost function Last(s: seq<Ptr>): Ptr {
    if s == [] then NULL else s[|s| - 1]
  }

  lemma ChainRest(next: map<Ptr, Ptr>, head: Ptr, s: seq<Ptr>)
    requires Chain(next, head, s) && s != []
    ensures head == s[0] && head in next && Chain(next, next[head], s[1..])
  {}

  /** Links outside a list do not matter to it. */
  lemma ChainFrame(next: map<Ptr, Ptr>, next': map<Ptr, Ptr>, head: Ptr, s: seq<Ptr>)
    requires Chain(next, head, s)
    requires forall x | x in s :: x in next' && (x in next ==> next'[x] == next[x])
    ensures Chain(next', head, s)
  {
    assert forall i | 0 <= i < |s| :: s[i] in s;
  }

  lemma ChainPush(next: map<Ptr, Ptr>, head: Ptr, s: seq<Ptr>, x: Ptr)
    requires Chain(next, head, s) && x !in s
    ensures Chain(next[x := head], x, [x] + s)
  {
    ChainFrame(next, next[x := head], head, s);
    var next', s' := next[x := head], [x] + s;
    assert forall i | 0 < i < |s'| :: s'[i] == s[i - 1] && next'[s[i - 1]] == At(s, i);
  }

  lemma ChainAppend(next: map<Ptr, Ptr>, head: Ptr, s: seq<Ptr>, x: Ptr)
    requires Chain(next, head, s) && Distinct(s) && x !in s
    ensures var next1 := next[x := NULL];
            if s == [] then Chain(next1, x, [x])
            else Chain(next1[s[|s| - 1] := x], head, s + [x])
  {
    assert forall i | 0 <= i < |s| :: s[i] in s;
  }

  lemma {:induction false} ChainConcat(next: map<Ptr, Ptr>, s: seq<Ptr>, head: Ptr, t: seq<Ptr>)
    requires Chain(next, head, t) && s != []
    requires forall i | 0 <= i < |s| :: s[i] in next && next[s[i]] == AtOr(s, i + 1, head)
    ensures Chain(next, s[0], s + t)
  {
    var u := s + t;
    forall i | 0 <= i < |u|
      ensures u[i] in next && next[u[i]] == At(u, i + 1)
    {
      if i + 1 < |s| {
        assert next[s[i]] == s[i + 1];
        assert u[i] == s[i] && u[i + 1] == s[i + 1];
      } else if i < |s| {
        assert next[s[i]] == head;
        assert u[i] == s[i];
        assert |t| > 0 ==> u[i + 1] == t[0];
      } else {
        var j := i - |s|;
        assert u[i] == t[j] && t[j] in next && next[t[j]] == At(t, j + 1);
        assert At(u, i + 1) == At(t, j + 1);
      }
    }
  }

  // ----- Links that represent a pool -----

  /** `tasks` lists everything dispatched so far; a queued item holds the task of its dispatch. */
  ghost predicate QueueLinked(l: Links, w: nat, queue: seq<Entry>, tasks: seq<Task>)
    requires w < |l.heads| == |l.tails|
  {
    && Chain(l.next, l.heads[w], Items(queue))
    && l.tails[w] == Last(Items(queue))
    && forall i | 0 <= i < |queue| :: HoldsTask(l.task, queue[i], tasks)
  }

  ghost predicate HoldsTask(task: map<Ptr, Task>, e: Entry, tasks: seq<Task>) {
    e.call < |tasks| && e.item in task && task[e.item] == tasks[e.call]
  }

  ghost predicate Represents(l: Links, p: Pool, tasks: seq<Task>) {
    && |l.heads| == |l.tails| == |p.queues|
    && |tasks| == p.pushes
    && l.next.Keys == p.born
    && Chain(l.next, l.freelist, p.free)
    && forall w | 0 <= w < |p.queues| :: QueueLinked(l, w, p.queues[w], tasks)
  }

  lemma QueueFrame(l: Links, l': Links, w: nat, queue: seq<Entry>, tasks: seq<Task>)
    requires w < |l.heads| == |l.tails| == |l'.heads| == |l'.tails| && QueueLinked(l, w, queue, tasks)
    requires l'.heads[w] == l.heads[w] && l'.tails[w] == l.tails[w]
    requires forall x | x in Items(queue) :: x in l'.next && (x in l.next ==> l'.next[x] == l.next[x])
    requires forall x | x in Items(queue) && x in l.task :: x in l'.task && l'.task[x] == l.task[x]
    ensures QueueLinked(l', w, queue, tasks)
  {
    ChainFrame(l.next, l'.next, l.heads[w], Items(queue));
    assert forall i | 0 <= i < |queue| :: Items(queue)[i] in Items(queue);
  }

  // ----- The locked blocks as edits of the links -----

  function TakeLinks(l: Links): Links {
    if l.freelist == NULL || l.freelist !in l.next then l else l.(freelist := l.next[l.freelist])
  }

  function FreeLinks(l: Links, item: Ptr): Links {
    l.(next := l.next[item := l.freelist], freelist := item)
  }

  function PushLinks(l: Links, w: nat, item: Ptr, task: Task): Links
    requires w < |l.heads| == |l.tails|
  {
    var l1 := l.(task := l.task[item := task], next := l.next[item := NULL]);
    var l2 := if l.tails[w] == NULL then l1.(heads := l.heads[w := item])
              else l1.(next := l1.next[l.tails[w] := item]);
    l2.(tails := l.tails[w := item])
  }

  function PopLinks(l: Links, w: nat): Links
    requires w < |l.heads| == |l.tails|
  {
    if l.heads[w] == NULL || l.heads[w] !in l.next then l
    else
      var head := l.next[l.heads[w]];
      l.(heads := l.heads[w := head], tails := if head == NULL then l.tails[w := NULL] else l.tails)
  }

  /** The addresses of one `malloc` block. */
  function Block(base: Ptr): (block: seq<Ptr>)
    ensures |block| == ITEMS_PER_ALLOC && Distinct(block)
    ensures forall i | 0 <= i < |block| :: block[i] == base + i
  {
    seq(ITEMS_PER_ALLOC, (i: nat) => base + i)
  }

  /** The first `n` items of a block, each linked to the item behind it. */
  function BlockLinks(base: Ptr, n: nat): (links: map<Ptr, Ptr>)
    ensures forall x | x in links :: base <= x < base + n && links[x] == x + 1
    ensures forall x | base <= x < base + n :: x in links
  {
    if n == 0 then map[] else BlockLinks(base, n - 1)[base + n - 1 := base + n]
  }

  /** The block linked up, its last item to the old free list, its second the new head. */
  function AllocLinks(l: Links, base: Ptr): Links {
    var last := base + ITEMS_PER_ALLOC - 1;
    l.(next := (l.next + BlockLinks(base, ITEMS_PER_ALLOC - 1))[last := l.freelist], freelist := base + 1)
  }

  // ----- Each edit is a step of the pool -----

  lemma TakeRefines(l: Links, p: Pool, tasks: seq<Task>, d: nat)
    requires Inv(p) && Represents(l, p, tasks) && Enabled(p, Take(d))
    ensures Represents(TakeLinks(l), Next(p, Take(d)), tasks)
    ensures l.freelist == NULL <==> p.free == []
    ensures l.freelist == At(p.free, 0)
  {
    hide Inv, QueueLinked;
    ListsSeparate(p);
    if p.free != [] {
      assert p.free[0] in p.free;
      ChainRest(l.next, l.freelist, p.free);
    }
    forall w | 0 <= w < |p.queues|
      ensures QueueLinked(TakeLinks(l), w, p.queues[w], tasks)
    {
      QueueSame(l, TakeLinks(l), w, p.queues[w], tasks);
    }
  }

  lemma QueueSame(l: Links, l': Links, w: nat, queue: seq<Entry>, tasks: seq<Task>)
    requires w < |l.heads| == |l.tails| && QueueLinked(l, w, queue, tasks)
    requires l'.next == l.next && l'.task == l.task && l'.heads == l.heads && l'.tails == l.tails
    ensures QueueLinked(l', w, queue, tasks)
  {}

  lemma FreeRefines(l: Links, p: Pool, tasks: seq<Task>, step: Step, item: Ptr)
    requires Inv(p) && Represents(l, p, tasks) && Enabled(p, step) && (step.Release? || step.CleanupFree?)
    requires item == p.threads[step.t].phase.item
    ensures Represents(FreeLinks(l, item), Next(p, step), tasks) && item in p.born
  {
    ListsSeparate(p);
    HeldIsBorn(p, step.t, item);
    hide Inv, QueueLinked;
    assert OnNoList(p, item);
    var l' := FreeLinks(l, item);
    ChainPush(l.next, l.freelist, p.free, item);
    forall w | 0 <= w < |p.queues|
      ensures QueueLinked(l', w, p.queues[w], tasks)
    {
      assert QueueLinked(l, w, p.queues[w], tasks);
      QueueFrame(l, l', w, p.queues[w], tasks);
    }
  }

  lemma HeldIsBorn(p: Pool, t: nat, x: Ptr)
    requires Inv(p) && t < |p.threads| && HoldsItem(p.threads[t].phase, x)
    ensures x in p.born && x != NULL
  {
    hide Sum;
    assert OwnedOnce(p, x);
    SumAtLeast(ThreadShare(p.threads, x), t);
  }

  lemma HoldingIsBorn(p: Pool, d: nat, x: Ptr)
    requires Inv(p) && d < |p.dispatchers| && p.dispatchers[d] == Holding(x)
    ensures x in p.born && x != NULL
  {
    hide Sum;
    assert OwnedOnce(p, x);
    SumAtLeast(DispatcherShare(p.dispatchers, x), d);
  }

  lemma AllocRefines(l: Links, p: Pool, tasks: seq<Task>, d: nat, base: Ptr)
    requires Inv(p) && Represents(l, p, tasks) && Enabled(p, Alloc(d, Block(base)))
    ensures Represents(AllocLinks(l, base), Next(p, Alloc(d, Block(base))), tasks)
  {
    ListsSeparate(p);
    hide Inv, QueueLinked, AllocLinks, Block;
    var l', block := AllocLinks(l, base), Block(base);
    AllocFrame(l, base);
    FreshLinks(l, base);
    assert forall x | x in p.born :: x in l'.next && l'.next[x] == l.next[x];
    ChainFrame(l.next, l'.next, l.freelist, p.free);
    ChainConcat(l'.next, block[1..], l.freelist, p.free);
    forall w | 0 <= w < |p.queues|
      ensures QueueLinked(l', w, p.queues[w], tasks)
    {
      assert QueueLinked(l, w, p.queues[w], tasks);
      QueueFrame(l, l', w, p.queues[w], tasks);
    }
  }

  lemma AllocFrame(l: Links, base: Ptr)
    ensures var l', block := AllocLinks(l, base), Block(base);
            && l'.heads == l.heads && l'.tails == l.tails && l'.task == l.task && l'.freelist == block[1]
            && l'.next.Keys == l.next.Keys + (set x | x in block)
            && forall x | x in l.next && x !in block :: l'.next[x] == l.next[x]
  {
    hide BlockLinks;
    BlockMembers(base);
  }

  lemma BlockMembers(base: Ptr)
    ensures forall x :: x in Block(base) <==> base <= x < base + ITEMS_PER_ALLOC
  {
    forall x | base <= x < base + ITEMS_PER_ALLOC
      ensures x in Block(base)
    {
      assert Block(base)[x - base] == x;
    }
  }

  lemma FreshLinks(l: Links, base: Ptr)
    ensures var next, rest := AllocLinks(l, base).next, Block(base)[1..];
            forall i | 0 <= i < |rest| ::
              rest[i] in next && next[rest[i]] == AtOr(rest, i + 1, l.freelist)
  {}

  lemma QueueAppended(l: Links, w: nat, queue: seq<Entry>, tasks: seq<Task>, item: Ptr, task: Task)
    requires w < |l.heads| == |l.tails| && QueueLinked(l, w, queue, tasks)
    requires Distinct(Items(queue)) && item !in Items(queue) && NULL !in Items(queue)
    ensures QueueLinked(PushLinks(l, w, item, task), w, queue + [Entry(item, |tasks|)], tasks + [task])
  {
    var items, queue' := Items(queue), queue + [Entry(item, |tasks|)];
    assert Items(queue') == items + [item];
    assert forall i | 0 <= i < |items| :: items[i] in items;
    assert Chain(PushLinks(l, w, item, task).next, PushLinks(l, w, item, task).heads[w], items + [item]) by {
      ChainAppend(l.next, l.heads[w], items, item);
      assert items == [] ==> items + [item] == [item];
    }
    forall i | 0 <= i < |queue'|
      ensures HoldsTask(l.task[item := task], queue'[i], tasks + [task])
    {
      if i < |queue| {
        assert queue'[i] == queue[i] && items[i] in items;
      }
    }
  }

  lemma QueueOutlives(l: Links, w: nat, queue: seq<Entry>, tasks: seq<Task>, task: Task)
    requires w < |l.heads| == |l.tails| && QueueLinked(l, w, queue, tasks)
    ensures QueueLinked(l, w, queue, tasks + [task])
  {}

  lemma PushRefines(l: Links, p: Pool, tasks: seq<Task>, d: nat, task: Task)
    requires Inv(p) && Represents(l, p, tasks) && Enabled(p, Push(d))
    ensures Represents(PushLinks(l, p.pushes % |p.queues|, p.dispatchers[d].item, task), Next(p, Push(d)), tasks + [task])
  {
    var w, item := p.pushes % |p.queues|, p.dispatchers[d].item;
    ListsSeparate(p);
    HoldingIsBorn(p, d, item);
    hide Inv, QueueLinked;
    assert OnNoList(p, item);
    var l' := PushLinks(l, w, item, task);
    assert QueueLinked(l, w, p.queues[w], tasks);
    TailIsLast(l, w, p.queues[w], tasks);
    QueueAppended(l, w, p.queues[w], tasks, item, task);
    assert forall x | x in l.next && x != item && x != l.tails[w] :: x in l'.next && l'.next[x] == l.next[x];
    ChainFrame(l.next, l'.next, l.freelist, p.free);
    forall v | 0 <= v < |p.queues| && v != w
      ensures QueueLinked(l', v, p.queues[v], tasks + [task])
    {
      assert QueueLinked(l, v, p.queues[v], tasks);
      QueueFrame(l, l', v, p.queues[v], tasks);
      QueueOutlives(l', v, p.queues[v], tasks, task);
    }
    assert l'.next.Keys == p.born;
  }

  lemma TailIsLast(l: Links, w: nat, queue: seq<Entry>, tasks: seq<Task>)
    requires w < |l.heads| == |l.tails| && QueueLinked(l, w, queue, tasks)
    ensures l.tails[w] == NULL || (l.tails[w] in Items(queue) && l.tails[w] in l.next)
    ensures l.heads[w] == At(Items(queue), 0)
  {}

  lemma PopRefines(l: Links, p: Pool, tasks: seq<Task>, t: nat)
    requires Inv(p) && Represents(l, p, tasks) && Enabled(p, Pop(t))
    ensures var w := p.threads[t].slot;
            && p.queues[w] != [] && l.heads[w] == p.queues[w][0].item && l.heads[w] != NULL
            && HoldsTask(l.task, p.queues[w][0], tasks)
            && Represents(PopLinks(l, w), Next(p, Pop(t)), tasks)
  {
    var w := p.threads[t].slot;
    assert TokensCovered(p, w);
    ReaderFindsItem(p, t);
    ListsSeparate(p);
    hide Inv;
    var items := Items(p.queues[w]);
    assert QueueLinked(l, w, p.queues[w], tasks);
    assert items[0] in items;
    var l' := PopLinks(l, w);
    QueueShortened(l, w, p.queues[w], tasks);
    hide QueueLinked;
    forall v | 0 <= v < |p.queues| && v != w
      ensures QueueLinked(l', v, p.queues[v], tasks)
    {
      assert QueueLinked(l, v, p.queues[v], tasks);
      QueueFrame(l, l', v, p.queues[v], tasks);
    }
  }

  lemma QueueShortened(l: Links, w: nat, queue: seq<Entry>, tasks: seq<Task>)
    requires w < |l.heads| == |l.tails| && QueueLinked(l, w, queue, tasks) && queue != [] && NULL !in Items(queue)
    ensures QueueLinked(PopLinks(l, w), w, queue[1..], tasks)
    ensures PopLinks(l, w).next == l.next
  {
    var items := Items(queue);
    assert Items(queue[1..]) == items[1..];
    assert forall i | 0 <= i < |items| :: items[i] in items;
    ChainRest(l.next, l.heads[w], items);
  }

  // ----- The pool object -----

  class LibevThreadPool {
    var links: Links
    var currentThread: int
    const numThreads: nat
    ghost var pool: Pool
    ghost var tasks: seq<Task>

    ghost predicate Valid()
      reads this
    {
      && Inv(pool) && Shaped(pool) && Represents(links, pool, tasks)
      && |pool.queues| == numThreads && currentThread >= -1
      && (currentThread + 1) % numThreads == pool.pushes % numThreads
    }

    constructor (numThreads: nat, ghost dispatchers: nat)
      requires numThreads > 0
      ensures Valid() && this.numThreads == numThreads && Init(pool, numThreads, dispatchers) && tasks == []
    {
      this.numThreads := numThreads;
      currentThread := -1;
      links := Links(map[], map[], NULL, seq(numThreads, _ => NULL), seq(numThreads, _ => NULL));
      ghost var p := Pool([], seq(numThreads, _ => []), seq(numThreads, _ => []),
                          seq(numThreads, (w: nat) => Thread(w, Idle)),
                          seq(dispatchers, _ => Ready), {}, multiset{}, 0, seq(numThreads, _ => []));
      InitHasInv(p, numThreads, dispatchers);
      pool, tasks := p, [];
    }

    /** The first locked block of `RQItemNew`: the head of the free list, or NULL. */
    method TakeItem(ghost d: nat) returns (item: Ptr)
      requires Valid() && Enabled(pool, Take(d))
      modifies this`links, this`pool
      ensures Valid() && pool == Next(old(pool), Take(d))
      ensures pool.dispatchers[d] == if item == NULL then Missed else Holding(item)
    {
      hide Inv, Represents;
      TakeRefines(links, pool, tasks, d);
      StepKeepsInv(pool, Take(d));
      item := links.freelist;
      links := TakeLinks(links);
      pool := Next(pool, Take(d));
    }

    /** A fresh block is linked up, its first item kept, the rest put in front of the free list. */
    method AllocItems(ghost d: nat, base: Ptr) returns (item: Ptr)
      requires Valid() && Enabled(pool, Alloc(d, Block(base)))
      modifies this`links, this`pool
      ensures Valid() && pool == Next(old(pool), Alloc(d, Block(base)))
      ensures item == base && pool.dispatchers[d] == Holding(item) && |pool.free| == |old(pool.free)| + 63
    {
      hide Inv, Represents;
      hide BlockLinks;
      ghost var l, p := links, pool;
      AllocRefines(links, pool, tasks, d, base);
      StepKeepsInv(pool, Alloc(d, Block(base)));
      var next := links.next;
      NoBlockLinks(base);
      for i := 1 to ITEMS_PER_ALLOC
        invariant next == l.next + BlockLinks(base, i - 1) && links == l && pool == p
      {
        OneMoreLink(l.next, base, i);
        next := next[base + i - 1 := base + i];
      }
      next := next[base + ITEMS_PER_ALLOC - 1 := links.freelist];
      links := links.(next := next, freelist := base + 1);
      item := base;
      pool := Next(pool, Alloc(d, Block(base)));
    }

    /** `DispatchRpcCall` up to the push: choose the slot, fill the item, append it. */
    method PushItem(ghost d: nat, item: Ptr, processor: Ptr, param: Ptr) returns (w: nat)
      requires Valid() && Enabled(pool, Push(d)) && pool.dispatchers[d].item == item
      modifies this`links, this`currentThread, this`pool, this`tasks
      ensures Valid() && pool == Next(old(pool), Push(d)) && tasks == old(tasks) + [Task(processor, param)]
      ensures w == old(|tasks|) % numThreads && currentThread == w
    {
      hide Inv, Represents;
      var task := Task(processor, param);
      PushRefines(links, pool, tasks, d, task);
      StepKeepsInv(pool, Push(d));
      w := (currentThread + 1) % numThreads;
      Sizes(links, pool, tasks);
      links := PushLinks(links, w, item, task);
      currentThread := w;
      NextSlot(pool.pushes, numThreads);
      pool, tasks := Next(pool, Push(d)), tasks + [task];
    }

    /** `RQItemPop` after a 'c' was read: never NULL, and the next task dispatched to the slot. */
    method PopItem(t: nat, w: nat) returns (item: Ptr, task: Task)
      requires Valid() && Enabled(pool, Pop(t)) && w == pool.threads[t].slot
      modifies this`links, this`pool
      ensures Valid() && pool == Next(old(pool), Pop(t))
      ensures item != NULL && pool.threads[t].phase == Popped(item)
      ensures var k := w + |old(pool.popped[w])| * numThreads;
              k < |tasks| && task == tasks[k] && pool.popped[w] == old(pool.popped[w]) + [k]
    {
      hide Inv, Represents;
      PopRefines(links, pool, tasks, t);
      HeadIsNext(pool, w);
      StepKeepsInv(pool, Pop(t));
      Sizes(links, pool, tasks);
      item := links.heads[w];
      task := links.task[item];
      links := PopLinks(links, w);
      pool := Next(pool, Pop(t));
    }

    /** `RQItemFree`, from the worker itself or from its cleanup handler. */
    method FreeItem(ghost step: Step, item: Ptr)
      requires Valid() && Enabled(pool, step) && (step.Release? || step.CleanupFree?)
      requires item == pool.threads[step.t].phase.item
      modifies this`links, this`pool
      ensures Valid() && pool == Next(old(pool), step)
    {
      hide Inv, Represents;
      FreeRefines(links, pool, tasks, step, item);
      StepKeepsInv(pool, step);
      links := FreeLinks(links, item);
      pool := Next(pool, step);
    }
  }

  lemma NoBlockLinks(base: Ptr)
    ensures BlockLinks(base, 0) == map[]
  {}

  lemma OneMoreLink(next: map<Ptr, Ptr>, base: Ptr, i: nat)
    requires i > 0
    ensures (next + BlockLinks(base, i - 1))[base + i - 1 := base + i] == next + BlockLinks(base, i)
  {}

  lemma Sizes(l: Links, p: Pool, tasks: seq<Task>)
    requires Represents(l, p, tasks)
    ensures |l.heads| == |l.tails| == |p.queues| && |tasks| == p.pushes
  {}

  /** The head of a queue carries the dispatch that follows those already popped. */
  lemma HeadIsNext(p: Pool, w: nat)
    requires Inv(p) && w < |p.queues| && p.queues[w] != []
    ensures p.queues[w][0].call == w + |p.popped[w]| * |p.queues|
  {
    hide TokensCovered, OwnedOnce;
    assert InOrder(p, w);
    ScheduleIsRoundRobin(w, |p.queues|, p.pushes);
    assert (p.popped[w] + Calls(p.queues[w]))[|p.popped[w]|] == p.queues[w][0].call;
  }

  /** `(current + 1) % n` again yields the slot of the next push. */
  lemma NextSlot(k: nat, n: nat)
    requires n > 0
    ensures (k % n + 1) % n == (k + 1) % n
  {
    var q, r := k / n, k % n;
    assert k == n * q + r;
    if r + 1 < n {
      RemainderIs(k + 1, n, q, r + 1);
      RemainderIs(r + 1, n, 0, r + 1);
    } else {
      assert k + 1 == n * (q + 1) + 0;
      RemainderIs(k + 1, n, q + 1, 0);
      RemainderIs(r + 1, n, 1, 0);
    }
  }
}
