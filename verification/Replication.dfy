/**
 Copying the ring from the leader center to its followers
 (`GetCurrentLBResult` and `UpdateLBResult` of the load balancer).

 The leader's ring only grows, and a follower inserts whatever a snapshot holds
 without overwriting.  Snapshots may be lost, delayed, reordered and duplicated.
 */
module Replication {
  import opened Words
  import opened HashRing

  datatype MetaData = MetaData(vid: Word, serverAddr: Address)

  // ----- Snapshots -----

  /** `list` names every node of `ring` once, by ascending id. */
  ghost predicate Lists(list: seq<MetaData>, ring: Ring) {
    && (forall i, j | 0 <= i < j < |list| :: list[i].vid < list[j].vid)
    && TakenFrom(list, ring)
    && (forall id | id in ring :: exists i :: 0 <= i < |list| && list[i].vid == id)
  }

  ghost predicate TakenFrom(list: seq<MetaData>, ring: Ring) {
    forall i | 0 <= i < |list| :: list[i].vid in ring && ring[list[i].vid] == list[i].serverAddr
  }

  /** Inserting the entries of a list one after the other; present ids are kept. */
  function Merged(ring: Ring, list: seq<MetaData>): Ring {
    if list == [] then ring
    else
      var last := list[|list| - 1];
      var merged := Merged(ring, list[..|list| - 1]);
      if last.vid in merged then merged else merged[last.vid := last.serverAddr]
  }

  /** Merging the listing of `from` into `ring` adds the nodes of `from` that `ring` lacks. */
  lemma MergedIsUnion(ring: Ring, list: seq<MetaData>, from: Ring)
    requires Lists(list, from)
    ensures Merged(ring, list) == from + ring
  {
    hide Merged;
    MergedPrefix(ring, list, from, |list|);
    assert list[..|list|] == list;
    var merged := Merged(ring, list);
    forall id | id in from
      ensures id in merged
    {
      var i :| 0 <= i < |list| && list[i].vid == id;
      assert list[i].vid in merged;
    }
    assert merged.Keys == (from + ring).Keys;
  }

  lemma {:induction false} MergedPrefix(ring: Ring, list: seq<MetaData>, from: Ring, n: nat)
    requires n <= |list| && TakenFrom(list, from)
    ensures var merged := Merged(ring, list[..n]);
            && (forall id | id in ring :: id in merged && merged[id] == ring[id])
            && (forall id | id in merged && id !in ring :: id in from && merged[id] == from[id])
            && (forall i | 0 <= i < n :: list[i].vid in merged)
  {
    if n > 0 {
      MergedPrefix(ring, list, from, n - 1);
      assert list[..n][..n - 1] == list[..n - 1];
    }
  }

  /** The nodes of `ring` with ids under `bound`. */
  ghost function Below(ring: Ring, bound: int): Ring {
    map id | id in ring && id < bound :: ring[id]
  }

  /** Appending the least node at or above the bound extends the listing past that node. */
  lemma ListsNext(list: seq<MetaData>, ring: Ring, bound: int, id: Word)
    requires Lists(list, Below(ring, bound))
    requires IsLeastFrom(ring, bound, id)
    ensures Lists(list + [MetaData(id, ring[id])], Below(ring, id as int + 1))
  {
    hide Lists;
    assert Below(ring, id as int + 1) == Below(ring, bound)[id := ring[id]];
    ListsSnoc(list, Below(ring, bound), id, ring[id]);
  }

  lemma ListsSnoc(list: seq<MetaData>, ring: Ring, id: Word, server: Address)
    requires Lists(list, ring) && forall k | k in ring :: k < id
    ensures Lists(list + [MetaData(id, server)], ring[id := server])
  {
    var list' := list + [MetaData(id, server)];
    assert list'[|list|].vid == id;
    forall k | k in ring
      ensures exists i :: 0 <= i < |list'| && list'[i].vid == k
    {
      var i :| 0 <= i < |list| && list[i].vid == k;
      assert list'[i].vid == k;
    }
  }

  /** `GetCurrentLBResult`: the map is walked in ascending order. */
  method GetCurrentLBResult(lb: ConsistentHashLoadBalancer) returns (list: seq<MetaData>)
    ensures Lists(list, lb.ring)
  {
    list := [];
    var bound: int := 0;
    var found, id := lb.LowerBound(bound);
    assert Below(lb.ring, 0) == map[];
    while found
      invariant Lists(list, Below(lb.ring, bound))
      invariant bound <= SIZE
      invariant found ==> IsLeastFrom(lb.ring, bound, id)
      invariant !found ==> forall j | j in lb.ring :: j < bound
      decreases SIZE - bound, found
    {
      hide Lists, Below;
      ListsNext(list, lb.ring, bound, id);
      list := list + [MetaData(id, lb.ring[id])];
      bound := id as int + 1;
      found, id := lb.LowerBound(bound);
    }
    assert Below(lb.ring, bound) == lb.ring;
  }

  method UpdateLBResult(lb: ConsistentHashLoadBalancer, list: seq<MetaData>)
    modifies lb`ring
    ensures lb.ring == Merged(old(lb.ring), list)
  {
    for i := 0 to |list|
      invariant lb.ring == Merged(old(lb.ring), list[..i])
    {
      assert list[..i + 1][..i] == list[..i];
      if list[i].vid !in lb.ring {
        lb.ring := lb.ring[list[i].vid := list[i].serverAddr];
      }
    }
    assert list[..|list|] == list;
  }

  // ----- Runs of the replicated system -----

  /**
   The leader's ring, every snapshot it ever sent with the ring it was taken from, the
   followers' rings and, per follower, the newest snapshot delivered to it (-1 for none).
   */
  datatype System = System(
    leader: Ring,
    sent: seq<seq<MetaData>>,
    taken: seq<Ring>,
    followers: map<nat, Ring>,
    newest: map<nat, int>)

  datatype Step =
    | Register(server: Address, nodes: int)
    | Snapshot(list: seq<MetaData>)
    | Deliver(follower: nat, index: nat)

  ghost predicate Enabled(s: System, step: Step) {
    match step
    case Register(server, _) => Hashable(server)
    case Snapshot(list) => Lists(list, s.leader)
    case Deliver(f, i) => f in s.followers && f in s.newest && i < |s.sent|
  }

  ghost function Next(s: System, step: Step): System
    requires Enabled(s, step)
  {
    match step
    case Register(server, n) => s.(leader := Grown(s.leader, NodeIds(server, n), server))
    case Snapshot(list) => s.(sent := s.sent + [list], taken := s.taken + [s.leader])
    case Deliver(f, i) =>
      s.(followers := s.followers[f := Merged(s.followers[f], s.sent[i])],
         newest := s.newest[f := if i > s.newest[f] then i else s.newest[f]])
  }

  ghost predicate Init(s: System) {
    && s.sent == [] && s.taken == []
    && s.followers.Keys == s.newest.Keys
    && forall f | f in s.followers :: s.followers[f] == map[] && s.newest[f] == -1
  }

  /** A run is a schedule of steps, each enabled where it happens. */
  ghost predicate Run(s: System, steps: seq<Step>, s': System)
    decreases |steps|
  {
    if steps == [] then s' == s
    else Enabled(s, steps[0]) && Run(Next(s, steps[0]), steps[1..], s')
  }

  ghost predicate Submap(a: Ring, b: Ring) {
    forall id | id in a :: id in b && a[id] == b[id]
  }

  /** What a follower holds once snapshot `n` is the newest it has seen. */
  ghost function AsOf(s: System, n: int): Ring
    requires -1 <= n < |s.taken|
  {
    if n == -1 then map[] else s.taken[n]
  }

  ghost predicate Inv(s: System) {
    && |s.sent| == |s.taken|
    && (forall i | 0 <= i < |s.sent| :: Lists(s.sent[i], s.taken[i]))
    && (forall i, j | 0 <= i < j < |s.taken| :: Submap(s.taken[i], s.taken[j]))
    && (forall i | 0 <= i < |s.taken| :: Submap(s.taken[i], s.leader))
    && s.followers.Keys == s.newest.Keys
    && (forall f | f in s.followers :: -1 <= s.newest[f] < |s.sent| && s.followers[f] == AsOf(s, s.newest[f]))
  }

  lemma StepKeepsInv(s: System, step: Step)
    requires Inv(s) && Enabled(s, step)
    ensures Inv(Next(s, step))
  {
    match step
    case Register(server, n) =>
      hide NodeIds;
      RegisterKeepsInv(s, NodeIds(server, n), server);
    case Snapshot(list) =>
      SnapshotKeepsInv(s, list);
    case Deliver(f, i) =>
      DeliverKeepsInv(s, f, i);
  }

  lemma RegisterKeepsInv(s: System, ids: set<Word>, server: Address)
    requires Inv(s)
    ensures Inv(s.(leader := Grown(s.leader, ids, server)))
  {
    hide Lists, Submap, Grown;
    forall i | 0 <= i < |s.taken|
      ensures Submap(s.taken[i], Grown(s.leader, ids, server))
    {
      LeaderGrows(s.taken[i], s.leader, ids, server);
    }
  }

  lemma SnapshotKeepsInv(s: System, list: seq<MetaData>)
    requires Inv(s) && Lists(list, s.leader)
    ensures Inv(s.(sent := s.sent + [list], taken := s.taken + [s.leader]))
  {
    hide Lists, Submap;
    LeaderGrows(s.leader, s.leader, {}, []);
  }

  lemma DeliverKeepsInv(s: System, f: nat, i: nat)
    requires Inv(s) && Enabled(s, Deliver(f, i))
    ensures Inv(Next(s, Deliver(f, i)))
  {
    hide Lists, Submap, Merged;
    DeliveryMovesForward(s, f, i);
  }

  lemma LeaderGrows(part: Ring, ring: Ring, ids: set<Word>, server: Address)
    ensures Submap(ring, ring)
    ensures Submap(part, ring) ==> Submap(part, Grown(ring, ids, server))
  {}

  lemma DeliveryMovesForward(s: System, f: nat, i: nat)
    requires Inv(s) && Enabled(s, Deliver(f, i))
    ensures var n := s.newest[f];
            Merged(s.followers[f], s.sent[i]) == AsOf(s, if i > n then i else n)
  {
    hide Lists, Merged;
    var n, ring := s.newest[f], s.followers[f];
    MergedIsUnion(ring, s.sent[i], s.taken[i]);
    if i < n {
      assert Submap(s.taken[i], s.taken[n]);
    } else if 0 <= n < i {
      assert Submap(s.taken[n], s.taken[i]);
    }
  }

  lemma {:induction false} RunKeepsInv(s: System, steps: seq<Step>, s': System)
    requires Inv(s) && Run(s, steps, s')
    ensures Inv(s')
    decreases |steps|
  {
    if steps != [] {
      StepKeepsInv(s, steps[0]);
      RunKeepsInv(Next(s, steps[0]), steps[1..], s');
    }
  }

  /**
   Whatever was lost, repeated or reordered, a follower's ring is exactly the newest
   snapshot it was given, and so a part of the leader's ring.
   */
  lemma FollowerHoldsNewestSnapshot(s: System, steps: seq<Step>, s': System, f: nat)
    requires Init(s) && Run(s, steps, s') && f in s'.followers
    ensures |s'.taken| == |s'.sent|
    ensures f in s'.newest && -1 <= s'.newest[f] < |s'.taken|
    ensures s'.followers[f] == AsOf(s', s'.newest[f])
    ensures Submap(s'.followers[f], s'.leader)
  {
    RunKeepsInv(s, steps, s');
  }

  /** Delivering a snapshot of the leader's present ring makes every lookup agree. */
  lemma DeliveryConverges(s: System, steps: seq<Step>, s': System, f: nat, i: nat)
    requires Init(s) && Run(s, steps, s')
    requires Enabled(s', Deliver(f, i)) && Lists(s'.sent[i], s'.leader)
    ensures var t := Next(s', Deliver(f, i));
            && t.followers[f] == t.leader
            && forall h, k :: IsOwner(t.followers[f], h, k) <==> IsOwner(t.leader, h, k)
  {
    FollowerHoldsNewestSnapshot(s, steps, s', f);
    MergedIsUnion(s'.followers[f], s'.sent[i], s'.leader);
    assert s'.leader + s'.followers[f] == s'.leader;
  }
}
