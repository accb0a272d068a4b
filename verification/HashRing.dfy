/**
 The consistent-hash ring of virtual nodes
 (src/rpc_center/load_balancer/consistent_hash_load_balancer.cpp).
 */
module HashRing {
  import opened Words
  import opened MurMurHash

  type Address = seq<Byte>

  /** The ordered map from virtual-node id to server. */
  type Ring = map<Word, Address>

  // ----- Virtual nodes -----

  /** "SHARD-" and "-NODE-" */
  const SHARD: seq<Byte> := [0x53, 0x48, 0x41, 0x52, 0x44, 0x2d]
  const NODE: seq<Byte> := [0x2d, 0x4e, 0x4f, 0x44, 0x45, 0x2d]

  /** The string lengths handed to the hash fit its `int32_t` parameter. */
  predicate Hashable(name: Address) { |name| + 13 < MAX_LEN }

  /** The index is appended as one `char`, so only its low byte counts. */
  function NodeName(server: Address, i: nat): (name: seq<Byte>)
    ensures |name| == |server| + 13
  {
    SHARD + server + NODE + [i % 0x100]
  }

  function NodeId(server: Address, i: nat): Word
    requires Hashable(server)
  {
    Hash(NodeName(server, i))
  }

  ghost function NodeIds(server: Address, n: int): set<Word>
    requires Hashable(server)
  {
    set i: nat | i < n :: NodeId(server, i)
  }

  /** Two nodes of one server share an id exactly when their indices share the low byte. */
  lemma NodesCollide(server: Address, i: nat, j: nat)
    requires Hashable(server)
    ensures NodeId(server, i) == NodeId(server, j) <==> i % 0x100 == j % 0x100
  {
    hide Hash;
    var a, b := NodeName(server, i), NodeName(server, j);
    if i % 0x100 == j % 0x100 {
      assert a == b;
    } else {
      var last := |a| - 1;
      var lo := last - last % 4;
      var hi := if lo + 4 <= |a| then lo + 4 else |a|;
      assert a[last] != b[last];
      assert forall k | 0 <= k < last :: a[k] == b[k];
      HashSeparates(a, b, lo, hi);
    }
  }

  /**
   Nodes of one index, of two servers with names of one length that differ only inside one
   block of the node name, have different ids.
   */
  lemma ServersSeparate(a: Address, b: Address, lo: nat, hi: nat, i: nat, j: nat)
    requires Hashable(a) && |a| == |b| && a != b && Block(|a| + 13, lo, hi) && i % 0x100 == j % 0x100
    requires forall k | 0 <= k < |a| && a[k] != b[k] :: lo <= 6 + k < hi
    ensures NodeId(a, i) != NodeId(b, j)
  {
    hide Hash, Block;
    var x, y := NodeName(a, i), NodeName(b, j);
    NamesDiffer(a, b, i, j);
    assert forall k | 0 <= k < |x| && x[k] != y[k] :: 6 <= k < 6 + |a| && a[k - 6] != b[k - 6];
    DiffersInside(x, y, lo, hi);
    HashSeparates(x, y, lo, hi);
  }

  lemma NamesDiffer(a: Address, b: Address, i: nat, j: nat)
    requires |a| == |b| && a != b
    ensures NodeName(a, i) != NodeName(b, j)
  {
    assert NodeName(a, i)[6..6 + |a|] == a && NodeName(b, j)[6..6 + |b|] == b;
  }

  lemma DiffersInside(x: seq<Byte>, y: seq<Byte>, lo: nat, hi: nat)
    requires |x| == |y| && x != y && Block(|x|, lo, hi) && forall k | 0 <= k < |x| && x[k] != y[k] :: lo <= k < hi
    ensures DifferOnlyWithin(x, y, lo, hi)
  {}

  lemma NodeIdsStep(server: Address, n: nat)
    requires Hashable(server)
    ensures NodeIds(server, n + 1) == NodeIds(server, n) + {NodeId(server, n)}
  {
    hide NodeId;
  }

  function NodeCount(n: int): nat {
    if n <= 0 then 0 else if n <= 0x100 then n else 0x100
  }

  /** A server gets one id per node, up to the 256 values of a `char`. */
  lemma {:induction false} NodeIdCount(server: Address, n: int)
    requires Hashable(server)
    ensures |NodeIds(server, n)| == NodeCount(n)
    decreases n
  {
    hide NodeId;
    if n <= 0 {
      assert NodeIds(server, n) == {};
    } else {
      NodeIdCount(server, n - 1);
      NodeIdsStep(server, n - 1);
      IdTakenIff(server, n - 1);
      if n > 0x100 {
        assert NodeIds(server, n) == NodeIds(server, n - 1);
      }
    }
  }

  /** The id of a further node is taken exactly when all values of a `char` have come up. */
  lemma IdTakenIff(server: Address, n: nat)
    requires Hashable(server)
    ensures NodeId(server, n) in NodeIds(server, n) <==> n >= 0x100
  {
    hide NodeId;
    if n >= 0x100 {
      NodesCollide(server, n - 0x100, n);
      ModBack(n);
    } else {
      forall i: nat | i < n
        ensures NodeId(server, i) != NodeId(server, n)
      {
        NodesCollide(server, i, n);
        assert i % 0x100 == i && n % 0x100 == n;
      }
    }
  }

  lemma ModBack(n: nat)
    requires n >= 0x100
    ensures (n - 0x100) % 0x100 == n % 0x100
  {}

  // ----- Adding a server -----

  /** The ring with `server` under every id of `ids` that is still free. */
  ghost function Grown(ring: Ring, ids: set<Word>, server: Address): Ring {
    (map id | id in ids :: server) + ring
  }

  /** Inserting one more id, as `std::map::insert` does. */
  lemma GrownStep(ring: Ring, ids: set<Word>, id: Word, server: Address)
    ensures var grown := Grown(ring, ids, server);
            Grown(ring, ids + {id}, server) == if id in grown then grown else grown[id := server]
  {}

  lemma NoNodes(ring: Ring, server: Address, n: int)
    requires Hashable(server)
    ensures n <= 0 ==> NodeIds(server, n) == {}
    ensures Grown(ring, {}, server) == ring
  {}

  lemma GrownSizeOfServer(ring: Ring, server: Address, n: int)
    requires Hashable(server)
    ensures var ids := NodeIds(server, n);
            |Grown(ring, ids, server)| == |ring| + NodeCount(n) - |ids * ring.Keys|
  {
    hide NodeIds, Grown;
    NodeIdCount(server, n);
    GrownSize(ring, NodeIds(server, n), server);
  }

  lemma GrownSize(ring: Ring, ids: set<Word>, server: Address)
    ensures |Grown(ring, ids, server)| == |ring| + |ids| - |ids * ring.Keys|
  {
    assert Grown(ring, ids, server).Keys == ring.Keys + ids;
    UnionSize(ring.Keys, ids);
  }

  lemma UnionSize(a: set<Word>, b: set<Word>)
    ensures |a + b| == |a| + |b| - |b * a|
  {
    assert a * b == b * a;
  }

  /** The insertion loop shared by the server ring and the center ring. */
  method InsertNodes(ring: Ring, server: Address, n: int) returns (grown: Ring)
    requires Hashable(server)
    ensures grown == Grown(ring, NodeIds(server, n), server)
    ensures |grown| == |ring| + NodeCount(n) - |NodeIds(server, n) * ring.Keys|
  {
    hide Hash, NodeName, NodeIds, Grown;
    grown := ring;
    var i := 0;
    NoNodes(ring, server, 0);
    NoNodes(ring, server, n);
    while i < n
      invariant i == 0 || i <= n
      invariant grown == Grown(ring, NodeIds(server, i), server)
    {
      var id := MurMurHash2(NodeName(server, i));
      GrownStep(ring, NodeIds(server, i), id, server);
      NodeIdsStep(server, i);
      if id !in grown {
        grown := grown[id := server];
      }
      i := i + 1;
    }
    assert NodeIds(server, i) == NodeIds(server, n);
    GrownSizeOfServer(ring, server, n);
  }

  // ----- Looking up a client -----

  /** How far clockwise from `h` the id `k` lies on the circle of ids. */
  function Distance(h: Word, k: Word): nat {
    if h <= k then k - h else k - h + SIZE
  }

  /** `k` is the first id of the ring met when walking clockwise from `h`. */
  ghost predicate IsOwner(ring: Ring, h: Word, k: Word) {
    && k in ring
    && forall j | j in ring :: Distance(h, k) <= Distance(h, j)
  }

  lemma OwnerUnique(ring: Ring, h: Word, k: Word, k': Word)
    requires IsOwner(ring, h, k) && IsOwner(ring, h, k')
    ensures k == k'
  {}

  /** That is the least id at or above `h`, and the least id of all when there is none. */
  lemma OwnerIff(ring: Ring, h: Word, k: Word)
    requires k in ring
    ensures IsOwner(ring, h, k) <==>
            if exists j :: j in ring && h <= j then h <= k && forall j | j in ring && h <= j :: k <= j
            else forall j | j in ring :: k <= j
  {}

  /**
   Consistent hashing: when a server joins, a client either keeps its node or moves to
   a node of the newcomer, and it moves exactly when the newcomer put a node closer to it.
   */
  lemma NewcomerTakesOnlyItsArc(ring: Ring, ids: set<Word>, server: Address, h: Word, k: Word, k': Word)
    requires IsOwner(ring, h, k) && IsOwner(Grown(ring, ids, server), h, k')
    ensures k' == k || (k' in ids && k' !in ring)
    ensures k' != k ==> Grown(ring, ids, server)[k'] == server
    ensures k' == k ==> Grown(ring, ids, server)[k'] == ring[k]
    ensures k' != k <==> exists id :: id in ids && Distance(h, id) < Distance(h, k)
  {
    var grown := Grown(ring, ids, server);
    if k' in ring {
      OwnerUnique(ring, h, k, k');
    } else {
      assert k in grown;
    }
    forall id | id in ids && Distance(h, id) < Distance(h, k)
      ensures k' != k
    {
      assert id in grown;
    }
  }

  /** `id` is the least id of the ring at or above `h`. */
  ghost predicate IsLeastFrom(ring: Ring, h: int, id: Word) {
    && id in ring && h <= id
    && forall j | j in ring && h <= j :: id <= j
  }

  class ConsistentHashLoadBalancer {
    var virtualNodeNum: int
    var ring: Ring

    constructor ()
      ensures virtualNodeNum == 20 && ring == map[]
    {
      virtualNodeNum := 20;
      ring := map[];
    }

    method AddRpcServer(server: Address)
      requires Hashable(server)
      modifies this`ring
      ensures ring == Grown(old(ring), NodeIds(server, virtualNodeNum), server)
      ensures |ring| == |old(ring)| + NodeCount(virtualNodeNum)
                        - |NodeIds(server, virtualNodeNum) * old(ring).Keys|
    {
      ring := InsertNodes(ring, server, virtualNodeNum);
    }

    /** `std::map::lower_bound`: the least id at or above `h`, if there is one. */
    method LowerBound(h: int) returns (found: bool, id: Word)
      ensures found ==> IsLeastFrom(ring, h, id)
      ensures !found ==> forall j | j in ring :: j < h
    {
      found, id := false, 0;
      var rest := ring.Keys;
      while rest != {}
        invariant rest <= ring.Keys
        invariant found ==> id in ring && h <= id
        invariant found ==> forall j | j in ring && j !in rest && h <= j :: id <= j
        invariant !found ==> forall j | j in ring && j !in rest :: j < h
        decreases rest
      {
        var j :| j in rest;
        rest := rest - {j};
        if h <= j && (!found || j < id) {
          found, id := true, j;
        }
      }
    }

    /** The lookup answers with the client's clockwise neighbour, and fails only on an empty ring. */
    method GetRpcServer(client: Address, servers: seq<Address>) returns (ok: bool, answer: seq<Address>, ghost id: Word)
      requires |client| < MAX_LEN
      ensures ok <==> ring != map[]
      ensures !ok ==> answer == servers
      ensures ok ==> IsOwner(ring, Hash(client), id) && answer == servers + [ring[id]]
    {
      hide Hash;
      var h := MurMurHash2(client);
      id := 0;
      if ring == map[] {
        return false, servers, id;
      }
      var found, vn := LowerBound(h);
      if !found {
        found, vn := LowerBound(0);
        assert found by {
          var j :| j in ring;
        }
      }
      id := vn;
      return true, servers + [ring[vn]], id;
    }
  }
}
