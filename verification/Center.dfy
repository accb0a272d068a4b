/**
 One center of the cluster and its part in the leader election
 (src/rpc_center/rpc_center.cpp).
 */
module Center {
  import opened Words
  import opened HashRing

  datatype Status = Looking | Following | Observing | Leading | Unknown | Dead

  /** What a center records about another one (`OtherCenter`). */
  datatype Peer = Peer(startTime: int, status: Status, votes: nat, follows: Address)

  /** `LeaderInfos`: the center taken for the leader and when it started. */
  datatype Leader = Leader(startTime: int, addr: Address)

  /** The fields of `CentersProto` that the election reads. */
  datatype Message = Message(
    from: Address, status: Status, startTime: int, clock: nat, leader: Leader)

  datatype State = State(
    local: Address,
    startTime: int,
    status: Status,
    leader: Leader,
    table: map<Address, Peer>,
    quorum: nat,
    clock: nat)

  // ----- The order on candidates -----

  /** `std::string::compare` on bytes. */
  predicate Less(a: Address, b: Address)
    decreases |a|
  {
    b != [] && (a == [] || a[0] < b[0] || (a[0] == b[0] && Less(a[1..], b[1..])))
  }

  /** `a` displaces `b`: it started earlier, or at the same time with the greater address. */
  predicate Better(a: Leader, b: Leader) {
    a.startTime < b.startTime || (a.startTime == b.startTime && Less(b.addr, a.addr))
  }

  predicate Accepts(s: State, m: Message) {
    m.clock > s.clock || (m.clock == s.clock && Better(m.leader, s.leader))
  }

  /** The addresses agree on their first `n` bytes, and there `a` goes on with a greater byte, or `b` ends. */
  ghost predicate GreaterAt(a: Address, b: Address, n: nat) {
    && n <= |b| && n < |a| && a[..n] == b[..n]
    && (n == |b| || b[n] < a[n])
  }

  lemma {:induction false} LessIffGreaterAt(b: Address, a: Address)
    ensures Less(b, a) <==> exists n: nat :: GreaterAt(a, b, n)
    decreases |b|
  {
    if a != [] && b != [] && a[0] == b[0] {
      LessIffGreaterAt(b[1..], a[1..]);
      if n: nat :| GreaterAt(a[1..], b[1..], n) {
        assert a[..n + 1] == [a[0]] + a[1..][..n] && b[..n + 1] == [b[0]] + b[1..][..n];
        assert GreaterAt(a, b, n + 1);
      }
      if n: nat :| GreaterAt(a, b, n) {
        assert n > 0;
        assert a[1..][..n - 1] == a[..n][1..] && b[1..][..n - 1] == b[..n][1..];
        assert GreaterAt(a[1..], b[1..], n - 1);
      }
    } else if Less(b, a) {
      assert GreaterAt(a, b, 0);
    } else {
      forall n: nat
        ensures !GreaterAt(a, b, n)
      {
        if 0 < n <= |b| && n < |a| {
          assert a[0] == a[..n][0] && b[0] == b[..n][0];
        }
      }
    }
  }

  /**
   What a center accepts: a higher clock; at its own clock a leader that started earlier, or
   at the same time with an address that is greater at the first difference.
   */
  lemma AcceptsIff(s: State, m: Message)
    ensures m.clock < s.clock ==> !Accepts(s, m)
    ensures m.clock > s.clock ==> Accepts(s, m)
    ensures m.clock == s.clock && m.leader.startTime < s.leader.startTime ==> Accepts(s, m)
    ensures m.clock == s.clock && m.leader.startTime > s.leader.startTime ==> !Accepts(s, m)
    ensures m.clock == s.clock && m.leader.startTime == s.leader.startTime ==>
              (Accepts(s, m) <==> exists n: nat :: GreaterAt(m.leader.addr, s.leader.addr, n))
  {
    LessIffGreaterAt(s.leader.addr, m.leader.addr);
  }

  // ----- The steps of one center -----

  function Initial(local: Address, startTime: int, peers: set<Address>, peerStatus: Status): State {
    State(local, startTime, Looking, Leader(startTime, local),
          Rows(peers, peerStatus),
          (|peers| + 1) / 2 + 1, 0)
  }

  function Rows(peers: set<Address>, peerStatus: Status): map<Address, Peer> {
    map p | p in peers :: Peer(0, peerStatus, 0, [])
  }

  /** The addresses on the lines of the center list, without the local one. */
  function Others(lines: seq<Address>, local: Address): set<Address> {
    set a | a in lines && a != local
  }

  /** The center ring once every listed center but the local one has its fifty nodes. */
  ghost function Registered(ring: Ring, lines: seq<Address>, local: Address): Ring
    requires forall line | line in lines :: Hashable(line)
  {
    if lines == [] then ring
    else
      var before, line := Registered(ring, lines[..|lines| - 1], local), lines[|lines| - 1];
      if line == local then before else Grown(before, NodeIds(line, 50), line)
  }

  /** The ring keeps its old nodes and has gained the fifty of every listed peer, and no others. */
  ghost predicate PeersRegistered(ring: Ring, was: Ring, lines: seq<Address>, local: Address)
    requires forall line | line in lines :: Hashable(line)
  {
    && (forall id | id in was :: id in ring && ring[id] == was[id])
    && (forall line, i: nat | line in lines && line != local && i < 50 :: NodeId(line, i) in ring)
    && (forall id | id in ring && id !in was :: ring[id] in lines && ring[id] != local && OneOf(id, ring[id], 50))
  }

  lemma {:induction false} RegisteredNodes(ring: Ring, lines: seq<Address>, local: Address)
    requires forall line | line in lines :: Hashable(line)
    ensures PeersRegistered(Registered(ring, lines, local), ring, lines, local)
    decreases |lines|
  {
    hide NodeId;
    if lines != [] {
      var n := |lines| - 1;
      var last := lines[n];
      RegisteredNodes(ring, lines[..n], local);
      assert forall line | line in lines :: line in lines[..n] || line == last;
      hide Grown, NodeIds;
      if last != local {
        GrownHolds(Registered(ring, lines[..n], local), last);
      }
    }
  }

  lemma GrownHolds(ring: Ring, server: Address)
    requires Hashable(server)
    ensures var grown := Grown(ring, NodeIds(server, 50), server);
            && (forall id | id in ring :: id in grown && grown[id] == ring[id])
            && (forall i: nat | i < 50 :: NodeId(server, i) in grown)
            && (forall id | id in grown && id !in ring :: grown[id] == server && OneOf(id, server, 50))
  {
    hide NodeId;
  }

  /** `id` is that of one of the first `n` nodes of `server`. */
  ghost predicate OneOf(id: Word, server: Address, n: nat)
    requires Hashable(server)
  {
    exists i: nat :: i < n && NodeId(server, i) == id
  }

  lemma NoRows(local: Address, status: Status)
    ensures Others([], local) == {} && Rows({}, status) == map[]
  {}

  lemma RowsOf(lines: seq<Address>, local: Address, status: Status)
    ensures var rows := Rows(Others(lines, local), status);
            && (forall a :: a in rows <==> a in lines && a != local)
            && forall a | a in rows :: rows[a] == Peer(0, status, 0, [])
  {}

  lemma RowCount(peers: set<Address>, status: Status)
    ensures |Rows(peers, status)| == |peers|
  {
    assert Rows(peers, status).Keys == peers;
  }

  lemma NextLine(lines: seq<Address>, i: nat, local: Address, status: Status)
    requires i < |lines|
    ensures var old', new' := Others(lines[..i], local), Others(lines[..i + 1], local);
            Rows(new', status) ==
            if lines[i] == local || lines[i] in Rows(old', status) then Rows(old', status)
            else Rows(old', status)[lines[i] := Peer(0, status, 0, [])]
  {
    assert lines[..i + 1] == lines[..i] + [lines[i]];
  }

  /** The sender's row after its proposal has been noted. */
  function Noted(table: map<Address, Peer>, m: Message): map<Address, Peer> {
    var votes := if m.from in table then table[m.from].votes else 0;
    table[m.from := Peer(m.startTime, m.status, votes, m.leader.addr)]
  }

  /** A vote for an address without a row is lost. */
  function Voted(table: map<Address, Peer>, candidate: Address): map<Address, Peer> {
    if candidate !in table then table
    else table[candidate := table[candidate].(votes := table[candidate].votes + 1)]
  }

  predicate Crosses(s: State, m: Message) {
    var table := Noted(s.table, m);
    m.leader.addr in table && s.quorum != 0 && table[m.leader.addr].votes + 1 >= s.quorum
  }

  /** `UpdateOCStatus` */
  function Counted(s: State, m: Message): State {
    if m.clock < s.clock then s
    else
      var s1 := s.(table := Voted(Noted(s.table, m), m.leader.addr));
      if !Crosses(s, m) then s1
      else s1.(
        leader := m.leader,
        status := if m.leader.addr == s.local then Leading
                  else if s.status != Following then Observing else Following)
  }

  function OnProposal(s: State, m: Message): State {
    if Accepts(s, m) then Counted(s, m) else s
  }

  function OnConfirm(s: State, m: Message): State {
    if Accepts(s, m) then s.(status := Following) else s
  }

  function Proposed(s: State): State {
    s.(clock := s.clock + 1)
  }

  function ProposalOf(s: State): Message {
    Message(s.local, Looking, s.startTime, s.clock, s.leader)
  }

  /** One answered inquiry of the sweep: only a peer of unknown status is asked. */
  function Inquired(s: State, peer: Address, reply: Message): State {
    if peer !in s.table || s.table[peer].status != Unknown then s
    else
      var m := reply.(leader := Leader(reply.startTime, reply.from));
      var s1 := s.(table := s.table[peer := s.table[peer].(startTime := reply.startTime, status := reply.status)]);
      if Accepts(s, m) then s1.(leader := m.leader) else s1
  }

  /** The sweep over the peers in the order in which the unordered table yields them. */
  function Swept(s: State, order: seq<Address>, replies: map<Address, Message>): State
    decreases |order|
  {
    if order == [] then s
    else
      var s1 := Swept(s, order[..|order| - 1], replies);
      var peer := order[|order| - 1];
      if peer in replies then Inquired(s1, peer, replies[peer]) else s1
  }

  class RpcCenter {
    const local: Address
    const startTime: int
    var status: Status
    var leader: Leader
    var table: map<Address, Peer>
    var quorum: nat
    var clock: nat
    var centerRing: Ring

    function View(): State
      reads this
    {
      State(local, startTime, status, leader, table, quorum, clock)
    }

    constructor (local: Address, startTime: int)
      ensures this.local == local && this.startTime == startTime
      ensures status == Looking && leader == Leader(startTime, local)
      ensures table == map[] && quorum == 0 && clock == 0 && centerRing == map[]
    {
      this.local, this.startTime := local, startTime;
      status, leader := Looking, Leader(startTime, local);
      table, quorum, clock, centerRing := map[], 0, 0, map[];
    }

    /** Fifty virtual nodes per center. */
    method RegistNewCenter(center: Address)
      requires Hashable(center)
      modifies this`centerRing
      ensures centerRing == Grown(old(centerRing), NodeIds(center, 50), center)
      ensures |centerRing| == |old(centerRing)| + 50 - |NodeIds(center, 50) * old(centerRing).Keys|
    {
      centerRing := InsertNodes(centerRing, center, 50);
    }

    /**
     The table is read from the lines of the center list.  The row is zeroed after its
     status was set, so every peer starts as LOOKING instead of unknown.
     */
    method InitRpcCenter(lines: seq<Address>)
      requires forall line | line in lines :: Hashable(line)
      requires View() == Initial(local, startTime, {}, Looking).(quorum := 0)
      modifies this
      ensures View() == Initial(local, startTime, Others(lines, local), Looking)
      ensures centerRing == Registered(old(centerRing), lines, local)
      ensures forall a :: a in table <==> a in lines && a != local
      ensures forall a | a in table :: table[a] == Peer(0, Looking, 0, [])
      ensures quorum == (|table| + 1) / 2 + 1
      ensures PeersRegistered(centerRing, old(centerRing), lines, local)
    {
      hide PeersRegistered, Hashable;
      hide NodeIds, Grown, Others, Rows;
      NoRows(local, Looking);
      for i := 0 to |lines|
        invariant View() == Initial(local, startTime, {}, Looking).(quorum := 0, table := table)
        invariant table == Rows(Others(lines[..i], local), Looking)
        invariant centerRing == Registered(old(centerRing), lines[..i], local)
      {
        var line := lines[i];
        NextLine(lines, i, local, Looking);
        assert lines[..i + 1][..i] == lines[..i];
        if line != local {
          if line !in table {
            table := table[line := Peer(0, Looking, 0, [])];
          }
          RegistNewCenter(line);
        }
      }
      assert lines[..|lines|] == lines;
      RowCount(Others(lines, local), Looking);
      quorum := (|table| + 1) / 2 + 1;
      RegisteredNodes(old(centerRing), lines, local);
      RowsOf(lines, local, Looking);
    }

    method LeaderPredicate(m: Message) returns (accept: bool)
      ensures accept == Accepts(View(), m)
      ensures accept <==> || m.clock > clock
                          || (m.clock == clock && m.leader.startTime < leader.startTime)
                          || (m.clock == clock && m.leader.startTime == leader.startTime
                              && exists n: nat :: GreaterAt(m.leader.addr, leader.addr, n))
    {
      AcceptsIff(View(), m);
      if m.clock < clock {
        return false;
      } else if m.clock == clock {
        if m.leader.startTime > leader.startTime {
          return false;
        } else if m.leader.startTime == leader.startTime && !Less(leader.addr, m.leader.addr) {
          return false;
        }
      }
      return true;
    }

    method UpdateOCStatus(m: Message) returns (ok: bool)
      modifies this`table, this`leader, this`status
      ensures View() == Counted(old(View()), m)
      ensures ok == (m.clock >= clock)
    {
      if m.clock < clock {
        return false;
      }
      if m.from !in table {
        table := table[m.from := Peer(m.startTime, m.status, 0, m.leader.addr)];
      } else {
        table := table[m.from := Peer(m.startTime, m.status, table[m.from].votes, m.leader.addr)];
      }
      var votes := 0;
      if m.leader.addr !in table {
        // The source inserts a row with one vote under the sender's key; the key is
        // taken, so nothing changes and the vote is lost.
        assert m.from in table;
      } else {
        votes := table[m.leader.addr].votes + 1;
        table := table[m.leader.addr := table[m.leader.addr].(votes := votes)];
      }
      if quorum != 0 && votes >= quorum {
        leader := m.leader;
        if leader.addr == local {
          status := Leading;
        } else if status != Following {
          status := Observing;
        }
      }
      return true;
    }

    method ProcessProposal(m: Message)
      modifies this`table, this`leader, this`status
      ensures View() == OnProposal(old(View()), m)
    {
      var accept := LeaderPredicate(m);
      if accept {
        var _ := UpdateOCStatus(m);
      }
    }

    method ProcessConfirm(m: Message)
      modifies this`status
      ensures View() == OnConfirm(old(View()), m)
    {
      var accept := LeaderPredicate(m);
      if accept {
        status := Following;
      }
    }

    method ProposalLeaderElection() returns (m: Message)
      modifies this`clock
      ensures View() == Proposed(old(View()))
      ensures m == ProposalOf(View())
    {
      clock := clock + 1;
      m := Message(local, Looking, startTime, clock, leader);
    }

    /** `replies` holds the answers of the peers that could be reached. */
    method InquiryCenters(order: seq<Address>, replies: map<Address, Message>)
      requires forall a | a in order :: a in table
      modifies this`table, this`leader
      ensures View() == Swept(old(View()), order, replies)
    {
      for i := 0 to |order|
        invariant View() == Swept(old(View()), order[..i], replies)
        invariant forall a | a in order :: a in table
      {
        var peer := order[i];
        assert order[..i + 1][..i] == order[..i];
        if table[peer].status == Unknown && peer in replies {
          var reply := replies[peer];
          table := table[peer := table[peer].(startTime := reply.startTime, status := reply.status)];
          var m := reply.(leader := Leader(reply.startTime, reply.from));
          var accept := LeaderPredicate(m);
          if accept {
            leader := m.leader;
          }
        }
      }
      assert order[..|order|] == order;
    }
  }
}
