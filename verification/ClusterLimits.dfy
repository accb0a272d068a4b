/**
 What a round of the election can and cannot reach, for clusters of every size: who can
 lead, how many centers a decision needs, and how many it takes to overwrite one.
 */
module ClusterLimits {
  import opened Words
  import opened HashRing
  import opened Center
  import opened Cluster

  // ----- What every run keeps -----

  /** The peers of `b` whose proposal was delivered and whose row is no longer unknown. */
  ghost function Heard(table: map<Address, Peer>, delivered: set<(Address, Address)>, b: Address): set<Address> {
    set a | a in table && table[a].status != Unknown && (a, b) in delivered
  }

  /** A center has one row per other center, has never led, and has no more votes than peers heard. */
  ghost predicate Grounded(s: State, b: Address, all: set<Address>, delivered: set<(Address, Address)>) {
    && s.local == b && s.status != Leading && s.status != Unknown
    && s.table.Keys == all - {b} && s.quorum == |all| / 2 + 1
    && forall x | x in s.table :: s.table[x].votes <= |Heard(s.table, delivered, b)|
  }

  ghost predicate Signed(m: Message, a: Address) {
    m.from == a && m.status == Looking
  }

  ghost predicate Settled(c: Cluster) {
    && (forall b | b in c.centers :: Grounded(c.centers[b], b, c.centers.Keys, c.delivered))
    && (forall a | a in c.sent :: Signed(c.sent[a], a))
    && (forall p | p in c.installs :: p.0 in c.centers && HeardQuorum(c, p.0))
  }

  ghost predicate HeardQuorum(c: Cluster, b: Address)
    requires b in c.centers
  {
    |Heard(c.centers[b].table, c.delivered, b)| >= |c.centers| / 2 + 1
  }

  lemma InitSettled(c: Cluster, peerStatus: Status)
    requires Init(c, peerStatus)
    ensures Settled(c)
  {
    hide Started, Grounded;
    forall b | b in c.centers
      ensures Grounded(c.centers[b], b, c.centers.Keys, c.delivered)
    {
      StartsGrounded(c.centers[b], b, c.centers.Keys, peerStatus);
    }
  }

  lemma StartsGrounded(s: State, a: Address, all: set<Address>, peerStatus: Status)
    requires Started(s, a, all, peerStatus) && a in all
    ensures Grounded(s, a, all, {})
  {
    StartedEmpty(s, a, all, peerStatus);
  }

  /** A step of one center that keeps its votes and forgets no peer. */
  ghost predicate Remembers(s: State, t: State) {
    && t.local == s.local && t.quorum == s.quorum && t.table.Keys == s.table.Keys
    && t.status != Leading && t.status != Unknown
    && forall x | x in s.table :: t.table[x].votes == s.table[x].votes && (s.table[x].status != Unknown ==> t.table[x].status != Unknown)
  }

  lemma HeardGrows(s: map<Address, Peer>, t: map<Address, Peer>, delivered: set<(Address, Address)>,
                   delivered': set<(Address, Address)>, b: Address)
    requires s.Keys <= t.Keys && delivered <= delivered'
    requires forall x | x in s && s[x].status != Unknown :: t[x].status != Unknown
    ensures |Heard(s, delivered, b)| <= |Heard(t, delivered', b)|
  {
    assert Heard(s, delivered, b) <= Heard(t, delivered', b);
    SubsetSize(Heard(s, delivered, b), Heard(t, delivered', b));
  }

  lemma RememberingStaysGrounded(s: State, t: State, b: Address, all: set<Address>, delivered: set<(Address, Address)>)
    requires Grounded(s, b, all, delivered) && Remembers(s, t)
    ensures Grounded(t, b, all, delivered)
    ensures |Heard(s.table, delivered, b)| <= |Heard(t.table, delivered, b)|
  {
    HeardGrows(s.table, t.table, delivered, delivered, b);
  }

  lemma FrameStaysSettled(c: Cluster, c': Cluster, a: Address)
    requires Settled(c) && a in c.centers && a in c'.centers
    requires c' == c.(centers := c.centers[a := c'.centers[a]], sent := c'.sent)
    requires Remembers(c.centers[a], c'.centers[a])
    requires forall x | x in c'.sent :: Signed(c'.sent[x], x)
    ensures Settled(c')
  {
    hide Grounded, Remembers, Heard;
    assert c'.centers.Keys == c.centers.Keys;
    RememberingStaysGrounded(c.centers[a], c'.centers[a], a, c.centers.Keys, c.delivered);
  }

  /** A delivery adds one vote at most, and then its sender is newly heard. */
  lemma DeliveryStaysGrounded(s: State, m: Message, a: Address, b: Address, all: set<Address>,
                              delivered: set<(Address, Address)>)
    requires Grounded(s, b, all, delivered) && Signed(m, a) && a in all && a != b && (a, b) !in delivered
    ensures Grounded(OnProposal(s, m), b, all, delivered + {(a, b)})
    ensures |Heard(s.table, delivered, b)| <= |Heard(OnProposal(s, m).table, delivered + {(a, b)}, b)|
    ensures Accepts(s, m) && Crosses(s, m) ==> |Heard(OnProposal(s, m).table, delivered + {(a, b)}, b)| >= |all| / 2 + 1
  {
    var t := OnProposal(s, m);
    TableAfterProposal(s, m);
    if Accepts(s, m) {
      HeardOneMore(s.table, t.table, delivered, a, b);
    } else {
      HeardGrows(s.table, t.table, delivered, delivered + {(a, b)}, b);
    }
    hide OnProposal, Accepts, Crosses, Heard;
    forall x | x in t.table
      ensures t.table[x].votes <= |Heard(t.table, delivered + {(a, b)}, b)|
    {
      if Accepts(s, m) {
        OneVoteAtMost(s, m, x);
      }
    }
    if Crosses(s, m) {
      CrossingNeedsQuorum(s, m);
    }
  }

  lemma TableAfterProposal(s: State, m: Message)
    requires m.status == Looking && m.from in s.table && s.local !in s.table
    requires s.status != Leading && s.status != Unknown
    ensures var t := OnProposal(s, m);
            && t.local == s.local && t.quorum == s.quorum && t.table.Keys == s.table.Keys
            && t.status != Leading && t.status != Unknown
            && (Accepts(s, m) ==> t.table[m.from].status == Looking)
            && (!Accepts(s, m) ==> t == s)
            && forall x | x in s.table && x != m.from :: t.table[x].status == s.table[x].status
  {}

  lemma HeardOneMore(s: map<Address, Peer>, t: map<Address, Peer>, delivered: set<(Address, Address)>,
                     a: Address, b: Address)
    requires a in s && s.Keys == t.Keys && (a, b) !in delivered && t[a].status != Unknown
    requires forall x | x in s && x != a :: t[x].status == s[x].status
    ensures |Heard(t, delivered + {(a, b)}, b)| == |Heard(s, delivered, b)| + 1
  {
    assert Heard(t, delivered + {(a, b)}, b) == Heard(s, delivered, b) + {a};
  }

  lemma DeliveryStaysSettled(c: Cluster, a: Address, b: Address)
    requires Settled(c) && Enabled(c, Deliver(a, b))
    ensures Settled(Next(c, Deliver(a, b)))
  {
    hide Grounded, Signed, HeardQuorum, OnProposal, Accepts, Crosses;
    var c' := Next(c, Deliver(a, b));
    assert c'.centers.Keys == c.centers.Keys;
    forall r | r in c'.centers
      ensures Grounded(c'.centers[r], r, c'.centers.Keys, c'.delivered)
      ensures r in c.centers && HeardQuorum(c, r) ==> HeardQuorum(c', r)
    {
      ReceiverStaysGrounded(c, a, b, r);
    }
    if Accepts(c.centers[b], c.sent[a]) && Crosses(c.centers[b], c.sent[a]) {
      ReceiverStaysGrounded(c, a, b, b);
    }
  }

  lemma ReceiverStaysGrounded(c: Cluster, a: Address, b: Address, r: Address)
    requires Settled(c) && Enabled(c, Deliver(a, b)) && r in c.centers
    ensures var c' := Next(c, Deliver(a, b));
            && r in c'.centers && Grounded(c'.centers[r], r, c.centers.Keys, c'.delivered)
            && (HeardQuorum(c, r) ==> HeardQuorum(c', r))
            && (r == b && Accepts(c.centers[b], c.sent[a]) && Crosses(c.centers[b], c.sent[a]) ==> HeardQuorum(c', b))
  {
    hide Heard, Settled, OnProposal, Accepts, Crosses;
    CenterOf(c, a);
    CenterOf(c, r);
    assert Next(c, Deliver(a, b)).centers.Keys == c.centers.Keys;
    if r == b {
      DeliveryStaysGrounded(c.centers[b], c.sent[a], a, b, c.centers.Keys, c.delivered);
    } else {
      ElsewhereGrounded(c.centers[r], r, c.centers.Keys, c.delivered, a, b);
    }
  }

  lemma ElsewhereGrounded(s: State, r: Address, all: set<Address>, delivered: set<(Address, Address)>, a: Address, b: Address)
    requires Grounded(s, r, all, delivered) && r != b
    ensures Heard(s.table, delivered + {(a, b)}, r) == Heard(s.table, delivered, r)
    ensures Grounded(s, r, all, delivered + {(a, b)})
  {
    assert Heard(s.table, delivered + {(a, b)}, r) == Heard(s.table, delivered, r);
  }

  lemma StepsRemember(s: State, peer: Address, m: Message)
    requires s.status != Leading && s.status != Unknown && m.status != Unknown
    ensures Remembers(s, Proposed(s)) && Remembers(s, Inquired(s, peer, m))
  {}

  lemma StepStaysSettled(c: Cluster, action: Action)
    requires Settled(c) && Enabled(c, action)
    ensures Settled(Next(c, action)) && Next(c, action).centers.Keys == c.centers.Keys
  {
    hide Settled, OnProposal, Accepts, Crosses, Remembers, OnConfirm, Inquired;
    match action
    case Deliver(a, b) =>
      DeliveryStaysSettled(c, a, b);
    case Propose(a) =>
      CenterOf(c, a);
      StepsRemember(c.centers[a], a, ProposalOf(c.centers[a]));
      FrameStaysSettled(c, Next(c, action), a);
    case Inquire(a, b) =>
      CenterOf(c, a);
      CenterOf(c, b);
      StepsRemember(c.centers[a], b, ReplyOf(c.centers[b]));
      FrameStaysSettled(c, Next(c, action), a);
    case Hear(a, m) =>
      CenterOf(c, a);
      ConfirmRemembers(c.centers[a], m);
      FrameStaysSettled(c, Next(c, action), a);
  }

  lemma ConfirmRemembers(s: State, m: Message)
    requires s.status != Leading && s.status != Unknown
    ensures Remembers(s, OnConfirm(s, m))
  {}

  lemma CenterOf(c: Cluster, a: Address)
    requires Settled(c) && a in c.centers
    ensures Grounded(c.centers[a], a, c.centers.Keys, c.delivered)
    ensures forall x | x in c.sent :: Signed(c.sent[x], x)
  {}

  lemma {:induction false} RunStaysSettled(c: Cluster, actions: seq<Action>, c': Cluster)
    requires Settled(c) && Run(c, actions, c')
    ensures Settled(c') && c'.centers.Keys == c.centers.Keys
    decreases |actions|
  {
    hide Settled, Enabled, Next;
    if actions != [] {
      StepStaysSettled(c, actions[0]);
      RunStaysSettled(Next(c, actions[0]), actions[1..], c');
    }
  }

  // ----- Nobody leads -----

  /**
   No center of any cluster ever leads, whatever its peers are recorded as: no center sends
   to itself, so none has a row for itself, and votes for the local address find no row.
   */
  lemma NobodyLeads(c: Cluster, peerStatus: Status, actions: seq<Action>, c': Cluster)
    requires Init(c, peerStatus) && Run(c, actions, c')
    ensures forall a | a in c'.centers :: c'.centers[a].status != Leading && a !in c'.centers[a].table
  {
    hide Run;
    InitSettled(c, peerStatus);
    RunStaysSettled(c, actions, c');
    forall a | a in c'.centers
      ensures c'.centers[a].status != Leading && a !in c'.centers[a].table
    {
      assert Grounded(c'.centers[a], a, c'.centers.Keys, c'.delivered);
    }
  }

  // ----- Runs that decide -----

  lemma {:induction false} RunThenRun(c: Cluster, first: seq<Action>, c1: Cluster, second: seq<Action>, c2: Cluster)
    requires Run(c, first, c1) && Run(c1, second, c2)
    ensures Run(c, first + second, c2)
    decreases |first|
  {
    hide Enabled, Next;
    if first == [] {
      assert first + second == second;
    } else {
      RunThenRun(Next(c, first[0]), first[1..], c1, second, c2);
      assert (first + second)[1..] == first[1..] + second;
    }
  }

  lemma RunStep(c: Cluster, action: Action)
    requires Enabled(c, action)
    ensures Run(c, [action], Next(c, action))
  {
    assert [action][1..] == [];
  }

  /** A center that has done and sent nothing yet, and that `y` has not heard from. */
  ghost predicate Untouched(c: Cluster, y: Address, a: Address) {
    && a in c.centers && a !in c.sent && (a, y) !in c.delivered
    && var s := c.centers[a];
       && s.clock == 0 && s.local == a && s.leader.addr == a && s.table.Keys == c.centers.Keys - {a}
       && forall x | x in s.table :: s.table[x].status == Unknown
  }

  /** The voter `y` has counted `votes` for `z`; the centers in `idle` are untouched and unknown to it. */
  ghost predicate Ballot(c: Cluster, y: Address, z: Address, idle: set<Address>, votes: nat) {
    && y in c.centers && z in c.centers && y != z && y !in idle && z !in idle
    && c.centers[z].clock == 1 && c.centers[z].local == z
    && (forall a | a in idle :: Untouched(c, y, a))
    && Voter(c.centers[y], z, idle, votes, |c.centers| / 2 + 1)
  }

  ghost predicate Voter(s: State, z: Address, idle: set<Address>, votes: nat, quorum: nat) {
    && s.clock == 0 && s.quorum == quorum && z in s.table && s.table[z].votes == votes
    && forall a | a in idle :: a in s.table && s.table[a].status == Unknown
  }

  /** An untouched center that asks `z`, which is ahead, will propose `z`. */
  lemma AskedTakesOver(s: State, z: Address, reply: Message)
    requires s.clock == 0 && z in s.table && s.table[z].status == Unknown && reply.from == z && reply.clock == 1
    ensures var t := Proposed(Inquired(s, z, reply));
            && t.table.Keys == s.table.Keys
            && ProposalOf(t) == Message(s.local, Looking, s.startTime, 1, Leader(reply.startTime, z))
  {}

  /** A vote for `z` from a center of clock one is counted, and decides when it completes the quorum. */
  lemma VoteCounts(s: State, m: Message, z: Address, idle: set<Address>, votes: nat, quorum: nat)
    requires Voter(s, z, idle, votes, quorum) && quorum > 0 && m.clock == 1 && m.leader.addr == z && m.status == Looking
    ensures Voter(OnProposal(s, m), z, idle - {m.from}, votes + 1, quorum)
    ensures Accepts(s, m) && (Crosses(s, m) <==> votes + 1 >= quorum)
  {}

  lemma ElectionTakesOneMore(c: Cluster, y: Address, z: Address, idle: set<Address>, votes: nat, a: Address)
    returns (actions: seq<Action>, c': Cluster)
    requires Ballot(c, y, z, idle, votes) && a in idle
    ensures Run(c, actions, c') && Ballot(c', y, z, idle - {a}, votes + 1) && c'.centers.Keys == c.centers.Keys
    ensures votes + 1 >= |c.centers| / 2 + 1 ==> (y, z) in c'.installs
  {
    hide Run, Voter, Inquired, Proposed, ProposalOf, OnProposal, Accepts, Crosses;
    var s, reply := c.centers[a], ReplyOf(c.centers[z]);
    AskedTakesOver(s, z, reply);
    var s1 := Inquired(s, z, reply);
    var s2 := Proposed(s1);
    var m := ProposalOf(s2);
    VoteCounts(c.centers[y], m, z, idle, votes, |c.centers| / 2 + 1);
    var c1 := Next(c, Inquire(a, z));
    RunStep(c, Inquire(a, z));
    RunStep(c1, Propose(a));
    var c2 := Next(c1, Propose(a));
    RunThenRun(c, [Inquire(a, z)], c1, [Propose(a)], c2);
    RunStep(c2, Deliver(a, y));
    c' := Next(c2, Deliver(a, y));
    actions := [Inquire(a, z)] + [Propose(a)] + [Deliver(a, y)];
    RunThenRun(c, [Inquire(a, z)] + [Propose(a)], c2, [Deliver(a, y)], c');
    assert c'.centers.Keys == c.centers.Keys;
  }

  /** The untouched centers vote for `z` one after the other until `y` decides. */
  lemma {:induction false} VotesDecide(c: Cluster, y: Address, z: Address, idle: set<Address>, votes: nat)
    returns (actions: seq<Action>, c': Cluster, left: set<Address>)
    requires Ballot(c, y, z, idle, votes) && votes <= |c.centers| / 2 <= votes + |idle| - 1
    ensures Run(c, actions, c') && (y, z) in c'.installs && c'.centers.Keys == c.centers.Keys
    ensures left <= idle && |left| == |idle| - (|c.centers| / 2 + 1 - votes)
    ensures Ballot(c', y, z, left, |c.centers| / 2 + 1)
    decreases |idle|
  {
    hide Run, Ballot;
    var a :| a in idle;
    actions, c' := ElectionTakesOneMore(c, y, z, idle, votes, a);
    left := idle - {a};
    if votes + 1 <= |c.centers| / 2 {
      var more, last, rest := VotesDecide(c', y, z, left, votes + 1);
      RunThenRun(c, actions, c', more, last);
      actions, c', left := actions + more, last, rest;
    }
  }

  /** The round opens with a proposal of `z` that reaches `y`. */
  lemma OpeningVote(c: Cluster, y: Address, z: Address) returns (actions: seq<Action>, c': Cluster)
    requires Init(c, Unknown) && y in c.centers && z in c.centers && y != z
    ensures Run(c, actions, c') && Ballot(c', y, z, c.centers.Keys - {y, z}, 1) && c'.centers.Keys == c.centers.Keys
  {
    hide Run, Ballot, Voter, OnProposal, Accepts, Crosses, Started;
    var all := c.centers.Keys;
    StartsFresh(c.centers[y], y, all);
    StartsFresh(c.centers[z], z, all);
    var c1 := Next(c, Propose(z));
    RunStep(c, Propose(z));
    OpeningCounts(c.centers[y], y, z, all);
    VoteCounts(c.centers[y], c1.sent[z], z, all - {y, z}, 0, |all| / 2 + 1);
    RunStep(c1, Deliver(z, y));
    actions, c' := [Propose(z)] + [Deliver(z, y)], Next(c1, Deliver(z, y));
    RunThenRun(c, [Propose(z)], c1, [Deliver(z, y)], c');
    assert c'.centers.Keys == all;
    assert all - {y, z} - {z} == all - {y, z};
    OpeningBallot(c, c', y, z);
  }

  lemma OpeningBallot(c: Cluster, c': Cluster, y: Address, z: Address)
    requires Init(c, Unknown) && y in c.centers && z in c.centers && y != z
    requires c'.centers.Keys == c.centers.Keys && c'.sent.Keys == {z} && c'.delivered == {(z, y)}
    requires forall a | a in c.centers && a != y && a != z :: c'.centers[a] == c.centers[a]
    requires c'.centers[z].clock == 1 && c'.centers[z].local == z
    requires Voter(c'.centers[y], z, c.centers.Keys - {y, z}, 1, |c.centers| / 2 + 1)
    ensures Ballot(c', y, z, c.centers.Keys - {y, z}, 1)
  {
    hide Voter, Started;
    forall a | a in c.centers.Keys - {y, z}
      ensures Untouched(c', y, a)
    {
      StartsFresh(c.centers[a], a, c.centers.Keys);
    }
  }

  ghost predicate Fresh(s: State, a: Address, all: set<Address>) {
    && s.clock == 0 && s.local == a && s.leader.addr == a && s.table.Keys == all - {a} && s.quorum == |all| / 2 + 1
    && forall x | x in s.table :: s.table[x].status == Unknown && s.table[x].votes == 0
  }

  lemma StartsFresh(s: State, a: Address, all: set<Address>)
    requires Started(s, a, all, Unknown) && a in all
    ensures Fresh(s, a, all)
  {
    StartedEmpty(s, a, all, Unknown);
  }

  lemma OpeningCounts(s: State, y: Address, z: Address, all: set<Address>)
    requires Fresh(s, y, all) && z in all && y != z
    ensures Voter(s, z, all - {y, z}, 0, |all| / 2 + 1)
  {}

  lemma TwoOf(all: set<Address>) returns (y: Address, z: Address)
    requires |all| >= 2
    ensures y in all && z in all && y != z && |all - {y, z}| == |all| - 2
  {
    y :| y in all;
    assert |all - {y}| == |all| - 1;
    z :| z in all - {y};
    assert all - {y, z} == all - {y} - {z};
  }

  /** A decision needs a quorum of peers, besides the center that takes it. */
  lemma DecisionsNeedThree(c: Cluster, p: (Address, Address))
    requires Settled(c) && p in c.installs
    ensures |c.centers| >= 3
  {
    var table := c.centers[p.0].table;
    assert Grounded(c.centers[p.0], p.0, c.centers.Keys, c.delivered) && HeardQuorum(c, p.0);
    SubsetSize(Heard(table, c.delivered, p.0), c.centers.Keys - {p.0});
  }

  /**
   A round can decide exactly when peers are recorded as unknown, as the source means to,
   and there are at least three centers.
   */
  lemma SomebodyCanDecideIff(c: Cluster, peerStatus: Status)
    requires Init(c, peerStatus)
    ensures (exists actions, c' :: Run(c, actions, c') && c'.installs != {}) <==> peerStatus == Unknown && |c.centers| >= 3
  {
    hide Init, Run, Ballot, Settled;
    if actions, c' :| Run(c, actions, c') && c'.installs != {} {
      var p :| p in c'.installs;
      InitSettled(c, peerStatus);
      RunStaysSettled(c, actions, c');
      DecisionsNeedThree(c', p);
      if peerStatus != Unknown {
        NobodyDecides(c, peerStatus, actions, c');
      }
    }
    if peerStatus == Unknown && |c.centers| >= 3 {
      var all := c.centers.Keys;
      var y, z := TwoOf(all);
      var open, c1 := OpeningVote(c, y, z);
      var votes, c2, _ := VotesDecide(c1, y, z, all - {y, z}, 1);
      RunThenRun(c, open, c1, votes, c2);
      assert Run(c, open + votes, c2) && c2.installs != {};
    }
  }

  // ----- Runs that overwrite a decision -----

  /** A decided center still has an unknown peer only in a cluster of five or more. */
  lemma UnknownPeerNeedsFive(c: Cluster, b: Address, d: Address)
    requires Settled(c) && Decided(c, b) && b in c.centers && d in c.centers[b].table && c.centers[b].table[d].status == Unknown
    ensures |c.centers| >= 5
  {
    var p :| p in c.installs && p.0 == b;
    var table := c.centers[b].table;
    assert Grounded(c.centers[b], b, c.centers.Keys, c.delivered) && HeardQuorum(c, b);
    SubsetSize(Heard(table, c.delivered, b), c.centers.Keys - {b} - {d});
  }

  lemma {:induction false} FourStayUndisturbed(c: Cluster, actions: seq<Action>, c': Cluster)
    requires Settled(c) && Run(c, actions, c') && |c.centers| <= 4
    ensures Undisturbed(c, actions, c')
    decreases |actions|
  {
    hide Settled;
    if actions != [] {
      if Overwrites(c, actions[0]) {
        UnknownPeerNeedsFive(c, actions[0].a, actions[0].peer);
      }
      StepStaysSettled(c, actions[0]);
      FourStayUndisturbed(Next(c, actions[0]), actions[1..], c');
    }
  }

  /** A decided center that asks an untouched peer, once that has proposed, drops its leader for it. */
  lemma LateAnswerOverwrites(c: Cluster, y: Address, z: Address, idle: set<Address>, votes: nat, d: Address)
    returns (actions: seq<Action>, c': Cluster)
    requires Ballot(c, y, z, idle, votes) && d in idle && (y, z) in c.installs
    ensures Run(c, actions, c') && !Recorded(c')
  {
    hide Run, Inquired, Accepts;
    var c1 := Next(c, Propose(d));
    RunStep(c, Propose(d));
    LateAnswerSways(c1.centers[y], d, ReplyOf(c1.centers[d]));
    RunStep(c1, Inquire(y, d));
    actions, c' := [Propose(d)] + [Inquire(y, d)], Next(c1, Inquire(y, d));
    RunThenRun(c, [Propose(d)], c1, [Inquire(y, d)], c');
    assert (y, z) in c'.installs && c'.centers[y].leader.addr == d;
  }

  lemma LateAnswerSways(s: State, d: Address, reply: Message)
    requires s.clock == 0 && d in s.table && s.table[d].status == Unknown && reply.clock == 1
    ensures Inquired(s, d, reply).leader.addr == reply.from
  {}

  /** A decision can be overwritten in the round exactly with unknown peers and at least five centers. */
  lemma DecisionsCanBeOverwrittenIff(c: Cluster, peerStatus: Status)
    requires Init(c, peerStatus)
    ensures (exists actions, c' :: Run(c, actions, c') && !Recorded(c')) <==> peerStatus == Unknown && |c.centers| >= 5
  {
    hide Run, Ballot, Settled, Recorded, Started;
    if actions, c' :| Run(c, actions, c') && !Recorded(c') {
      if |c.centers| <= 4 {
        InitSettled(c, peerStatus);
        FourStayUndisturbed(c, actions, c');
        UndisturbedIsRecorded(c, peerStatus, actions, c');
      } else if peerStatus != Unknown {
        NobodyDecides(c, peerStatus, actions, c');
        NothingToOverwrite(c');
      }
    }
    if peerStatus == Unknown && |c.centers| >= 5 {
      var all := c.centers.Keys;
      var y, z := TwoOf(all);
      var open, c1 := OpeningVote(c, y, z);
      var votes, c2, left := VotesDecide(c1, y, z, all - {y, z}, 1);
      RunThenRun(c, open, c1, votes, c2);
      var d :| d in left;
      var late, c3 := LateAnswerOverwrites(c2, y, z, left, |all| / 2 + 1, d);
      RunThenRun(c, open + votes, c2, late, c3);
    }
  }

  lemma NothingToOverwrite(c: Cluster)
    requires c.installs == {}
    ensures Recorded(c)
  {}

  lemma UndisturbedIsRecorded(c: Cluster, peerStatus: Status, actions: seq<Action>, c': Cluster)
    requires Init(c, peerStatus) && Run(c, actions, c') && Undisturbed(c, actions, c')
    ensures Recorded(c')
  {
    hide Run, Undisturbed, Inv;
    InitHasInv(c, peerStatus);
    RunKeepsRecordedIff(c, actions, c');
  }

  // ----- Whom the centers take for the leader -----

  /** The leader is a center of the cluster, under the time at which it started. */
  ghost predicate Genuine(starts: map<Address, int>, l: Leader) {
    l.addr in starts && l.startTime == starts[l.addr]
  }

  /** A center, or what it has sent, states its own address and start and a genuine leader. */
  ghost predicate GenuineCenter(s: State, a: Address, starts: map<Address, int>) {
    s.local == a && a in starts && s.startTime == starts[a] && Genuine(starts, s.leader)
  }

  ghost predicate GenuineMessage(m: Message, a: Address, starts: map<Address, int>) {
    m.from == a && a in starts && m.startTime == starts[a] && Genuine(starts, m.leader)
  }

  ghost predicate AllGenuine(c: Cluster, starts: map<Address, int>) {
    && (forall a | a in c.centers :: GenuineCenter(c.centers[a], a, starts))
    && (forall a | a in c.sent :: GenuineMessage(c.sent[a], a, starts))
  }

  lemma StaysGenuine(s: State, a: Address, m: Message, b: Address, peer: Address, starts: map<Address, int>)
    requires GenuineCenter(s, a, starts) && GenuineMessage(m, b, starts)
    ensures GenuineCenter(OnProposal(s, m), a, starts) && GenuineCenter(Inquired(s, peer, m), a, starts)
  {}

  lemma QuietStaysGenuine(s: State, a: Address, m: Message, starts: map<Address, int>)
    requires GenuineCenter(s, a, starts)
    ensures GenuineCenter(OnConfirm(s, m), a, starts) && GenuineCenter(Proposed(s), a, starts)
    ensures GenuineMessage(ProposalOf(Proposed(s)), a, starts) && GenuineMessage(ReplyOf(s), a, starts)
  {}

  lemma StepStaysGenuine(c: Cluster, action: Action, starts: map<Address, int>)
    requires AllGenuine(c, starts) && Enabled(c, action)
    ensures AllGenuine(Next(c, action), starts)
  {
    hide OnProposal, OnConfirm, Inquired, Proposed, ProposalOf, ReplyOf, Accepts, Crosses, GenuineCenter, GenuineMessage;
    match action
    case Propose(a) =>
      QuietStaysGenuine(c.centers[a], a, ReplyOf(c.centers[a]), starts);
    case Deliver(a, b) =>
      StaysGenuine(c.centers[b], b, c.sent[a], a, a, starts);
    case Inquire(a, b) =>
      QuietStaysGenuine(c.centers[b], b, ReplyOf(c.centers[b]), starts);
      StaysGenuine(c.centers[a], a, ReplyOf(c.centers[b]), b, b, starts);
    case Hear(a, m) =>
      QuietStaysGenuine(c.centers[a], a, m, starts);
  }

  lemma {:induction false} RunStaysGenuine(c: Cluster, actions: seq<Action>, c': Cluster, starts: map<Address, int>)
    requires AllGenuine(c, starts) && Run(c, actions, c')
    ensures AllGenuine(c', starts)
    decreases |actions|
  {
    hide AllGenuine, Enabled, Next;
    if actions != [] {
      StepStaysGenuine(c, actions[0], starts);
      RunStaysGenuine(Next(c, actions[0]), actions[1..], c', starts);
    }
  }

  /** In every run every center takes some center of the cluster for the leader, and knows when that one started. */
  lemma LeadersAreGenuine(c: Cluster, peerStatus: Status, actions: seq<Action>, c': Cluster, a: Address)
    requires Init(c, peerStatus) && Run(c, actions, c') && a in c'.centers
    ensures var l := c'.centers[a].leader;
            l.addr in c.centers && l.startTime == c.centers[l.addr].startTime
  {
    hide Run, Started, GenuineCenter, GenuineMessage;
    var starts := map b | b in c.centers :: c.centers[b].startTime;
    forall b | b in c.centers
      ensures GenuineCenter(c.centers[b], b, starts)
    {
      StartsGenuine(c.centers[b], b, c.centers.Keys, peerStatus, starts);
    }
    RunStaysGenuine(c, actions, c', starts);
    LeaderOf(c'.centers[a], a, starts);
  }

  lemma StartsGenuine(s: State, a: Address, all: set<Address>, peerStatus: Status, starts: map<Address, int>)
    requires Started(s, a, all, peerStatus) && a in starts && starts[a] == s.startTime
    ensures GenuineCenter(s, a, starts)
  {}

  lemma LeaderOf(s: State, a: Address, starts: map<Address, int>)
    requires GenuineCenter(s, a, starts)
    ensures s.leader.addr in starts && s.leader.startTime == starts[s.leader.addr]
  {}
}
