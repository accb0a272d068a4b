/**
 One round of the election among all centers, as interleaved steps.

 Every center proposes at most once and every proposal reaches a given center at most
 once; proposals may be lost, delayed and reordered, sweeps and confirmations may happen
 at any moment.
 */
module Cluster {
  import opened Words
  import opened HashRing
  import opened Center

  /**
   `sent` holds each sender's proposal, `delivered` the (sender, receiver) pairs that got
   through, `installs` every (center, leader) decision taken on a vote count.
   */
  datatype Cluster = Cluster(
    centers: map<Address, State>,
    sent: map<Address, Message>,
    delivered: set<(Address, Address)>,
    installs: set<(Address, Address)>)

  datatype Action =
    | Propose(a: Address)
    | Deliver(from: Address, to: Address)
    | Inquire(a: Address, peer: Address)
    | Hear(a: Address, confirm: Message)

  ghost predicate Enabled(c: Cluster, action: Action) {
    match action
    case Propose(a) => a in c.centers && a !in c.sent
    case Deliver(a, b) =>
      && a in c.centers && a in c.sent && b in c.centers
      && b in c.centers[a].table && (a, b) !in c.delivered
    case Inquire(a, b) => a in c.centers && b in c.centers
    case Hear(a, _) => a in c.centers
  }

  /** The answer of `ProcessCenterData` to an inquiry. */
  function ReplyOf(s: State): Message {
    Message(s.local, s.status, s.startTime, s.clock, s.leader)
  }

  ghost function Next(c: Cluster, action: Action): Cluster
    requires Enabled(c, action)
  {
    match action
    case Propose(a) =>
      var s := Proposed(c.centers[a]);
      c.(centers := c.centers[a := s], sent := c.sent[a := ProposalOf(s)])
    case Deliver(a, b) =>
      var s, m := c.centers[b], c.sent[a];
      c.(centers := c.centers[b := OnProposal(s, m)],
         delivered := c.delivered + {(a, b)},
         installs := c.installs + if Accepts(s, m) && Crosses(s, m) then {(b, m.leader.addr)} else {})
    case Inquire(a, b) =>
      c.(centers := c.centers[a := Inquired(c.centers[a], b, ReplyOf(c.centers[b]))])
    case Hear(a, m) =>
      c.(centers := c.centers[a := OnConfirm(c.centers[a], m)])
  }

  /** All centers start from one address list; `peerStatus` is what they record of each other. */
  ghost predicate Init(c: Cluster, peerStatus: Status) {
    && c.sent == map[] && c.delivered == {} && c.installs == {}
    && forall a | a in c.centers :: Started(c.centers[a], a, c.centers.Keys, peerStatus)
  }

  ghost predicate Started(s: State, a: Address, all: set<Address>, peerStatus: Status) {
    s == Initial(a, s.startTime, all - {a}, peerStatus)
  }

  ghost predicate Run(c: Cluster, actions: seq<Action>, c': Cluster)
    decreases |actions|
  {
    if actions == [] then c' == c
    else Enabled(c, actions[0]) && Run(Next(c, actions[0]), actions[1..], c')
  }

  // ----- Agreement -----

  /** The senders whose proposal for `leader` reached `to`. */
  ghost function Supporters(sent: map<Address, Message>, delivered: set<(Address, Address)>,
                            to: Address, leader: Address): set<Address>
  {
    set a | a in sent && (a, to) in delivered && sent[a].leader.addr == leader
  }

  ghost function Support(c: Cluster, to: Address, leader: Address): nat {
    |Supporters(c.sent, c.delivered, to, leader)|
  }

  /** A center has no more votes for an address than that address has supporters. */
  ghost predicate Backed(c: Cluster, b: Address)
    requires b in c.centers
  {
    forall x | x in c.centers[b].table :: c.centers[b].table[x].votes <= Support(c, b, x)
  }

  ghost predicate Sized(c: Cluster, b: Address)
    requires b in c.centers
  {
    c.centers[b].quorum == |c.centers| / 2 + 1
  }

  ghost predicate Inv(c: Cluster) {
    && c.sent.Keys <= c.centers.Keys
    && (forall p | p in c.delivered :: p.0 in c.sent)
    && (forall b | b in c.centers :: Sized(c, b) && Backed(c, b))
    && (forall p | p in c.installs :: p.0 in c.centers && Support(c, p.0, p.1) >= |c.centers| / 2 + 1)
  }

  lemma InitHasInv(c: Cluster, peerStatus: Status)
    requires Init(c, peerStatus)
    ensures Inv(c)
  {
    hide Support, Started, Initial;
    forall b | b in c.centers
      ensures Sized(c, b) && Backed(c, b)
    {
      StartedEmpty(c.centers[b], b, c.centers.Keys, peerStatus);
    }
  }

  lemma StartedEmpty(s: State, a: Address, all: set<Address>, peerStatus: Status)
    requires Started(s, a, all, peerStatus) && a in all
    ensures s.quorum == |all| / 2 + 1
    ensures forall x | x in s.table :: s.table[x].votes == 0
  {
    assert |all - {a}| + 1 == |all|;
  }

  /** The steps other than a delivery change one center, but not its votes. */
  ghost predicate SameVotes(s: State, t: State) {
    && t.quorum == s.quorum && t.table.Keys == s.table.Keys
    && forall x | x in t.table :: t.table[x].votes == s.table[x].votes
  }

  lemma FrameKeepsInv(c: Cluster, c': Cluster, a: Address)
    requires Inv(c) && a in c.centers && a in c'.centers && c' == c.(centers := c.centers[a := c'.centers[a]], sent := c'.sent)
    requires SameVotes(c.centers[a], c'.centers[a])
    requires c'.sent == c.sent || (a !in c.sent && a in c'.sent && c'.sent == c.sent[a := c'.sent[a]])
    ensures Inv(c')
  {
    hide SameVotes, Sized, Backed;
    assert c'.centers.Keys == c.centers.Keys;
    forall b, x
      ensures Support(c', b, x) == Support(c, b, x)
    {
      hide Supporters;
      SupportersFrame(c.sent, c'.sent, c.delivered, b, x);
    }
    hide Support;
    forall b | b in c'.centers
      ensures Sized(c', b) && Backed(c', b)
    {
      FrameBacks(c, c', a, b);
    }
  }

  lemma FrameBacks(c: Cluster, c': Cluster, a: Address, b: Address)
    requires a in c.centers && b in c.centers && c'.centers.Keys == c.centers.Keys && Sized(c, b) && Backed(c, b)
    requires c'.centers[b] == c.centers[b] || (a == b && SameVotes(c.centers[a], c'.centers[a]))
    requires forall x :: Support(c', b, x) == Support(c, b, x)
    ensures Sized(c', b) && Backed(c', b)
  {
    hide Support;
  }

  lemma SupportersFrame(sent: map<Address, Message>, sent': map<Address, Message>,
                        delivered: set<(Address, Address)>, to: Address, leader: Address)
    requires forall p | p in delivered :: p.0 in sent
    requires forall a | a in sent :: a in sent' && sent'[a] == sent[a]
    ensures Supporters(sent', delivered, to, leader) == Supporters(sent, delivered, to, leader)
  {
    forall a | a in Supporters(sent', delivered, to, leader)
      ensures a in sent
    {
      assert (a, to).0 in sent;
    }
  }

  lemma SupportersAfterDelivery(sent: map<Address, Message>, delivered: set<(Address, Address)>,
                                a: Address, b: Address, to: Address, leader: Address)
    requires a in sent && (a, b) !in delivered
    ensures var gain := to == b && leader == sent[a].leader.addr;
            |Supporters(sent, delivered + {(a, b)}, to, leader)|
            == |Supporters(sent, delivered, to, leader)| + (if gain then 1 else 0)
  {
    var before, after := Supporters(sent, delivered, to, leader), Supporters(sent, delivered + {(a, b)}, to, leader);
    if to == b && leader == sent[a].leader.addr {
      assert after == before + {a} && a !in before;
    } else {
      assert after == before;
    }
  }

  /** A counted proposal adds one vote, for its leader, and decides only on a full quorum. */
  lemma OneVoteAtMost(s: State, m: Message, x: Address)
    requires x in OnProposal(s, m).table
    ensures OnProposal(s, m).quorum == s.quorum
    ensures var votes := if x in s.table then s.table[x].votes else 0;
            OnProposal(s, m).table[x].votes <= votes + if x == m.leader.addr then 1 else 0
  {}

  lemma CrossingNeedsQuorum(s: State, m: Message)
    requires Crosses(s, m)
    ensures var x := m.leader.addr;
            (if x in s.table then s.table[x].votes else 0) + 1 >= s.quorum
  {}

  lemma DeliverKeepsInv(c: Cluster, a: Address, b: Address)
    requires Inv(c) && Enabled(c, Deliver(a, b))
    ensures Inv(Next(c, Deliver(a, b)))
  {
    hide Supporters, Support, Sized, Backed, OnProposal, Crosses, Accepts;
    var c' := Next(c, Deliver(a, b));
    assert c'.centers.Keys == c.centers.Keys;
    forall r | r in c'.centers
      ensures Sized(c', r) && Backed(c', r)
    {
      DeliverBacks(c, a, b, r);
    }
    forall p | p in c'.installs
      ensures p.0 in c'.centers && Support(c', p.0, p.1) >= |c'.centers| / 2 + 1
    {
      SupportGrows(c, a, b, p.0, p.1);
      if p !in c.installs {
        DecisionBacked(c, a, b);
      }
    }
  }

  lemma SupportGrows(c: Cluster, a: Address, b: Address, to: Address, x: Address)
    requires Enabled(c, Deliver(a, b))
    ensures Support(Next(c, Deliver(a, b)), to, x)
         == Support(c, to, x) + if to == b && x == c.sent[a].leader.addr then 1 else 0
  {
    hide Supporters, OnProposal, Crosses, Accepts;
    SupportersAfterDelivery(c.sent, c.delivered, a, b, to, x);
  }

  lemma DeliverBacks(c: Cluster, a: Address, b: Address, r: Address)
    requires Enabled(c, Deliver(a, b)) && r in c.centers && Sized(c, r) && Backed(c, r)
    ensures var c' := Next(c, Deliver(a, b)); r in c'.centers && Sized(c', r) && Backed(c', r)
  {
    hide Support, OnProposal, Crosses, Accepts;
    var c', s, m := Next(c, Deliver(a, b)), c.centers[b], c.sent[a];
    assert c'.centers.Keys == c.centers.Keys;
    QuorumFixed(s, m);
    forall x | x in c'.centers[r].table
      ensures c'.centers[r].table[x].votes <= Support(c', r, x)
    {
      SupportGrows(c, a, b, r, x);
      if r == b {
        OneVoteAtMost(s, m, x);
      }
    }
  }

  /** A proposal that crosses the threshold has a quorum of supporters, itself included. */
  lemma DecisionBacked(c: Cluster, a: Address, b: Address)
    requires Enabled(c, Deliver(a, b)) && Sized(c, b) && Backed(c, b) && Crosses(c.centers[b], c.sent[a])
    ensures Support(c, b, c.sent[a].leader.addr) + 1 >= |c.centers| / 2 + 1
  {
    hide Support, Crosses;
    CrossingNeedsQuorum(c.centers[b], c.sent[a]);
  }

  lemma QuorumFixed(s: State, m: Message)
    ensures OnProposal(s, m).quorum == s.quorum
  {}

  lemma StepKeepsInv(c: Cluster, action: Action)
    requires Inv(c) && Enabled(c, action)
    ensures Inv(Next(c, action))
    ensures Next(c, action).centers.Keys == c.centers.Keys
  {
    hide Inv, OnProposal, Crosses, Accepts;
    match action
    case Propose(a) =>
      FrameKeepsInv(c, Next(c, action), a);
    case Deliver(a, b) =>
      DeliverKeepsInv(c, a, b);
    case Inquire(a, _) =>
      FrameKeepsInv(c, Next(c, action), a);
    case Hear(a, _) =>
      FrameKeepsInv(c, Next(c, action), a);
  }

  lemma {:induction false} RunKeepsInv(c: Cluster, actions: seq<Action>, c': Cluster)
    requires Inv(c) && Run(c, actions, c')
    ensures Inv(c') && c'.centers.Keys == c.centers.Keys
    decreases |actions|
  {
    if actions != [] {
      StepKeepsInv(c, actions[0]);
      RunKeepsInv(Next(c, actions[0]), actions[1..], c');
    }
  }

  /** Any two decisions of one round, at any two centers, name the same leader. */
  lemma Agreement(c: Cluster, peerStatus: Status, actions: seq<Action>, c': Cluster,
                  p: (Address, Address), q: (Address, Address))
    requires Init(c, peerStatus) && Run(c, actions, c')
    requires p in c'.installs && q in c'.installs
    ensures p.1 == q.1
  {
    hide Init, Run, Inv;
    InitHasInv(c, peerStatus);
    RunKeepsInv(c, actions, c');
    DecisionsAgree(c', p, q);
  }

  lemma DecisionsAgree(c: Cluster, p: (Address, Address), q: (Address, Address))
    requires Inv(c) && p in c.installs && q in c.installs
    ensures p.1 == q.1
  {
    var s := Supporters(c.sent, c.delivered, p.0, p.1);
    var t := Supporters(c.sent, c.delivered, q.0, q.1);
    assert Support(c, p.0, p.1) == |s| && Support(c, q.0, q.1) == |t|;
    var a := QuorumsMeet(s, t, c.centers.Keys);
  }

  lemma QuorumsMeet(s: set<Address>, t: set<Address>, all: set<Address>) returns (a: Address)
    requires s <= all && t <= all && |s| >= |all| / 2 + 1 && |t| >= |all| / 2 + 1
    ensures a in s && a in t
  {
    SubsetSize(s + t, all);
    assert |s + t| == |s| + |t| - |s * t|;
    a :| a in s * t;
  }

  lemma {:induction false} SubsetSize(s: set<Address>, all: set<Address>)
    requires s <= all
    ensures |s| <= |all|
    decreases s
  {
    if s != {} {
      var a :| a in s;
      SubsetSize(s - {a}, all - {a});
    }
  }

  /** Every decided center still records the leader it decided for. */
  ghost predicate Recorded(c: Cluster) {
    forall p | p in c.installs :: p.0 in c.centers && c.centers[p.0].leader.addr == p.1
  }

  ghost predicate Decided(c: Cluster, a: Address) {
    exists p :: p in c.installs && p.0 == a
  }

  /** An inquiry by a decided center that takes the leader of an answer in place of its own. */
  ghost predicate Overwrites(c: Cluster, action: Action)
    requires Enabled(c, action)
  {
    && action.Inquire? && Decided(c, action.a)
    && Swayed(c.centers[action.a], action.peer, ReplyOf(c.centers[action.peer]))
  }

  /** The row is unknown, and the answer is accepted and comes from another center than the recorded leader. */
  ghost predicate Swayed(s: State, peer: Address, reply: Message) {
    && peer in s.table && s.table[peer].status == Unknown
    && Accepts(s, reply.(leader := Leader(reply.startTime, reply.from)))
    && reply.from != s.leader.addr
  }

  lemma LeaderAfterProposal(s: State, m: Message)
    ensures OnProposal(s, m).leader == if Accepts(s, m) && Crosses(s, m) then m.leader else s.leader
  {}

  lemma LeaderAfterConfirm(s: State, m: Message)
    ensures OnConfirm(s, m).leader == s.leader
  {}

  lemma LeaderAfterInquiry(s: State, peer: Address, reply: Message)
    ensures Inquired(s, peer, reply).leader.addr == if Swayed(s, peer, reply) then reply.from else s.leader.addr
  {}

  /** A decision stays on record in every step but one that overwrites it. */
  lemma StepKeepsRecordedIff(c: Cluster, action: Action)
    requires Inv(c) && Recorded(c) && Enabled(c, action)
    ensures Recorded(Next(c, action)) <==> !Overwrites(c, action)
  {
    hide Inv, Accepts, Crosses, OnProposal, OnConfirm, Inquired, Swayed, ReplyOf;
    var c' := Next(c, action);
    match action
    case Propose(_) =>
    case Deliver(a, b) =>
      DeliveryKeepsRecorded(c, a, b);
    case Inquire(a, b) =>
      var reply := ReplyOf(c.centers[b]);
      LeaderAfterInquiry(c.centers[a], b, reply);
      if Overwrites(c, action) {
        SwayedElsewhere(c.centers[a], b, reply);
        var p :| p in c.installs && p.0 == a;
        assert p in c'.installs;
      }
    case Hear(a, m) =>
      LeaderAfterConfirm(c.centers[a], m);
  }

  lemma SwayedElsewhere(s: State, peer: Address, reply: Message)
    requires Swayed(s, peer, reply)
    ensures reply.from != s.leader.addr
  {}

  lemma DeliveryKeepsRecorded(c: Cluster, a: Address, b: Address)
    requires Inv(c) && Recorded(c) && Enabled(c, Deliver(a, b))
    ensures Recorded(Next(c, Deliver(a, b)))
  {
    hide Inv, Accepts, Crosses, OnProposal;
    DeliverKeepsInv(c, a, b);
    var c', s, m := Next(c, Deliver(a, b)), c.centers[b], c.sent[a];
    LeaderAfterProposal(s, m);
    if Accepts(s, m) && Crosses(s, m) {
      assert (b, m.leader.addr) in c'.installs;
      forall p | p in c'.installs && p.0 == b
        ensures p.1 == m.leader.addr
      {
        DecisionsAgree(c', p, (b, m.leader.addr));
      }
    }
  }

  /** Every decision stays on record from its step on. */
  ghost predicate AlwaysRecorded(c: Cluster, actions: seq<Action>, c': Cluster)
    requires Run(c, actions, c')
    decreases |actions|
  {
    Recorded(c) && (actions != [] ==> AlwaysRecorded(Next(c, actions[0]), actions[1..], c'))
  }

  /** No step of the run overwrites a decision. */
  ghost predicate Undisturbed(c: Cluster, actions: seq<Action>, c': Cluster)
    requires Run(c, actions, c')
    decreases |actions|
  {
    actions != [] ==> !Overwrites(c, actions[0]) && Undisturbed(Next(c, actions[0]), actions[1..], c')
  }

  lemma {:induction false} RunKeepsRecordedIff(c: Cluster, actions: seq<Action>, c': Cluster)
    requires Inv(c) && Recorded(c) && Run(c, actions, c')
    ensures AlwaysRecorded(c, actions, c') <==> Undisturbed(c, actions, c')
    ensures Undisturbed(c, actions, c') ==> Recorded(c')
    decreases |actions|
  {
    hide Inv, Recorded, Overwrites, Enabled, Next;
    if actions != [] {
      var next := Next(c, actions[0]);
      StepKeepsInv(c, actions[0]);
      StepKeepsRecordedIff(c, actions[0]);
      if Recorded(next) {
        RunKeepsRecordedIff(next, actions[1..], c');
      }
    }
  }

  /** Decisions stay on record throughout a round exactly when no decided center is swayed by an answer. */
  lemma RecordedIffUndisturbed(c: Cluster, peerStatus: Status, actions: seq<Action>, c': Cluster)
    requires Init(c, peerStatus) && Run(c, actions, c')
    ensures AlwaysRecorded(c, actions, c') <==> Undisturbed(c, actions, c')
  {
    hide Run, Inv;
    InitHasInv(c, peerStatus);
    RunKeepsRecordedIff(c, actions, c');
  }

  /** All centers that decide in an undisturbed round record one and the same leader. */
  lemma DecidedCentersShareLeader(c: Cluster, peerStatus: Status, actions: seq<Action>, c': Cluster,
                                  p: (Address, Address), q: (Address, Address))
    requires Init(c, peerStatus) && Run(c, actions, c') && Undisturbed(c, actions, c')
    requires p in c'.installs && q in c'.installs
    ensures p.0 in c'.centers && q.0 in c'.centers
    ensures c'.centers[p.0].leader.addr == c'.centers[q.0].leader.addr == p.1
  {
    hide Run, Inv, Undisturbed;
    InitHasInv(c, peerStatus);
    RunKeepsInv(c, actions, c');
    RunKeepsRecordedIff(c, actions, c');
    DecisionsAgree(c', p, q);
  }

  // ----- The election as initialised decides nothing -----

  /** A center that still takes itself for the leader and whose sweep has nobody to ask. */
  ghost predicate Alone(s: State, a: Address) {
    && s.local == a && s.leader.addr == a && s.status != Leading && a !in s.table
    && forall x | x in s.table :: s.table[x].status != Unknown
  }

  ghost predicate SelfNamed(m: Message, a: Address) {
    m.from == a && m.leader.addr == a && m.status != Unknown
  }

  ghost predicate Undecided(c: Cluster) {
    && Inv(c)
    && (forall a | a in c.centers :: Alone(c.centers[a], a))
    && (forall a | a in c.sent :: SelfNamed(c.sent[a], a))
    && c.installs == {}
  }

  lemma InitUndecided(c: Cluster, peerStatus: Status)
    requires Init(c, peerStatus) && peerStatus != Unknown
    ensures Undecided(c)
  {
    hide Inv, Started, Alone;
    InitHasInv(c, peerStatus);
    forall a | a in c.centers
      ensures Alone(c.centers[a], a)
    {
      StartsAlone(c.centers[a], a, c.centers.Keys, peerStatus);
    }
  }

  lemma StartsAlone(s: State, a: Address, all: set<Address>, peerStatus: Status)
    requires Started(s, a, all, peerStatus) && peerStatus != Unknown
    ensures Alone(s, a)
  {}

  /** A self-named proposal has no earlier supporter, so it stays short of any quorum of two. */
  lemma NoCrossing(c: Cluster, a: Address, b: Address)
    requires Undecided(c) && Enabled(c, Deliver(a, b))
    ensures !Crosses(c.centers[b], c.sent[a])
    ensures a != b
  {
    hide Crosses;
    var s, m := c.centers[b], c.sent[a];
    assert Alone(c.centers[a], a) && SelfNamed(m, a) && Sized(c, b) && Backed(c, b);
    SubsetSize({a, b}, c.centers.Keys);
    assert Supporters(c.sent, c.delivered, b, a) == {} by {
      forall x | x in c.sent
        ensures x !in Supporters(c.sent, c.delivered, b, a)
      {
        assert SelfNamed(c.sent[x], x);
      }
    }
    assert Support(c, b, a) == 0;
    if Crosses(s, m) {
      CrossingNeedsQuorum(s, m);
    }
  }

  lemma StaysAlone(s: State, b: Address, m: Message, a: Address)
    requires Alone(s, b) && SelfNamed(m, a) && a != b && !Crosses(s, m)
    ensures Alone(OnProposal(s, m), b)
  {}

  lemma StepStaysUndecided(c: Cluster, action: Action)
    requires Undecided(c) && Enabled(c, action)
    ensures Undecided(Next(c, action))
  {
    hide Inv, OnProposal, Crosses, Accepts;
    StepKeepsInv(c, action);
    match action
    case Propose(a) =>
      assert Alone(c.centers[a], a);
    case Deliver(a, b) =>
      NoCrossing(c, a, b);
      StaysAlone(c.centers[b], b, c.sent[a], a);
    case Inquire(a, _) =>
      assert Alone(c.centers[a], a);
    case Hear(a, _) =>
      assert Alone(c.centers[a], a);
  }

  lemma {:induction false} RunStaysUndecided(c: Cluster, actions: seq<Action>, c': Cluster)
    requires Undecided(c) && Run(c, actions, c')
    ensures Undecided(c')
    decreases |actions|
  {
    hide Undecided;
    if actions != [] {
      StepStaysUndecided(c, actions[0]);
      RunStaysUndecided(Next(c, actions[0]), actions[1..], c');
    }
  }

  /**
   With the table as the code zeroes it, no sweep asks anyone, every center proposes
   itself, and no center of any cluster ever decides in the round.
   */
  lemma NobodyDecides(c: Cluster, peerStatus: Status, actions: seq<Action>, c': Cluster)
    requires Init(c, peerStatus) && peerStatus != Unknown && Run(c, actions, c')
    ensures c'.installs == {}
    ensures forall a | a in c'.centers :: c'.centers[a].leader.addr == a && c'.centers[a].status != Leading
  {
    hide Init, Run, Inv;
    InitUndecided(c, peerStatus);
    RunStaysUndecided(c, actions, c');
    forall a | a in c'.centers
      ensures c'.centers[a].leader.addr == a && c'.centers[a].status != Leading
    {
      assert Alone(c'.centers[a], a);
    }
  }
}
