/**
 What one center does over whole runs: the inquiry sweep, the votes it holds and the
 statuses it goes through, for every sequence of messages.
 */
module CenterRuns {
  import opened Words
  import opened HashRing
  import opened Center

  // ----- Candidates are totally ordered -----

  lemma {:induction false} LessIrreflexive(a: Address)
    ensures !Less(a, a)
  {
    if a != [] {
      LessIrreflexive(a[1..]);
    }
  }

  lemma {:induction false} LessTransitive(a: Address, b: Address, c: Address)
    requires Less(a, b) && Less(b, c)
    ensures Less(a, c)
  {
    if a != [] && a[0] == b[0] == c[0] {
      LessTransitive(a[1..], b[1..], c[1..]);
    }
  }

  lemma {:induction false} LessTotal(a: Address, b: Address)
    requires a != b
    ensures Less(a, b) || Less(b, a)
  {
    if a != [] && b != [] && a[0] == b[0] {
      assert a == [a[0]] + a[1..] && b == [b[0]] + b[1..];
      LessTotal(a[1..], b[1..]);
    }
  }

  lemma BetterIsStrictTotalOrder(a: Leader, b: Leader, c: Leader)
    ensures !Better(a, a)
    ensures Better(a, b) && Better(b, c) ==> Better(a, c)
    ensures a != b ==> Better(a, b) || Better(b, a)
  {
    LessIrreflexive(a.addr);
    if Less(c.addr, b.addr) && Less(b.addr, a.addr) {
      LessTransitive(c.addr, b.addr, a.addr);
    }
    if a.addr != b.addr {
      LessTotal(a.addr, b.addr);
    }
  }

  ghost predicate IsBest(best: Leader, candidates: set<Leader>) {
    best in candidates && forall c | c in candidates :: !Better(c, best)
  }

  lemma BestUnique(a: Leader, b: Leader, candidates: set<Leader>)
    requires IsBest(a, candidates) && IsBest(b, candidates)
    ensures a == b
  {
    BetterIsStrictTotalOrder(a, b, a);
  }

  // ----- The inquiry sweep -----

  ghost predicate NoDuplicates(order: seq<Address>) {
    forall i, j | 0 <= i < j < |order| :: order[i] != order[j]
  }

  ghost predicate Asked(s: State, replies: map<Address, Message>, a: Address) {
    a in replies && a in s.table && s.table[a].status == Unknown
  }

  /** The standing leader and every asked peer of the local clock. */
  ghost function Candidates(s: State, peers: set<Address>, replies: map<Address, Message>): set<Leader> {
    {s.leader} +
    set a | a in peers && Asked(s, replies, a) && replies[a].clock == s.clock ::
      Leader(replies[a].startTime, replies[a].from)
  }

  ghost function SweptTable(s: State, peers: set<Address>, replies: map<Address, Message>): map<Address, Peer> {
    map a | a in s.table ::
      if a in peers && Asked(s, replies, a)
      then s.table[a].(startTime := replies[a].startTime, status := replies[a].status)
      else s.table[a]
  }

  ghost function Members(order: seq<Address>): set<Address> {
    set a | a in order
  }

  lemma MembersStep(order: seq<Address>)
    requires order != [] && NoDuplicates(order)
    ensures var n := |order| - 1;
            && Members(order) == Members(order[..n]) + {order[n]}
            && order[n] !in Members(order[..n]) && NoDuplicates(order[..n])
  {
    assert order == order[..|order| - 1] + [order[|order| - 1]];
  }

  lemma {:induction false} SweepRewritesAsked(s: State, order: seq<Address>, replies: map<Address, Message>)
    requires NoDuplicates(order)
    ensures var t := Swept(s, order, replies);
            t == s.(table := SweptTable(s, Members(order), replies), leader := t.leader)
    decreases |order|
  {
    if order == [] {
      assert SweptTable(s, {}, replies) == s.table;
    } else {
      MembersStep(order);
      SweepRewritesAsked(s, order[..|order| - 1], replies);
    }
  }

  /** With no asked peer ahead of the local clock, the sweep leaves the best candidate in place. */
  lemma {:induction false} SweepPicksBest(s: State, order: seq<Address>, replies: map<Address, Message>)
    requires NoDuplicates(order)
    requires forall a | a in order && Asked(s, replies, a) :: replies[a].clock <= s.clock
    ensures IsBest(Swept(s, order, replies).leader, Candidates(s, Members(order), replies))
    decreases |order|
  {
    if order == [] {
      BetterIsStrictTotalOrder(s.leader, s.leader, s.leader);
      assert Candidates(s, {}, replies) == {s.leader};
    } else {
      var n := |order| - 1;
      var peer, rest := order[n], Members(order[..n]);
      MembersStep(order);
      SweepPicksBest(s, order[..n], replies);
      SweepRewritesAsked(s, order[..n], replies);
      var t := Swept(s, order[..n], replies);
      var old', new' := Candidates(s, rest, replies), Candidates(s, Members(order), replies);
      if Asked(s, replies, peer) && replies[peer].clock == s.clock {
        var c := Leader(replies[peer].startTime, replies[peer].from);
        assert new' == old' + {c};
        BestOfOneMore(t.leader, old', c);
      } else {
        assert new' == old';
      }
    }
  }

  lemma BestOfOneMore(best: Leader, candidates: set<Leader>, c: Leader)
    requires IsBest(best, candidates)
    ensures IsBest(if Better(c, best) then c else best, candidates + {c})
  {
    forall x | x in candidates + {c}
      ensures !Better(x, if Better(c, best) then c else best)
    {
      BetterIsStrictTotalOrder(x, c, best);
    }
  }

  /** The candidates that are ahead of the local clock and so taken unseen. */
  ghost function Ahead(s: State, peers: set<Address>, replies: map<Address, Message>): set<Leader> {
    set a | a in peers && Asked(s, replies, a) && replies[a].clock > s.clock ::
      Leader(replies[a].startTime, replies[a].from)
  }

  lemma NotAhead(s: State, peers: set<Address>, replies: map<Address, Message>, a: Address)
    requires a in peers && Asked(s, replies, a)
    requires Leader(replies[a].startTime, replies[a].from) !in Ahead(s, peers, replies)
    ensures replies[a].clock <= s.clock
  {}

  /** What the sweep does with its last peer. */
  lemma LastPeer(s: State, order: seq<Address>, replies: map<Address, Message>)
    requires NoDuplicates(order) && order != [] && Asked(s, replies, order[|order| - 1])
    ensures var n := |order| - 1;
            var before, r := Swept(s, order[..n], replies).leader, replies[order[n]];
            var c := Leader(r.startTime, r.from);
            Swept(s, order, replies).leader ==
            if r.clock > s.clock || (r.clock == s.clock && Better(c, before)) then c else before
  {
    var n := |order| - 1;
    MembersStep(order);
    SweepRewritesAsked(s, order[..n], replies);
  }

  /** A set can be walked so that a given member comes last. */
  lemma {:induction false} OrderEndingWith(peers: set<Address>, last: Address) returns (order: seq<Address>)
    requires last in peers
    ensures NoDuplicates(order) && Members(order) == peers && order != [] && order[|order| - 1] == last
    decreases |peers|
  {
    var rest := peers - {last};
    if rest == {} {
      order := [last];
      assert peers == {last};
    } else {
      var a :| a in rest;
      var front := OrderEndingWith(rest, a);
      order := front + [last];
      assert forall x | x in front :: x in Members(front);
      assert Members(order) == Members(front) + {last};
    }
  }

  /** No candidate of the local clock beats the one that is taken unseen. */
  ghost predicate Unbeaten(s: State, peers: set<Address>, replies: map<Address, Message>, l: Leader) {
    forall a | a in peers && Asked(s, replies, a) && replies[a].clock == s.clock ::
      !Better(Leader(replies[a].startTime, replies[a].from), l)
  }

  ghost predicate AtMostOneAhead(s: State, peers: set<Address>, replies: map<Address, Message>) {
    forall l, l' | l in Ahead(s, peers, replies) && l' in Ahead(s, peers, replies) ::
      l == l' && Unbeaten(s, peers, replies, l)
  }

  ghost predicate OrderFree(s: State, peers: set<Address>, replies: map<Address, Message>) {
    forall o, o' | NoDuplicates(o) && NoDuplicates(o') && Members(o) == peers == Members(o') ::
      Swept(s, o, replies) == Swept(s, o', replies)
  }

  /** With one unbeaten candidate ahead, every order ends with that candidate. */
  lemma {:induction false} SweepEndsAhead(s: State, order: seq<Address>, replies: map<Address, Message>, l: Leader)
    requires NoDuplicates(order) && l in Ahead(s, Members(order), replies)
    requires AtMostOneAhead(s, Members(order), replies)
    ensures Swept(s, order, replies).leader == l
    decreases |order|
  {
    var n := |order| - 1;
    MembersStep(order);
    var peer, rest := order[n], Members(order[..n]);
    if l in Ahead(s, rest, replies) {
      assert Ahead(s, rest, replies) <= Ahead(s, Members(order), replies);
      assert forall x | x in Ahead(s, rest, replies) :: Unbeaten(s, Members(order), replies, x);
      SweepEndsAhead(s, order[..n], replies, l);
    }
    if Asked(s, replies, peer) {
      LastPeer(s, order, replies);
      if replies[peer].clock > s.clock {
        assert Leader(replies[peer].startTime, replies[peer].from) in Ahead(s, Members(order), replies);
      }
    } else {
      SweepRewritesAsked(s, order[..n], replies);
    }
  }

  /** The exact condition under which the order of the sweep does not matter. */
  lemma SweepOrderIrrelevantIff(s: State, peers: set<Address>, replies: map<Address, Message>)
    ensures OrderFree(s, peers, replies) <==> AtMostOneAhead(s, peers, replies)
  {
    if AtMostOneAhead(s, peers, replies) {
      forall o, o' | NoDuplicates(o) && NoDuplicates(o') && Members(o) == peers == Members(o')
        ensures Swept(s, o, replies) == Swept(s, o', replies)
      {
        OrdersAgree(s, o, o', replies);
      }
    }
    if OrderFree(s, peers, replies) {
      forall l, l' | l in Ahead(s, peers, replies) && l' in Ahead(s, peers, replies)
        ensures l == l' && Unbeaten(s, peers, replies, l)
      {
        AheadIsForced(s, peers, replies, l, l');
      }
    }
  }

  /** Two unknown peers ahead of the local clock: the one that is asked last is taken. */
  lemma SweepOrderMatters()
    ensures exists s: State, order: seq<Address>, order': seq<Address>, replies: map<Address, Message> ::
              && s == Initial([0], 0, {[1], [2]}, Unknown)
              && NoDuplicates(order) && NoDuplicates(order') && Members(order) == Members(order')
              && Swept(s, order, replies).leader != Swept(s, order', replies).leader
  {
    var s, a: Address, b: Address := Initial([0], 0, {[1], [2]}, Unknown), [1], [2];
    var replies := map[a := Message(a, Looking, 5, 1, Leader(5, a)), b := Message(b, Looking, 6, 1, Leader(6, b))];
    var order, order' := [a, b], [b, a];
    LastPeer(s, order, replies);
    LastPeer(s, order', replies);
    assert Swept(s, order, replies).leader == Leader(6, b) && Swept(s, order', replies).leader == Leader(5, a);
    assert Members(order) == Members(order');
  }

  lemma OrdersAgree(s: State, order: seq<Address>, order': seq<Address>, replies: map<Address, Message>)
    requires NoDuplicates(order) && NoDuplicates(order') && Members(order) == Members(order')
    requires AtMostOneAhead(s, Members(order), replies)
    ensures Swept(s, order, replies) == Swept(s, order', replies)
  {
    var peers := Members(order);
    SweepRewritesAsked(s, order, replies);
    SweepRewritesAsked(s, order', replies);
    if Ahead(s, peers, replies) == {} {
      forall a | a in peers && Asked(s, replies, a)
        ensures replies[a].clock <= s.clock
      {
        NotAhead(s, peers, replies, a);
      }
      assert forall a | a in order' :: a in Members(order');
      SweepPicksBest(s, order, replies);
      SweepPicksBest(s, order', replies);
      BestUnique(Swept(s, order, replies).leader, Swept(s, order', replies).leader, Candidates(s, peers, replies));
    } else {
      var l :| l in Ahead(s, peers, replies);
      SweepEndsAhead(s, order, replies, l);
      SweepEndsAhead(s, order', replies, l);
    }
  }

  lemma AheadIsForced(s: State, peers: set<Address>, replies: map<Address, Message>, l: Leader, l': Leader)
    requires OrderFree(s, peers, replies) && l in Ahead(s, peers, replies) && l' in Ahead(s, peers, replies)
    ensures l == l' && Unbeaten(s, peers, replies, l)
  {
    var a :| a in peers && Asked(s, replies, a) && replies[a].clock > s.clock && l == Leader(replies[a].startTime, replies[a].from);
    var a' :| a' in peers && Asked(s, replies, a') && replies[a'].clock > s.clock && l' == Leader(replies[a'].startTime, replies[a'].from);
    var o := OrderEndingWith(peers, a);
    var o' := OrderEndingWith(peers, a');
    LastPeer(s, o, replies);
    LastPeer(s, o', replies);
    assert Swept(s, o, replies).leader == l && Swept(s, o', replies).leader == l';
    forall e | e in peers && Asked(s, replies, e) && replies[e].clock == s.clock
      ensures !Better(Leader(replies[e].startTime, replies[e].from), l)
    {
      var oe := OrderEndingWith(peers, e);
      LastPeer(s, oe, replies);
      var c := Leader(replies[e].startTime, replies[e].from);
      BetterIsStrictTotalOrder(c, l, c);
      assert Swept(s, oe, replies).leader == l;
    }
  }

  /** What the members of a fresh cluster answer to each other. */
  ghost predicate Truthful(starts: map<Address, int>, local: Address, replies: map<Address, Message>) {
    && replies.Keys == starts.Keys - {local}
    && forall a | a in replies :: replies[a].from == a && replies[a].startTime == starts[a] && replies[a].clock == 0
  }

  /** Centers that hear from all others before anyone has proposed agree on one leader. */
  lemma FullSweepsAgree(starts: map<Address, int>, a: Address, b: Address,
                        orderA: seq<Address>, orderB: seq<Address>,
                        repliesA: map<Address, Message>, repliesB: map<Address, Message>)
    requires a in starts && b in starts
    requires NoDuplicates(orderA) && Members(orderA) == starts.Keys - {a} && Truthful(starts, a, repliesA)
    requires NoDuplicates(orderB) && Members(orderB) == starts.Keys - {b} && Truthful(starts, b, repliesB)
    ensures Swept(Initial(a, starts[a], starts.Keys - {a}, Unknown), orderA, repliesA).leader
         == Swept(Initial(b, starts[b], starts.Keys - {b}, Unknown), orderB, repliesB).leader
  {
    var all := set c | c in starts :: Leader(starts[c], c);
    FullSweepPicksBest(starts, a, orderA, repliesA, all);
    FullSweepPicksBest(starts, b, orderB, repliesB, all);
    BestUnique(Swept(Initial(a, starts[a], starts.Keys - {a}, Unknown), orderA, repliesA).leader,
               Swept(Initial(b, starts[b], starts.Keys - {b}, Unknown), orderB, repliesB).leader, all);
  }

  lemma FullSweepPicksBest(starts: map<Address, int>, a: Address, order: seq<Address>,
                           replies: map<Address, Message>, all: set<Leader>)
    requires a in starts && NoDuplicates(order) && Members(order) == starts.Keys - {a}
    requires Truthful(starts, a, replies)
    requires all == set c | c in starts :: Leader(starts[c], c)
    ensures IsBest(Swept(Initial(a, starts[a], starts.Keys - {a}, Unknown), order, replies).leader, all)
  {
    var s := Initial(a, starts[a], starts.Keys - {a}, Unknown);
    SweepPicksBest(s, order, replies);
    var found := Candidates(s, Members(order), replies);
    forall l | l in all
      ensures l in found
    {
      var c :| c in starts && l == Leader(starts[c], c);
      if c != a {
        assert Asked(s, replies, c);
      }
    }
    assert found == all;
  }

  /**
   The leader after a full sweep is the center that started first, and among those that
   started together the one whose address is greatest.
   */
  lemma FullSweepElectsEarliest(starts: map<Address, int>, a: Address, order: seq<Address>, replies: map<Address, Message>)
    requires a in starts && NoDuplicates(order) && Members(order) == starts.Keys - {a}
    requires Truthful(starts, a, replies)
    ensures var l := Swept(Initial(a, starts[a], starts.Keys - {a}, Unknown), order, replies).leader;
            && l.addr in starts && l.startTime == starts[l.addr]
            && (forall c | c in starts :: l.startTime <= starts[c])
            && (forall c | c in starts && c != l.addr && starts[c] == l.startTime ::
                  exists n: nat :: GreaterAt(l.addr, c, n))
  {
    var all := set c | c in starts :: Leader(starts[c], c);
    FullSweepPicksBest(starts, a, order, replies, all);
    hide Swept;
    var l := Swept(Initial(a, starts[a], starts.Keys - {a}, Unknown), order, replies).leader;
    forall c | c in starts
      ensures l.startTime <= starts[c]
      ensures c != l.addr && starts[c] == l.startTime ==> exists n: nat :: GreaterAt(l.addr, c, n)
    {
      assert Leader(starts[c], c) in all;
      if c != l.addr && starts[c] == l.startTime {
        LessTotal(c, l.addr);
        LessIffGreaterAt(c, l.addr);
      }
    }
  }

  /** A zeroed table holds no unknown peer, so the sweep as initialised asks nobody. */
  lemma {:induction false} SweepIsIdle(s: State, order: seq<Address>, replies: map<Address, Message>)
    requires forall a | a in s.table :: s.table[a].status != Unknown
    ensures Swept(s, order, replies) == s
    decreases |order|
  {
    if order != [] {
      SweepIsIdle(s, order[..|order| - 1], replies);
    }
  }

  // ----- Runs of messages -----

  /** A received proposal or confirmation, the center's own proposal, or an answer that the sweep gets. */
  datatype Event = Proposal(m: Message) | Confirm(m: Message) | Announce | Answer(peer: Address, reply: Message)

  function Step(s: State, e: Event): State {
    match e
    case Proposal(m) => OnProposal(s, m)
    case Confirm(m) => OnConfirm(s, m)
    case Announce => Proposed(s)
    case Answer(peer, reply) => Inquired(s, peer, reply)
  }

  function Run(s: State, events: seq<Event>): State
    decreases |events|
  {
    if events == [] then s
    else Step(Run(s, events[..|events| - 1]), events[|events| - 1])
  }

  /** The run before its last event. */
  function Before(s: State, events: seq<Event>): State
    requires events != []
  {
    Run(s, events[..|events| - 1])
  }

  predicate Votes(s: State, e: Event) {
    e.Proposal? && Accepts(s, e.m)
  }

  lemma {:induction false} RunKeepsIdentity(s: State, events: seq<Event>)
    ensures Run(s, events).local == s.local && Run(s, events).quorum == s.quorum
    decreases |events|
  {
    if events != [] {
      RunKeepsIdentity(s, events[..|events| - 1]);
    }
  }

  // ----- The status machine -----

  ghost predicate StatusMoves(a: State, b: State) {
    && (a.status != Looking ==> b.status != Looking)
    && (a.status == Following ==> b.status == Following || b.status == Leading)
  }

  /** A center decides when a proposal it accepts completes the quorum of votes for an address in its table. */
  ghost predicate Decides(s: State, e: Event) {
    && Votes(s, e) && s.quorum > 0
    && var m := e.m;
       && (m.leader.addr in s.table || m.leader.addr == m.from)
       && (if m.leader.addr in s.table then s.table[m.leader.addr].votes else 0) + 1 >= s.quorum
  }

  /**
   What each event does to status and leader: a decision takes over the proposed leader and
   makes the center that leader, or an observer unless it follows already; an accepted
   confirmation makes it a follower; nothing else moves the status.
   */
  lemma StatusAfter(s: State, e: Event)
    ensures Step(s, e).status ==
            if Decides(s, e) then
              (if e.m.leader.addr == s.local then Leading else if s.status == Following then Following else Observing)
            else if e.Confirm? && Accepts(s, e.m) then Following
            else s.status
    ensures Decides(s, e) ==> Step(s, e).leader == e.m.leader
    ensures !Decides(s, e) && !e.Answer? ==> Step(s, e).leader == s.leader
    ensures Step(s, e).clock == s.clock + if e.Announce? then 1 else 0
  {
    hide Better;
  }

  /** What an accepted proposal leaves in the table: the sender's row as sent, and one vote for a listed leader. */
  lemma RowsAfterProposal(s: State, m: Message, x: Address)
    requires Accepts(s, m)
    ensures x in OnProposal(s, m).table <==> x in s.table || x == m.from
    ensures x in OnProposal(s, m).table ==>
              var row, votes := OnProposal(s, m).table[x], if x in s.table then s.table[x].votes else 0;
              && row.votes == votes + (if x == m.leader.addr then 1 else 0)
              && (x == m.from ==> row.startTime == m.startTime && row.status == m.status && row.follows == m.leader.addr)
              && (x != m.from ==> row == s.table[x].(votes := row.votes))
  {
    hide Better;
  }

  /** What an answer leaves in the table: the asked row, if it was unknown, takes the sender's start and status. */
  lemma RowsAfterAnswer(s: State, peer: Address, reply: Message, x: Address)
    ensures x in Inquired(s, peer, reply).table <==> x in s.table
    ensures x in s.table ==>
              Inquired(s, peer, reply).table[x] ==
              if x == peer && s.table[x].status == Unknown
              then Peer(reply.startTime, reply.status, s.table[x].votes, s.table[x].follows)
              else s.table[x]
  {}

  /** A leading center records itself as leader. */
  ghost predicate SelfLed(s: State) {
    s.status == Leading ==> s.leader.addr == s.local
  }

  /** A leading center takes another one for the leader: it asks a peer that is still unknown and accepts the answer. */
  predicate Unseats(s: State, e: Event) {
    && s.status == Leading && e.Answer? && e.peer in s.table && s.table[e.peer].status == Unknown
    && e.reply.from != s.local && Accepts(s, e.reply.(leader := Leader(e.reply.startTime, e.reply.from)))
  }

  /** Every step of every run keeps to the status machine. */
  lemma {:induction false} StatusMachine(s: State, events: seq<Event>, n: nat)
    requires n < |events|
    ensures StatusMoves(Run(s, events[..n]), Run(s, events[..n + 1]))
    ensures SelfLed(Run(s, events[..n])) ==>
              (SelfLed(Run(s, events[..n + 1])) <==> !Unseats(Run(s, events[..n]), events[n]))
  {
    assert events[..n + 1][..n] == events[..n];
  }

  /** A run keeps leading centers their own leaders exactly when none of its answers unseats one. */
  lemma {:induction false} SelfLedIff(s: State, events: seq<Event>)
    requires SelfLed(s)
    ensures (forall n | 0 <= n <= |events| :: SelfLed(Run(s, events[..n])))
       <==> (forall n | 0 <= n < |events| :: !Unseats(Run(s, events[..n]), events[n]))
  {
    if forall n | 0 <= n < |events| :: !Unseats(Run(s, events[..n]), events[n]) {
      forall n | 0 <= n <= |events|
        ensures SelfLed(Run(s, events[..n]))
      {
        SelfLedUpTo(s, events, n);
      }
    }
    if forall n | 0 <= n <= |events| :: SelfLed(Run(s, events[..n])) {
      forall n | 0 <= n < |events|
        ensures !Unseats(Run(s, events[..n]), events[n])
      {
        StatusMachine(s, events, n);
        assert SelfLed(Run(s, events[..n])) && SelfLed(Run(s, events[..n + 1]));
      }
    }
  }

  lemma {:induction false} SelfLedUpTo(s: State, events: seq<Event>, n: nat)
    requires SelfLed(s) && n <= |events|
    requires forall k | 0 <= k < |events| :: !Unseats(Run(s, events[..k]), events[k])
    ensures SelfLed(Run(s, events[..n]))
  {
    if n > 0 {
      SelfLedUpTo(s, events, n - 1);
      StatusMachine(s, events, n - 1);
    }
  }

  /** An answer does unseat a leader: the center leads, asks the unknown peer [1] and records it instead. */
  lemma AnswerUnseats()
    ensures exists s: State, events: seq<Event> ::
              && s == Initial([0], 0, {[1], [2]}, Unknown)
              && Run(s, events).status == Leading && Run(s, events).leader.addr == [1]
  {
    var s := Initial([0], 0, {[1], [2]}, Unknown);
    var own := Proposal(Message([0], Looking, 0, 1, Leader(0, [0])));
    var answer := Answer([1], Message([1], Looking, 5, 1, Leader(5, [1])));
    var events := [own, own, answer];
    assert |{[1 as Byte], [2]}| == 2;
    assert events[..2] == [own, own] && [own, own][..1] == [own] && [own][..0] == [];
    assert Run(s, [own]) == Step(s, own);
    assert Run(s, [own, own]) == Step(Step(s, own), own);
    assert Run(s, events) == Step(Run(s, [own, own]), answer);
  }

  // ----- Where the votes go -----

  /** The proposals that were counted for an address in the table. */
  function CountedProposals(s: State, events: seq<Event>): nat
    decreases |events|
  {
    if events == [] then 0
    else
      var e, before := events[|events| - 1], Before(s, events);
      CountedProposals(s, events[..|events| - 1]) +
      if Votes(before, e) && e.m.leader.addr in Noted(before.table, e.m) then 1 else 0
  }

  ghost function SumVotes(table: map<Address, Peer>, rows: set<Address>): nat
    requires rows <= table.Keys
  {
    if rows == {} then 0
    else
      var a :| a in rows;
      table[a].votes + SumVotes(table, rows - {a})
  }

  lemma {:induction false} SumVotesPick(table: map<Address, Peer>, rows: set<Address>, a: Address)
    requires rows <= table.Keys && a in rows
    ensures SumVotes(table, rows) == table[a].votes + SumVotes(table, rows - {a})
    decreases rows
  {
    var b :| b in rows && SumVotes(table, rows) == table[b].votes + SumVotes(table, rows - {b});
    if a != b {
      SumVotesPick(table, rows - {b}, a);
      SumVotesPick(table, rows - {a}, b);
      assert rows - {b} - {a} == rows - {a} - {b};
    }
  }

  lemma {:induction false} SumVotesSame(t: map<Address, Peer>, t': map<Address, Peer>, rows: set<Address>)
    requires rows <= t.Keys && rows <= t'.Keys
    requires forall a | a in rows :: t[a].votes == t'[a].votes
    ensures SumVotes(t, rows) == SumVotes(t', rows)
    decreases rows
  {
    if rows != {} {
      var a :| a in rows;
      SumVotesPick(t, rows, a);
      SumVotesPick(t', rows, a);
      SumVotesSame(t, t', rows - {a});
    }
  }

  lemma NotingAddsNoVote(table: map<Address, Peer>, m: Message)
    ensures SumVotes(Noted(table, m), Noted(table, m).Keys) == SumVotes(table, table.Keys)
  {
    var t := Noted(table, m);
    SumVotesPick(t, t.Keys, m.from);
    SumVotesSame(t, table, table.Keys - {m.from});
    assert t.Keys - {m.from} == table.Keys - {m.from};
    if m.from in table {
      SumVotesPick(table, table.Keys, m.from);
    } else {
      assert table.Keys - {m.from} == table.Keys;
    }
  }

  lemma VotingAddsOne(table: map<Address, Peer>, a: Address)
    requires a in table
    ensures Voted(table, a).Keys == table.Keys
    ensures SumVotes(Voted(table, a), table.Keys) == SumVotes(table, table.Keys) + 1
  {
    var t := Voted(table, a);
    assert t.Keys == table.Keys;
    SumVotesPick(t, t.Keys, a);
    SumVotesPick(table, table.Keys, a);
    SumVotesSame(t, table, table.Keys - {a});
  }

  /** No vote is lost or invented once the address has a row. */
  lemma {:induction false} VotesConserved(s: State, events: seq<Event>)
    ensures var t := Run(s, events).table;
            SumVotes(t, t.Keys) == SumVotes(s.table, s.table.Keys) + CountedProposals(s, events)
    decreases |events|
  {
    if events != [] {
      VotesConserved(s, events[..|events| - 1]);
      var before, e := Before(s, events), events[|events| - 1];
      if Votes(before, e) {
        NotingAddsNoVote(before.table, e.m);
        var noted := Noted(before.table, e.m);
        if e.m.leader.addr in noted {
          VotingAddsOne(noted, e.m.leader.addr);
        }
      } else {
        SumVotesSame(before.table, Run(s, events).table, before.table.Keys);
        assert Run(s, events).table.Keys == before.table.Keys;
      }
    }
  }

  /** With at most N counted proposals among N centers, at most one address gets a majority. */
  lemma OneMajority(local: Address, startTime: int, peers: set<Address>, peerStatus: Status,
                    events: seq<Event>, a: Address, b: Address)
    requires var s := Initial(local, startTime, peers, peerStatus); CountedProposals(s, events) <= |peers| + 1
    requires var t := Run(Initial(local, startTime, peers, peerStatus), events);
             && a in t.table && t.table[a].votes >= t.quorum
             && b in t.table && t.table[b].votes >= t.quorum
    ensures a == b
  {
    var s := Initial(local, startTime, peers, peerStatus);
    var t := Run(s, events);
    RunKeepsIdentity(s, events);
    VotesConserved(s, events);
    NoVotesYet(s.table, s.table.Keys);
    if a != b {
      SumVotesPick(t.table, t.table.Keys, a);
      SumVotesPick(t.table, t.table.Keys - {a}, b);
    }
  }

  lemma {:induction false} NoVotesYet(table: map<Address, Peer>, rows: set<Address>)
    requires rows <= table.Keys && forall a | a in table :: table[a].votes == 0
    ensures SumVotes(table, rows) == 0
    decreases rows
  {
    if rows != {} {
      var a :| a in rows;
      SumVotesPick(table, rows, a);
      NoVotesYet(table, rows - {a});
    }
  }

  // ----- When a center can lead -----

  /** Votes for the local address count from the first accepted proposal that it sent itself. */
  datatype Tally = Tally(present: bool, votes: nat)

  function LocalTally(s: State, events: seq<Event>): Tally
    decreases |events|
  {
    if events == [] then Tally(false, 0)
    else
      var e, tally := events[|events| - 1], LocalTally(s, events[..|events| - 1]);
      if !Votes(Before(s, events), e) then tally
      else
        var present := tally.present || e.m.from == s.local;
        Tally(present, tally.votes + if present && e.m.leader.addr == s.local then 1 else 0)
  }

  lemma {:induction false} TallyIsRow(local: Address, startTime: int, peers: set<Address>, peerStatus: Status, events: seq<Event>)
    requires local !in peers
    ensures var s := Initial(local, startTime, peers, peerStatus);
            var t, tally := Run(s, events), LocalTally(s, events);
            && (local in t.table <==> tally.present)
            && tally.votes == (if tally.present then t.table[local].votes else 0)
    decreases |events|
  {
    var s := Initial(local, startTime, peers, peerStatus);
    RunKeepsIdentity(s, events);
    if events != [] {
      TallyIsRow(local, startTime, peers, peerStatus, events[..|events| - 1]);
    }
  }

  ghost predicate EverLeads(s: State, events: seq<Event>) {
    exists n :: 0 <= n <= |events| && Run(s, events[..n]).status == Leading
  }

  /**
   A started center ever leads exactly when enough accepted proposals name it after one
   that carries its own address as sender.  Centers never send to themselves, so a
   majority of the other centers' votes alone does not make a leader.
   */
  lemma LeadsIffOwnProposalComesBack(local: Address, startTime: int, peers: set<Address>, peerStatus: Status, events: seq<Event>)
    requires local !in peers
    ensures var s := Initial(local, startTime, peers, peerStatus);
            EverLeads(s, events) <==> LocalTally(s, events).votes >= s.quorum
  {
    var s := Initial(local, startTime, peers, peerStatus);
    if LocalTally(s, events).votes >= s.quorum {
      ThresholdWasCrossed(local, startTime, peers, peerStatus, events);
    }
    if EverLeads(s, events) {
      var n :| 0 <= n <= |events| && Run(s, events[..n]).status == Leading;
      LeadingNeedsTally(local, startTime, peers, peerStatus, events[..n]);
      TallyGrows(s, events, n);
    }
  }

  lemma {:induction false} ThresholdWasCrossed(local: Address, startTime: int, peers: set<Address>, peerStatus: Status, events: seq<Event>)
    requires local !in peers
    requires var s := Initial(local, startTime, peers, peerStatus); LocalTally(s, events).votes >= s.quorum
    ensures EverLeads(Initial(local, startTime, peers, peerStatus), events)
    decreases |events|
  {
    var s := Initial(local, startTime, peers, peerStatus);
    var n := |events| - 1;
    var prefix := events[..n];
    RunKeepsIdentity(s, prefix);
    if LocalTally(s, prefix).votes >= s.quorum {
      ThresholdWasCrossed(local, startTime, peers, peerStatus, prefix);
      var k :| 0 <= k <= n && Run(s, prefix[..k]).status == Leading;
      assert prefix[..k] == events[..k];
    } else {
      TallyIsRow(local, startTime, peers, peerStatus, prefix);
      assert events[..|events|] == events;
      assert Run(s, events[..|events|]).status == Leading;
    }
  }

  lemma {:induction false} LeadingNeedsTally(local: Address, startTime: int, peers: set<Address>, peerStatus: Status, events: seq<Event>)
    requires local !in peers
    requires Run(Initial(local, startTime, peers, peerStatus), events).status == Leading
    ensures var s := Initial(local, startTime, peers, peerStatus); LocalTally(s, events).votes >= s.quorum
    decreases |events|
  {
    var s := Initial(local, startTime, peers, peerStatus);
    var prefix := events[..|events| - 1];
    RunKeepsIdentity(s, prefix);
    TallyIsRow(local, startTime, peers, peerStatus, prefix);
    if Run(s, prefix).status == Leading {
      LeadingNeedsTally(local, startTime, peers, peerStatus, prefix);
    }
  }

  lemma {:induction false} TallyGrows(s: State, events: seq<Event>, n: nat)
    requires n <= |events|
    ensures LocalTally(s, events[..n]).votes <= LocalTally(s, events).votes
    decreases |events|
  {
    if n == |events| {
      assert events[..n] == events;
    } else {
      TallyGrows(s, events[..|events| - 1], n);
      assert events[..|events| - 1][..n] == events[..n];
    }
  }

  /** A center that no proposal carries as its sender never has a row for itself and never leads. */
  lemma NeverLeadsUnsent(local: Address, startTime: int, peers: set<Address>, peerStatus: Status, events: seq<Event>)
    requires local !in peers
    requires forall e | e in events && e.Proposal? :: e.m.from != local
    ensures var s := Initial(local, startTime, peers, peerStatus);
            !EverLeads(s, events) && forall n | 0 <= n <= |events| :: local !in Run(s, events[..n]).table
  {
    var s := Initial(local, startTime, peers, peerStatus);
    LeadsIffOwnProposalComesBack(local, startTime, peers, peerStatus, events);
    NoTallyUnsent(s, events);
    forall n | 0 <= n <= |events|
      ensures local !in Run(s, events[..n]).table
    {
      NoTallyUnsent(s, events[..n]);
      TallyIsRow(local, startTime, peers, peerStatus, events[..n]);
    }
  }

  lemma {:induction false} NoTallyUnsent(s: State, events: seq<Event>)
    requires forall e | e in events && e.Proposal? :: e.m.from != s.local
    ensures LocalTally(s, events) == Tally(false, 0)
    decreases |events|
  {
    if events != [] {
      NoTallyUnsent(s, events[..|events| - 1]);
    }
  }

  ghost predicate SentBy(events: seq<Event>, senders: set<Address>) {
    forall e | e in events && e.Proposal? :: e.m.from in senders
  }

  /** Among all that the given senders can send it, something makes a center lead exactly when it is one of them. */
  lemma CanLeadIffItSends(local: Address, startTime: int, peers: set<Address>, peerStatus: Status, senders: set<Address>)
    requires local !in peers
    ensures var s := Initial(local, startTime, peers, peerStatus);
            (exists events :: SentBy(events, senders) && EverLeads(s, events)) <==> local in senders
  {
    var s := Initial(local, startTime, peers, peerStatus);
    if local in senders {
      var m := Message(local, Looking, startTime, 1, Leader(startTime, local));
      var events := seq(s.quorum, _ => Proposal(m));
      OwnVotesCount(s, m, s.quorum);
      LeadsIffOwnProposalComesBack(local, startTime, peers, peerStatus, events);
      assert SentBy(events, senders) && EverLeads(s, events);
    }
    if events :| SentBy(events, senders) && EverLeads(s, events) {
      if local !in senders {
        NeverLeadsUnsent(local, startTime, peers, peerStatus, events);
      }
    }
  }

  lemma {:induction false} OwnVotesCount(s: State, m: Message, n: nat)
    requires m.from == m.leader.addr == s.local && m.clock > s.clock
    ensures var events := seq(n, _ => Proposal(m));
            LocalTally(s, events) == Tally(n > 0, n) && Run(s, events).clock == s.clock
    decreases n
  {
    if n > 0 {
      OwnVotesCount(s, m, n - 1);
      assert seq(n, _ => Proposal(m))[..n - 1] == seq(n - 1, _ => Proposal(m));
    }
  }

  /** The README's promise fails: a majority votes for the center and it does not lead. */
  lemma MajorityDoesNotLead()
    ensures exists s: State, events: seq<Event> ::
              && s == Initial([0], 0, {[1], [2]}, Looking)
              && (forall e | e in events :: e.Proposal? && e.m.leader.addr == s.local)
              && |events| >= s.quorum && (forall n | 0 <= n < |events| :: Votes(Run(s, events[..n]), events[n]))
              && !EverLeads(s, events)
  {
    var s := Initial([0], 0, {[1], [2]}, Looking);
    var m1 := Message([1], Looking, 1, 1, Leader(0, [0]));
    var m2 := Message([2], Looking, 2, 1, Leader(0, [0]));
    var events := [Proposal(m1), Proposal(m2)];
    assert |{[1 as Byte], [2]}| == 2;
    assert events[..0] == [] && events[..1] == [Proposal(m1)];
    assert events[..1][..0] == [] && events[..2] == events;
    assert Run(s, events[..0]) == s;
    assert Run(s, events[..1]) == OnProposal(s, m1);
    NeverLeadsUnsent([0], 0, {[1], [2]}, Looking, events);
  }
}
