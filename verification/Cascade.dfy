// How many datagrams elections cost. There is no OK reply, so every ELECTION restarts the recipient's
// own election and the cascade is exponential in the number of nodes above the initiator.
module Cascade {
  import opened Ids
  import opened Peers
  import opened Network
  import opened Safety
  import Seqs

  function Pow2(n: nat): (p: nat)
    ensures p >= 1
  {
    if n == 0 then 1 else 2 * Pow2(n - 1)
  }

  // How many running nodes are above an id.
  function Rank(members: seq<Id>, id: Id): nat {
    if members == [] then 0
    else (if Less(id, members[0]) then 1 else 0) + Rank(members[1..], id)
  }

  lemma {:induction false} RankAt(members: seq<Id>, i: nat)
    requires Ascending(members) && i < |members|
    ensures Rank(members, members[i]) == |members| - 1 - i
  {
    Trichotomy(members[i], members[0]);
    if i > 0 {
      RankAt(members[1..], i - 1);
    } else {
      RankBelowAll(members[1..], members[0]);
    }
  }

  lemma {:induction false} RankBelowAll(members: seq<Id>, id: Id)
    requires forall m :: m in members ==> Less(id, m)
    ensures Rank(members, id) == |members|
  {
    if members != [] { RankBelowAll(members[1..], id); }
  }

  lemma {:induction false} RankConcat(a: seq<Id>, b: seq<Id>, id: Id)
    ensures Rank(a + b, id) == Rank(a, id) + Rank(b, id)
  {
    if a == [] {
      assert a + b == b;
    } else {
      assert (a + b)[1..] == a[1..] + b;
      RankConcat(a[1..], b, id);
    }
  }

  lemma {:induction false} RankIsCount(members: seq<Id>, id: Id, above: Id -> bool)
    requires forall m :: above(m) == Less(id, m)
    ensures Rank(members, id) == |Seqs.Filter(members, above)|
  {
    if members != [] {
      var n := |members| - 1;
      RankIsCount(members[..n], id, above);
      assert members == members[..n] + [members[n]] && [members[n]][1..] == [];
      RankConcat(members[..n], [members[n]], id);
    }
  }

  // --- Sums over the bag ---

  function Total(w: Packet -> nat, ps: seq<Packet>): nat {
    if ps == [] then 0 else w(ps[0]) + Total(w, ps[1..])
  }

  lemma {:induction false} TotalConcat(w: Packet -> nat, ps: seq<Packet>, qs: seq<Packet>)
    ensures Total(w, ps + qs) == Total(w, ps) + Total(w, qs)
  {
    if ps == [] {
      assert ps + qs == qs;
    } else {
      assert (ps + qs)[1..] == ps[1..] + qs;
      TotalConcat(w, ps[1..], qs);
    }
  }

  lemma {:induction false} TotalWithout(w: Packet -> nat, ps: seq<Packet>, i: nat)
    requires i < |ps|
    ensures Total(w, ps) == w(ps[i]) + Total(w, Without(ps, i))
  {
    if i == 0 {
      assert Without(ps, 0) == ps[1..];
    } else {
      TotalWithout(w, ps[1..], i - 1);
      assert Without(ps, i)[1..] == Without(ps[1..], i - 1);
    }
  }

  lemma {:induction false} TotalZero(w: Packet -> nat, ps: seq<Packet>)
    requires forall p :: p in ps ==> w(p) == 0
    ensures Total(w, ps) == 0
  {
    if ps != [] { TotalZero(w, ps[1..]); }
  }

  lemma {:induction false} TotalOnes(w: Packet -> nat, ps: seq<Packet>)
    requires forall p :: p in ps ==> w(p) == 1
    ensures Total(w, ps) == |ps|
  {
    if ps != [] { TotalOnes(w, ps[1..]); }
  }

  // --- The potential ---

  // 2^(number of nodes above the recipient) for an ELECTION, nothing for the rest.
  function ElectionWeight(members: seq<Id>): Packet -> nat {
    (p: Packet) => if p.msg.Election? then Pow2(Rank(members, p.dst)) else 0
  }

  function Potential(net: Net): nat {
    Total(ElectionWeight(net.members), net.flight)
  }

  function WeightOf(members: seq<Id>, ids: seq<Id>): nat {
    if ids == [] then 0 else Pow2(Rank(members, ids[0])) + WeightOf(members, ids[1..])
  }

  lemma {:induction false} WeightConcat(members: seq<Id>, xs: seq<Id>, ys: seq<Id>)
    ensures WeightOf(members, xs + ys) == WeightOf(members, xs) + WeightOf(members, ys)
  {
    if xs == [] {
      assert xs + ys == ys;
    } else {
      assert (xs + ys)[1..] == xs[1..] + ys;
      WeightConcat(members, xs[1..], ys);
    }
  }

  ghost predicate Distinct(ids: seq<Id>) {
    forall i, j :: 0 <= i < j < |ids| ==> ids[i] != ids[j]
  }

  lemma TakeOut(members: seq<Id>, ids: seq<Id>, q: nat) returns (rest: seq<Id>)
    requires q < |ids| && Distinct(ids)
    ensures Distinct(rest) && |rest| == |ids| - 1
    ensures forall d :: d in rest <==> d in ids && d != ids[q]
    ensures WeightOf(members, ids) == Pow2(Rank(members, ids[q])) + WeightOf(members, rest)
  {
    rest := ids[..q] + ids[q + 1..];
    assert ids == ids[..q] + ([ids[q]] + ids[q + 1..]);
    WeightConcat(members, ids[..q], [ids[q]] + ids[q + 1..]);
    WeightConcat(members, [ids[q]], ids[q + 1..]);
    WeightConcat(members, ids[..q], ids[q + 1..]);
    forall d | d in ids && d != ids[q] ensures d in rest {
      var r :| 0 <= r < |ids| && ids[r] == d;
      assert rest[if r < q then r else r - 1] == d;
    }
  }

  lemma HeadIsIn(ids: seq<Id>)
    ensures ids == [] || ids[0] in ids
  {
  }

  // The geometric sum: distinct nodes among members[j..] weigh at most 2^(|members|-j) - 1, and
  // exactly that when none of them is missing.
  lemma {:induction false} WeightOfDistinct(members: seq<Id>, j: nat, ids: seq<Id>)
    requires Ascending(members) && j <= |members| && Distinct(ids)
    requires forall d :: d in ids ==> d in members[j..]
    ensures WeightOf(members, ids) <= Pow2(|members| - j) - 1
    ensures (forall m :: m in members[j..] ==> m in ids) ==> WeightOf(members, ids) == Pow2(|members| - j) - 1
    decreases |members| - j
  {
    if j == |members| {
      HeadIsIn(ids);
      assert members[j..] == [];
    } else {
      var m := members[j];
      assert members[j..] == [m] + members[j + 1..];
      assert m in members[j..];
      RankAt(members, j);
      if m in ids {
        var q :| 0 <= q < |ids| && ids[q] == m;
        var rest := TakeOut(members, ids, q);
        assert m !in members[j + 1..] by { Trichotomy(m, m); }
        WeightOfDistinct(members, j + 1, rest);
      } else {
        WeightOfDistinct(members, j + 1, ids);
      }
    }
  }

  // --- Live clusters: only running nodes are known ---

  ghost predicate OnlyMembers(p: Peer, members: seq<Id>) {
    forall e :: e in p.table ==> e.id in members
  }

  // The node's table misses no running node above it.
  ghost predicate Complete(p: Peer, members: seq<Id>) {
    forall m :: m in members && Less(p.id, m) ==> exists e :: e in p.table && e.id == m
  }

  // A datagram that one running node sent to another: an ELECTION, a COORDINATOR or a HEARTBEAT.
  ghost predicate Traffic(p: Packet, members: seq<Id>) {
    && p.dst in members && !p.msg.Discover?
    && (p.msg.Election? ==> Less(p.msg.sender, p.dst))
  }

  ghost predicate Live(net: Net) {
    && Named(net)
    && (forall n :: n in net.nodes ==> OnlyMembers(net.nodes[n], net.members))
    && (forall p :: p in net.flight ==> Traffic(p, net.members))
  }

  // ELECTION and COORDINATOR are delivered exactly once, and only running nodes are heard of.
  // Heartbeats may be sent at any moment, and be lost or duplicated.
  predicate Reliable(net: Net, e: Event)
    requires Enabled(net, e)
  {
    match e
    case Learn(_, id, _) => id in net.members
    case Probe(_, id, _, _, _) => id in net.members
    case Drop(i) => net.flight[i].msg.Heartbeat?
    case Duplicate(i) => net.flight[i].msg.Heartbeat?
    case _ => true
  }

  lemma {:induction false} AboveIsDistinct(table: seq<Entry>, id: Id)
    requires DistinctIds(table)
    ensures Distinct(Above(table, id))
  {
    if table != [] {
      AboveIsDistinct(table[1..], id);
      var rest := Above(table[1..], id);
      assert forall d :: d in rest ==> exists e :: e in table[1..] && e.id == d;
    }
  }

  lemma {:induction false} ElectionPackets(members: seq<Id>, dsts: seq<Id>, sender: Id)
    ensures var ps := Post(members, ElectionCalls(dsts, sender));
      && (forall p :: p in ps ==> p.dst in dsts && p.msg == Election(sender))
      && (dsts != [] ==> ps != [])
      && Total(ElectionWeight(members), ps) == WeightOf(members, dsts)
  {
    if dsts != [] {
      assert ElectionCalls(dsts, sender)[1..] == ElectionCalls(dsts[1..], sender);
      ElectionPackets(members, dsts[1..], sender);
    }
  }

  lemma BroadcastPackets(members: seq<Id>, leader: Id)
    ensures Post(members, [Broadcast(Coordinator(leader))]) == ToAll(members, Coordinator(leader))
  {
  }

  // The weight of the running nodes a table lists above its owner, of which there are k: at most
  // 2^k - 1, and exactly that if the table is complete.
  lemma HigherWeight(p: Peer, members: seq<Id>)
    requires Ascending(members) && p.id in members && ValidTable(p.table) && OnlyMembers(p, members)
    ensures WeightOf(members, Above(p.table, p.id)) <= Pow2(Rank(members, p.id)) - 1
    ensures Complete(p, members) ==> WeightOf(members, Above(p.table, p.id)) == Pow2(Rank(members, p.id)) - 1
  {
    var i :| 0 <= i < |members| && members[i] == p.id;
    RankAt(members, i);
    AboveIsDistinct(p.table, p.id);
    AboveIsSuffix(p, members, i);
    WeightOfDistinct(members, i + 1, Above(p.table, p.id));
  }

  lemma AboveIsSuffix(p: Peer, members: seq<Id>, i: nat)
    requires Ascending(members) && i < |members| && members[i] == p.id && OnlyMembers(p, members)
    ensures forall d :: d in Above(p.table, p.id) ==> d in members[i + 1..]
    ensures Complete(p, members) ==> forall m :: m in members[i + 1..] ==> m in Above(p.table, p.id)
  {
    forall d | d in Above(p.table, p.id) ensures d in members[i + 1..] {
      var r :| 0 <= r < |members| && members[r] == d;
      Trichotomy(p.id, d);
      assert r > i;
      assert members[i + 1..][r - i - 1] == d;
    }
    if Complete(p, members) {
      forall m | m in members[i + 1..] ensures m in Above(p.table, p.id) {
        var r :| 0 <= r < |members| - i - 1 && members[i + 1..][r] == m;
        assert Less(members[i], members[r + i + 1]);
      }
    }
  }

  // One run of start_election puts that weight in flight.
  lemma ElectWeight(p: Peer, members: seq<Id>)
    requires Ascending(members) && p.id in members && ValidTable(p.table) && OnlyMembers(p, members)
    ensures Total(ElectionWeight(members), Post(members, Elect(p).sends)) <= Pow2(Rank(members, p.id)) - 1
    ensures Complete(p, members) ==>
              Total(ElectionWeight(members), Post(members, Elect(p).sends)) == Pow2(Rank(members, p.id)) - 1
    ensures forall x :: x in Post(members, Elect(p).sends) ==> Traffic(x, members)
  {
    var higher := Above(p.table, p.id);
    HigherWeight(p, members);
    if higher == [] {
      BroadcastPackets(members, p.id);
      TotalZero(ElectionWeight(members), ToAll(members, Coordinator(p.id)));
    } else {
      ElectionPackets(members, higher, p.id);
    }
  }

  // --- The account of a run ---

  // 1 for the delivery of an ELECTION.
  function ElectionsHandled(net: Net, e: Event): nat
    requires Enabled(net, e)
  {
    if e.Deliver? && net.flight[e.i].msg.Election? then 1 else 0
  }

  // A health check of the run starts an election.
  predicate Starts(net: Net, e: Event)
    requires Enabled(net, e)
  {
    e.Check? && Suspects(net.nodes[e.n], e.now, e.patience)
  }

  // 2^k - 1 for an election that a health check starts at a node with k running nodes above it.
  function StartCost(net: Net, e: Event): nat
    requires Enabled(net, e)
  {
    if Starts(net, e) then Pow2(Rank(net.members, e.n)) - 1 else 0
  }

  ghost predicate AllComplete(net: Net) {
    forall n :: n in net.nodes ==> Complete(net.nodes[n], net.members)
  }

  ghost predicate ReliableRun(net: Net, es: seq<Event>) {
    && IsRun(net, es)
    && (es == [] ||
        (ReliableRun(net, es[..|es| - 1]) && Reliable(After(net, es[..|es| - 1]), es[|es| - 1])))
  }

  lemma UpdateStaysLive(net: Net, n: Id, o: Outcome)
    requires Live(net) && n in net.nodes && Keeps(net.nodes[n], o.peer) && OnlyMembers(o.peer, net.members)
    requires forall x :: x in Post(net.members, o.sends) ==> Traffic(x, net.members)
    ensures Live(Update(net, n, o))
  {
    UpdateKeepsNames(net, n, o);
  }

  lemma CoordinatorKeepsMembers(p: Peer, leader: Id, members: seq<Id>)
    requires OnlyMembers(p, members)
    ensures OnlyMembers(OnCoordinator(p, leader), members)
  {
    var t := OnCoordinator(p, leader).table;
    forall e | e in t ensures e.id in members {
      var i :| 0 <= i < |t| && t[i] == e;
      assert p.table[i] in p.table;
    }
  }

  lemma UpsertKeepsMembers(p: Peer, id: Id, healthy: bool, resolved: bool, now: int, members: seq<Id>)
    requires OnlyMembers(p, members) && id in members
    ensures OnlyMembers(OnDiscover(p, id, now), members) && OnlyMembers(OnProbe(p, id, healthy, resolved, now), members)
  {
  }

  lemma HeartbeatKeepsMembers(p: Peer, sender: Id, isLeader: int, now: int, members: seq<Id>)
    requires OnlyMembers(p, members)
    ensures OnlyMembers(OnHeartbeat(p, sender, isLeader, now), members)
  {
    var t := OnHeartbeat(p, sender, isLeader, now).table;
    forall e | e in t ensures e.id in members {
      var i :| 0 <= i < |t| && t[i] == e;
      assert p.table[i] in p.table;
    }
  }

  // A heartbeat round is traffic of no weight.
  lemma BeatTraffic(p: Peer, members: seq<Id>)
    requires OnlyMembers(p, members)
    ensures forall x :: x in Post(members, Peers.Beat(p)) ==> Traffic(x, members) && x.msg.Heartbeat?
    ensures Total(ElectionWeight(members), Post(members, Peers.Beat(p))) == 0
  {
    BeatPackets(p.table, p.id, if p.role == Leader then 1 else 0, members);
    TotalZero(ElectionWeight(members), Post(members, Peers.Beat(p)));
  }

  lemma {:induction false} BeatPackets(table: seq<Entry>, self: Id, isLeader: int, members: seq<Id>)
    requires forall e :: e in table ==> e.id in members
    ensures forall x :: x in Post(members, BeatTo(table, self, isLeader)) ==> x.dst in members && x.msg.Heartbeat?
  {
    if table != [] {
      BeatPackets(table[1..], self, isLeader, members);
      assert table[0] in table;
      var rest := BeatTo(table[1..], self, isLeader);
      if table[0].id != self {
        var first := ToNode(table[0].id, Heartbeat(self, isLeader));
        assert ([first] + rest)[1..] == rest;
      } else {
        assert [] + rest == rest;
      }
    }
  }

  lemma WithoutStaysLive(net: Net, i: nat)
    requires Live(net) && i < |net.flight|
    ensures Live(net.(flight := Without(net.flight, i)))
    ensures Potential(net) ==
            ElectionWeight(net.members)(net.flight[i]) + Potential(net.(flight := Without(net.flight, i)))
  {
    TotalWithout(ElectionWeight(net.members), net.flight, i);
    assert forall p :: p in Without(net.flight, i) ==> p in net.flight;
  }

  lemma PostPotential(net: Net, n: Id, o: Outcome)
    ensures Potential(Update(net, n, o)) ==
            Potential(net) + Total(ElectionWeight(net.members), Post(net.members, o.sends))
  {
    TotalConcat(ElectionWeight(net.members), net.flight, Post(net.members, o.sends));
  }

  lemma SilentAccount(net: Net, n: Id, q: Peer)
    requires Live(net) && n in net.nodes && Keeps(net.nodes[n], q) && OnlyMembers(q, net.members)
    ensures Live(Update(net, n, Outcome(q, []))) && Potential(Update(net, n, Outcome(q, []))) == Potential(net)
  {
    PostPotential(net, n, Outcome(q, []));
    UpdateStaysLive(net, n, Outcome(q, []));
  }

  lemma ElectAccount(net: Net, n: Id)
    requires Live(net) && n in net.nodes
    ensures Live(Update(net, n, Elect(net.nodes[n])))
    ensures Potential(Update(net, n, Elect(net.nodes[n]))) <= Potential(net) + Pow2(Rank(net.members, n)) - 1
    ensures Complete(net.nodes[n], net.members) ==>
              Potential(Update(net, n, Elect(net.nodes[n]))) == Potential(net) + Pow2(Rank(net.members, n)) - 1
  {
    ElectWeight(net.nodes[n], net.members);
    ElectKeeps(net.nodes[n]);
    PostPotential(net, n, Elect(net.nodes[n]));
    UpdateStaysLive(net, n, Elect(net.nodes[n]));
  }

  lemma DeliverAccount(net: Net, i: nat, now: int)
    requires Live(net) && i < |net.flight| && net.flight[i].dst in net.nodes
    ensures var net' := Step(net, Deliver(i, now));
      && Live(net')
      && Potential(net') + (if net.flight[i].msg.Election? then 1 else 0) <= Potential(net)
      && (AllComplete(net) ==> Potential(net') + (if net.flight[i].msg.Election? then 1 else 0) == Potential(net))
  {
    var p := net.flight[i];
    var rest := net.(flight := Without(net.flight, i));
    var o := Handle(net.nodes[p.dst], p.msg, now);
    WithoutStaysLive(net, i);
    assert Traffic(p, net.members);
    HandleKeeps(net.nodes[p.dst], p.msg, now);
    if p.msg.Coordinator? {
      CoordinatorKeepsMembers(net.nodes[p.dst], p.msg.leader, net.members);
      SilentAccount(rest, p.dst, o.peer);
    } else if p.msg.Heartbeat? {
      HeartbeatKeepsMembers(net.nodes[p.dst], p.msg.sender, p.msg.isLeader, now, net.members);
      SilentAccount(rest, p.dst, o.peer);
    } else {
      ElectAccount(rest, p.dst);
    }
  }

  // Sending, losing and duplicating heartbeats moves no weight.
  lemma BeatEventAccount(net: Net, e: Event)
    requires Live(net) && Enabled(net, e) && Reliable(net, e) && (e.Beat? || e.Drop? || e.Duplicate?)
    ensures Live(Step(net, e)) && Potential(Step(net, e)) == Potential(net)
  {
    match e
    case Beat(n) =>
      BeatTraffic(net.nodes[n], net.members);
      PostPotential(net, n, Outcome(net.nodes[n], Peers.Beat(net.nodes[n])));
      UpdateStaysLive(net, n, Outcome(net.nodes[n], Peers.Beat(net.nodes[n])));
    case Drop(i) =>
      WithoutStaysLive(net, i);
    case Duplicate(i) =>
      assert net.flight[i] in net.flight;
      TotalConcat(ElectionWeight(net.members), net.flight, [net.flight[i]]);
  }

  lemma TableEventAccount(net: Net, e: Event)
    requires Live(net) && Enabled(net, e) && Reliable(net, e) && (e.Learn? || e.Probe?)
    ensures Live(Step(net, e)) && Potential(Step(net, e)) == Potential(net)
  {
    var p := net.nodes[e.n];
    UpsertKeepsMembers(p, e.id, e.Learn? || e.healthy, e.Learn? || e.resolved, e.now, net.members);
    if e.Learn? {
      HandleKeeps(p, Discover(e.id), e.now);
      SilentAccount(net, e.n, OnDiscover(p, e.id, e.now));
    } else {
      ProbeKeeps(p, e.id, e.healthy, e.resolved, e.now);
      SilentAccount(net, e.n, OnProbe(p, e.id, e.healthy, e.resolved, e.now));
    }
  }

  lemma CheckAccount(net: Net, e: Event)
    requires Live(net) && Enabled(net, e) && e.Check?
    ensures Live(Step(net, e)) && Potential(Step(net, e)) <= Potential(net) + StartCost(net, e)
    ensures AllComplete(net) ==> Potential(Step(net, e)) == Potential(net) + StartCost(net, e)
  {
    if Starts(net, e) {
      ElectAccount(net, e.n);
    } else {
      SilentAccount(net, e.n, net.nodes[e.n]);
    }
  }

  // Weight in flight plus ELECTIONs handled never exceeds what the started elections paid in, and is
  // conserved exactly when tables are complete: delivering one ELECTION lowers the weight by exactly 1.
  lemma StepAccount(net: Net, e: Event)
    requires Live(net) && Enabled(net, e) && Reliable(net, e)
    ensures Live(Step(net, e))
    ensures Potential(Step(net, e)) + ElectionsHandled(net, e) <= Potential(net) + StartCost(net, e)
    ensures AllComplete(net) ==>
              Potential(Step(net, e)) + ElectionsHandled(net, e) == Potential(net) + StartCost(net, e)
  {
    match e
    case Check(_, _, _) => CheckAccount(net, e);
    case Learn(_, _, _) => TableEventAccount(net, e);
    case Probe(_, _, _, _, _) => TableEventAccount(net, e);
    case Deliver(i, now) => DeliverAccount(net, i, now);
    case Beat(_) => BeatEventAccount(net, e);
    case Drop(_) => BeatEventAccount(net, e);
    case Duplicate(_) => BeatEventAccount(net, e);
  }

  lemma StepStaysComplete(net: Net, e: Event)
    requires Named(net) && Enabled(net, e) && AllComplete(net)
    ensures AllComplete(Step(net, e))
  {
    StepKeepsNames(net, e);
    forall n, m | n in net.nodes && m in net.members && Less(n, m)
      ensures exists x :: x in Step(net, e).nodes[n].table && x.id == m
    {
      var x :| x in net.nodes[n].table && x.id == m;
      var i :| 0 <= i < |net.nodes[n].table| && net.nodes[n].table[i] == x;
      assert Step(net, e).nodes[n].table[i] in Step(net, e).nodes[n].table;
    }
  }

  ghost function Handled(net: Net, es: seq<Event>): nat
    requires IsRun(net, es)
  {
    if es == [] then 0
    else Handled(net, es[..|es| - 1]) + ElectionsHandled(After(net, es[..|es| - 1]), es[|es| - 1])
  }

  // Whether the k-th event of a run delivers an ELECTION.
  ghost predicate HandlesAt(net: Net, es: seq<Event>, handles: nat -> bool, k: nat)
    requires k < |es|
  {
    && IsRun(net, es[..k])
    && var flight := After(net, es[..k]).flight;
       handles(k) == (es[k].Deliver? && es[k].i < |flight| && flight[es[k].i].msg.Election?)
  }

  lemma HandlesBefore(net: Net, es: seq<Event>, handles: nat -> bool, n: nat, k: nat)
    requires k < n <= |es| && HandlesAt(net, es, handles, k)
    ensures HandlesAt(net, es[..n], handles, k)
  {
    assert es[..n][..k] == es[..k];
  }

  // The ELECTIONs handled are the events that deliver one.
  lemma {:induction false} HandledIsCount(net: Net, es: seq<Event>, handles: nat -> bool)
    requires IsRun(net, es) && forall k: nat :: k < |es| ==> HandlesAt(net, es, handles, k)
    ensures Handled(net, es) == |set k: nat | k < |es| && handles(k)|
  {
    if es == [] {
      assert (set k: nat | k < 0 && handles(k)) == {};
    } else {
      var n := |es| - 1;
      forall k: nat | k < n ensures HandlesAt(net, es[..n], handles, k) { HandlesBefore(net, es, handles, n, k); }
      HandledIsCount(net, es[..n], handles);
      Seqs.OneMore(handles, n);
      assert HandlesAt(net, es, handles, n);
    }
  }

  ghost function Paid(net: Net, es: seq<Event>): nat
    requires IsRun(net, es)
  {
    if es == [] then 0
    else Paid(net, es[..|es| - 1]) + StartCost(After(net, es[..|es| - 1]), es[|es| - 1])
  }

  // The exact cost of elections over whole runs, for any delivery order and any number of elections.
  lemma {:induction false} RunAccount(net: Net, es: seq<Event>)
    requires Live(net) && ReliableRun(net, es)
    ensures Live(After(net, es)) && After(net, es).members == net.members
    ensures Potential(After(net, es)) + Handled(net, es) <= Potential(net) + Paid(net, es)
    ensures AllComplete(net) ==> AllComplete(After(net, es))
    ensures AllComplete(net) ==> Potential(After(net, es)) + Handled(net, es) == Potential(net) + Paid(net, es)
  {
    if es != [] {
      var init := es[..|es| - 1];
      RunAccount(net, init);
      StepAccount(After(net, init), es[|es| - 1]);
      if AllComplete(net) {
        StepStaysComplete(After(net, init), es[|es| - 1]);
      }
    }
  }

  ghost predicate ElectionPending(net: Net) {
    exists p :: p in net.flight && p.msg.Election?
  }

  lemma NothingWeighs(net: Net)
    requires !ElectionPending(net)
    ensures Potential(net) == 0
  {
    TotalZero(ElectionWeight(net.members), net.flight);
  }

  ghost predicate NoneStarted(net: Net, es: seq<Event>)
    requires IsRun(net, es)
  {
    es == [] || (NoneStarted(net, es[..|es| - 1]) && !Starts(After(net, es[..|es| - 1]), es[|es| - 1]))
  }

  // One election, started at a node with k running nodes above it: once no ELECTION is in flight any
  // more, exactly 2^k - 1 of them have been handled.
  lemma OneElectionCost(net: Net, check: Event, es: seq<Event>)
    requires Live(net) && AllComplete(net) && !ElectionPending(net)
    requires Enabled(net, check) && Starts(net, check)
    requires ReliableRun(Step(net, check), es) && NoneStarted(Step(net, check), es)
    requires !ElectionPending(After(Step(net, check), es))
    ensures Handled(Step(net, check), es) == Pow2(Rank(net.members, check.n)) - 1
  {
    StepAccount(net, check);
    StepStaysComplete(net, check);
    RunAccount(Step(net, check), es);
    NothingPaid(Step(net, check), es);
    NothingWeighs(net);
    NothingWeighs(After(Step(net, check), es));
  }

  lemma {:induction false} NothingPaid(net: Net, es: seq<Event>)
    requires IsRun(net, es) && NoneStarted(net, es)
    ensures Paid(net, es) == 0
  {
    if es != [] { NothingPaid(net, es[..|es| - 1]); }
  }

  // --- Termination ---

  function CoordinatorWeight(): Packet -> nat {
    (p: Packet) => if p.msg.Coordinator? then 1 else 0
  }

  function Announcements(net: Net): nat {
    Total(CoordinatorWeight(), net.flight)
  }

  // Handling an ELECTION may announce a leader to every node, but only at the price of weight.
  function Mass(net: Net): nat {
    (|net.members| + 1) * Potential(net) + Announcements(net)
  }

  lemma {:induction false} ElectionsAreNoAnnouncements(members: seq<Id>, dsts: seq<Id>, sender: Id)
    ensures Total(CoordinatorWeight(), Post(members, ElectionCalls(dsts, sender))) == 0
  {
    ElectionPackets(members, dsts, sender);
    TotalZero(CoordinatorWeight(), Post(members, ElectionCalls(dsts, sender)));
  }

  lemma ElectAnnouncements(p: Peer, members: seq<Id>)
    ensures Total(CoordinatorWeight(), Post(members, Elect(p).sends)) <= |members|
  {
    if Above(p.table, p.id) == [] {
      BroadcastPackets(members, p.id);
      TotalOnes(CoordinatorWeight(), ToAll(members, Coordinator(p.id)));
    } else {
      ElectionsAreNoAnnouncements(members, Above(p.table, p.id), p.id);
    }
  }

  lemma PostAnnouncements(net: Net, n: Id, o: Outcome)
    ensures Announcements(Update(net, n, o)) ==
            Announcements(net) + Total(CoordinatorWeight(), Post(net.members, o.sends))
  {
    TotalConcat(CoordinatorWeight(), net.flight, Post(net.members, o.sends));
  }

  // 1 for the delivery of an ELECTION or a COORDINATOR.
  function Delivers(net: Net, e: Event): nat
    requires Enabled(net, e)
  {
    if e.Deliver? && (net.flight[e.i].msg.Election? || net.flight[e.i].msg.Coordinator?) then 1 else 0
  }

  // At most how many announcements a step sends.
  function MayAnnounce(net: Net, e: Event): nat
    requires Enabled(net, e)
  {
    if ElectionsHandled(net, e) == 1 || Starts(net, e) then |net.members| else 0
  }

  lemma BeatEventAnnouncements(net: Net, e: Event)
    requires Live(net) && Enabled(net, e) && Reliable(net, e) && (e.Beat? || e.Drop? || e.Duplicate?)
    ensures Announcements(Step(net, e)) == Announcements(net)
  {
    match e
    case Beat(n) =>
      BeatTraffic(net.nodes[n], net.members);
      TotalZero(CoordinatorWeight(), Post(net.members, Peers.Beat(net.nodes[n])));
      PostAnnouncements(net, n, Outcome(net.nodes[n], Peers.Beat(net.nodes[n])));
    case Drop(i) =>
      TotalWithout(CoordinatorWeight(), net.flight, i);
    case Duplicate(i) =>
      TotalConcat(CoordinatorWeight(), net.flight, [net.flight[i]]);
  }

  lemma DeliverAnnouncements(net: Net, i: nat, now: int)
    requires Live(net) && i < |net.flight| && net.flight[i].dst in net.nodes
    ensures Announcements(Step(net, Deliver(i, now))) + Delivers(net, Deliver(i, now)) <=
            Announcements(net) + (if net.flight[i].msg.Election? then |net.members| + 1 else 0)
  {
    var p := net.flight[i];
    assert Traffic(p, net.members);
    TotalWithout(CoordinatorWeight(), net.flight, i);
    PostAnnouncements(net.(flight := Without(net.flight, i)), p.dst, Handle(net.nodes[p.dst], p.msg, now));
    if p.msg.Election? {
      ElectAnnouncements(net.nodes[p.dst], net.members);
    } else {
      NothingSent(net.nodes[p.dst], p.msg, now);
    }
  }

  lemma NothingSent(p: Peer, msg: Msg, now: int)
    ensures !msg.Election? ==> Handle(p, msg, now).sends == []
  {
  }

  lemma StepAnnouncements(net: Net, e: Event)
    requires Live(net) && Enabled(net, e) && Reliable(net, e)
    ensures Announcements(Step(net, e)) + Delivers(net, e) <=
            Announcements(net) + MayAnnounce(net, e) + ElectionsHandled(net, e)
  {
    match e
    case Check(n, now, patience) =>
      ElectAnnouncements(net.nodes[n], net.members);
      PostAnnouncements(net, n, CheckLeader(net.nodes[n], now, patience));
    case Learn(n, id, now) => PostAnnouncements(net, n, Outcome(OnDiscover(net.nodes[n], id, now), []));
    case Probe(n, id, healthy, resolved, now) =>
      PostAnnouncements(net, n, Outcome(OnProbe(net.nodes[n], id, healthy, resolved, now), []));
    case Deliver(i, now) => DeliverAnnouncements(net, i, now);
    case Beat(_) => BeatEventAnnouncements(net, e);
    case Drop(_) => BeatEventAnnouncements(net, e);
    case Duplicate(_) => BeatEventAnnouncements(net, e);
  }

  // What one started election may add to the mass.
  function StartMass(net: Net, e: Event): nat
    requires Enabled(net, e)
  {
    if Starts(net, e)
    then (|net.members| + 1) * Pow2(Rank(net.members, e.n)) else 0
  }

  lemma Scaled(k: nat, b: nat, c: nat)
    requires b + 1 <= c
    ensures k * b + k <= k * c
  {
    var d := c - (b + 1);
    calc {
      k * c;
      k * (b + 1 + d);
      k * b + k + k * d;
    }
    assert k * d >= 0;
  }

  lemma Distributes(k: nat, a: nat, w: nat)
    ensures k * (a + w) == k * a + k * w
  {
  }

  // The arithmetic of one step: potential a becomes b, announcements c become d.
  lemma MassFalls(n: nat, a: nat, b: nat, c: nat, d: nat, w: nat, handled: bool, started: bool, delivered: bool)
    requires !(handled && started) && (handled ==> delivered) && w >= 1
    requires b + (if handled then 1 else 0) <= a + (if started then w - 1 else 0)
    requires d + (if delivered then 1 else 0) <=
             c + (if handled || started then n else 0) + (if handled then 1 else 0)
    ensures (n + 1) * b + d + (if delivered then 1 else 0) <= (n + 1) * a + c + (if started then (n + 1) * w else 0)
  {
    if handled {
      Scaled(n + 1, b, a);
    } else if started {
      Scaled(n + 1, b, a + w);
      Distributes(n + 1, a, w);
    } else if b < a {
      Scaled(n + 1, b, a);
    }
  }

  lemma StepLosesMass(net: Net, e: Event)
    requires Live(net) && Enabled(net, e) && Reliable(net, e)
    ensures Mass(Step(net, e)) + Delivers(net, e) <= Mass(net) + StartMass(net, e)
  {
    StepAccount(net, e);
    StepAnnouncements(net, e);
    StepKeepsNames(net, e);
    MassFalls(|net.members|, Potential(net), Potential(Step(net, e)), Announcements(net), Announcements(Step(net, e)),
              if Starts(net, e) then Pow2(Rank(net.members, e.n)) else 1,
              ElectionsHandled(net, e) == 1, Starts(net, e), Delivers(net, e) == 1);
  }

  ghost function Deliveries(net: Net, es: seq<Event>): nat
    requires IsRun(net, es)
  {
    if es == [] then 0
    else Deliveries(net, es[..|es| - 1]) + Delivers(After(net, es[..|es| - 1]), es[|es| - 1])
  }

  ghost function Started(net: Net, es: seq<Event>): nat
    requires IsRun(net, es)
  {
    if es == [] then 0
    else Started(net, es[..|es| - 1]) + StartMass(After(net, es[..|es| - 1]), es[|es| - 1])
  }

  // Every election ends: the number of ELECTIONs and COORDINATORs delivered is bounded by the elections
  // that were started, (N + 1) * 2^k for each one started at a node with k of the N running nodes above it.
  lemma {:induction false} DeliveriesAreBounded(net: Net, es: seq<Event>)
    requires Live(net) && ReliableRun(net, es)
    ensures Deliveries(net, es) + Mass(After(net, es)) <= Mass(net) + Started(net, es)
  {
    if es != [] {
      var init := es[..|es| - 1];
      RunAccount(net, init);
      DeliveriesAreBounded(net, init);
      StepLosesMass(After(net, init), es[|es| - 1]);
    }
  }
}
