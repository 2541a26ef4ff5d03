// When elections end with the greatest running node as the leader everybody agrees on.
module Convergence {
  import opened Ids
  import opened Peers
  import opened Network
  import opened Safety
  import opened Cascade

  function Max(net: Net): Id
    requires net.members != []
  {
    Top(net.members)
  }

  ghost predicate KnowsMax(net: Net, n: Id)
    requires net.members != [] && n in net.nodes
  {
    exists e :: e in net.nodes[n].table && e.id == Max(net)
  }

  // No ELECTION and no COORDINATOR is in flight; heartbeats may be.
  ghost predicate Idle(net: Net) {
    forall p :: p in net.flight ==> !p.msg.Election? && !p.msg.Coordinator?
  }

  // No election is under way and nobody leads.
  ghost predicate Rested(net: Net) {
    Idle(net) && forall n :: n in net.nodes ==> net.nodes[n].role == Follower
  }

  // The daemons as they start: rested and with no flag set.
  ghost predicate Quiescent(net: Net) {
    && Rested(net)
    && (forall n, e :: n in net.nodes && e in net.nodes[n].table ==> e.isLeader == 0)
  }

  // Every node but the greatest knows some running node above it.
  ghost predicate Climbable(net: Net)
    requires net.members != []
  {
    forall n :: n in net.nodes && n != Max(net) ==> KnowsHigher(net.nodes[n])
  }

  // Some health check of the run started an election.
  ghost predicate Began(net: Net, es: seq<Event>)
    requires IsRun(net, es)
  {
    es != [] &&
    (Began(net, es[..|es| - 1]) ||
     Starts(After(net, es[..|es| - 1]), es[|es| - 1]))
  }

  // The greatest node leads and all others follow.
  ghost predicate OneLeads(net: Net)
    requires net.members != []
  {
    forall n :: n in net.nodes ==> net.nodes[n].role == if n == Max(net) then Leader else Follower
  }

  // And only the greatest is flagged anywhere else.
  ghost predicate Elected(net: Net)
    requires net.members != []
  {
    && OneLeads(net)
    && (forall n, e :: n in net.nodes && n != Max(net) && e in net.nodes[n].table && e.isLeader != 0 ==>
          e.id == Max(net))
  }

  // --- The invariant ---

  // Whether the flags are watched besides the roles, and the nodes that know the greatest from the start.
  datatype Watch = Watch(flags: bool, informed: set<Id>)

  ghost predicate Core(net: Net, w: Watch) {
    && Live(net) && Climbable(net)
    && (forall p :: p in net.flight && p.msg.Coordinator? ==> p.msg.leader == Max(net))
    && (forall n :: n in net.nodes && net.nodes[n].role == Leader ==> n == Max(net))
    && (forall n :: n in w.informed ==> n in net.nodes && KnowsMax(net, n))
  }

  ghost predicate AnnouncementPending(net: Net, n: Id) {
    exists p :: p in net.flight && p.msg.Coordinator? && p.dst == n
  }

  // The node flags nobody but the greatest, and does flag it if it is among the informed.
  ghost predicate FlagsSettled(net: Net, n: Id, w: Watch)
    requires net.members != [] && n in net.nodes
  {
    && (forall e :: e in net.nodes[n].table && e.isLeader != 0 ==> e.id == Max(net))
    && (n in w.informed ==> exists e :: e in net.nodes[n].table && e.isLeader != 0)
  }

  ghost predicate Settled(net: Net, n: Id, w: Watch)
    requires net.members != [] && n in net.nodes
  {
    net.nodes[n].role == Follower && (w.flags ==> FlagsSettled(net, n, w))
  }

  // The greatest node leads; each other node has settled or its announcement is on the way.
  ghost predicate Settling(net: Net, w: Watch)
    requires net.members != [] && Max(net) in net.nodes
  {
    && net.nodes[Max(net)].role == Leader
    && forall n :: n in net.nodes && n != Max(net) ==> AnnouncementPending(net, n) || Settled(net, n, w)
  }

  ghost predicate Progressing(net: Net, w: Watch) {
    Named(net) && (ElectionPending(net) || Settling(net, w))
  }

  lemma MaxKnowsNoneHigher(net: Net)
    requires Live(net)
    ensures Max(net) in net.nodes && !KnowsHigher(net.nodes[Max(net)])
  {
    var p := net.nodes[Max(net)];
    forall e | e in p.table ensures !Less(p.id, e.id) {
      TopIsGreatest(net.members, e.id);
    }
  }

  lemma GrowthKeepsKnowledge(net: Net, n: Id, q: Peer)
    requires Live(net) && n in net.nodes && Keeps(net.nodes[n], q)
    ensures KnowsHigher(net.nodes[n]) ==> KnowsHigher(q)
    ensures KnowsMax(net, n) ==> exists e :: e in q.table && e.id == Max(net)
  {
    var p := net.nodes[n];
    if KnowsHigher(p) { KnowledgeIsKept(p, q); }
    if KnowsMax(net, n) {
      var i :| 0 <= i < |p.table| && p.table[i].id == Max(net);
      assert q.table[i] in q.table;
    }
  }

  lemma UpdateStaysClimbable(net: Net, n: Id, o: Outcome, w: Watch)
    requires Core(net, w) && n in net.nodes && Keeps(net.nodes[n], o.peer)
    ensures Climbable(Update(net, n, o))
    ensures forall m :: m in w.informed ==> m in Update(net, n, o).nodes && KnowsMax(Update(net, n, o), m)
  {
    GrowthKeepsKnowledge(net, n, o.peer);
  }

  lemma UpdateKeepsCore(net: Net, n: Id, o: Outcome, w: Watch)
    requires Core(net, w) && n in net.nodes && Keeps(net.nodes[n], o.peer)
    requires OnlyMembers(o.peer, net.members)
    requires forall x :: x in Post(net.members, o.sends) ==>
               Traffic(x, net.members) && (x.msg.Coordinator? ==> x.msg.leader == Max(net))
    requires o.peer.role == Leader ==> n == Max(net)
    ensures Core(Update(net, n, o), w)
  {
    UpdateStaysLive(net, n, o);
    UpdateStaysClimbable(net, n, o, w);
  }

  lemma BroadcastReachesAll(net: Net, msg: Msg)
    requires Named(net)
    ensures forall n :: n in net.nodes ==> Packet(n, msg) in ToAll(net.members, msg)
  {
    forall n | n in net.nodes ensures Packet(n, msg) in ToAll(net.members, msg) {
      var i :| 0 <= i < |net.members| && net.members[i] == n;
      assert ToAll(net.members, msg)[i] == Packet(n, msg);
    }
  }

  lemma ElectKeepsCore(net: Net, n: Id, w: Watch)
    requires Core(net, w) && n in net.nodes
    ensures Core(Update(net, n, Elect(net.nodes[n])), w)
    ensures n == Max(net) || KnowsHigher(net.nodes[n])
    ensures n == Max(net) ==> !KnowsHigher(net.nodes[n])
  {
    var p := net.nodes[n];
    AboveEmptyIffNoneHigher(p);
    ElectKeeps(p);
    ElectWeight(p, net.members);
    MaxKnowsNoneHigher(net);
    if Above(p.table, p.id) == [] {
      BroadcastPackets(net.members, n);
    } else {
      ElectionPackets(net.members, Above(p.table, p.id), n);
    }
    UpdateKeepsCore(net, n, Elect(p), w);
  }

  // Whoever starts an election: below the top it calls somebody above, at the top it tells everybody.
  lemma ElectProgresses(net: Net, n: Id, w: Watch)
    requires Core(net, w) && n in net.nodes
    ensures var net' := Update(net, n, Elect(net.nodes[n])); Core(net', w) && Progressing(net', w)
  {
    var p := net.nodes[n];
    var net' := Update(net, n, Elect(p));
    ElectKeepsCore(net, n, w);
    AboveEmptyIffNoneHigher(p);
    if n == Max(net) {
      BroadcastPackets(net.members, n);
      BroadcastReachesAll(net, Coordinator(n));
      assert forall m :: m in net'.nodes ==> Packet(m, Coordinator(n)) in net'.flight;
    } else {
      ElectionPackets(net.members, Above(p.table, p.id), n);
      assert Post(net.members, Elect(p).sends)[0] in net'.flight;
    }
  }

  // Events that send nothing and leave roles and flags alone.
  ghost predicate SameFlags(p: Peer, q: Peer) {
    && q.role == p.role
    && (forall e :: e in q.table && e.isLeader != 0 ==> exists d :: d in p.table && d.id == e.id && d.isLeader != 0)
    && ((exists d :: d in p.table && d.isLeader != 0) ==> exists e :: e in q.table && e.isLeader != 0)
  }

  lemma SilentProgresses(net: Net, n: Id, q: Peer, w: Watch)
    requires Core(net, w) && n in net.nodes && Keeps(net.nodes[n], q) && OnlyMembers(q, net.members)
    requires q.role == net.nodes[n].role && (w.flags ==> SameFlags(net.nodes[n], q))
    ensures Core(Update(net, n, Outcome(q, [])), w)
    ensures Progressing(net, w) ==> Progressing(Update(net, n, Outcome(q, [])), w)
  {
    UpdateKeepsCore(net, n, Outcome(q, []), w);
    if Progressing(net, w) { SilentKeepsPhase(net, n, q, w); }
  }

  lemma SilentKeepsPhase(net: Net, n: Id, q: Peer, w: Watch)
    requires Progressing(net, w) && n in net.nodes
    requires q.role == net.nodes[n].role && (w.flags ==> SameFlags(net.nodes[n], q))
    requires Named(Update(net, n, Outcome(q, [])))
    ensures Progressing(Update(net, n, Outcome(q, [])), w)
  {
    var net' := Update(net, n, Outcome(q, []));
    assert net'.flight == net.flight;
    if !ElectionPending(net) {
      forall m | m in net'.nodes && m != Max(net') ensures AnnouncementPending(net', m) || Settled(net', m, w) {
        assert AnnouncementPending(net, m) || Settled(net, m, w);
        assert AnnouncementPending(net, m) ==> AnnouncementPending(net', m);
      }
    }
  }

  lemma GrownKeepsFlags(p: Peer, q: Peer)
    requires q.role == p.role && Grows(p.table, q.table)
    requires forall i :: 0 <= i < |q.table| ==> q.table[i].isLeader == if i < |p.table| then p.table[i].isLeader else 0
    ensures SameFlags(p, q)
  {
    forall e | e in q.table && e.isLeader != 0 ensures exists d :: d in p.table && d.id == e.id && d.isLeader != 0 {
      var i :| 0 <= i < |q.table| && q.table[i] == e;
      assert p.table[i] in p.table;
    }
    if d :| d in p.table && d.isLeader != 0 {
      var i :| 0 <= i < |p.table| && p.table[i] == d;
      assert q.table[i] in q.table;
    }
  }

  lemma LearnKeepsFlags(p: Peer, id: Id, now: int)
    ensures SameFlags(p, OnDiscover(p, id, now))
  {
    GrownKeepsFlags(p, OnDiscover(p, id, now));
  }

  lemma ProbeKeepsFlags(p: Peer, id: Id, healthy: bool, resolved: bool, now: int)
    ensures SameFlags(p, OnProbe(p, id, healthy, resolved, now))
  {
    GrownKeepsFlags(p, OnProbe(p, id, healthy, resolved, now));
  }

  // --- Delivery ---

  lemma RemovalKeepsCore(net: Net, i: nat, w: Watch)
    requires Core(net, w) && i < |net.flight|
    ensures Core(net.(flight := Without(net.flight, i)), w)
  {
    WithoutStaysLive(net, i);
    assert forall p :: p in Without(net.flight, i) ==> p in net.flight;
  }

  lemma CoordinatorKeepsCore(net: Net, n: Id, w: Watch)
    requires Core(net, w) && n in net.nodes
    ensures Core(Update(net, n, Outcome(OnCoordinator(net.nodes[n], Max(net)), [])), w)
  {
    HandleKeeps(net.nodes[n], Coordinator(Max(net)), 0);
    CoordinatorKeepsMembers(net.nodes[n], Max(net), net.members);
    UpdateKeepsCore(net, n, Outcome(OnCoordinator(net.nodes[n], Max(net)), []), w);
  }

  lemma CoordinatorFlags(p: Peer, leader: Id)
    requires p.id != leader
    ensures var q := OnCoordinator(p, leader);
      && q.role == Follower
      && (forall e :: e in q.table && e.isLeader != 0 ==> e.id == leader)
      && ((exists e :: e in p.table && e.id == leader) ==> exists e :: e in q.table && e.isLeader != 0)
  {
    var q := OnCoordinator(p, leader);
    if e :| e in p.table && e.id == leader {
      var i :| 0 <= i < |p.table| && p.table[i] == e;
      assert q.table[i] in q.table;
    }
  }

  lemma CoordinatorKeepsPhase(net: Net, i: nat, now: int, w: Watch)
    requires Progressing(net, w) && i < |net.flight| && net.flight[i].dst in net.nodes
    requires net.flight[i].msg == Coordinator(Max(net))
    requires forall n :: n in w.informed ==> n in net.nodes && KnowsMax(net, n)
    requires Named(Step(net, Deliver(i, now)))
    ensures Progressing(Step(net, Deliver(i, now)), w)
  {
    var x, net' := net.flight[i], Step(net, Deliver(i, now));
    assert net'.flight == Without(net.flight, i);
    if ElectionPending(net) {
      var p :| p in net.flight && p.msg.Election?;
      InWithout(net.flight, i, p);
    } else {
      if x.dst != Max(net) { CoordinatorFlags(net.nodes[x.dst], Max(net)); }
      forall m | m in net'.nodes && m != Max(net') && m != x.dst
        ensures AnnouncementPending(net', m) || Settled(net', m, w)
      {
        if AnnouncementPending(net, m) {
          var p :| p in net.flight && p.msg.Coordinator? && p.dst == m;
          InWithout(net.flight, i, p);
        } else {
          assert Settled(net, m, w);
        }
      }
    }
  }

  lemma CoordinatorProgresses(net: Net, i: nat, now: int, w: Watch)
    requires Core(net, w) && Progressing(net, w)
    requires i < |net.flight| && net.flight[i].dst in net.nodes && net.flight[i].msg.Coordinator?
    ensures Core(Step(net, Deliver(i, now)), w) && Progressing(Step(net, Deliver(i, now)), w)
  {
    assert net.flight[i] in net.flight;
    RemovalKeepsCore(net, i, w);
    CoordinatorKeepsCore(net.(flight := Without(net.flight, i)), net.flight[i].dst, w);
    CoordinatorKeepsPhase(net, i, now, w);
  }

  // Heartbeats that nobody understands are no part of an election.
  lemma NoiseProgresses(net: Net, e: Event, w: Watch)
    requires Core(net, w) && Enabled(net, e) && Reliable(net, e) && IsNoise(net, e)
    ensures Core(Step(net, e), w)
    ensures Progressing(net, w) ==> Progressing(Step(net, e), w)
    ensures Waiting(net, w) ==> Waiting(Step(net, e), w)
  {
    NoiseChangesBeatsOnly(net, e);
    StepAccount(net, e);
    SameButBeatsKeepsCore(net, Step(net, e), w);
    SameButBeatsKeepsPhase(net, Step(net, e), w);
  }

  lemma SameButBeatsKeepsCore(net: Net, net': Net, w: Watch)
    requires Core(net, w) && SameButBeats(net, net') && Live(net')
    ensures Core(net', w)
  {
  }

  lemma SameButBeatsKeepsPhase(net: Net, net': Net, w: Watch)
    requires SameButBeats(net, net') && net.members != []
    ensures Progressing(net, w) && Named(net') ==> Progressing(net', w)
    ensures Waiting(net, w) ==> Waiting(net', w)
  {
    if Progressing(net, w) && Named(net') && !ElectionPending(net) {
      forall m | m in net'.nodes && m != Max(net') ensures AnnouncementPending(net', m) || Settled(net', m, w) {
        assert AnnouncementPending(net, m) || Settled(net, m, w);
        assert AnnouncementPending(net, m) ==> AnnouncementPending(net', m);
      }
    }
  }

  // An accepted heartbeat may overwrite a flag, but it changes no role.
  lemma AcceptedProgresses(net: Net, i: nat, now: int, w: Watch)
    requires Core(net, w) && i < |net.flight| && net.flight[i].dst in net.nodes
    requires net.flight[i].msg.Heartbeat? && !Ignored(net.flight[i].msg) && !w.flags
    ensures Core(Step(net, Deliver(i, now)), w)
    ensures Progressing(net, w) ==> Progressing(Step(net, Deliver(i, now)), w)
  {
    var x := net.flight[i];
    var rest := net.(flight := Without(net.flight, i));
    var p := net.nodes[x.dst];
    WithoutBeat(net, i);
    RemovalKeepsCore(net, i, w);
    SameButBeatsKeepsPhase(net, rest, w);
    HandleKeeps(p, x.msg, now);
    HeartbeatKeepsMembers(p, x.msg.sender, x.msg.isLeader, now, net.members);
    SilentProgresses(rest, x.dst, OnHeartbeat(p, x.msg.sender, x.msg.isLeader, now), w);
  }

  lemma AcceptedStaysRested(net: Net, i: nat, now: int)
    requires Rested(net) && i < |net.flight| && net.flight[i].dst in net.nodes
    requires net.flight[i].msg.Heartbeat? && !Ignored(net.flight[i].msg)
    ensures Rested(Step(net, Deliver(i, now)))
  {
    var flight := Without(net.flight, i);
    assert Step(net, Deliver(i, now)).flight == flight + [];
    assert forall p :: p in flight ==> p in net.flight;
  }

  // From a started election on, every step keeps an ELECTION in flight or the cluster settling.
  lemma StepProgresses(net: Net, e: Event, w: Watch)
    requires Core(net, w) && Enabled(net, e) && Reliable(net, e) && (w.flags ==> !Accepts(net, e))
    requires Progressing(net, w) || Starts(net, e)
    ensures Core(Step(net, e), w) && Progressing(Step(net, e), w)
  {
    if IsNoise(net, e) {
      NoiseProgresses(net, e, w);
    } else if Accepts(net, e) {
      AcceptedProgresses(net, e.i, e.now, w);
    } else {
      match e
      case Check(n, _, _) =>
        if Starts(net, e) { ElectProgresses(net, n, w); }
        else { SilentProgresses(net, n, net.nodes[n], w); }
      case Learn(_, _, _) => TableEventProgresses(net, e, w);
      case Probe(_, _, _, _, _) => TableEventProgresses(net, e, w);
      case Deliver(i, now) => DeliveryProgresses(net, i, now, w);
    }
  }

  // An ELECTION on its way always comes from below, so its delivery is an election of the recipient.
  lemma DeliveredElection(net: Net, i: nat, now: int)
    requires Live(net) && i < |net.flight| && net.flight[i].dst in net.nodes && net.flight[i].msg.Election?
    ensures var rest := net.(flight := Without(net.flight, i));
      Step(net, Deliver(i, now)) == Update(rest, net.flight[i].dst, Elect(net.nodes[net.flight[i].dst]))
  {
    assert Traffic(net.flight[i], net.members);
  }

  lemma DeliveryProgresses(net: Net, i: nat, now: int, w: Watch)
    requires Core(net, w) && Progressing(net, w)
    requires i < |net.flight| && net.flight[i].dst in net.nodes && !net.flight[i].msg.Heartbeat?
    ensures Core(Step(net, Deliver(i, now)), w) && Progressing(Step(net, Deliver(i, now)), w)
  {
    NoDiscover(net, i);
    if net.flight[i].msg.Coordinator? {
      CoordinatorProgresses(net, i, now, w);
    } else {
      RemovalKeepsCore(net, i, w);
      ElectProgresses(net.(flight := Without(net.flight, i)), net.flight[i].dst, w);
      DeliveredElection(net, i, now);
    }
  }

  lemma NoDiscover(net: Net, i: nat)
    requires Live(net) && i < |net.flight|
    ensures !net.flight[i].msg.Discover?
  {
    assert net.flight[i] in net.flight;
  }

  lemma TableEventProgresses(net: Net, e: Event, w: Watch)
    requires Core(net, w) && Enabled(net, e) && Reliable(net, e) && (e.Learn? || e.Probe?)
    ensures Core(Step(net, e), w)
    ensures Progressing(net, w) ==> Progressing(Step(net, e), w)
  {
    var p := net.nodes[e.n];
    if e.Learn? {
      UpsertKeepsMembers(p, e.id, true, true, e.now, net.members);
      LearnKeepsFlags(p, e.id, e.now);
      HandleKeeps(p, Discover(e.id), e.now);
      SilentProgresses(net, e.n, OnDiscover(p, e.id, e.now), w);
    } else {
      UpsertKeepsMembers(p, e.id, e.healthy, e.resolved, e.now, net.members);
      ProbeKeepsFlags(p, e.id, e.healthy, e.resolved, e.now);
      ProbeKeeps(p, e.id, e.healthy, e.resolved, e.now);
      SilentProgresses(net, e.n, OnProbe(p, e.id, e.healthy, e.resolved, e.now), w);
    }
  }

  lemma TableEventStaysRested(net: Net, e: Event)
    requires Enabled(net, e) && (e.Learn? || e.Probe?) && Rested(net)
    ensures Rested(Step(net, e))
  {
  }

  lemma TableEventStaysQuiescent(net: Net, e: Event)
    requires Enabled(net, e) && (e.Learn? || e.Probe?) && Quiescent(net)
    ensures Quiescent(Step(net, e))
  {
    TableEventStaysRested(net, e);
    if e.Learn? {
      LearnKeepsFlags(net.nodes[e.n], e.id, e.now);
    } else {
      ProbeKeepsFlags(net.nodes[e.n], e.id, e.healthy, e.resolved, e.now);
    }
  }

  ghost predicate Waiting(net: Net, w: Watch) {
    if w.flags then Quiescent(net) else Rested(net)
  }

  ghost predicate Phase(net: Net, began: bool, w: Watch) {
    if began then Progressing(net, w) else Waiting(net, w)
  }

  // Before the first election: checks that start none, probes, discoveries and heartbeats.
  lemma StepStaysWaiting(net: Net, e: Event, w: Watch)
    requires Core(net, w) && Enabled(net, e) && Reliable(net, e) && (w.flags ==> !Accepts(net, e))
    requires Waiting(net, w) && !Starts(net, e)
    ensures Core(Step(net, e), w) && Waiting(Step(net, e), w)
  {
    if e.Deliver? { OnlyBeats(net, e.i); }
    if IsNoise(net, e) {
      NoiseProgresses(net, e, w);
    } else if Accepts(net, e) {
      AcceptedProgresses(net, e.i, e.now, w);
      AcceptedStaysRested(net, e.i, e.now);
    } else if e.Check? {
      SilentProgresses(net, e.n, net.nodes[e.n], w);
    } else {
      TableEventProgresses(net, e, w);
      TableEventStaysRested(net, e);
      if w.flags { TableEventStaysQuiescent(net, e); }
    }
  }

  lemma OnlyBeats(net: Net, i: nat)
    requires Live(net) && Idle(net) && i < |net.flight|
    ensures net.flight[i].msg.Heartbeat?
  {
    assert net.flight[i] in net.flight;
  }

  lemma StepKeepsPhase(net: Net, e: Event, began: bool, w: Watch)
    requires Core(net, w) && Enabled(net, e) && Reliable(net, e) && (w.flags ==> !Accepts(net, e))
    requires Phase(net, began, w)
    ensures Core(Step(net, e), w)
    ensures Phase(Step(net, e), began || Starts(net, e), w)
  {
    if began || Starts(net, e) {
      StepProgresses(net, e, w);
    } else {
      StepStaysWaiting(net, e, w);
    }
  }

  lemma {:induction false} RunProgresses(net: Net, es: seq<Event>, w: Watch)
    requires Core(net, w) && Waiting(net, w) && ReliableRun(net, es) && (w.flags ==> NoneAccepted(net, es))
    ensures Core(After(net, es), w) && After(net, es).members == net.members
    ensures Phase(After(net, es), Began(net, es), w)
  {
    if es != [] {
      var init := es[..|es| - 1];
      RunProgresses(net, init, w);
      StepKeepsNames(After(net, init), es[|es| - 1]);
      StepKeepsPhase(After(net, init), es[|es| - 1], Began(net, init), w);
    }
  }

  // The roles, whatever heartbeats are sent, lost, duplicated and accepted, and whatever is flagged at the
  // start: for any delivery order and any number of elections started at any moments, once no election is
  // under way the greatest node leads and the others follow.
  lemma RolesConverge(net: Net, es: seq<Event>)
    requires Live(net) && Rested(net) && Climbable(net)
    requires ReliableRun(net, es) && Began(net, es) && Idle(After(net, es))
    ensures After(net, es).members == net.members && OneLeads(After(net, es))
  {
    RunProgresses(net, es, Watch(false, {}));
    SettledIsElected(After(net, es), Watch(false, {}));
  }

  // Convergence for any delivery order and any number of elections started at any moments, whatever
  // heartbeats are sent, lost or duplicated, as long as none is accepted: once no election is under way
  // the greatest node leads, the others follow, and a node that knew the greatest from the start flags
  // exactly it.
  lemma Converges(net: Net, es: seq<Event>)
    requires Live(net) && Quiescent(net) && Climbable(net)
    requires ReliableRun(net, es) && NoneAccepted(net, es) && Began(net, es) && Idle(After(net, es))
    ensures After(net, es).members == net.members && Elected(After(net, es))
    ensures forall n :: n in net.nodes && n != Max(net) && KnowsMax(net, n) ==>
              n in After(net, es).nodes &&
              exists e :: e in After(net, es).nodes[n].table && e.id == Max(net) && e.isLeader != 0
  {
    var w := Watch(true, set n | n in net.nodes && n != Max(net) && KnowsMax(net, n));
    RunProgresses(net, es, w);
    SettledIsElected(After(net, es), w);
  }

  lemma SettledIsElected(end: Net, w: Watch)
    requires Core(end, w) && Progressing(end, w) && Idle(end)
    ensures OneLeads(end) && (w.flags ==> Elected(end))
    ensures forall n :: w.flags && n in w.informed && n != Max(end) ==>
              exists e :: e in end.nodes[n].table && e.id == Max(end) && e.isLeader != 0
  {
    assert forall n :: n in end.nodes && n != Max(end) ==> Settled(end, n, w);
  }

  // Complete tables: every node ends up following the greatest one and flagging exactly it.
  lemma CompleteTablesConverge(net: Net, es: seq<Event>)
    requires Live(net) && Quiescent(net) && AllComplete(net)
    requires ReliableRun(net, es) && NoneAccepted(net, es) && Began(net, es) && Idle(After(net, es))
    ensures After(net, es).members == net.members && Elected(After(net, es))
    ensures forall n :: n in net.nodes && n != Max(net) ==>
              n in After(net, es).nodes &&
              exists e :: e in After(net, es).nodes[n].table && e.id == Max(net) && e.isLeader != 0
  {
    forall n | n in net.nodes && n != Max(net) ensures KnowsMax(net, n) && KnowsHigher(net.nodes[n]) {
      CompleteKnowsMax(net, n);
    }
    Converges(net, es);
  }

  lemma CompleteKnowsMax(net: Net, n: Id)
    requires Live(net) && AllComplete(net) && n in net.nodes && n != Max(net)
    ensures KnowsMax(net, n) && KnowsHigher(net.nodes[n])
  {
    TopIsGreatest(net.members, n);
    assert Complete(net.nodes[n], net.members);
  }

  // --- The other direction ---

  // Every delivery takes the first datagram behind those that were in flight before.
  function DeliverAt(i: nat, k: nat): (es: seq<Event>)
    ensures |es| == k
  {
    if k == 0 then [] else DeliverAt(i, k - 1) + [Deliver(i, 0)]
  }

  // Everybody follows `leader`, and behind the first i datagrams there is only its announcement.
  ghost predicate Following(net: Net, leader: Id, i: nat) {
    && (forall n :: n in net.nodes ==> net.nodes[n].role == if n == leader then Leader else Follower)
    && i <= |net.flight|
    && (forall j :: 0 <= j < i ==> net.flight[j].msg.Heartbeat?)
    && (forall j :: i <= j < |net.flight| ==>
          net.flight[j].dst in net.nodes && net.flight[j].msg == Coordinator(leader))
  }

  lemma FollowingStep(net: Net, leader: Id, i: nat)
    requires Named(net) && Following(net, leader, i) && i < |net.flight|
    ensures Enabled(net, Deliver(i, 0)) && Reliable(net, Deliver(i, 0)) && !Accepts(net, Deliver(i, 0))
    ensures Following(Step(net, Deliver(i, 0)), leader, i)
    ensures |Step(net, Deliver(i, 0)).flight| == |net.flight| - 1
  {
    var flight := Step(net, Deliver(i, 0)).flight;
    assert flight == Without(net.flight, i);
    assert forall j :: i <= j < |flight| ==> flight[j] == net.flight[j + 1];
  }

  lemma {:induction false} AnnouncementDrains(net: Net, leader: Id, i: nat, k: nat)
    requires Named(net) && Following(net, leader, i) && i + k <= |net.flight|
    ensures var es := DeliverAt(i, k);
      && ReliableRun(net, es) && NoneAccepted(net, es)
      && Named(After(net, es)) && Following(After(net, es), leader, i) && |After(net, es).flight| == |net.flight| - k
  {
    if k > 0 {
      var init := DeliverAt(i, k - 1);
      AnnouncementDrains(net, leader, i, k - 1);
      FollowingStep(After(net, init), leader, i);
      StepKeepsNames(After(net, init), Deliver(i, 0));
      LongerReliableRun(net, init, Deliver(i, 0));
    }
  }

  lemma LongerReliableRun(net: Net, es: seq<Event>, e: Event)
    requires ReliableRun(net, es) && Enabled(After(net, es), e) && Reliable(After(net, es), e)
    ensures ReliableRun(net, es + [e]) && After(net, es + [e]) == Step(After(net, es), e)
    ensures NoneAccepted(net, es + [e]) <==> NoneAccepted(net, es) && !Accepts(After(net, es), e)
    ensures Began(net, es + [e]) <==> Began(net, es) || Starts(After(net, es), e)
  {
    assert (es + [e])[..|es + [e]| - 1] == es;
  }

  // A run without accepted heartbeats that ends with nothing under way and the node as a leader.
  ghost predicate EndsLed(net: Net, es: seq<Event>, n: Id) {
    && ReliableRun(net, es) && NoneAccepted(net, es) && Idle(After(net, es))
    && n in After(net, es).nodes && After(net, es).nodes[n].role == Leader
  }

  lemma LeaderOutlastsItsAnnouncement(net: Net, leader: Id, i: nat)
    requires Named(net) && Following(net, leader, i) && leader in net.nodes
    ensures EndsLed(net, DeliverAt(i, |net.flight| - i), leader)
  {
    AnnouncementDrains(net, leader, i, |net.flight| - i);
    RunKeepsNames(net, DeliverAt(i, |net.flight| - i));
  }

  // What one event before a run leaves of it.
  ghost predicate Prefixed(net: Net, e: Event, es: seq<Event>)
    requires Enabled(net, e) && ReliableRun(Step(net, e), es)
  {
    && ReliableRun(net, [e] + es)
    && After(net, [e] + es) == After(Step(net, e), es)
    && (NoneAccepted(net, [e] + es) <==> !Accepts(net, e) && NoneAccepted(Step(net, e), es))
    && (Began(net, [e] + es) <==> Starts(net, e) || Began(Step(net, e), es))
  }

  lemma {:induction false} PrefixedRun(net: Net, e: Event, es: seq<Event>)
    requires Enabled(net, e) && Reliable(net, e) && ReliableRun(Step(net, e), es)
    ensures Prefixed(net, e, es)
  {
    if es == [] {
      assert [e] + es == [] + [e];
      LongerReliableRun(net, [], e);
    } else {
      PrefixedRun(net, e, es[..|es| - 1]);
      PrefixedStep(net, e, es[..|es| - 1], es[|es| - 1], es);
    }
  }

  lemma PrefixedStep(net: Net, e: Event, init: seq<Event>, last: Event, es: seq<Event>)
    requires Enabled(net, e) && es == init + [last] && ReliableRun(Step(net, e), es) && ReliableRun(Step(net, e), init)
    requires Enabled(After(Step(net, e), init), last) && Reliable(After(Step(net, e), init), last)
    requires Prefixed(net, e, init)
    ensures Prefixed(net, e, es)
  {
    assert [e] + es == ([e] + init) + [last];
    LongerReliableRun(net, [e] + init, last);
    LongerReliableRun(Step(net, e), init, last);
  }

  lemma PrefixedEndsLed(net: Net, e: Event, es: seq<Event>, n: Id)
    requires Enabled(net, e) && Reliable(net, e) && !Accepts(net, e) && EndsLed(Step(net, e), es, n)
    ensures EndsLed(net, [e] + es, n)
    ensures Starts(net, e) || Began(Step(net, e), es) ==> Began(net, [e] + es)
  {
    PrefixedRun(net, e, es);
  }

  // A health check late enough to miss a heartbeat of the flagged leader, if one is flagged.
  function LateCheck(net: Net, n: Id): Event
    requires n in net.nodes
  {
    var table := net.nodes[n].table;
    var k := FirstLeader(table);
    Check(n, if k < |table| then table[k].lastSeen + 1 else 0, 0)
  }

  // A node that is not the greatest but knows nobody above it can win and keep everybody.
  lemma CheckUsurps(net: Net, n: Id) returns (es: seq<Event>)
    requires Live(net) && Rested(net) && n in net.nodes
    requires net.nodes[n].table != [] && !KnowsHigher(net.nodes[n])
    ensures EndsLed(net, es, n) && Began(net, es)
  {
    UsurperAnnounces(net, n);
    var mid := Step(net, LateCheck(net, n));
    es := DeliverAt(|net.flight|, |mid.flight| - |net.flight|);
    LeaderOutlastsItsAnnouncement(mid, n, |net.flight|);
    PrefixedEndsLed(net, LateCheck(net, n), es, n);
    es := [LateCheck(net, n)] + es;
  }

  // With an empty table it first learns its own id from a peer endpoint that names it.
  lemma UsurperWins(net: Net, n: Id) returns (es: seq<Event>)
    requires Live(net) && Rested(net) && n in net.nodes && !KnowsHigher(net.nodes[n])
    ensures EndsLed(net, es, n) && Began(net, es)
  {
    if net.nodes[n].table == [] {
      var probe := Event.Probe(n, n, true, true, 0);
      ProbeOfItself(net, n);
      StepAccount(net, probe);
      TableEventStaysRested(net, probe);
      es := CheckUsurps(Step(net, probe), n);
      PrefixedEndsLed(net, probe, es, n);
      es := [probe] + es;
    } else {
      es := CheckUsurps(net, n);
    }
  }

  lemma UsurperAnnounces(net: Net, n: Id)
    requires Live(net) && Rested(net) && n in net.nodes
    requires net.nodes[n].table != [] && !KnowsHigher(net.nodes[n])
    ensures Starts(net, LateCheck(net, n))
    ensures Named(Step(net, LateCheck(net, n))) && Following(Step(net, LateCheck(net, n)), n, |net.flight|)
  {
    var p := net.nodes[n];
    AboveEmptyIffNoneHigher(p);
    BroadcastPackets(net.members, n);
    StepKeepsNames(net, LateCheck(net, n));
    forall j | 0 <= j < |net.flight| ensures net.flight[j].msg.Heartbeat? { OnlyBeats(net, j); }
  }

  // Elections always end with the greatest node as the only leader if and only if every other node knows
  // some running node above it, accepted heartbeats or not.
  lemma RolesConvergeIffClimbable(net: Net)
    requires Live(net) && Rested(net)
    ensures Climbable(net) <==>
            forall es :: ReliableRun(net, es) && Began(net, es) && Idle(After(net, es)) ==>
              After(net, es).members == net.members && OneLeads(After(net, es))
  {
    if Climbable(net) {
      forall es | ReliableRun(net, es) && Began(net, es) && Idle(After(net, es))
        ensures After(net, es).members == net.members && OneLeads(After(net, es))
      {
        RolesConverge(net, es);
      }
    } else {
      var n :| n in net.nodes && n != Max(net) && !KnowsHigher(net.nodes[n]);
      var es := UsurperWins(net, n);
      RunKeepsNames(net, es);
      assert !OneLeads(After(net, es));
    }
  }

  // The same with the flags, as long as no heartbeat is accepted.
  lemma ConvergesIffClimbable(net: Net)
    requires Live(net) && Quiescent(net)
    ensures Climbable(net) <==>
            forall es :: ReliableRun(net, es) && NoneAccepted(net, es) && Began(net, es) && Idle(After(net, es)) ==>
              After(net, es).members == net.members && Elected(After(net, es))
  {
    if Climbable(net) {
      forall es | ReliableRun(net, es) && NoneAccepted(net, es) && Began(net, es) && Idle(After(net, es))
        ensures After(net, es).members == net.members && Elected(After(net, es))
      {
        Converges(net, es);
      }
    } else {
      var n :| n in net.nodes && n != Max(net) && !KnowsHigher(net.nodes[n]);
      var es := UsurperWins(net, n);
      RunKeepsNames(net, es);
      assert !Elected(After(net, es));
    }
  }

  // --- The last ELECTION ---

  predicate DeliversElection(net: Net, e: Event)
    requires Enabled(net, e)
  {
    e.Deliver? && net.flight[e.i].msg.Election?
  }

  // Delivering an ELECTION anywhere but at the greatest node puts another one in flight.
  lemma ElectionGoesOn(net: Net, i: nat, now: int)
    requires Live(net) && Climbable(net) && i < |net.flight| && net.flight[i].dst in net.nodes
    requires net.flight[i].msg.Election?
    ensures net.flight[i].dst == Max(net) || ElectionPending(Step(net, Deliver(i, now)))
  {
    var p := net.nodes[net.flight[i].dst];
    assert Traffic(net.flight[i], net.members);
    if p.id != Max(net) {
      AboveEmptyIffNoneHigher(p);
      ElectionPackets(net.members, Above(p.table, p.id), p.id);
      var calls := Post(net.members, Elect(p).sends);
      assert Step(net, Deliver(i, now)).flight == Without(net.flight, i) + calls;
      assert calls[0] in Step(net, Deliver(i, now)).flight;
    }
  }

  // An ELECTION in flight stays there until an ELECTION is delivered.
  lemma ElectionStays(net: Net, e: Event)
    requires Enabled(net, e) && Reliable(net, e) && ElectionPending(net) && !DeliversElection(net, e)
    ensures ElectionPending(Step(net, e))
  {
    var p :| p in net.flight && p.msg.Election?;
    match e
    case Deliver(i, _) => InWithout(net.flight, i, p);
    case Drop(i) => InWithout(net.flight, i, p);
    case _ => assert p in Step(net, e).flight;
  }

  // After the last event of the run that delivers an ELECTION.
  ghost predicate NoElectionAfter(net: Net, es: seq<Event>, k: nat)
    requires IsRun(net, es)
  {
    |es| <= k + 1 ||
    (NoElectionAfter(net, es[..|es| - 1], k) && !DeliversElection(After(net, es[..|es| - 1]), es[|es| - 1]))
  }

  lemma {:induction false} ElectionLasts(net: Net, es: seq<Event>, k: nat)
    requires ReliableRun(net, es) && k < |es| && NoElectionAfter(net, es, k)
    requires IsRun(net, es[..k + 1]) && ElectionPending(After(net, es[..k + 1]))
    ensures ElectionPending(After(net, es))
  {
    if |es| == k + 1 {
      assert es[..k + 1] == es;
    } else {
      var init := es[..|es| - 1];
      assert init[..k + 1] == es[..k + 1];
      ElectionLasts(net, init, k);
      ElectionStays(After(net, init), es[|es| - 1]);
    }
  }

  lemma {:induction false} ReliablePrefix(net: Net, es: seq<Event>, k: nat)
    requires ReliableRun(net, es) && k <= |es|
    ensures ReliableRun(net, es[..k])
  {
    if k < |es| {
      assert es[..|es| - 1][..k] == es[..k];
      ReliablePrefix(net, es[..|es| - 1], k);
    } else {
      assert es[..k] == es;
    }
  }

  // Over every run from a climbable cluster to a state without an ELECTION in flight, the last ELECTION
  // that is delivered goes to the greatest node, accepted heartbeats or not.
  lemma LastElectionReachesMax(net: Net, es: seq<Event>, k: nat)
    requires Live(net) && Climbable(net) && ReliableRun(net, es) && k < |es|
    requires IsRun(net, es[..k]) && Enabled(After(net, es[..k]), es[k]) && DeliversElection(After(net, es[..k]), es[k])
    requires NoElectionAfter(net, es, k) && !ElectionPending(After(net, es))
    ensures After(net, es[..k]).flight[es[k].i].dst == Max(net)
  {
    var before := After(net, es[..k]);
    ReliablePrefix(net, es, k);
    RunAccount(net, es[..k]);
    RunKeepsNames(net, es[..k]);
    forall n | n in before.nodes && n != Max(before) ensures KnowsHigher(before.nodes[n]) {
      KnowledgeIsKept(net.nodes[n], before.nodes[n]);
    }
    ElectionGoesOn(before, es[k].i, es[k].now);
    PrefixIsRun(net, es, k + 1);
    assert es[..k + 1][..k] == es[..k];
    if ElectionPending(Step(before, es[k])) { ElectionLasts(net, es, k); }
  }
}
