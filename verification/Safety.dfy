// What no loss, duplication, delay or reordering of datagrams can break, and what it cannot repair.
module Safety {
  import opened Ids
  import opened Peers
  import opened Network

  // Event `e` makes `a` run start_election.
  predicate Electing(net: Net, e: Event, a: Id)
    requires Enabled(net, e)
  {
    match e
    case Check(n, now, patience) => n == a && Suspects(net.nodes[n], now, patience)
    case Deliver(i, _) =>
      && net.flight[i].dst == a
      && net.flight[i].msg.Election?
      && Less(net.flight[i].msg.sender, net.nodes[a].id)
    case _ => false
  }

  // ... and its table holds no id above its own, so that it broadcasts COORDINATOR:a.
  ghost predicate Announces(net: Net, e: Event, a: Id)
    requires Enabled(net, e)
  {
    Electing(net, e, a) && !KnowsHigher(net.nodes[a])
  }

  ghost predicate AnnouncesAt(net: Net, es: seq<Event>, k: nat, a: Id) {
    && k < |es|
    && IsRun(net, es[..k]) && Enabled(After(net, es[..k]), es[k])
    && Announces(After(net, es[..k]), es[k], a)
  }

  ghost predicate Announced(net: Net, es: seq<Event>, a: Id) {
    exists k :: AnnouncesAt(net, es, k, a)
  }

  lemma AnnouncedEarlier(net: Net, es: seq<Event>, k: nat, a: Id)
    requires es != [] && AnnouncesAt(net, es[..|es| - 1], k, a)
    ensures AnnouncesAt(net, es, k, a)
  {
    assert es[..|es| - 1][..k] == es[..k];
  }

  lemma AnnouncedStays(net: Net, es: seq<Event>, a: Id)
    requires IsRun(net, es) && es != []
    ensures Announced(net, es[..|es| - 1], a) ==> Announced(net, es, a)
    ensures Announces(After(net, es[..|es| - 1]), es[|es| - 1], a) ==> Announced(net, es, a)
  {
    if Announced(net, es[..|es| - 1], a) {
      var k :| AnnouncesAt(net, es[..|es| - 1], k, a);
      AnnouncedEarlier(net, es, k, a);
    }
    if Announces(After(net, es[..|es| - 1]), es[|es| - 1], a) {
      assert AnnouncesAt(net, es, |es| - 1, a);
    }
  }

  // Nobody claims leadership: the state in which the daemons start.
  ghost predicate Unclaimed(net: Net) {
    && (forall n :: n in net.nodes ==> net.nodes[n].role != Leader)
    && (forall n, e :: n in net.nodes && e in net.nodes[n].table ==> e.isLeader == 0)
    && (forall p :: p in net.flight ==> !Claim(p.msg))
  }

  predicate Claim(msg: Msg) {
    msg.Coordinator? || (msg.Heartbeat? && msg.isLeader != 0)
  }

  function Claimant(msg: Msg): Id
    requires Claim(msg)
  {
    match msg case Coordinator(l) => l case Heartbeat(s, _) => s
  }

  // Every trace of a claim, in a role, a flag or a datagram, is of an id that announced itself.
  ghost predicate Justified(net: Net, announced: iset<Id>) {
    && (forall n :: n in net.nodes && net.nodes[n].role == Leader ==> n in announced)
    && (forall n, e :: n in net.nodes && e in net.nodes[n].table && e.isLeader != 0 ==> e.id in announced)
    && (forall p :: p in net.flight && Claim(p.msg) ==> Claimant(p.msg) in announced)
  }

  lemma HandleIsJustified(p: Peer, msg: Msg, now: int, announced: iset<Id>)
    requires p.role == Leader ==> p.id in announced
    requires forall e :: e in p.table && e.isLeader != 0 ==> e.id in announced
    requires Claim(msg) ==> Claimant(msg) in announced
    requires msg.Election? && Less(msg.sender, p.id) && !KnowsHigher(p) ==> p.id in announced
    ensures var o := Handle(p, msg, now);
      && (o.peer.role == Leader ==> p.id in announced)
      && (forall e :: e in o.peer.table && e.isLeader != 0 ==> e.id in announced)
      && (forall s :: s in o.sends && Claim(s.msg) ==> Claimant(s.msg) in announced)
  {
    match msg
    case Election(s) => AboveEmptyIffNoneHigher(p);
    case Coordinator(l) =>
      var t := Handle(p, msg, now).peer.table;
      forall e | e in t && e.isLeader != 0 ensures e.id in announced {
        var i :| 0 <= i < |t| && t[i] == e;
        assert p.table[i] in p.table;
      }
    case Heartbeat(s, f) =>
      var t := Handle(p, msg, now).peer.table;
      forall e | e in t && e.isLeader != 0 ensures e.id in announced {
        var i :| 0 <= i < |t| && t[i] == e;
        assert p.table[i] in p.table;
      }
    case Discover(s) =>
      var t := Handle(p, msg, now).peer.table;
      forall e | e in t && e.isLeader != 0 ensures e.id in announced {
        var i :| 0 <= i < |t| && t[i] == e;
        assert i < |p.table| ==> p.table[i] in p.table;
      }
  }

  lemma ProbeIsJustified(p: Peer, peer: Id, healthy: bool, resolved: bool, now: int, announced: iset<Id>)
    requires forall e :: e in p.table && e.isLeader != 0 ==> e.id in announced
    ensures forall e :: e in OnProbe(p, peer, healthy, resolved, now).table && e.isLeader != 0 ==> e.id in announced
  {
    var t := OnProbe(p, peer, healthy, resolved, now).table;
    forall e | e in t && e.isLeader != 0 ensures e.id in announced {
      var i :| 0 <= i < |t| && t[i] == e;
      assert i < |p.table| ==> p.table[i] in p.table;
    }
  }

  lemma UpdateIsJustified(net: Net, n: Id, o: Outcome, announced: iset<Id>)
    requires Named(net) && Justified(net, announced) && n in net.nodes
    requires o.peer.role == Leader ==> n in announced
    requires forall e :: e in o.peer.table && e.isLeader != 0 ==> e.id in announced
    requires forall s :: s in o.sends && Claim(s.msg) ==> Claimant(s.msg) in announced
    ensures Justified(Update(net, n, o), announced)
  {
  }

  lemma StepIsJustified(net: Net, e: Event, announced: iset<Id>)
    requires Named(net) && Enabled(net, e) && Justified(net, announced)
    requires forall a :: Announces(net, e, a) ==> a in announced
    ensures Justified(Step(net, e), announced)
  {
    match e
    case Check(n, now, patience) =>
      AboveEmptyIffNoneHigher(net.nodes[n]);
      assert Announces(net, e, n) ==> n in announced;
      UpdateIsJustified(net, n, CheckLeader(net.nodes[n], now, patience), announced);
    case Beat(n) => UpdateIsJustified(net, n, Outcome(net.nodes[n], Peers.Beat(net.nodes[n])), announced);
    case Learn(n, id, now) =>
      HandleIsJustified(net.nodes[n], Discover(id), now, announced);
      UpdateIsJustified(net, n, Outcome(OnDiscover(net.nodes[n], id, now), []), announced);
    case Probe(n, id, healthy, resolved, now) =>
      ProbeIsJustified(net.nodes[n], id, healthy, resolved, now, announced);
      UpdateIsJustified(net, n, Outcome(OnProbe(net.nodes[n], id, healthy, resolved, now), []), announced);
    case Deliver(i, now) =>
      var p := net.flight[i];
      assert p in net.flight;
      assert Announces(net, e, p.dst) ==> p.dst in announced;
      HandleIsJustified(net.nodes[p.dst], p.msg, now, announced);
      UpdateIsJustified(net.(flight := Without(net.flight, i)), p.dst, Handle(net.nodes[p.dst], p.msg, now), announced);
    case Drop(i) =>
    case Duplicate(i) => assert net.flight[i] in net.flight;
  }

  lemma {:induction false} RunIsJustified(net: Net, es: seq<Event>)
    requires Named(net) && Unclaimed(net) && IsRun(net, es)
    ensures Justified(After(net, es), iset a | Announced(net, es, a))
  {
    if es != [] {
      var init := es[..|es| - 1];
      RunIsJustified(net, init);
      RunKeepsNames(net, init);
      var before, after := iset a | Announced(net, init, a), iset a | Announced(net, es, a);
      forall a ensures a in before ==> a in after
               ensures Announces(After(net, init), es[|es| - 1], a) ==> a in after {
        AnnouncedStays(net, es, a);
      }
      assert Justified(After(net, init), after);
      StepIsJustified(After(net, init), es[|es| - 1], after);
    }
  }

  // Over every run with loss, duplication, delay and reordering: a leader announced itself while its
  // table held no id above its own, and any id flagged as leader anywhere announced itself.
  lemma LeadersAnnounced(net: Net, es: seq<Event>, n: Id)
    requires Named(net) && Unclaimed(net) && IsRun(net, es) && n in After(net, es).nodes
    ensures After(net, es).nodes[n].role == Leader ==> Announced(net, es, n)
    ensures forall e :: e in After(net, es).nodes[n].table && e.isLeader != 0 ==> Announced(net, es, e.id)
  {
    RunIsJustified(net, es);
  }

  // Two leaders at once: the lower one announced before it had learned of the higher one.
  lemma SplitBrainOnlyFromPartialViews(net: Net, es: seq<Event>, a: Id, b: Id)
    requires Named(net) && Unclaimed(net) && IsRun(net, es) && Less(a, b)
    requires a in After(net, es).nodes && After(net, es).nodes[a].role == Leader
    requires b in After(net, es).nodes && After(net, es).nodes[b].role == Leader
    ensures exists k: nat :: AnnouncesAt(net, es, k, a) && Unaware(After(net, es[..k]), a, b)
  {
    LeadersAnnounced(net, es, a);
    var k: nat :| AnnouncesAt(net, es, k, a);
    AnnouncerIsUnaware(net, es, k, a, b);
  }

  ghost predicate Unaware(net: Net, a: Id, b: Id) {
    a in net.nodes && forall e :: e in net.nodes[a].table ==> e.id != b
  }

  lemma AnnouncerIsUnaware(net: Net, es: seq<Event>, k: nat, a: Id, b: Id)
    requires Named(net) && Less(a, b) && AnnouncesAt(net, es, k, a)
    ensures Unaware(After(net, es[..k]), a, b)
  {
    RunKeepsNames(net, es[..k]);
    var before := After(net, es[..k]);
    assert a in before.nodes;
    assert before.nodes[a].id == a;
  }

  // Once a node knows a higher id it never announces itself again, whatever happens afterwards.
  lemma InformedNodesNeverAnnounce(net: Net, es: seq<Event>, k: nat, a: Id)
    requires Named(net) && IsRun(net, es) && a in net.nodes && KnowsHigher(net.nodes[a])
    ensures !AnnouncesAt(net, es, k, a)
  {
    if k < |es| {
      PrefixIsRun(net, es, k);
      RunKeepsNames(net, es[..k]);
      KnowledgeIsKept(net.nodes[a], After(net, es[..k]).nodes[a]);
    }
  }

  // --- Failover ---

  // No leader, and no announcement by a running node still on its way.
  ghost predicate Headless(net: Net) {
    && (forall n :: n in net.nodes ==> net.nodes[n].role != Leader)
    && (forall p :: p in net.flight && p.msg.Coordinator? ==> p.msg.leader !in net.nodes)
  }

  ghost predicate AllKnowHigher(net: Net) {
    forall n :: n in net.nodes ==> KnowsHigher(net.nodes[n])
  }

  lemma HandleStaysHeadless(p: Peer, msg: Msg, now: int)
    requires p.role != Leader && KnowsHigher(p) && (msg.Coordinator? ==> msg.leader != p.id)
    ensures Handle(p, msg, now).peer.role != Leader
    ensures forall s :: s in Handle(p, msg, now).sends ==> !s.msg.Coordinator?
  {
    AboveEmptyIffNoneHigher(p);
  }

  lemma StepStaysHeadless(net: Net, e: Event)
    requires Named(net) && Headless(net) && AllKnowHigher(net) && Enabled(net, e)
    ensures Headless(Step(net, e)) && AllKnowHigher(Step(net, e))
  {
    StepKeepsNames(net, e);
    forall n | n in net.nodes ensures KnowsHigher(Step(net, e).nodes[n]) {
      KnowledgeIsKept(net.nodes[n], Step(net, e).nodes[n]);
    }
    StepIsHeadless(net, e);
  }

  lemma UpdateIsHeadless(net: Net, n: Id, o: Outcome)
    requires Headless(net) && n in net.nodes && o.peer.role != Leader
    requires forall s :: s in o.sends ==> !s.msg.Coordinator?
    ensures Headless(Update(net, n, o))
  {
  }

  lemma StepIsHeadless(net: Net, e: Event)
    requires Named(net) && Headless(net) && AllKnowHigher(net) && Enabled(net, e)
    ensures Headless(Step(net, e))
  {
    match e
    case Check(n, now, patience) =>
      AboveEmptyIffNoneHigher(net.nodes[n]);
      UpdateIsHeadless(net, n, CheckLeader(net.nodes[n], now, patience));
    case Beat(n) => UpdateIsHeadless(net, n, Outcome(net.nodes[n], Peers.Beat(net.nodes[n])));
    case Learn(n, id, now) => UpdateIsHeadless(net, n, Outcome(OnDiscover(net.nodes[n], id, now), []));
    case Probe(n, id, healthy, resolved, now) =>
      UpdateIsHeadless(net, n, Outcome(OnProbe(net.nodes[n], id, healthy, resolved, now), []));
    case Deliver(i, now) =>
      var p := net.flight[i];
      assert p in net.flight;
      HandleStaysHeadless(net.nodes[p.dst], p.msg, now);
      UpdateIsHeadless(net.(flight := Without(net.flight, i)), p.dst, Handle(net.nodes[p.dst], p.msg, now));
    case Drop(i) =>
    case Duplicate(i) => assert net.flight[i] in net.flight;
  }

  lemma {:induction false} RunStaysHeadless(net: Net, es: seq<Event>)
    requires Named(net) && Headless(net) && AllKnowHigher(net) && IsRun(net, es)
    ensures Headless(After(net, es)) && AllKnowHigher(After(net, es))
  {
    if es != [] {
      var init := es[..|es| - 1];
      RunStaysHeadless(net, init);
      RunKeepsNames(net, init);
      StepStaysHeadless(After(net, init), es[|es| - 1]);
    }
  }

  ghost predicate CanElect(net: Net) {
    exists es, n :: IsRun(net, es) && n in After(net, es).nodes && After(net, es).nodes[n].role == Leader
  }

  // The time at which the node's next health check starts an election.
  function Overdue(p: Peer): int {
    var k := FirstLeader(p.table);
    if k < |p.table| then p.table[k].lastSeen + 1 else 0
  }

  // A health check by which a node that knows nobody above it makes itself leader.
  lemma CheckElects(net: Net, n: Id)
    requires n in net.nodes && net.nodes[n].role != Leader && net.nodes[n].table != [] && !KnowsHigher(net.nodes[n])
    ensures var e := Event.Check(n, Overdue(net.nodes[n]), 0);
      Enabled(net, e) && n in Step(net, e).nodes && Step(net, e).nodes[n].role == Leader
  {
    AboveEmptyIffNoneHigher(net.nodes[n]);
  }

  // A node with an empty table first learns its own id from a peer endpoint that names it.
  lemma ProbeOfItself(net: Net, n: Id)
    requires Named(net) && n in net.nodes && net.nodes[n].table == []
    ensures var e := Event.Probe(n, n, true, true, 0);
      && Enabled(net, e) && n in Step(net, e).nodes
      && Step(net, e).nodes[n] == net.nodes[n].(table := [Entry(n, 0, true, 0)])
      && !KnowsHigher(Step(net, e).nodes[n])
  {
    Trichotomy(n, n);
  }

  lemma UninformedNodeElectsItself(net: Net, n: Id)
    requires Named(net) && Headless(net) && n in net.nodes && !KnowsHigher(net.nodes[n])
    ensures CanElect(net)
  {
    if net.nodes[n].table == [] {
      var probe := Event.Probe(n, n, true, true, 0);
      ProbeOfItself(net, n);
      OneStepRun(net, probe);
      var mid := Step(net, probe);
      CheckElects(mid, n);
      LongerRun(net, [probe], Event.Check(n, Overdue(mid.nodes[n]), 0));
    } else {
      CheckElects(net, n);
      OneStepRun(net, Event.Check(n, Overdue(net.nodes[n]), 0));
    }
  }

  // From a headless state a leader can ever appear if and only if some running node's table holds no
  // id above its own. Entries of crashed nodes count, since start_election does not look at their health.
  lemma FailoverIff(net: Net)
    requires Named(net) && Headless(net)
    ensures CanElect(net) <==> !AllKnowHigher(net)
  {
    if AllKnowHigher(net) {
      forall es, n | IsRun(net, es) && n in After(net, es).nodes
        ensures After(net, es).nodes[n].role != Leader
      {
        RunStaysHeadless(net, es);
      }
    } else {
      var n :| n in net.nodes && !KnowsHigher(net.nodes[n]);
      UninformedNodeElectsItself(net, n);
    }
  }

  // The crash of the leader: if every survivor has it in its table, no run elects another one.
  lemma NoFailoverAfterLeaderCrash(net: Net, dead: Id)
    requires Named(net) && Headless(net) && Less(Top(net.members), dead)
    requires forall n :: n in net.nodes ==> exists e :: e in net.nodes[n].table && e.id == dead
    ensures !CanElect(net)
  {
    forall n | n in net.nodes ensures KnowsHigher(net.nodes[n]) {
      TopIsGreatest(net.members, n);
      if n != Top(net.members) { Transitive(n, Top(net.members), dead); }
    }
    FailoverIff(net);
  }
}
