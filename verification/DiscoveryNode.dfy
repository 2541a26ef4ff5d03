// The daemon itself: node_state and cluster_nodes[] updated in place.
module DiscoveryNode {
  import opened Ids
  import opened Peers
  import opened Text
  import DiscoveryText

  // The outcome of probing one configured endpoint, and the time at which it is applied.
  datatype ProbeResult = ProbeResult(peer: Id, healthy: bool, resolved: bool, now: int)

  // check_peer_endpoints over all configured endpoints, in configuration order.
  function ProbeAll(p: Peer, probes: seq<ProbeResult>): Peer {
    if probes == [] then p
    else
      var q := ProbeAll(p, probes[..|probes| - 1]);
      var r := probes[|probes| - 1];
      OnProbe(q, r.peer, r.healthy, r.resolved, r.now)
  }

  // C division of a timeout in milliseconds, which truncates toward zero.
  function Seconds(ms: int): int {
    if ms < 0 then -((-ms) / 1000) else ms / 1000
  }

  class DiscoveryNode {
    const id: Id
    const electionTimeoutMs: int
    var role: Role
    const nodes: array<Entry>
    var count: nat

    // Slots past the count are untouched: start-up zeroes them and nobody else writes them.
    ghost predicate Valid()
      reads this, nodes
    {
      && nodes.Length == MAX_NODES && count <= MAX_NODES
      && DistinctIds(nodes[..count])
      && forall i :: count <= i < MAX_NODES ==> nodes[i] == EMPTY_SLOT
    }

    ghost function View(): Peer
      reads this, nodes
      requires Valid()
    {
      Peer(id, role, nodes[..count])
    }

    constructor (id: Id, electionTimeoutMs: int)
      ensures Valid() && fresh(nodes)
      ensures View() == Peer(id, Follower, []) && this.electionTimeoutMs == electionTimeoutMs
    {
      this.id := id;
      this.electionTimeoutMs := electionTimeoutMs;
      role := Follower;
      nodes := new Entry[MAX_NODES](_ => EMPTY_SLOT);
      count := 0;
    }

    // The search loop shared by the handlers.
    method IndexOf(sender: Id) returns (k: nat)
      requires Valid()
      ensures k == Find(nodes[..count], sender)
    {
      k := 0;
      while k < count && nodes[k].id != sender
        invariant k <= count
        invariant forall i :: 0 <= i < k ==> nodes[i].id != sender
      {
        k := k + 1;
      }
    }

    // A new node's slot keeps the leader flag it had, which is why unused slots must be zero.
    method HandleDiscovery(sender: Id, now: int)
      requires Valid()
      modifies this`count, nodes
      ensures Valid() && View() == OnDiscover(old(View()), sender, now)
    {
      if sender == id { return; }
      var k := IndexOf(sender);
      if k < count {
        nodes[k] := nodes[k].(lastSeen := now, healthy := true);
      } else if count < MAX_NODES {
        nodes[count] := nodes[count].(id := sender, lastSeen := now, healthy := true);
        count := count + 1;
        assert nodes[..count] == old(nodes[..count]) + [Entry(sender, now, true, 0)];
      }
    }

    method StartElection() returns (sends: seq<Send>)
      requires Valid()
      modifies this`role
      ensures Valid() && Outcome(View(), sends) == Elect(old(View()))
    {
      role := Candidate;
      var higherNodes := 0;
      sends := [];
      var i := 0;
      while i < count
        invariant i <= count && |sends| == higherNodes && role == Candidate
        invariant sends == ElectionCalls(Above(nodes[..i], id), id)
      {
        assert nodes[..i + 1] == nodes[..i] + [nodes[i]];
        AboveConcat(nodes[..i], nodes[i], id);
        if Less(id, nodes[i].id) {
          sends := sends + [ToNode(nodes[i].id, Election(id))];
          higherNodes := higherNodes + 1;
        }
        i := i + 1;
      }
      assert nodes[..i] == nodes[..count];
      if higherNodes == 0 {
        role := Leader;
        sends := sends + [Broadcast(Coordinator(id))];
      }
    }

    method HandleElection(sender: Id) returns (sends: seq<Send>)
      requires Valid()
      modifies this`role
      ensures Valid() && Outcome(View(), sends) == OnElection(old(View()), sender)
    {
      sends := [];
      if Less(sender, id) {
        sends := StartElection();
      }
    }

    method HandleCoordinator(leader: Id)
      requires Valid()
      modifies this`role, nodes
      ensures Valid() && View() == OnCoordinator(old(View()), leader)
    {
      if leader == id {
        role := Leader;
      } else {
        role := Follower;
        ghost var before := nodes[..];
        var i := 0;
        while i < count
          invariant i <= count && role == Follower
          invariant forall j :: 0 <= j < i ==>
                      nodes[j] == before[j].(isLeader := if before[j].id == leader then 1 else 0)
          invariant forall j :: i <= j < MAX_NODES ==> nodes[j] == before[j]
        {
          nodes[i] := nodes[i].(isLeader := if nodes[i].id == leader then 1 else 0);
          i := i + 1;
        }
        assert before[..count] == old(nodes[..count]);
        assert nodes[..count] == Flagged(before[..count], leader);
      }
    }

    method HandleHeartbeat(sender: Id, isLeader: int, now: int)
      requires Valid()
      modifies nodes
      ensures Valid() && View() == OnHeartbeat(old(View()), sender, isLeader, now)
    {
      var k := IndexOf(sender);
      if k < count {
        nodes[k] := nodes[k].(lastSeen := now, healthy := true, isLeader := isLeader);
        assert nodes[..count] == old(nodes[..count])[k := nodes[k]];
      }
    }

    method CheckLeaderHealth(now: int) returns (sends: seq<Send>)
      requires Valid()
      modifies this`role
      ensures Valid() && Outcome(View(), sends) == CheckLeader(old(View()), now, Seconds(electionTimeoutMs))
    {
      sends := [];
      if role == Leader { return; }
      var leaderFound := false;
      var i := 0;
      while i < count
        invariant i <= count && !leaderFound && sends == [] && role == old(role)
        invariant forall j :: 0 <= j < i ==> nodes[j].isLeader == 0
      {
        if nodes[i].isLeader != 0 {
          leaderFound := true;
          FirstLeaderAt(nodes[..count], i);
          if now - nodes[i].lastSeen > Seconds(electionTimeoutMs) {
            sends := StartElection();
          }
          break;
        }
        i := i + 1;
      }
      if !leaderFound {
        FirstLeaderAt(nodes[..count], count);
        if count > 0 {
          sends := StartElection();
        }
      }
    }

    method CheckPeerEndpoints(probes: seq<ProbeResult>)
      requires Valid()
      modifies this`count, nodes
      ensures Valid() && View() == ProbeAll(old(View()), probes)
    {
      var i := 0;
      while i < |probes|
        invariant i <= |probes| && Valid()
        invariant View() == ProbeAll(old(View()), probes[..i])
      {
        ApplyProbe(probes[i]);
        assert probes[..i + 1][..i] == probes[..i];
        i := i + 1;
      }
      assert probes[..i] == probes;
    }

    method ApplyProbe(probe: ProbeResult)
      requires Valid()
      modifies this`count, nodes
      ensures Valid() && View() == OnProbe(old(View()), probe.peer, probe.healthy, probe.resolved, probe.now)
    {
      var k := IndexOf(probe.peer);
      if k < count {
        if probe.healthy {
          nodes[k] := nodes[k].(lastSeen := probe.now, healthy := true);
        } else {
          nodes[k] := nodes[k].(healthy := false);
        }
      } else if probe.healthy && count < MAX_NODES {
        if probe.resolved {
          nodes[count] := nodes[count].(id := probe.peer, lastSeen := probe.now, healthy := true, isLeader := 0);
          count := count + 1;
          assert nodes[..count] == old(nodes[..count]) + [Entry(probe.peer, probe.now, true, 0)];
        }
      }
    }

    // One HEARTBEAT to every slot but the node's own.
    method SendHeartbeat() returns (sends: seq<Send>)
      requires Valid()
      ensures sends == Beat(View())
    {
      var isLeader := if role == Leader then 1 else 0;
      sends := [];
      var i := 0;
      while i < count
        invariant i <= count && sends == BeatTo(nodes[..i], id, isLeader)
      {
        assert nodes[..i + 1] == nodes[..i] + [nodes[i]];
        BeatConcat(nodes[..i], nodes[i], id, isLeader);
        if nodes[i].id != id {
          sends := sends + [ToNode(nodes[i].id, Heartbeat(id, isLeader))];
        }
        i := i + 1;
      }
    }

    // One datagram from the socket, dispatched on its text.
    method ProcessDatagram(text: string, now: int) returns (sends: seq<Send>)
      requires Valid()
      modifies this`role, this`count, nodes
      ensures Valid()
      ensures Outcome(View(), sends) ==
              match DiscoveryText.Parse(text)
              case None => Outcome(old(View()), [])
              case Some(msg) => Dispatch(old(View()), msg, now)
    {
      sends := [];
      match DiscoveryText.Parse(text) {
        case None =>
        case Some(Discover(s)) => HandleDiscovery(s, now);
        case Some(Heartbeat(s, f)) => HandleHeartbeat(s, f, now);
        case Some(Election(s)) => sends := HandleElection(s);
        case Some(Coordinator(l)) => HandleCoordinator(l);
      }
    }
  }

  ghost predicate PlainSender(msg: Msg) {
    match msg
    case Discover(s) => DiscoveryText.Plain(s)
    case Heartbeat(s, _) => DiscoveryText.Plain(s)
    case Election(s) => DiscoveryText.Plain(s)
    case Coordinator(l) => DiscoveryText.Plain(l)
  }

  // On the text a daemon prints, the socket loop does what the election model says a message does.
  lemma PrintedDatagrams(p: Peer, msg: Msg, now: int)
    requires PlainSender(msg)
    ensures Handle(p, msg, now) ==
            match DiscoveryText.Parse(DiscoveryText.Print(msg))
            case None => Outcome(p, [])
            case Some(m) => Dispatch(p, m, now)
  {
    match msg
    case Discover(s) => DiscoveryText.DiscoverRoundTrip(s);
    case Heartbeat(s, f) => DiscoveryText.HeartbeatRoundTripIff(s, f);
    case Election(s) => DiscoveryText.ElectionRoundTrip(s);
    case Coordinator(l) => DiscoveryText.CoordinatorRoundTrip(l);
  }

  lemma {:induction false} FirstLeaderAt(table: seq<Entry>, i: nat)
    requires i <= |table| && (i < |table| ==> table[i].isLeader != 0)
    requires forall j :: 0 <= j < i ==> table[j].isLeader == 0
    ensures FirstLeader(table) == i
  {
    if i > 0 { FirstLeaderAt(table[1..], i - 1); }
  }

  // The age of the leader in milliseconds of the configuration, for a timeout of at least 0.
  lemma OlderThan(age: int, timeoutMs: int)
    ensures timeoutMs >= 0 ==> (age > Seconds(timeoutMs) <==> 1000 * age > timeoutMs)
    ensures timeoutMs < 0 ==> (age > Seconds(timeoutMs) <==> 1000 * (age - 1) >= timeoutMs)
  {
  }

  // No slot up to this one is flagged, and this one is unless it is behind the last.
  ghost predicate FirstFlag(table: seq<Entry>, k: nat) {
    k <= |table| && (k < |table| ==> table[k].isLeader != 0) && forall i :: 0 <= i < k ==> table[i].isLeader == 0
  }

  // The health check starts an election if and only if the node does not lead and the first flagged entry has
  // not been heard of for more than the timeout, or none is flagged in a table that is not empty.
  lemma HealthCheckIff(p: Peer, now: int, timeoutMs: int, k: nat)
    requires FirstFlag(p.table, k) && timeoutMs >= 0
    ensures CheckLeader(p, now, Seconds(timeoutMs)) ==
            if p.role == Leader then Outcome(p, [])
            else if k < |p.table| && 1000 * (now - p.table[k].lastSeen) <= timeoutMs then Outcome(p, [])
            else if p.table == [] then Outcome(p, [])
            else Elect(p)
  {
    FirstLeaderAt(p.table, k);
    if k < |p.table| { OlderThan(now - p.table[k].lastSeen, timeoutMs); }
  }

  lemma ProbedStaysListed(p: Peer, r: ProbeResult, peer: Id, k: nat)
    requires FirstWith(p.table, peer, k)
    ensures var q := OnProbe(p, r.peer, r.healthy, r.resolved, r.now);
      FirstWith(q.table, peer, k) && (r.peer != peer ==> q.table[k] == p.table[k])
  {
    ProbedIsListed(p, r.peer, r.healthy, r.resolved, r.now);
    var j := Find(p.table, r.peer);
    if j < |p.table| { assert FirstWith(p.table, r.peer, j); }
  }

  lemma {:induction false} AllStayListed(p: Peer, probes: seq<ProbeResult>, peer: Id, k: nat)
    requires FirstWith(p.table, peer, k)
    ensures FirstWith(ProbeAll(p, probes).table, peer, k)
  {
    if probes != [] {
      var n := |probes| - 1;
      AllStayListed(p, probes[..n], peer, k);
      ProbedStaysListed(ProbeAll(p, probes[..n]), probes[n], peer, k);
    }
  }

  // The probes of a round are applied in order: the last one of a known peer decides about its health, and
  // about when it was seen if it is healthy.
  lemma {:induction false} LastProbeDecides(p: Peer, probes: seq<ProbeResult>, i: nat, k: nat)
    requires i < |probes| && FirstWith(p.table, probes[i].peer, k)
    requires forall j :: i < j < |probes| ==> probes[j].peer != probes[i].peer
    ensures var q := ProbeAll(p, probes);
      && FirstWith(q.table, probes[i].peer, k) && q.table[k].healthy == probes[i].healthy
      && (probes[i].healthy ==> q.table[k].lastSeen == probes[i].now)
  {
    var n := |probes| - 1;
    var q := ProbeAll(p, probes[..n]);
    if i == n {
      AllStayListed(p, probes[..n], probes[n].peer, k);
      ProbedIsListed(q, probes[n].peer, probes[n].healthy, probes[n].resolved, probes[n].now);
      ProbedStaysListed(q, probes[n], probes[n].peer, k);
    } else {
      LastProbeDecides(p, probes[..n], i, k);
      ProbedStaysListed(q, probes[n], probes[i].peer, k);
    }
  }
}
