// What one discovery daemon does to its own state, as functions on values.
module Peers {
  import opened Ids
  import Seqs

  const MAX_NODES := 32
  // The width of the scan buffer, and the longest id.
  const FULL_ID_LENGTH := 63

  datatype Role = Follower | Candidate | Leader

  // One slot of cluster_nodes[]; the address is identified with the id.
  datatype Entry = Entry(id: Id, lastSeen: int, healthy: bool, isLeader: int)

  const EMPTY_SLOT := Entry("", 0, false, 0)

  datatype Peer = Peer(id: Id, role: Role, table: seq<Entry>)

  datatype Msg =
    | Discover(sender: Id)
    | Heartbeat(sender: Id, isLeader: int)
    | Election(sender: Id)
    | Coordinator(leader: Id)

  datatype Send = ToNode(dst: Id, msg: Msg) | Broadcast(msg: Msg)

  datatype Outcome = Outcome(peer: Peer, sends: seq<Send>)

  // The first slot holding an id, or the length of the table.
  function Find(table: seq<Entry>, id: Id): (k: nat)
    ensures k <= |table|
    ensures k < |table| ==> table[k].id == id
    ensures forall i :: 0 <= i < k ==> table[i].id != id
  {
    if table == [] then 0
    else if table[0].id == id then 0
    else 1 + Find(table[1..], id)
  }

  function Seen(table: seq<Entry>, k: nat, now: int): seq<Entry>
    requires k < |table|
  {
    table[k := table[k].(lastSeen := now, healthy := true)]
  }

  // handle_discovery_message, after the id has been scanned.
  function OnDiscover(p: Peer, sender: Id, now: int): Peer {
    var k := Find(p.table, sender);
    if sender == p.id then p
    else if k < |p.table| then p.(table := Seen(p.table, k, now))
    else if |p.table| < MAX_NODES then p.(table := p.table + [Entry(sender, now, true, 0)])
    else p
  }

  // One iteration of check_peer_endpoints; `healthy` is the probe, `resolved` the name lookup.
  function OnProbe(p: Peer, peer: Id, healthy: bool, resolved: bool, now: int): Peer {
    var k := Find(p.table, peer);
    if k < |p.table| then
      if healthy then p.(table := Seen(p.table, k, now))
      else p.(table := p.table[k := p.table[k].(healthy := false)])
    else if healthy && resolved && |p.table| < MAX_NODES then
      p.(table := p.table + [Entry(peer, now, true, 0)])
    else p
  }

  // The ids of a table that strcmp puts above `id`, in slot order.
  function Above(table: seq<Entry>, id: Id): (ids: seq<Id>)
    ensures forall d :: d in ids <==> Less(id, d) && exists e :: e in table && e.id == d
  {
    if table == [] then []
    else
      var rest := Above(table[1..], id);
      assert forall e :: e in table <==> e == table[0] || e in table[1..];
      if Less(id, table[0].id) then [table[0].id] + rest else rest
  }

  function ElectionCalls(dsts: seq<Id>, sender: Id): (s: seq<Send>)
    ensures |s| == |dsts|
    ensures forall i :: 0 <= i < |s| ==> s[i] == ToNode(dsts[i], Election(sender))
  {
    seq(|dsts|, i requires 0 <= i < |dsts| => ToNode(dsts[i], Election(sender)))
  }

  // start_election: every higher entry counts, healthy or not.
  function Elect(p: Peer): Outcome {
    var higher := Above(p.table, p.id);
    if higher == [] then Outcome(p.(role := Leader), [Broadcast(Coordinator(p.id))])
    else Outcome(p.(role := Candidate), ElectionCalls(higher, p.id))
  }

  function OnElection(p: Peer, sender: Id): Outcome {
    if Less(sender, p.id) then Elect(p) else Outcome(p, [])
  }

  function Flagged(table: seq<Entry>, leader: Id): (t: seq<Entry>)
    ensures |t| == |table|
    ensures forall i :: 0 <= i < |t| ==>
      t[i] == table[i].(isLeader := if table[i].id == leader then 1 else 0)
  {
    seq(|table|, i requires 0 <= i < |table| => table[i].(isLeader := if table[i].id == leader then 1 else 0))
  }

  // handle_coordinator_message: no comparison of ids, and a node's own announcement leaves the flags.
  function OnCoordinator(p: Peer, leader: Id): Peer {
    if leader == p.id then p.(role := Leader)
    else p.(role := Follower, table := Flagged(p.table, leader))
  }

  // The table update for a HEARTBEAT that sscanf accepted.
  function OnHeartbeat(p: Peer, sender: Id, isLeader: int, now: int): Peer {
    var k := Find(p.table, sender);
    if k < |p.table|
    then p.(table := Seen(p.table, k, now)[k := Seen(p.table, k, now)[k].(isLeader := isLeader)])
    else p
  }

  // The dispatch of process_incoming_udp_messages on a parsed datagram.
  function Dispatch(p: Peer, msg: Msg, now: int): Outcome {
    match msg
    case Discover(s) => Outcome(OnDiscover(p, s, now), [])
    case Heartbeat(s, f) => Outcome(OnHeartbeat(p, s, f, now), [])
    case Election(s) => OnElection(p, s)
    case Coordinator(l) => Outcome(OnCoordinator(p, l), [])
  }

  // The text of a HEARTBEAT parses only if its id fills the scan buffer
  // (DiscoveryText.HeartbeatRoundTripIff); any other one is ignored.
  predicate Ignored(msg: Msg) {
    msg.Heartbeat? && |msg.sender| != FULL_ID_LENGTH
  }

  // What a sent message does on arrival.
  function Handle(p: Peer, msg: Msg, now: int): Outcome {
    if Ignored(msg) then Outcome(p, []) else Dispatch(p, msg, now)
  }

  // The first slot flagged as leader, or the length of the table.
  function FirstLeader(table: seq<Entry>): (k: nat)
    ensures k <= |table|
    ensures k < |table| ==> table[k].isLeader != 0
    ensures forall i :: 0 <= i < k ==> table[i].isLeader == 0
  {
    if table == [] then 0
    else if table[0].isLeader != 0 then 0
    else 1 + FirstLeader(table[1..])
  }

  // Whether check_leader_health starts an election; `patience` is election_timeout_ms / 1000.
  predicate Suspects(p: Peer, now: int, patience: int) {
    var k := FirstLeader(p.table);
    && p.role != Leader
    && if k < |p.table| then now - p.table[k].lastSeen > patience else |p.table| > 0
  }

  function CheckLeader(p: Peer, now: int, patience: int): Outcome {
    if Suspects(p, now, patience) then Elect(p) else Outcome(p, [])
  }

  // send_heartbeat: one datagram to every slot but the node's own.
  function Beat(p: Peer): seq<Send> {
    BeatTo(p.table, p.id, if p.role == Leader then 1 else 0)
  }

  function BeatTo(table: seq<Entry>, self: Id, isLeader: int): (s: seq<Send>)
    ensures forall x :: x in s ==> x.ToNode? && x.msg == Heartbeat(self, isLeader) && x.dst != self
  {
    if table == [] then []
    else
      (if table[0].id != self then [ToNode(table[0].id, Heartbeat(self, isLeader))] else [])
      + BeatTo(table[1..], self, isLeader)
  }

  // --- What a table always satisfies ---

  ghost predicate DistinctIds(table: seq<Entry>) {
    forall i, j :: 0 <= i < j < |table| ==> table[i].id != table[j].id
  }

  ghost predicate AtMostOneLeader(table: seq<Entry>) {
    forall i, j :: 0 <= i < j < |table| ==> table[i].isLeader == 0 || table[j].isLeader == 0
  }

  ghost predicate ValidTable(table: seq<Entry>) {
    |table| <= MAX_NODES && DistinctIds(table)
  }

  // Slots are only ever appended: the ids of one table are the first ids of the other.
  ghost predicate Grows(table: seq<Entry>, table': seq<Entry>) {
    |table| <= |table'| && forall i :: 0 <= i < |table| ==> table'[i].id == table[i].id
  }

  ghost predicate KnowsHigher(p: Peer) {
    exists e :: e in p.table && Less(p.id, e.id)
  }

  lemma AboveEmptyIffNoneHigher(p: Peer)
    ensures Above(p.table, p.id) == [] <==> !KnowsHigher(p)
  {
    var higher := Above(p.table, p.id);
    if higher != [] {
      assert higher[0] in higher;
    }
    if KnowsHigher(p) {
      var e :| e in p.table && Less(p.id, e.id);
      assert e.id in higher;
    }
  }

  ghost predicate Keeps(p: Peer, q: Peer) {
    q.id == p.id && ValidTable(q.table) && Grows(p.table, q.table)
  }

  lemma ElectKeeps(p: Peer)
    ensures Elect(p).peer.table == p.table && Elect(p).peer.id == p.id
  {
  }

  lemma HandleKeeps(p: Peer, msg: Msg, now: int)
    requires ValidTable(p.table)
    ensures Keeps(p, Handle(p, msg, now).peer)
    ensures AtMostOneLeader(p.table) && (msg.Heartbeat? ==> Ignored(msg)) ==>
              AtMostOneLeader(Handle(p, msg, now).peer.table)
  {
    match msg
    case Discover(s) =>
    case Heartbeat(s, f) =>
      var k := Find(p.table, s);
      var q := OnHeartbeat(p, s, f, now);
      if k < |p.table| {
        assert forall i :: 0 <= i < |p.table| && i != k ==> q.table[i] == p.table[i];
        assert q.table[k].id == p.table[k].id;
      }
    case Election(s) => ElectKeeps(p);
    case Coordinator(l) =>
  }

  lemma ProbeKeeps(p: Peer, peer: Id, healthy: bool, resolved: bool, now: int)
    requires ValidTable(p.table)
    ensures Keeps(p, OnProbe(p, peer, healthy, resolved, now))
    ensures AtMostOneLeader(p.table) ==> AtMostOneLeader(OnProbe(p, peer, healthy, resolved, now).table)
  {
  }

  // A node that knows a higher id keeps knowing it, and no election of its own makes it leader.
  lemma KnowledgeIsKept(p: Peer, q: Peer)
    requires KnowsHigher(p) && q.id == p.id && Grows(p.table, q.table)
    ensures KnowsHigher(q) && Elect(q).peer.role == Candidate
    ensures forall s :: s in Elect(q).sends ==> s.ToNode? && s.msg == Election(q.id)
  {
    var i :| 0 <= i < |p.table| && Less(p.id, p.table[i].id);
    assert q.table[i] in q.table;
    AboveEmptyIffNoneHigher(q);
  }

  lemma {:induction false} AboveConcat(table: seq<Entry>, e: Entry, id: Id)
    ensures Above(table + [e], id) == Above(table, id) + if Less(id, e.id) then [e.id] else []
  {
    if table == [] {
      assert [e][1..] == [];
    } else {
      assert (table + [e])[1..] == table[1..] + [e];
      AboveConcat(table[1..], e, id);
    }
  }

  lemma {:induction false} BeatConcat(table: seq<Entry>, e: Entry, self: Id, isLeader: int)
    ensures BeatTo(table + [e], self, isLeader) ==
            BeatTo(table, self, isLeader) + if e.id != self then [ToNode(e.id, Heartbeat(self, isLeader))] else []
  {
    if table == [] {
      assert [e][1..] == [];
    } else {
      assert (table + [e])[1..] == table[1..] + [e];
      BeatConcat(table[1..], e, self, isLeader);
    }
  }

  // --- What each handler does to the table, slot by slot ---

  // The first slot with the id.
  ghost predicate FirstWith(table: seq<Entry>, id: Id, k: nat) {
    k < |table| && table[k].id == id && forall i :: 0 <= i < k ==> table[i].id != id
  }

  ghost predicate Lists(table: seq<Entry>, id: Id) {
    exists i :: 0 <= i < |table| && table[i].id == id
  }

  // All slots but one are as before.
  ghost predicate OnlySlot(table: seq<Entry>, table': seq<Entry>, k: nat) {
    |table'| == |table| && forall i :: 0 <= i < |table| && i != k ==> table'[i] == table[i]
  }

  // Another node that is known is refreshed in its slot; one that is not takes the slot behind the last, as
  // long as there are fewer than 32. The own id and a full table change nothing.
  lemma DiscoveredIsListed(p: Peer, sender: Id, now: int)
    ensures var q := OnDiscover(p, sender, now);
      && q.id == p.id && q.role == p.role
      && (sender == p.id ==> q.table == p.table)
      && (forall k: nat :: sender != p.id && FirstWith(p.table, sender, k) ==>
            OnlySlot(p.table, q.table, k) && q.table[k] == Entry(sender, now, true, p.table[k].isLeader))
      && (sender != p.id && !Lists(p.table, sender) && |p.table| < 32 ==>
            q.table == p.table + [Entry(sender, now, true, 0)])
      && (!Lists(p.table, sender) && |p.table| >= 32 ==> q.table == p.table)
  {
  }

  // So an election that follows calls a discovered node with a higher id.
  lemma DiscoveredHigherIsCalled(p: Peer, sender: Id, now: int)
    requires Less(p.id, sender) && (Lists(p.table, sender) || |p.table| < 32)
    ensures ToNode(sender, Election(p.id)) in Elect(OnDiscover(p, sender, now)).sends
    ensures Elect(OnDiscover(p, sender, now)).peer.role == Candidate
  {
    var q := OnDiscover(p, sender, now);
    DiscoveredIsListed(p, sender, now);
    Trichotomy(p.id, sender);
    var k := Find(p.table, sender);
    assert q.table[if k < |p.table| then k else |p.table|].id == sender;
    assert Lists(q.table, sender);
    ListedIsCalled(q, sender);
  }

  lemma ListedIsCalled(p: Peer, id: Id)
    requires Less(p.id, id) && Lists(p.table, id)
    ensures ToNode(id, Election(p.id)) in Elect(p).sends && Elect(p).peer.role == Candidate
  {
    var i :| 0 <= i < |p.table| && p.table[i].id == id;
    assert p.table[i] in p.table;
    var higher := Above(p.table, p.id);
    assert id in higher;
    var j :| 0 <= j < |higher| && higher[j] == id;
    assert Elect(p).sends[j] == ToNode(id, Election(p.id));
  }

  // A healthy answer refreshes a known peer, or adds one whose name resolves while there is room; any other
  // answer only marks a known peer.
  lemma ProbedIsListed(p: Peer, peer: Id, healthy: bool, resolved: bool, now: int)
    ensures var q := OnProbe(p, peer, healthy, resolved, now);
      && q.id == p.id && q.role == p.role
      && (forall k: nat :: FirstWith(p.table, peer, k) ==>
            && OnlySlot(p.table, q.table, k)
            && q.table[k] == Entry(peer, if healthy then now else p.table[k].lastSeen, healthy, p.table[k].isLeader))
      && (!Lists(p.table, peer) && healthy && resolved && |p.table| < 32 ==>
            q.table == p.table + [Entry(peer, now, true, 0)])
      && (!Lists(p.table, peer) && !(healthy && resolved && |p.table| < 32) ==> q.table == p.table)
  {
  }

  // An accepted heartbeat refreshes the first slot with the id and takes over the flag; others are unheard.
  lemma HeartbeatIsNoted(p: Peer, sender: Id, isLeader: int, now: int)
    ensures var q := OnHeartbeat(p, sender, isLeader, now);
      && q.id == p.id && q.role == p.role
      && (forall k: nat :: FirstWith(p.table, sender, k) ==>
            OnlySlot(p.table, q.table, k) && q.table[k] == Entry(sender, now, true, isLeader))
      && (!Lists(p.table, sender) ==> q.table == p.table)
  {
  }

  // The own announcement makes leader and leaves the table; any other one makes follower, and exactly the
  // slots with the announced id are flagged.
  lemma AnnouncementIsNoted(p: Peer, leader: Id)
    ensures var q := OnCoordinator(p, leader);
      && q.id == p.id && (q.role == if leader == p.id then Leader else Follower)
      && (leader == p.id ==> q.table == p.table)
      && (leader != p.id ==> |q.table| == |p.table| && forall i :: 0 <= i < |p.table| ==>
            var e := p.table[i]; q.table[i] == Entry(e.id, e.lastSeen, e.healthy, if e.id == leader then 1 else 0))
  {
  }

  // The entries give these ids.
  ghost predicate IdsOf(ids: seq<Id>, entries: seq<Entry>) {
    |ids| == |entries| && forall i :: 0 <= i < |ids| ==> ids[i] == entries[i].id
  }

  lemma IdsOfSnoc(ids: seq<Id>, entries: seq<Entry>, e: Entry)
    requires IdsOf(ids, entries)
    ensures IdsOf(ids + [e.id], entries + [e]) && IdsOf(ids + [], entries + [])
  {
  }

  lemma {:induction false} AboveIsFilter(table: seq<Entry>, id: Id, higher: Entry -> bool)
    requires forall e :: higher(e) == Less(id, e.id)
    ensures IdsOf(Above(table, id), Seqs.Filter(table, higher))
  {
    if table != [] {
      var n := |table| - 1;
      AboveIsFilter(table[..n], id, higher);
      AboveConcat(table[..n], table[n], id);
      assert table == table[..n] + [table[n]];
      IdsOfSnoc(Above(table[..n], id), Seqs.Filter(table[..n], higher), table[n]);
    }
  }

  // An election calls each slot with a higher id once, in slot order, healthy or not, and makes a candidate;
  // without such a slot it announces the node to everybody and makes it leader.
  lemma ElectionCallsSlots(p: Peer)
    ensures var o := Elect(p);
      var higher := Seqs.Filter(p.table, (e: Entry) => Less(p.id, e.id));
      && o.peer.id == p.id && o.peer.table == p.table
      && (higher != [] ==> o.peer.role == Candidate && |o.sends| == |higher|)
      && (forall i :: 0 <= i < |higher| ==> o.sends[i] == ToNode(higher[i].id, Election(p.id)))
      && (higher == [] ==> o.peer.role == Leader && o.sends == [Broadcast(Coordinator(p.id))])
  {
    AboveIsFilter(p.table, p.id, (e: Entry) => Less(p.id, e.id));
  }

  // Only an ELECTION from below is answered, by an election of the node's own.
  lemma ElectionFromBelow(p: Peer, sender: Id)
    ensures OnElection(p, sender) == if Less(sender, p.id) then Elect(p) else Outcome(p, [])
  {
  }

  lemma {:induction false} BeatsGoToOthers(table: seq<Entry>, self: Id, isLeader: int)
    ensures var others := Seqs.Filter(table, (e: Entry) => e.id != self);
      && |BeatTo(table, self, isLeader)| == |others|
      && forall i :: 0 <= i < |others| ==>
           BeatTo(table, self, isLeader)[i] == ToNode(others[i].id, Heartbeat(self, isLeader))
  {
    if table != [] {
      var n := |table| - 1;
      BeatsGoToOthers(table[..n], self, isLeader);
      BeatConcat(table[..n], table[n], self, isLeader);
      assert table == table[..n] + [table[n]];
    }
  }

  // A heartbeat round reaches each slot but the own one once, in slot order, with the flag of the role.
  lemma HeartbeatsReachSlots(p: Peer)
    ensures var others := Seqs.Filter(p.table, (e: Entry) => e.id != p.id);
      && |Beat(p)| == |others|
      && forall i :: 0 <= i < |others| ==>
           Beat(p)[i] == ToNode(others[i].id, Heartbeat(p.id, if p.role == Leader then 1 else 0))
  {
    BeatsGoToOthers(p.table, p.id, if p.role == Leader then 1 else 0);
  }
}
