// The cluster as a transition system: the state of every running node and a bag of datagrams.
module Network {
  import opened Ids
  import opened Peers
  import Seqs

  datatype Packet = Packet(dst: Id, msg: Msg)

  // The bag is a sequence any position of which may be delivered next.
  datatype Net = Net(members: seq<Id>, nodes: map<Id, Peer>, flight: seq<Packet>)

  datatype Event =
    | Check(n: Id, now: int, patience: int)
    | Beat(n: Id)
    | Learn(n: Id, id: Id, now: int)
    | Probe(n: Id, id: Id, healthy: bool, resolved: bool, now: int)
    | Deliver(i: nat, now: int)
    | Drop(i: nat)
    | Duplicate(i: nat)

  function ToAll(members: seq<Id>, msg: Msg): (ps: seq<Packet>)
    ensures |ps| == |members|
    ensures forall i :: 0 <= i < |ps| ==> ps[i] == Packet(members[i], msg)
  {
    seq(|members|, i requires 0 <= i < |members| => Packet(members[i], msg))
  }

  // The datagrams a list of sends puts in flight; a broadcast reaches the sender too.
  function Post(members: seq<Id>, sends: seq<Send>): (ps: seq<Packet>)
    ensures forall p :: p in ps ==> exists s :: s in sends && s.msg == p.msg
  {
    if sends == [] then []
    else
      var rest := Post(members, sends[1..]);
      assert forall s :: s in sends <==> s == sends[0] || s in sends[1..];
      match sends[0]
      case ToNode(d, m) =>
        assert sends[0].msg == m;
        [Packet(d, m)] + rest
      case Broadcast(m) =>
        assert sends[0].msg == m;
        ToAll(members, m) + rest
  }

  function Without(ps: seq<Packet>, i: nat): seq<Packet>
    requires i < |ps|
  {
    ps[..i] + ps[i + 1..]
  }

  predicate Enabled(net: Net, e: Event) {
    match e
    case Check(n, _, _) => n in net.nodes
    case Beat(n) => n in net.nodes
    case Learn(n, _, _) => n in net.nodes
    case Probe(n, _, _, _, _) => n in net.nodes
    case Deliver(i, _) => i < |net.flight| && net.flight[i].dst in net.nodes
    case Drop(i) => i < |net.flight|
    case Duplicate(i) => i < |net.flight|
  }

  // Replaces one node's state and posts what it sent.
  function Update(net: Net, n: Id, o: Outcome): Net {
    net.(nodes := net.nodes[n := o.peer], flight := net.flight + Post(net.members, o.sends))
  }

  function Step(net: Net, e: Event): Net
    requires Enabled(net, e)
  {
    match e
    case Check(n, now, patience) => Update(net, n, CheckLeader(net.nodes[n], now, patience))
    case Beat(n) => Update(net, n, Outcome(net.nodes[n], Peers.Beat(net.nodes[n])))
    case Learn(n, id, now) => Update(net, n, Outcome(OnDiscover(net.nodes[n], id, now), []))
    case Probe(n, id, healthy, resolved, now) =>
      Update(net, n, Outcome(OnProbe(net.nodes[n], id, healthy, resolved, now), []))
    case Deliver(i, now) =>
      var p := net.flight[i];
      Update(net.(flight := Without(net.flight, i)), p.dst, Handle(net.nodes[p.dst], p.msg, now))
    case Drop(i) => net.(flight := Without(net.flight, i))
    case Duplicate(i) => net.(flight := net.flight + [net.flight[i]])
  }

  // --- What each event does to the bag ---

  lemma TakenOut(ps: seq<Packet>, i: nat)
    requires i < |ps|
    ensures multiset(Without(ps, i)) == multiset(ps) - multiset{ps[i]}
  {
    assert ps == ps[..i] + ([ps[i]] + ps[i + 1..]);
  }

  // A delivery takes one packet out and posts the answers of its recipient.
  lemma BagAfterDelivery(net: Net, i: nat, now: int)
    requires i < |net.flight| && net.flight[i].dst in net.nodes
    ensures var p := net.flight[i];
      multiset(Step(net, Deliver(i, now)).flight) ==
      multiset(net.flight) - multiset{p} + multiset(Post(net.members, Handle(net.nodes[p.dst], p.msg, now).sends))
  {
    var p := net.flight[i];
    var posted := Post(net.members, Handle(net.nodes[p.dst], p.msg, now).sends);
    TakenOut(net.flight, i);
    assert Step(net, Deliver(i, now)).flight == Without(net.flight, i) + posted;
  }

  // A loss takes one packet out, a duplicate puts the same packet in once more, and both leave the nodes alone.
  lemma BagAfterNoise(net: Net, i: nat)
    requires i < |net.flight|
    ensures multiset(Step(net, Drop(i)).flight) == multiset(net.flight) - multiset{net.flight[i]}
    ensures multiset(Step(net, Duplicate(i)).flight) == multiset(net.flight) + multiset{net.flight[i]}
    ensures Step(net, Drop(i)).nodes == net.nodes == Step(net, Duplicate(i)).nodes
  {
    TakenOut(net.flight, i);
  }

  lemma {:induction false} PostOfCalls(members: seq<Id>, sends: seq<Send>)
    requires forall s :: s in sends ==> s.ToNode?
    ensures |Post(members, sends)| == |sends|
    ensures forall i :: 0 <= i < |sends| ==> Post(members, sends)[i] == Packet(sends[i].dst, sends[i].msg)
  {
    if sends != [] {
      var rest := Post(members, sends[1..]);
      PostOfCalls(members, sends[1..]);
      assert sends[0] in sends;
      assert Post(members, sends) == [Packet(sends[0].dst, sends[0].msg)] + rest;
      assert forall i :: 1 <= i < |sends| ==> sends[i] == sends[1..][i - 1];
    }
  }

  // A heartbeat round puts one heartbeat for each slot but the own one in flight, and changes nothing else.
  lemma BeatIsPosted(net: Net, n: Id)
    requires n in net.nodes
    ensures var p, net' := net.nodes[n], Step(net, Beat(n));
      var others := Seqs.Filter(p.table, (e: Entry) => e.id != p.id);
      && net'.nodes == net.nodes && net'.members == net.members
      && |net'.flight| == |net.flight| + |others| && net'.flight[..|net.flight|] == net.flight
      && forall i :: 0 <= i < |others| ==>
           net'.flight[|net.flight| + i] ==
           Packet(others[i].id, Heartbeat(p.id, if p.role == Leader then 1 else 0))
  {
    HeartbeatsReachSlots(net.nodes[n]);
    PostOfCalls(net.members, Peers.Beat(net.nodes[n]));
  }

  // --- Runs ---

  ghost predicate IsRun(net: Net, es: seq<Event>)
    decreases |es|, 0
  {
    es == [] || (IsRun(net, es[..|es| - 1]) && Enabled(After(net, es[..|es| - 1]), es[|es| - 1]))
  }

  ghost function After(net: Net, es: seq<Event>): Net
    requires IsRun(net, es)
    decreases |es|, 1
  {
    if es == [] then net else Step(After(net, es[..|es| - 1]), es[|es| - 1])
  }

  lemma {:induction false} PrefixIsRun(net: Net, es: seq<Event>, k: nat)
    requires IsRun(net, es) && k <= |es|
    ensures IsRun(net, es[..k])
  {
    if k < |es| {
      assert es[..|es| - 1][..k] == es[..k];
      PrefixIsRun(net, es[..|es| - 1], k);
    } else {
      assert es[..k] == es;
    }
  }

  // --- Shapes every run keeps ---

  // Each node holds its own id under its key; `members` is the bag of running nodes in id order.
  ghost predicate Named(net: Net) {
    && net.members != [] && Ascending(net.members)
    && (forall n :: n in net.nodes <==> n in net.members)
    && (forall n :: n in net.nodes ==> net.nodes[n].id == n && ValidTable(net.nodes[n].table))
  }

  lemma UpdateKeepsNames(net: Net, n: Id, o: Outcome)
    requires Named(net) && n in net.nodes && Keeps(net.nodes[n], o.peer)
    ensures Named(Update(net, n, o))
    ensures forall m :: m in net.nodes ==> Keeps(net.nodes[m], Update(net, n, o).nodes[m])
  {
  }

  lemma StepKeepsNames(net: Net, e: Event)
    requires Named(net) && Enabled(net, e)
    ensures Named(Step(net, e)) && Step(net, e).members == net.members
    ensures forall n :: n in net.nodes ==> Keeps(net.nodes[n], Step(net, e).nodes[n])
  {
    match e
    case Check(n, now, patience) =>
      ElectKeeps(net.nodes[n]);
      UpdateKeepsNames(net, n, CheckLeader(net.nodes[n], now, patience));
    case Beat(n) => UpdateKeepsNames(net, n, Outcome(net.nodes[n], Peers.Beat(net.nodes[n])));
    case Learn(n, id, now) =>
      HandleKeeps(net.nodes[n], Discover(id), now);
      UpdateKeepsNames(net, n, Outcome(OnDiscover(net.nodes[n], id, now), []));
    case Probe(n, id, healthy, resolved, now) =>
      ProbeKeeps(net.nodes[n], id, healthy, resolved, now);
      UpdateKeepsNames(net, n, Outcome(OnProbe(net.nodes[n], id, healthy, resolved, now), []));
    case Deliver(i, now) =>
      var p := net.flight[i];
      HandleKeeps(net.nodes[p.dst], p.msg, now);
      UpdateKeepsNames(net.(flight := Without(net.flight, i)), p.dst, Handle(net.nodes[p.dst], p.msg, now));
    case Drop(i) =>
    case Duplicate(i) =>
  }

  lemma {:induction false} RunKeepsNames(net: Net, es: seq<Event>)
    requires Named(net) && IsRun(net, es)
    ensures Named(After(net, es)) && After(net, es).members == net.members
    ensures forall n :: n in net.nodes ==> Keeps(net.nodes[n], After(net, es).nodes[n])
  {
    if es != [] {
      var init := es[..|es| - 1];
      RunKeepsNames(net, init);
      StepKeepsNames(After(net, init), es[|es| - 1]);
    }
  }

  lemma OneStepRun(net: Net, e: Event)
    requires Enabled(net, e)
    ensures IsRun(net, [e]) && After(net, [e]) == Step(net, e)
  {
    assert [e][..0] == [];
    assert IsRun(net, [e][..0]) && After(net, [e][..0]) == net;
  }

  lemma LongerRun(net: Net, es: seq<Event>, e: Event)
    requires IsRun(net, es) && Enabled(After(net, es), e)
    ensures IsRun(net, es + [e]) && After(net, es + [e]) == Step(After(net, es), e)
  {
    assert (es + [e])[..|es + [e]| - 1] == es;
  }

  // --- Peer table invariant over whole runs ---

  // The delivery of a HEARTBEAT that the recipient understands.
  predicate Accepts(net: Net, e: Event)
    requires Enabled(net, e)
  {
    e.Deliver? && net.flight[e.i].msg.Heartbeat? && !Ignored(net.flight[e.i].msg)
  }

  ghost predicate NoneAccepted(net: Net, es: seq<Event>)
    requires IsRun(net, es)
  {
    es == [] ||
    (NoneAccepted(net, es[..|es| - 1]) && !Accepts(After(net, es[..|es| - 1]), es[|es| - 1]))
  }

  ghost predicate SingleFlags(net: Net) {
    forall n :: n in net.nodes ==> AtMostOneLeader(net.nodes[n].table)
  }

  lemma StepKeepsSingleFlags(net: Net, e: Event)
    requires Named(net) && SingleFlags(net) && Enabled(net, e) && !Accepts(net, e)
    ensures SingleFlags(Step(net, e))
  {
    match e
    case Check(n, now, patience) => ElectKeeps(net.nodes[n]);
    case Beat(_) =>
    case Learn(n, id, now) => HandleKeeps(net.nodes[n], Discover(id), now);
    case Probe(n, id, healthy, resolved, now) => ProbeKeeps(net.nodes[n], id, healthy, resolved, now);
    case Deliver(i, now) => HandleKeeps(net.nodes[net.flight[i].dst], net.flight[i].msg, now);
    case Drop(_) =>
    case Duplicate(_) =>
  }

  // The peer table invariant: capped, distinct, append-only, and at most one leader flagged as long as
  // no heartbeat is accepted.
  lemma {:induction false} TablesStaySound(net: Net, es: seq<Event>)
    requires Named(net) && IsRun(net, es)
    ensures forall n :: n in net.nodes ==>
              var q := After(net, es).nodes;
              n in q && ValidTable(q[n].table) && Grows(net.nodes[n].table, q[n].table)
    ensures SingleFlags(net) && NoneAccepted(net, es) ==> SingleFlags(After(net, es))
  {
    RunKeepsNames(net, es);
    if es != [] && SingleFlags(net) && NoneAccepted(net, es) {
      var init := es[..|es| - 1];
      TablesStaySound(net, init);
      RunKeepsNames(net, init);
      StepKeepsSingleFlags(After(net, init), es[|es| - 1]);
    }
  }

  // --- Heartbeats as noise ---

  // Events that move nothing but heartbeats that nobody understands.
  predicate IsNoise(net: Net, e: Event)
    requires Enabled(net, e)
  {
    match e
    case Beat(_) => true
    case Deliver(i, _) => Ignored(net.flight[i].msg)
    case Drop(i) => net.flight[i].msg.Heartbeat?
    case Duplicate(i) => net.flight[i].msg.Heartbeat?
    case _ => false
  }

  // The same nodes, and the same packets but for heartbeats.
  ghost predicate SameButBeats(net: Net, net': Net) {
    && net'.members == net.members && net'.nodes == net.nodes
    && forall p: Packet :: !p.msg.Heartbeat? ==> (p in net.flight <==> p in net'.flight)
  }

  lemma InWithout(ps: seq<Packet>, i: nat, p: Packet)
    requires i < |ps| && p in ps && p != ps[i]
    ensures p in Without(ps, i)
  {
    var j :| 0 <= j < |ps| && ps[j] == p;
    assert Without(ps, i)[if j < i then j else j - 1] == p;
  }

  lemma WithoutBeat(net: Net, i: nat)
    requires i < |net.flight| && net.flight[i].msg.Heartbeat?
    ensures SameButBeats(net, net.(flight := Without(net.flight, i)))
  {
    forall p: Packet | !p.msg.Heartbeat? && p in net.flight ensures p in Without(net.flight, i) {
      InWithout(net.flight, i, p);
    }
  }

  lemma BeatsAreHeartbeats(members: seq<Id>, p: Peer)
    ensures forall x :: x in Post(members, Peers.Beat(p)) ==> x.msg.Heartbeat?
  {
  }

  lemma NoiseChangesBeatsOnly(net: Net, e: Event)
    requires Enabled(net, e) && IsNoise(net, e)
    ensures SameButBeats(net, Step(net, e))
  {
    match e
    case Beat(n) => BeatsAreHeartbeats(net.members, net.nodes[n]);
    case Deliver(i, _) => WithoutBeat(net, i);
    case Drop(i) => WithoutBeat(net, i);
    case Duplicate(i) =>
  }
}
