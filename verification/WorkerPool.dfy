// The download worker pool: goroutines and bounded channels as interleaved steps.
module WorkerPool {
  import Seqs

  type Station = string

  datatype Outcome = Success(records: nat, bytes: nat) | Failure(error: string)
  datatype Result = Result(station: Station, outcome: Outcome)

  // What Download returns.
  datatype Summary = Summary(processed: nat, records: nat, bytes: nat, files: nat, errors: seq<string>)

  datatype Worker = Idle | Busy(station: Station) | Finished

  // Where Download is: starting workers, sending stations, waiting for the workers, reading results.
  datatype Phase = Starting | Sending | Waiting | Collecting | Done

  datatype Job = Job(stations: seq<Station>, parallel: int) {
    function Count(): nat {
      |stations|
    }

    // No more workers than stations; the loop that starts them does nothing for a count below 1.
    function Workers(): nat {
      var count := if parallel > |stations| then |stations| else parallel;
      if count > 0 then count else 0
    }
  }

  // sent counts the stations sent; collected are the results read, in order. The channels hold at most
  // Count() elements.
  datatype State = State(phase: Phase, sent: nat, queue: seq<Station>, queueClosed: bool, workers: seq<Worker>,
                         results: seq<Result>, resultsClosed: bool, collected: seq<Result>, summary: Summary)

  datatype Event = Main | Work(w: nat, outcome: Outcome)

  function Start(): State {
    State(Starting, 0, [], false, [], [], false, [], Summary(0, 0, 0, 0, []))
  }

  function Add(s: Summary, r: Result): Summary {
    match r.outcome
    case Success(records, bytes) =>
      Summary(s.processed + 1, s.records + records, s.bytes + bytes, s.files + 1, s.errors)
    case Failure(error) =>
      Summary(s.processed + 1, s.records, s.bytes, s.files, s.errors + [error])
  }

  // A step can be taken when its channel operation does not block.
  predicate Enabled(job: Job, s: State, e: Event) {
    match e
    case Main => (
      match s.phase
      case Starting => true
      case Sending => s.sent >= job.Count() || |s.queue| < job.Count()
      case Waiting => forall w :: 0 <= w < |s.workers| ==> s.workers[w].Finished?
      case Collecting => true
      case Done => false)
    case Work(w, _) =>
      w < |s.workers| && (
        match s.workers[w]
        case Idle => s.queue != [] || s.queueClosed
        case Busy(_) => |s.results| < job.Count()
        case Finished => false)
  }

  function Spawn(s: State): State {
    s.(workers := s.workers + [Idle])
  }

  function Send(job: Job, s: State): State
    requires s.sent < job.Count()
  {
    s.(queue := s.queue + [job.stations[s.sent]], sent := s.sent + 1)
  }

  function Read(s: State): State
    requires s.results != []
  {
    var r := s.results[0];
    s.(results := s.results[1..], collected := s.collected + [r], summary := Add(s.summary, r))
  }

  function MainStep(job: Job, s: State): State {
    match s.phase
    case Starting => if |s.workers| < job.Workers() then Spawn(s) else s.(phase := Sending)
    case Sending => if s.sent < job.Count() then Send(job, s) else s.(queueClosed := true, phase := Waiting)
    case Waiting => s.(resultsClosed := true, phase := Collecting)
    case Collecting => if s.results == [] then s.(phase := Done) else Read(s)
    case Done => s
  }

  function WorkStep(s: State, w: nat, outcome: Outcome): State
    requires w < |s.workers|
  {
    match s.workers[w]
    case Idle =>
      if s.queue != [] then s.(workers := s.workers[w := Busy(s.queue[0])], queue := s.queue[1..])
      else s.(workers := s.workers[w := Finished])
    case Busy(station) =>
      s.(workers := s.workers[w := Idle], results := s.results + [Result(station, outcome)])
    case Finished => s
  }

  function Step(job: Job, s: State, e: Event): State
    requires Enabled(job, s, e)
  {
    match e
    case Main => MainStep(job, s)
    case Work(w, outcome) => WorkStep(s, w, outcome)
  }

  ghost predicate IsRun(job: Job, es: seq<Event>) {
    es == [] || (IsRun(job, es[..|es| - 1]) && Enabled(job, After(job, es[..|es| - 1]), es[|es| - 1]))
  }

  // The state after a run; an event that cannot happen leaves it alone.
  function After(job: Job, es: seq<Event>): State {
    if es == [] then Start()
    else
      var s := After(job, es[..|es| - 1]);
      if Enabled(job, s, es[|es| - 1]) then Step(job, s, es[|es| - 1]) else s
  }

  // --- Conservation ---

  function Held(ws: seq<Worker>): seq<Station> {
    if ws == [] then []
    else Held(ws[..|ws| - 1]) + if ws[|ws| - 1].Busy? then [ws[|ws| - 1].station] else []
  }

  function Alive(ws: seq<Worker>): nat {
    if ws == [] then 0 else Alive(ws[..|ws| - 1]) + if ws[|ws| - 1].Finished? then 0 else 1
  }

  function StationsOf(rs: seq<Result>): (ss: seq<Station>)
    ensures |ss| == |rs|
  {
    seq(|rs|, i requires 0 <= i < |rs| => rs[i].station)
  }

  function One(b: bool): nat {
    if b then 1 else 0
  }

  function Times(ss: seq<Station>, x: Station): nat {
    if ss == [] then 0 else Times(ss[..|ss| - 1], x) + One(ss[|ss| - 1] == x)
  }

  lemma {:induction false} TimesIsMultiplicity(ss: seq<Station>, x: Station)
    ensures multiset(ss)[x] == Times(ss, x)
  {
    if ss != [] {
      TimesIsMultiplicity(ss[..|ss| - 1], x);
      assert ss == ss[..|ss| - 1] + [ss[|ss| - 1]];
    }
  }

  // How often a station occurs in the queue, with a worker, among the results and among those read.
  function Places(s: State, x: Station): nat {
    Times(s.queue, x) + Times(Held(s.workers), x) + Times(StationsOf(s.results), x) +
    Times(StationsOf(s.collected), x)
  }

  // Every station sent is in exactly one place.
  ghost predicate Conserved(job: Job, s: State) {
    && s.sent <= job.Count()
    && (forall x :: Times(job.stations[..s.sent], x) == Places(s, x))
    && s.sent == |s.queue| + |Held(s.workers)| + |s.results| + |s.collected|
  }

  function Summarised(rs: seq<Result>): Summary {
    if rs == [] then Summary(0, 0, 0, 0, []) else Add(Summarised(rs[..|rs| - 1]), rs[|rs| - 1])
  }

  ghost predicate Ordered(job: Job, s: State) {
    && |s.workers| <= job.Workers()
    && (s.phase.Starting? ==> s.sent == 0)
    && (!s.phase.Starting? ==> |s.workers| == job.Workers())
    && (s.queueClosed <==> s.phase.Waiting? || s.phase.Collecting? || s.phase.Done?)
    && (s.queueClosed ==> s.sent == job.Count())
    && (s.resultsClosed <==> s.phase.Collecting? || s.phase.Done?)
    && (forall w :: 0 <= w < |s.workers| && s.workers[w].Finished? ==> s.queueClosed && s.queue == [])
    && (s.resultsClosed ==> forall w :: 0 <= w < |s.workers| ==> s.workers[w].Finished?)
    && (s.phase.Done? ==> s.results == [])
    && s.summary == Summarised(s.collected)
  }

  ghost predicate Inv(job: Job, s: State) {
    Conserved(job, s) && Ordered(job, s)
  }

  predicate Holds(w: Worker, x: Station) {
    w.Busy? && w.station == x
  }

  lemma SnocCount(ss: seq<Station>, y: Station, x: Station)
    ensures Times(ss + [y], x) == Times(ss, x) + One(y == x)
  {
    assert (ss + [y])[..|ss|] == ss;
  }

  lemma {:induction false} RestCount(ss: seq<Station>, x: Station)
    requires ss != []
    ensures Times(ss, x) == Times(ss[1..], x) + One(ss[0] == x)
  {
    var n := |ss| - 1;
    if n == 0 {
      assert ss[..0] == [] && ss[1..] == [];
    } else {
      RestCount(ss[..n], x);
      assert ss[..n][1..] == ss[1..][..n - 1];
    }
  }

  lemma HeldLast(ws: seq<Worker>, x: Station)
    requires ws != []
    ensures Times(Held(ws), x) == Times(Held(ws[..|ws| - 1]), x) + One(Holds(ws[|ws| - 1], x))
  {
    var w := ws[|ws| - 1];
    if w.Busy? {
      SnocCount(Held(ws[..|ws| - 1]), w.station, x);
    } else {
      assert Held(ws[..|ws| - 1]) + [] == Held(ws[..|ws| - 1]);
    }
  }

  lemma {:induction false} HeldReplaced(ws: seq<Worker>, w: nat, v: Worker, x: Station)
    requires w < |ws|
    ensures Times(Held(ws[w := v]), x) + One(Holds(ws[w], x)) == Times(Held(ws), x) + One(Holds(v, x))
  {
    var n := |ws| - 1;
    var us := ws[w := v];
    HeldLast(ws, x);
    HeldLast(us, x);
    if w == n {
      assert us[..n] == ws[..n];
    } else {
      HeldReplaced(ws[..n], w, v, x);
      assert us[..n] == ws[..n][w := v];
    }
  }

  lemma {:induction false} SizesReplaced(ws: seq<Worker>, w: nat, v: Worker)
    requires w < |ws|
    ensures Alive(ws[w := v]) + One(!ws[w].Finished?) == Alive(ws) + One(!v.Finished?)
    ensures |Held(ws[w := v])| + One(ws[w].Busy?) == |Held(ws)| + One(v.Busy?)
  {
    var n := |ws| - 1;
    var us := ws[w := v];
    if w == n {
      assert us[..n] == ws[..n];
    } else {
      SizesReplaced(ws[..n], w, v);
      assert us[..n] == ws[..n][w := v];
    }
  }

  lemma StationsSnoc(rs: seq<Result>, r: Result, x: Station)
    ensures Times(StationsOf(rs + [r]), x) == Times(StationsOf(rs), x) + One(r.station == x)
  {
    assert StationsOf(rs + [r]) == StationsOf(rs) + [r.station];
    SnocCount(StationsOf(rs), r.station, x);
  }

  lemma StationsRest(rs: seq<Result>, x: Station)
    requires rs != []
    ensures Times(StationsOf(rs), x) == Times(StationsOf(rs[1..]), x) + One(rs[0].station == x)
  {
    assert StationsOf(rs)[1..] == StationsOf(rs[1..]);
    RestCount(StationsOf(rs), x);
  }

  lemma SentSnoc(job: Job, sent: nat, x: Station)
    requires sent < job.Count()
    ensures Times(job.stations[..sent + 1], x) == Times(job.stations[..sent], x) + One(job.stations[sent] == x)
  {
    assert job.stations[..sent + 1] == job.stations[..sent] + [job.stations[sent]];
    SnocCount(job.stations[..sent], job.stations[sent], x);
  }

  lemma SpawnSnoc(ws: seq<Worker>)
    ensures Held(ws + [Idle]) == Held(ws) && Alive(ws + [Idle]) == Alive(ws) + 1
  {
    assert (ws + [Idle])[..|ws|] == ws;
  }

  lemma SpawnKeepsConserved(job: Job, s: State)
    requires Conserved(job, s)
    ensures Conserved(job, Spawn(s))
  {
    SpawnSnoc(s.workers);
    forall x ensures Places(Spawn(s), x) == Places(s, x) {}
  }

  lemma SendKeepsConserved(job: Job, s: State)
    requires Conserved(job, s) && s.sent < job.Count()
    ensures Conserved(job, Send(job, s))
  {
    forall x ensures Times(job.stations[..s.sent + 1], x) == Places(Send(job, s), x) {
      SentSnoc(job, s.sent, x);
      SnocCount(s.queue, job.stations[s.sent], x);
    }
  }

  lemma ReadKeepsConserved(job: Job, s: State)
    requires Conserved(job, s) && s.results != []
    ensures Conserved(job, Read(s))
  {
    forall x ensures Places(Read(s), x) == Places(s, x) {
      StationsRest(s.results, x);
      StationsSnoc(s.collected, s.results[0], x);
    }
  }

  lemma PhaseKeepsConserved(job: Job, s: State, t: State)
    requires Conserved(job, s)
    requires t.sent == s.sent && t.queue == s.queue && t.workers == s.workers
    requires t.results == s.results && t.collected == s.collected
    ensures Conserved(job, t)
  {
    forall x ensures Places(t, x) == Places(s, x) {}
  }

  lemma MainKeepsConserved(job: Job, s: State)
    requires Conserved(job, s)
    ensures Conserved(job, MainStep(job, s))
  {
    if s.phase.Starting? && |s.workers| < job.Workers() {
      SpawnKeepsConserved(job, s);
    } else if s.phase.Sending? && s.sent < job.Count() {
      SendKeepsConserved(job, s);
    } else if s.phase.Collecting? && s.results != [] {
      ReadKeepsConserved(job, s);
    } else {
      PhaseKeepsConserved(job, s, MainStep(job, s));
    }
  }

  lemma WorkKeepsPlaces(s: State, w: nat, outcome: Outcome, x: Station)
    requires w < |s.workers|
    ensures Places(WorkStep(s, w, outcome), x) == Places(s, x)
  {
    match s.workers[w]
    case Idle =>
      if s.queue != [] {
        RestCount(s.queue, x);
        HeldReplaced(s.workers, w, Busy(s.queue[0]), x);
      } else {
        HeldReplaced(s.workers, w, Finished, x);
      }
    case Busy(station) =>
      HeldReplaced(s.workers, w, Idle, x);
      StationsSnoc(s.results, Result(station, outcome), x);
    case Finished =>
  }

  lemma WorkKeepsConserved(job: Job, s: State, w: nat, outcome: Outcome)
    requires Conserved(job, s) && w < |s.workers|
    ensures Conserved(job, WorkStep(s, w, outcome))
  {
    forall x ensures Places(WorkStep(s, w, outcome), x) == Places(s, x) { WorkKeepsPlaces(s, w, outcome, x); }
    match s.workers[w]
    case Idle => SizesReplaced(s.workers, w, if s.queue != [] then Busy(s.queue[0]) else Finished);
    case Busy(_) => SizesReplaced(s.workers, w, Idle);
    case Finished =>
  }

  lemma StepKeepsOrdered(job: Job, s: State, e: Event)
    requires Ordered(job, s) && s.sent <= job.Count() && Enabled(job, s, e)
    ensures Ordered(job, Step(job, s, e))
  {
    if s.results != [] {
      assert (s.collected + [s.results[0]])[..|s.collected|] == s.collected;
    }
  }

  // No station is lost or duplicated, no channel is used after it is closed.
  lemma {:induction false} RunKeepsInv(job: Job, es: seq<Event>)
    requires IsRun(job, es)
    ensures Inv(job, After(job, es))
  {
    if es == [] {
      assert job.stations[..0] == [];
    } else {
      var s, e := After(job, es[..|es| - 1]), es[|es| - 1];
      RunKeepsInv(job, es[..|es| - 1]);
      StepKeepsOrdered(job, s, e);
      match e
      case Main => MainKeepsConserved(job, s);
      case Work(w, outcome) => WorkKeepsConserved(job, s, w, outcome);
    }
  }

  lemma {:induction false} BusyIsHeld(ws: seq<Worker>, w: nat)
    requires w < |ws| && ws[w].Busy?
    ensures |Held(ws)| > 0
  {
    if w < |ws| - 1 { BusyIsHeld(ws[..|ws| - 1], w); }
  }

  // The channels never overflow, and a result is never sent on the closed channel.
  lemma ChannelsBounded(job: Job, es: seq<Event>)
    requires IsRun(job, es)
    ensures var s := After(job, es);
      && |s.queue| <= job.Count() && |s.results| <= job.Count()
      && (s.resultsClosed ==> forall w :: 0 <= w < |s.workers| ==> !s.workers[w].Busy?)
  {
    RunKeepsInv(job, es);
  }

  // As long as Download has not returned, some step can be taken.
  lemma NoDeadlock(job: Job, es: seq<Event>)
    requires IsRun(job, es) && !After(job, es).phase.Done?
    ensures exists e :: Enabled(job, After(job, es), e)
  {
    var s := After(job, es);
    RunKeepsInv(job, es);
    if Enabled(job, s, Main) {
    } else {
      assert s.phase.Waiting?;
      var w :| 0 <= w < |s.workers| && !s.workers[w].Finished?;
      if s.workers[w].Busy? { BusyIsHeld(s.workers, w); }
      assert Enabled(job, s, Work(w, Failure("")));
    }
  }

  // --- Termination ---

  function PhasesLeft(p: Phase): nat {
    match p case Starting => 4 case Sending => 3 case Waiting => 2 case Collecting => 1 case Done => 0
  }

  // What is left to do: every station has four moves, every worker two, Download four.
  function Left(job: Job, s: State): int {
    4 * (job.Count() - s.sent) + 3 * |s.queue| + 2 * |Held(s.workers)| + |s.results| +
    2 * (job.Workers() - |s.workers|) + Alive(s.workers) + PhasesLeft(s.phase)
  }

  lemma MainIsOneMove(job: Job, s: State)
    requires Enabled(job, s, Main)
    ensures Left(job, MainStep(job, s)) == Left(job, s) - 1
  {
    if s.phase.Starting? {
      if |s.workers| < job.Workers() { SpawnSnoc(s.workers); }
    }
  }

  lemma WorkIsOneMove(job: Job, s: State, w: nat, outcome: Outcome)
    requires Enabled(job, s, Work(w, outcome))
    ensures Left(job, WorkStep(s, w, outcome)) == Left(job, s) - 1
  {
    match s.workers[w]
    case Idle => SizesReplaced(s.workers, w, if s.queue != [] then Busy(s.queue[0]) else Finished);
    case Busy(_) => SizesReplaced(s.workers, w, Idle);
  }

  lemma StepIsOneMove(job: Job, s: State, e: Event)
    requires Enabled(job, s, e)
    ensures Left(job, Step(job, s, e)) == Left(job, s) - 1
  {
    match e
    case Main => MainIsOneMove(job, s);
    case Work(w, outcome) => WorkIsOneMove(job, s, w, outcome);
  }

  // Every step is one move, so no run has more than 4 moves a station, 2 a worker and 4 of Download.
  lemma {:induction false} RunsAreBounded(job: Job, es: seq<Event>)
    requires IsRun(job, es)
    ensures |es| + Left(job, After(job, es)) == 4 * job.Count() + 2 * job.Workers() + 4
    ensures |es| <= 4 * job.Count() + 2 * job.Workers() + 4
  {
    if es != [] {
      RunsAreBounded(job, es[..|es| - 1]);
      RunKeepsInv(job, es[..|es| - 1]);
      StepIsOneMove(job, After(job, es[..|es| - 1]), es[|es| - 1]);
    }
    RunKeepsInv(job, es);
  }

  lemma {:induction false} AllFinished(ws: seq<Worker>)
    requires forall w :: 0 <= w < |ws| ==> ws[w].Finished?
    ensures Held(ws) == [] && Alive(ws) == 0
  {
    if ws != [] { AllFinished(ws[..|ws| - 1]); }
  }

  lemma {:induction false} SummaryCounts(rs: seq<Result>)
    ensures var s := Summarised(rs); s.processed == |rs| == s.files + |s.errors|
  {
    if rs != [] { SummaryCounts(rs[..|rs| - 1]); }
  }

  lemma SameTimes(a: seq<Station>, b: seq<Station>)
    requires forall x :: Times(a, x) == Times(b, x)
    ensures multiset(a) == multiset(b)
  {
    forall x ensures multiset(a)[x] == multiset(b)[x] {
      TimesIsMultiplicity(a, x);
      TimesIsMultiplicity(b, x);
    }
  }

  // When Download returns with at least one worker, every station has exactly one result, all are
  // counted, and the run took exactly its number of moves.
  lemma EveryStationOnce(job: Job, es: seq<Event>)
    requires IsRun(job, es) && After(job, es).phase.Done? && (job.parallel >= 1 || job.stations == [])
    ensures var s := After(job, es);
      && multiset(StationsOf(s.collected)) == multiset(job.stations)
      && s.summary == Summarised(s.collected)
      && s.summary.processed == job.Count() == s.summary.files + |s.summary.errors|
      && |es| == 4 * job.Count() + 2 * job.Workers() + 4
  {
    var s := After(job, es);
    RunKeepsInv(job, es);
    AllFinished(s.workers);
    SummaryCounts(s.collected);
    RunsAreBounded(job, es);
    assert job.stations[..s.sent] == job.stations;
    if job.stations != [] { assert s.workers[0].Finished?; }
    forall x ensures Times(StationsOf(s.collected), x) == Times(job.stations, x) {
      assert Times(job.stations[..s.sent], x) == Places(s, x);
    }
    SameTimes(StationsOf(s.collected), job.stations);
  }

  // The exact condition: with a count of workers below 1 and stations to fetch, Download returns
  // normally and has fetched nothing.
  lemma AllProcessedIff(job: Job, es: seq<Event>)
    requires IsRun(job, es) && After(job, es).phase.Done?
    ensures After(job, es).summary.processed == job.Count() <==> job.parallel >= 1 || job.stations == []
    ensures job.parallel < 1 ==> After(job, es).summary == Summary(0, 0, 0, 0, [])
  {
    if job.parallel >= 1 || job.stations == [] {
      EveryStationOnce(job, es);
    } else {
      NoWorkersNoResults(job, es);
    }
    if job.parallel < 1 { NoWorkersNoResults(job, es); }
  }

  // No worker was started and nothing was ever sent back.
  ghost predicate Nothing(s: State) {
    s.workers == [] && s.results == [] && s.collected == [] && s.summary == Summary(0, 0, 0, 0, [])
  }

  lemma StepStaysNothing(job: Job, s: State, e: Event)
    requires Nothing(s) && job.parallel < 1 && Enabled(job, s, e)
    ensures Nothing(Step(job, s, e))
  {
  }

  lemma {:induction false} NoWorkersNoResults(job: Job, es: seq<Event>)
    requires IsRun(job, es) && job.parallel < 1
    ensures Nothing(After(job, es))
  {
    if es != [] {
      NoWorkersNoResults(job, es[..|es| - 1]);
      StepStaysNothing(job, After(job, es[..|es| - 1]), es[|es| - 1]);
    }
  }

  // --- The order of the channels ---

  // The stations that idle workers take in a run, in order.
  function Taken(job: Job, es: seq<Event>): seq<Station> {
    if es == [] then []
    else
      var s, e := After(job, es[..|es| - 1]), es[|es| - 1];
      Taken(job, es[..|es| - 1]) +
      if e.Work? && e.w < |s.workers| && s.workers[e.w].Idle? && s.queue != [] then [s.queue[0]] else []
  }

  // What the workers send back: the station they hold with the outcome of its download.
  function Delivered(job: Job, es: seq<Event>): seq<Result> {
    if es == [] then []
    else
      var s, e := After(job, es[..|es| - 1]), es[|es| - 1];
      Delivered(job, es[..|es| - 1]) +
      if e.Work? && e.w < |s.workers| && s.workers[e.w].Busy? then [Result(s.workers[e.w].station, e.outcome)] else []
  }

  ghost predicate InChannelOrder(job: Job, s: State, taken: seq<Station>, delivered: seq<Result>) {
    s.sent <= job.Count() && taken + s.queue == job.stations[..s.sent] && delivered == s.collected + s.results
  }

  lemma MainKeepsOrder(job: Job, s: State, taken: seq<Station>, delivered: seq<Result>)
    requires InChannelOrder(job, s, taken, delivered)
    ensures InChannelOrder(job, MainStep(job, s), taken, delivered)
  {
    if s.phase.Sending? && s.sent < job.Count() {
      Seqs.Concat(taken, s.queue, [job.stations[s.sent]]);
      assert job.stations[..s.sent + 1] == job.stations[..s.sent] + [job.stations[s.sent]];
    } else if s.phase.Collecting? && s.results != [] {
      assert s.results == [s.results[0]] + s.results[1..];
      Seqs.Concat(s.collected, [s.results[0]], s.results[1..]);
    }
  }

  lemma WorkKeepsOrder(job: Job, s: State, w: nat, outcome: Outcome, taken: seq<Station>, delivered: seq<Result>)
    requires InChannelOrder(job, s, taken, delivered) && Enabled(job, s, Work(w, outcome))
    ensures InChannelOrder(job, WorkStep(s, w, outcome),
                           taken + if s.workers[w].Idle? && s.queue != [] then [s.queue[0]] else [],
                           delivered + if s.workers[w].Busy? then [Result(s.workers[w].station, outcome)] else [])
  {
    assert taken + [] == taken && delivered + [] == delivered;
    if s.workers[w].Idle? && s.queue != [] {
      assert s.queue == [s.queue[0]] + s.queue[1..];
      Seqs.Concat(taken, [s.queue[0]], s.queue[1..]);
    } else if s.workers[w].Busy? {
      Seqs.Concat(s.collected, s.results, [Result(s.workers[w].station, outcome)]);
    }
  }

  // In every run the stations are taken in the order of the job, and the results are read in the order in
  // which the workers send them, each with the outcome of its own station.
  lemma {:induction false} ChannelsKeepOrder(job: Job, es: seq<Event>)
    requires IsRun(job, es)
    ensures var s := After(job, es);
      && s.sent <= |job.stations| && Taken(job, es) + s.queue == job.stations[..s.sent]
      && Delivered(job, es) == s.collected + s.results
  {
    if es != [] {
      var init, e := es[..|es| - 1], es[|es| - 1];
      var s := After(job, init);
      ChannelsKeepOrder(job, init);
      match e
      case Main =>
        MainKeepsOrder(job, s, Taken(job, init), Delivered(job, init));
        assert Taken(job, init) + [] == Taken(job, init) && Delivered(job, init) + [] == Delivered(job, init);
      case Work(w, outcome) =>
        WorkKeepsOrder(job, s, w, outcome, Taken(job, init), Delivered(job, init));
    }
  }

  // --- Reading the results ---

  function SumOf(value: Result -> nat, rs: seq<Result>): nat {
    if rs == [] then 0 else SumOf(value, rs[..|rs| - 1]) + value(rs[|rs| - 1])
  }

  // What a result adds to a total, and which results are failures.
  ghost predicate Totals(records: Result -> nat, bytes: Result -> nat, failed: Result -> bool) {
    forall r: Result ::
      && records(r) == (if r.outcome.Success? then r.outcome.records else 0)
      && bytes(r) == (if r.outcome.Success? then r.outcome.bytes else 0)
      && failed(r) == r.outcome.Failure?
  }

  // The errors are those of these failures, in the same order.
  ghost predicate ErrorsOf(errors: seq<string>, failures: seq<Result>) {
    && |errors| == |failures|
    && forall i :: 0 <= i < |failures| ==> failures[i].outcome == Failure(errors[i])
  }

  // The summary of the results: all are counted, the totals are the sums over the successful ones, every
  // successful one is a file, and every other one leaves its error, in order.
  lemma {:induction false} SummaryIsSums(rs: seq<Result>, records: Result -> nat, bytes: Result -> nat,
                                         failed: Result -> bool)
    requires Totals(records, bytes, failed)
    ensures var s := Summarised(rs);
      && s.processed == |rs|
      && s.records == SumOf(records, rs) && s.bytes == SumOf(bytes, rs)
      && s.files == |rs| - |Seqs.Filter(rs, failed)|
      && ErrorsOf(s.errors, Seqs.Filter(rs, failed))
  {
    if rs != [] {
      SummaryIsSums(rs[..|rs| - 1], records, bytes, failed);
      var r := rs[|rs| - 1];
      assert failed(r) == r.outcome.Failure?;
    }
  }

  // At most one worker a station, and none for a count below 1.
  lemma WorkersAreCapped(job: Job)
    ensures job.parallel < 1 ==> job.Workers() == 0
    ensures 1 <= job.parallel <= |job.stations| ==> job.Workers() == job.parallel
    ensures job.parallel >= 1 && job.parallel > |job.stations| ==> job.Workers() == |job.stations|
  {
  }

  // The last loop of Download, over the closed channel.
  method Collect(results: seq<Result>) returns (summary: Summary)
    ensures summary == Summarised(results)
  {
    summary := Summary(0, 0, 0, 0, []);
    var i := 0;
    while i < |results|
      invariant i <= |results| && summary == Summarised(results[..i])
    {
      var r := results[i];
      assert results[..i + 1][..i] == results[..i];
      var processed, records, bytes := summary.processed + 1, summary.records, summary.bytes;
      var files, errors := summary.files, summary.errors;
      match r.outcome {
        case Success(n, b) =>
          records := records + n;
          bytes := bytes + b;
          files := files + 1;
        case Failure(error) =>
          errors := errors + [error];
      }
      summary := Summary(processed, records, bytes, files, errors);
      i := i + 1;
    }
    assert results[..i] == results;
  }
}
