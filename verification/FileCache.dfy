// Polling the directory: files whose path, time and size were seen before are skipped.
module FileCache {
  import opened Text
  import opened PageText
  import opened Ingestion
  import CsvText

  const PATH_MAX := 511

  datatype Stamp = Stamp(mtime: int, size: int)
  datatype Tracked = Tracked(path: string, stamp: Stamp)

  // The weather table, the tracked files in memory and the tracked files in the database.
  datatype State = State(rows: seq<Row>, cache: seq<Tracked>, persisted: map<string, Stamp>)

  // One file of a poll: stat may fail, opening may fail, inserts may fail, and so may recording it.
  // A restart forgets the list in memory and loads the persisted one in some order.
  datatype Event =
    | Visit(path: string, stat: Option<Stamp>, file: Option<seq<string>>, broken: nat -> bool, recorded: bool)
    | Restart(loaded: seq<Tracked>)

  // The first entry with that path, or the length of the list.
  function Position(cache: seq<Tracked>, path: string): (i: nat)
    ensures i <= |cache| && (i < |cache| ==> cache[i].path == path)
    ensures forall j :: 0 <= j < i ==> cache[j].path != path
  {
    if cache == [] || cache[0].path == path then 0 else 1 + Position(cache[1..], path)
  }

  predicate Unchanged(cache: seq<Tracked>, path: string, stamp: Stamp) {
    var i := Position(cache, path);
    i < |cache| && cache[i].stamp == stamp
  }

  function Mark(cache: seq<Tracked>, path: string, stamp: Stamp): seq<Tracked> {
    var i := Position(cache, path);
    if i < |cache| then cache[i := Tracked(path, stamp)] else [Tracked(path, stamp)] + cache
  }

  // Each loaded row is pushed in front; rows without a path are passed over.
  function Loaded(cache: seq<Tracked>, loaded: seq<Tracked>): seq<Tracked> {
    if loaded == [] then cache
    else
      var n := |loaded| - 1;
      var before := Loaded(cache, loaded[..n]);
      if loaded[n].path == "" then before else [loaded[n]] + before
  }

  function Visited(s: State, path: string, stamp: Stamp, file: seq<string>,
                   broken: nat -> bool, recorded: bool): State
  {
    var i := Ingested(s.rows, file, broken);
    if i.errors > 0 then s.(rows := i.rows)
    else State(i.rows, Mark(s.cache, path, stamp), if recorded then s.persisted[path := stamp] else s.persisted)
  }

  function Step(s: State, e: Event): State {
    match e
    case Visit(path, None, _, _, _) => s
    case Visit(path, Some(stamp), file, broken, recorded) =>
      if Unchanged(s.cache, path, stamp) || file.None? then s
      else Visited(s, path, stamp, file.value, broken, recorded)
    case Restart(loaded) => s.(cache := Loaded([], loaded))
  }

  function After(s: State, es: seq<Event>): State {
    if es == [] then s else Step(After(s, es[..|es| - 1]), es[|es| - 1])
  }

  // The service without the cache: every file that can be opened is ingested at every poll.
  function Always(rows: seq<Row>, e: Event): seq<Row> {
    if e.Visit? && e.stat.Some? && e.file.Some? then Ingested(rows, e.file.value, e.broken).rows else rows
  }

  function AlwaysAfter(rows: seq<Row>, es: seq<Event>): seq<Row> {
    if es == [] then rows else Always(AlwaysAfter(rows, es[..|es| - 1]), es[|es| - 1])
  }

  // --- Soundness ---

  type Contents = (string, Stamp) -> seq<string>

  // Path, time and size determine the content; a restart loads what is persisted.
  ghost predicate Allowed(content: Contents, s: State, e: Event) {
    match e
    case Visit(path, stat, file, _, _) => stat.Some? && file.Some? ==> file.value == content(path, stat.value)
    case Restart(loaded) => forall t :: t in loaded ==> t.path in s.persisted && s.persisted[t.path] == t.stamp
  }

  ghost predicate IsRun(content: Contents, s: State, es: seq<Event>) {
    es == [] || (IsRun(content, s, es[..|es| - 1]) && Allowed(content, After(s, es[..|es| - 1]), es[|es| - 1]))
  }

  // The file parses completely and all its rows are in the table.
  ghost predicate Stored(content: Contents, rows: seq<Row>, path: string, stamp: Stamp) {
    Clean(Body(content(path, stamp))) && Parsed(Body(content(path, stamp))) <= RowSet(rows)
  }

  ghost predicate CacheSound(content: Contents, rows: seq<Row>, cache: seq<Tracked>) {
    forall i :: 0 <= i < |cache| ==> Stored(content, rows, cache[i].path, cache[i].stamp)
  }

  ghost predicate PersistedSound(content: Contents, rows: seq<Row>, persisted: map<string, Stamp>) {
    forall p :: p in persisted ==> Stored(content, rows, p, persisted[p])
  }

  ghost predicate Sound(content: Contents, s: State) {
    CacheSound(content, s.rows, s.cache) && PersistedSound(content, s.rows, s.persisted)
  }

  lemma StillSound(content: Contents, s: State, rows: seq<Row>)
    requires Sound(content, s) && RowSet(s.rows) <= RowSet(rows)
    ensures Sound(content, s.(rows := rows))
  {
    forall p | p in s.persisted ensures Stored(content, rows, p, s.persisted[p]) {
      assert Stored(content, s.rows, p, s.persisted[p]);
    }
    forall i | 0 <= i < |s.cache| ensures Stored(content, rows, s.cache[i].path, s.cache[i].stamp) {
      assert Stored(content, s.rows, s.cache[i].path, s.cache[i].stamp);
    }
  }

  lemma MarkKeepsSound(content: Contents, rows: seq<Row>, cache: seq<Tracked>, path: string, stamp: Stamp)
    requires CacheSound(content, rows, cache) && Stored(content, rows, path, stamp)
    ensures CacheSound(content, rows, Mark(cache, path, stamp))
  {
  }

  lemma {:induction false} LoadedSound(content: Contents, rows: seq<Row>, loaded: seq<Tracked>)
    requires forall t :: t in loaded ==> Stored(content, rows, t.path, t.stamp)
    ensures CacheSound(content, rows, Loaded([], loaded))
  {
    if loaded != [] {
      LoadedSound(content, rows, loaded[..|loaded| - 1]);
    }
  }

  lemma VisitKeepsSound(content: Contents, s: State, path: string, stamp: Stamp, broken: nat -> bool, recorded: bool)
    requires Sound(content, s)
    ensures Sound(content, Visited(s, path, stamp, content(path, stamp), broken, recorded))
  {
    var body := Body(content(path, stamp));
    var i := Ingested(s.rows, content(path, stamp), broken);
    RowsAfter(s.rows, body, broken);
    NoErrorIff(s.rows, body, broken);
    StillSound(content, s, i.rows);
    if i.errors == 0 {
      MarkKeepsSound(content, i.rows, s.cache, path, stamp);
    }
  }

  lemma RestartKeepsSound(content: Contents, s: State, loaded: seq<Tracked>)
    requires Sound(content, s) && Allowed(content, s, Restart(loaded))
    ensures Sound(content, Step(s, Restart(loaded)))
  {
    forall t | t in loaded ensures Stored(content, s.rows, t.path, t.stamp) {
      assert Stored(content, s.rows, t.path, s.persisted[t.path]);
    }
    LoadedSound(content, s.rows, loaded);
  }

  lemma StepKeepsSound(content: Contents, s: State, e: Event)
    requires Sound(content, s) && Allowed(content, s, e)
    ensures Sound(content, Step(s, e))
  {
    match e
    case Visit(path, Some(stamp), Some(file), broken, recorded) =>
      VisitKeepsSound(content, s, path, stamp, broken, recorded);
    case Visit(_, _, _, _, _) =>
    case Restart(loaded) =>
      RestartKeepsSound(content, s, loaded);
  }

  // In every run of file changes, polls, failures and restarts: a file that would be skipped parses
  // completely and all its rows are stored already.
  lemma {:induction false} SkippedFilesAreStored(content: Contents, s: State, es: seq<Event>)
    requires Sound(content, s) && IsRun(content, s, es)
    ensures Sound(content, After(s, es))
    ensures forall path, stamp :: Unchanged(After(s, es).cache, path, stamp) ==>
      Stored(content, After(s, es).rows, path, stamp)
  {
    if es != [] {
      SkippedFilesAreStored(content, s, es[..|es| - 1]);
      StepKeepsSound(content, After(s, es[..|es| - 1]), es[|es| - 1]);
    }
  }

  lemma SkipIsHarmless(content: Contents, s: State, e: Event)
    requires Sound(content, s) && Allowed(content, s, e)
    ensures Step(s, e).rows == Always(s.rows, e)
  {
    match e
    case Visit(path, Some(stamp), Some(file), broken, _) =>
      if Unchanged(s.cache, path, stamp) {
        var i := Position(s.cache, path);
        assert Stored(content, s.rows, s.cache[i].path, s.cache[i].stamp);
        NothingNew(s.rows, Body(file), broken);
      }
    case Visit(_, _, _, _, _) =>
    case Restart(_) =>
  }

  // The cache changes nothing: every run stores the same rows in the same order as the service that
  // ingests every file at every poll.
  lemma {:induction false} CacheChangesNothing(content: Contents, s: State, es: seq<Event>)
    requires Sound(content, s) && IsRun(content, s, es)
    ensures After(s, es).rows == AlwaysAfter(s.rows, es)
  {
    if es != [] {
      var n := |es| - 1;
      CacheChangesNothing(content, s, es[..n]);
      SkippedFilesAreStored(content, s, es[..n]);
      SkipIsHarmless(content, After(s, es[..n]), es[n]);
    }
  }

  // No two rows ever agree on all seven columns.
  lemma {:induction false} RowsStayDistinct(s: State, es: seq<Event>)
    requires Distinct(s.rows)
    ensures Distinct(After(s, es).rows)
  {
    if es != [] {
      var before, e := After(s, es[..|es| - 1]), es[|es| - 1];
      RowsStayDistinct(s, es[..|es| - 1]);
      if e.Visit? && e.file.Some? { EveryLineIsCounted(before.rows, Body(e.file.value), e.broken); }
    }
  }

  // In particular for a service that starts on an empty database.
  lemma CacheChangesNothingFromScratch(content: Contents, es: seq<Event>)
    requires IsRun(content, State([], [], map[]), es)
    ensures After(State([], [], map[]), es).rows == AlwaysAfter([], es)
  {
    CacheChangesNothing(content, State([], [], map[]), es);
  }

  // --- Without the assumption on contents ---

  predicate Skips(s: State, e: Event) {
    e.Visit? && e.stat.Some? && e.file.Some? && Unchanged(s.cache, e.path, e.stat.value)
  }

  predicate Takes(s: State, e: Event) {
    e.Visit? && e.stat.Some? && e.file.Some? && !Unchanged(s.cache, e.path, e.stat.value)
  }

  function RowsOf(e: Event): set<Row> {
    if e.Visit? && e.file.Some? then Parsed(Body(e.file.value)) else {}
  }

  // The rows of the files that were skipped, and of those that were ingested.
  function Skipped(s: State, es: seq<Event>): set<Row> {
    if es == [] then {}
    else
      var n := |es| - 1;
      Skipped(s, es[..n]) + if Skips(After(s, es[..n]), es[n]) then RowsOf(es[n]) else {}
  }

  function Taken(s: State, es: seq<Event>): set<Row> {
    if es == [] then {}
    else
      var n := |es| - 1;
      Taken(s, es[..n]) + if Takes(After(s, es[..n]), es[n]) then RowsOf(es[n]) else {}
  }

  ghost predicate InsertsWork(es: seq<Event>) {
    forall i :: 0 <= i < |es| && es[i].Visit? && es[i].file.Some? ==> Working(es[i].broken, |Body(es[i].file.value)|)
  }

  lemma StepRows(s: State, rows: seq<Row>, e: Event)
    requires e.Visit? && e.file.Some? ==> Working(e.broken, |Body(e.file.value)|)
    ensures RowSet(Step(s, e).rows) == RowSet(s.rows) + if Takes(s, e) then RowsOf(e) else {}
    ensures RowSet(Always(rows, e)) == RowSet(rows) + if Takes(s, e) || Skips(s, e) then RowsOf(e) else {}
  {
    if e.Visit? && e.file.Some? {
      RowsWhenWorking(s.rows, Body(e.file.value), e.broken);
      RowsWhenWorking(rows, Body(e.file.value), e.broken);
    }
  }

  lemma {:induction false} RunRows(s: State, es: seq<Event>)
    requires InsertsWork(es)
    ensures RowSet(After(s, es).rows) == RowSet(s.rows) + Taken(s, es)
    ensures RowSet(AlwaysAfter(s.rows, es)) == RowSet(s.rows) + Taken(s, es) + Skipped(s, es)
  {
    if es != [] {
      var n := |es| - 1;
      RunRows(s, es[..n]);
      StepRows(After(s, es[..n]), AlwaysAfter(s.rows, es[..n]), es[n]);
    }
  }

  // Over every run, whatever the files contain: with working inserts the cache loses nothing if and only if
  // every row of every skipped file was in the table from the start or in a file that was ingested.
  lemma CacheLosesNothingIff(s: State, es: seq<Event>)
    requires InsertsWork(es)
    ensures RowSet(After(s, es).rows) == RowSet(AlwaysAfter(s.rows, es)) <==>
            Skipped(s, es) <= RowSet(s.rows) + Taken(s, es)
  {
    RunRows(s, es);
  }

  lemma MarkedIsUnchanged(cache: seq<Tracked>, path: string, stamp: Stamp)
    ensures Unchanged(Mark(cache, path, stamp), path, stamp)
  {
    var i := Position(cache, path);
    var marked := Mark(cache, path, stamp);
    if i < |cache| {
      assert marked[i].path == path;
      assert forall j :: 0 <= j < i ==> marked[j] == cache[j];
    }
  }

  lemma TwoSteps(s: State, e1: Event, e2: Event)
    ensures After(s, [e1, e2]) == Step(Step(s, e1), e2)
    ensures AlwaysAfter(s.rows, [e1, e2]) == Always(Always(s.rows, e1), e2)
  {
    assert [e1, e2][..1] == [e1] && [e1][..0] == [];
    assert After(s, [e1]) == Step(After(s, []), e1);
    assert AlwaysAfter(s.rows, [e1]) == Always(AlwaysAfter(s.rows, []), e1);
  }

  // The least run that loses rows: a file rewritten under an unchanged time and size is skipped, and its rows
  // are missing exactly when they were not all stored before.
  lemma ReusedStampLosesRowsIff(s: State, path: string, stamp: Stamp, f: seq<string>, g: seq<string>)
    requires Clean(Body(f)) && !Unchanged(s.cache, path, stamp)
    ensures var es := [Visit(path, Some(stamp), Some(f), Never(), true),
                       Visit(path, Some(stamp), Some(g), Never(), true)];
      After(s, es).rows == AlwaysAfter(s.rows, es) <==>
      Parsed(Body(g)) <= RowSet(s.rows) + Parsed(Body(f))
  {
    var e1 := Visit(path, Some(stamp), Some(f), Never(), true);
    var e2 := Visit(path, Some(stamp), Some(g), Never(), true);
    var es := [e1, e2];
    NoErrorIff(s.rows, Body(f), Never());
    MarkedIsUnchanged(s.cache, path, stamp);
    TwoSteps(s, e1, e2);
    NothingNewIff(Step(s, e1).rows, Body(g), Never());
  }

  // --- The service ---

  // A directory entry as one poll finds it.
  datatype Entry = Entry(name: string, stat: Option<Stamp>, file: Option<seq<string>>,
                         broken: nat -> bool, recorded: bool)

  predicate IsCsv(name: string) {
    |name| > 4 && name[|name| - 4..] == ".csv"
  }

  function PathOf(directory: string, name: string): string {
    Truncate(directory + "/" + name, PATH_MAX)
  }

  function Visits(directory: string, entries: seq<Entry>): seq<Event> {
    if entries == [] then []
    else
      var n := |entries| - 1;
      var e := entries[n];
      Visits(directory, entries[..n]) +
      if IsCsv(e.name) then [Visit(PathOf(directory, e.name), e.stat, e.file, e.broken, e.recorded)] else []
  }

  lemma AfterSnoc(s: State, es: seq<Event>, e: Event)
    ensures After(s, es + [e]) == Step(After(s, es), e)
  {
    assert (es + [e])[..|es|] == es;
  }

  lemma LinesNext(rows: seq<Row>, lines: seq<string>, i: nat, broken: nat -> bool)
    requires i < |lines|
    ensures Lines(rows, lines[..i + 1], broken) == CountLine(Lines(rows, lines[..i], broken), lines[i], broken(i))
  {
    assert lines[..i + 1][..i] == lines[..i];
  }

  // --- What marking, loading and polling do ---

  // The first entry of that path has this stamp.
  ghost predicate Tracks(cache: seq<Tracked>, path: string, stamp: Stamp) {
    exists i :: 0 <= i < |cache| && cache[i] == Tracked(path, stamp) && forall j :: 0 <= j < i ==> cache[j].path != path
  }

  lemma FirstPosition(cache: seq<Tracked>, path: string, i: nat)
    requires i < |cache| && cache[i].path == path
    requires forall j :: 0 <= j < i ==> cache[j].path != path
    ensures Position(cache, path) == i
  {
  }

  lemma TracksIff(cache: seq<Tracked>, path: string, stamp: Stamp)
    ensures Unchanged(cache, path, stamp) <==> Tracks(cache, path, stamp)
  {
    var i := Position(cache, path);
    if i < |cache| && cache[i].stamp == stamp {
      assert cache[i] == Tracked(path, stamp);
    }
    if Tracks(cache, path, stamp) {
      var k :| 0 <= k < |cache| && cache[k] == Tracked(path, stamp) && forall j :: 0 <= j < k ==> cache[j].path != path;
      FirstPosition(cache, path, k);
    }
  }

  lemma PushedFront(cache: seq<Tracked>, e: Tracked, p: string, t: Stamp)
    ensures Tracks([e] + cache, p, t) <==> if e.path == p then e.stamp == t else Tracks(cache, p, t)
  {
    var pushed := [e] + cache;
    assert pushed[0] == e && pushed[1..] == cache;
    TracksIff(pushed, p, t);
    TracksIff(cache, p, t);
  }

  lemma Replaced(cache: seq<Tracked>, i: nat, stamp: Stamp, p: string, t: Stamp)
    requires i < |cache| && cache[i].path != p
    ensures Tracks(cache[i := Tracked(cache[i].path, stamp)], p, t) <==> Tracks(cache, p, t)
  {
    var now := cache[i := Tracked(cache[i].path, stamp)];
    assert forall j :: 0 <= j < |cache| ==> now[j].path == cache[j].path;
    assert forall j :: 0 <= j < |cache| && cache[j].path == p ==> now[j] == cache[j];
  }

  // A marked file is tracked with its new time and size and no other; no other file changes its status.
  lemma MarkedIff(cache: seq<Tracked>, path: string, stamp: Stamp, p: string, t: Stamp)
    ensures Tracks(Mark(cache, path, stamp), p, t) <==>
            if p == path then t.mtime == stamp.mtime && t.size == stamp.size else Tracks(cache, p, t)
  {
    var i := Position(cache, path);
    if i == |cache| {
      PushedFront(cache, Tracked(path, stamp), p, t);
    } else if p != path {
      Replaced(cache, i, stamp, p, t);
    } else {
      MarkedIsUnchanged(cache, path, stamp);
      TracksIff(Mark(cache, path, stamp), p, t);
    }
  }

  // Loading rows that agree on a path tracks it with their time and size, unless the path is empty; a path that
  // is not loaded keeps its status.
  lemma {:induction false} LoadedIff(cache: seq<Tracked>, loaded: seq<Tracked>, p: string, stamp: Stamp, t: Stamp)
    requires forall e :: e in loaded && e.path == p ==> e.stamp == stamp
    ensures Tracks(Loaded(cache, loaded), p, t) <==>
            if p != "" && Tracked(p, stamp) in loaded then t == stamp else Tracks(cache, p, t)
  {
    if loaded != [] {
      var n := |loaded| - 1;
      LoadedIff(cache, loaded[..n], p, stamp, t);
      PushedFront(Loaded(cache, loaded[..n]), loaded[n], p, t);
      assert loaded == loaded[..n] + [loaded[n]];
    }
  }

  // The rows selected from the database, in some order.
  ghost predicate Selects(loaded: seq<Tracked>, persisted: map<string, Stamp>) {
    forall p, t :: Tracked(p, t) in loaded <==> p in persisted && persisted[p] == t
  }

  // After a restart exactly the persisted files are tracked, with the persisted time and size.
  lemma RestartIff(s: State, loaded: seq<Tracked>, p: string, t: Stamp)
    requires Selects(loaded, s.persisted)
    ensures Tracks(Step(s, Restart(loaded)).cache, p, t) <==> p != "" && p in s.persisted && s.persisted[p] == t
  {
    var stamp := if p in s.persisted then s.persisted[p] else t;
    forall e | e in loaded && e.path == p ensures e.stamp == stamp {
      assert Tracked(e.path, e.stamp) in loaded;
    }
    LoadedIff([], loaded, p, stamp, t);
  }

  // A file that was ingested and recorded without an error is skipped after the next restart.
  lemma RestartRemembers(s: State, path: string, stamp: Stamp, file: seq<string>, loaded: seq<Tracked>)
    requires path != "" && Clean(Body(file))
    requires Selects(loaded, Visited(s, path, stamp, file, Never(), true).persisted)
    ensures var restarted := Step(Visited(s, path, stamp, file, Never(), true), Restart(loaded));
      Step(restarted, Visit(path, Some(stamp), Some(file), Never(), true)) == restarted
  {
    NoErrorIff(s.rows, Body(file), Never());
    var next := Visited(s, path, stamp, file, Never(), true);
    RestartIff(next, loaded, path, stamp);
    TracksIff(Loaded([], loaded), path, stamp);
  }

  // The state after the first entries of a poll.
  function Polled(s: State, directory: string, entries: seq<Entry>, n: nat): State
    requires n <= |entries|
  {
    After(s, Visits(directory, entries[..n]))
  }

  lemma PolledNext(s: State, directory: string, entries: seq<Entry>, i: nat)
    requires i < |entries|
    ensures var e := entries[i];
      Polled(s, directory, entries, i + 1) ==
      if IsCsv(e.name)
      then Step(Polled(s, directory, entries, i),
                Visit(PathOf(directory, e.name), e.stat, e.file, e.broken, e.recorded))
      else Polled(s, directory, entries, i)
  {
    var e := entries[i];
    var so := Visits(directory, entries[..i]);
    assert entries[..i + 1][..i] == entries[..i];
    AfterSnoc(s, so, Visit(PathOf(directory, e.name), e.stat, e.file, e.broken, e.recorded));
    assert so + [] == so;
  }

  lemma CsvStem(name: string)
    ensures IsCsv(name) <==> exists stem: string :: stem + ".csv" == name && stem != ""
  {
    if IsCsv(name) { assert name[..|name| - 4] + ".csv" == name; }
  }

  // An entry whose name does not end in .csv, or is nothing else, changes nothing.
  lemma OtherNamesChangeNothing(s: State, directory: string, entries: seq<Entry>, i: nat)
    requires i < |entries| && forall stem: string :: stem + ".csv" == entries[i].name ==> stem == ""
    ensures Polled(s, directory, entries, i + 1) == Polled(s, directory, entries, i)
  {
    CsvStem(entries[i].name);
    PolledNext(s, directory, entries, i);
  }

  // What a poll does with stem.csv: nothing without its stamp, without its content or when it is tracked with
  // this stamp; otherwise the rows of its lines after the first are stored, and it is tracked if all of them parse.
  lemma PollStep(s: State, directory: string, entries: seq<Entry>, i: nat, stem: string, path: string, t: Stamp,
                 file: seq<string>)
    requires i < |entries| && stem != "" && entries[i].name == stem + ".csv"
    requires var full := directory + "/" + stem + ".csv"; path == if |full| <= 511 then full else full[..511]
    ensures var e, prior, next := entries[i], Polled(s, directory, entries, i), Polled(s, directory, entries, i + 1);
      && (e.stat.None? || e.file.None? ==> next == prior)
      && (e.stat == Some(t) && Tracks(prior.cache, path, t) ==> next == prior)
      && (e.stat == Some(t) && e.file == Some(file) && !Tracks(prior.cache, path, t) ==>
            next == Visited(prior, path, t, file, e.broken, e.recorded))
  {
    PolledNext(s, directory, entries, i);
    assert entries[i].name[|stem|..] == ".csv";
    assert directory + "/" + entries[i].name == directory + "/" + stem + ".csv";
    TracksIff(Polled(s, directory, entries, i).cache, path, t);
  }

  // What ingesting a file does when every insert works.
  lemma VisitedStores(s: State, path: string, t: Stamp, file: seq<string>, broken: nat -> bool, recorded: bool)
    requires Working(broken, |Body(file)|)
    ensures var next := Visited(s, path, t, file, broken, recorded);
      && RowSet(next.rows) == RowSet(s.rows) + Parsed(if file == [] then [] else file[1..])
      && (Clean(Body(file)) ==> Tracks(next.cache, path, t))
      && (Clean(Body(file)) && recorded ==> path in next.persisted && next.persisted[path] == t)
      && (!Clean(Body(file)) ==> next.cache == s.cache && next.persisted == s.persisted)
  {
    RowsWhenWorking(s.rows, Body(file), broken);
    NoErrorIff(s.rows, Body(file), broken);
    MarkedIff(s.cache, path, t, path, t);
  }

  lemma StepOnlyAdds(s: State, e: Event)
    ensures RowSet(s.rows) <= RowSet(Step(s, e).rows)
  {
    if e.Visit? && e.file.Some? { RowsAfter(s.rows, Body(e.file.value), e.broken); }
  }

  lemma NextOnlyAdds(s: State, directory: string, entries: seq<Entry>, i: nat)
    requires i < |entries|
    ensures RowSet(Polled(s, directory, entries, i).rows) <= RowSet(Polled(s, directory, entries, i + 1).rows)
  {
    var e := entries[i];
    PolledNext(s, directory, entries, i);
    StepOnlyAdds(Polled(s, directory, entries, i),
                 Visit(PathOf(directory, e.name), e.stat, e.file, e.broken, e.recorded));
  }

  lemma {:induction false} Monotone(at: nat -> set<Row>, i: nat, n: nat)
    requires i <= n && forall k: nat :: i <= k < n ==> at(k) <= at(k + 1)
    ensures at(i) <= at(n)
  {
    if i < n {
      Monotone(at, i, n - 1);
      assert at(n - 1) <= at(n - 1 + 1);
    }
  }

  lemma PollOnlyAdds(s: State, directory: string, entries: seq<Entry>, i: nat)
    requires i <= |entries|
    ensures RowSet(Polled(s, directory, entries, i).rows) <= RowSet(Polled(s, directory, entries, |entries|).rows)
  {
    var at := (k: nat) => if k <= |entries| then RowSet(Polled(s, directory, entries, k).rows) else {};
    forall k: nat | i <= k < |entries| ensures at(k) <= at(k + 1) {
      NextOnlyAdds(s, directory, entries, k);
    }
    Monotone(at, i, |entries|);
  }

  // After a poll the rows of every readable file stem.csv that was not skipped are stored.
  lemma PollStores(s: State, directory: string, entries: seq<Entry>, i: nat, stem: string, path: string, t: Stamp,
                   file: seq<string>)
    requires i < |entries| && stem != "" && entries[i].name == stem + ".csv"
    requires var full := directory + "/" + stem + ".csv"; path == if |full| <= 511 then full else full[..511]
    requires entries[i].stat == Some(t) && entries[i].file == Some(file) && Working(entries[i].broken, |Body(file)|)
    requires !Tracks(Polled(s, directory, entries, i).cache, path, t)
    ensures Parsed(Body(file)) <= RowSet(After(s, Visits(directory, entries)).rows)
  {
    var e := entries[i];
    PollStep(s, directory, entries, i, stem, path, t, file);
    VisitedStores(Polled(s, directory, entries, i), path, t, file, e.broken, e.recorded);
    PollOnlyAdds(s, directory, entries, i + 1);
    assert entries[..|entries|] == entries;
  }

  class Ingestor {
    var rows: seq<Row>
    var cache: seq<Tracked>
    var persisted: map<string, Stamp>

    ghost function View(): State
      reads this
    {
      State(rows, cache, persisted)
    }

    // The insert statement: a row is added unless one agrees with it on all columns.
    method InsertRow(r: Row) returns (changes: nat)
      modifies this`rows
      ensures rows == Insert(old(rows), r) && changes == if r in old(rows) then 0 else 1
    {
      changes := 0;
      if r !in rows {
        rows := rows + [r];
        changes := 1;
      }
    }

    // One scanned line of the file, counted as an insertion, a duplicate or an error.
    method IngestLine(parsed: Option<Row>, broken: bool, done: Ingest) returns (next: Ingest)
      requires done.rows == rows
      modifies this`rows
      ensures next == Count(done, parsed, broken) && rows == next.rows
    {
      match parsed
      case None =>
        next := done.(lines := done.lines + 1, errors := done.errors + 1);
      case Some(r) =>
        if broken {
          next := done.(lines := done.lines + 1, errors := done.errors + 1);
        } else {
          var changes := InsertRow(r);
          if changes > 0 {
            next := done.(rows := rows, lines := done.lines + 1, inserted := done.inserted + 1);
          } else {
            next := done.(lines := done.lines + 1, duplicates := done.duplicates + 1);
          }
        }
    }

    method IngestFile(file: Option<seq<string>>, broken: nat -> bool) returns (status: int, done: Ingest)
      modifies this`rows
      ensures file.None? ==> status == -1 && rows == old(rows)
      ensures file.Some? ==> done == Ingested(old(rows), file.value, broken) && rows == done.rows
      ensures file.Some? ==> status == if done.errors > 0 then -1 else 0
    {
      done := Ingest(rows, 0, 0, 0, 0);
      if file.None? {
        return -1, done;
      }
      var body := Body(file.value);
      var i := 0;
      while i < |body|
        invariant i <= |body|
        invariant done == Lines(old(rows), body[..i], broken) && rows == done.rows
      {
        LinesNext(old(rows), body, i, broken);
        var parsed := CsvText.ParseLine(body[i]);
        done := IngestLine(parsed, broken(i), done);
        i := i + 1;
      }
      assert body[..i] == body;
      status := if done.errors > 0 then -1 else 0;
    }

    // find_processed_file: the place in the list, or -1.
    method FindProcessed(path: string) returns (i: int)
      ensures i == if Position(cache, path) < |cache| then Position(cache, path) else -1
    {
      i := 0;
      while i < |cache|
        invariant 0 <= i <= |cache|
        invariant forall j :: 0 <= j < i ==> cache[j].path != path
      {
        if cache[i].path == path {
          FirstPosition(cache, path, i);
          return;
        }
        i := i + 1;
      }
      i := -1;
    }

    method ShouldProcess(path: string, stamp: Stamp) returns (process: bool)
      ensures process == !Unchanged(cache, path, stamp)
    {
      var i := FindProcessed(path);
      if i < 0 {
        return true;
      }
      process := cache[i].stamp.mtime != stamp.mtime || cache[i].stamp.size != stamp.size;
    }

    method MarkProcessed(path: string, stamp: Stamp, recorded: bool) returns (status: int)
      modifies this`cache, this`persisted
      ensures cache == Mark(old(cache), path, stamp)
      ensures persisted == if recorded then old(persisted)[path := stamp] else old(persisted)
      ensures status == if recorded then 0 else -1
    {
      var i := FindProcessed(path);
      if i < 0 {
        cache := [Tracked(path, stamp)] + cache;
      } else {
        cache := cache[i := Tracked(path, stamp)];
      }
      if !recorded {
        return -1;
      }
      persisted := persisted[path := stamp];
      status := 0;
    }

    method LoadProcessed(selected: seq<Tracked>)
      modifies this`cache
      ensures cache == Loaded(old(cache), selected)
    {
      var i := 0;
      while i < |selected|
        invariant i <= |selected| && cache == Loaded(old(cache), selected[..i])
      {
        assert selected[..i + 1][..i] == selected[..i];
        if selected[i].path != "" {
          cache := [selected[i]] + cache;
        }
        i := i + 1;
      }
      assert selected[..i] == selected;
    }

    // One directory entry that ends in .csv.
    method ProcessFile(path: string, e: Entry)
      modifies this
      ensures View() == Step(old(View()), Visit(path, e.stat, e.file, e.broken, e.recorded))
    {
      if e.stat.None? {
        return;
      }
      var process := ShouldProcess(path, e.stat.value);
      if !process {
        return;
      }
      var status, _ := IngestFile(e.file, e.broken);
      if status == 0 {
        var _ := MarkProcessed(path, e.stat.value, e.recorded);
      }
    }

    // One poll of the directory.
    method ProcessFiles(directory: string, entries: seq<Entry>)
      modifies this
      ensures View() == After(old(View()), Visits(directory, entries))
    {
      var i := 0;
      while i < |entries|
        invariant i <= |entries|
        invariant View() == After(old(View()), Visits(directory, entries[..i]))
      {
        var e := entries[i];
        assert entries[..i + 1][..i] == entries[..i];
        ghost var so := Visits(directory, entries[..i]);
        if IsCsv(e.name) {
          AfterSnoc(old(View()), so, Visit(PathOf(directory, e.name), e.stat, e.file, e.broken, e.recorded));
          ProcessFile(PathOf(directory, e.name), e);
        } else {
          assert so + [] == so;
        }
        i := i + 1;
      }
      assert entries[..i] == entries;
    }
  }
}
