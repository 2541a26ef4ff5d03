// The aggregator: paging through the raw rows and keeping running statistics per station, day and metric.
module Aggregation {
  import opened Text
  import opened PageText
  import Seqs

  const LIMIT := 10000
  const MAX_LIMIT := 50000

  datatype Key = Key(station: string, day: string, metric: string)

  // A row of daily_aggregates.
  datatype Agg = Agg(avg: real, min: real, max: real, count: nat)

  type Table = map<Key, Agg>

  function KeyOf(r: Record): Key {
    Key(r.station, Truncate(r.date, 8), r.element)
  }

  function Mean(sum: real, n: nat): real
    requires n > 0
  {
    sum / n as real
  }

  // The update of a conflicting row.
  function Merge(a: Agg, v: real): Agg {
    Agg(Mean(a.avg * a.count as real + v, a.count + 1),
        if v < a.min then v else a.min,
        if v > a.max then v else a.max,
        a.count + 1)
  }

  // INSERT ... ON CONFLICT DO UPDATE
  function Upsert(t: Table, r: Record): Table {
    var k, v := KeyOf(r), r.value;
    if k !in t then t[k := Agg(v, v, v, 1)]
    else t[k := Merge(t[k], v)]
  }

  function Upserts(t: Table, rs: seq<Record>): Table {
    if rs == [] then t else Upsert(Upserts(t, rs[..|rs| - 1]), rs[|rs| - 1])
  }

  // --- The group-by it must equal ---

  function Values(rs: seq<Record>, k: Key): seq<real> {
    if rs == [] then []
    else Values(rs[..|rs| - 1], k) + if KeyOf(rs[|rs| - 1]) == k then [rs[|rs| - 1].value] else []
  }

  function Sum(vs: seq<real>): real {
    if vs == [] then 0.0 else Sum(vs[..|vs| - 1]) + vs[|vs| - 1]
  }

  ghost predicate Summarises(a: Agg, vs: seq<real>) {
    && a.count == |vs| > 0
    && a.avg == Mean(Sum(vs), |vs|)
    && a.min in vs && a.max in vs
    && forall v :: v in vs ==> a.min <= v <= a.max
  }

  ghost predicate GroupIs(t: Table, k: Key, vs: seq<real>) {
    && (k in t <==> vs != [])
    && (k in t ==> Summarises(t[k], vs))
  }

  ghost predicate IsGroupBy(t: Table, rs: seq<Record>) {
    forall k :: GroupIs(t, k, Values(rs, k))
  }

  lemma MeanTimesCount(sum: real, n: nat)
    requires n > 0
    ensures Mean(sum, n) * n as real == sum
  {
  }

  lemma SumSnoc(vs: seq<real>, v: real)
    ensures Sum(vs + [v]) == Sum(vs) + v
  {
    assert (vs + [v])[..|vs|] == vs;
  }

  lemma MeanGrows(a: Agg, vs: seq<real>, v: real)
    requires Summarises(a, vs)
    ensures Merge(a, v).avg == Mean(Sum(vs + [v]), |vs + [v]|)
  {
    MeanTimesCount(Sum(vs), |vs|);
    SumSnoc(vs, v);
  }

  lemma SummariesGrow(a: Agg, vs: seq<real>, v: real)
    requires Summarises(a, vs)
    ensures Summarises(Merge(a, v), vs + [v])
  {
    MeanGrows(a, vs, v);
    var ws := vs + [v];
    assert ws[|vs|] == v;
    forall w | w in vs ensures w in ws {
      var i :| 0 <= i < |vs| && vs[i] == w;
      assert ws[i] == w;
    }
  }

  lemma OneValue(v: real)
    ensures Summarises(Agg(v, v, v, 1), [] + [v])
  {
    SumSnoc([], v);
  }

  lemma ValuesSnoc(rs: seq<Record>, r: Record, k: Key)
    ensures Values(rs + [r], k) == Values(rs, k) + if KeyOf(r) == k then [r.value] else []
  {
    assert (rs + [r])[..|rs|] == rs;
  }

  lemma UpsertKeepsGroup(t: Table, vs: seq<real>, r: Record, k: Key)
    requires GroupIs(t, k, vs)
    ensures GroupIs(Upsert(t, r), k, vs + if KeyOf(r) == k then [r.value] else [])
  {
    if k != KeyOf(r) {
      assert vs + [] == vs;
    } else if k in t {
      SummariesGrow(t[k], vs, r.value);
    } else {
      OneValue(r.value);
    }
  }

  lemma UpsertKeepsGroupBy(t: Table, rs: seq<Record>, r: Record)
    requires IsGroupBy(t, rs)
    ensures IsGroupBy(Upsert(t, r), rs + [r])
  {
    forall k ensures GroupIs(Upsert(t, r), k, Values(rs + [r], k)) {
      ValuesSnoc(rs, r, k);
      assert GroupIs(t, k, Values(rs, k));
      UpsertKeepsGroup(t, Values(rs, k), r, k);
    }
  }

  // The running upsert is the group-by: exact count, mean, minimum and maximum of every group.
  lemma {:induction false} UpsertsAreGroupBy(rs: seq<Record>)
    ensures IsGroupBy(Upserts(map[], rs), rs)
  {
    if rs != [] {
      var n := |rs| - 1;
      UpsertsAreGroupBy(rs[..n]);
      UpsertKeepsGroupBy(Upserts(map[], rs[..n]), rs[..n], rs[n]);
      assert rs == rs[..n] + [rs[n]];
    }
  }

  // --- Order does not matter ---

  ghost predicate Homomorphic<A(!new), B>(f: seq<A> -> seq<B>) {
    f([]) == [] && forall a, b :: f(a + b) == f(a) + f(b)
  }

  function Without<A>(s: seq<A>, i: nat): (r: seq<A>)
    requires i < |s|
    ensures |r| == |s| - 1
  {
    s[..i] + s[i + 1..]
  }

  lemma TakenOut<A>(s: seq<A>, i: nat)
    requires i < |s|
    ensures s == s[..i] + ([s[i]] + s[i + 1..])
    ensures multiset(Without(s, i)) == multiset(s) - multiset{s[i]}
  {
    assert s == s[..i] + ([s[i]] + s[i + 1..]);
    assert multiset(s) == multiset(s[..i]) + (multiset{s[i]} + multiset(s[i + 1..]));
  }

  lemma SomewhereIn<A>(x: A, a: seq<A>, b: seq<A>) returns (i: nat)
    requires multiset(a) == multiset(b) && x in a
    ensures i < |b| && b[i] == x
  {
    assert x in multiset(b);
    i :| i < |b| && b[i] == x;
  }

  lemma PieceTakenOut<A(!new), B>(f: seq<A> -> seq<B>, s: seq<A>, i: nat)
    requires Homomorphic(f) && i < |s|
    ensures multiset(f(s)) == multiset(f(Without(s, i))) + multiset(f([s[i]]))
  {
    TakenOut(s, i);
    assert f(s) == f(s[..i]) + (f([s[i]]) + f(s[i + 1..]));
  }

  // A piecewise function maps permuted inputs to permuted outputs.
  lemma {:induction false} PermutedThrough<A(!new), B>(f: seq<A> -> seq<B>, a: seq<A>, b: seq<A>)
    requires Homomorphic(f) && multiset(a) == multiset(b)
    ensures multiset(f(a)) == multiset(f(b))
    decreases |a|
  {
    if a == [] {
      assert |multiset(b)| == 0;
    } else {
      var i := SomewhereIn(a[0], a, b);
      TakenOut(a, 0);
      TakenOut(b, i);
      PermutedThrough(f, Without(a, 0), Without(b, i));
      PieceTakenOut(f, a, 0);
      PieceTakenOut(f, b, i);
    }
  }

  lemma {:induction false} SumPermuted(a: seq<real>, b: seq<real>)
    requires multiset(a) == multiset(b)
    ensures Sum(a) == Sum(b)
    decreases |a|
  {
    if a == [] {
      assert |multiset(b)| == 0;
    } else {
      var i := SomewhereIn(a[0], a, b);
      TakenOut(a, 0);
      TakenOut(b, i);
      SumPermuted(Without(a, 0), Without(b, i));
      SumWithout(a, 0);
      SumWithout(b, i);
    }
  }

  lemma {:induction false} SumWithout(s: seq<real>, i: nat)
    requires i < |s|
    ensures Sum(s) == Sum(Without(s, i)) + s[i]
  {
    var n := |s| - 1;
    if i == n {
      assert Without(s, i) == s[..n];
    } else {
      SumWithout(s[..n], i);
      assert Without(s, i)[..n - 1] == Without(s[..n], i);
    }
  }

  lemma {:induction false} ValuesConcat(a: seq<Record>, b: seq<Record>, k: Key)
    ensures Values(a + b, k) == Values(a, k) + Values(b, k)
  {
    if b == [] {
      assert a + b == a;
    } else {
      var n := |b| - 1;
      ValuesConcat(a, b[..n], k);
      assert a + b == a + b[..n] + [b[n]] && b == b[..n] + [b[n]];
      ValuesSnoc(a + b[..n], b[n], k);
      ValuesSnoc(b[..n], b[n], k);
    }
  }

  lemma SameSummary(a: Agg, b: Agg, vs: seq<real>, ws: seq<real>)
    requires multiset(vs) == multiset(ws) && Summarises(a, vs) && Summarises(b, ws)
    ensures a == b
  {
    SumPermuted(vs, ws);
    assert |vs| == |multiset(vs)| == |ws|;
    forall v ensures v in vs <==> v in ws {
      assert v in vs <==> v in multiset(vs);
      assert v in ws <==> v in multiset(ws);
    }
  }

  lemma ValuesPermuted(rs: seq<Record>, qs: seq<Record>, k: Key)
    requires multiset(rs) == multiset(qs)
    ensures multiset(Values(rs, k)) == multiset(Values(qs, k))
  {
    var f := (s: seq<Record>) => Values(s, k);
    forall a, b ensures f(a + b) == f(a) + f(b) { ValuesConcat(a, b, k); }
    PermutedThrough(f, rs, qs);
  }

  // A group-by is determined by which records there are, in whatever order.
  lemma GroupByIsUnique(t: Table, u: Table, rs: seq<Record>, qs: seq<Record>)
    requires multiset(rs) == multiset(qs) && IsGroupBy(t, rs) && IsGroupBy(u, qs)
    ensures t == u
  {
    forall k ensures (k in t <==> k in u) && (k in t && k in u ==> t[k] == u[k]) {
      ValuesPermuted(rs, qs, k);
      assert GroupIs(t, k, Values(rs, k)) && GroupIs(u, k, Values(qs, k));
      assert |Values(rs, k)| == |multiset(Values(rs, k))| == |Values(qs, k)|;
      if k in t && k in u { SameSummary(t[k], u[k], Values(rs, k), Values(qs, k)); }
    }
  }

  function FlatMap<A, B>(f: A -> seq<B>, s: seq<A>): seq<B> {
    if s == [] then [] else f(s[0]) + FlatMap(f, s[1..])
  }

  lemma {:induction false} FlatMapConcat<A, B>(f: A -> seq<B>, a: seq<A>, b: seq<A>)
    ensures FlatMap(f, a + b) == FlatMap(f, a) + FlatMap(f, b)
  {
    if a == [] {
      assert a + b == b;
    } else {
      assert (a + b)[1..] == a[1..] + b;
      FlatMapConcat(f, a[1..], b);
    }
  }

  function ReadOne(r: Row): seq<Record> {
    if Recoverable(r) then [PageText.Read(r)] else []
  }

  lemma {:induction false} ReadAllIsFlatMap(rows: seq<Row>)
    ensures ReadAll(rows) == FlatMap(ReadOne, rows)
  {
    if rows != [] { ReadAllIsFlatMap(rows[1..]); }
  }

  lemma ReadAllConcat(a: seq<Row>, b: seq<Row>)
    ensures ReadAll(a + b) == ReadAll(a) + ReadAll(b)
  {
    ReadAllIsFlatMap(a + b);
    ReadAllIsFlatMap(a);
    ReadAllIsFlatMap(b);
    FlatMapConcat(ReadOne, a, b);
  }

  lemma ReadAllIsHomomorphic()
    ensures Homomorphic(ReadAll)
  {
    forall a, b ensures ReadAll(a + b) == ReadAll(a) + ReadAll(b) { ReadAllConcat(a, b); }
  }

  // The order in which the database returns the rows does not change the aggregates.
  lemma RowOrderDoesNotMatter(a: seq<Row>, b: seq<Row>)
    requires multiset(a) == multiset(b)
    ensures Upserts(map[], ReadAll(a)) == Upserts(map[], ReadAll(b))
  {
    ReadAllIsHomomorphic();
    PermutedThrough(ReadAll, a, b);
    UpsertsAreGroupBy(ReadAll(a));
    UpsertsAreGroupBy(ReadAll(b));
    GroupByIsUnique(Upserts(map[], ReadAll(a)), Upserts(map[], ReadAll(b)), ReadAll(a), ReadAll(b));
  }

  // Every row is counted exactly when every row can be read back.
  lemma {:induction false} EveryRowIsReadIff(rows: seq<Row>)
    ensures |ReadAll(rows)| <= |rows|
    ensures |ReadAll(rows)| == |rows| <==> forall i :: 0 <= i < |rows| ==> Recoverable(rows[i])
  {
    if rows != [] {
      EveryRowIsReadIff(rows[1..]);
      assert forall i :: 1 <= i < |rows| ==> rows[i] == rows[1..][i - 1];
      if |ReadAll(rows)| != |rows| && Recoverable(rows[0]) {
        var i :| 0 <= i < |rows[1..]| && !Recoverable(rows[1..][i]);
        assert !Recoverable(rows[i + 1]);
      }
    }
  }

  // --- The server's side of a request ---

  // LIMIT and OFFSET of a query.
  function Window(table: seq<Row>, from: nat, most: nat): seq<Row> {
    table[Text.Min(from, |table|)..Text.Min(from + most, |table|)]
  }

  // The raw endpoint clamps its parameters and answers with one page of the table.
  function Serve(table: seq<Row>, offset: int, limit: int): string {
    var from: nat := if offset < 0 then 0 else offset;
    var most := if limit < 1 then LIMIT else if limit > MAX_LIMIT then MAX_LIMIT else limit;
    Page(Window(table, from, most), from, most, |table|)
  }

  // How many requests a complete fetch takes.
  function Requests(rows: nat): nat {
    if rows == 0 then 1 else (rows + LIMIT - 1) / LIMIT
  }

  ghost predicate Answered(up: nat -> bool, requests: nat) {
    forall i: nat :: i < requests ==> up(i)
  }

  function PageEnd(table: seq<Row>, offset: nat): (end: nat)
    requires offset <= |table|
    ensures offset <= end <= |table|
  {
    Text.Min(offset + LIMIT, |table|)
  }

  lemma SliceShows(table: seq<Row>, i: nat, j: nat)
    requires NumbersShow(table) && i <= j <= |table|
    ensures NumbersShow(table[i..j])
  {
  }

  // The numbers the aggregator gets out of one page.
  lemma PageServed(table: seq<Row>, offset: nat, default: int)
    requires NumbersShow(table) && offset <= |table|
    ensures var page := Serve(table, offset, LIMIT);
      FindInt(page, "total", default) == |table| && FindInt(page, "count", 0) == PageEnd(table, offset) - offset
  {
    var rows := table[offset..PageEnd(table, offset)];
    SliceShows(table, offset, PageEnd(table, offset));
    assert Window(table, offset, LIMIT) == rows;
    NumbersReadBack(rows, offset, |table|, default, Serve(table, offset, LIMIT));
  }

  lemma NumbersReadBack(rows: seq<Row>, offset: nat, total: nat, default: int, page: string)
    requires NumbersShow(rows) && page == Page(rows, offset, LIMIT, total)
    ensures FindInt(page, "total", default) == total && FindInt(page, "count", 0) == |rows|
  {
    PageTotalRoundTrip(rows, offset, LIMIT, total, default);
    PageCountRoundTrip(rows, offset, LIMIT, total, 0);
  }

  // What the requests bring in one after the other.
  function Joined(answers: nat -> seq<Record>, requests: nat): seq<Record> {
    if requests == 0 then [] else Joined(answers, requests - 1) + answers(requests - 1)
  }

  // Where the page of a request begins.
  function From(table: seq<Row>, request: nat): (from: nat)
    ensures from <= |table|
  {
    Text.Min(request * LIMIT, |table|)
  }

  function Answers(table: seq<Row>): nat -> seq<Record> {
    (request: nat) => ScanRecords(Serve(table, From(table, request), LIMIT))
  }

  lemma AnswerIsRead(table: seq<Row>, request: nat)
    requires AllQuotable(table)
    ensures From(table, request) <= From(table, request + 1)
    ensures Answers(table)(request) == ReadAll(table[From(table, request)..From(table, request + 1)])
  {
    var from, to := From(table, request), From(table, request + 1);
    assert Text.Min(from + LIMIT, |table|) == to;
    PageRecordsRoundTrip(table[from..to], from, LIMIT, |table|);
  }

  lemma Slices<T>(s: seq<T>, i: nat, j: nat)
    requires i <= j <= |s|
    ensures s[..i] + s[i..j] == s[..j]
  {
  }

  lemma RowsOfPages(table: seq<Row>, offset: nat, end: nat)
    requires offset <= end <= |table|
    ensures ReadAll(table[..offset]) + ReadAll(table[offset..end]) == ReadAll(table[..end])
  {
    Slices(table, offset, end);
    ReadAllConcat(table[..offset], table[offset..end]);
  }

  // The recoverable rows of the first pages.
  function ReadUpTo(table: seq<Row>): nat -> seq<Record> {
    (requests: nat) => ReadAll(table[..From(table, requests)])
  }

  ghost predicate ExtendsAt(answers: nat -> seq<Record>, upTo: nat -> seq<Record>, i: nat) {
    upTo(i + 1) == upTo(i) + answers(i)
  }

  ghost predicate Extends(answers: nat -> seq<Record>, upTo: nat -> seq<Record>) {
    upTo(0) == [] && forall i: nat :: ExtendsAt(answers, upTo, i)
  }

  lemma {:induction false} JoinedIsReadUpTo(answers: nat -> seq<Record>, upTo: nat -> seq<Record>, requests: nat)
    requires Extends(answers, upTo)
    ensures Joined(answers, requests) == upTo(requests)
  {
    if requests > 0 {
      JoinedIsReadUpTo(answers, upTo, requests - 1);
      assert ExtendsAt(answers, upTo, requests - 1);
    }
  }

  lemma OneMoreAnswer(table: seq<Row>, request: nat)
    requires AllQuotable(table)
    ensures ExtendsAt(Answers(table), ReadUpTo(table), request)
  {
    AnswerIsRead(table, request);
    RowsOfPages(table, From(table, request), From(table, request + 1));
  }

  lemma AnswersExtend(table: seq<Row>)
    requires AllQuotable(table)
    ensures Extends(Answers(table), ReadUpTo(table))
  {
    forall i: nat ensures ExtendsAt(Answers(table), ReadUpTo(table), i) { OneMoreAnswer(table, i); }
  }

  // Without quotes the full pages bring in the recoverable rows, in the order of the table.
  lemma PagesAreRead(table: seq<Row>, requests: nat)
    requires AllQuotable(table)
    ensures Joined(Answers(table), requests) == ReadAll(table[..From(table, requests)])
  {
    AnswersExtend(table);
    JoinedIsReadUpTo(Answers(table), ReadUpTo(table), requests);
  }

  lemma EverythingAsked(table: seq<Row>)
    ensures From(table, Requests(|table|)) == |table| && table[..From(table, Requests(|table|))] == table
  {
  }

  // --- Which pages the loop asks for ---

  // What the aggregator makes of one response.
  datatype Reply = Reply(total: int, count: int, records: seq<Record>)

  function Parse(page: string, total0: int): Reply {
    Reply(FindInt(page, "total", total0), FindInt(page, "count", 0), ScanRecords(page))
  }

  // The answer to an offset; a total that is not found stays what it was.
  type Ask = (nat, int) -> Reply

  function Pages(table: seq<Row>): nat -> string {
    (offset: nat) => Serve(table, offset, LIMIT)
  }

  function Asked(get: nat -> string): Ask {
    (offset: nat, total0: int) => Parse(get(offset), total0)
  }

  ghost predicate Reads(get: nat -> string, ask: Ask) {
    forall offset: nat, total0 {:trigger Parse(get(offset), total0)} ::
      ask(offset, total0) == Parse(get(offset), total0)
  }

  // Behind the end of the table a page is empty.
  ghost predicate Dry(ask: Ask, size: nat) {
    forall offset: nat, total0 :: offset >= size ==> Empty(ask(offset, total0))
  }

  predicate Empty(r: Reply) {
    r.count <= 0
  }

  function Next(offset: nat, r: Reply): nat {
    if Empty(r) then offset else offset + r.count
  }

  predicate Last(offset: nat, r: Reply) {
    Empty(r) || (r.total > 0 && offset + r.count >= r.total)
  }

  // The replies of the paging loop from an offset on: the next offset is behind the count that was read,
  // whatever the page holds.
  ghost function Trail(ask: Ask, size: nat, offset: nat, total0: int): (rs: seq<Reply>)
    requires Dry(ask, size)
    ensures rs != [] && rs[0] == ask(offset, total0)
    decreases if offset < size then size - offset else 0
  {
    var r := ask(offset, total0);
    [r] + if Last(offset, r) then [] else Trail(ask, size, offset + r.count, r.total)
  }

  // The loop ends: no row is asked for as the first of a page twice.
  lemma {:induction false} TrailIsShort(ask: Ask, size: nat, offset: nat, total0: int)
    requires Dry(ask, size)
    ensures |Trail(ask, size, offset, total0)| <= 1 + if offset < size then size - offset else 0
    decreases if offset < size then size - offset else 0
  {
    var r := ask(offset, total0);
    if !Last(offset, r) { TrailIsShort(ask, size, offset + r.count, r.total); }
  }

  // The records of the replies, in order.
  function Gathered(rs: seq<Reply>): seq<Record> {
    if rs == [] then [] else Gathered(rs[..|rs| - 1]) + rs[|rs| - 1].records
  }

  // The page of a request is the last one exactly when it is the last request, and the next one begins
  // behind it.
  ghost predicate StepsAt(ask: Ask, from: nat -> nat, answers: nat -> seq<Record>, last: nat, i: nat, total0: int) {
    var r := ask(from(i), total0);
    && (Last(from(i), r) <==> i + 1 == last)
    && (i + 1 < last ==> Next(from(i), r) == from(i + 1))
    && r.records == answers(i)
  }

  ghost predicate Steps(ask: Ask, from: nat -> nat, answers: nat -> seq<Record>, last: nat) {
    forall i: nat, total0 :: i < last ==> StepsAt(ask, from, answers, last, i, total0)
  }

  // The answers to the requests from the k-th on.
  ghost predicate RecordsFrom(rs: seq<Reply>, answers: nat -> seq<Record>, k: nat) {
    forall j :: 0 <= j < |rs| ==> rs[j].records == answers(k + j)
  }

  // Then the pages follow each other.
  lemma {:induction false} SteadyTrail(ask: Ask, size: nat, from: nat -> nat, answers: nat -> seq<Record>, last: nat,
                                       k: nat, offset: nat, total0: int)
    requires Dry(ask, size) && Steps(ask, from, answers, last) && k < last && offset == from(k)
    ensures var rs := Trail(ask, size, offset, total0); |rs| == last - k && RecordsFrom(rs, answers, k)
    decreases last - k
  {
    var r := ask(offset, total0);
    assert StepsAt(ask, from, answers, last, k, total0);
    if k + 1 < last {
      SteadyTrail(ask, size, from, answers, last, k + 1, offset + r.count, r.total);
      ShiftedAnswers(Trail(ask, size, offset + r.count, r.total), r, answers, k);
    }
  }

  lemma ShiftedAnswers(rest: seq<Reply>, r: Reply, answers: nat -> seq<Record>, k: nat)
    requires r.records == answers(k) && RecordsFrom(rest, answers, k + 1)
    ensures RecordsFrom([r] + rest, answers, k)
  {
    forall j | 0 <= j < |[r] + rest| ensures ([r] + rest)[j].records == answers(k + j) {
      if j > 0 { assert ([r] + rest)[j] == rest[j - 1] && k + 1 + (j - 1) == k + j; }
    }
  }

  lemma {:induction false} GatheredIsJoined(rs: seq<Reply>, answers: nat -> seq<Record>, n: nat)
    requires n <= |rs| && RecordsFrom(rs, answers, 0)
    ensures Gathered(rs[..n]) == Joined(answers, n)
  {
    if n > 0 {
      GatheredIsJoined(rs, answers, n - 1);
      assert rs[..n][..n - 1] == rs[..n - 1];
    }
  }

  ghost predicate Holds(fine: Record -> bool, rs: seq<Record>) {
    forall r :: r in rs ==> fine(r)
  }

  lemma {:induction false} TrailHolds(ask: Ask, size: nat, offset: nat, total0: int, fine: Record -> bool)
    requires Dry(ask, size) && forall o: nat, t :: Holds(fine, ask(o, t).records)
    ensures forall x :: x in Trail(ask, size, offset, total0) ==> Holds(fine, x.records)
    decreases if offset < size then size - offset else 0
  {
    var r := ask(offset, total0);
    if !Last(offset, r) { TrailHolds(ask, size, offset + r.count, r.total, fine); }
  }

  lemma {:induction false} GatheredHolds(rs: seq<Reply>, fine: Record -> bool)
    requires forall x :: x in rs ==> Holds(fine, x.records)
    ensures Holds(fine, Gathered(rs))
  {
    if rs != [] { GatheredHolds(rs[..|rs| - 1], fine); }
  }

  // --- The pages of a table ---

  lemma AskedAt(get: nat -> string, offset: nat, total0: int, page: string)
    requires get(offset) == page
    ensures var r := Asked(get)(offset, total0);
      && r.total == FindInt(page, "total", total0) && r.count == FindInt(page, "count", 0)
      && r.records == ScanRecords(page)
  {
  }

  lemma PagesAt(table: seq<Row>, offset: nat)
    ensures Pages(table)(offset) == Serve(table, offset, LIMIT)
  {
  }

  lemma NothingServed(table: seq<Row>, offset: nat)
    requires offset >= |table|
    ensures FindInt(Serve(table, offset, LIMIT), "count", 0) == 0
  {
    PageNumbersRoundTrip([], offset, LIMIT, |table|, 0);
  }

  lemma EmptyPage(table: seq<Row>, offset: nat, total0: int)
    requires offset >= |table|
    ensures Empty(Asked(Pages(table))(offset, total0))
  {
    PagesAt(table, offset);
    AskedAt(Pages(table), offset, total0, Serve(table, offset, LIMIT));
    NothingServed(table, offset);
  }

  lemma TableRunsDry(table: seq<Row>)
    ensures Dry(Asked(Pages(table)), |table|)
  {
    forall offset: nat, total0 | offset >= |table| ensures Empty(Asked(Pages(table))(offset, total0)) {
      EmptyPage(table, offset, total0);
    }
  }

  // The replies of a whole fetch.
  ghost function Replies(table: seq<Row>): seq<Reply> {
    TableRunsDry(table);
    Trail(Asked(Pages(table)), |table|, 0, 0)
  }

  // Whatever the texts of the table are, the fetch takes at most one request more than there are rows.
  lemma FetchIsShort(table: seq<Row>)
    ensures 1 <= |Replies(table)| <= |table| + 1
  {
    TableRunsDry(table);
    TrailIsShort(Asked(Pages(table)), |table|, 0, 0);
  }

  lemma PageIsFull(table: seq<Row>, offset: nat, total0: int)
    requires NumbersShow(table) && offset <= |table|
    ensures FullPage(table, offset, Asked(Pages(table))(offset, total0))
  {
    PagesAt(table, offset);
    AskedAt(Pages(table), offset, total0, Serve(table, offset, LIMIT));
    PageServed(table, offset, total0);
  }

  lemma AnswerGiven(table: seq<Row>, i: nat, total0: int)
    ensures Asked(Pages(table))(From(table, i), total0).records == Answers(table)(i)
  {
    PagesAt(table, From(table, i));
    AskedAt(Pages(table), From(table, i), total0, Serve(table, From(table, i), LIMIT));
  }

  function FromOf(table: seq<Row>): nat -> nat {
    (request: nat) => From(table, request)
  }

  predicate FullPage(table: seq<Row>, offset: nat, r: Reply)
    requires offset <= |table|
  {
    r.total == |table| && r.count == PageEnd(table, offset) - offset
  }

  lemma FullPageSteps(table: seq<Row>, k: nat, r: Reply)
    requires k < Requests(|table|) && FullPage(table, From(table, k), r)
    ensures Last(From(table, k), r) <==> k + 1 == Requests(|table|)
    ensures k + 1 < Requests(|table|) ==> Next(From(table, k), r) == From(table, k + 1)
  {
  }

  lemma TableSteps(table: seq<Row>)
    requires NumbersShow(table)
    ensures Steps(Asked(Pages(table)), FromOf(table), Answers(table), Requests(|table|))
  {
    var ask := Asked(Pages(table));
    forall i: nat, total0 | i < Requests(|table|)
      ensures StepsAt(ask, FromOf(table), Answers(table), Requests(|table|), i, total0)
    {
      PageIsFull(table, From(table, i), total0);
      AnswerGiven(table, i, total0);
      FullPageSteps(table, i, ask(From(table, i), total0));
    }
  }

  // Where the numbers show, it takes the requests it should, and they bring in the full pages.
  lemma FullPages(table: seq<Row>, n: nat)
    requires NumbersShow(table) && n <= |Replies(table)|
    ensures |Replies(table)| == Requests(|table|)
    ensures Gathered(Replies(table)[..n]) == Joined(Answers(table), n)
  {
    TableRunsDry(table);
    TableSteps(table);
    SteadyTrail(Asked(Pages(table)), |table|, FromOf(table), Answers(table), Requests(|table|), 0, 0, 0);
    GatheredIsJoined(Replies(table), Answers(table), n);
  }

  // Without quotes in its texts, the first requests bring in the recoverable rows of the first pages, in the
  // order of the table and none twice.
  lemma FetchedIsRead(table: seq<Row>, n: nat)
    requires AllQuotable(table) && n <= |Replies(table)|
    ensures Gathered(Replies(table)[..n]) == ReadAll(table[..From(table, n)])
  {
    PlainNumbersShow(table);
    FullPages(table, n);
    PagesAreRead(table, n);
  }

  lemma EverythingRead(table: seq<Row>)
    requires AllQuotable(table)
    ensures Gathered(Replies(table)) == ReadAll(table)
  {
    var rs := Replies(table);
    PlainNumbersShow(table);
    FullPages(table, 0);
    FetchedIsRead(table, |rs|);
    EverythingAsked(table);
    assert rs[..|rs|] == rs;
  }

  function PlainRecord(): Record -> bool {
    (r: Record) => '"' !in r.station && '"' !in r.date && '"' !in r.element
  }

  lemma PageIsPlain(table: seq<Row>, offset: nat, total0: int)
    ensures Holds(PlainRecord(), Asked(Pages(table))(offset, total0).records)
  {
    PagesAt(table, offset);
    AskedAt(Pages(table), offset, total0, Serve(table, offset, LIMIT));
    PlainRecords(Serve(table, offset, LIMIT));
  }

  lemma PlainRecords(page: string)
    ensures Holds(PlainRecord(), ScanRecords(page))
  {
    RecordsAreQuoteFree(page);
    forall r | r in ScanRecords(page) ensures PlainRecord()(r) { PlainRecordIs(r); }
  }

  lemma PlainRecordIs(r: Record)
    ensures PlainRecord()(r) <==> QuoteFreeRecord(r)
  {
    if '"' !in r.station && '"' !in r.date && '"' !in r.element {
      assert forall i :: 0 <= i < |r.station| ==> r.station[i] in r.station;
      assert forall i :: 0 <= i < |r.date| ==> r.date[i] in r.date;
      assert forall i :: 0 <= i < |r.element| ==> r.element[i] in r.element;
    }
  }

  lemma RepliesHold(table: seq<Row>)
    ensures Holds(PlainRecord(), Gathered(Replies(table)))
  {
    TableRunsDry(table);
    forall o: nat, t ensures Holds(PlainRecord(), Asked(Pages(table))(o, t).records) { PageIsPlain(table, o, t); }
    TrailHolds(Asked(Pages(table)), |table|, 0, 0, PlainRecord());
    GatheredHolds(Replies(table), PlainRecord());
  }

  lemma RepliesArePlain(table: seq<Row>)
    ensures forall r :: r in Gathered(Replies(table)) ==> QuoteFreeRecord(r)
  {
    RepliesHold(table);
    forall r | r in Gathered(Replies(table)) ensures QuoteFreeRecord(r) { PlainRecordIs(r); }
  }

  // The exact condition for a whole fetch, whichever pages the loop asks for: every row of the table arrives
  // as itself, once and in order, if and only if no text of the table holds a quote, every row is
  // recoverable and fits the reader's buffers.
  lemma TableComesBackIff(table: seq<Row>)
    requires AllFlags(table)
    ensures Gathered(Replies(table)) ==
              seq(|table|, i requires 0 <= i < |table| =>
                Record(table[i].station, table[i].date, table[i].element,
                       Hundredths(table[i].value) as real / 100.0)) <==>
            forall i :: 0 <= i < |table| ==>
              var r := table[i];
              && QuoteFree(r.station) && QuoteFree(r.date) && QuoteFree(r.element)
              && 1 <= |r.station| <= 31 && 1 <= |r.date| <= 15 && 1 <= |r.element| <= 7
              && r.station != "date" && r.station != "element" && r.date != "element"
  {
    TableSurvivesIff(table);
    WrittenOut(table);
    forall i | 0 <= i < |table| { SurvivesIff(table[i]); }
  }

  lemma TableSurvivesIff(table: seq<Row>)
    requires AllFlags(table)
    ensures Gathered(Replies(table)) == AllExactly(table) <==> forall i :: 0 <= i < |table| ==> Survives(table[i])
  {
    if AllQuotable(table) {
      EverythingRead(table);
      ReadAllIff(table);
    } else if Gathered(Replies(table)) == AllExactly(table) {
      RepliesArePlain(table);
      QuotedNeverExact(table, Gathered(Replies(table)));
    }
  }

  // --- A count that is not the page's ---

  // The table begins with a row whose station text is read as the count 1.
  ghost predicate CountedAsOne(table: seq<Row>) {
    && 1 < |table| <= LIMIT
    && table[0].station == CarriedCount(PrintInt(1)) && QuoteFree(table[0].date) && QuoteFree(table[0].element)
    && QuotableFlags(table[0]) && AllQuotable(table[1..])
  }

  lemma OnePage(table: seq<Row>, offset: nat, rows: seq<Row>)
    requires offset <= |table| <= LIMIT && rows == table[offset..]
    ensures Pages(table)(offset) == Page(rows, offset, LIMIT, |table|)
  {
    assert Window(table, offset, LIMIT) == rows;
  }

  lemma FirstPage(table: seq<Row>, total0: int)
    requires CountedAsOne(table)
    ensures Asked(Pages(table))(0, total0) == Reply(|table|, 1, ReadAll(table[1..]))
  {
    OnePage(table, 0, table);
    AskedAt(Pages(table), 0, total0, Page(table, 0, LIMIT, |table|));
    FirstPasses(table);
    PageTotalRoundTrip(table, 0, LIMIT, |table|, total0);
    CarriedCountIsRead(table, 1, 0, LIMIT, |table|);
    NumbersAreQuoteFree(1, 0.0);
    RestIsRead(table, PrintInt(1), 0, LIMIT, |table|);
  }

  lemma FirstPasses(table: seq<Row>)
    requires CountedAsOne(table)
    ensures AllFlags(table) && AllPass(table, "total")
  {
    NumbersAreQuoteFree(1, 0.0);
    CarriedCountPasses(PrintInt(1));
    PlainCarriesNothing(table[0].date, "total");
    PlainCarriesNothing(table[0].element, "total");
    forall i | 0 <= i < |table| ensures QuotableFlags(table[i]) && Passes(table[i], "total") {
      if i > 0 {
        assert table[i] == table[1..][i - 1];
        PlainRowPasses(table[i], "total");
      }
    }
  }

  lemma SecondPage(table: seq<Row>, total0: int)
    requires CountedAsOne(table)
    ensures Asked(Pages(table))(1, total0) == Reply(|table|, |table| - 1, ReadAll(table[1..]))
  {
    OnePage(table, 1, table[1..]);
    AskedAt(Pages(table), 1, total0, Page(table[1..], 1, LIMIT, |table|));
    PlainNumbersShow(table[1..]);
    PageTotalRoundTrip(table[1..], 1, LIMIT, |table|, total0);
    PageCountRoundTrip(table[1..], 1, LIMIT, |table|, 0);
    PageRecordsRoundTrip(table[1..], 1, LIMIT, |table|);
  }

  // Then the second request begins at the second row, and every other row is aggregated twice.
  lemma RowsReadTwice(table: seq<Row>)
    requires CountedAsOne(table)
    ensures |Replies(table)| == 2 && Gathered(Replies(table)) == ReadAll(table[1..]) + ReadAll(table[1..])
  {
    TableRunsDry(table);
    FirstPage(table, 0);
    SecondPage(table, |table|);
    TwoReplies(Asked(Pages(table)), |table|, ReadAll(table[1..]));
  }

  lemma TwoReplies(ask: Ask, size: nat, records: seq<Record>)
    requires Dry(ask, size) && size > 1
    requires ask(0, 0) == Reply(size, 1, records) && ask(1, size) == Reply(size, size - 1, records)
    ensures |Trail(ask, size, 0, 0)| == 2 && Gathered(Trail(ask, size, 0, 0)) == records + records
  {
    var a, b := ask(0, 0), ask(1, size);
    assert Trail(ask, size, 1, size) == [b];
    assert Trail(ask, size, 0, 0) == [a, b];
    assert [a, b][..1] == [a] && [a][..0] == [];
    assert Gathered([a]) == records;
  }

  lemma UpsertsConcat(t: Table, rs: seq<Record>, r: Record)
    ensures Upserts(t, rs + [r]) == Upsert(Upserts(t, rs), r)
  {
    assert (rs + [r])[..|rs|] == rs;
  }

  lemma UpsertsFound(t: Table, done: seq<Record>, found: seq<Record>)
    requires |found| <= 1
    ensures Upserts(t, done + found) ==
            if found == [] then Upserts(t, done) else Upsert(Upserts(t, done), found[0])
  {
    if found == [] {
      assert done + found == done;
    } else {
      assert found == [found[0]];
      UpsertsConcat(t, done, found[0]);
    }
  }

  lemma {:induction false} UpsertsInPages(t: Table, rs: seq<Record>, qs: seq<Record>)
    ensures Upserts(Upserts(t, rs), qs) == Upserts(t, rs + qs)
  {
    if qs == [] {
      assert rs + qs == rs;
    } else {
      var n := |qs| - 1;
      UpsertsInPages(t, rs, qs[..n]);
      assert rs + qs == rs + qs[..n] + [qs[n]];
      UpsertsConcat(t, rs + qs[..n], qs[n]);
    }
  }

  function Locate(t: string): (ptr: Option<string>)
    ensures ptr.Some? ==> 0 < |ptr.value| <= |t|
  {
    StrStr(t, Pattern("station_id", ""))
  }

  // The record loop with the reading of one record left open.
  function ScanWith(t: string, at: string -> seq<Record>): seq<Record>
    decreases |t|
  {
    match Locate(t)
    case None => []
    case Some(p) => at(p) + ScanWith(p[1..], at)
  }

  function ScanFrom(ptr: Option<string>, at: string -> seq<Record>): seq<Record>
    requires ptr.Some? ==> ptr.value != []
  {
    if ptr.None? then [] else at(ptr.value) + ScanWith(ptr.value[1..], at)
  }

  lemma ScanNext(done: seq<Record>, p: string, at: string -> seq<Record>)
    requires p != []
    ensures done + ScanFrom(Some(p), at) == done + at(p) + ScanFrom(Locate(p[1..]), at)
  {
  }

  lemma AtMostOne()
    ensures forall p :: |RecordAt(p)| <= 1
  {
  }

  lemma {:induction false} ScanWithIsScanRecords(t: string)
    ensures ScanWith(t, RecordAt) == ScanRecords(t)
    decreases |t|
  {
    var ptr := Locate(t);
    if ptr.Some? { ScanWithIsScanRecords(ptr.value[1..]); }
  }

  // The output table and the counter after some replies.
  ghost predicate Fetched(rs: seq<Reply>, daily: Table, processed: nat) {
    daily == Upserts(map[], Gathered(rs)) && processed == |Gathered(rs)|
  }

  lemma FetchedNext(rs: seq<Reply>, r: Reply, before: Table, processed0: nat, after: Table, processed: nat)
    requires Fetched(rs, before, processed0)
    requires after == Upserts(before, r.records) && processed == processed0 + |r.records|
    ensures Fetched(rs + [r], after, processed)
  {
    assert (rs + [r])[..|rs|] == rs;
    UpsertsInPages(map[], Gathered(rs), r.records);
  }

  // The replies that are still to come.
  ghost predicate Ahead(ask: Ask, size: nat, all: seq<Reply>, requests: nat, offset: nat, total: int, hasMore: bool)
    requires Dry(ask, size)
  {
    && requests <= |all|
    && (if hasMore then all[requests..] == Trail(ask, size, offset, total) else requests == |all|)
  }

  lemma AheadNext(ask: Ask, size: nat, all: seq<Reply>, requests: nat, offset: nat, total0: int)
    requires Dry(ask, size) && Ahead(ask, size, all, requests, offset, total0, true)
    ensures var r := ask(offset, total0);
      && requests < |all| && all[requests] == r
      && Ahead(ask, size, all, requests + 1, Next(offset, r), r.total, !Last(offset, r))
  {
    var r := ask(offset, total0);
    var rest := all[requests..];
    assert all[requests + 1..] == rest[1..];
    if !Last(offset, r) { assert rest[1..] == Trail(ask, size, offset + r.count, r.total); }
  }

  lemma AheadIsMore(ask: Ask, size: nat, all: seq<Reply>, requests: nat, offset: nat, total0: int)
    requires Dry(ask, size) && Ahead(ask, size, all, requests, offset, total0, true)
    ensures requests < |all|
  {
  }

  lemma OneMore(all: seq<Reply>, n: nat)
    requires n < |all|
    ensures all[..n] + [all[n]] == all[..n + 1]
  {
  }

  // --- The groups by the fields of the records ---

  // The records of a station, a day and a metric; a day is the first eight characters of a date.
  function InGroup(station: string, day: string, metric: string): Record -> bool {
    (r: Record) =>
      r.station == station && r.element == metric && (if |r.date| <= 8 then r.date else r.date[..8]) == day
  }

  function ValuesOf(rs: seq<Record>): seq<real> {
    seq(|rs|, i requires 0 <= i < |rs| => rs[i].value)
  }

  // What is gathered from a list one element at a time comes from the wanted elements.
  ghost predicate GathersAt<A, B>(f: seq<A> -> seq<B>, wanted: A -> bool, value: A -> B, init: seq<A>, x: A) {
    f(init + [x]) == f(init) + if wanted(x) then [value(x)] else []
  }

  ghost predicate Gathers<A(!new), B>(f: seq<A> -> seq<B>, wanted: A -> bool, value: A -> B) {
    f([]) == [] && forall init: seq<A>, x: A :: GathersAt(f, wanted, value, init, x)
  }

  function Each<A, B>(value: A -> B, s: seq<A>): seq<B> {
    seq(|s|, i requires 0 <= i < |s| => value(s[i]))
  }

  lemma EachSnoc<A, B>(value: A -> B, s: seq<A>, x: A)
    ensures Each(value, s + [x]) == Each(value, s) + [value(x)]
    ensures Each(value, s + []) == Each(value, s)
  {
    assert s + [] == s;
  }

  lemma {:induction false} GatheredAreFiltered<A(!new), B>(f: seq<A> -> seq<B>, wanted: A -> bool, value: A -> B,
                                                           s: seq<A>)
    requires Gathers(f, wanted, value)
    ensures f(s) == Each(value, Seqs.Filter(s, wanted))
  {
    if s != [] {
      var n := |s| - 1;
      GatheredAreFiltered(f, wanted, value, s[..n]);
      EachSnoc(value, Seqs.Filter(s[..n], wanted), s[n]);
      assert s == s[..n] + [s[n]];
      assert GathersAt(f, wanted, value, s[..n], s[n]);
    }
  }

  lemma ValuesAreFiltered(rs: seq<Record>, station: string, day: string, metric: string)
    ensures Values(rs, Key(station, day, metric)) == ValuesOf(Seqs.Filter(rs, InGroup(station, day, metric)))
  {
    var k := Key(station, day, metric);
    var f, wanted, value := (s: seq<Record>) => Values(s, k), InGroup(station, day, metric), (r: Record) => r.value;
    forall init: seq<Record>, r: Record ensures GathersAt(f, wanted, value, init, r) {
      ValuesSnoc(init, r, k);
    }
    GatheredAreFiltered(f, wanted, value, rs);
  }

  // For every station, day and metric: there is an entry exactly when there is a record of them, and it holds
  // the number, the mean, the least and the greatest of the values of exactly these records.
  lemma GroupsByFields(rs: seq<Record>, station: string, day: string, metric: string)
    ensures var t, k := Upserts(map[], rs), Key(station, day, metric);
      var vs := ValuesOf(Seqs.Filter(rs, InGroup(station, day, metric)));
      && (k in t <==> vs != [])
      && (k in t ==> && t[k].count == |vs| && t[k].avg == Sum(vs) / |vs| as real
                     && t[k].min in vs && t[k].max in vs && forall v :: v in vs ==> t[k].min <= v <= t[k].max)
  {
    UpsertsAreGroupBy(rs);
    ValuesAreFiltered(rs, station, day, metric);
    assert GroupIs(Upserts(map[], rs), Key(station, day, metric), Values(rs, Key(station, day, metric)));
  }

  // The rows of the weather table that count for a station, a day and a metric.
  function RowInGroup(station: string, day: string, metric: string): Row -> bool {
    (r: Row) =>
      && Recoverable(r) && Truncate(r.station, 31) == station && Truncate(r.element, 7) == metric
      && (if |r.date| <= 8 then r.date else r.date[..8]) == day
  }

  function Rounded(r: Row): real {
    Text.Hundredths(r.value) as real / 100.0
  }

  function OneRow(r: Row, wanted: bool): seq<real> {
    if wanted then [Rounded(r)] else []
  }

  lemma OneRowCounts(r: Row, station: string, day: string, metric: string)
    ensures Values(ReadAll([r]), Key(station, day, metric)) == OneRow(r, RowInGroup(station, day, metric)(r))
  {
    var k := Key(station, day, metric);
    if Recoverable(r) {
      var read := PageText.Read(r);
      assert ReadAll([r]) == [read] + [];
      assert [read] == [] + [read];
      ValuesSnoc([], read, k);
      assert Truncate(Truncate(r.date, 15), 8) == if |r.date| <= 8 then r.date else r.date[..8];
    } else {
      assert ReadAll([r]) == [];
    }
  }

  function ReadValues(k: Key): seq<Row> -> seq<real> {
    (rows: seq<Row>) => Values(ReadAll(rows), k)
  }

  lemma ReadValuesConcat(k: Key, a: seq<Row>, b: seq<Row>)
    ensures ReadValues(k)(a + b) == ReadValues(k)(a) + ReadValues(k)(b)
  {
    ReadAllConcat(a, b);
    ValuesConcat(ReadAll(a), ReadAll(b), k);
  }

  lemma GathersFrom<A, B>(f: seq<A> -> seq<B>, wanted: A -> bool, value: A -> B, init: seq<A>, x: A)
    requires f(init + [x]) == f(init) + f([x]) && f([x]) == if wanted(x) then [value(x)] else []
    ensures GathersAt(f, wanted, value, init, x)
  {
  }

  lemma RowGathers(init: seq<Row>, r: Row, station: string, day: string, metric: string)
    ensures GathersAt(ReadValues(Key(station, day, metric)), RowInGroup(station, day, metric), Rounded, init, r)
  {
    ReadValuesConcat(Key(station, day, metric), init, [r]);
    OneRowCounts(r, station, day, metric);
    GathersFrom(ReadValues(Key(station, day, metric)), RowInGroup(station, day, metric), Rounded, init, r);
  }

  lemma RowsGather(station: string, day: string, metric: string)
    ensures Gathers(ReadValues(Key(station, day, metric)), RowInGroup(station, day, metric), Rounded)
  {
    forall init: seq<Row>, r: Row
      ensures GathersAt(ReadValues(Key(station, day, metric)), RowInGroup(station, day, metric), Rounded, init, r)
    {
      RowGathers(init, r, station, day, metric);
    }
  }

  lemma RowsAreFiltered(rows: seq<Row>, station: string, day: string, metric: string)
    ensures Values(ReadAll(rows), Key(station, day, metric)) ==
            Each(Rounded, Seqs.Filter(rows, RowInGroup(station, day, metric)))
  {
    RowsGather(station, day, metric);
    GatheredAreFiltered(ReadValues(Key(station, day, metric)), RowInGroup(station, day, metric), Rounded, rows);
  }

  // The aggregates hold every station, day and metric of these rows, and nothing else.
  ghost predicate DailyOf(daily: Table, rows: seq<Row>) {
    forall station, day, metric ::
      GroupIs(daily, Key(station, day, metric), Each(Rounded, Seqs.Filter(rows, RowInGroup(station, day, metric))))
  }

  lemma RowsGroupBy(rows: seq<Row>)
    ensures DailyOf(Upserts(map[], ReadAll(rows)), rows)
  {
    var t := Upserts(map[], ReadAll(rows));
    UpsertsAreGroupBy(ReadAll(rows));
    forall station, day, metric
      ensures GroupIs(t, Key(station, day, metric),
                      Each(Rounded, Seqs.Filter(rows, RowInGroup(station, day, metric))))
    {
      RowsAreFiltered(rows, station, day, metric);
      assert GroupIs(t, Key(station, day, metric), Values(ReadAll(rows), Key(station, day, metric)));
    }
  }

  // The rows of the answered requests, ten thousand each.
  function RowsAsked(table: seq<Row>, requests: nat): seq<Row> {
    if 10000 * requests <= |table| then table[..10000 * requests] else table
  }

  lemma AskedRows(table: seq<Row>, requests: nat)
    ensures table[..From(table, requests)] == RowsAsked(table, requests)
  {
  }

  lemma DailyFrom(daily: Table, records: seq<Record>, rows: seq<Row>)
    requires daily == Upserts(map[], records) && records == ReadAll(rows)
    ensures DailyOf(daily, rows)
  {
    RowsGroupBy(rows);
  }

  lemma FetchedGroups(table: seq<Row>, requests: nat, daily: Table)
    requires AllQuotable(table) && requests <= |Replies(table)|
    requires daily == Upserts(map[], Gathered(Replies(table)[..requests]))
    ensures Gathered(Replies(table)[..requests]) == ReadAll(RowsAsked(table, requests))
    ensures DailyOf(daily, RowsAsked(table, requests))
  {
    var records := Gathered(Replies(table)[..requests]);
    FetchedIsRead(table, requests);
    AskedRows(table, requests);
    DailyFrom(daily, records, RowsAsked(table, requests));
  }

  // --- The parameters of a request ---

  lemma WindowRows(table: seq<Row>, from: nat, most: nat)
    ensures |Window(table, from, most)| ==
            if from >= |table| then 0 else if from + most <= |table| then most else |table| - from
    ensures forall k :: 0 <= k < |Window(table, from, most)| ==> Window(table, from, most)[k] == table[from + k]
  {
  }

  // A negative offset is 0, a limit below 1 is 10000 and one above 50000 is 50000.
  lemma ServeClamps(table: seq<Row>, offset: int, limit: int)
    ensures offset < 0 ==> Serve(table, offset, limit) == Serve(table, 0, limit)
    ensures limit < 1 ==> Serve(table, offset, limit) == Serve(table, offset, 10000)
    ensures limit > 50000 ==> Serve(table, offset, limit) == Serve(table, offset, 50000)
    ensures offset >= 0 && 1 <= limit <= 50000 ==>
              Serve(table, offset, limit) == Page(Window(table, offset, limit), offset, limit, |table|)
  {
  }

  class Aggregator {
    var daily: Table

    // The upsert, if the record was read completely.
    method Store(found: seq<Record>, ghost t: Table, ghost done: seq<Record>) returns (stored: nat)
      requires |found| <= 1 && daily == Upserts(t, done)
      modifies this
      ensures daily == Upserts(t, done + found) && stored == |found|
    {
      UpsertsFound(t, done, found);
      stored := 0;
      if found != [] {
        daily := Upsert(daily, found[0]);
        stored := 1;
      }
    }

    // One turn of the record loop at a pointer to "station_id".
    method ScanOne(p: string, at: string -> seq<Record>, ghost t: Table, ghost done: seq<Record>)
        returns (next: Option<string>, stored: nat, ghost found: seq<Record>)
      requires p != [] && |at(p)| <= 1 && daily == Upserts(t, done)
      modifies this
      ensures found == at(p) && stored == |found| && daily == Upserts(t, done + found)
      ensures next == Locate(p[1..])
      ensures done + ScanFrom(Some(p), at) == done + found + ScanFrom(next, at)
    {
      var read := at(p);
      stored := Store(read, t, done);
      found := read;
      ScanNext(done, p, at);
      next := Locate(p[1..]);
    }

    // The record loop over one response, for any way of reading the record at a pointer.
    method ScanPage(response: string, at: string -> seq<Record>, processed0: nat) returns (processed: nat)
      requires forall p :: |at(p)| <= 1
      modifies this
      ensures daily == Upserts(old(daily), ScanWith(response, at))
      ensures processed == processed0 + |ScanWith(response, at)|
    {
      processed := processed0;
      ghost var done, all := [], ScanWith(response, at);
      var ptr := Locate(response);
      while ptr.Some?
        invariant ptr.Some? ==> ptr.value != []
        invariant all == done + ScanFrom(ptr, at)
        invariant daily == Upserts(old(daily), done)
        invariant processed == processed0 + |done|
        decreases if ptr.Some? then |ptr.value| else 0
      {
        var stored;
        ghost var found;
        ptr, stored, found := ScanOne(ptr.value, at, old(daily), done);
        processed := processed + stored;
        done := done + found;
      }
      assert done + [] == done;
    }

    // One request and the reading of its answer.
    method FetchPage(get: nat -> string, offset: nat, total0: int, processed0: nat,
                     ghost ask: Ask, ghost rs: seq<Reply>)
        returns (total: int, chunkCount: int, processed: nat)
      requires Reads(get, ask) && Fetched(rs, daily, processed0)
      modifies this
      ensures total == ask(offset, total0).total && chunkCount == ask(offset, total0).count
      ensures Fetched(rs + [ask(offset, total0)], daily, processed)
    {
      ghost var before := daily;
      var response := get(offset);
      ghost var r := Parse(response, total0);
      assert ask(offset, total0) == r;
      total := FindInt(response, "total", total0);
      chunkCount := FindInt(response, "count", 0);
      AtMostOne();
      processed := ScanPage(response, RecordAt, processed0);
      ScanWithIsScanRecords(response);
      FetchedNext(rs, r, before, processed0, daily, processed);
    }

    // One turn of the paging loop: the page, the new offset, and whether to go on.
    method NextChunk(get: nat -> string, offset0: nat, total0: int, processed0: nat,
                     ghost ask: Ask, ghost size: nat, ghost all: seq<Reply>, ghost requests: nat)
        returns (offset: nat, total: int, hasMore: bool, processed: nat)
      requires Reads(get, ask) && Dry(ask, size) && requests < |all|
      requires Ahead(ask, size, all, requests, offset0, total0, true) && Fetched(all[..requests], daily, processed0)
      modifies this
      ensures Ahead(ask, size, all, requests + 1, offset, total, hasMore)
      ensures Fetched(all[..requests + 1], daily, processed)
    {
      AheadNext(ask, size, all, requests, offset0, total0);
      OneMore(all, requests);
      var chunkCount;
      total, chunkCount, processed := FetchPage(get, offset0, total0, processed0, ask, all[..requests]);
      offset := offset0;
      hasMore := true;
      if chunkCount <= 0 {
        hasMore := false;
      } else {
        offset := offset + chunkCount;
        if total > 0 && offset >= total {
          hasMore := false;
        }
      }
    }

    // The paging loop over any endpoint that runs dry; up(i) says whether the i-th request is answered after
    // its retries.
    method FetchChunks(get: nat -> string, up: nat -> bool, ghost ask: Ask, ghost size: nat, ghost all: seq<Reply>)
        returns (status: int, requests: nat, processed: nat)
      requires Reads(get, ask) && Dry(ask, size) && Ahead(ask, size, all, 0, 0, 0, true)
      modifies this
      ensures requests <= |all| && Fetched(all[..requests], daily, processed)
      ensures status == 0 || status == -1
      ensures status == 0 ==> requests == |all| && Answered(up, |all|)
      ensures status == -1 ==> requests < |all| && !up(requests)
    {
      var offset, totalRecords := 0, 0;
      processed, requests := 0, 0;
      daily := map[];
      var hasMore := true;
      while hasMore
        invariant Ahead(ask, size, all, requests, offset, totalRecords, hasMore)
        invariant Fetched(all[..requests], daily, processed)
        invariant Answered(up, requests)
        decreases |all| - requests, hasMore
      {
        AheadIsMore(ask, size, all, requests, offset, totalRecords);
        if !up(requests) {
          return -1, requests, processed;
        }
        offset, totalRecords, hasMore, processed :=
          NextChunk(get, offset, totalRecords, processed, ask, size, all, requests);
        requests := requests + 1;
      }
      status := 0;
    }

    // The aggregates hold what the answered requests brought in: all replies, or those before the first
    // request that was not answered.
    method FetchAndAggregate(table: seq<Row>, up: nat -> bool)
        returns (status: int, requests: nat, processed: nat)
      modifies this
      ensures status == 0 || status == -1
      ensures requests <= |Replies(table)| <= |table| + 1
      ensures status == 0 <==> Answered(up, |Replies(table)|)
      ensures status == 0 ==> requests == |Replies(table)|
      ensures status == -1 ==> requests < |Replies(table)| && !up(requests)
      ensures daily == Upserts(map[], Gathered(Replies(table)[..requests]))
      ensures processed == |Gathered(Replies(table)[..requests])|
      ensures NumbersShow(table) ==> |Replies(table)| == if table == [] then 1 else (|table| + 9999) / 10000
      ensures AllQuotable(table) ==> Gathered(Replies(table)[..requests]) == ReadAll(RowsAsked(table, requests))
      ensures AllQuotable(table) ==> DailyOf(daily, RowsAsked(table, requests))
    {
      TableRunsDry(table);
      FetchIsShort(table);
      status, requests, processed := FetchChunks(Pages(table), up, Asked(Pages(table)), |table|, Replies(table));
      if NumbersShow(table) { FullPages(table, requests); }
      if AllQuotable(table) { FetchedGroups(table, requests, daily); }
    }
  }
}
