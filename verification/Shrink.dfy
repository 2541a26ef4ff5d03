// Shrinking a failing value of a property test.
module Shrink {
  datatype Value =
    | Int(n: int)
    | Str(s: string)
    | Slice(es: seq<Value>)
    | Map(m: map<Value, Value>)
    | Pair(first: Value, second: Value)

  datatype Gen =
    | IntGen(min: int, max: int)
    | StringGen(minLen: nat, maxLen: nat)
    | SliceGen(minLen: nat, maxLen: nat, elem: Gen)
    | MapGen(minLen: nat, maxLen: nat, key: Gen, value: Gen)
    | PairGen(gen1: Gen, gen2: Gen)
    | OneOfGen(gens: seq<Gen>)

  // Which key the iteration over a map meets first.
  type Pick = map<Value, Value> -> Value

  ghost predicate Honest(pick: Pick) {
    forall m: map<Value, Value> :: m != map[] ==> pick(m) in m
  }

  // The type assertions of the generator hold for the value.
  predicate Typed(g: Gen, v: Value)
    decreases g
  {
    match g
    case IntGen(_, _) => v.Int?
    case StringGen(_, _) => v.Str?
    case SliceGen(_, _, elem) => v.Slice? && forall i :: 0 <= i < |v.es| ==> Typed(elem, v.es[i])
    case MapGen(_, _, _, _) => v.Map?
    case PairGen(gen1, gen2) => v.Pair? && Typed(gen1, v.first) && Typed(gen2, v.second)
    case OneOfGen(gens) => forall i :: 0 <= i < |gens| ==> Typed(gens[i], v)
  }

  // Division that truncates toward zero.
  function Half(n: int): int {
    if n < 0 then -(-n / 2) else n / 2
  }

  function InFirst(cs: seq<Value>, second: Value): (ps: seq<Value>)
    ensures |ps| == |cs|
  {
    seq(|cs|, i requires 0 <= i < |cs| => Pair(cs[i], second))
  }

  function InSecond(first: Value, cs: seq<Value>): (ps: seq<Value>)
    ensures |ps| == |cs|
  {
    seq(|cs|, i requires 0 <= i < |cs| => Pair(first, cs[i]))
  }

  function InPlace(es: seq<Value>, k: nat, cs: seq<Value>): (ps: seq<Value>)
    requires k < |es|
    ensures |ps| == |cs|
  {
    seq(|cs|, i requires 0 <= i < |cs| => Slice(es[k := cs[i]]))
  }

  // A list without its last element, without its first, and its first half.
  function Shorter(es: seq<Value>): (cs: seq<Value>)
    requires es != []
    ensures |cs| == 3
  {
    [Slice(es[..|es| - 1]), Slice(es[1..]), Slice(es[..|es| / 2])]
  }

  // The candidates of a generator, in the order they are tried.
  function Candidates(g: Gen, v: Value, pick: Pick): seq<Value>
    requires Typed(g, v)
    decreases g, 0, 0
  {
    match g
    case IntGen(min, _) =>
      (if v.n > min then [Int(Half(v.n)), Int(v.n - 1)] else []) + (if v.n < 0 then [Int(-v.n)] else [])
    case StringGen(minLen, _) =>
      if |v.s| > minLen then [Str(v.s[..|v.s| - 1]), Str(v.s[1..]), Str(v.s[..|v.s| / 2])] else []
    case SliceGen(minLen, _, elem) =>
      if |v.es| > minLen then Shorter(v.es) + Elementwise(elem, v.es, 0, pick) else []
    case MapGen(minLen, _, _, _) =>
      if |v.m| > minLen then [Map(v.m - {pick(v.m)})] else []
    case PairGen(gen1, gen2) =>
      InFirst(Candidates(gen1, v.first, pick), v.second) + InSecond(v.first, Candidates(gen2, v.second, pick))
    case OneOfGen(gens) =>
      FirstOf(gens, v, pick)
  }

  // The candidates of each element in its place, from the k-th element on.
  function Elementwise(elem: Gen, es: seq<Value>, k: nat, pick: Pick): seq<Value>
    requires k <= |es| && forall i :: 0 <= i < |es| ==> Typed(elem, es[i])
    decreases elem, 1, |es| - k
  {
    if k == |es| then [] else InPlace(es, k, Candidates(elem, es[k], pick)) + Elementwise(elem, es, k + 1, pick)
  }

  // The candidates of the first generator that has any.
  function FirstOf(gens: seq<Gen>, v: Value, pick: Pick): seq<Value>
    requires forall i :: 0 <= i < |gens| ==> Typed(gens[i], v)
    decreases gens, 1, 0
  {
    if gens == [] then []
    else
      var cs := Candidates(gens[0], v, pick);
      if cs != [] then cs else FirstOf(gens[1..], v, pick)
  }

  // --- The measure ---

  function Size(v: Value): nat {
    match v
    case Int(n) => if n >= 0 then n else 1 - n
    case Str(s) => |s|
    case Slice(es) => |es| + Total(es)
    case Map(m) => |m|
    case Pair(first, second) => Size(first) + Size(second)
  }

  function Total(es: seq<Value>): nat {
    if es == [] then 0 else Size(es[0]) + Total(es[1..])
  }

  // No integer generator that shrinking reaches has a negative minimum.
  predicate WellFounded(g: Gen) {
    match g
    case IntGen(min, _) => min >= 0
    case StringGen(_, _) => true
    case SliceGen(_, _, elem) => WellFounded(elem)
    case MapGen(_, _, _, _) => true
    case PairGen(gen1, gen2) => WellFounded(gen1) && WellFounded(gen2)
    case OneOfGen(gens) => forall i :: 0 <= i < |gens| ==> WellFounded(gens[i])
  }

  lemma {:induction false} TotalConcat(a: seq<Value>, b: seq<Value>)
    ensures Total(a + b) == Total(a) + Total(b)
  {
    if a == [] {
      assert a + b == b;
    } else {
      assert (a + b)[1..] == a[1..] + b;
      TotalConcat(a[1..], b);
    }
  }

  lemma TotalCut(es: seq<Value>, k: nat)
    requires k <= |es|
    ensures Total(es[..k]) <= Total(es) && Total(es[k..]) <= Total(es)
  {
    SplitAt(es, k);
    TotalConcat(es[..k], es[k..]);
  }

  lemma SplitAt(es: seq<Value>, k: nat)
    requires k <= |es|
    ensures es[..k] + es[k..] == es
  {
  }

  lemma ReplacedParts(es: seq<Value>, k: nat, x: Value)
    requires k < |es|
    ensures es[..k] + ([x] + es[k + 1..]) == es[k := x]
    ensures es[..k] + ([es[k]] + es[k + 1..]) == es
  {
  }

  lemma TotalReplaced(es: seq<Value>, k: nat, x: Value)
    requires k < |es|
    ensures Total(es[k := x]) == Total(es) - Size(es[k]) + Size(x)
  {
    ReplacedParts(es, k, x);
    TotalConcat(es[..k], [es[k]] + es[k + 1..]);
    TotalConcat(es[..k], [x] + es[k + 1..]);
    TotalCons(es[k], es[k + 1..]);
    TotalCons(x, es[k + 1..]);
  }

  lemma TotalCons(x: Value, es: seq<Value>)
    ensures Total([x] + es) == Size(x) + Total(es)
  {
    assert ([x] + es)[1..] == es;
  }

  // --- Candidates keep the types ---

  ghost predicate Keeps(v: Value, c: Value) {
    forall g: Gen :: Typed(g, v) ==> Typed(g, c)
  }

  // Every element of the one list has the types of some element of the other.
  ghost predicate Within(es: seq<Value>, fs: seq<Value>) {
    forall j :: 0 <= j < |fs| ==> Near(es, fs[j])
  }

  ghost predicate Near(es: seq<Value>, x: Value) {
    exists i :: 0 <= i < |es| && Keeps(es[i], x)
  }

  lemma {:induction false} TypedFlat(g: Gen, v: Value, c: Value)
    requires Typed(g, v) && ((v.Int? && c.Int?) || (v.Str? && c.Str?) || (v.Map? && c.Map?))
    ensures Typed(g, c)
  {
    match g
    case OneOfGen(gens) =>
      forall i | 0 <= i < |gens| ensures Typed(gens[i], c) { TypedFlat(gens[i], v, c); }
    case _ =>
  }

  lemma FlatKeeps(v: Value, c: Value)
    requires (v.Int? && c.Int?) || (v.Str? && c.Str?) || (v.Map? && c.Map?)
    ensures Keeps(v, c)
  {
    forall g: Gen | Typed(g, v) ensures Typed(g, c) { TypedFlat(g, v, c); }
  }

  lemma {:induction false} TypedSlice(g: Gen, es: seq<Value>, fs: seq<Value>)
    requires Typed(g, Slice(es)) && Within(es, fs)
    ensures Typed(g, Slice(fs))
  {
    match g
    case SliceGen(_, _, elem) =>
      forall j | 0 <= j < |fs| ensures Typed(elem, fs[j]) {
        assert Near(es, fs[j]);
        var i :| 0 <= i < |es| && Keeps(es[i], fs[j]);
        assert Typed(elem, es[i]);
      }
    case OneOfGen(gens) =>
      forall i | 0 <= i < |gens| ensures Typed(gens[i], Slice(fs)) { TypedSlice(gens[i], es, fs); }
    case _ =>
  }

  lemma SliceKeeps(es: seq<Value>, fs: seq<Value>)
    requires Within(es, fs)
    ensures Keeps(Slice(es), Slice(fs))
  {
    forall g: Gen | Typed(g, Slice(es)) ensures Typed(g, Slice(fs)) { TypedSlice(g, es, fs); }
  }

  lemma {:induction false} TypedPair(g: Gen, a: Value, b: Value, c: Value, d: Value)
    requires Typed(g, Pair(a, b)) && Keeps(a, c) && Keeps(b, d)
    ensures Typed(g, Pair(c, d))
  {
    match g
    case OneOfGen(gens) =>
      forall i | 0 <= i < |gens| ensures Typed(gens[i], Pair(c, d)) { TypedPair(gens[i], a, b, c, d); }
    case _ =>
  }

  lemma PairKeeps(a: Value, b: Value, c: Value, d: Value)
    requires Keeps(a, c) && Keeps(b, d)
    ensures Keeps(Pair(a, b), Pair(c, d))
  {
    forall g: Gen | Typed(g, Pair(a, b)) ensures Typed(g, Pair(c, d)) { TypedPair(g, a, b, c, d); }
  }

  lemma CutWithin(es: seq<Value>, lo: nat, hi: nat)
    requires lo <= hi <= |es|
    ensures Within(es, es[lo..hi])
  {
    forall j | 0 <= j < hi - lo ensures Near(es, es[lo..hi][j]) {
      assert es[lo..hi][j] == es[lo + j];
      assert Keeps(es[lo + j], es[lo + j]);
    }
  }

  lemma ReplacedWithin(es: seq<Value>, k: nat, x: Value)
    requires k < |es| && Keeps(es[k], x)
    ensures Within(es, es[k := x])
  {
    var fs := es[k := x];
    forall j | 0 <= j < |fs| ensures Near(es, fs[j]) {
      assert Keeps(es[j], fs[j]);
    }
  }

  // --- Every candidate is smaller ---

  // A candidate has the types of the value, and is smaller where that is asked for.
  ghost predicate Smaller(strict: bool, v: Value, c: Value) {
    Keeps(v, c) && (strict ==> Size(c) < Size(v))
  }

  ghost predicate AllSmaller(strict: bool, v: Value, cs: seq<Value>) {
    forall i :: 0 <= i < |cs| ==> Smaller(strict, v, cs[i])
  }

  lemma Joined(strict: bool, v: Value, a: seq<Value>, b: seq<Value>)
    requires AllSmaller(strict, v, a) && AllSmaller(strict, v, b)
    ensures AllSmaller(strict, v, a + b)
  {
    forall i | 0 <= i < |a + b| ensures Smaller(strict, v, (a + b)[i]) {
      assert (a + b)[i] == if i < |a| then a[i] else b[i - |a|];
    }
  }

  lemma ShorterSlice(strict: bool, es: seq<Value>, lo: nat, hi: nat)
    requires lo <= hi <= |es| && hi - lo < |es|
    ensures Smaller(strict, Slice(es), Slice(es[lo..hi]))
  {
    TotalCut(es, hi);
    TotalCut(es[..hi], lo);
    assert es[..hi][lo..] == es[lo..hi];
    CutWithin(es, lo, hi);
    SliceKeeps(es, es[lo..hi]);
  }

  lemma ShorterSlices(strict: bool, es: seq<Value>)
    requires es != []
    ensures AllSmaller(strict, Slice(es), Shorter(es))
  {
    ShorterSlice(strict, es, 0, |es| - 1);
    ShorterSlice(strict, es, 1, |es|);
    ShorterSlice(strict, es, 0, |es| / 2);
    assert es[0..|es| - 1] == es[..|es| - 1] && es[1..|es|] == es[1..] && es[0..|es| / 2] == es[..|es| / 2];
  }

  lemma SmallerInPlace(strict: bool, es: seq<Value>, k: nat, cs: seq<Value>)
    requires k < |es| && AllSmaller(strict, es[k], cs)
    ensures AllSmaller(strict, Slice(es), InPlace(es, k, cs))
  {
    forall i | 0 <= i < |cs| ensures Smaller(strict, Slice(es), InPlace(es, k, cs)[i]) {
      assert Smaller(strict, es[k], cs[i]);
      TotalReplaced(es, k, cs[i]);
      ReplacedWithin(es, k, cs[i]);
      SliceKeeps(es, es[k := cs[i]]);
    }
  }

  lemma SmallerInPair(strict: bool, a: Value, b: Value, cs: seq<Value>, ds: seq<Value>)
    requires AllSmaller(strict, a, cs) && AllSmaller(strict, b, ds)
    ensures AllSmaller(strict, Pair(a, b), InFirst(cs, b) + InSecond(a, ds))
  {
    forall i | 0 <= i < |cs| ensures Smaller(strict, Pair(a, b), InFirst(cs, b)[i]) {
      assert Smaller(strict, a, cs[i]);
      PairKeeps(a, b, cs[i], b);
    }
    forall i | 0 <= i < |ds| ensures Smaller(strict, Pair(a, b), InSecond(a, ds)[i]) {
      assert Smaller(strict, b, ds[i]);
      PairKeeps(a, b, a, ds[i]);
    }
    Joined(strict, Pair(a, b), InFirst(cs, b), InSecond(a, ds));
  }

  lemma {:induction false} SmallerElements(strict: bool, elem: Gen, es: seq<Value>, k: nat, pick: Pick)
    requires k <= |es| && forall i :: 0 <= i < |es| ==> Typed(elem, es[i])
    requires strict ==> WellFounded(elem) && Honest(pick)
    ensures AllSmaller(strict, Slice(es), Elementwise(elem, es, k, pick))
    decreases elem, 1, |es| - k
  {
    if k < |es| {
      EveryCandidateIsSmaller(strict, elem, es[k], pick);
      SmallerInPlace(strict, es, k, Candidates(elem, es[k], pick));
      SmallerElements(strict, elem, es, k + 1, pick);
      Joined(strict, Slice(es), InPlace(es, k, Candidates(elem, es[k], pick)), Elementwise(elem, es, k + 1, pick));
    }
  }

  lemma {:induction false} SmallerFirst(strict: bool, gens: seq<Gen>, v: Value, pick: Pick)
    requires forall i :: 0 <= i < |gens| ==> Typed(gens[i], v) && (strict ==> WellFounded(gens[i]))
    requires strict ==> Honest(pick)
    ensures AllSmaller(strict, v, FirstOf(gens, v, pick))
    decreases gens, 1, 0
  {
    if gens != [] {
      EveryCandidateIsSmaller(strict, gens[0], v, pick);
      SmallerFirst(strict, gens[1..], v, pick);
    }
  }

  lemma SmallerInts(strict: bool, min: int, n: int)
    requires strict ==> min >= 0
    ensures n > min ==> Smaller(strict, Int(n), Int(Half(n))) && Smaller(strict, Int(n), Int(n - 1))
    ensures n < 0 ==> Smaller(strict, Int(n), Int(-n))
  {
    FlatKeeps(Int(n), Int(Half(n)));
    FlatKeeps(Int(n), Int(n - 1));
    FlatKeeps(Int(n), Int(-n));
  }

  lemma SmallerStrings(strict: bool, s: string)
    requires s != []
    ensures AllSmaller(strict, Str(s), [Str(s[..|s| - 1]), Str(s[1..]), Str(s[..|s| / 2])])
  {
    FlatKeeps(Str(s), Str(s[..|s| - 1]));
    FlatKeeps(Str(s), Str(s[1..]));
    FlatKeeps(Str(s), Str(s[..|s| / 2]));
  }

  lemma SmallerMap(strict: bool, m: map<Value, Value>, k: Value)
    requires strict ==> k in m
    ensures Smaller(strict, Map(m), Map(m - {k}))
  {
    FlatKeeps(Map(m), Map(m - {k}));
    assert (m - {k}).Keys == m.Keys - {k};
    if k in m { assert |m.Keys| == |m.Keys - {k}| + 1; }
  }

  // Every candidate has the types of its value, and with no negative minimum inside the generator it is
  // strictly smaller.
  lemma {:induction false} EveryCandidateIsSmaller(strict: bool, g: Gen, v: Value, pick: Pick)
    requires Typed(g, v) && (strict ==> WellFounded(g) && Honest(pick))
    ensures AllSmaller(strict, v, Candidates(g, v, pick))
    decreases g, 0, 0
  {
    match g
    case IntGen(min, _) =>
      SmallerInts(strict, min, v.n);
    case StringGen(minLen, _) =>
      if |v.s| > minLen { SmallerStrings(strict, v.s); }
    case SliceGen(minLen, _, elem) =>
      if |v.es| > minLen {
        ShorterSlices(strict, v.es);
        SmallerElements(strict, elem, v.es, 0, pick);
        Joined(strict, v, Shorter(v.es),
               Elementwise(elem, v.es, 0, pick));
      }
    case MapGen(minLen, _, _, _) =>
      if |v.m| > minLen { SmallerMap(strict, v.m, pick(v.m)); }
    case PairGen(gen1, gen2) =>
      EveryCandidateIsSmaller(strict, gen1, v.first, pick);
      EveryCandidateIsSmaller(strict, gen2, v.second, pick);
      SmallerInPair(strict, v.first, v.second, Candidates(gen1, v.first, pick), Candidates(gen2, v.second, pick));
    case OneOfGen(gens) =>
      SmallerFirst(strict, gens, v, pick);
  }

  // --- What a generator produces ---

  // The values Generate can return. A map may repeat keys while it is drawn and end up short.
  ghost predicate Generated(g: Gen, v: Value) {
    match g
    case IntGen(min, max) => v.Int? && min <= v.n <= max
    case StringGen(minLen, maxLen) => v.Str? && minLen <= |v.s| <= maxLen
    case SliceGen(minLen, maxLen, elem) =>
      v.Slice? && minLen <= |v.es| <= maxLen && forall i :: 0 <= i < |v.es| ==> Generated(elem, v.es[i])
    case MapGen(minLen, maxLen, key, value) =>
      && v.Map? && minLen <= maxLen && |v.m| <= maxLen && (v.m == map[] ==> minLen == 0)
      && forall k :: k in v.m ==> Generated(key, k) && Generated(value, v.m[k])
    case PairGen(gen1, gen2) => v.Pair? && Generated(gen1, v.first) && Generated(gen2, v.second)
    case OneOfGen(gens) => exists i :: 0 <= i < |gens| && Generated(gens[i], v)
  }

  // Some value can be produced.
  predicate Fruitful(g: Gen) {
    match g
    case IntGen(min, max) => min <= max
    case StringGen(minLen, maxLen) => minLen <= maxLen
    case SliceGen(minLen, maxLen, elem) => minLen <= maxLen && (minLen == 0 || Fruitful(elem))
    case MapGen(minLen, maxLen, key, value) =>
      minLen <= maxLen && (minLen == 0 || (Fruitful(key) && Fruitful(value)))
    case PairGen(gen1, gen2) => Fruitful(gen1) && Fruitful(gen2)
    case OneOfGen(gens) => exists i :: 0 <= i < |gens| && Fruitful(gens[i])
  }

  function Repeated(n: nat, x: Value): (v: Value)
    ensures v.Slice? && |v.es| == n && forall i :: 0 <= i < n ==> v.es[i] == x
  {
    Slice(seq(n, _ => x))
  }

  function Blank(n: nat): (v: Value)
    ensures v.Str? && |v.s| == n
  {
    Str(seq(n, _ => 'a'))
  }

  ghost function Sample(g: Gen): (v: Value)
    requires Fruitful(g)
    ensures Generated(g, v)
  {
    match g
    case IntGen(min, _) => Int(min)
    case StringGen(minLen, _) => Blank(minLen)
    case SliceGen(minLen, _, elem) => if minLen == 0 then Slice([]) else Repeated(minLen, Sample(elem))
    case MapGen(minLen, _, key, value) =>
      if minLen == 0 then Map(map[]) else Map(map[Sample(key) := Sample(value)])
    case PairGen(gen1, gen2) => Pair(Sample(gen1), Sample(gen2))
    case OneOfGen(gens) => var i :| 0 <= i < |gens| && Fruitful(gens[i]); Sample(gens[i])
  }

  lemma {:induction false} GeneratedIsFruitful(g: Gen, v: Value)
    requires Generated(g, v)
    ensures Fruitful(g)
  {
    match g
    case SliceGen(minLen, _, elem) =>
      if minLen > 0 { GeneratedIsFruitful(elem, v.es[0]); }
    case MapGen(minLen, _, key, value) =>
      if minLen > 0 {
        var k :| k in v.m;
        GeneratedIsFruitful(key, k);
        GeneratedIsFruitful(value, v.m[k]);
      }
    case PairGen(gen1, gen2) =>
      GeneratedIsFruitful(gen1, v.first);
      GeneratedIsFruitful(gen2, v.second);
    case OneOfGen(gens) =>
      var i :| 0 <= i < |gens| && Generated(gens[i], v);
      GeneratedIsFruitful(gens[i], v);
    case _ =>
  }

  // Choices are between integer generators only. (Between others an earlier alternative can hide the
  // candidates of a later one.)
  predicate IntChoices(g: Gen) {
    match g
    case SliceGen(_, _, elem) => IntChoices(elem)
    case PairGen(gen1, gen2) => IntChoices(gen1) && IntChoices(gen2)
    case OneOfGen(gens) => forall i :: 0 <= i < |gens| ==> gens[i].IntGen?
    case _ => true
  }

  lemma {:induction false} GeneratedIsTyped(g: Gen, v: Value)
    requires IntChoices(g) && Generated(g, v)
    ensures Typed(g, v)
  {
    match g
    case SliceGen(_, _, elem) =>
      forall i | 0 <= i < |v.es| ensures Typed(elem, v.es[i]) { GeneratedIsTyped(elem, v.es[i]); }
    case PairGen(gen1, gen2) =>
      GeneratedIsTyped(gen1, v.first);
      GeneratedIsTyped(gen2, v.second);
    case _ =>
  }

  // --- Values from which shrinking ends ---

  // Nothing in the value that shrinking can reach belongs to an integer generator with a negative minimum:
  // the elements of a list are reached only while it is longer than its minimum.
  ghost predicate Calm(g: Gen, v: Value) {
    Typed(g, v) &&
    (WellFounded(g) ||
     match g
     case SliceGen(minLen, _, elem) => |v.es| <= minLen || forall i :: 0 <= i < |v.es| ==> Calm(elem, v.es[i])
     case PairGen(gen1, gen2) => Calm(gen1, v.first) && Calm(gen2, v.second)
     case _ => false)
  }

  ghost predicate Calmer(g: Gen, v: Value, c: Value) {
    Calm(g, c) && Size(c) < Size(v)
  }

  ghost predicate AllCalmer(g: Gen, v: Value, cs: seq<Value>) {
    forall i :: 0 <= i < |cs| ==> Calmer(g, v, cs[i])
  }

  lemma CalmJoined(g: Gen, v: Value, a: seq<Value>, b: seq<Value>)
    requires AllCalmer(g, v, a) && AllCalmer(g, v, b)
    ensures AllCalmer(g, v, a + b)
  {
  }

  ghost predicate AllCalm(elem: Gen, es: seq<Value>) {
    forall i :: 0 <= i < |es| ==> Calm(elem, es[i])
  }

  lemma CalmElements(minLen: nat, maxLen: nat, elem: Gen, es: seq<Value>)
    requires AllCalm(elem, es)
    ensures Calm(SliceGen(minLen, maxLen, elem), Slice(es))
  {
  }

  lemma CalmCut(minLen: nat, maxLen: nat, elem: Gen, es: seq<Value>, lo: nat, hi: nat)
    requires lo <= hi <= |es| && hi - lo < |es| && AllCalm(elem, es)
    ensures Calmer(SliceGen(minLen, maxLen, elem), Slice(es), Slice(es[lo..hi]))
  {
    ShorterSlice(true, es, lo, hi);
    CalmElements(minLen, maxLen, elem, es[lo..hi]);
  }

  lemma CalmShorter(minLen: nat, maxLen: nat, elem: Gen, es: seq<Value>)
    requires es != [] && AllCalm(elem, es)
    ensures AllCalmer(SliceGen(minLen, maxLen, elem), Slice(es), Shorter(es))
  {
    CalmCut(minLen, maxLen, elem, es, 0, |es| - 1);
    CalmCut(minLen, maxLen, elem, es, 1, |es|);
    CalmCut(minLen, maxLen, elem, es, 0, |es| / 2);
    assert es[0..|es| - 1] == es[..|es| - 1] && es[1..|es|] == es[1..] && es[0..|es| / 2] == es[..|es| / 2];
  }

  lemma CalmInPlace(minLen: nat, maxLen: nat, elem: Gen, es: seq<Value>, k: nat, cs: seq<Value>)
    requires k < |es| && AllCalm(elem, es) && AllCalmer(elem, es[k], cs)
    ensures AllCalmer(SliceGen(minLen, maxLen, elem), Slice(es), InPlace(es, k, cs))
  {
    forall i | 0 <= i < |cs| ensures Calmer(SliceGen(minLen, maxLen, elem), Slice(es), InPlace(es, k, cs)[i]) {
      assert Calmer(elem, es[k], cs[i]);
      TotalReplaced(es, k, cs[i]);
      CalmElements(minLen, maxLen, elem, es[k := cs[i]]);
    }
  }

  lemma {:induction false} CalmElementwise(minLen: nat, maxLen: nat, elem: Gen, es: seq<Value>, k: nat, pick: Pick)
    requires k <= |es| && AllCalm(elem, es) && Honest(pick)
    requires forall i :: 0 <= i < |es| ==> Typed(elem, es[i])
    ensures AllCalmer(SliceGen(minLen, maxLen, elem), Slice(es), Elementwise(elem, es, k, pick))
    decreases elem, 1, |es| - k
  {
    if k < |es| {
      var cs := Candidates(elem, es[k], pick);
      CandidatesAreCalmer(elem, es[k], pick);
      CalmInPlace(minLen, maxLen, elem, es, k, cs);
      CalmElementwise(minLen, maxLen, elem, es, k + 1, pick);
      CalmJoined(SliceGen(minLen, maxLen, elem), Slice(es), InPlace(es, k, cs), Elementwise(elem, es, k + 1, pick));
    }
  }

  lemma CalmInPair(gen1: Gen, gen2: Gen, a: Value, b: Value, cs: seq<Value>, ds: seq<Value>)
    requires Calm(gen1, a) && Calm(gen2, b) && AllCalmer(gen1, a, cs) && AllCalmer(gen2, b, ds)
    ensures AllCalmer(PairGen(gen1, gen2), Pair(a, b), InFirst(cs, b) + InSecond(a, ds))
  {
    var g := PairGen(gen1, gen2);
    forall i | 0 <= i < |cs| ensures Calmer(g, Pair(a, b), InFirst(cs, b)[i]) { assert Calmer(gen1, a, cs[i]); }
    forall i | 0 <= i < |ds| ensures Calmer(g, Pair(a, b), InSecond(a, ds)[i]) { assert Calmer(gen2, b, ds[i]); }
    CalmJoined(g, Pair(a, b), InFirst(cs, b), InSecond(a, ds));
  }

  lemma WellFoundedIsCalmer(g: Gen, v: Value, pick: Pick)
    requires Typed(g, v) && WellFounded(g) && Honest(pick)
    ensures AllCalmer(g, v, Candidates(g, v, pick))
  {
    var cs := Candidates(g, v, pick);
    EveryCandidateIsSmaller(true, g, v, pick);
    forall i | 0 <= i < |cs| ensures Calmer(g, v, cs[i]) { assert Smaller(true, v, cs[i]); }
  }

  // The candidates of a calm value are calm and strictly smaller.
  lemma {:induction false} CandidatesAreCalmer(g: Gen, v: Value, pick: Pick)
    requires Calm(g, v) && Honest(pick)
    ensures AllCalmer(g, v, Candidates(g, v, pick))
    decreases g, 0, 0
  {
    if WellFounded(g) {
      WellFoundedIsCalmer(g, v, pick);
    } else {
      match g
      case SliceGen(minLen, maxLen, elem) =>
        if |v.es| > minLen {
          CalmShorter(minLen, maxLen, elem, v.es);
          CalmElementwise(minLen, maxLen, elem, v.es, 0, pick);
          CalmJoined(g, v, Shorter(v.es), Elementwise(elem, v.es, 0, pick));
        }
      case PairGen(gen1, gen2) =>
        var cs, ds := Candidates(gen1, v.first, pick), Candidates(gen2, v.second, pick);
        CandidatesAreCalmer(gen1, v.first, pick);
        CandidatesAreCalmer(gen2, v.second, pick);
        CalmInPair(gen1, gen2, v.first, v.second, cs, ds);
    }
  }

  // --- Values from which it need not ---

  ghost predicate Restless(g: Gen, v: Value) {
    Typed(g, v) && !Calm(g, v)
  }

  lemma IntGoesOn(min: int, max: int, n: int, pick: Pick) returns (c: Value)
    requires min < 0
    ensures c.Int? && c in Candidates(IntGen(min, max), Int(n), pick)
  {
    var cs := Candidates(IntGen(min, max), Int(n), pick);
    c := cs[0];
  }

  lemma {:induction false} FirstGoesOn(gens: seq<Gen>, n: int, pick: Pick) returns (c: Value)
    requires forall i :: 0 <= i < |gens| ==> gens[i].IntGen?
    requires exists i :: 0 <= i < |gens| && gens[i].min < 0
    ensures c.Int? && c in FirstOf(gens, Int(n), pick)
  {
    var cs := Candidates(gens[0], Int(n), pick);
    if cs != [] {
      c := cs[0];
    } else {
      var i :| 0 <= i < |gens| && gens[i].min < 0;
      assert gens[1..][i - 1].min < 0;
      c := FirstGoesOn(gens[1..], n, pick);
    }
  }

  lemma {:induction false} InElementwise(elem: Gen, es: seq<Value>, k: nat, j: nat, c: Value, pick: Pick)
    requires k <= j < |es| && forall i :: 0 <= i < |es| ==> Typed(elem, es[i])
    requires c in Candidates(elem, es[j], pick)
    ensures Slice(es[j := c]) in Elementwise(elem, es, k, pick)
    decreases j - k
  {
    if k == j {
      var cs := Candidates(elem, es[k], pick);
      var i :| 0 <= i < |cs| && cs[i] == c;
      assert InPlace(es, k, cs)[i] == Slice(es[j := c]);
    } else {
      InElementwise(elem, es, k + 1, j, c, pick);
    }
  }

  lemma RestlessElement(minLen: nat, maxLen: nat, elem: Gen, es: seq<Value>, j: nat, c: Value)
    requires Typed(SliceGen(minLen, maxLen, elem), Slice(es)) && j < |es| && |es| > minLen && Restless(elem, c)
    requires !WellFounded(elem)
    ensures Restless(SliceGen(minLen, maxLen, elem), Slice(es[j := c]))
  {
    assert es[j := c][j] == c;
  }

  // One candidate of a restless value is restless.
  lemma {:induction false} RestlessGoesOn(g: Gen, v: Value, pick: Pick) returns (c: Value)
    requires IntChoices(g) && Restless(g, v)
    ensures Restless(g, c) && c in Candidates(g, v, pick)
  {
    match g
    case IntGen(min, max) =>
      c := IntGoesOn(min, max, v.n, pick);
    case SliceGen(minLen, maxLen, elem) =>
      var j :| 0 <= j < |v.es| && !Calm(elem, v.es[j]);
      var x := RestlessGoesOn(elem, v.es[j], pick);
      c := Slice(v.es[j := x]);
      RestlessElement(minLen, maxLen, elem, v.es, j, x);
      InElementwise(elem, v.es, 0, j, x, pick);
    case PairGen(gen1, gen2) =>
      var cs, ds := Candidates(gen1, v.first, pick), Candidates(gen2, v.second, pick);
      if !Calm(gen1, v.first) {
        var a := RestlessGoesOn(gen1, v.first, pick);
        var i :| 0 <= i < |cs| && cs[i] == a;
        c := InFirst(cs, v.second)[i];
      } else {
        var b := RestlessGoesOn(gen2, v.second, pick);
        var i :| 0 <= i < |ds| && ds[i] == b;
        c := InSecond(v.first, ds)[i];
      }
    case OneOfGen(gens) =>
      var i :| 0 <= i < |gens| && !WellFounded(gens[i]);
      assert Typed(gens[i], v);
      c := FirstGoesOn(gens, v.n, pick);
  }

  // --- Generators whose values are all calm ---

  // Every integer generator that shrinking reaches has a minimum that is not negative. Elements of lists of
  // one length only are not reached, and without values there is nothing to shrink.
  predicate Settles(g: Gen) {
    !Fruitful(g) ||
    match g
    case IntGen(min, _) => min >= 0
    case StringGen(_, _) => true
    case SliceGen(minLen, maxLen, elem) => maxLen <= minLen || Settles(elem)
    case MapGen(_, _, _, _) => true
    case PairGen(gen1, gen2) => Settles(gen1) && Settles(gen2)
    case OneOfGen(gens) => forall i :: 0 <= i < |gens| ==> WellFounded(gens[i])
  }

  lemma {:induction false} GeneratedIsCalm(g: Gen, v: Value)
    requires Settles(g) && Generated(g, v) && Typed(g, v)
    ensures Calm(g, v)
  {
    GeneratedIsFruitful(g, v);
    match g
    case SliceGen(minLen, maxLen, elem) =>
      if maxLen > minLen {
        forall i | 0 <= i < |v.es| ensures Calm(elem, v.es[i]) { GeneratedIsCalm(elem, v.es[i]); }
      }
    case PairGen(gen1, gen2) =>
      GeneratedIsCalm(gen1, v.first);
      GeneratedIsCalm(gen2, v.second);
    case _ =>
  }

  // Any other generator can produce a restless value.
  lemma {:induction false} SomeRestless(g: Gen) returns (v: Value)
    requires IntChoices(g) && !Settles(g)
    ensures Generated(g, v) && Restless(g, v)
  {
    match g
    case IntGen(min, _) =>
      v := Int(min);
    case SliceGen(minLen, maxLen, elem) =>
      var x := SomeRestless(elem);
      v := Repeated(minLen + 1, x);
      assert v.es[0] == x;
    case PairGen(gen1, gen2) =>
      if !Settles(gen1) {
        var a := SomeRestless(gen1);
        v := Pair(a, Sample(gen2));
        GeneratedIsTyped(gen2, Sample(gen2));
      } else {
        var b := SomeRestless(gen2);
        v := Pair(Sample(gen1), b);
        GeneratedIsTyped(gen1, Sample(gen1));
      }
    case OneOfGen(gens) =>
      v := Sample(g);
      GeneratedIsTyped(g, v);
  }

  // --- Staying in range ---

  // No choice where shrinking reaches; the candidates of a map leave its keys and values alone.
  predicate NoChoice(g: Gen) {
    match g
    case SliceGen(_, _, elem) => NoChoice(elem)
    case PairGen(gen1, gen2) => NoChoice(gen1) && NoChoice(gen2)
    case OneOfGen(_) => false
    case _ => true
  }

  // The halves inside the value stay in range: those of the integers, and those of the texts and lists
  // that are longer than their minimum.
  ghost predicate HalvesFit(g: Gen, v: Value)
    requires NoChoice(g) && Generated(g, v)
  {
    match g
    case IntGen(min, max) => (v.n > min ==> Half(v.n) <= max && min <= Half(v.n)) && (v.n < 0 ==> -v.n <= max)
    case StringGen(minLen, _) => |v.s| > minLen ==> |v.s| / 2 >= minLen
    case SliceGen(minLen, _, elem) =>
      |v.es| > minLen ==> |v.es| / 2 >= minLen && forall i :: 0 <= i < |v.es| ==> HalvesFit(elem, v.es[i])
    case MapGen(_, _, _, _) => true
    case PairGen(gen1, gen2) => HalvesFit(gen1, v.first) && HalvesFit(gen2, v.second)
  }

  ghost predicate AllGenerated(g: Gen, cs: seq<Value>) {
    forall i :: 0 <= i < |cs| ==> Generated(g, cs[i])
  }

  lemma JoinedRange(g: Gen, a: seq<Value>, b: seq<Value>)
    ensures AllGenerated(g, a + b) <==> AllGenerated(g, a) && AllGenerated(g, b)
  {
    if AllGenerated(g, a + b) {
      forall i | 0 <= i < |a| ensures Generated(g, a[i]) { assert (a + b)[i] == a[i]; }
      forall i | 0 <= i < |b| ensures Generated(g, b[i]) { assert (a + b)[|a| + i] == b[i]; }
    }
  }

  lemma InPlaceRange(minLen: nat, maxLen: nat, elem: Gen, es: seq<Value>, k: nat, cs: seq<Value>)
    requires k < |es| && Generated(SliceGen(minLen, maxLen, elem), Slice(es))
    ensures AllGenerated(SliceGen(minLen, maxLen, elem), InPlace(es, k, cs)) <==> AllGenerated(elem, cs)
  {
    var g := SliceGen(minLen, maxLen, elem);
    forall i | 0 <= i < |cs| ensures Generated(g, InPlace(es, k, cs)[i]) <==> Generated(elem, cs[i]) {
      assert es[k := cs[i]][k] == cs[i];
    }
  }

  lemma {:induction false} ElementRange(minLen: nat, maxLen: nat, elem: Gen, es: seq<Value>, k: nat,
                                        rest: seq<Value>, pick: Pick)
    requires k < |es| && NoChoice(elem) && Generated(SliceGen(minLen, maxLen, elem), Slice(es))
    requires Typed(elem, es[k]) && Honest(pick)
    ensures var g := SliceGen(minLen, maxLen, elem);
            AllGenerated(g, InPlace(es, k, Candidates(elem, es[k], pick)) + rest) <==>
            HalvesFit(elem, es[k]) && AllGenerated(g, rest)
    decreases elem, 0, 1
  {
    var cs := Candidates(elem, es[k], pick);
    StaysInRangeIff(elem, es[k], pick);
    InPlaceRange(minLen, maxLen, elem, es, k, cs);
    JoinedRange(SliceGen(minLen, maxLen, elem), InPlace(es, k, cs), rest);
  }

  ghost predicate RestFits(elem: Gen, es: seq<Value>, k: nat)
    requires NoChoice(elem) && forall i :: 0 <= i < |es| ==> Generated(elem, es[i])
  {
    forall i :: k <= i < |es| ==> HalvesFit(elem, es[i])
  }

  lemma RestFitsFrom(elem: Gen, es: seq<Value>, k: nat)
    requires NoChoice(elem) && k < |es| && forall i :: 0 <= i < |es| ==> Generated(elem, es[i])
    ensures RestFits(elem, es, k) <==> HalvesFit(elem, es[k]) && RestFits(elem, es, k + 1)
  {
  }

  lemma {:induction false} ElementsRange(minLen: nat, maxLen: nat, elem: Gen, es: seq<Value>, k: nat, pick: Pick)
    requires k <= |es| && NoChoice(elem) && Generated(SliceGen(minLen, maxLen, elem), Slice(es))
    requires forall i :: 0 <= i < |es| ==> Typed(elem, es[i])
    requires Honest(pick)
    ensures AllGenerated(SliceGen(minLen, maxLen, elem), Elementwise(elem, es, k, pick)) <==>
            RestFits(elem, es, k)
    decreases elem, 1, |es| - k
  {
    if k < |es| {
      RestFitsFrom(elem, es, k);
      ElementRange(minLen, maxLen, elem, es, k, Elementwise(elem, es, k + 1, pick), pick);
      ElementsRange(minLen, maxLen, elem, es, k + 1, pick);
    }
  }

  lemma ShorterRange(minLen: nat, maxLen: nat, elem: Gen, es: seq<Value>)
    requires Generated(SliceGen(minLen, maxLen, elem), Slice(es)) && |es| > minLen
    ensures AllGenerated(SliceGen(minLen, maxLen, elem), Shorter(es)) <==> |es| / 2 >= minLen
  {
    var cs := Shorter(es);
    assert |cs[2].es| == |es| / 2;
  }

  lemma PairRange(gen1: Gen, gen2: Gen, a: Value, b: Value, cs: seq<Value>, ds: seq<Value>)
    requires Generated(gen1, a) && Generated(gen2, b)
    ensures AllGenerated(PairGen(gen1, gen2), InFirst(cs, b) + InSecond(a, ds)) <==>
            AllGenerated(gen1, cs) && AllGenerated(gen2, ds)
  {
    var g := PairGen(gen1, gen2);
    forall i | 0 <= i < |cs| ensures Generated(g, InFirst(cs, b)[i]) <==> Generated(gen1, cs[i]) {}
    forall i | 0 <= i < |ds| ensures Generated(g, InSecond(a, ds)[i]) <==> Generated(gen2, ds[i]) {}
    JoinedRange(g, InFirst(cs, b), InSecond(a, ds));
  }

  // For nested generators without a choice: the candidates of a value in range are all in range exactly
  // when its halves are.
  lemma {:induction false} StaysInRangeIff(g: Gen, v: Value, pick: Pick)
    requires NoChoice(g) && Generated(g, v) && Typed(g, v) && Honest(pick)
    ensures AllGenerated(g, Candidates(g, v, pick)) <==> HalvesFit(g, v)
    decreases g, 0, 0
  {
    match g
    case IntGen(min, max) =>
      IntRange(min, max, v.n, pick);
    case StringGen(minLen, _) =>
      if |v.s| > minLen { assert |Candidates(g, v, pick)[2].s| == |v.s| / 2; }
    case SliceGen(minLen, maxLen, elem) =>
      if |v.es| > minLen {
        ShorterRange(minLen, maxLen, elem, v.es);
        ElementsRange(minLen, maxLen, elem, v.es, 0, pick);
        JoinedRange(g, Shorter(v.es), Elementwise(elem, v.es, 0, pick));
      }
    case MapGen(minLen, _, _, _) =>
      if |v.m| > minLen { MapRange(g, v.m, pick(v.m)); }
    case PairGen(gen1, gen2) =>
      StaysInRangeIff(gen1, v.first, pick);
      StaysInRangeIff(gen2, v.second, pick);
      PairRange(gen1, gen2, v.first, v.second, Candidates(gen1, v.first, pick), Candidates(gen2, v.second, pick));
  }

  lemma IntRange(min: int, max: int, n: int, pick: Pick)
    requires min <= n <= max
    ensures AllGenerated(IntGen(min, max), Candidates(IntGen(min, max), Int(n), pick)) <==>
            HalvesFit(IntGen(min, max), Int(n))
  {
    var big := if n > min then [Int(Half(n)), Int(n - 1)] else [];
    var small := if n < 0 then [Int(-n)] else [];
    JoinedRange(IntGen(min, max), big, small);
    if n > min { assert big[0] == Int(Half(n)) && big[1] == Int(n - 1); }
    if n < 0 { assert small[0] == Int(-n); }
  }

  lemma MapRange(g: Gen, m: map<Value, Value>, k: Value)
    requires g.MapGen? && Generated(g, Map(m)) && |m| > g.minLen && k in m
    ensures Generated(g, Map(m - {k}))
  {
    assert (m - {k}).Keys == m.Keys - {k};
  }

  // All halves are in range: of integers from 0 or 1 on, of a single one that is not negative, and of those
  // from a negative minimum whose negation is in range; of texts and lists with no minimum length above 1,
  // or with one length only.
  predicate RangeKept(g: Gen)
    requires NoChoice(g)
  {
    !Fruitful(g) ||
    match g
    case IntGen(min, max) => if min < 0 then -min <= max else min <= 1 || min == max
    case StringGen(minLen, maxLen) => minLen <= 1 || maxLen <= minLen
    case SliceGen(minLen, maxLen, elem) => maxLen <= minLen || (minLen <= 1 && RangeKept(elem))
    case MapGen(_, _, _, _) => true
    case PairGen(gen1, gen2) => RangeKept(gen1) && RangeKept(gen2)
  }

  lemma {:induction false} HalvesAlwaysFit(g: Gen, v: Value)
    requires NoChoice(g) && RangeKept(g) && Generated(g, v)
    ensures HalvesFit(g, v)
  {
    GeneratedIsFruitful(g, v);
    match g
    case SliceGen(minLen, _, elem) =>
      if |v.es| > minLen {
        forall i | 0 <= i < |v.es| ensures HalvesFit(elem, v.es[i]) { HalvesAlwaysFit(elem, v.es[i]); }
      }
    case PairGen(gen1, gen2) =>
      HalvesAlwaysFit(gen1, v.first);
      HalvesAlwaysFit(gen2, v.second);
    case _ =>
  }

  lemma {:induction false} SomeHalfMisfits(g: Gen) returns (v: Value)
    requires NoChoice(g) && !RangeKept(g)
    ensures Generated(g, v) && !HalvesFit(g, v)
  {
    match g
    case IntGen(min, _) =>
      v := Int(if min < 0 then min else min + 1);
    case StringGen(minLen, _) =>
      v := Blank(minLen + 1);
    case SliceGen(minLen, _, elem) =>
      var x;
      if RangeKept(elem) { x := Sample(elem); } else { x := SomeHalfMisfits(elem); }
      v := Repeated(minLen + 1, x);
      assert v.es[0] == x;
    case PairGen(gen1, gen2) =>
      if RangeKept(gen1) {
        var b := SomeHalfMisfits(gen2);
        v := Pair(Sample(gen1), b);
      } else {
        var a := SomeHalfMisfits(gen1);
        v := Pair(a, Sample(gen2));
      }
  }

  lemma NoChoiceIsIntChoices(g: Gen)
    requires NoChoice(g)
    ensures IntChoices(g)
  {
  }

  ghost predicate CandidatesStay(g: Gen, v: Value, pick: Pick) {
    Typed(g, v) && AllGenerated(g, Candidates(g, v, pick))
  }

  // For generators without a choice: whatever is produced, all its candidates could have been produced too,
  // exactly when the generator's bounds are such.
  lemma RangeKeptIff(g: Gen, pick: Pick)
    requires NoChoice(g) && Honest(pick)
    ensures RangeKept(g) <==> forall v :: Generated(g, v) ==> CandidatesStay(g, v, pick)
  {
    NoChoiceIsIntChoices(g);
    forall v | Generated(g, v) ensures CandidatesStay(g, v, pick) <==> HalvesFit(g, v) {
      GeneratedIsTyped(g, v);
      StaysInRangeIff(g, v, pick);
    }
    if RangeKept(g) {
      forall v | Generated(g, v) ensures HalvesFit(g, v) { HalvesAlwaysFit(g, v); }
    } else {
      var v := SomeHalfMisfits(g);
    }
  }

  // --- The search ---

  function FirstFailing(property: Value -> bool, cs: seq<Value>): (found: seq<Value>)
    ensures |found| <= 1
    ensures found == [] <==> forall i :: 0 <= i < |cs| ==> property(cs[i])
    ensures found != [] ==> found[0] in cs && !property(found[0])
  {
    if cs == [] then [] else if !property(cs[0]) then [cs[0]] else FirstFailing(property, cs[1..])
  }

  // What a generator offers: for a value and the number of shrinks so far, its candidates.
  type Offer = (Value, nat) -> seq<Value>

  // The greedy search: budget is what is left of it, shrinks how often a smaller value was taken.
  function Search(offer: Offer, property: Value -> bool, v: Value, budget: nat, shrinks: nat): (Value, nat)
    decreases budget
  {
    if budget == 0 then (v, shrinks)
    else
      var found := FirstFailing(property, offer(v, shrinks));
      if found == [] then (v, shrinks) else Search(offer, property, found[0], budget - 1, shrinks + 1)
  }

  ghost predicate LocallyMinimal(property: Value -> bool, cs: seq<Value>) {
    forall i :: 0 <= i < |cs| ==> property(cs[i])
  }

  // What the search returns still fails if the start did, and is locally minimal unless the budget is
  // used up.
  lemma {:induction false} SearchFindsMinimum(offer: Offer, property: Value -> bool,
                                              v: Value, budget: nat, shrinks: nat)
    ensures var (w, n) := Search(offer, property, v, budget, shrinks);
      && shrinks <= n <= shrinks + budget
      && (n == shrinks ==> w == v) && (n > shrinks ==> !property(w))
      && (n < shrinks + budget ==> LocallyMinimal(property, offer(w, n)))
    decreases budget
  {
    if budget > 0 {
      var found := FirstFailing(property, offer(v, shrinks));
      if found != [] { SearchFindsMinimum(offer, property, found[0], budget - 1, shrinks + 1); }
    }
  }

  ghost predicate Descends(offer: Offer, inv: Value -> bool, size: Value -> nat) {
    forall v, n, i :: inv(v) && 0 <= i < |offer(v, n)| ==> inv(offer(v, n)[i]) && size(offer(v, n)[i]) < size(v)
  }

  lemma {:induction false} SearchDescends(offer: Offer, property: Value -> bool, inv: Value -> bool, size: Value -> nat,
                                          v: Value, budget: nat, shrinks: nat)
    requires inv(v) && Descends(offer, inv, size)
    ensures var (w, n) := Search(offer, property, v, budget, shrinks); inv(w) && size(w) + (n - shrinks) <= size(v)
    decreases budget
  {
    if budget > 0 {
      var cs := offer(v, shrinks);
      var found := FirstFailing(property, cs);
      if found != [] {
        var i :| 0 <= i < |cs| && cs[i] == found[0];
        SearchDescends(offer, property, inv, size, found[0], budget - 1, shrinks + 1);
      }
    }
  }

  // Every round finds a failing candidate, and the first one keeps what is needed for the next round.
  ghost predicate GoesOn(offer: Offer, property: Value -> bool, inv: Value -> bool) {
    forall v, n :: inv(v) ==>
      FirstFailing(property, offer(v, n)) != [] && inv(FirstFailing(property, offer(v, n))[0])
  }

  lemma {:induction false} SearchGoesOn(offer: Offer, property: Value -> bool, inv: Value -> bool,
                                        v: Value, budget: nat, shrinks: nat)
    requires inv(v) && GoesOn(offer, property, inv)
    ensures Search(offer, property, v, budget, shrinks).1 == shrinks + budget
    decreases budget
  {
    if budget > 0 {
      var found := FirstFailing(property, offer(v, shrinks));
      SearchGoesOn(offer, property, inv, found[0], budget - 1, shrinks + 1);
    }
  }

  // --- The search over nested generators ---

  // Values of other types are never met; a type assertion would fail on them.
  function Offered(g: Gen, picks: nat -> Pick): Offer {
    (v: Value, n: nat) => if Typed(g, v) then Candidates(g, v, picks(n)) else []
  }

  ghost predicate AllHonest(picks: nat -> Pick) {
    forall n :: Honest(picks(n))
  }

  lemma OfferedDescends(g: Gen, picks: nat -> Pick)
    requires AllHonest(picks)
    ensures Descends(Offered(g, picks), v => Calm(g, v), Size)
  {
    var offer := Offered(g, picks);
    forall v, n, i | Calm(g, v) && 0 <= i < |offer(v, n)|
      ensures Calm(g, offer(v, n)[i]) && Size(offer(v, n)[i]) < Size(v)
    {
      CandidatesAreCalmer(g, v, picks(n));
      assert Calmer(g, v, Candidates(g, v, picks(n))[i]);
    }
  }

  // From every calm value: the result is calm, at most min(budget, size) shrinks are made, the result still
  // fails, and with budget left none of its candidates fails.
  lemma ShrinkingIsSound(g: Gen, property: Value -> bool, v: Value, budget: nat, picks: nat -> Pick)
    requires Calm(g, v) && !property(v) && AllHonest(picks)
    ensures var (w, n) := Search(Offered(g, picks), property, v, budget, 0);
      && Calm(g, w) && !property(w)
      && n <= budget && n + Size(w) <= Size(v)
      && (n < budget ==> LocallyMinimal(property, Candidates(g, w, picks(n))))
  {
    SearchFindsMinimum(Offered(g, picks), property, v, budget, 0);
    OfferedDescends(g, picks);
    SearchDescends(Offered(g, picks), property, u => Calm(g, u), Size, v, budget, 0);
  }

  // Fails on the restless values only.
  ghost function NotRestless(g: Gen): Value -> bool {
    (x: Value) => !Restless(g, x)
  }

  lemma SomeFails(property: Value -> bool, cs: seq<Value>, c: Value)
    requires c in cs && !property(c)
    ensures FirstFailing(property, cs) != []
  {
  }

  lemma RestlessOffers(g: Gen, picks: nat -> Pick)
    requires IntChoices(g)
    ensures GoesOn(Offered(g, picks), NotRestless(g), x => Restless(g, x))
  {
    var offer, property := Offered(g, picks), NotRestless(g);
    forall v, n | Restless(g, v)
      ensures FirstFailing(property, offer(v, n)) != [] && Restless(g, FirstFailing(property, offer(v, n))[0])
    {
      var c := RestlessGoesOn(g, v, picks(n));
      SomeFails(property, offer(v, n), c);
    }
  }

  lemma RestlessSpins(g: Gen, v: Value, budget: nat, picks: nat -> Pick)
    requires IntChoices(g) && Restless(g, v)
    ensures Search(Offered(g, picks), NotRestless(g), v, budget, 0).1 == budget
  {
    RestlessOffers(g, picks);
    SearchGoesOn(Offered(g, picks), NotRestless(g), x => Restless(g, x), v, budget, 0);
  }

  // However large the budget, no search from the value makes more than so many shrinks.
  ghost predicate Bounded(g: Gen, v: Value, bound: nat) {
    forall property: Value -> bool, budget: nat, picks: nat -> Pick ::
      AllHonest(picks) ==> Search(Offered(g, picks), property, v, budget, 0).1 <= bound
  }

  ghost predicate Ends(g: Gen, v: Value) {
    exists bound: nat :: Bounded(g, v, bound)
  }

  lemma CalmEnds(g: Gen, v: Value)
    requires Calm(g, v)
    ensures Bounded(g, v, Size(v))
  {
    forall property: Value -> bool, budget: nat, picks: nat -> Pick | AllHonest(picks)
      ensures Search(Offered(g, picks), property, v, budget, 0).1 <= Size(v)
    {
      OfferedDescends(g, picks);
      SearchDescends(Offered(g, picks), property, u => Calm(g, u), Size, v, budget, 0);
    }
  }

  ghost function AnyKey(m: map<Value, Value>): (k: Value)
    ensures m != map[] ==> k in m
  {
    if m == map[] then Int(0) else var k :| k in m; k
  }

  ghost function AnyKeys(): (picks: nat -> Pick)
    ensures AllHonest(picks)
  {
    n => AnyKey
  }

  lemma RestlessNeverEnds(g: Gen, v: Value, bound: nat)
    requires IntChoices(g) && Restless(g, v)
    ensures !Bounded(g, v, bound)
  {
    RestlessSpins(g, v, bound + 1, AnyKeys());
  }

  // The exact condition on a value: the number of shrinks from it is bounded, whatever the property and
  // the budget, if and only if the value is calm.
  lemma EndsIff(g: Gen, v: Value)
    requires IntChoices(g) && Typed(g, v)
    ensures Ends(g, v) <==> Calm(g, v)
  {
    if Calm(g, v) {
      CalmEnds(g, v);
    } else {
      forall bound: nat ensures !Bounded(g, v, bound) { RestlessNeverEnds(g, v, bound); }
    }
  }

  // The exact condition on a generator: from everything it produces shrinking ends.
  lemma ShrinkingEndsIff(g: Gen)
    requires IntChoices(g)
    ensures Settles(g) <==> forall v :: Generated(g, v) ==> Ends(g, v)
  {
    if Settles(g) {
      forall v | Generated(g, v) ensures Ends(g, v) {
        GeneratedIsTyped(g, v);
        GeneratedIsCalm(g, v);
        EndsIff(g, v);
      }
    } else {
      var v := SomeRestless(g);
      EndsIff(g, v);
    }
  }

  // Otherwise it produces a value and there is a property that fails on it, for which the search spends any
  // budget.
  lemma ShrinkingCanSpin(g: Gen) returns (v: Value, property: Value -> bool)
    requires IntChoices(g) && !Settles(g)
    ensures Generated(g, v) && !property(v)
    ensures forall budget: nat, picks: nat -> Pick :: Search(Offered(g, picks), property, v, budget, 0).1 == budget
  {
    v := SomeRestless(g);
    property := NotRestless(g);
    forall budget: nat, picks: nat -> Pick
      ensures Search(Offered(g, picks), property, v, budget, 0).1 == budget
    {
      RestlessSpins(g, v, budget, picks);
    }
  }

  // --- What the search finds, in plain values ---

  // Half is the truncated quotient: its double is the number or misses it by one on the side of zero.
  lemma HalfIsTruncated(n: int)
    ensures n >= 0 ==> Half(n) >= 0 && (n == 2 * Half(n) || n == 2 * Half(n) + 1)
    ensures n < 0 ==> Half(n) <= 0 && (n == 2 * Half(n) || n == 2 * Half(n) - 1)
  {
  }

  // The order in which the candidates are tried.
  lemma CandidateOrder(min: int, max: int, n: int, minLen: nat, maxLen: nat, s: string, elem: Gen, es: seq<Value>,
                       pick: Pick)
    requires forall i :: 0 <= i < |es| ==> Typed(elem, es[i])
    ensures var cs := Candidates(IntGen(min, max), Int(n), pick);
      && |cs| == (if n > min then 2 else 0) + (if n < 0 then 1 else 0)
      && (n > min ==> cs[0] == Int(Half(n)) && cs[1] == Int(n - 1))
      && (n < 0 ==> cs[|cs| - 1] == Int(-n))
    ensures var cs := Candidates(StringGen(minLen, maxLen), Str(s), pick);
      && |cs| == (if |s| > minLen then 3 else 0)
      && (|s| > minLen ==> cs[0] == Str(s[..|s| - 1]) && cs[1] == Str(s[1..]) && cs[2] == Str(s[..|s| / 2]))
    ensures var cs := Candidates(SliceGen(minLen, maxLen, elem), Slice(es), pick);
      && (|es| <= minLen ==> cs == [])
      && (|es| > minLen ==>
            |cs| >= 3 && cs[0] == Slice(es[..|es| - 1]) && cs[1] == Slice(es[1..]) && cs[2] == Slice(es[..|es| / 2]))
  {
  }

  // With budget left the property holds of the number below, of the half and of the negation.
  lemma IntMinimalIff(property: Value -> bool, min: int, max: int, n: int, pick: Pick)
    ensures LocallyMinimal(property, Candidates(IntGen(min, max), Int(n), pick)) <==>
            && (n > min ==> property(Int(n - 1)))
            && (n > min ==> property(Int(if n >= 0 then n / 2 else -(-n / 2))))
            && (n < 0 ==> property(Int(-n)))
  {
    var cs := Candidates(IntGen(min, max), Int(n), pick);
    CandidateOrder(min, max, n, 0, 0, "", IntGen(min, max), [], pick);
    if LocallyMinimal(property, cs) {
      if n > min { assert property(cs[0]) && property(cs[1]); }
      if n < 0 { assert property(cs[|cs| - 1]); }
    }
  }

  // Of the three shorter texts.
  lemma StrMinimalIff(property: Value -> bool, minLen: nat, maxLen: nat, s: string, pick: Pick)
    ensures LocallyMinimal(property, Candidates(StringGen(minLen, maxLen), Str(s), pick)) <==>
            (|s| > minLen ==>
               property(Str(s[..|s| - 1])) && property(Str(s[1..])) && property(Str(s[..|s| / 2])))
  {
    var cs := Candidates(StringGen(minLen, maxLen), Str(s), pick);
    if LocallyMinimal(property, cs) && |s| > minLen {
      assert property(cs[0]) && property(cs[1]) && property(cs[2]);
    }
  }

  // Of the map without a key of it.
  lemma MapMinimalIff(property: Value -> bool, minLen: nat, maxLen: nat, key: Gen, value: Gen, m: map<Value, Value>,
                      pick: Pick)
    requires Honest(pick)
    ensures LocallyMinimal(property, Candidates(MapGen(minLen, maxLen, key, value), Map(m), pick)) <==>
            (|m| > minLen ==>
               pick(m) in m && property(Map(map k | k in m && k != pick(m) :: m[k])))
  {
    var cs := Candidates(MapGen(minLen, maxLen, key, value), Map(m), pick);
    assert m - {pick(m)} == map k | k in m && k != pick(m) :: m[k];
    if |m| > minLen {
      assert cs == [Map(m - {pick(m)})];
      if LocallyMinimal(property, cs) { assert property(cs[0]); }
    }
  }

  lemma MinimalBoth(property: Value -> bool, a: seq<Value>, b: seq<Value>)
    ensures LocallyMinimal(property, a + b) <==> LocallyMinimal(property, a) && LocallyMinimal(property, b)
  {
    if LocallyMinimal(property, a + b) {
      forall i | 0 <= i < |a| ensures property(a[i]) { assert (a + b)[i] == a[i]; }
      forall i | 0 <= i < |b| ensures property(b[i]) { assert (a + b)[|a| + i] == b[i]; }
    }
  }

  // Of a pair with a candidate of either part in its place.
  lemma PairMinimalIff(property: Value -> bool, gen1: Gen, gen2: Gen, a: Value, b: Value, pick: Pick)
    requires Typed(gen1, a) && Typed(gen2, b)
    ensures LocallyMinimal(property, Candidates(PairGen(gen1, gen2), Pair(a, b), pick)) <==>
            && (forall c :: c in Candidates(gen1, a, pick) ==> property(Pair(c, b)))
            && (forall c :: c in Candidates(gen2, b, pick) ==> property(Pair(a, c)))
  {
    var cs, ds := Candidates(gen1, a, pick), Candidates(gen2, b, pick);
    MinimalBoth(property, InFirst(cs, b), InSecond(a, ds));
    if LocallyMinimal(property, InFirst(cs, b)) {
      forall i | 0 <= i < |cs| ensures property(Pair(cs[i], b)) { assert InFirst(cs, b)[i] == Pair(cs[i], b); }
    }
    if LocallyMinimal(property, InSecond(a, ds)) {
      forall i | 0 <= i < |ds| ensures property(Pair(a, ds[i])) { assert InSecond(a, ds)[i] == Pair(a, ds[i]); }
    }
  }

  // The property holds of the list with a candidate of the k-th element in its place.
  ghost predicate PlaceMinimal(property: Value -> bool, elem: Gen, es: seq<Value>, k: nat, pick: Pick)
    requires k < |es| && Typed(elem, es[k])
  {
    forall c :: c in Candidates(elem, es[k], pick) ==> property(Slice(es[k := c]))
  }

  lemma PlaceMinimalIff(property: Value -> bool, elem: Gen, es: seq<Value>, k: nat, pick: Pick)
    requires k < |es| && Typed(elem, es[k])
    ensures LocallyMinimal(property, InPlace(es, k, Candidates(elem, es[k], pick))) <==>
            PlaceMinimal(property, elem, es, k, pick)
  {
    var cs := Candidates(elem, es[k], pick);
    if LocallyMinimal(property, InPlace(es, k, cs)) {
      forall i | 0 <= i < |cs| ensures property(Slice(es[k := cs[i]])) {
        assert InPlace(es, k, cs)[i] == Slice(es[k := cs[i]]);
      }
    }
    if PlaceMinimal(property, elem, es, k, pick) {
      forall i | 0 <= i < |cs| ensures property(InPlace(es, k, cs)[i]) { assert cs[i] in cs; }
    }
  }

  lemma {:induction false} PlacesMinimalIff(property: Value -> bool, elem: Gen, es: seq<Value>, k: nat, pick: Pick)
    requires k <= |es| && forall i :: 0 <= i < |es| ==> Typed(elem, es[i])
    ensures LocallyMinimal(property, Elementwise(elem, es, k, pick)) <==>
            forall i :: k <= i < |es| ==> PlaceMinimal(property, elem, es, i, pick)
    decreases |es| - k
  {
    if k < |es| {
      PlacesMinimalIff(property, elem, es, k + 1, pick);
      PlaceMinimalIff(property, elem, es, k, pick);
      MinimalBoth(property, InPlace(es, k, Candidates(elem, es[k], pick)), Elementwise(elem, es, k + 1, pick));
    }
  }

  // Of the three shorter lists, and of the list with a candidate of any element in its place.
  lemma SliceMinimalIff(property: Value -> bool, minLen: nat, maxLen: nat, elem: Gen, es: seq<Value>, pick: Pick)
    requires forall i :: 0 <= i < |es| ==> Typed(elem, es[i])
    ensures LocallyMinimal(property, Candidates(SliceGen(minLen, maxLen, elem), Slice(es), pick)) <==>
            (|es| > minLen ==>
               && property(Slice(es[..|es| - 1])) && property(Slice(es[1..])) && property(Slice(es[..|es| / 2]))
               && forall k :: 0 <= k < |es| ==> PlaceMinimal(property, elem, es, k, pick))
  {
    if |es| > minLen {
      MinimalBoth(property, Shorter(es), Elementwise(elem, es, 0, pick));
      PlacesMinimalIff(property, elem, es, 0, pick);
      ThreeMinimal(property, Shorter(es));
    }
  }

  lemma ThreeMinimal(property: Value -> bool, cs: seq<Value>)
    requires |cs| == 3
    ensures LocallyMinimal(property, cs) <==> property(cs[0]) && property(cs[1]) && property(cs[2])
  {
    if LocallyMinimal(property, cs) { assert property(cs[0]) && property(cs[1]) && property(cs[2]); }
  }

  // A choice has the candidates of its first generator that has any.
  lemma {:induction false} FirstWithCandidates(gens: seq<Gen>, v: Value, pick: Pick, k: nat)
    requires k < |gens| && forall i :: 0 <= i < |gens| ==> Typed(gens[i], v)
    requires forall i :: 0 <= i < k ==> Candidates(gens[i], v, pick) == []
    requires Candidates(gens[k], v, pick) != []
    ensures FirstOf(gens, v, pick) == Candidates(gens[k], v, pick)
  {
    if k > 0 {
      assert Candidates(gens[0], v, pick) == [];
      FirstWithCandidates(gens[1..], v, pick, k - 1);
    }
  }

  lemma {:induction false} NoneWithCandidates(gens: seq<Gen>, v: Value, pick: Pick)
    requires forall i :: 0 <= i < |gens| ==> Typed(gens[i], v) && Candidates(gens[i], v, pick) == []
    ensures FirstOf(gens, v, pick) == []
  {
    if gens != [] {
      assert Candidates(gens[0], v, pick) == [];
      NoneWithCandidates(gens[1..], v, pick);
    }
  }

  lemma ChoiceCandidates(gens: seq<Gen>, v: Value, pick: Pick, k: nat)
    requires k <= |gens| && forall i :: 0 <= i < |gens| ==> Typed(gens[i], v)
    requires forall i :: 0 <= i < k ==> Candidates(gens[i], v, pick) == []
    requires k < |gens| ==> Candidates(gens[k], v, pick) != []
    ensures Candidates(OneOfGen(gens), v, pick) == if k < |gens| then Candidates(gens[k], v, pick) else []
  {
    if k < |gens| { FirstWithCandidates(gens, v, pick, k); } else { NoneWithCandidates(gens, v, pick); }
  }

  // A round takes the first candidate on which the property fails.
  lemma {:induction false} FirstFailingIsFirst(property: Value -> bool, cs: seq<Value>, i: nat)
    requires i < |cs| && !property(cs[i]) && forall j :: 0 <= j < i ==> property(cs[j])
    ensures FirstFailing(property, cs) == [cs[i]]
  {
    if i > 0 {
      assert property(cs[0]);
      FirstFailingIsFirst(property, cs[1..], i - 1);
    }
  }

  lemma SearchTakesFirst(offer: Offer, property: Value -> bool, v: Value, budget: nat, shrinks: nat, i: nat)
    requires budget > 0 && i < |offer(v, shrinks)| && !property(offer(v, shrinks)[i])
    requires forall j :: 0 <= j < i ==> property(offer(v, shrinks)[j])
    ensures Search(offer, property, v, budget, shrinks) ==
            Search(offer, property, offer(v, shrinks)[i], budget - 1, shrinks + 1)
  {
    FirstFailingIsFirst(property, offer(v, shrinks), i);
  }

  // A property that fails from a threshold on.
  function Below(threshold: int): Value -> bool {
    (v: Value) => v.Int? ==> v.n < threshold
  }

  // From every number at or above the threshold the search ends exactly there.
  lemma SearchFindsThreshold(min: nat, max: int, threshold: int, n: int, budget: nat, picks: nat -> Pick)
    requires min <= threshold <= n && n - threshold < budget && AllHonest(picks)
    ensures Search(Offered(IntGen(min, max), picks), Below(threshold), Int(n), budget, 0).0 == Int(threshold)
  {
    var g, property := IntGen(min, max), Below(threshold);
    ShrinkingIsSound(g, property, Int(n), budget, picks);
    var (w, k) := Search(Offered(g, picks), property, Int(n), budget, 0);
    if k < budget && w.n > min { IntMinimalIff(property, min, max, w.n, picks(k)); }
  }

  // The loop over the candidates of one round.
  method Try(property: Value -> bool, candidates: seq<Value>) returns (found: seq<Value>)
    ensures found == FirstFailing(property, candidates)
  {
    var i := 0;
    while i < |candidates|
      invariant i <= |candidates|
      invariant FirstFailing(property, candidates) == FirstFailing(property, candidates[i..])
    {
      if !property(candidates[i]) {
        return [candidates[i]];
      }
      i := i + 1;
    }
    found := [];
  }

  // Test.shrink, for any implementation of the generator interface.
  method ShrinkFailing(offer: Offer, property: Value -> bool, value: Value, maxShrinks: int)
      returns (current: Value, shrinks: nat)
    ensures (current, shrinks) == Search(offer, property, value, if maxShrinks > 0 then maxShrinks else 0, 0)
  {
    ghost var budget := if maxShrinks > 0 then maxShrinks else 0;
    shrinks := 0;
    current := value;
    while shrinks < maxShrinks
      invariant shrinks <= budget
      invariant Search(offer, property, value, budget, 0) == Search(offer, property, current, budget - shrinks, shrinks)
      decreases budget - shrinks
    {
      var candidates := offer(current, shrinks);
      if |candidates| == 0 {
        break;
      }
      var found := Try(property, candidates);
      if found == [] {
        break;
      }
      current := found[0];
      shrinks := shrinks + 1;
    }
  }
}
