// Facts about sequences that all modules share.
module Seqs {
  lemma Concat<T>(a: seq<T>, b: seq<T>, c: seq<T>)
    ensures a + b + c == a + (b + c)
  {
  }

  // Induction on the last element.
  lemma {:induction false} Induction<T(!new)>(holds: seq<T> -> bool, s: seq<T>)
    requires holds([])
    requires forall init, x :: holds(init) ==> holds(init + [x])
    ensures holds(s)
  {
    if s != [] {
      Induction(holds, s[..|s| - 1]);
      assert s == s[..|s| - 1] + [s[|s| - 1]];
    }
  }

  // How many of the first numbers have a property.
  lemma OneMore(holds: nat -> bool, n: nat)
    ensures |set k: nat | k < n + 1 && holds(k)| == |set k: nat | k < n && holds(k)| + if holds(n) then 1 else 0
  {
    var before, all := set k: nat | k < n && holds(k), set k: nat | k < n + 1 && holds(k);
    assert all == before + if holds(n) then {n} else {};
  }

  // The elements that are wanted, in order.
  function Filter<T>(s: seq<T>, wanted: T -> bool): seq<T> {
    if s == [] then []
    else
      var n := |s| - 1;
      Filter(s[..n], wanted) + if wanted(s[n]) then [s[n]] else []
  }

  // Increasing places below n.
  ghost predicate Increasing(places: seq<nat>, n: nat) {
    (forall i, j :: 0 <= i < j < |places| ==> places[i] < places[j]) && forall i :: 0 <= i < |places| ==> places[i] < n
  }

  ghost predicate Picks<T>(s: seq<T>, wanted: T -> bool, picked: seq<T>, places: seq<nat>) {
    && Increasing(places, |s|) && |picked| == |places|
    && (forall i :: 0 <= i < |places| ==> picked[i] == s[places[i]] && wanted(picked[i]))
    && forall k :: 0 <= k < |s| && wanted(s[k]) ==> k in places
  }

  lemma PicksNext<T>(s: seq<T>, x: T, wanted: T -> bool, picked: seq<T>, places: seq<nat>)
    requires Picks(s, wanted, picked, places)
    ensures wanted(x) ==> Picks(s + [x], wanted, picked + [x], places + [|s|])
    ensures !wanted(x) ==> Picks(s + [x], wanted, picked, places)
  {
    var t := s + [x];
    assert forall k :: 0 <= k < |s| ==> t[k] == s[k];
    if wanted(x) {
      var more := places + [|s|];
      assert more[|places|] == |s|;
      assert forall k :: k in places ==> k in more;
      assert forall i :: 0 <= i < |places| ==> t[more[i]] == s[places[i]];
    } else {
      assert forall i :: 0 <= i < |places| ==> t[places[i]] == s[places[i]];
    }
  }

  // It takes every wanted element once, from increasing places.
  lemma {:induction false} FilterPicks<T>(s: seq<T>, wanted: T -> bool) returns (places: seq<nat>)
    ensures Picks(s, wanted, Filter(s, wanted), places)
  {
    if s == [] {
      places := [];
    } else {
      var n := |s| - 1;
      places := FilterPicks(s[..n], wanted);
      PicksNext(s[..n], s[n], wanted, Filter(s[..n], wanted), places);
      assert s == s[..n] + [s[n]];
      if wanted(s[n]) { places := places + [n]; }
    }
  }
}
