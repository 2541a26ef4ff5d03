// Node identifiers and the order `strcmp` puts on them.
module Ids {
  // A C string without its terminator.
  type Id = string

  // strcmp(a, b) < 0: the first differing byte decides, and the terminator is below every byte.
  predicate Less(a: Id, b: Id) {
    if b == [] then false
    else if a == [] then true
    else if a[0] != b[0] then a[0] < b[0]
    else Less(a[1..], b[1..])
  }

  lemma {:induction false} Trichotomy(a: Id, b: Id)
    ensures Less(a, b) || a == b || Less(b, a)
    ensures Less(a, b) ==> a != b && !Less(b, a)
  {
    if a != [] && b != [] && a[0] == b[0] {
      Trichotomy(a[1..], b[1..]);
      assert a == [a[0]] + a[1..] && b == [b[0]] + b[1..];
    }
  }

  lemma {:induction false} Transitive(a: Id, b: Id, c: Id)
    requires Less(a, b) && Less(b, c)
    ensures Less(a, c)
  {
    if a != [] && a[0] == b[0] == c[0] {
      Transitive(a[1..], b[1..], c[1..]);
    }
  }

  // Which of two ids is the lower one: the proper prefix, or the one with the smaller character where they
  // first differ.
  lemma PrefixIsLower(a: Id, c: Id)
    requires c != []
    ensures Less(a, a + c) && !Less(a + c, a)
  {
    FirstDifference(a, [], c);
    FirstDifference(a, c, []);
    assert a + [] == a;
  }

  lemma {:induction false} FirstDifference(common: Id, a: Id, b: Id)
    requires a == [] || b == [] || a[0] != b[0]
    ensures Less(common + a, common + b) <==> (a == [] && b != []) || (a != [] && b != [] && a[0] < b[0])
  {
    if common == [] {
      assert common + a == a && common + b == b;
    } else {
      assert (common + a)[1..] == common[1..] + a && (common + b)[1..] == common[1..] + b;
      FirstDifference(common[1..], a, b);
    }
  }

  // The ids of the running nodes, listed in strcmp order.
  ghost predicate Ascending(ids: seq<Id>) {
    forall i, j :: 0 <= i < j < |ids| ==> Less(ids[i], ids[j])
  }

  function Top(ids: seq<Id>): Id
    requires ids != []
  {
    ids[|ids| - 1]
  }

  lemma TopIsGreatest(ids: seq<Id>, id: Id)
    requires Ascending(ids) && id in ids
    ensures id == Top(ids) || Less(id, Top(ids))
    ensures !Less(Top(ids), id)
  {
    var i :| 0 <= i < |ids| && ids[i] == id;
    Trichotomy(id, Top(ids));
  }
}
