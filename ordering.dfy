/** `sorted(by:)` on `displayOrder`, shared by the ingredient, direction and
    image extractors. The comparator force-casts `displayOrder` to `Int` on
    both entries it compares. */
module Ordering {
  import opened Wrappers
  import opened ObjectGraph

  /** The sort key of an entry. Only read when every entry has an `Int`
      `displayOrder` (or when there is at most one entry, which no comparator
      ever looks at). */
  function OrderKey(d: Dict): int {
    match GetInt(d, "displayOrder")
    case Some(n) => n
    case None => 0
  }

  /** The comparator's forced casts succeed. A sort compares nothing when it has
      at most one entry; with two or more entries every entry is compared. */
  predicate Orderable(s: seq<Dict>)
    ensures Orderable(s) <==> |s| < 2 || forall d: Dict :: d in s ==> "displayOrder" in d && d["displayOrder"].Int?
  {
    |s| <= 1 || forall i :: 0 <= i < |s| ==> GetInt(s[i], "displayOrder").Some?
  }

  predicate SortedByOrder(s: seq<Dict>) {
    forall i, j :: 0 <= i < j < |s| ==> OrderKey(s[i]) <= OrderKey(s[j])
  }

  predicate DistinctOrders(s: seq<Dict>) {
    forall i, j :: 0 <= i < j < |s| ==> OrderKey(s[i]) != OrderKey(s[j])
  }

  /** Places `d` in front of the first entry whose order is not smaller. */
  function Insert(d: Dict, s: seq<Dict>): (r: seq<Dict>)
    requires SortedByOrder(s)
    ensures SortedByOrder(r)
    ensures multiset(r) == multiset(s) + multiset{d}
    ensures |r| == |s| + 1 && (r[0] == d || (s != [] && r[0] == s[0]))
  {
    if s == [] || OrderKey(d) <= OrderKey(s[0]) then
      SortedCons(d, s);
      [d] + s
    else
      var t := Insert(d, s[1..]);
      InsertBehind(d, s, t);
      [s[0]] + t
  }

  /** Inserting `d` behind the head of `s`: the head stays in front of the
      tail with `d` inserted. */
  lemma InsertBehind(d: Dict, s: seq<Dict>, t: seq<Dict>)
    requires SortedByOrder(s) && s != [] && OrderKey(s[0]) < OrderKey(d)
    requires SortedByOrder(t) && multiset(t) == multiset(s[1..]) + multiset{d}
    requires |t| == |s| && (t[0] == d || (s[1..] != [] && t[0] == s[1..][0]))
    ensures SortedByOrder([s[0]] + t)
    ensures multiset([s[0]] + t) == multiset(s) + multiset{d}
  {
    assert s == [s[0]] + s[1..];
    assert OrderKey(s[0]) <= OrderKey(t[0]);
    SortedCons(s[0], t);
  }

  /** An entry no later than the head of a sorted list can go in front. */
  lemma SortedCons(x: Dict, t: seq<Dict>)
    requires SortedByOrder(t) && (t == [] || OrderKey(x) <= OrderKey(t[0]))
    ensures SortedByOrder([x] + t)
  {
    var r := [x] + t;
    forall i, j | 0 <= i < j < |r| ensures OrderKey(r[i]) <= OrderKey(r[j]) {
      assert r[j] == t[j - 1];
      if i > 0 {
        assert r[i] == t[i - 1];
      } else if j > 1 {
        assert OrderKey(t[0]) <= OrderKey(t[j - 1]);
      }
    }
  }

  /** The entries in ascending `displayOrder`: sorted, and a permutation of the
      input. */
  function SortByOrder(s: seq<Dict>): (r: seq<Dict>)
    ensures SortedByOrder(r)
    ensures multiset(r) == multiset(s)
  {
    if s == [] then []
    else
      assert s == [s[0]] + s[1..];
      Insert(s[0], SortByOrder(s[1..]))
  }

  lemma OccursTwice(r: seq<Dict>, i: nat, j: nat)
    requires i < j < |r| && r[i] == r[j]
    ensures multiset(r)[r[i]] >= 2
  {
    assert r == r[..i] + [r[i]] + r[i + 1..j] + [r[j]] + r[j + 1..];
  }

  lemma OccursOnce(s: seq<Dict>, p: nat)
    requires p < |s|
    requires forall q :: 0 <= q < |s| && q != p ==> s[q] != s[p]
    ensures multiset(s)[s[p]] == 1
  {
    assert s == s[..p] + [s[p]] + s[p + 1..];
    forall x | x in s[..p] ensures x != s[p] {
      var k :| 0 <= k < p && s[..p][k] == x;
      assert x == s[k];
    }
    var after := s[p + 1..];
    forall x | x in after ensures x != s[p] {
      var k :| 0 <= k < |after| && after[k] == x;
      assert x == s[p + 1 + k];
    }
    assert s[p] !in multiset(s[..p]) && s[p] !in multiset(s[p + 1..]);
  }

  /** Distinct display orders survive any reordering of the entries. */
  lemma DistinctOrdersPermuted(s: seq<Dict>, r: seq<Dict>)
    requires DistinctOrders(s) && multiset(r) == multiset(s)
    ensures DistinctOrders(r)
  {
    forall i, j | 0 <= i < j < |r| ensures OrderKey(r[i]) != OrderKey(r[j]) {
      assert r[i] in multiset(s) && r[j] in multiset(s);
      var p :| 0 <= p < |s| && s[p] == r[i];
      var q :| 0 <= q < |s| && s[q] == r[j];
      if p == q {
        OccursTwice(r, i, j);
        forall q' | 0 <= q' < |s| && q' != p ensures s[q'] != s[p] {
          if q' < p { assert OrderKey(s[q']) != OrderKey(s[p]); }
          else { assert OrderKey(s[p]) != OrderKey(s[q']); }
        }
        OccursOnce(s, p);
        assert false;
      } else if p < q {
        assert OrderKey(s[p]) != OrderKey(s[q]);
      } else {
        assert OrderKey(s[q]) != OrderKey(s[p]);
      }
    }
  }

  lemma HeadIsLeast(s: seq<Dict>, k: nat)
    requires SortedByOrder(s) && k < |s|
    ensures OrderKey(s[0]) <= OrderKey(s[k])
  {
  }

  lemma DistinctHead(s: seq<Dict>, k: nat)
    requires DistinctOrders(s) && k < |s| && OrderKey(s[k]) == OrderKey(s[0])
    ensures k == 0
  {
  }

  lemma SortedArrangementsShareHead(a: seq<Dict>, b: seq<Dict>)
    requires SortedByOrder(a) && SortedByOrder(b) && DistinctOrders(a)
    requires multiset(a) == multiset(b) && a != []
    ensures |b| == |a| && b[0] == a[0]
  {
    assert |b| == |multiset(b)| == |multiset(a)| == |a|;
    assert a[0] in multiset(b) && b[0] in multiset(a);
    var j :| 0 <= j < |b| && b[j] == a[0];
    var i :| 0 <= i < |a| && a[i] == b[0];
    HeadIsLeast(b, j);
    HeadIsLeast(a, i);
    DistinctHead(a, i);
  }

  lemma TailsPermuted(a: seq<Dict>, b: seq<Dict>)
    requires multiset(a) == multiset(b) && a != [] && b != [] && a[0] == b[0]
    ensures multiset(a[1..]) == multiset(b[1..])
  {
    assert a == [a[0]] + a[1..] && b == [b[0]] + b[1..];
    assert multiset(a[1..]) == multiset(a) - multiset{a[0]};
    assert multiset(b[1..]) == multiset(b) - multiset{b[0]};
  }

  /** Two sorted arrangements of the same entries coincide when the display
      orders are distinct. */
  lemma {:induction false} SortedArrangementUnique(a: seq<Dict>, b: seq<Dict>)
    requires SortedByOrder(a) && SortedByOrder(b) && DistinctOrders(a)
    requires multiset(a) == multiset(b)
    ensures a == b
  {
    if a == [] {
      assert |b| == |multiset(b)| == 0;
    } else {
      SortedArrangementsShareHead(a, b);
      TailsPermuted(a, b);
      SortedArrangementUnique(a[1..], b[1..]);
      assert a == [a[0]] + a[1..] && b == [b[0]] + b[1..];
    }
  }

  /** With distinct display orders, the sorted entries do not depend on the
      order in which the archive lists them. */
  lemma SortIgnoresInputOrder(s: seq<Dict>, t: seq<Dict>)
    requires DistinctOrders(s) && multiset(s) == multiset(t)
    ensures SortByOrder(s) == SortByOrder(t)
  {
    DistinctOrdersPermuted(s, SortByOrder(s));
    SortedArrangementUnique(SortByOrder(s), SortByOrder(t));
  }

  /** Sorting keeps the comparator's casts valid: it neither adds nor removes
      entries. */
  lemma SortKeepsOrderable(s: seq<Dict>)
    requires Orderable(s)
    ensures Orderable(SortByOrder(s)) && |SortByOrder(s)| == |s|
  {
    var r := SortByOrder(s);
    assert |r| == |multiset(r)| == |multiset(s)| == |s|;
    forall i | 0 <= i < |r| && |r| > 1 ensures GetInt(r[i], "displayOrder").Some? {
      assert r[i] in multiset(s);
    }
  }
}
