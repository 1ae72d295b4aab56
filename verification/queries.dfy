/** The two query steps the reports apply to a list of rows: `WHERE` (a filter that keeps
    the order and multiplicity of the rows it keeps) and `ORDER BY key ASC` (an insertion
    sort parameterised by the comparison, proved to return a sorted permutation). */
module Queries {

  /** The rows of `s` satisfying `P`, in their order. */
  function Filter<T(!new)>(s: seq<T>, P: T -> bool): (r: seq<T>)
    ensures forall x :: multiset(r)[x] == if P(x) then multiset(s)[x] else 0
    ensures forall x :: x in r <==> x in s && P(x)
  {
    if s == [] then []
    else
      assert s == s[..|s| - 1] + [s[|s| - 1]];
      Filter(s[..|s| - 1], P) + (if P(s[|s| - 1]) then [s[|s| - 1]] else [])
  }

  /** Filtering a scan that visits every row of a table once keeps each row satisfying
      `P` exactly once. */
  lemma FilterOfScan<T(!new)>(s: seq<T>, table: set<T>, P: T -> bool, kept: set<T>)
    requires multiset(s) == multiset(table)
    requires forall x :: x in kept <==> x in table && P(x)
    ensures multiset(Filter(s, P)) == multiset(kept)
  {
    var r := Filter(s, P);
    forall x ensures multiset(r)[x] == multiset(kept)[x] {
      assert multiset(s)[x] == multiset(table)[x];
    }
  }

  ghost predicate SortedBy<T>(s: seq<T>, le: (T, T) -> bool) {
    forall i, j :: 0 <= i < j < |s| ==> le(s[i], s[j])
  }

  /** `le` compares every pair and is transitive: a key order with ties. */
  ghost predicate TotalPreorder<T(!new)>(le: (T, T) -> bool) {
    && (forall a, b :: le(a, b) || le(b, a))
    && (forall a, b, c :: le(a, b) && le(b, c) ==> le(a, c))
  }

  function Insert<T(!new)>(x: T, s: seq<T>, le: (T, T) -> bool): (r: seq<T>)
    requires TotalPreorder(le) && SortedBy(s, le)
    ensures SortedBy(r, le)
    ensures multiset(r) == multiset(s) + multiset{x}
  {
    if s == [] then [x]
    else if le(x, s[0]) then [x] + s
    else
      var rest := Insert(x, s[1..], le);
      assert s == [s[0]] + s[1..];
      assert forall k :: 0 <= k < |rest| ==> le(s[0], rest[k]) by {
        forall k | 0 <= k < |rest| ensures le(s[0], rest[k]) {
          var y := rest[k];
          assert y in multiset(rest);
          if y != x {
            assert y in multiset(s[1..]);
            var j :| 0 <= j < |s[1..]| && s[1..][j] == y;
            assert s[j + 1] == y;
          }
        }
      }
      [s[0]] + rest
  }

  /** Sorts `s` by `le`. SQL leaves the order of rows with equal keys unspecified;
      this model fixes one. */
  function Sort<T(!new)>(s: seq<T>, le: (T, T) -> bool): (r: seq<T>)
    requires TotalPreorder(le)
    ensures SortedBy(r, le)
    ensures multiset(r) == multiset(s)
  {
    if s == [] then []
    else
      assert s == s[..|s| - 1] + [s[|s| - 1]];
      Insert(s[|s| - 1], Sort(s[..|s| - 1], le), le)
  }
}
