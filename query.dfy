/** The relational operations the handlers' SQL statements perform, over tables held as sequences in table order. */
module Query {
  import opened Types

  /** `SELECT * ... WHERE p`: the rows satisfying `p`, each as often as it occurs, in table order. */
  function Select<T(!new)>(s: seq<T>, p: T -> bool): (r: seq<T>)
    ensures |r| <= |s|
    ensures forall x :: x in r <==> x in s && p(x)
  {
    if s == [] then []
    else
      assert s == [s[0]] + s[1..];
      (if p(s[0]) then [s[0]] else []) + Select(s[1..], p)
  }

  /** A selection keeps every qualifying row as many times as the table holds it, and no other row. */
  lemma {:induction false} SelectCounts<T(!new)>(s: seq<T>, p: T -> bool)
    ensures forall x :: multiset(Select(s, p))[x] == if p(x) then multiset(s)[x] else 0
  {
    if s != [] {
      assert s == [s[0]] + s[1..];
      SelectCounts(s[1..], p);
    }
  }

  /** A row appended to a table shows up last in every selection it satisfies. */
  lemma {:induction false} SelectAppend<T(!new)>(s: seq<T>, x: T, p: T -> bool)
    ensures Select(s + [x], p) == Select(s, p) + (if p(x) then [x] else [])
  {
    var t := s + [x];
    if s == [] {
      assert t == [x];
      assert Select(t, p) == (if p(x) then [x] else []) + Select([], p);
    } else {
      assert t[0] == s[0];
      assert t[1..] == s[1..] + [x];
      assert Select(t, p) == (if p(s[0]) then [s[0]] else []) + Select(s[1..] + [x], p);
      SelectAppend(s[1..], x, p);
      assert Select(s, p) == (if p(s[0]) then [s[0]] else []) + Select(s[1..], p);
    }
  }

  /** `rows[0]` of a `SELECT ... WHERE p`: the position of the first row satisfying `p`, if any. */
  function First<T>(s: seq<T>, p: T -> bool): (r: Option<nat>)
    ensures r.Some? ==> r.value < |s| && p(s[r.value]) && forall k :: 0 <= k < r.value ==> !p(s[k])
    ensures r.None? <==> forall k :: 0 <= k < |s| ==> !p(s[k])
  {
    if s == [] then None
    else if p(s[0]) then Some(0)
    else match First(s[1..], p)
      case None => None
      case Some(k) => Some(k + 1)
  }

  /** `UPDATE ... SET ... WHERE p`: every row satisfying `p` is rewritten by `f`, every other row is kept, in place. */
  function UpdateWhere<T>(s: seq<T>, p: T -> bool, f: T -> T): (r: seq<T>)
    ensures |r| == |s|
    ensures forall k :: 0 <= k < |s| ==> r[k] == if p(s[k]) then f(s[k]) else s[k]
  {
    if s == [] then []
    else [if p(s[0]) then f(s[0]) else s[0]] + UpdateWhere(s[1..], p, f)
  }

  /** `s` is in ascending order of `key` (ties in any order). */
  predicate SortedBy<T>(s: seq<T>, key: T -> int) {
    forall i, j :: 0 <= i < j < |s| ==> key(s[i]) <= key(s[j])
  }

  /** Puts `x` into the sorted `s` in front of the first row whose key is not smaller. */
  function InsertBy<T(!new)>(x: T, s: seq<T>, key: T -> int): (r: seq<T>)
    requires SortedBy(s, key)
    ensures SortedBy(r, key)
    ensures multiset(r) == multiset(s) + multiset{x}
    ensures forall y :: y in r <==> y == x || y in s
  {
    if s == [] || key(x) <= key(s[0]) then [x] + s
    else
      assert s == [s[0]] + s[1..];
      var rest := InsertBy(x, s[1..], key);
      assert forall k :: 0 <= k < |rest| ==> key(s[0]) <= key(rest[k]) by {
        forall k | 0 <= k < |rest| ensures key(s[0]) <= key(rest[k]) {
          assert rest[k] in rest;
        }
      }
      [s[0]] + rest
  }

  /** `ORDER BY key ASC`: a permutation of `s` in ascending order of `key`. */
  function SortBy<T(!new)>(s: seq<T>, key: T -> int): (r: seq<T>)
    ensures SortedBy(r, key)
    ensures multiset(r) == multiset(s)
    ensures forall y :: y in r <==> y in s
  {
    if s == [] then []
    else
      assert s == [s[0]] + s[1..];
      InsertBy(s[0], SortBy(s[1..], key), key)
  }

  /** Ids as the table's generator hands them out: strictly increasing in table order and all below `next`. */
  predicate Keyed<T>(s: seq<T>, key: T -> int, next: int) {
    && (forall i, j :: 0 <= i < j < |s| ==> key(s[i]) < key(s[j]))
    && (forall i :: 0 <= i < |s| ==> key(s[i]) < next)
  }

  /** Appending a row that carries the next id keeps the table keyed, with the generator advanced. */
  lemma KeyedAppend<T>(s: seq<T>, x: T, key: T -> int, next: int)
    requires Keyed(s, key, next) && key(x) == next
    ensures Keyed(s + [x], key, next + 1)
  {
  }

  /** An update that leaves every key alone keeps the table keyed. */
  lemma KeyedUpdate<T>(s: seq<T>, p: T -> bool, f: T -> T, key: T -> int, next: int)
    requires Keyed(s, key, next)
    requires forall x :: key(f(x)) == key(x)
    ensures Keyed(UpdateWhere(s, p, f), key, next)
  {
  }

  /** In a keyed table, a key names at most one position. */
  lemma KeyedUnique<T>(s: seq<T>, key: T -> int, next: int, i: nat, j: nat)
    requires Keyed(s, key, next)
    requires i < |s| && j < |s| && key(s[i]) == key(s[j])
    ensures i == j
  {
  }
}
