/**
 * The parts of SQLite's query semantics that the CRM's statements rely on:
 * the order of values in ORDER BY and GROUP BY, the row-by-row filter of a
 * WHERE clause, ORDER BY followed by LIMIT, the distinct keys of a GROUP BY,
 * and a scan of a table in rowid order.
 */
module Sql {

  /** A column value as SQLite orders it: NULL before numbers, numbers before text. */
  datatype Val = Null | Int(i: int) | Text(s: string)

  /** The values an ORDER BY or GROUP BY clause lists, first column first. */
  type Key = seq<Val>

  /** SQLite's BINARY collation: text compared character by character. */
  predicate TextLe(a: string, b: string)
    decreases |a|
  {
    a == [] || (b != [] && (a[0] < b[0] || (a[0] == b[0] && TextLe(a[1..], b[1..]))))
  }

  lemma {:induction false} TextLeTotal(a: string, b: string)
    ensures TextLe(a, b) || TextLe(b, a)
    decreases |a|
  {
    if a != [] && b != [] && a[0] == b[0] {
      TextLeTotal(a[1..], b[1..]);
    }
  }

  lemma {:induction false} TextLeTrans(a: string, b: string, c: string)
    requires TextLe(a, b) && TextLe(b, c)
    ensures TextLe(a, c)
    decreases |a|
  {
    if a != [] && a[0] == b[0] && b[0] == c[0] {
      TextLeTrans(a[1..], b[1..], c[1..]);
    }
  }

  lemma {:induction false} TextLeAntisym(a: string, b: string)
    requires TextLe(a, b) && TextLe(b, a)
    ensures a == b
    decreases |a|
  {
    if a != [] {
      TextLeAntisym(a[1..], b[1..]);
      assert a == [a[0]] + a[1..] && b == [b[0]] + b[1..];
    }
  }

  /** The order of two single values in an ascending ORDER BY. */
  predicate ValLe(a: Val, b: Val) {
    match (a, b)
    case (Null, _) => true
    case (Int(x), Int(y)) => x <= y
    case (Int(_), Text(_)) => true
    case (Text(x), Text(y)) => TextLe(x, y)
    case (_, _) => false
  }

  lemma ValLeTotal(a: Val, b: Val)
    ensures ValLe(a, b) || ValLe(b, a)
  {
    if a.Text? && b.Text? {
      TextLeTotal(a.s, b.s);
    }
  }

  lemma ValLeTrans(a: Val, b: Val, c: Val)
    requires ValLe(a, b) && ValLe(b, c)
    ensures ValLe(a, c)
  {
    if a.Text? && b.Text? && c.Text? {
      TextLeTrans(a.s, b.s, c.s);
    }
  }

  lemma ValLeAntisym(a: Val, b: Val)
    requires ValLe(a, b) && ValLe(b, a)
    ensures a == b
  {
    if a.Text? && b.Text? {
      TextLeAntisym(a.s, b.s);
    }
  }

  /** The order of two rows in an ascending ORDER BY over several columns. */
  predicate KeyLe(a: Key, b: Key)
    decreases |a|
  {
    a == [] || (b != [] && if a[0] == b[0] then KeyLe(a[1..], b[1..]) else ValLe(a[0], b[0]))
  }

  lemma {:induction false} KeyLeTotal(a: Key, b: Key)
    ensures KeyLe(a, b) || KeyLe(b, a)
    decreases |a|
  {
    if a != [] && b != [] {
      if a[0] == b[0] {
        KeyLeTotal(a[1..], b[1..]);
      } else {
        ValLeTotal(a[0], b[0]);
      }
    }
  }

  lemma {:induction false} KeyLeAntisym(a: Key, b: Key)
    requires KeyLe(a, b) && KeyLe(b, a)
    ensures a == b
    decreases |a|
  {
    if a != [] {
      if a[0] == b[0] {
        KeyLeAntisym(a[1..], b[1..]);
        assert a == [a[0]] + a[1..] && b == [b[0]] + b[1..];
      } else {
        ValLeAntisym(a[0], b[0]);
      }
    }
  }

  lemma {:induction false} KeyLeTrans(a: Key, b: Key, c: Key)
    requires KeyLe(a, b) && KeyLe(b, c)
    ensures KeyLe(a, c)
    decreases |a|
  {
    if a != [] {
      if a[0] == b[0] && b[0] == c[0] {
        KeyLeTrans(a[1..], b[1..], c[1..]);
      } else if a[0] != b[0] && b[0] != c[0] {
        ValLeTrans(a[0], b[0], c[0]);
        if a[0] == c[0] {
          ValLeAntisym(a[0], b[0]);
        }
      }
    }
  }

  /** `a` may come before `b` in `ORDER BY ... ASC` (or `DESC` when `desc`). */
  predicate Before(a: Key, b: Key, desc: bool) {
    if desc then KeyLe(b, a) else KeyLe(a, b)
  }

  lemma BeforeTotal(a: Key, b: Key, desc: bool)
    ensures Before(a, b, desc) || Before(b, a, desc)
  {
    KeyLeTotal(a, b);
  }

  lemma BeforeTrans(a: Key, b: Key, c: Key, desc: bool)
    requires Before(a, b, desc) && Before(b, c, desc)
    ensures Before(a, c, desc)
  {
    if desc { KeyLeTrans(c, b, a); } else { KeyLeTrans(a, b, c); }
  }

  lemma BeforeAntisym(a: Key, b: Key, desc: bool)
    requires Before(a, b, desc) && Before(b, a, desc)
    ensures a == b
  {
    KeyLeAntisym(a, b);
  }

  /** A single text column as a sort key; its ascending order is `TextLe`. */
  function TextKey(s: string): Key {
    [Text(s)]
  }

  lemma TextKeyOrder(a: string, b: string)
    ensures KeyLe(TextKey(a), TextKey(b)) <==> TextLe(a, b)
  {
    if a == b {
      TextLeTotal(a, a);
    }
  }

  /** Rows in the order `ORDER BY key` (ascending, or descending when `desc`) allows. */
  predicate SortedBy<T>(s: seq<T>, key: T -> Key, desc: bool) {
    forall i, j :: 0 <= i < j < |s| ==> Before(key(s[i]), key(s[j]), desc)
  }

  function Insert<T>(x: T, s: seq<T>, key: T -> Key, desc: bool): (r: seq<T>)
    ensures |r| == |s| + 1
    ensures multiset(r) == multiset(s) + multiset{x}
  {
    if s == [] then [x]
    else if Before(key(x), key(s[0]), desc) then [x] + s
    else
      assert s == [s[0]] + s[1..];
      [s[0]] + Insert(x, s[1..], key, desc)
  }

  /** A row that may come before every row of a sorted `t` may be put in front of it. */
  lemma SortedPrepend<T>(x: T, t: seq<T>, key: T -> Key, desc: bool)
    requires SortedBy(t, key, desc)
    requires forall y :: y in t ==> Before(key(x), key(y), desc)
    ensures SortedBy([x] + t, key, desc)
  {
    var r := [x] + t;
    forall i, j | 0 <= i < j < |r|
      ensures Before(key(r[i]), key(r[j]), desc)
    {
      assert r[j] == t[j - 1];
      if i > 0 {
        assert r[i] == t[i - 1];
      } else {
        assert t[j - 1] in t;
      }
    }
  }

  /** Every row of a sorted `s` after its first may come after that first row. */
  lemma SortedHead<T>(s: seq<T>, key: T -> Key, desc: bool)
    requires SortedBy(s, key, desc) && s != []
    ensures SortedBy(s[1..], key, desc)
    ensures forall y :: y in s[1..] ==> Before(key(s[0]), key(y), desc)
  {
    forall y | y in s[1..] ensures Before(key(s[0]), key(y), desc) {
      var j :| 0 <= j < |s[1..]| && s[1..][j] == y;
      assert s[j + 1] == y;
    }
  }

  lemma {:induction false} InsertSorted<T>(x: T, s: seq<T>, key: T -> Key, desc: bool)
    requires SortedBy(s, key, desc)
    ensures SortedBy(Insert(x, s, key, desc), key, desc)
  {
    if s == [] {
    } else if Before(key(x), key(s[0]), desc) {
      forall y | y in s
        ensures Before(key(x), key(y), desc)
      {
        if y != s[0] {
          SortedHead(s, key, desc);
          assert y in s[1..] by { assert s == [s[0]] + s[1..]; }
          BeforeTrans(key(x), key(s[0]), key(y), desc);
        }
      }
      SortedPrepend(x, s, key, desc);
    } else {
      BeforeTotal(key(x), key(s[0]), desc);
      SortedHead(s, key, desc);
      var t := Insert(x, s[1..], key, desc);
      InsertSorted(x, s[1..], key, desc);
      forall y | y in t
        ensures Before(key(s[0]), key(y), desc)
      {
        assert y in multiset(t);
        assert y == x || y in multiset(s[1..]);
      }
      SortedPrepend(s[0], t, key, desc);
    }
  }

  /** The rows of `s` in `ORDER BY key` order. */
  function SortBy<T>(s: seq<T>, key: T -> Key, desc: bool): (r: seq<T>)
    ensures |r| == |s| && multiset(r) == multiset(s)
    ensures SortedBy(r, key, desc)
  {
    if s == [] then []
    else
      var t := SortBy(s[1..], key, desc);
      SortByStep(s, t, key, desc);
      Insert(s[0], t, key, desc)
  }

  /** Inserting the first row into the sorted rest sorts the whole sequence. */
  lemma SortByStep<T>(s: seq<T>, t: seq<T>, key: T -> Key, desc: bool)
    requires s != [] && |t| == |s| - 1 && multiset(t) == multiset(s[1..]) && SortedBy(t, key, desc)
    ensures var r := Insert(s[0], t, key, desc);
      |r| == |s| && multiset(r) == multiset(s) && SortedBy(r, key, desc)
  {
    InsertSorted(s[0], t, key, desc);
    assert multiset(s) == multiset(s[1..]) + multiset{s[0]} by {
      assert s == [s[0]] + s[1..];
    }
  }

  /** The rows of `s` that a WHERE clause `p` keeps, in their order in `s`. */
  function Where<T(!new)>(s: seq<T>, p: T -> bool): (r: seq<T>)
    ensures |r| <= |s|
    ensures forall x :: x in r <==> x in s && p(x)
  {
    if s == [] then []
    else (if p(s[0]) then [s[0]] else []) + Where(s[1..], p)
  }

  /** A WHERE clause keeps every copy of a row it selects and no copy of one it rejects. */
  lemma {:induction false} WhereCount<T(!new)>(s: seq<T>, p: T -> bool, x: T)
    ensures multiset(Where(s, p))[x] == if p(x) then multiset(s)[x] else 0
  {
    if s != [] {
      WhereCount(s[1..], p, x);
      assert s == [s[0]] + s[1..];
    }
  }

  /** A WHERE clause holds no row more often than its input does. */
  lemma WhereSub<T(!new)>(s: seq<T>, p: T -> bool)
    ensures multiset(Where(s, p)) <= multiset(s)
  {
    forall x ensures multiset(Where(s, p))[x] <= multiset(s)[x] {
      WhereCount(s, p, x);
    }
  }

  /** A WHERE clause that no row satisfies selects nothing. */
  lemma {:induction false} WhereNone<T(!new)>(s: seq<T>, p: T -> bool)
    requires forall x :: x in s ==> !p(x)
    ensures Where(s, p) == []
  {
    if s != [] {
      assert s[0] in s;
      WhereNone(s[1..], p);
    }
  }

  lemma {:induction false} WhereAppend<T(!new)>(a: seq<T>, b: seq<T>, p: T -> bool)
    ensures Where(a + b, p) == Where(a, p) + Where(b, p)
  {
    if a == [] {
      assert a + b == b;
    } else {
      assert (a + b)[0] == a[0];
      assert (a + b)[1..] == a[1..] + b;
      WhereAppend(a[1..], b, p);
    }
  }

  /** A WHERE clause keeps the order of the rows it selects. */
  lemma {:induction false} WhereSorted<T(!new)>(s: seq<T>, p: T -> bool, key: T -> Key, desc: bool)
    requires SortedBy(s, key, desc)
    ensures SortedBy(Where(s, p), key, desc)
  {
    if s != [] {
      SortedHead(s, key, desc);
      WhereSorted(s[1..], p, key, desc);
      if p(s[0]) {
        SortedPrepend(s[0], Where(s[1..], p), key, desc);
      }
    }
  }

  /** The image of each row under `f`, the way a SELECT list or a join projects it. */
  function Project<A, B>(s: seq<A>, f: A -> B): (r: seq<B>)
    ensures |r| == |s| && forall i :: 0 <= i < |s| ==> r[i] == f(s[i])
    ensures forall x :: x in s ==> f(x) in r
  {
    var r := seq(|s|, i requires 0 <= i < |s| => f(s[i]));
    assert forall x :: x in s ==> f(x) in r by {
      forall x | x in s ensures f(x) in r {
        var i :| 0 <= i < |s| && s[i] == x;
        assert r[i] == f(x);
      }
    }
    r
  }

  /** `LIMIT n`: the first `n` rows. */
  function Take<T>(s: seq<T>, n: nat): (r: seq<T>)
    ensures |r| == if |s| < n then |s| else n
    ensures forall i :: 0 <= i < |r| ==> r[i] == s[i]
  {
    if |s| <= n then s else s[..n]
  }

  /** Python's `reversed(...)` on a list of rows. */
  function Reverse<T>(s: seq<T>): (r: seq<T>)
    ensures |r| == |s| && forall i :: 0 <= i < |s| ==> r[i] == s[|s| - 1 - i]
  {
    seq(|s|, i requires 0 <= i < |s| => s[|s| - 1 - i])
  }

  /**
   * `ORDER BY key LIMIT n`: at most `n` rows, in key order, all taken from `s`,
   * and every row left out ranks after each row kept (so none is left out when
   * fewer than `n` rows exist).
   */
  function OrderLimit<T>(s: seq<T>, key: T -> Key, desc: bool, n: nat): (r: seq<T>)
    ensures |r| == if |s| < n then |s| else n
    ensures multiset(r) <= multiset(s)
    ensures SortedBy(r, key, desc)
    ensures forall x :: x in s && x !in r ==>
              |r| == n && forall y :: y in r ==> Before(key(y), key(x), desc)
  {
    var sorted := SortBy(s, key, desc);
    var r := Take(sorted, n);
    PrefixMultiset(sorted, r);
    PrefixSorted(sorted, r, key, desc);
    assert forall x :: x in s ==> x in sorted by {
      assert forall x :: x in s ==> x in multiset(sorted);
    }
    PrefixRest(sorted, r, key, desc, n);
    r
  }

  /** A prefix of a sequence holds no row more often than the sequence does. */
  lemma PrefixMultiset<T>(s: seq<T>, r: seq<T>)
    requires |r| <= |s| && forall i :: 0 <= i < |r| ==> r[i] == s[i]
    ensures multiset(r) <= multiset(s)
  {
    assert s == r + s[|r|..];
    assert multiset(s) == multiset(r) + multiset(s[|r|..]);
  }

  /** A prefix of a sorted sequence is sorted. */
  lemma PrefixSorted<T>(s: seq<T>, r: seq<T>, key: T -> Key, desc: bool)
    requires SortedBy(s, key, desc)
    requires |r| <= |s| && forall i :: 0 <= i < |r| ==> r[i] == s[i]
    ensures SortedBy(r, key, desc)
  {
    forall i, j | 0 <= i < j < |r| ensures Before(key(r[i]), key(r[j]), desc) {
      assert r[i] == s[i] && r[j] == s[j];
    }
  }

  /** A row of a sorted sequence that its first `n` rows leave out ranks after each of them. */
  lemma PrefixRest<T>(s: seq<T>, r: seq<T>, key: T -> Key, desc: bool, n: nat)
    requires SortedBy(s, key, desc)
    requires |r| == (if |s| < n then |s| else n) && forall i :: 0 <= i < |r| ==> r[i] == s[i]
    ensures forall x :: x in s && x !in r ==>
              |r| == n && forall y :: y in r ==> Before(key(y), key(x), desc)
  {
    forall x | x in s && x !in r
      ensures |r| == n && forall y :: y in r ==> Before(key(y), key(x), desc)
    {
      var j :| 0 <= j < |s| && s[j] == x;
      assert forall i :: 0 <= i < |r| ==> r[i] != x;
      forall y | y in r ensures Before(key(y), key(x), desc) {
        var i :| 0 <= i < |r| && r[i] == y;
        assert s[i] == y;
      }
    }
  }

  /**
   * What `OrderLimit` promises, read back on the selected rows: a kept row was
   * selected, and a selected row left out ranks after each kept one.
   */
  lemma Selected<T>(selected: seq<T>, r: seq<T>, key: T -> Key, n: nat)
    requires multiset(r) <= multiset(selected)
    requires forall x :: x in selected && x !in r ==> |r| == n && forall y :: y in r ==> Before(key(y), key(x), true)
    ensures forall x :: x in r ==> x in selected
    ensures forall x :: x in selected && x !in r ==> |r| == n && forall y :: y in r ==> Before(key(y), key(x), true)
  {
    assert forall x :: x in r ==> x in multiset(selected);
  }

  /** Drops each row whose key equals that of the row after it. */
  function Dedup<T>(s: seq<T>, key: T -> Key): (r: seq<T>)
    ensures forall x :: x in r ==> x in s
  {
    if |s| <= 1 then s
    else
      var t := Dedup(s[1..], key);
      assert forall x :: x in s[1..] ==> x in s;
      if key(s[0]) == key(s[1]) then t else [s[0]] + t
  }

  /** Every key of `s` is still the key of some row after `Dedup`. */
  lemma {:induction false} DedupKeys<T>(s: seq<T>, key: T -> Key)
    ensures forall x :: x in s ==> key(x) in Project(Dedup(s, key), key)
  {
    if |s| > 1 {
      DedupKeys(s[1..], key);
      var t := Dedup(s[1..], key);
      var kt := Project(t, key);
      assert s[1] in s[1..];
      forall x | x in s ensures key(x) in Project(Dedup(s, key), key) {
        if x != s[0] {
          assert x in s[1..] by { assert s == [s[0]] + s[1..]; }
        }
        if key(s[0]) != key(s[1]) {
          var r := [s[0]] + t;
          assert Project(r, key) == [key(s[0])] + kt;
        }
      }
    }
  }

  lemma {:induction false} DedupSorted<T>(s: seq<T>, key: T -> Key, desc: bool)
    requires SortedBy(s, key, desc)
    ensures SortedBy(Dedup(s, key), key, desc)
    ensures forall i, j :: 0 <= i < j < |Dedup(s, key)| ==> key(Dedup(s, key)[i]) != key(Dedup(s, key)[j])
  {
    if |s| > 1 {
      SortedHead(s, key, desc);
      DedupSorted(s[1..], key, desc);
      var t := Dedup(s[1..], key);
      if key(s[0]) != key(s[1]) {
        forall y | y in t
          ensures Before(key(s[0]), key(y), desc) && key(s[0]) != key(y)
        {
          assert y in s[1..];
          if key(s[0]) == key(y) {
            SortedHead(s[1..], key, desc);
            if y != s[1] {
              assert y in s[1..][1..] by { assert s[1..] == [s[1]] + s[1..][1..]; }
            }
            BeforeAntisym(key(s[0]), key(s[1]), desc);
          }
        }
        SortedPrepend(s[0], t, key, desc);
        var r := [s[0]] + t;
        forall i, j | 0 <= i < j < |r|
          ensures key(r[i]) != key(r[j])
        {
          assert r[j] == t[j - 1];
          if i == 0 {
            assert t[j - 1] in t;
          } else {
            assert r[i] == t[i - 1];
          }
        }
      }
    }
  }

  /**
   * `GROUP BY key ORDER BY key LIMIT n`: one representative row per group, at
   * most `n` of them, in strict key order; every row of `s` belongs to a group
   * that is kept, or else `n` groups were kept and each of them ranks before it.
   */
  function TopGroups<T>(s: seq<T>, key: T -> Key, desc: bool, n: nat): (r: seq<T>)
    ensures |r| <= n
    ensures forall x :: x in r ==> x in s
    ensures forall i, j :: 0 <= i < j < |r| ==> Before(key(r[i]), key(r[j]), desc) && key(r[i]) != key(r[j])
    ensures forall x :: x in s ==>
              key(x) in Project(r, key) ||
              (|r| == n && forall y :: y in r ==> Before(key(y), key(x), desc) && key(y) != key(x))
  {
    var sorted := SortBy(s, key, desc);
    var groups := Dedup(sorted, key);
    var r := Take(groups, n);
    DedupSorted(sorted, key, desc);
    assert forall i, j :: 0 <= i < j < |r| ==> Before(key(r[i]), key(r[j]), desc) && key(r[i]) != key(r[j]) by {
      forall i, j | 0 <= i < j < |r| ensures Before(key(r[i]), key(r[j]), desc) && key(r[i]) != key(r[j]) {
        assert r[i] == groups[i] && r[j] == groups[j];
      }
    }
    assert forall x :: x in r ==> x in s by {
      assert forall x :: x in r ==> x in groups;
      assert forall x :: x in groups ==> x in multiset(s);
    }
    assert forall x :: x in s ==>
             key(x) in Project(r, key) ||
             (|r| == n && forall y :: y in r ==> Before(key(y), key(x), desc) && key(y) != key(x)) by {
      DedupKeys(sorted, key);
      TopGroupsComplete(s, sorted, groups, r, key, desc, n);
    }
    r
  }

  lemma TopGroupsComplete<T>(s: seq<T>, sorted: seq<T>, groups: seq<T>, r: seq<T>, key: T -> Key, desc: bool, n: nat)
    requires multiset(sorted) == multiset(s)
    requires forall x :: x in sorted ==> key(x) in Project(groups, key)
    requires SortedBy(groups, key, desc)
    requires forall i, j :: 0 <= i < j < |groups| ==> key(groups[i]) != key(groups[j])
    requires r == Take(groups, n)
    ensures forall x :: x in s ==>
              key(x) in Project(r, key) ||
              (|r| == n && forall y :: y in r ==> Before(key(y), key(x), desc) && key(y) != key(x))
  {
    forall x | x in s && key(x) !in Project(r, key)
      ensures |r| == n && forall y :: y in r ==> Before(key(y), key(x), desc) && key(y) != key(x)
    {
      assert x in multiset(sorted);
      var kg := Project(groups, key);
      var j :| 0 <= j < |kg| && kg[j] == key(x);
      forall y | y in r ensures Before(key(y), key(x), desc) && key(y) != key(x) {
        var i :| 0 <= i < |r| && r[i] == y;
        assert groups[i] == y && groups[j] == groups[j];
      }
    }
  }

  /** The sum of `f` over the rows, `SUM(...)` in exact arithmetic. */
  function Sum<T>(s: seq<T>, f: T -> real): real {
    if s == [] then 0.0 else f(s[0]) + Sum(s[1..], f)
  }

  /** The smallest rowid of a non-empty table. */
  function MinId(ids: set<int>): (m: int)
    requires ids != {}
    ensures m in ids && forall k :: k in ids ==> m <= k
  {
    MinExists(ids);
    var m :| m in ids && forall k :: k in ids ==> m <= k;
    m
  }

  lemma {:induction false} MinExists(ids: set<int>)
    requires ids != {}
    ensures exists m :: m in ids && forall k :: k in ids ==> m <= k
    decreases |ids|
  {
    var x := MemberOf(ids);
    if ids == {x} {
      assert forall k :: k in ids ==> x <= k;
    } else {
      var rest := ids - {x};
      MinExists(rest);
      var m :| m in rest && forall k :: k in rest ==> m <= k;
      var lo := if x < m then x else m;
      forall k | k in ids ensures lo <= k {
        if k != x { assert k in rest; }
      }
      assert lo in ids;
    }
  }

  /** A full scan of a table in rowid order: each row once, smallest id first. */
  function Rows<R(!new, ==)>(m: map<int, R>): (r: seq<R>)
    ensures |r| == |m|
    ensures forall x :: x in r <==> x in m.Values
    decreases |m|
  {
    if |m| == 0 then []
    else
      var k := MinId(m.Keys);
      var rest := m - {k};
      assert rest.Keys == m.Keys - {k};
      assert |rest| == |m| - 1 by {
        assert |rest.Keys| == |m.Keys| - 1;
      }
      ValuesSplit(m, k);
      [m[k]] + Rows(rest)
  }

  lemma ValuesSplit<R>(m: map<int, R>, k: int)
    requires k in m
    ensures m.Values == {m[k]} + (m - {k}).Values
  {
    forall x | x in m.Values ensures x in {m[k]} + (m - {k}).Values {
      var j := KeyOf(m, x);
      if j != k {
        assert j in (m - {k}) && (m - {k})[j] == x;
      }
    }
    forall x | x in (m - {k}).Values ensures x in m.Values {
      var j := KeyOf(m - {k}, x);
      assert j in m && m[j] == x;
    }
  }

  /** A key under which `m` holds the value `x`. */
  lemma KeyOf<R>(m: map<int, R>, x: R) returns (k: int)
    requires x in m.Values
    ensures k in m && m[k] == x
  {
    if forall j :: j in m ==> m[j] != x {
      assert false;
    }
    k :| k in m && m[k] == x;
  }

  /** Some element of a non-empty set. */
  lemma MemberOf(ids: set<int>) returns (x: int)
    requires ids != {}
    ensures x in ids
  {
    if forall j :: j !in ids {
      assert false;
    }
    x :| x in ids;
  }

  lemma SumCons<T>(x: T, t: seq<T>, f: T -> real)
    ensures Sum([x] + t, f) == f(x) + Sum(t, f)
  {
    assert ([x] + t)[1..] == t;
  }

  /**
   * The sum over a scan of `m` is the term of the row under `k` plus the sum
   * over a scan of the rest of the table, wherever the scan meets that row.
   */
  lemma {:induction false} SumRowsRemove<R(!new)>(m: map<int, R>, k: int, f: R -> real)
    requires k in m
    ensures Sum(Rows(m), f) == f(m[k]) + Sum(Rows(m - {k}), f)
    decreases |m|, 1
  {
    var k0 := MinId(m.Keys);
    if k0 == k {
      assert Rows(m) == [m[k]] + Rows(m - {k});
      SumCons(m[k], Rows(m - {k}), f);
    } else {
      SumRowsRemoveLater(m, k, k0, f);
    }
  }

  lemma RemoveBoth<R>(m: map<int, R>, a: int, b: int)
    ensures m - {a} - {b} == m - {b} - {a}
  {
  }

  /** `SumRowsRemove` for a key the scan does not meet first. */
  lemma {:induction false} SumRowsRemoveLater<R(!new)>(m: map<int, R>, k: int, k0: int, f: R -> real)
    requires k in m && k0 == MinId(m.Keys) && k != k0
    ensures Sum(Rows(m), f) == f(m[k]) + Sum(Rows(m - {k}), f)
    decreases |m|, 0
  {
    var m0, mk := m - {k0}, m - {k};
    var rest := m0 - {k};
    assert m0.Keys == m.Keys - {k0} && mk.Keys == m.Keys - {k};
    assert |m0.Keys| == |m.Keys| - 1;
    assert MinId(mk.Keys) == k0 by {
      assert k0 in mk.Keys;
    }
    RemoveBoth(m, k0, k);
    assert mk - {k0} == rest;
    SumRowsRemove(m0, k, f);
    assert Rows(m) == [m[k0]] + Rows(m0);
    SumCons(m[k0], Rows(m0), f);
    assert Rows(mk) == [m[k0]] + Rows(rest);
    SumCons(m[k0], Rows(rest), f);
  }

  /** A scan's sum loses exactly the removed row's term. */
  lemma SumAfterRemove<R(!new)>(m: map<int, R>, k: int, f: R -> real)
    requires k in m
    ensures Sum(Rows(m - {k}), f) == Sum(Rows(m), f) - f(m[k])
  {
    SumRowsRemove(m, k, f);
  }

  /** A scan's sum gains exactly the inserted row's term. */
  lemma SumAfterInsert<R(!new)>(m: map<int, R>, k: int, v: R, f: R -> real)
    requires k !in m
    ensures Sum(Rows(m[k := v]), f) == Sum(Rows(m), f) + f(v)
  {
    var m' := m[k := v];
    assert m' - {k} == m;
    SumRowsRemove(m', k, f);
  }

  // ---------------- each row once ----------------

  /** No row occurs twice. */
  ghost predicate NoRepeats<T>(s: seq<T>) {
    forall i, j :: 0 <= i < j < |s| ==> s[i] != s[j]
  }

  /**
   * In a table whose rows carry their own key (`id(m[k]) == k`, as the
   * AUTOINCREMENT id column does), a scan lists rows with pairwise different
   * keys, so no row twice.
   */
  lemma {:induction false} RowIdsDistinct<R(!new)>(m: map<int, R>, id: R -> int)
    requires forall k :: k in m ==> id(m[k]) == k
    ensures forall i, j :: 0 <= i < j < |Rows(m)| ==> id(Rows(m)[i]) != id(Rows(m)[j])
    ensures NoRepeats(Rows(m))
    decreases |m|
  {
    if |m| != 0 {
      var k := MinId(m.Keys);
      var rest := m - {k};
      assert rest.Keys == m.Keys - {k};
      assert |rest| == |m| - 1 by {
        assert |rest.Keys| == |m.Keys| - 1;
      }
      RowIdsDistinct(rest, id);
      var r, t := Rows(m), Rows(rest);
      assert r == [m[k]] + t;
      forall j | 0 <= j < |t| ensures id(t[j]) != k {
        assert t[j] in rest.Values;
        var k2 := KeyOf(rest, t[j]);
        assert m[k2] == t[j];
      }
      forall i, j | 0 <= i < j < |r| ensures id(r[i]) != id(r[j]) {
        assert r[j] == t[j - 1];
        if i > 0 {
          assert r[i] == t[i - 1];
        }
      }
    }
  }

  /** A row seen at two positions is counted at least twice. */
  lemma TwoPositions<T>(s: seq<T>, i: int, j: int)
    requires 0 <= i < j < |s| && s[i] == s[j]
    ensures multiset(s)[s[i]] >= 2
  {
    var a, b := s[..j], s[j..];
    assert s == a + b;
    assert a[i] == s[i] && b[0] == s[i];
    assert multiset(s)[s[i]] == multiset(a)[s[i]] + multiset(b)[s[i]];
  }

  lemma {:induction false} NoRepeatsCount<T>(t: seq<T>, x: T)
    requires NoRepeats(t)
    ensures multiset(t)[x] <= 1
  {
    if t != [] {
      var rest := t[1..];
      assert NoRepeats(rest) by {
        forall i, j | 0 <= i < j < |rest| ensures rest[i] != rest[j] {
          assert rest[i] == t[i + 1] && rest[j] == t[j + 1];
        }
      }
      NoRepeatsCount(rest, x);
      assert t == [t[0]] + rest;
      assert forall j :: 0 <= j < |rest| ==> rest[j] != t[0] by {
        forall j | 0 <= j < |rest| ensures rest[j] != t[0] {
          assert rest[j] == t[j + 1];
        }
      }
    }
  }

  /** Rows taken from a sequence without repeats, no more often than it holds them, do not repeat. */
  lemma SubDistinct<T>(s: seq<T>, t: seq<T>)
    requires NoRepeats(t) && multiset(s) <= multiset(t)
    ensures NoRepeats(s)
  {
    forall i, j | 0 <= i < j < |s| ensures s[i] != s[j] {
      NoRepeatsCount(t, s[i]);
      if s[i] == s[j] {
        TwoPositions(s, i, j);
      }
    }
  }

  /**
   * When each row of `t` comes from the row of `s` at the same position
   * (`g(t[i]) == s[i]`), a row of `t` occurs no more often than its origin in `s`.
   */
  lemma {:induction false} CountBack<A, B>(s: seq<A>, t: seq<B>, g: B -> A, y: B)
    requires |t| == |s| && forall i :: 0 <= i < |t| ==> g(t[i]) == s[i]
    ensures multiset(t)[y] <= multiset(s)[g(y)]
  {
    if t != [] {
      CountBack(s[1..], t[1..], g, y);
      assert s == [s[0]] + s[1..];
      assert t == [t[0]] + t[1..];
    }
  }
}
