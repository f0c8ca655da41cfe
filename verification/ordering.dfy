/** The two orders the merger sorts directory listings by: the numeric order
    of `pathComparator` (by the number a directory or row file is named
    after), and the natural order of `Path`, which compares the path text
    character by character. */
module Ordering {
  import opened Wrappers
  import opened Decimal
  import opened JavaString
  import opened TilePaths

  predicate SortedBy<T(==,!new)>(s: seq<T>, key: T -> nat) {
    forall i, j :: 0 <= i < j < |s| ==> key(s[i]) <= key(s[j])
  }

  /** No two entries of a listing share a name. */
  predicate DistinctBy<T(==,!new)>(s: seq<T>, key: T -> nat) {
    forall i, j :: 0 <= i < j < |s| ==> key(s[i]) != key(s[j])
  }

  function Insert<T(==,!new)>(x: T, s: seq<T>, key: T -> nat): (r: seq<T>)
    requires SortedBy(s, key)
    ensures SortedBy(r, key)
    ensures multiset(r) == multiset(s) + multiset{x}
    ensures forall t :: t in r <==> t == x || t in s
  {
    if |s| == 0 then [x]
    else if key(x) <= key(s[0]) then
      ConsSorted(x, s, key);
      [x] + s
    else
      var tail := Insert(x, s[1..], key);
      assert s == [s[0]] + s[1..];
      assert forall t :: t in tail ==> key(s[0]) <= key(t) by {
        forall t | t in tail
          ensures key(s[0]) <= key(t)
        {
          if t != x {
            var k :| 0 <= k < |s[1..]| && s[1..][k] == t;
            assert s[k + 1] == t;
          }
        }
      }
      ConsSorted(s[0], tail, key);
      [s[0]] + tail
  }

  lemma ConsSorted<T(!new)>(h: T, s: seq<T>, key: T -> nat)
    requires SortedBy(s, key)
    requires forall t :: t in s ==> key(h) <= key(t)
    ensures SortedBy([h] + s, key)
  {
    forall i, j | 0 <= i < j < |s| + 1
      ensures key(([h] + s)[i]) <= key(([h] + s)[j])
    {
      if i == 0 {
        assert ([h] + s)[j] in s;
      }
    }
  }

  /** `Collections.sort(list, comparator)`: a stable sort by the key. */
  function SortBy<T(==,!new)>(s: seq<T>, key: T -> nat): (r: seq<T>)
    ensures SortedBy(r, key)
    ensures multiset(r) == multiset(s)
    ensures |r| == |s|
    ensures forall t :: t in r <==> t in s
  {
    if |s| == 0 then []
    else
      assert s == [s[0]] + s[1..];
      Insert(s[0], SortBy(s[1..], key), key)
  }

  lemma {:induction false} InsertDistinct<T(!new)>(x: T, s: seq<T>, key: T -> nat)
    requires SortedBy(s, key) && DistinctBy(s, key)
    requires forall t :: t in s ==> key(t) != key(x)
    ensures DistinctBy(Insert(x, s, key), key)
  {
    if |s| > 0 && key(x) > key(s[0]) {
      var tail := Insert(x, s[1..], key);
      InsertDistinct(x, s[1..], key);
      forall t | t in tail
        ensures key(t) != key(s[0])
      {
        if t != x {
          var k :| 0 <= k < |s[1..]| && s[1..][k] == t;
          assert s[k + 1] == t;
        }
      }
      ConsDistinct(s[0], tail, key);
    } else if |s| > 0 {
      ConsDistinct(x, s, key);
    }
  }

  lemma ConsDistinct<T(!new)>(h: T, s: seq<T>, key: T -> nat)
    requires DistinctBy(s, key)
    requires forall t :: t in s ==> key(t) != key(h)
    ensures DistinctBy([h] + s, key)
  {
    forall i, j | 0 <= i < j < |s| + 1
      ensures key(([h] + s)[i]) != key(([h] + s)[j])
    {
      if i == 0 {
        assert ([h] + s)[j] in s;
      }
    }
  }

  /** Sorting a listing whose names are distinct keeps them distinct. */
  lemma {:induction false} SortDistinct<T(!new)>(s: seq<T>, key: T -> nat)
    requires DistinctBy(s, key)
    ensures DistinctBy(SortBy(s, key), key)
  {
    if |s| > 0 {
      var rest := s[1..];
      SortDistinct(rest, key);
      forall t | t in SortBy(rest, key)
        ensures key(t) != key(s[0])
      {
        var k :| 0 <= k < |rest| && rest[k] == t;
        assert s[k + 1] == t;
      }
      InsertDistinct(s[0], SortBy(rest, key), key);
    }
  }

  /** `getLastEntry(dir, filter)`: the listing sorted by the comparator, and
      its last element; `None` where `tiles.get(-1)` throws. */
  function LastEntry<T(==,!new)>(s: seq<T>, key: T -> nat): (r: Option<T>)
  {
    var sorted := SortBy(s, key);
    if |sorted| == 0 then None else Some(sorted[|sorted| - 1])
  }

  /** `getLastEntry` fails exactly on an empty listing, and otherwise returns
      an entry that no entry of the listing exceeds. */
  lemma LastEntryIsGreatest<T(!new)>(s: seq<T>, key: T -> nat)
    ensures LastEntry(s, key).None? <==> |s| == 0
    ensures LastEntry(s, key).Some? ==>
      && LastEntry(s, key).value in s
      && forall t :: t in s ==> key(t) <= key(LastEntry(s, key).value)
  {
    var r := SortBy(s, key);
    if |r| > 0 {
      forall t | t in s
        ensures key(t) <= key(r[|r| - 1])
      {
        var k :| 0 <= k < |r| && r[k] == t;
      }
    }
  }

  /** With distinct names the greatest entry is the only one of its key. */
  lemma LastEntryUnique<T(!new)>(s: seq<T>, key: T -> nat, t: T)
    requires DistinctBy(s, key)
    requires t in s && forall u :: u in s ==> key(u) <= key(t)
    ensures LastEntry(s, key) == Some(t)
  {
    LastEntryIsGreatest(s, key);
    var m := LastEntry(s, key).value;
    var i :| 0 <= i < |s| && s[i] == m;
    var j :| 0 <= j < |s| && s[j] == t;
    assert key(m) == key(t);
    assert i == j;
  }

  /** The entries `horizontalMerge` scans: the last two of the sorted listing
      (`xDirs.get(size - 2)`, then `xDirs.get(size - 1)`), or the only one. */
  function LastTwo<T(==,!new)>(s: seq<T>, key: T -> nat): seq<T> {
    var sorted := SortBy(s, key);
    if |sorted| > 1 then [sorted[|sorted| - 2], sorted[|sorted| - 1]] else sorted
  }

  /** Two entries with strictly increasing keys above `k`. */
  predicate TwoAbove<T(==,!new)>(s: seq<T>, key: T -> nat, k: nat) {
    exists a, b :: a in s && b in s && k < key(a) < key(b)
  }

  /** In a listing with distinct names, an entry is scanned exactly when no
      two entries have names above its own: the scan covers the
      `min(2, n)` highest-numbered entries. */
  lemma LastTwoChosen<T(!new)>(s: seq<T>, key: T -> nat, t: T)
    requires DistinctBy(s, key) && t in s
    ensures t in LastTwo(s, key) <==> !TwoAbove(s, key, key(t))
    ensures |LastTwo(s, key)| == if |s| < 2 then |s| else 2
  {
    var r := SortBy(s, key);
    SortDistinct(s, key);
    var k :| 0 <= k < |r| && r[k] == t;
    TopTwoAbove(r, key, k);
    SameEntriesTwoAbove(s, r, key, key(t));
    LastTwoPosition(r, key, k);
  }

  lemma SameEntriesTwoAbove<T(!new)>(s: seq<T>, r: seq<T>, key: T -> nat, k: nat)
    requires forall t :: t in r <==> t in s
    ensures TwoAbove(s, key, k) <==> TwoAbove(r, key, k)
  {
    if TwoAbove(s, key, k) {
      var a, b :| a in s && b in s && k < key(a) < key(b);
      assert a in r && b in r;
    }
    if TwoAbove(r, key, k) {
      var a, b :| a in r && b in r && k < key(a) < key(b);
      assert a in s && b in s;
    }
  }

  lemma LastTwoPosition<T(!new)>(r: seq<T>, key: T -> nat, k: nat)
    requires DistinctBy(r, key) && k < |r|
    ensures r[k] in (if |r| > 1 then [r[|r| - 2], r[|r| - 1]] else r) <==> k >= |r| - 2
  {
    var n := |r|;
    if n > 1 && r[k] == r[n - 2] {
      assert k == n - 2;
    } else if n > 1 && r[k] == r[n - 1] {
      assert k == n - 1;
    }
  }

  /** In a listing sorted by distinct keys, the entry at `k` has two entries
      above it exactly when it is not among the last two. */
  lemma TopTwoAbove<T(!new)>(r: seq<T>, key: T -> nat, k: nat)
    requires SortedBy(r, key) && DistinctBy(r, key) && k < |r|
    ensures TwoAbove(r, key, key(r[k])) <==> k < |r| - 2
  {
    var n := |r|;
    if k < n - 2 {
      assert r[n - 2] in r && r[n - 1] in r;
      assert key(r[k]) < key(r[n - 2]) < key(r[n - 1]);
    }
    if TwoAbove(r, key, key(r[k])) {
      var a, b :| a in r && b in r && key(r[k]) < key(a) < key(b);
      var p :| 0 <= p < n && r[p] == a;
      var q :| 0 <= q < n && r[q] == b;
      assert k < p < q;
    }
  }

  // ---------------------------------------------------------------------
  // The natural order of `Path`

  /** The last element of `Collections.sort(fileList)`: the greatest path
      in the natural order. */
  function LexGreatest(s: seq<string>): (r: string)
    requires |s| > 0
    ensures r in s
    ensures forall t :: t in s ==> !LexLess(r, t)
  {
    if |s| == 1 then
      LexIrreflexive(s[0]);
      s[0]
    else
      var m := LexGreatest(s[1..]);
      if LexLess(m, s[0]) then
        AboveGreatest(s[1..], m, s[0]);
        LexIrreflexive(s[0]);
        s[0]
      else
        m
  }

  lemma AboveGreatest(s: seq<string>, m: string, g: string)
    requires forall t :: t in s ==> !LexLess(m, t)
    requires LexLess(m, g)
    ensures forall t :: t in s ==> !LexLess(g, t)
  {
    forall t | t in s
      ensures !LexLess(g, t)
    {
      if LexLess(g, t) {
        LexTransitive(m, g, t);
      }
    }
  }

  /** The greatest path is determined by the set of paths. */
  lemma LexGreatestUnique(s: seq<string>, g: string)
    requires g in s && forall t :: t in s ==> !LexLess(g, t)
    ensures LexGreatest(s) == g
  {
    var m := LexGreatest(s);
    if m != g {
      LexTotal(m, g);
    }
  }

  /** Comparing two strings that end in one more character each. */
  lemma {:induction false} LexAppendChar(p: string, c: char, q: string, d: char)
    requires |p| == |q|
    ensures LexLess(p + [c], q + [d]) <==> LexLess(p, q) || (p == q && c < d)
  {
    if |p| > 0 {
      assert (p + [c])[1..] == p[1..] + [c];
      assert (q + [d])[1..] == q[1..] + [d];
      if p[0] == q[0] {
        LexAppendChar(p[1..], c, q[1..], d);
        assert p == [p[0]] + p[1..] && q == [q[0]] + q[1..];
      }
    }
  }

  /** Two renderings of the same length compare as the numbers do. */
  lemma {:induction false} DigitsLexOrder(a: nat, b: nat)
    requires |Digits(a)| == |Digits(b)|
    ensures LexLess(Digits(a), Digits(b)) <==> a < b
  {
    if a >= 10 {
      LexAppendChar(Digits(a / 10), DigitChar(a % 10), Digits(b / 10), DigitChar(b % 10));
      DigitsLexOrder(a / 10, b / 10);
      if Digits(a / 10) == Digits(b / 10) {
        DigitsInjective(a / 10, b / 10);
      }
    }
  }

  /** Strings that already differ within an equal-length prefix compare as
      their prefixes do. */
  lemma {:induction false} LexDecidedByPrefix(p: string, q: string, u: string, v: string)
    requires |p| == |q| && p != q
    ensures LexLess(p + u, q + v) == LexLess(p, q)
  {
    assert |p| > 0;
    assert (p + u)[1..] == p[1..] + u;
    assert (q + v)[1..] == q[1..] + v;
    if p[0] == q[0] {
      assert p == [p[0]] + p[1..] && q == [q[0]] + q[1..];
      LexDecidedByPrefix(p[1..], q[1..], u, v);
    }
  }

  /** The file name of row `y`. */
  function RowName(y: nat): string {
    Digits(y) + Png
  }

  lemma RowNameInjective(a: nat, b: nat)
    requires RowName(a) == RowName(b)
    ensures a == b
  {
    assert Digits(a) == RowName(a)[..|RowName(a)| - |Png|];
    assert Digits(b) == RowName(b)[..|RowName(b)| - |Png|];
    DigitsInjective(a, b);
  }

  /** Row files of one column compare as their names do. */
  lemma RowPathOrder(root: string, i: nat, z: nat, x: nat, y1: nat, y2: nat)
    ensures LexLess(TilePath(root, i, z, x, y1), TilePath(root, i, z, x, y2))
        == LexLess(RowName(y1), RowName(y2))
  {
    var dir := ColumnDirPath(root, i, z, x) + "/";
    assert TilePath(root, i, z, x, y1) == dir + RowName(y1);
    assert TilePath(root, i, z, x, y2) == dir + RowName(y2);
    LexCommonPrefix(dir, RowName(y1), RowName(y2));
  }

  /** Names with as many digits compare as the numbers do. */
  lemma RowNameOrder(a: nat, b: nat)
    requires |Digits(a)| == |Digits(b)|
    ensures LexLess(RowName(a), RowName(b)) <==> a < b
  {
    if a == b {
      LexIrreflexive(RowName(a));
    } else {
      if Digits(a) == Digits(b) {
        DigitsInjective(a, b);
      }
      LexDecidedByPrefix(Digits(a), Digits(b), Png, Png);
      DigitsLexOrder(a, b);
    }
  }

  /** "10.png" comes before "9.png" in the natural order. */
  lemma TenBeforeNine()
    ensures LexLess(RowName(10), RowName(9))
  {
    assert Digits(10) == Digits(1) + [DigitChar(0)];
    assert RowName(10)[0] == '1';
    assert RowName(9)[0] == '9';
  }
}
