/** Sequence operations behind pandas' `unique()` (first-seen order) and the
    row-major reading of a seven-column grid. */
module Sequences {

  predicate Distinct<T(==)>(s: seq<T>) {
    forall i, j :: 0 <= i < j < |s| ==> s[i] != s[j]
  }

  /** Position of the first occurrence of `x` in `s`. */
  function FirstIndex<T(==)>(s: seq<T>, x: T): (i: nat)
    requires x in s
    ensures i < |s| && s[i] == x
    ensures forall j :: 0 <= j < i ==> s[j] != x
  {
    if s[0] == x then 0 else 1 + FirstIndex(s[1..], x)
  }

  lemma FirstIndexIs<T>(s: seq<T>, x: T, i: nat)
    requires i < |s| && s[i] == x
    requires forall j :: 0 <= j < i ==> s[j] != x
    ensures FirstIndex(s, x) == i
  {
  }

  /** pandas `unique()`: the distinct elements of `s`, each once, in order of first appearance. */
  function Unique<T(==,!new)>(s: seq<T>): (u: seq<T>)
    ensures forall x :: x in u <==> x in s
    ensures Distinct(u)
    ensures |u| <= |s|
  {
    if s == [] then []
    else
      var p, last := s[..|s| - 1], s[|s| - 1];
      assert s == p + [last];
      var u := Unique(p);
      if last in u then u else u + [last]
  }

  /** The elements of `Unique(s)` are ordered by where they first occur in `s`. */
  lemma {:induction false} UniqueFirstSeen<T(!new)>(s: seq<T>, i: int, j: int)
    requires 0 <= i < j < |Unique(s)|
    ensures FirstIndex(s, Unique(s)[i]) < FirstIndex(s, Unique(s)[j])
  {
    var p, last := s[..|s| - 1], s[|s| - 1];
    assert s == p + [last];
    var u := Unique(p);
    var x, y := Unique(s)[i], Unique(s)[j];
    if j < |u| {
      UniqueFirstSeen(p, i, j);
      FirstIndexIs(s, x, FirstIndex(p, x));
      FirstIndexIs(s, y, FirstIndex(p, y));
    } else {
      assert y == last && last !in p;
      FirstIndexIs(s, x, FirstIndex(p, x));
      FirstIndexIs(s, y, |s| - 1);
    }
  }

  /** A sequence made of runs of seven equal elements, one run per key, with
      distinct keys, has exactly the keys as its unique elements, in order. */
  lemma {:induction false} UniqueOfWeeks<T(!new)>(s: seq<T>, keys: seq<T>)
    requires |s| == 7 * |keys|
    requires forall i :: 0 <= i < |s| ==> s[i] == keys[i / 7]
    requires Distinct(keys)
    ensures Unique(s) == keys
  {
    if keys != [] {
      UniqueOfWeeksPrefix(s, keys, |s|);
      assert s[..|s|] == s;
      assert keys[..(|s| - 1) / 7 + 1] == keys;
    }
  }

  lemma {:induction false} UniqueOfWeeksPrefix<T(!new)>(s: seq<T>, keys: seq<T>, m: int)
    requires |s| == 7 * |keys|
    requires forall i :: 0 <= i < |s| ==> s[i] == keys[i / 7]
    requires Distinct(keys)
    requires 0 < m <= |s|
    ensures Unique(s[..m]) == keys[..(m - 1) / 7 + 1]
    decreases m
  {
    var t := s[..m];
    var k := (m - 1) / 7;
    assert t[m - 1] == keys[k];
    if m == 1 {
      assert t == [] + [keys[0]];
      assert t[..0] == [];
    } else {
      UniqueOfWeeksPrefix(s, keys, m - 1);
      assert t[..m - 1] == s[..m - 1];
      var u := Unique(t[..m - 1]);
      assert Unique(t) == if t[m - 1] in u then u else u + [t[m - 1]];
      PreviousRow(m - 1);
      if (m - 1) % 7 == 0 {
        assert u == keys[..k];
        assert keys[k] !in keys[..k];
        assert keys[..k + 1] == keys[..k] + [keys[k]];
      } else {
        assert u == keys[..k + 1];
        assert keys[k] in u;
      }
    }
  }

  /** Position `p - 1` is in the previous row when `p` starts a row, else in the same row. */
  lemma PreviousRow(p: int)
    requires p >= 1
    ensures p % 7 == 0 ==> (p - 1) / 7 + 1 == p / 7
    ensures p % 7 != 0 ==> (p - 1) / 7 == p / 7
  {
  }

  /** Pigeonhole: distinct integers drawn from [lo, hi) number at most hi - lo. */
  lemma {:induction false} DistinctBounded(s: seq<int>, lo: int, hi: int)
    requires Distinct(s)
    requires forall i :: 0 <= i < |s| ==> lo <= s[i] < hi
    ensures |s| <= if lo <= hi then hi - lo else 0
    decreases |s|, hi - lo
  {
    if s != [] {
      assert lo <= s[0] < hi;
      if i :| 0 <= i < |s| && s[i] == hi - 1 {
        var t := s[..i] + s[i + 1..];
        forall a, b | 0 <= a < b < |t|
          ensures t[a] != t[b]
        {
          var a', b' := if a < i then a else a + 1, if b < i then b else b + 1;
          assert t[a] == s[a'] && t[b] == s[b'];
        }
        forall a | 0 <= a < |t|
          ensures lo <= t[a] < hi - 1
        {
          var a' := if a < i then a else a + 1;
          assert t[a] == s[a'] && a' != i;
        }
        DistinctBounded(t, lo, hi - 1);
      } else {
        DistinctBounded(s, lo, hi - 1);
      }
    }
  }

  /** Row-major reading of a grid. */
  function Flatten<T>(rows: seq<seq<T>>): seq<T> {
    if rows == [] then [] else rows[0] + Flatten(rows[1..])
  }

  /** Cuts `s` into consecutive rows of seven. */
  function SplitWeeks<T>(s: seq<T>): (rows: seq<seq<T>>)
    requires |s| % 7 == 0
  {
    seq(|s| / 7, r requires 0 <= r < |s| / 7 => s[7 * r .. 7 * r + 7])
  }

  /** Row r of the cut holds elements 7r .. 7r + 6. */
  lemma SplitWeeksAt<T>(s: seq<T>, r: int, c: int)
    requires |s| % 7 == 0 && 0 <= r < |s| / 7 && 0 <= c < 7
    ensures |SplitWeeks(s)| == |s| / 7 && |SplitWeeks(s)[r]| == 7
    ensures 7 * r + c < |s| && SplitWeeks(s)[r][c] == s[7 * r + c]
  {
  }

  /** Cutting into weeks and reading row-major gives the sequence back. */
  lemma FlattenSplitWeeks<T>(s: seq<T>)
    requires |s| % 7 == 0
    ensures Flatten(SplitWeeks(s)) == s
  {
    var rows := SplitWeeks(s);
    FlattenWeeks(rows);
    forall k | 0 <= k < |s|
      ensures Flatten(rows)[k] == s[k]
    {
      assert k == 7 * (k / 7) + k % 7;
    }
  }

  /** Reading a seven-column grid row-major and cutting it into weeks gives the grid back. */
  lemma SplitFlattenWeeks<T>(rows: seq<seq<T>>)
    requires forall r :: 0 <= r < |rows| ==> |rows[r]| == 7
    ensures |Flatten(rows)| % 7 == 0
    ensures SplitWeeks(Flatten(rows)) == rows
  {
    FlattenWeeks(rows);
    var f := Flatten(rows);
    var split := SplitWeeks(f);
    forall r | 0 <= r < |rows|
      ensures split[r] == rows[r]
    {
      forall c | 0 <= c < 7
        ensures split[r][c] == rows[r][c]
      {
        RowColumn(r, c);
        assert split[r][c] == f[7 * r + c];
      }
    }
  }

  /** Position 7r + c of a row-major reading is row r, column c. */
  lemma RowColumn(r: int, c: int)
    requires 0 <= c < 7
    ensures (7 * r + c) / 7 == r && (7 * r + c) % 7 == c
  {
  }

  /** Reading a seven-column grid row-major puts cell (r, c) at position 7r + c. */
  lemma {:induction false} FlattenWeeks<T>(rows: seq<seq<T>>)
    requires forall r :: 0 <= r < |rows| ==> |rows[r]| == 7
    ensures |Flatten(rows)| == 7 * |rows|
    ensures forall k :: 0 <= k < 7 * |rows| ==> Flatten(rows)[k] == rows[k / 7][k % 7]
  {
    if rows != [] {
      FlattenWeeks(rows[1..]);
      var f := Flatten(rows);
      forall k | 0 <= k < 7 * |rows|
        ensures f[k] == rows[k / 7][k % 7]
      {
        if k >= 7 {
          assert f[k] == Flatten(rows[1..])[k - 7];
          assert (k - 7) / 7 == k / 7 - 1 && (k - 7) % 7 == k % 7;
        }
      }
    }
  }
}
