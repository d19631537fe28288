/**
 * `entries.sort((a, b) => b[1] - a[1])`: the stable sort by descending
 * value that both the reports page and the popup apply to (key, value)
 * entries. Equal values keep their input order, as the stable
 * `Array.prototype.sort` keeps them.
 */
module Ranking {
  import opened Assoc

  /** Values never increase from one entry to the next. */
  predicate Descending(s: seq<(string, int)>) {
    forall i, j :: 0 <= i < j < |s| ==> s[i].1 >= s[j].1
  }

  /** Put `x` before the first entry whose value it reaches, so it stays ahead of its ties. */
  function Insert(x: (string, int), s: seq<(string, int)>): (r: seq<(string, int)>)
    ensures |r| == |s| + 1
  {
    if |s| == 0 || x.1 >= s[0].1 then [x] + s
    else [s[0]] + Insert(x, s[1..])
  }

  /** Insertion sort from the back: each entry is inserted ahead of its ties among the later ones. */
  function SortByValueDesc(s: seq<(string, int)>): (r: seq<(string, int)>)
    ensures |r| == |s|
  {
    if |s| == 0 then [] else Insert(s[0], SortByValueDesc(s[1..]))
  }

  lemma {:induction false} InsertPermutes(x: (string, int), s: seq<(string, int)>)
    ensures multiset(Insert(x, s)) == multiset(s) + multiset{x}
  {
    if |s| > 0 && x.1 < s[0].1 {
      InsertPermutes(x, s[1..]);
      assert s == [s[0]] + s[1..];
    }
  }

  lemma {:induction false} InsertDescending(x: (string, int), s: seq<(string, int)>)
    requires Descending(s)
    ensures Descending(Insert(x, s))
  {
    if |s| > 0 && x.1 < s[0].1 {
      InsertDescending(x, s[1..]);
      InsertBelowHead(x, s);
      ConsDescending(s[0], Insert(x, s[1..]));
    }
  }

  /** Inserting a smaller value behind the head keeps every later value at most the head's. */
  lemma InsertBelowHead(x: (string, int), s: seq<(string, int)>)
    requires Descending(s) && |s| > 0 && x.1 < s[0].1
    ensures forall k :: 0 <= k < |Insert(x, s[1..])| ==> s[0].1 >= Insert(x, s[1..])[k].1
  {
    var rest := Insert(x, s[1..]);
    InsertPermutes(x, s[1..]);
    forall k | 0 <= k < |rest| ensures s[0].1 >= rest[k].1 {
      assert rest[k] in multiset(rest);
      if rest[k] != x {
        assert rest[k] in multiset(s[1..]);
        var m :| 0 <= m < |s[1..]| && s[1..][m] == rest[k];
        assert s[m + 1] == rest[k];
      }
    }
  }

  /** A head at least every later value, ahead of a descending tail, is descending. */
  lemma ConsDescending(h: (string, int), t: seq<(string, int)>)
    requires Descending(t) && forall k :: 0 <= k < |t| ==> h.1 >= t[k].1
    ensures Descending([h] + t)
  {
    var r := [h] + t;
    forall i, j | 0 <= i < j < |r| ensures r[i].1 >= r[j].1 {
      if i > 0 {
        assert r[i] == t[i - 1] && r[j] == t[j - 1];
      } else {
        assert r[j] == t[j - 1];
      }
    }
  }

  /** The sort is a permutation of its input, in descending order of value. */
  lemma {:induction false} SortIsDescendingPermutation(s: seq<(string, int)>)
    ensures multiset(SortByValueDesc(s)) == multiset(s)
    ensures Descending(SortByValueDesc(s))
  {
    if |s| > 0 {
      SortIsDescendingPermutation(s[1..]);
      InsertPermutes(s[0], SortByValueDesc(s[1..]));
      InsertDescending(s[0], SortByValueDesc(s[1..]));
      assert s == [s[0]] + s[1..];
    }
  }

  lemma {:induction false} InsertKeys(x: (string, int), s: seq<(string, int)>)
    ensures multiset(Keys(Insert(x, s))) == multiset(Keys(s)) + multiset{x.0}
  {
    if |s| == 0 || x.1 >= s[0].1 {
      assert Keys([x] + s) == [x.0] + Keys(s);
    } else {
      InsertKeys(x, s[1..]);
      assert Keys([s[0]] + Insert(x, s[1..])) == [s[0].0] + Keys(Insert(x, s[1..]));
      assert Keys(s) == [s[0].0] + Keys(s[1..]);
    }
  }

  /** The sorted entries carry the same keys, each as often as before. */
  lemma {:induction false} SortKeepsKeys(s: seq<(string, int)>)
    ensures multiset(Keys(SortByValueDesc(s))) == multiset(Keys(s))
  {
    if |s| > 0 {
      SortKeepsKeys(s[1..]);
      InsertKeys(s[0], SortByValueDesc(s[1..]));
      assert Keys(s) == [s[0].0] + Keys(s[1..]);
    }
  }

  /** The first sorted entry carries the largest value of the input. */
  lemma SortedHeadIsMax(s: seq<(string, int)>, e: (string, int))
    requires e in s
    ensures |SortByValueDesc(s)| > 0
    ensures SortByValueDesc(s)[0].1 >= e.1
  {
    var r := SortByValueDesc(s);
    SortIsDescendingPermutation(s);
    assert e in multiset(s);
    assert e in multiset(r);
    var k :| 0 <= k < |r| && r[k] == e;
    assert k == 0 || r[0].1 >= r[k].1;
  }

  /**
   * The first n entries of a descending permutation of s are a
   * sub-multiset of s, and each entry of s they leave out is at most the
   * last one they hold.
   */
  lemma PrefixHoldsLargest(sorted: seq<(string, int)>, s: seq<(string, int)>, n: nat)
    requires multiset(sorted) == multiset(s) && Descending(sorted) && n <= |sorted|
    ensures multiset(sorted[..n]) <= multiset(s)
    ensures n > 0 ==> forall e :: e in multiset(s) - multiset(sorted[..n]) ==> e.1 <= sorted[n - 1].1
  {
    assert sorted == sorted[..n] + sorted[n..];
    assert multiset(s) - multiset(sorted[..n]) == multiset(sorted[n..]);
    if n > 0 {
      forall e | e in multiset(s) - multiset(sorted[..n]) ensures e.1 <= sorted[n - 1].1 {
        assert e in sorted[n..];
        var k :| 0 <= k < |sorted| - n && sorted[n..][k] == e;
        assert sorted[n + k] == e;
      }
    }
  }

  /** The sum of the values, from the first entry on (the left fold of `reduce`). */
  function SumValues(s: seq<(string, int)>): int {
    if |s| == 0 then 0 else SumValues(s[..|s| - 1]) + s[|s| - 1].1
  }
}
