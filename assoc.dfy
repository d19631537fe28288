/**
 * A JavaScript object used as a dictionary with string keys, as the tracking
 * store uses it at every level: an ordered list of (key, value) pairs, in the
 * order `for ... in` visits them. Assigning `obj[k] = v` replaces the value in
 * place when `k` is already a key and appends the pair otherwise.
 */
module Assoc {
  import opened Wrappers

  type Assoc<V> = seq<(string, V)>

  function Keys<V>(m: Assoc<V>): (ks: seq<string>)
    ensures |ks| == |m|
    ensures forall i :: 0 <= i < |m| ==> ks[i] == m[i].0
  {
    seq(|m|, i requires 0 <= i < |m| => m[i].0)
  }

  /** No key occurs twice: what every JavaScript object guarantees. */
  predicate UniqueKeys<V>(m: Assoc<V>) {
    forall i, j :: 0 <= i < j < |m| ==> m[i].0 != m[j].0
  }

  predicate HasKey<V>(m: Assoc<V>, k: string) {
    exists i :: 0 <= i < |m| && m[i].0 == k
  }

  /** Position of the first pair with key `k`. */
  function IndexOf<V>(m: Assoc<V>, k: string): (r: Option<nat>)
    ensures r.Some? ==> r.value < |m| && m[r.value].0 == k
    ensures r.Some? ==> forall j :: 0 <= j < r.value ==> m[j].0 != k
    ensures r.None? <==> !HasKey(m, k)
  {
    if |m| == 0 then None
    else if m[0].0 == k then Some(0)
    else match IndexOf(m[1..], k)
      case None => (assert forall j :: 1 <= j < |m| ==> m[j] == m[1..][j - 1]; None)
      case Some(j) => Some(j + 1)
  }

  /** `obj[k]`, absent as None. */
  function Get<V>(m: Assoc<V>, k: string): (r: Option<V>)
    ensures r.None? <==> !HasKey(m, k)
  {
    match IndexOf(m, k)
    case None => None
    case Some(i) => Some(m[i].1)
  }

  /** `obj[k] = v`. */
  function Put<V>(m: Assoc<V>, k: string, v: V): (r: Assoc<V>)
    ensures HasKey(m, k) ==> |r| == |m|
    ensures !HasKey(m, k) ==> r == m + [(k, v)]
  {
    match IndexOf(m, k)
    case None => m + [(k, v)]
    case Some(i) => m[i := (k, v)]
  }

  /** The first position holding `k` is `i`. */
  lemma IndexOfIs<V>(m: Assoc<V>, k: string, i: nat)
    requires i < |m| && m[i].0 == k
    requires forall j :: 0 <= j < i ==> m[j].0 != k
    ensures IndexOf(m, k) == Some(i)
  {
  }

  lemma IndexOfUnique<V>(m: Assoc<V>, i: nat)
    requires UniqueKeys(m) && i < |m|
    ensures IndexOf(m, m[i].0) == Some(i)
  {
  }

  /** Reading back a key just written gives the written value. */
  lemma PutGetSame<V>(m: Assoc<V>, k: string, v: V)
    ensures Get(Put(m, k, v), k) == Some(v)
  {
    match IndexOf(m, k)
    case None =>
      var r := m + [(k, v)];
      assert r[|m|].0 == k;
      assert forall j :: 0 <= j < |m| ==> r[j] == m[j];
    case Some(i) =>
  }

  /** Writing one key leaves every other key's value as it was. */
  lemma PutGetOther<V>(m: Assoc<V>, k: string, v: V, k': string)
    requires k' != k
    ensures Get(Put(m, k, v), k') == Get(m, k')
  {
    var r := Put(m, k, v);
    match IndexOf(m, k')
    case None =>
      assert forall j :: 0 <= j < |m| ==> r[j].0 == m[j].0;
    case Some(i) =>
      assert r[i].0 == k';
      assert forall j :: 0 <= j < i ==> r[j].0 == m[j].0;
      assert IndexOf(r, k') == Some(i);
  }

  /** Assignment keeps keys unique and never reorders existing keys. */
  lemma PutKeys<V>(m: Assoc<V>, k: string, v: V)
    requires UniqueKeys(m)
    ensures UniqueKeys(Put(m, k, v))
    ensures Keys(Put(m, k, v)) == if HasKey(m, k) then Keys(m) else Keys(m) + [k]
  {
    var r := Put(m, k, v);
    if HasKey(m, k) {
      assert Keys(r) == Keys(m);
    } else {
      assert Keys(r) == Keys(m) + [k];
    }
  }

  /** Two lists with the same keys in the same order find every key at the same position. */
  lemma IndexOfSameKeys<V, W>(a: Assoc<V>, b: Assoc<W>, k: string)
    requires |a| == |b| && forall i :: 0 <= i < |a| ==> a[i].0 == b[i].0
    ensures IndexOf(a, k) == IndexOf(b, k)
  {
    match IndexOf(a, k)
    case None =>
      assert forall i :: 0 <= i < |b| ==> b[i].0 == a[i].0;
    case Some(i) =>
      IndexOfIs(b, k, i);
  }

  /** Every pair after `obj[k] = v` is the new pair or the pair that was at that position. */
  lemma PutPairs<V>(m: Assoc<V>, k: string, v: V)
    ensures forall j :: 0 <= j < |Put(m, k, v)| ==> Put(m, k, v)[j] == (k, v) || (j < |m| && Put(m, k, v)[j] == m[j])
  {
  }
}
