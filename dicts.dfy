/** Python dicts with string keys, as the scraper and the database writer
    use them: entries kept in insertion order, each key once. `Put` is
    `d[k] = v`; `Mapping` is a dict object that several names share and
    that a callee updates in place. */
module Dicts {
  import opened Wrappers

  type Entries<V> = seq<(string, V)>

  predicate DistinctKeys<V>(d: Entries<V>) {
    forall i, j :: 0 <= i < j < |d| ==> d[i].0 != d[j].0
  }

  function Keys<V>(d: Entries<V>): set<string> {
    set i | 0 <= i < |d| :: d[i].0
  }

  /** The keys in insertion order. */
  function KeyList<V>(d: Entries<V>): (r: seq<string>)
    ensures |r| == |d| && forall i :: 0 <= i < |d| ==> r[i] == d[i].0
  {
    seq(|d|, i requires 0 <= i < |d| => d[i].0)
  }

  /** Dicts with the same keys in the same order have the same key set,
      and one has distinct keys exactly when the other does. */
  lemma SameKeyList<V, W>(a: Entries<V>, b: Entries<W>)
    requires KeyList(a) == KeyList(b)
    ensures Keys(a) == Keys(b)
    ensures DistinctKeys(a) <==> DistinctKeys(b)
  {
    assert forall i :: 0 <= i < |a| ==> a[i].0 == KeyList(a)[i] == b[i].0;
  }

  /** Position of `k` in `d` (its first, and with distinct keys only,
      occurrence). */
  function KeyIndex<V>(d: Entries<V>, k: string): (r: Option<nat>)
    ensures r.None? <==> k !in Keys(d)
    ensures r.Some? ==> r.value < |d| && d[r.value].0 == k
    ensures r.Some? ==> forall j :: 0 <= j < r.value ==> d[j].0 != k
  {
    if d == [] then None
    else if d[0].0 == k then Some(0)
    else
      assert Keys(d) == {d[0].0} + Keys(d[1..]) by {
        assert forall i :: 1 <= i < |d| ==> d[i].0 == d[1..][i - 1].0;
      }
      match KeyIndex(d[1..], k)
      case None => None
      case Some(i) => Some(i + 1)
  }

  /** `d.get(k)`: the value stored under `k`, None when `k` is absent. */
  function Get<V>(d: Entries<V>, k: string): (r: Option<V>)
    ensures r.None? <==> k !in Keys(d)
    ensures DistinctKeys(d) ==> forall i :: 0 <= i < |d| && d[i].0 == k ==> r == Some(d[i].1)
  {
    match KeyIndex(d, k)
    case None => None
    case Some(i) => Some(d[i].1)
  }

  /** `d[k] = v`: an existing key keeps its place and takes the new value;
      a new key goes at the end. */
  function Put<V>(d: Entries<V>, k: string, v: V): (r: Entries<V>)
    ensures k !in Keys(d) ==> r == d + [(k, v)]
    ensures k in Keys(d) ==> |r| == |d| && KeyList(r) == KeyList(d)
    ensures forall i :: 0 <= i < |d| && d[i].0 != k ==> r[i] == d[i]
  {
    match KeyIndex(d, k)
    case None => d + [(k, v)]
    case Some(i) =>
      var r := d[i := (k, v)];
      assert KeyList(r) == KeyList(d);
      r
  }

  /** After `d[k] = v` on a dict, `k` holds `v`, the other keys hold what
      they held, and the key set grows by `k` alone. */
  lemma PutFacts<V>(d: Entries<V>, k: string, v: V)
    requires DistinctKeys(d)
    ensures var r := Put(d, k, v);
            && DistinctKeys(r)
            && Keys(r) == Keys(d) + {k}
            && Get(r, k) == Some(v)
            && forall k' :: k' != k ==> Get(r, k') == Get(d, k')
  {
    var r := Put(d, k, v);
    if k in Keys(d) {
      var i := KeyIndex(d, k).value;
      assert r == d[i := (k, v)];
      assert forall j :: 0 <= j < |d| ==> r[j].0 == d[j].0;
      assert Keys(r) == Keys(d);
      assert r[i] == (k, v);
    } else {
      assert forall j :: 0 <= j < |d| ==> r[j] == d[j];
      assert r[|d|] == (k, v);
      assert Keys(r) == Keys(d) + {k};
    }
  }

  /** The dict a loop of `d[k] = v` over `ps` builds from `{}`. */
  function FromPairs<V>(ps: seq<(string, V)>): Entries<V>
  {
    if ps == [] then []
    else Put(FromPairs(ps[..|ps| - 1]), ps[|ps| - 1].0, ps[|ps| - 1].1)
  }

  lemma KeysOfAppend<V>(ps: seq<(string, V)>, p: (string, V))
    ensures Keys(ps + [p]) == Keys(ps) + {p.0}
  {
    var qs := ps + [p];
    assert forall i :: 0 <= i < |ps| ==> qs[i] == ps[i];
    assert qs[|ps|] == p;
  }

  /** Building a dict from pairs gives each key once, and exactly the keys
      of the pairs. */
  lemma {:induction false} FromPairsKeys<V>(ps: seq<(string, V)>)
    ensures DistinctKeys(FromPairs(ps))
    ensures Keys(FromPairs(ps)) == Keys(ps)
  {
    if ps != [] {
      var init, last := ps[..|ps| - 1], ps[|ps| - 1];
      FromPairsKeys(init);
      PutFacts(FromPairs(init), last.0, last.1);
      assert ps == init + [last];
      KeysOfAppend(init, last);
    }
  }

  /** Under each key the built dict holds the value of that key's last
      pair. */
  lemma {:induction false} FromPairsLast<V>(ps: seq<(string, V)>, i: nat)
    requires i < |ps| && forall j :: i < j < |ps| ==> ps[j].0 != ps[i].0
    ensures Get(FromPairs(ps), ps[i].0) == Some(ps[i].1)
  {
    var init, last := ps[..|ps| - 1], ps[|ps| - 1];
    FromPairsKeys(init);
    PutFacts(FromPairs(init), last.0, last.1);
    if i < |init| {
      assert init[i] == ps[i];
      assert forall j :: i < j < |init| ==> init[j] == ps[j];
      FromPairsLast(init, i);
    }
  }

  /** `d[k] = v` on a key `d` already holds rewrites that entry where it
      stands. */
  lemma PutExisting<V>(d: Entries<V>, i: nat, v: V)
    requires DistinctKeys(d) && i < |d|
    ensures Put(d, d[i].0, v) == d[i := (d[i].0, v)]
  {
    var k := d[i].0;
    assert k in Keys(d);
    var j := KeyIndex(d, k).value;
    assert j == i;
  }

  /** The same keys in the same order, each value passed through `f`. */
  function MapValues<V, W>(d: Entries<V>, f: V -> W): (r: Entries<W>)
    ensures |r| == |d| && forall i :: 0 <= i < |d| ==> r[i] == (d[i].0, f(d[i].1))
  {
    seq(|d|, i requires 0 <= i < |d| => (d[i].0, f(d[i].1)))
  }

  /** Storing a value and then mapping is mapping and then storing the
      mapped value. */
  lemma PutMapValues<V, W>(d: Entries<V>, k: string, v: V, f: V -> W)
    ensures MapValues(Put(d, k, v), f) == Put(MapValues(d, f), k, f(v))
  {
    var m := MapValues(d, f);
    assert Keys(m) == Keys(d) by {
      assert forall i :: 0 <= i < |d| ==> m[i].0 == d[i].0;
    }
    match KeyIndex(d, k)
    case None =>
    case Some(i) =>
      var j := KeyIndex(m, k).value;
      assert j == i by {
        assert m[j].0 == d[j].0 && m[i].0 == d[i].0;
      }
  }

  /** A dict object: callers that hold the same object see each other's
      updates. */
  class Mapping<V> {
    var entries: Entries<V>

    ghost predicate Valid()
      reads this
    {
      DistinctKeys(entries)
    }

    constructor (entries: Entries<V>)
      requires DistinctKeys(entries)
      ensures Valid() && this.entries == entries
    {
      this.entries := entries;
    }

    /** `k in d`. */
    function Has(k: string): (b: bool)
      reads this
      ensures b <==> k in Keys(entries)
    {
      Get(entries, k).Some?
    }

    /** `d[k] = v`, in place. */
    method Set(k: string, v: V)
      requires Valid()
      modifies this
      ensures Valid()
      ensures entries == Put(old(entries), k, v)
    {
      PutFacts(entries, k, v);
      entries := Put(entries, k, v);
    }
  }
}
