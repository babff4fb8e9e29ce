/** Python dictionaries with string keys. A dict is its list of items in
    insertion order, which is the order Python iterates them in; assignment to
    an existing key keeps that key's position. */
module Dicts {
  import opened Wrappers

  type Dict<V> = seq<(string, V)>

  function Keys<V>(d: Dict<V>): (ks: seq<string>)
    ensures |ks| == |d|
    ensures forall i :: 0 <= i < |d| ==> ks[i] == d[i].0
  {
    seq(|d|, i requires 0 <= i < |d| => d[i].0)
  }

  function Values<V>(d: Dict<V>): (vs: seq<V>)
    ensures |vs| == |d|
    ensures forall i :: 0 <= i < |d| ==> vs[i] == d[i].1
  {
    seq(|d|, i requires 0 <= i < |d| => d[i].1)
  }

  /** No key occurs twice, as in every Python dict. */
  predicate Wf<V>(d: Dict<V>) {
    forall i, j :: 0 <= i < j < |d| ==> d[i].0 != d[j].0
  }

  /** Position of the last item whose key is `k`, or -1 when there is none. */
  function IndexOf<V>(d: Dict<V>, k: string): (i: int)
    ensures -1 <= i < |d|
    ensures 0 <= i ==> d[i].0 == k && forall j :: i < j < |d| ==> d[j].0 != k
    ensures i < 0 ==> forall j :: 0 <= j < |d| ==> d[j].0 != k
  {
    if |d| == 0 then -1
    else if d[|d| - 1].0 == k then |d| - 1
    else IndexOf(d[..|d| - 1], k)
  }

  /** Python's `k in d`. */
  predicate HasKey<V>(d: Dict<V>, k: string) {
    IndexOf(d, k) >= 0
  }

  /** Python's `d.get(k)`. Should a dict decoded from JSON repeat a key, the
      later item wins, as it does in Python's json module. */
  function Get<V>(d: Dict<V>, k: string): (r: Option<V>)
    ensures r.Some? <==> HasKey(d, k)
  {
    var i := IndexOf(d, k);
    if i < 0 then None else Some(d[i].1)
  }

  /** Python's `d.get(k, default)`. */
  function GetOr<V>(d: Dict<V>, k: string, default: V): V {
    Get(d, k).GetOr(default)
  }

  lemma HasKeyInKeys<V>(d: Dict<V>, k: string)
    ensures HasKey(d, k) <==> k in Keys(d)
  {
    if k in Keys(d) {
      var i :| 0 <= i < |d| && Keys(d)[i] == k;
      assert d[i].0 == k;
    }
  }

  lemma GetAt<V>(d: Dict<V>, i: int)
    requires Wf(d) && 0 <= i < |d|
    ensures Get(d, d[i].0) == Some(d[i].1)
  {
  }

  lemma GetSnoc<V>(d: Dict<V>, item: (string, V), k: string)
    ensures Get(d + [item], k) == if item.0 == k then Some(item.1) else Get(d, k)
  {
    assert (d + [item])[..|d|] == d;
  }

  /** Two dicts whose keys sit at the same positions find every key at the
      same position. */
  lemma IndexOfSameKeys<V>(d: Dict<V>, e: Dict<V>, k: string)
    requires |d| == |e|
    requires forall i :: 0 <= i < |d| ==> (d[i].0 == k <==> e[i].0 == k)
    ensures IndexOf(d, k) == IndexOf(e, k)
  {
  }

  lemma KeysSnoc<V>(d: Dict<V>, item: (string, V))
    ensures Keys(d + [item]) == Keys(d) + [item.0]
  {
  }

  /** Looking a key up in two dicts laid end to end finds it in the later
      one first. */
  lemma {:induction false} GetAppend<V>(d: Dict<V>, e: Dict<V>, k: string)
    ensures Get(d + e, k) == if HasKey(e, k) then Get(e, k) else Get(d, k)
    decreases |e|
  {
    if |e| == 0 {
      assert d + e == d;
    } else {
      var front := e[..|e| - 1];
      var item := e[|e| - 1];
      assert d + e == (d + front) + [item];
      assert e == front + [item];
      GetSnoc(d + front, item, k);
      GetSnoc(front, item, k);
      GetAppend(d, front, k);
    }
  }

  /** Python's `d[k] = v`: an existing key keeps its position and takes the
      new value, a new key is appended. */
  function Set<V>(d: Dict<V>, k: string, v: V): (r: Dict<V>)
    ensures Wf(d) ==> Wf(r)
    ensures Get(r, k) == Some(v)
    ensures forall j :: j != k ==> Get(r, j) == Get(d, j)
    ensures HasKey(d, k) ==> Keys(r) == Keys(d)
    ensures !HasKey(d, k) ==> Keys(r) == Keys(d) + [k]
  {
    if HasKey(d, k) then
      var r := seq(|d|, i requires 0 <= i < |d| => if d[i].0 == k then (k, v) else d[i]);
      assert forall j :: IndexOf(r, j) == IndexOf(d, j) by {
        forall j {
          IndexOfSameKeys(r, d, j);
        }
      }
      r
    else
      var r := d + [(k, v)];
      assert forall j :: j != k ==> Get(r, j) == Get(d, j) by {
        forall j | j != k {
          GetSnoc(d, (k, v), j);
        }
      }
      KeysSnoc(d, (k, v));
      r
  }

  /** One step of `Update`: what storing the last item of `e` does. */
  lemma UpdateStep<V>(d: Dict<V>, front: Dict<V>, item: (string, V), r0: Dict<V>, r: Dict<V>)
    requires forall k :: Get(r0, k) == if HasKey(front, k) then Get(front, k) else Get(d, k)
    requires r == Set(r0, item.0, item.1)
    ensures forall k :: Get(r, k) == if HasKey(front + [item], k) then Get(front + [item], k) else Get(d, k)
  {
    forall k
      ensures Get(r, k) == if HasKey(front + [item], k) then Get(front + [item], k) else Get(d, k)
    {
      GetSnoc(front, item, k);
    }
  }

  /** Python's `d.update(e)`: every item of `e`, in order, stored with `Set`. */
  function Update<V>(d: Dict<V>, e: Dict<V>): (r: Dict<V>)
    ensures Wf(d) ==> Wf(r)
    ensures forall k :: Get(r, k) == if HasKey(e, k) then Get(e, k) else Get(d, k)
    ensures Keys(d) <= Keys(r)
    ensures forall k :: k in Keys(r) ==> k in Keys(d) || k in Keys(e)
    decreases |e|
  {
    if |e| == 0 then d
    else
      var front := e[..|e| - 1];
      var item := e[|e| - 1];
      assert e == front + [item];
      var r0 := Update(d, front);
      var r := Set(r0, item.0, item.1);
      UpdateStep(d, front, item, r0, r);
      KeysSnoc(front, item);
      r
  }

  /** Storing keys none of which is present yet just appends them. */
  lemma {:induction false} UpdateFresh<V>(d: Dict<V>, e: Dict<V>)
    requires Wf(d + e)
    ensures Update(d, e) == d + e
    decreases |e|
  {
    if |e| > 0 {
      var front := e[..|e| - 1];
      var item := e[|e| - 1];
      assert d + e == (d + front) + [item];
      assert Wf(d + front) by {
        assert forall i :: 0 <= i < |d + front| ==> (d + front)[i] == (d + e)[i];
      }
      UpdateFresh(d, front);
      forall j | 0 <= j < |d + front|
        ensures (d + front)[j].0 != item.0
      {
        assert (d + front)[j] == (d + e)[j] && item == (d + e)[|d + e| - 1];
      }
    }
  }

  /** The keys of a dict filled by assigning `keys` in order: each key once,
      in order of first appearance. */
  function FirstSeen(keys: seq<string>): (r: seq<string>)
    ensures forall k :: k in r <==> k in keys
    decreases |keys|
  {
    if keys == [] then []
    else
      var front := FirstSeen(keys[..|keys| - 1]);
      assert keys == keys[..|keys| - 1] + [keys[|keys| - 1]];
      if keys[|keys| - 1] in front then front else front + [keys[|keys| - 1]]
  }

  /** One more key is listed once, at the end, unless it was seen before. */
  lemma FirstSeenSnoc(keys: seq<string>, k: string)
    ensures FirstSeen(keys + [k]) == if k in FirstSeen(keys) then FirstSeen(keys) else FirstSeen(keys) + [k]
  {
    var s := keys + [k];
    assert s[..|s| - 1] == keys && s[|s| - 1] == k;
  }

  /** A non-empty sequence is its front followed by its last element. */
  lemma SplitLast<T>(s: seq<T>)
    requires s != []
    ensures s == s[..|s| - 1] + [s[|s| - 1]]
  {
  }

  /** In a well-formed dict each item is where its key is found. */
  lemma IndexOfAt<V>(d: Dict<V>, i: int)
    requires Wf(d) && 0 <= i < |d|
    ensures IndexOf(d, d[i].0) == i
  {
  }

  /** Appending a new key leaves every other key where it was. */
  lemma IndexOfAppended<V>(d: Dict<V>, e: Dict<V>, k: string, j: string)
    requires Keys(e) == Keys(d) + [k]
    ensures IndexOf(e, j) == if j == k then |d| else IndexOf(d, j)
  {
    if j != k {
      assert e[|e| - 1].0 == k;
      IndexOfSameKeys(e[..|e| - 1], d, j);
    }
  }

  /** Python's `dict(items)`: a fresh dict filled from `items` in order. */
  function FromItems<V>(items: Dict<V>): (r: Dict<V>)
    ensures Wf(r)
    ensures forall k :: Get(r, k) == Get(items, k)
    ensures forall k :: k in Keys(r) ==> k in Keys(items)
    ensures r == [] <==> items == []
  {
    assert items != [] ==> HasKey(items, items[|items| - 1].0);
    Update([], items)
  }
}
