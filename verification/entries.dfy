/** A plain JavaScript object as the ordered list of its own properties, in
    the order `Object.entries` reports them. Assigning to a property that
    already exists changes its value in place; a new property goes last. */
module Entries {
  import opened Wrappers
  import opened Values

  type Entries = seq<(string, Value)>

  /** `obj[k]` for an own property, `None` when `k` is not a property. */
  function Lookup(es: Entries, k: string): Option<Value> {
    if |es| == 0 then None
    else if es[0].0 == k then Some(es[0].1)
    else Lookup(es[1..], k)
  }

  /** The property names. */
  function KeysOf(es: Entries): set<string> {
    if |es| == 0 then {} else {es[0].0} + KeysOf(es[1..])
  }

  /** Every property name occurs once, as in any JavaScript object. */
  predicate UniqueKeys(es: Entries) {
    |es| == 0 || (es[0].0 !in KeysOf(es[1..]) && UniqueKeys(es[1..]))
  }

  /** A key has a value exactly when it is a property name. */
  lemma {:induction false} LookupKeys(es: Entries, k: string)
    ensures Lookup(es, k).Some? <==> k in KeysOf(es)
  {
    if |es| > 0 {
      LookupKeys(es[1..], k);
    }
  }

  /** A name is a property exactly when some entry carries it. */
  lemma {:induction false} KeysOfMembers(es: Entries, k: string)
    ensures k in KeysOf(es) <==> exists i :: 0 <= i < |es| && es[i].0 == k
  {
    if |es| > 0 {
      KeysOfMembers(es[1..], k);
      assert forall i :: 0 < i < |es| ==> es[1..][i - 1] == es[i];
      if k in KeysOf(es[1..]) {
        var j :| 0 <= j < |es[1..]| && es[1..][j].0 == k;
        assert es[j + 1].0 == k;
      }
    }
  }

  /** `obj[k] = v`: afterwards `k` maps to `v`, every other key keeps its
      value, the property order is kept, and a new key is appended last. */
  function Put(es: Entries, k: string, v: Value): (r: Entries)
    ensures Lookup(r, k) == Some(v)
    ensures forall k' :: k' != k ==> Lookup(r, k') == Lookup(es, k')
    ensures KeysOf(r) == KeysOf(es) + {k}
    ensures k in KeysOf(es) ==> |r| == |es| && forall i :: 0 <= i < |es| ==> r[i].0 == es[i].0
    ensures k !in KeysOf(es) ==> r == es + [(k, v)]
    ensures UniqueKeys(es) ==> UniqueKeys(r)
  {
    if |es| == 0 then [(k, v)]
    else if es[0].0 == k then
      var r := [(k, v)] + es[1..];
      assert r[1..] == es[1..];
      r
    else
      var tail := Put(es[1..], k, v);
      var r := [es[0]] + tail;
      assert r[1..] == tail;
      assert es == [es[0]] + es[1..];
      r
  }
}
