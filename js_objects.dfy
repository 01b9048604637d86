/**
 * JavaScript plain objects as the grid builds them: a `reduce` or `forEach` that assigns
 * `acc[key] = value` entry by entry. `Assign` keeps only the resulting key/value relation;
 * `Entries` also keeps the insertion order of the keys, which `JSON.stringify` exposes.
 */
module JsObjects {
  import opened Wrappers

  /** The object built by assigning each present `(key, value)` in order; absent entries are skipped. */
  function Assign<V>(entries: seq<Option<(string, V)>>): map<string, V>
  {
    if entries == [] then map[]
    else
      var m := Assign(entries[..|entries| - 1]);
      match entries[|entries| - 1]
      case None => m
      case Some(kv) => m[kv.0 := kv.1]
  }

  /** Assigning one more entry: a present entry sets its key, an absent one changes nothing. */
  lemma AssignStep<V>(entries: seq<Option<(string, V)>>, i: int)
    requires 0 <= i < |entries|
    ensures Assign(entries[..i + 1]) ==
      if entries[i].Some? then Assign(entries[..i])[entries[i].value.0 := entries[i].value.1] else Assign(entries[..i])
  {
    assert entries[..i + 1][..i] == entries[..i];
  }

  /** Every `(key, value)` as a present entry. */
  function AllSome<V>(kvs: seq<(string, V)>): (r: seq<Option<(string, V)>>)
    ensures |r| == |kvs| && forall i :: 0 <= i < |kvs| ==> r[i] == Some(kvs[i])
  {
    seq(|kvs|, i requires 0 <= i < |kvs| => Some(kvs[i]))
  }

  /** The object built by assigning every `(key, value)` in order. */
  function AssignAll<V>(kvs: seq<(string, V)>): map<string, V> {
    Assign(AllSome(kvs))
  }

  /** The key assigned by entry `i`, when that entry is present. */
  predicate AssignsKey<V>(entries: seq<Option<(string, V)>>, i: int, k: string) {
    0 <= i < |entries| && entries[i].Some? && entries[i].value.0 == k
  }

  /** A key is in the object exactly when some present entry assigns it. */
  lemma {:induction false} AssignKeys<V>(entries: seq<Option<(string, V)>>, k: string)
    ensures k in Assign(entries) <==> exists i :: AssignsKey(entries, i, k)
  {
    if entries != [] {
      var init := entries[..|entries| - 1];
      AssignKeys(init, k);
      if k in Assign(init) {
        var i :| AssignsKey(init, i, k);
        assert AssignsKey(entries, i, k);
      } else if k in Assign(entries) {
        assert AssignsKey(entries, |entries| - 1, k);
      }
      if i :| AssignsKey(entries, i, k) {
        if i < |init| {
          assert AssignsKey(init, i, k);
        } else {
          assert entries[|entries| - 1] == Some((k, entries[i].value.1));
        }
      }
    }
  }

  /** The last entry that assigns a key decides its value: later duplicates overwrite earlier ones. */
  lemma {:induction false} AssignLast<V>(entries: seq<Option<(string, V)>>, i: int)
    requires 0 <= i < |entries| && entries[i].Some?
    requires forall j :: i < j < |entries| ==> !AssignsKey(entries, j, entries[i].value.0)
    ensures entries[i].value.0 in Assign(entries)
    ensures Assign(entries)[entries[i].value.0] == entries[i].value.1
  {
    var init := entries[..|entries| - 1];
    if i < |entries| - 1 {
      forall j | i < j < |init| ensures !AssignsKey(init, j, entries[i].value.0) {
        assert !AssignsKey(entries, j, entries[i].value.0);
      }
      AssignLast(init, i);
      assert !AssignsKey(entries, |entries| - 1, entries[i].value.0);
    }
  }

  /** Dropping the absent entries changes nothing: a skipped entry does not affect its siblings. */
  function Present<V>(entries: seq<Option<(string, V)>>): (r: seq<Option<(string, V)>>)
    ensures forall j :: 0 <= j < |r| ==> r[j].Some?
  {
    if entries == [] then []
    else
      var init := Present(entries[..|entries| - 1]);
      if entries[|entries| - 1].Some? then init + [entries[|entries| - 1]] else init
  }

  lemma {:induction false} AssignPresent<V>(entries: seq<Option<(string, V)>>)
    ensures Assign(Present(entries)) == Assign(entries)
  {
    if entries != [] {
      var init := entries[..|entries| - 1];
      AssignPresent(init);
      if entries[|entries| - 1].Some? {
        var p := Present(init) + [entries[|entries| - 1]];
        assert p[..|p| - 1] == Present(init);
      }
    }
  }

  /** An object with ordered keys, as `JSON.stringify` sees it. */
  type Entries<V> = seq<(string, V)>

  /** The keys in insertion order (`Object.keys`). */
  function Keys<V>(e: Entries<V>): (ks: seq<string>)
    ensures |ks| == |e| && forall i :: 0 <= i < |e| ==> ks[i] == e[i].0
  {
    if e == [] then [] else [e[0].0] + Keys(e[1..])
  }

  predicate Distinct(ks: seq<string>) {
    forall i, j :: 0 <= i < j < |ks| ==> ks[i] != ks[j]
  }

  /** No key occurs twice, as in every JavaScript object. */
  predicate UniqueKeys<V>(e: Entries<V>) {
    Distinct(Keys(e))
  }

  /** `obj[k]`, `None` for a missing property. */
  function Get<V>(e: Entries<V>, k: string): (r: Option<V>)
    ensures r.None? <==> k !in Keys(e)
    ensures r.Some? ==> exists i :: 0 <= i < |e| && e[i] == (k, r.value)
  {
    if e == [] then None
    else if e[0].0 == k then Some(e[0].1)
    else
      var r := Get(e[1..], k);
      assert r.Some? ==> exists i :: 0 <= i < |e[1..]| && e[1..][i] == (k, r.value);
      r
  }

  /** `obj[k] = v`: an existing key keeps its position and takes the new value; a new key goes last. */
  function Put<V>(e: Entries<V>, k: string, v: V): (r: Entries<V>)
    ensures Keys(r) == if k in Keys(e) then Keys(e) else Keys(e) + [k]
  {
    if e == [] then [(k, v)]
    else if e[0].0 == k then [(k, v)] + e[1..]
    else
      var r := [e[0]] + Put(e[1..], k, v);
      assert Keys(r) == [e[0].0] + Keys(Put(e[1..], k, v));
      assert Keys(e) == [e[0].0] + Keys(e[1..]);
      r
  }

  /** After `obj[k] = v`, reading `k` gives `v`; every other property reads as before. */
  lemma {:induction false} GetPut<V>(e: Entries<V>, k: string, v: V, k': string)
    ensures Get(Put(e, k, v), k') == if k' == k then Some(v) else Get(e, k')
  {
    if e != [] && e[0].0 != k {
      GetPut(e[1..], k, v, k');
      assert ([e[0]] + Put(e[1..], k, v))[1..] == Put(e[1..], k, v);
    }
  }

  /** Assigning a property keeps the keys distinct. */
  lemma PutUnique<V>(e: Entries<V>, k: string, v: V)
    requires UniqueKeys(e)
    ensures UniqueKeys(Put(e, k, v))
  {
    var ks := Keys(e);
    if k !in ks {
      var ks' := ks + [k];
      forall i, j | 0 <= i < j < |ks'| ensures ks'[i] != ks'[j] {
        if j == |ks| { assert ks'[i] == ks[i]; }
      }
    }
  }
}
