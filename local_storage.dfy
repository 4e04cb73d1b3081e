/**
 * The browser's local storage as the client's maintenance helpers see it:
 * an ordered list of keys and a value for each. `ClearAllData` removes
 * every key except the theme and settings; `GetStorageStats` sums the
 * characters stored.
 */
module LocalStorage {

  /** The keys a reset keeps. */
  predicate IsKept(key: string) {
    key == "noteflow-theme" || key == "noteflow-settings"
  }

  /** The budget the statistics assume: ten mebibytes. */
  const Quota: int := 10 * 1024 * 1024

  /** The entries a reset leaves: the kept keys that are present, with their values. */
  function Kept(values: map<string, string>): (r: map<string, string>)
    ensures forall k :: k in r <==> k in values && IsKept(k)
    ensures forall k :: k in r ==> r[k] == values[k]
  {
    map k | k in values && IsKept(k) :: values[k]
  }

  /** The kept keys of `keys`, in their order. */
  function KeepOnly(keys: seq<string>): (r: seq<string>)
    ensures |r| <= |keys|
  {
    if keys == [] then []
    else KeepOnly(keys[..|keys| - 1]) + (if IsKept(keys[|keys| - 1]) then [keys[|keys| - 1]] else [])
  }

  /** The keys a reset keeps are exactly the kept ones of the list. */
  lemma {:induction false} KeepOnlyMembers(keys: seq<string>)
    ensures forall k :: k in KeepOnly(keys) <==> k in keys && IsKept(k)
  {
    if keys != [] {
      var init := keys[..|keys| - 1];
      KeepOnlyMembers(init);
      assert keys == init + [keys[|keys| - 1]];
    }
  }

  /** `keys` without `key`. */
  function Drop(keys: seq<string>, key: string): seq<string> {
    if keys == [] then []
    else (if keys[0] == key then [] else [keys[0]]) + Drop(keys[1..], key)
  }

  /** No key occurs twice. */
  predicate Distinct(keys: seq<string>) {
    forall i, j :: 0 <= i < j < |keys| ==> keys[i] != keys[j]
  }

  /** Characters held by the entries `keys` name: each key's length plus its value's. */
  function Used(keys: seq<string>, values: map<string, string>): nat {
    if keys == [] then 0
    else
      var k := keys[|keys| - 1];
      Used(keys[..|keys| - 1], values) + (if k in values then |k| + |values[k]| else 0)
  }

  /** The keys left after dropping `key` are exactly the others. */
  lemma {:induction false} DropMembers(keys: seq<string>, key: string)
    ensures forall k :: k in Drop(keys, key) <==> k in keys && k != key
  {
    if keys != [] {
      DropMembers(keys[1..], key);
      assert keys == [keys[0]] + keys[1..];
    }
  }

  /** Dropping a key from a concatenation drops it from each part. */
  lemma {:induction false} DropAppend(a: seq<string>, b: seq<string>, key: string)
    ensures Drop(a + b, key) == Drop(a, key) + Drop(b, key)
  {
    if a != [] {
      assert (a + b)[1..] == a[1..] + b;
      DropAppend(a[1..], b, key);
    } else {
      assert a + b == b;
    }
  }

  /** Dropping a key the list does not hold changes nothing. */
  lemma {:induction false} DropAbsent(keys: seq<string>, key: string)
    requires key !in keys
    ensures Drop(keys, key) == keys
  {
    if keys != [] {
      assert keys == [keys[0]] + keys[1..];
      DropAbsent(keys[1..], key);
    }
  }

  /** Resetting twice keeps the same keys as resetting once. */
  lemma {:induction false} KeepOnlyIdempotent(keys: seq<string>)
    ensures KeepOnly(KeepOnly(keys)) == KeepOnly(keys)
  {
    if keys != [] {
      var init := keys[..|keys| - 1];
      var last := keys[|keys| - 1];
      KeepOnlyIdempotent(init);
      var r := KeepOnly(keys);
      if IsKept(last) {
        assert r == KeepOnly(init) + [last];
        assert r[..|r| - 1] == KeepOnly(init);
      } else {
        assert r == KeepOnly(init);
      }
    }
  }

  /** Resetting twice keeps the same entries as resetting once. */
  lemma KeptIdempotent(values: map<string, string>)
    ensures Kept(Kept(values)) == Kept(values)
  {
  }

  /** Only the kept keys' characters remain counted after a reset, and never more than before. */
  lemma {:induction false} UsedAfterReset(keys: seq<string>, values: map<string, string>)
    ensures Used(KeepOnly(keys), Kept(values)) <= Used(keys, values)
  {
    if keys != [] {
      var init := keys[..|keys| - 1];
      var last := keys[|keys| - 1];
      UsedAfterReset(init, values);
      UsedKeptPrefix(init, values);
      var r := KeepOnly(keys);
      if IsKept(last) {
        assert r[..|r| - 1] == KeepOnly(init);
      } else {
        assert r == KeepOnly(init);
      }
    }
  }

  /** Counting the kept entries over the kept keys is the same as over the full store. */
  lemma {:induction false} UsedKeptPrefix(keys: seq<string>, values: map<string, string>)
    ensures Used(KeepOnly(keys), Kept(values)) == Used(KeepOnly(keys), values)
  {
    if keys != [] {
      var init := keys[..|keys| - 1];
      var r := KeepOnly(keys);
      UsedKeptPrefix(init, values);
      if IsKept(keys[|keys| - 1]) {
        assert r[..|r| - 1] == KeepOnly(init);
      } else {
        assert r == KeepOnly(init);
      }
    }
  }

  /** Dropping a key that occurs once, between two lists without it, joins the two lists. */
  lemma DropBetween(a: seq<string>, key: string, b: seq<string>)
    requires key !in a && key !in b
    ensures Drop(a + ([key] + b), key) == a + b
  {
    var mid := [key] + b;
    assert Drop([key], key) == [];
    DropAppend([key], b, key);
    DropAbsent(b, key);
    assert Drop(mid, key) == b;
    DropAppend(a, mid, key);
    DropAbsent(a, key);
  }

  /** A reset step over a kept key leaves the list as it is. */
  lemma ResetStepKeeps(snapshot: seq<string>, i: int)
    requires 0 <= i < |snapshot| && IsKept(snapshot[i])
    ensures KeepOnly(snapshot[..i]) + snapshot[i..] == KeepOnly(snapshot[..i + 1]) + snapshot[i + 1..]
  {
    var key := snapshot[i];
    var done := KeepOnly(snapshot[..i]);
    var rest := snapshot[i + 1..];
    assert snapshot[..i + 1][..i] == snapshot[..i];
    assert snapshot[i..] == [key] + rest;
    assert KeepOnly(snapshot[..i + 1]) == done + [key];
    assert done + ([key] + rest) == (done + [key]) + rest;
  }

  /** A reset step over any other key drops it, and it occurs nowhere else in a list without repeats. */
  lemma ResetStepDrops(snapshot: seq<string>, i: int)
    requires Distinct(snapshot) && 0 <= i < |snapshot| && !IsKept(snapshot[i])
    ensures Drop(KeepOnly(snapshot[..i]) + snapshot[i..], snapshot[i]) == KeepOnly(snapshot[..i + 1]) + snapshot[i + 1..]
  {
    var key := snapshot[i];
    var done := KeepOnly(snapshot[..i]);
    var rest := snapshot[i + 1..];
    assert snapshot[..i + 1][..i] == snapshot[..i];
    assert snapshot[i..] == [key] + rest;
    assert KeepOnly(snapshot[..i + 1]) == done;
    KeepOnlyMembers(snapshot[..i]);
    assert key !in rest by {
      forall j | 0 <= j < |rest| ensures rest[j] != key {
        assert rest[j] == snapshot[i + 1 + j];
      }
    }
    DropBetween(done, key, rest);
  }

  /** A store whose keys are the kept ones of a reset, with unchanged values, holds the kept entries. */
  lemma ResetLeavesKept(keys0: seq<string>, values0: map<string, string>, values1: map<string, string>)
    requires forall k :: k in values0 <==> k in keys0
    requires forall k :: k in values1 <==> k in KeepOnly(keys0)
    requires forall k :: k in values1 ==> k in values0 && values1[k] == values0[k]
    ensures values1 == Kept(values0)
  {
    KeepOnlyMembers(keys0);
  }

  class LocalStore {
    var keys: seq<string>
    var values: map<string, string>

    /** Each stored key is listed exactly once. */
    ghost predicate Valid()
      reads this
    {
      Distinct(keys) && forall k :: k in values <==> k in keys
    }

    /** A store holding `values` under the keys `keys`, in that order. */
    constructor (keys: seq<string>, values: map<string, string>)
      requires Distinct(keys) && forall k :: k in values <==> k in keys
      ensures this.keys == keys && this.values == values
      ensures Valid()
    {
      this.keys := keys;
      this.values := values;
    }

    /** `removeItem`: the key and its value leave the store. */
    method RemoveItem(key: string)
      requires Valid()
      modifies this
      ensures Valid()
      ensures keys == Drop(old(keys), key)
      ensures values == old(values) - {key}
    {
      DropKeepsDistinct(keys, key);
      DropMembers(keys, key);
      keys := Drop(keys, key);
      values := values - {key};
    }

    /** A list without repeats stays without repeats when a key is dropped. */
    static lemma {:induction false} DropKeepsDistinct(keys: seq<string>, key: string)
      requires Distinct(keys)
      ensures Distinct(Drop(keys, key))
    {
      if keys != [] {
        DropKeepsDistinct(keys[1..], key);
        var rest := Drop(keys[1..], key);
        DropMembers(keys[1..], key);
        assert keys[0] !in keys[1..];
        assert keys[0] !in rest;
      }
    }

    /** Handles the key at `i` of a reset over `snapshot`: removed unless it is kept. */
    method ResetKey(snapshot: seq<string>, i: int)
      requires Valid() && Distinct(snapshot) && 0 <= i < |snapshot|
      requires keys == KeepOnly(snapshot[..i]) + snapshot[i..]
      modifies this
      ensures Valid()
      ensures keys == KeepOnly(snapshot[..i + 1]) + snapshot[i + 1..]
      ensures forall k :: k in values ==> k in old(values) && values[k] == old(values)[k]
    {
      var key := snapshot[i];
      if IsKept(key) {
        ResetStepKeeps(snapshot, i);
      } else {
        ResetStepDrops(snapshot, i);
        RemoveItem(key);
      }
    }

    /**
     * `clearAllData`: every key other than the theme and the settings is
     * removed; the kept keys keep their values and their order.
     */
    method ClearAllData()
      requires Valid()
      modifies this
      ensures Valid()
      ensures keys == KeepOnly(old(keys))
      ensures values == Kept(old(values))
    {
      var snapshot := keys;
      assert snapshot[..|snapshot|] == snapshot && snapshot[|snapshot|..] == [];
      var i := 0;
      while i < |snapshot|
        invariant 0 <= i <= |snapshot|
        invariant Valid()
        invariant keys == KeepOnly(snapshot[..i]) + snapshot[i..]
        invariant forall k :: k in values ==> k in old(values) && values[k] == old(values)[k]
      {
        ResetKey(snapshot, i);
        i := i + 1;
      }
      assert keys == KeepOnly(snapshot);
      ResetLeavesKept(snapshot, old(values), values);
    }

    /**
     * `getStorageStats`: the characters stored and the assumed quota, or
     * zeros for both when the storage cannot be read (`readable` false).
     */
    method GetStorageStats(readable: bool) returns (used: int, total: int)
      ensures readable ==> used == Used(keys, values) && total == 10485760
      ensures !readable ==> used == 0 && total == 0
    {
      if !readable {
        return 0, 0;
      }
      total := Quota;
      used := 0;
      var i := 0;
      while i < |keys|
        invariant 0 <= i <= |keys|
        invariant used == Used(keys[..i], values)
      {
        assert keys[..i + 1][..i] == keys[..i];
        var key := keys[i];
        if key in values {
          used := used + |values[key]| + |key|;
        }
        i := i + 1;
      }
      assert keys[..i] == keys;
    }
  }
}
