/** The `Dict[str, str]` the segmenters build, as an insertion-ordered list of
    entries. Assigning to a key that is already present replaces its value in
    place; a new key is appended. That is Python's dict semantics, so
    iterating over the entries in order is iterating over `sections.items()`. */
module SectionMap {
  import opened Wrappers

  datatype Entry = Entry(key: string, value: string)

  function Keys(m: seq<Entry>): (keys: seq<string>)
    ensures |keys| == |m|
    ensures forall i :: 0 <= i < |m| ==> keys[i] == m[i].key
  {
    seq(|m|, i requires 0 <= i < |m| => m[i].key)
  }

  /** No key occurs twice. */
  predicate Distinct(m: seq<Entry>) {
    forall i, j :: 0 <= i < j < |m| ==> m[i].key != m[j].key
  }

  /** `m.get(key)`. */
  function Get(m: seq<Entry>, key: string): (r: Option<string>)
    ensures r.None? <==> key !in Keys(m)
    ensures r.Some? ==> exists i :: 0 <= i < |m| && m[i] == Entry(key, r.value)
  {
    if |m| == 0 then None
    else if m[0].key == key then Some(m[0].value)
    else
      var r := Get(m[1..], key);
      assert Keys(m[1..]) == Keys(m)[1..];
      assert r.Some? ==> exists i :: 0 <= i < |m[1..]| && m[1..][i] == Entry(key, r.value);
      r
  }

  /** `m[key] = value`: an existing key keeps its place, a new one goes last. */
  function Put(m: seq<Entry>, key: string, value: string): (m': seq<Entry>)
    ensures Keys(m') == if key in Keys(m) then Keys(m) else Keys(m) + [key]
  {
    if |m| == 0 then [Entry(key, value)]
    else if m[0].key == key then [Entry(key, value)] + m[1..]
    else
      var rest := Put(m[1..], key, value);
      assert Keys(m[1..]) == Keys(m)[1..];
      assert Keys([m[0]] + rest) == [m[0].key] + Keys(rest);
      [m[0]] + rest
  }

  /** Reading back after `m[key] = value`: the new value under `key`, the old
      value under every other key. */
  lemma {:induction false} PutGet(m: seq<Entry>, key: string, value: string, k: string)
    ensures Get(Put(m, key, value), k) == if k == key then Some(value) else Get(m, k)
  {
    if |m| > 0 && m[0].key != key {
      PutGet(m[1..], key, value, k);
      assert Put(m, key, value)[1..] == Put(m[1..], key, value);
    }
  }

  /** A dict never holds a key twice. */
  lemma PutDistinct(m: seq<Entry>, key: string, value: string)
    requires Distinct(m)
    ensures Distinct(Put(m, key, value))
  {
    var m' := Put(m, key, value);
    assert forall i :: 0 <= i < |m'| ==> m'[i].key == Keys(m')[i];
    assert forall i :: 0 <= i < |m| ==> m[i].key == Keys(m)[i];
  }

  /** The second of two writes to the same key wins. */
  lemma {:induction false} PutPut(m: seq<Entry>, key: string, v1: string, v2: string)
    ensures Put(Put(m, key, v1), key, v2) == Put(m, key, v2)
  {
    if |m| > 0 && m[0].key != key {
      PutPut(m[1..], key, v1, v2);
      assert Put(m, key, v1)[1..] == Put(m[1..], key, v1);
    }
  }

  /** Every entry after `m[key] = value` is an entry of `m` or the new one, so
      a property of all entries survives a write that has it too. */
  lemma {:induction false} PutKeeps(m: seq<Entry>, key: string, value: string, ok: Entry -> bool)
    requires forall i :: 0 <= i < |m| ==> ok(m[i])
    requires ok(Entry(key, value))
    ensures forall i :: 0 <= i < |Put(m, key, value)| ==> ok(Put(m, key, value)[i])
  {
    if |m| > 0 && m[0].key != key {
      PutKeeps(m[1..], key, value, ok);
      assert Put(m, key, value) == [m[0]] + Put(m[1..], key, value);
    }
  }
}
