/**
 * The `scripts` record of a port (nmap-parser.ts:13): a JavaScript object
 * used as a dictionary from script name to script output. Its behaviour
 * that the parser relies on is that assigning a new key appends it at the
 * end of `Object.keys`, assigning an existing key replaces the value where
 * it stands, and the last key in `Object.keys` order can be read back. It is
 * modelled as an insertion-ordered association list with unique keys.
 */
module ScriptTable {
  import opened Text

  type Entry = (string, string)
  type Table = seq<Entry>

  function Keys(t: Table): (ks: seq<string>)
    ensures |ks| == |t|
  {
    seq(|t|, i requires 0 <= i < |t| => t[i].0)
  }

  /** No key occurs twice: what a JavaScript object guarantees. */
  predicate UniqueKeys(t: Table) {
    forall i, j :: 0 <= i < j < |t| ==> t[i].0 != t[j].0
  }

  /** Position of the first entry for `key`. */
  function IndexOf(t: Table, key: string): (r: Option<nat>)
    ensures r.None? ==> forall i :: 0 <= i < |t| ==> t[i].0 != key
    ensures r.Some? ==> r.value < |t| && t[r.value].0 == key
    ensures r.Some? ==> forall j :: 0 <= j < r.value ==> t[j].0 != key
  {
    if t == [] then None
    else if t[0].0 == key then Some(0)
    else match IndexOf(t[1..], key)
      case None => None
      case Some(i) => Some(i + 1)
  }

  /** The first entry for `key` is where `IndexOf` finds it. */
  lemma IndexOfAt(t: Table, key: string, i: nat)
    requires i < |t| && t[i].0 == key
    requires forall j :: 0 <= j < i ==> t[j].0 != key
    ensures IndexOf(t, key) == Some(i)
  {
  }

  lemma KeysIn(t: Table, key: string)
    ensures key in Keys(t) <==> IndexOf(t, key).Some?
  {
    if IndexOf(t, key).Some? {
      assert Keys(t)[IndexOf(t, key).value] == key;
    }
  }

  /** `t[key]`, or nothing if the key was never assigned. */
  function Lookup(t: Table, key: string): (r: Option<string>)
    ensures r.None? <==> key !in Keys(t)
    ensures r.Some? ==> (key, r.value) in t
  {
    KeysIn(t, key);
    match IndexOf(t, key)
    case None => None
    case Some(i) => Some(t[i].1)
  }

  /** The table as a Dafny map: the view in which key order is forgotten. */
  function AsMap(t: Table): (m: map<string, string>)
    ensures m.Keys == set k | k in Keys(t)
  {
    if t == [] then map[]
    else
      var init := t[..|t| - 1];
      assert Keys(t) == Keys(init) + [t[|t| - 1].0];
      AsMap(init)[t[|t| - 1].0 := t[|t| - 1].1]
  }

  /** `t[key] = value` (nmap-parser.ts:72): an existing key keeps its position
      and gets the new value; a new key is appended at the end. */
  function Put(t: Table, key: string, value: string): (r: Table)
    ensures Keys(r) == if key in Keys(t) then Keys(t) else Keys(t) + [key]
    ensures UniqueKeys(t) ==> UniqueKeys(r)
    ensures Lookup(r, key) == Some(value)
    ensures forall k :: k != key ==> Lookup(r, k) == Lookup(t, k)
  {
    KeysIn(t, key);
    match IndexOf(t, key)
    case Some(i) =>
      ReplaceKeepsIndex(t, i, value);
      assert Keys(t[i := (key, value)]) == Keys(t);
      t[i := (key, value)]
    case None =>
      AppendFindsIndex(t, key, value);
      assert Keys(t + [(key, value)]) == Keys(t) + [key];
      t + [(key, value)]
  }

  /** Replacing the value of an entry leaves every key where it was. */
  lemma ReplaceKeepsIndex(t: Table, i: nat, value: string)
    requires i < |t|
    ensures forall k :: IndexOf(t[i := (t[i].0, value)], k) == IndexOf(t, k)
  {
    var r := t[i := (t[i].0, value)];
    forall k ensures IndexOf(r, k) == IndexOf(t, k) {
      match IndexOf(t, k)
      case Some(j) => IndexOfAt(r, k, j);
      case None =>
    }
  }

  /** Appending a new key finds it at the end and every other key where it was. */
  lemma AppendFindsIndex(t: Table, key: string, value: string)
    requires IndexOf(t, key).None?
    ensures IndexOf(t + [(key, value)], key) == Some(|t|)
    ensures forall k :: k != key ==> IndexOf(t + [(key, value)], k) == IndexOf(t, k)
  {
    var r := t + [(key, value)];
    IndexOfAt(r, key, |t|);
    forall k | k != key ensures IndexOf(r, k) == IndexOf(t, k) {
      match IndexOf(t, k)
      case Some(j) => IndexOfAt(r, k, j);
      case None =>
    }
  }

  /** `t[lastKey] += suffix` where `lastKey` is the last of `Object.keys(t)`
      (nmap-parser.ts:78-81); an empty table is left as it is. */
  function AppendToLast(t: Table, suffix: string): (r: Table)
    ensures Keys(r) == Keys(t)
    ensures t != [] ==> r[..|t| - 1] == t[..|t| - 1] && r[|t| - 1].1 == t[|t| - 1].1 + suffix
    ensures t == [] ==> r == []
  {
    if t == [] then t
    else t[..|t| - 1] + [(t[|t| - 1].0, t[|t| - 1].1 + suffix)]
  }

  /** Last write wins: assigning a key twice is assigning it once. */
  lemma PutPut(t: Table, key: string, v1: string, v2: string)
    ensures Put(Put(t, key, v1), key, v2) == Put(t, key, v2)
  {
    match IndexOf(t, key)
    case Some(i) =>
      ReplaceKeepsIndex(t, i, v1);
      assert t[i := (key, v1)][i := (key, v2)] == t[i := (key, v2)];
    case None =>
      AppendFindsIndex(t, key, v1);
      assert (t + [(key, v1)])[|t| := (key, v2)] == t + [(key, v2)];
  }

  /** Assigning never changes the number of entries by more than one. */
  lemma PutSize(t: Table, key: string, value: string)
    ensures |Put(t, key, value)| == if key in Keys(t) then |t| else |t| + 1
  {
    assert |Keys(Put(t, key, value))| == |Put(t, key, value)|;
  }

  /** In the map view, `Put` is map update: the list is a faithful dictionary. */
  lemma {:induction false} PutAsMap(t: Table, key: string, value: string)
    requires UniqueKeys(t)
    ensures AsMap(Put(t, key, value)) == AsMap(t)[key := value]
  {
    var r := Put(t, key, value);
    forall k | k in AsMap(r) || k in AsMap(t)[key := value]
      ensures k in AsMap(r) && k in AsMap(t)[key := value] && AsMap(r)[k] == AsMap(t)[key := value][k]
    {
      LookupAsMap(r, k);
      LookupAsMap(t, k);
    }
  }

  /** With unique keys, the map view and `Lookup` agree. */
  lemma {:induction false} LookupAsMap(t: Table, key: string)
    requires UniqueKeys(t)
    ensures key in AsMap(t) <==> Lookup(t, key).Some?
    ensures key in AsMap(t) ==> AsMap(t)[key] == Lookup(t, key).value
  {
    if t != [] {
      var init := t[..|t| - 1];
      assert UniqueKeys(init);
      LookupAsMap(init, key);
      LookupSnoc(init, t[|t| - 1], key);
      assert init + [t[|t| - 1]] == t;
    }
  }

  lemma {:induction false} LookupSnoc(t: Table, e: Entry, key: string)
    requires e.0 !in Keys(t)
    ensures Lookup(t + [e], key) == if key == e.0 then Some(e.1) else Lookup(t, key)
  {
    if t != [] {
      assert (t + [e])[1..] == t[1..] + [e];
      assert Keys(t) == [t[0].0] + Keys(t[1..]);
      LookupSnoc(t[1..], e, key);
    } else {
      assert (t + [e])[1..] == [];
    }
  }
}
