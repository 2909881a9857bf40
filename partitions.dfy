/** The partition table: a Python dictionary from partition name to a
    dictionary of properties, with its insertion order kept explicit. */
module Partitions {
  import opened Common

  /** The name every relative placement is anchored on. */
  const Anchor: string := "app"

  /** The placement string of the partition that goes at the top of flash. */
  const LastTag: string := "last"

  /** The value of an entry's `placement` key: a string (`''` for the anchor,
      `'last'`), or a dictionary with optional `before` and `after` fallback
      lists. */
  datatype Placement =
    | Str(s: string)
    | Rules(before: Option<seq<string>>, after: Option<seq<string>>)

  datatype Dir = Before | After

  /** The fallback list a placement holds under the key `before` or `after`. */
  function Chain(p: Placement, d: Dir): Option<seq<string>> {
    match p
    case Str(_) => None
    case Rules(b, a) => if d == Before then b else a
  }

  function WithChain(p: Placement, d: Dir, l: seq<string>): Placement
    requires p.Rules?
  {
    if d == Before then p.(before := Some(l)) else p.(after := Some(l))
  }

  /** One partition's properties; a key the dictionary lacks is None. Span
      entries carry `inside` (their parents) and `sub_partitions`. */
  datatype Entry = Entry(
    placement: Option<Placement>,
    size: Option<int>,
    address: Option<int>,
    inside: Option<seq<string>>,
    subPartitions: Option<seq<string>>)

  function SizedAt(size: int, address: int): Entry {
    Entry(None, Some(size), Some(address), None, None)
  }

  /** A dictionary: its keys in insertion order and the values they map to. */
  datatype Table = Table(keys: seq<string>, entries: map<string, Entry>) {

    predicate Valid() {
      Distinct(keys) && entries.Keys == set k | k in keys
    }

    /** `d[k] = e`: a new key goes to the end, an existing one keeps its place. */
    function Put(k: string, e: Entry): (r: Table)
      requires Valid()
      ensures r.Valid() && r.entries == entries[k := e]
      ensures k in entries ==> r.keys == keys
      ensures k !in entries ==> r.keys == keys + [k]
    {
      if k in entries then Table(keys, entries[k := e]) else Table(keys + [k], entries[k := e])
    }

    /** `del d[k]` for a key of the dictionary. */
    function Delete(k: string): (r: Table)
      requires Valid() && k in entries
      ensures r.Valid() && r.entries == entries - {k} && r.keys == RemoveFirst(keys, k)
    {
      DistinctRemoveFirst(keys, k);
      Table(RemoveFirst(keys, k), entries - {k})
    }
  }

  /** The keys of `keys`, in order, whose entry satisfies `keep`. */
  function FilterKeys(keys: seq<string>, entries: map<string, Entry>, keep: Entry -> bool): (r: seq<string>)
    requires forall k :: k in keys ==> k in entries
    ensures forall k :: k in r <==> k in keys && keep(entries[k])
    ensures SubseqOf(r, keys)
  {
    if keys == [] then []
    else
      var rest := FilterKeys(keys[1..], entries, keep);
      assert forall k :: k in keys <==> k == keys[0] || k in keys[1..];
      if keep(entries[keys[0]]) then [keys[0]] + rest else rest
  }

  /** Changing entries, but no key, keeps a dictionary well formed. */
  lemma SameKeysValid(t: Table, t': Table)
    requires t.Valid() && t'.keys == t.keys && t'.entries.Keys == t.entries.Keys
    ensures t'.Valid()
  {
  }
}
