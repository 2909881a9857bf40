/** The partition dictionary `reqs` that the script's functions update in
    place, and the functions themselves as methods on it, each proved to
    leave the dictionary as the corresponding function of the model says. */
module PartitionManager {
  import opened Common
  import opened Partitions
  import opened Normalizer
  import opened SpanExtractor
  import opened Resolver
  import opened AddressAssigner
  import opened SpanApportioner

  /** A result whose value is dropped: what a Python function that returns
      None or raises reports. */
  function Status<T>(r: Result<T>): Result<()> {
    match r
    case Ok(_) => Ok(())
    case Err(e) => Err(e)
  }

  /** The three steps of `generate_override` after loading: `resolve`,
      `set_addresses` with the flash size, then
      `set_sub_partition_address_and_size` with the extracted spans. */
  function Generated(t: Table, flash: int): (r: Result<Table>)
    requires t.Valid()
    ensures r.Ok? ==> r.value.Valid() && Resolved(t).Ok?
  {
    match Resolved(t)
    case Err(e) => Err(e)
    case Ok(res) =>
      match Addressed(Prepared(t), res.0, flash)
      case Err(e) => Err(e)
      case Ok(t2) => Apportioned(t2, res.1)
  }

  /** `generate_override` stops at the first step that raises. */
  lemma GeneratedStops(t: Table, flash: int)
    requires t.Valid()
    ensures Resolved(t).Err? ==> Generated(t, flash) == Err(Resolved(t).error)
    ensures Resolved(t).Ok? && Addressed(Prepared(t), Resolved(t).value.0, flash).Err? ==>
      Generated(t, flash) == Err(Addressed(Prepared(t), Resolved(t).value.0, flash).error)
  {
  }

  lemma GeneratedSteps(t: Table, flash: int, t2: Table)
    requires t.Valid() && Resolved(t).Ok? && Addressed(Prepared(t), Resolved(t).value.0, flash) == Ok(t2)
    ensures t2.Valid() && Resolved(t).value.1.Valid()
    ensures Generated(t, flash) == Apportioned(t2, Resolved(t).value.1)
  {
  }

  /** The dictionary `reqs`: its keys in insertion order and their entries. */
  class Requirements {
    var keys: seq<string>
    var entries: map<string, Entry>

    function Contents(): Table
      reads this
    {
      Table(keys, entries)
    }

    predicate Valid()
      reads this
    {
      Contents().Valid()
    }

    constructor (t: Table)
      requires t.Valid()
      ensures Valid() && Contents() == t
    {
      keys, entries := t.keys, t.entries;
    }

    /** One of the two passes of `remove_irrelevant_requirements`: every
        entry's `d` list trimmed against `check`, in key order. */
    method TrimAll(d: Dir, check: set<string>)
      requires Valid()
      modifies this
      ensures Valid() && keys == old(keys) && entries.Keys == old(entries).Keys
      ensures forall k :: k in entries ==> entries[k] == TrimChain(old(entries)[k], d, check)
    {
      ghost var t0 := Contents();
      ghost var m0 := entries;
      var ks := keys;
      var i := 0;
      while i < |ks|
        invariant 0 <= i <= |ks| && keys == ks == t0.keys
        invariant TrimmedUpTo(m0, entries, ks[..i], d, check)
      {
        var x := ks[i];
        NotBefore(ks, i);
        assert x in t0.entries;
        ghost var m := entries;
        var e := entries[x];
        if e.placement.Some? && Chain(e.placement.value, d).Some? {
          var l := RemoveItemNotInList(Chain(e.placement.value, d).value, check);
          TrimChainOf(e, d, check, l);
          entries := entries[x := e.(placement := Some(WithChain(e.placement.value, d, l)))];
          TrimmedUpToStep(m0, m, ks[..i], x, d, check, entries);
        } else {
          TrimmedUpToKeep(m0, m, ks[..i], x, d, check);
        }
        TakeSnoc(ks, i);
        i := i + 1;
      }
      assert ks[..i] == ks;
      TrimmedUpToAll(m0, entries, ks, d, check);
      SameKeysValid(t0, Contents());
    }

    /** `remove_irrelevant_requirements(reqs)`: all `before` lists, then all
        `after` lists, trimmed against the keys of the dictionary. */
    method RemoveIrrelevantRequirements()
      requires Valid()
      modifies this
      ensures Valid() && Contents() == Normalized(old(Contents()))
    {
      var check := entries.Keys;
      TrimAll(Before, check);
      TrimAll(After, check);
      assert entries == Normalized(old(Contents())).entries;
    }

    /** The second loop of `extract_sub_partitions`: `del reqs[key]` for
        each key of `ks`. */
    method DeleteKeys(ks: seq<string>)
      requires Valid() && Distinct(ks) && forall k :: k in ks ==> k in entries
      modifies this
      ensures Valid() && SubseqOf(keys, old(keys))
      ensures forall x :: x in entries <==> x in old(entries) && x !in ks
      ensures forall x :: x in entries ==> entries[x] == old(entries)[x]
    {
      ghost var t := Contents();
      SubseqRefl(t.keys);
      assert Pruned(t, t, ks[..0]);
      var j := 0;
      while j < |ks|
        invariant 0 <= j <= |ks| && Pruned(t, Contents(), ks[..j])
      {
        PrunedStep(t, Contents(), ks, j);
        var rest := Contents().Delete(ks[j]);
        keys, entries := rest.keys, rest.entries;
        j := j + 1;
      }
      assert ks[..j] == ks;
    }

    /** `extract_sub_partitions(reqs)`: collects the spans, then deletes
        their keys. */
    method ExtractSubPartitions() returns (spans: Table)
      requires Valid()
      modifies this
      ensures Valid() && spans.Valid()
      ensures spans == Extracted(old(Contents())).0 && Contents() == Extracted(old(Contents())).1
    {
      ghost var t := Contents();
      spans := CollectSpans(Contents());
      DeleteKeys(spans.keys);
      LeftAfterDelete(t, spans, Contents());
    }

    /** `resolve(reqs)`: the solution and the spans; `reqs` is left
        normalised and without its spans, whether the passes succeed or not. */
    method Resolve() returns (r: Result<(seq<string>, Table)>)
      requires Valid()
      modifies this
      ensures Valid() && Contents() == Prepared(old(Contents()))
      ensures r == Resolved(old(Contents()))
    {
      var solution := [Anchor];
      RemoveIrrelevantRequirements();
      var spans := ExtractSubPartitions();
      var reqs := Contents();
      var unsolved := ImagesToResolve(reqs);
      if unsolved.Err? {
        return Err(unsolved.error);
      }
      var r1 := SolveFromLast(reqs, unsolved.value, solution);
      if r1.Err? {
        return Err(r1.error);
      }
      var r2 := SolveDirection(reqs, r1.value.0, r1.value.1, Before);
      if r2.Err? {
        return Err(r2.error);
      }
      var r3 := SolveDirection(reqs, r2.value.0, r2.value.1, After);
      if r3.Err? {
        return Err(r3.error);
      }
      r := Ok((r3.value.1, spans));
    }

    /** `set_addresses(reqs, solution, flash_size)`; the dictionary after an
        exception is not specified. */
    method SetAddresses(solution: seq<string>, flash: int) returns (r: Result<()>)
      requires Valid()
      modifies this
      ensures r == Status(Addressed(old(Contents()), solution, flash))
      ensures r.Ok? ==> Valid() && Contents() == Addressed(old(Contents()), solution, flash).value
    {
      var placed := AssignAddresses(Contents(), solution, flash);
      if placed.Err? {
        return Err(placed.error);
      }
      keys, entries := placed.value.keys, placed.value.entries;
      r := Ok(());
    }

    /** The inner loop that writes a span's sub-partitions, each `each`
        in size, from `base` on. */
    method LayOut(span: string, subs: seq<string>, each: int, base: int)
      requires Valid()
      modifies this
      ensures Valid() && Contents() == LaidOut(old(Contents()), span, subs, each, base, |subs|)
    {
      ghost var t := Contents();
      var address := base;
      var j := 0;
      while j < |subs|
        invariant 0 <= j <= |subs|
        invariant Contents() == LaidOut(t, span, subs, each, base, j)
        invariant address == Slot(base, each, j)
      {
        LaidOutStep(t, span, subs, each, base, j);
        var updated := Contents().Put(ChildName(span, subs[j]), SizedAt(each, address));
        keys, entries := updated.keys, updated.entries;
        address := address + each;
        j := j + 1;
      }
    }

    /** One iteration of the loop over the spans: the first parent
        partition after it, or the exception it raises. */
    method ApportionSpan(span: string, e: Entry, first: Option<string>) returns (r: Result<Option<string>>)
      requires Valid()
      modifies this
      ensures r.Ok? ==> Valid() && Apportion(old(Contents()), span, e, first) == Ok((Contents(), r.value))
      ensures r.Err? ==> Apportion(old(Contents()), span, e, first) == Err(r.error)
    {
      if e.inside.None? {
        return Err(KeyError);
      }
      var scan := ScanParents(Contents(), e.inside.value, first);
      if scan.Err? {
        return Err(scan.error);
      }
      var (found, size) := scan.value;
      if size == 0 {
        return Err(NoCompatibleParent(span));
      }
      if e.subPartitions.None? {
        return Err(KeyError);
      }
      var subs := e.subPartitions.value;
      if |subs| == 0 {
        return Err(ZeroDivisionError);
      }
      if found.None? || found.value !in entries || entries[found.value].address.None? {
        return Err(KeyError);
      }
      LayOut(span, subs, size / |subs|, entries[found.value].address.value);
      r := Ok(found);
    }

    /** `set_sub_partition_address_and_size(reqs, sub_partitions)`; the
        dictionary after an exception is not specified. */
    method SetSubPartitionAddressAndSize(spans: Table) returns (r: Result<()>)
      requires Valid() && spans.Valid()
      modifies this
      ensures r == Status(Apportioned(old(Contents()), spans))
      ensures r.Ok? ==> Valid() && Contents() == Apportioned(old(Contents()), spans).value
    {
      ghost var t := Contents();
      var first: Option<string> := None;
      var i := 0;
      while i < |spans.keys|
        invariant 0 <= i <= |spans.keys| && Valid()
        invariant ApportionFirst(t, spans, i) == Ok((Contents(), first))
      {
        var name := spans.keys[i];
        ghost var before := Contents();
        ApportionFirstStep(t, spans, i, (before, first));
        var step := ApportionSpan(name, spans.entries[name], first);
        if step.Err? {
          ApportionedStops(t, spans, i, step.error);
          return Err(step.error);
        }
        ghost var after := Contents();
        assert ApportionFirst(t, spans, i + 1) == Ok((after, step.value));
        first := step.value;
        i := i + 1;
      }
      r := Ok(());
    }

    /** The placement steps of `generate_override`: `resolve`, then
        `set_addresses`, then `set_sub_partition_address_and_size`. */
    method Place(flash: int) returns (r: Result<()>)
      requires Valid()
      modifies this
      ensures r == Status(Generated(old(Contents()), flash))
      ensures r.Ok? ==> Valid() && Contents() == Generated(old(Contents()), flash).value
    {
      ghost var t := Contents();
      var res := Resolve();
      if res.Err? {
        GeneratedStops(t, flash);
        return Err(res.error);
      }
      var solution, spans := res.value.0, res.value.1;
      r := SetAddresses(solution, flash);
      if r.Err? {
        GeneratedStops(t, flash);
        return;
      }
      GeneratedSteps(t, flash, Contents());
      r := SetSubPartitionAddressAndSize(spans);
    }
  }
}
