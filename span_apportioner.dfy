/** Sub-partition layout (`set_sub_partition_address_and_size`): each span
    shares the total size of its parents that are present equally among its
    sub-partitions, laid out one after the other from the address of the
    first parent found. The first parent found is remembered across spans. */
module SpanApportioner {
  import opened Common
  import opened Partitions

  /** Python's `not first_parent_partition`: None and `''` are false. */
  predicate Falsy(first: Option<string>) {
    first.None? || first.value == ""
  }

  /** The inner loop over `inside`, resumed at position i: each parent that
      is a key adds its size (KeyError without one) and becomes the first
      parent when none is set yet. */
  function Scan(t: Table, parents: seq<string>, i: nat, first: Option<string>, size: int)
    : (r: Result<(Option<string>, int)>)
    requires t.Valid()
    ensures r.Ok? && !Falsy(first) ==> r.value.0 == first
    ensures r.Ok? && r.value.0 != first ==> r.value.0.Some? && r.value.0.value in t.entries
    decreases |parents| - i
  {
    if i >= |parents| then Ok((first, size))
    else
      var p := parents[i];
      if p in t.entries then
        var first' := if Falsy(first) then Some(p) else first;
        if t.entries[p].size.None? then Err(KeyError)
        else Scan(t, parents, i + 1, first', size + t.entries[p].size.value)
      else Scan(t, parents, i + 1, first, size)
  }

  /** Every parent that is a key has a size. */
  predicate PresentSized(t: Table, parents: seq<string>) {
    forall p :: p in parents && p in t.entries ==> t.entries[p].size.Some?
  }

  /** Reference definition: the total size of the parents that are keys. */
  function PresentSum(t: Table, parents: seq<string>): int
    requires PresentSized(t, parents)
  {
    if parents == [] then 0
    else (if parents[0] in t.entries then t.entries[parents[0]].size.value else 0) + PresentSum(t, parents[1..])
  }

  /** Reference definition: the first parent that is a key. */
  function FirstPresent(t: Table, parents: seq<string>): (r: Option<string>)
    ensures r.Some? ==> r.value in parents && r.value in t.entries
    ensures r.None? ==> forall p :: p in parents ==> p !in t.entries
  {
    if parents == [] then None
    else if parents[0] in t.entries then Some(parents[0])
    else FirstPresent(t, parents[1..])
  }

  /** The first parent after the scan: the one already set, else the first
      one found, else unchanged. */
  function Pick(first: Option<string>, found: Option<string>): Option<string> {
    if !Falsy(first) then first else if found.Some? then found else first
  }

  /** What the inner loop computes from position i on, by the reference
      definitions. */
  function ScanRef(t: Table, parents: seq<string>, i: nat, first: Option<string>, size: int): Result<(Option<string>, int)>
    requires i <= |parents|
  {
    if PresentSized(t, parents[i..])
    then Ok((Pick(first, FirstPresent(t, parents[i..])), size + PresentSum(t, parents[i..])))
    else Err(KeyError)
  }

  /** The reference definitions on `parents[i..]`, one parent at a time. */
  lemma PresentUnfold(t: Table, parents: seq<string>, i: nat)
    requires i < |parents|
    ensures var p := parents[i];
      && (PresentSized(t, parents[i..]) <==> (p in t.entries ==> t.entries[p].size.Some?) && PresentSized(t, parents[i + 1..]))
      && FirstPresent(t, parents[i..]) == (if p in t.entries then Some(p) else FirstPresent(t, parents[i + 1..]))
      && (PresentSized(t, parents[i..]) ==>
            PresentSum(t, parents[i..]) == (if p in t.entries then t.entries[p].size.value else 0) + PresentSum(t, parents[i + 1..]))
  {
    assert parents[i..][1..] == parents[i + 1..];
    assert parents[i..][0] == parents[i];
    assert forall q :: q in parents[i..] <==> q == parents[i] || q in parents[i + 1..];
  }

  /** A present parent with a size: counted, and the first parent if none is set. */
  lemma ScanRefPresent(t: Table, parents: seq<string>, i: nat, first: Option<string>, size: int)
    requires i < |parents| && parents[i] != "" && parents[i] in t.entries && t.entries[parents[i]].size.Some?
    ensures ScanRef(t, parents, i, first, size)
      == ScanRef(t, parents, i + 1, if Falsy(first) then Some(parents[i]) else first, size + t.entries[parents[i]].size.value)
  {
    PresentUnfold(t, parents, i);
  }

  /** A present parent without a size: KeyError. */
  lemma ScanRefUnsized(t: Table, parents: seq<string>, i: nat, first: Option<string>, size: int)
    requires i < |parents| && parents[i] in t.entries && t.entries[parents[i]].size.None?
    ensures ScanRef(t, parents, i, first, size) == Err(KeyError)
  {
    PresentUnfold(t, parents, i);
  }

  /** An absent parent: skipped. */
  lemma ScanRefAbsent(t: Table, parents: seq<string>, i: nat, first: Option<string>, size: int)
    requires i < |parents| && parents[i] !in t.entries
    ensures ScanRef(t, parents, i, first, size) == ScanRef(t, parents, i + 1, first, size)
  {
    PresentUnfold(t, parents, i);
  }

  /** The inner loop computes the reference definitions: KeyError exactly
      when a present parent has no size, otherwise the total size of the
      present parents and the first parent as Pick chooses it. */
  lemma {:induction false} ScanSpec(t: Table, parents: seq<string>, i: nat, first: Option<string>, size: int)
    requires t.Valid() && i <= |parents| && "" !in t.entries
    ensures Scan(t, parents, i, first, size) == ScanRef(t, parents, i, first, size)
    decreases |parents| - i
  {
    if i < |parents| {
      var p := parents[i];
      if p in t.entries {
        if t.entries[p].size.Some? {
          ScanRefPresent(t, parents, i, first, size);
          ScanSpec(t, parents, i + 1, if Falsy(first) then Some(p) else first, size + t.entries[p].size.value);
        } else {
          ScanRefUnsized(t, parents, i, first, size);
        }
      } else {
        ScanRefAbsent(t, parents, i, first, size);
        ScanSpec(t, parents, i + 1, first, size);
      }
    } else {
      assert parents[i..] == [];
    }
  }

  /** The key of a sub-partition: `"%s_%s" % (sp_name, sub_partition)`. */
  function ChildName(span: string, sub: string): string {
    span + "_" + sub
  }

  lemma ChildNameInjective(span: string, a: string, b: string)
    ensures ChildName(span, a) == ChildName(span, b) <==> a == b
  {
    if ChildName(span, a) == ChildName(span, b) {
      assert a == ChildName(span, a)[|span| + 1..];
    }
  }

  /** The address of sub-partition k: `base` with `each` added k times,
      as the loop's `address += size` computes it. */
  function Slot(base: int, each: int, k: nat): int {
    if k == 0 then base else Slot(base, each, k - 1) + each
  }

  lemma {:induction false} SlotIs(base: int, each: int, k: nat)
    ensures Slot(base, each, k) == base + k * each
  {
    if k > 0 {
      SlotIs(base, each, k - 1);
    }
  }

  /** The table after the first j sub-partitions of `subs` were written,
      each a new dictionary with only `size` and `address`. */
  function LaidOut(t: Table, span: string, subs: seq<string>, each: int, base: int, j: nat): (r: Table)
    requires t.Valid() && j <= |subs|
    ensures r.Valid()
  {
    if j == 0 then t
    else LaidOut(t, span, subs, each, base, j - 1).Put(ChildName(span, subs[j - 1]), SizedAt(each, Slot(base, each, j - 1)))
  }

  lemma LaidOutStep(t: Table, span: string, subs: seq<string>, each: int, base: int, j: nat)
    requires t.Valid() && j < |subs|
    ensures Slot(base, each, j + 1) == Slot(base, each, j) + each
    ensures LaidOut(t, span, subs, each, base, j + 1)
      == LaidOut(t, span, subs, each, base, j).Put(ChildName(span, subs[j]), SizedAt(each, Slot(base, each, j)))
  {
  }

  /** Sub-partition k sits at `base + k * each`, provided no later
      sub-partition has the same name. */
  lemma {:induction false} LaidOutChild(t: Table, span: string, subs: seq<string>, each: int, base: int, j: nat, k: nat)
    requires t.Valid() && Distinct(subs) && k < j <= |subs|
    ensures ChildName(span, subs[k]) in LaidOut(t, span, subs, each, base, j).entries
    ensures LaidOut(t, span, subs, each, base, j).entries[ChildName(span, subs[k])] == SizedAt(each, base + k * each)
    decreases j
  {
    var prev := LaidOut(t, span, subs, each, base, j - 1);
    var last := ChildName(span, subs[j - 1]);
    if k == j - 1 {
      SlotIs(base, each, k);
      PutSame(prev, last, SizedAt(each, Slot(base, each, k)));
    } else {
      assert subs[k] != subs[j - 1];
      ChildNameInjective(span, subs[k], subs[j - 1]);
      LaidOutChild(t, span, subs, each, base, j - 1, k);
      PutOther(prev, last, SizedAt(each, Slot(base, each, j - 1)), ChildName(span, subs[k]));
    }
  }

  lemma PutSame(t: Table, k: string, e: Entry)
    requires t.Valid()
    ensures k in t.Put(k, e).entries && t.Put(k, e).entries[k] == e
  {
  }

  lemma PutOther(t: Table, k: string, e: Entry, x: string)
    requires t.Valid() && x in t.entries && x != k
    ensures x in t.Put(k, e).entries && t.Put(k, e).entries[x] == t.entries[x]
  {
  }

  /** Writing the sub-partitions leaves every other key as it was. */
  lemma {:induction false} LaidOutOthers(t: Table, span: string, subs: seq<string>, each: int, base: int, j: nat, x: string)
    requires t.Valid() && j <= |subs| && x in t.entries
    requires forall k :: 0 <= k < |subs| ==> x != ChildName(span, subs[k])
    ensures x in LaidOut(t, span, subs, each, base, j).entries
    ensures LaidOut(t, span, subs, each, base, j).entries[x] == t.entries[x]
    decreases j
  {
    if j > 0 {
      LaidOutOthers(t, span, subs, each, base, j - 1, x);
      PutOther(LaidOut(t, span, subs, each, base, j - 1), ChildName(span, subs[j - 1]), SizedAt(each, Slot(base, each, j - 1)), x);
    }
  }

  /** One iteration of the loop over `sub_partitions.items()`: the table
      and the first parent partition after the span `span`. */
  function Apportion(t: Table, span: string, e: Entry, first: Option<string>): (r: Result<(Table, Option<string>)>)
    requires t.Valid()
    ensures r.Ok? ==> r.value.0.Valid() && r.value.1.Some? && r.value.1.value in t.entries
  {
    match e.inside
    case None => Err(KeyError)
    case Some(parents) =>
      match Scan(t, parents, 0, first, 0)
      case Err(err) => Err(err)
      case Ok(scan) =>
        var (first', size) := scan;
        if size == 0 then Err(NoCompatibleParent(span))
        else
          match e.subPartitions
          case None => Err(KeyError)
          case Some(subs) =>
            if |subs| == 0 then Err(ZeroDivisionError)
            else if first'.None? || first'.value !in t.entries || t.entries[first'.value].address.None? then Err(KeyError)
            else
              var each := size / |subs|;
              Ok((LaidOut(t, span, subs, each, t.entries[first'.value].address.value, |subs|), first'))
  }

  /** The outer loop over the first i spans, the first parent partition
      starting at None and carried from one span to the next. */
  function ApportionFirst(t: Table, spans: Table, i: nat): (r: Result<(Table, Option<string>)>)
    requires t.Valid() && spans.Valid() && i <= |spans.keys|
    ensures r.Ok? && i > 0 ==> r.value.1.Some?
  {
    if i == 0 then Ok((t, None))
    else
      match ApportionFirst(t, spans, i - 1)
      case Err(err) => Err(err)
      case Ok(st) =>
        var name := spans.keys[i - 1];
        Apportion(st.0, name, spans.entries[name], st.1)
  }

  lemma ApportionFirstStep(t: Table, spans: Table, i: nat, st: (Table, Option<string>))
    requires t.Valid() && spans.Valid() && i < |spans.keys| && ApportionFirst(t, spans, i) == Ok(st)
    ensures st.0.Valid()
    ensures ApportionFirst(t, spans, i + 1) == Apportion(st.0, spans.keys[i], spans.entries[spans.keys[i]], st.1)
  {
    ApportionFirstValid(t, spans, i);
  }

  lemma {:induction false} ApportionFirstValid(t: Table, spans: Table, i: nat)
    requires t.Valid() && spans.Valid() && i <= |spans.keys| && ApportionFirst(t, spans, i).Ok?
    ensures ApportionFirst(t, spans, i).value.0.Valid()
  {
  }

  lemma ApportionFirstErrStep(t: Table, spans: Table, k: nat)
    requires t.Valid() && spans.Valid() && 0 < k <= |spans.keys| && ApportionFirst(t, spans, k - 1).Err?
    ensures ApportionFirst(t, spans, k) == ApportionFirst(t, spans, k - 1)
  {
  }

  /** An exception in one span ends the outer loop with it. */
  lemma ApportionFirstErr(t: Table, spans: Table, i: nat, k: nat)
    requires t.Valid() && spans.Valid() && i <= k <= |spans.keys| && ApportionFirst(t, spans, i).Err?
    ensures ApportionFirst(t, spans, k) == ApportionFirst(t, spans, i)
  {
    var m := i;
    while m < k
      invariant i <= m <= k && ApportionFirst(t, spans, m) == ApportionFirst(t, spans, i)
    {
      ApportionFirstErrStep(t, spans, m + 1);
      m := m + 1;
    }
  }

  lemma ApportionedStops(t: Table, spans: Table, i: nat, err: Error)
    requires t.Valid() && spans.Valid() && i < |spans.keys| && ApportionFirst(t, spans, i + 1) == Err(err)
    ensures Apportioned(t, spans) == Err(err)
  {
    ApportionFirstErr(t, spans, i + 1, |spans.keys|);
  }

  /** The inner loop over a span's `inside` list. */
  method ScanParents(t: Table, parents: seq<string>, first: Option<string>) returns (r: Result<(Option<string>, int)>)
    requires t.Valid()
    ensures r == Scan(t, parents, 0, first, 0)
    ensures "" !in t.entries ==>
      r == if PresentSized(t, parents) then Ok((Pick(first, FirstPresent(t, parents)), PresentSum(t, parents)))
           else Err(KeyError)
  {
    var found, size := first, 0;
    var k := 0;
    while k < |parents|
      invariant 0 <= k <= |parents|
      invariant Scan(t, parents, k, found, size) == Scan(t, parents, 0, first, 0)
    {
      var parent := parents[k];
      if parent in t.entries {
        if Falsy(found) {
          found := Some(parent);
        }
        if t.entries[parent].size.None? {
          return Err(KeyError);
        }
        size := size + t.entries[parent].size.value;
      }
      k := k + 1;
    }
    r := Ok((found, size));
    if "" !in t.entries {
      ScanSpec(t, parents, 0, first, 0);
      assert parents[0..] == parents;
    }
  }

  /** `set_sub_partition_address_and_size(reqs, sub_partitions)`. */
  function Apportioned(t: Table, spans: Table): (r: Result<Table>)
    requires t.Valid() && spans.Valid()
    ensures r.Ok? ==> r.value.Valid()
  {
    match ApportionFirst(t, spans, |spans.keys|)
    case Err(err) => Err(err)
    case Ok(st) => Ok(st.0)
  }

  /** The inner loop over a span's parents, when no partition is named `''`. */
  lemma SpanScan(t: Table, e: Entry, first: Option<string>)
    requires t.Valid() && e.inside.Some? && "" !in t.entries
    ensures Scan(t, e.inside.value, 0, first, 0) ==
      if PresentSized(t, e.inside.value)
      then Ok((Pick(first, FirstPresent(t, e.inside.value)), PresentSum(t, e.inside.value)))
      else Err(KeyError)
  {
    ScanSpec(t, e.inside.value, 0, first, 0);
    assert e.inside.value[0..] == e.inside.value;
  }

  /** What makes a span fail, when no partition is named `''`: a present
      parent without a size (KeyError), a zero total of the present parents
      (RuntimeError), an empty `sub_partitions` (ZeroDivisionError). */
  lemma ApportionErrors(t: Table, span: string, e: Entry, first: Option<string>)
    requires t.Valid() && e.inside.Some? && "" !in t.entries
    ensures !PresentSized(t, e.inside.value) ==> Apportion(t, span, e, first) == Err(KeyError)
    ensures PresentSized(t, e.inside.value) && PresentSum(t, e.inside.value) == 0 ==>
      Apportion(t, span, e, first) == Err(NoCompatibleParent(span))
    ensures PresentSized(t, e.inside.value) && PresentSum(t, e.inside.value) != 0 && e.subPartitions == Some([]) ==>
      Apportion(t, span, e, first) == Err(ZeroDivisionError)
  {
    SpanScan(t, e, first);
  }

  /** A span that succeeds: its present parents have a non-zero total, the
      first parent partition (possibly set by an earlier span) has an
      address, and the sub-partitions are laid out from that address, each
      the floor of the total divided by their number. */
  lemma ApportionOk(t: Table, span: string, e: Entry, first: Option<string>)
    requires t.Valid() && e.inside.Some? && "" !in t.entries
    requires Apportion(t, span, e, first).Ok?
    ensures PresentSized(t, e.inside.value) && PresentSum(t, e.inside.value) != 0
    ensures e.subPartitions.Some? && |e.subPartitions.value| > 0
    ensures var first' := Pick(first, FirstPresent(t, e.inside.value));
      && first'.Some? && first'.value in t.entries && t.entries[first'.value].address.Some?
      && Apportion(t, span, e, first).value.1 == first'
      && Apportion(t, span, e, first).value.0 ==
           LaidOut(t, span, e.subPartitions.value, PresentSum(t, e.inside.value) / |e.subPartitions.value|,
                   t.entries[first'.value].address.value, |e.subPartitions.value|)
  {
    SpanScan(t, e, first);
  }

  /** Where a successful span puts sub-partition k (from `base`, the
      address of the first parent partition): named `<span>_<sub>`, the
      floor of the total of the present parents divided by the number of
      sub-partitions in size, directly after sub-partition k - 1. */
  lemma ApportionChildren(t: Table, span: string, e: Entry, first: Option<string>, k: nat)
    requires t.Valid() && e.inside.Some? && "" !in t.entries
    requires Apportion(t, span, e, first).Ok?
    requires e.subPartitions.Some? && Distinct(e.subPartitions.value) && k < |e.subPartitions.value|
    ensures PresentSized(t, e.inside.value)
    ensures var first' := Pick(first, FirstPresent(t, e.inside.value));
      var subs := e.subPartitions.value;
      var each := PresentSum(t, e.inside.value) / |subs|;
      && first'.Some? && first'.value in t.entries && t.entries[first'.value].address.Some?
      && ChildName(span, subs[k]) in Apportion(t, span, e, first).value.0.entries
      && Apportion(t, span, e, first).value.0.entries[ChildName(span, subs[k])]
           == SizedAt(each, t.entries[first'.value].address.value + k * each)
  {
    ApportionOk(t, span, e, first);
    var first' := Pick(first, FirstPresent(t, e.inside.value));
    var subs := e.subPartitions.value;
    LaidOutChild(t, span, subs, PresentSum(t, e.inside.value) / |subs|, t.entries[first'.value].address.value, |subs|, k);
  }

  /** The sub-partitions stay within the parents' region: with a positive
      total of the present parents, each child starts at or after `base`
      (the address of the first parent partition, possibly one carried over
      from an earlier span) and ends at most that total past it. */
  lemma ChildrenWithinParents(t: Table, span: string, e: Entry, first: Option<string>, k: nat)
    requires t.Valid() && e.inside.Some? && "" !in t.entries
    requires Apportion(t, span, e, first).Ok?
    requires e.subPartitions.Some? && Distinct(e.subPartitions.value) && k < |e.subPartitions.value|
    ensures PresentSized(t, e.inside.value)
    ensures var first' := Pick(first, FirstPresent(t, e.inside.value));
      var subs := e.subPartitions.value;
      var total := PresentSum(t, e.inside.value);
      && first'.Some? && first'.value in t.entries && t.entries[first'.value].address.Some?
      && ChildName(span, subs[k]) in Apportion(t, span, e, first).value.0.entries
      && var child := Apportion(t, span, e, first).value.0.entries[ChildName(span, subs[k])];
         var base := t.entries[first'.value].address.value;
         && child.address.Some? && child.size == Some(total / |subs|)
         && (total > 0 ==>
               && base <= child.address.value
               && child.address.value + child.size.value <= base + total)
  {
    ApportionChildren(t, span, e, first, k);
    var total := PresentSum(t, e.inside.value);
    if total > 0 {
      ChildArith(total, |e.subPartitions.value|, k);
    }
  }

  /** k + 1 pieces of floor(total / n), for k < n, fit in a positive total. */
  lemma ChildArith(total: int, n: nat, k: nat)
    requires total > 0 && k < n
    ensures 0 <= k * (total / n) && k * (total / n) + total / n <= total
  {
    var each := total / n;
    assert 0 <= each;
    assert n * each <= total;
    MulMono(k + 1, n, each);
  }

  lemma MulMono(a: nat, b: nat, c: nat)
    requires a <= b
    ensures a * c <= b * c
  {
  }
}
