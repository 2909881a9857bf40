/** Address assignment (`set_addresses`): the partitions in front of `app`
    are laid out upwards from address 0, those behind it downwards from the
    end of flash, and `app` gets the gap in between. */
module AddressAssigner {
  import opened Common
  import opened Partitions

  function WithAddress(m: map<string, Entry>, x: string, v: int): map<string, Entry>
    requires x in m
  {
    m[x := m[x].(address := Some(v))]
  }

  function WithSize(m: map<string, Entry>, x: string, v: int): map<string, Entry>
    requires x in m
  {
    m[x := m[x].(size := Some(v))]
  }

  /** Every partition of `sol[lo..hi]` is in the table and has a `size`. */
  predicate Sized(m: map<string, Entry>, sol: seq<string>, lo: nat, hi: nat)
    requires hi <= |sol|
  {
    forall k :: lo <= k < hi ==> sol[k] in m && m[sol[k]].size.Some?
  }

  /** The total size of the partitions `sol[lo..hi]` (where `Sized` holds;
      a partition without a size counts as 0). */
  function Total(m: map<string, Entry>, sol: seq<string>, lo: nat, hi: nat): int
    requires lo <= hi <= |sol|
    decreases hi - lo
  {
    if lo == hi then 0
    else (if sol[lo] in m && m[sol[lo]].size.Some? then m[sol[lo]].size.value else 0) + Total(m, sol, lo + 1, hi)
  }

  /** `m` and `m'` agree on every key and every property but the address. */
  ghost predicate OnlyAddresses(m: map<string, Entry>, m': map<string, Entry>) {
    m'.Keys == m.Keys && forall x :: x in m ==> m'[x] == m[x].(address := m'[x].address)
  }

  /** The forward loop `for i in range(1, index('app') + 1)`, after the
      statement that puts `solution[0]` at 0: the table once
      `solution[..i]` has its addresses. */
  function Forward(m: map<string, Entry>, sol: seq<string>, i: nat): (r: Result<map<string, Entry>>)
    requires 1 <= i <= |sol|
    ensures r.Ok? ==> r.value.Keys == m.Keys
    decreases i
  {
    if i == 1 then
      if sol[0] in m then Ok(WithAddress(m, sol[0], 0)) else Err(KeyError)
    else
      match Forward(m, sol, i - 1)
      case Err(e) => Err(e)
      case Ok(m') =>
        var prev, cur := sol[i - 2], sol[i - 1];
        if prev !in m' || m'[prev].address.None? || m'[prev].size.None? then Err(KeyError)
        else if cur !in m' then Err(KeyError)
        else Ok(WithAddress(m', cur, m'[prev].address.value + m'[prev].size.value))
  }

  /** The backward part: `solution[-1]` put at `flash_size` minus its size,
      then the loop from `len(solution) - 2` down to `j`, each partition
      directly below its successor. */
  function Backward(m: map<string, Entry>, sol: seq<string>, flash: int, j: nat): (r: Result<map<string, Entry>>)
    requires j < |sol|
    ensures r.Ok? ==> r.value.Keys == m.Keys
    decreases |sol| - j
  {
    var last := sol[|sol| - 1];
    if j == |sol| - 1 then
      if last in m && m[last].size.Some? then Ok(WithAddress(m, last, flash - m[last].size.value))
      else Err(KeyError)
    else
      match Backward(m, sol, flash, j + 1)
      case Err(e) => Err(e)
      case Ok(m') =>
        var next, cur := sol[j + 1], sol[j];
        if next !in m' || m'[next].address.None? then Err(KeyError)
        else if cur !in m' || m'[cur].size.None? then Err(KeyError)
        else Ok(WithAddress(m', cur, m'[next].address.value - m'[cur].size.value))
  }

  /** `set_addresses(reqs, solution, flash_size)`: IndexError on an empty
      solution, KeyError for a missing partition or size, ValueError when
      `app` is not in the solution. */
  function Addressed(t: Table, sol: seq<string>, flash: int): (r: Result<Table>)
    requires t.Valid()
    ensures r.Ok? ==> r.value.Valid() && r.value.keys == t.keys
  {
    if sol == [] then Err(IndexError)
    else if sol[0] !in t.entries then Err(KeyError)
    else
      match IndexOf(sol, Anchor)
      case None => Err(ValueError)
      case Some(a) =>
        match Forward(t.entries, sol, a + 1)
        case Err(e) => Err(e)
        case Ok(m1) => Finished(t, sol, flash, a, m1)
  }

  /** What `set_addresses` does after the forward loop, with `app` at index
      a: the backward part and the size of `app` (`has_image_after_app`), or
      only the size of `app`. */
  function Finished(t: Table, sol: seq<string>, flash: int, a: nat, m1: map<string, Entry>): (r: Result<Table>)
    requires t.Valid() && a < |sol| && m1.Keys == t.entries.Keys
    ensures r.Ok? ==> r.value.Valid() && r.value.keys == t.keys
  {
    if |sol| > a + 1 then
      match Backward(m1, sol, flash, a + 1)
      case Err(e) => Err(e)
      case Ok(m2) =>
        if sol[a + 1] !in m2 || m2[sol[a + 1]].address.None? || Anchor !in m2 || m2[Anchor].address.None?
        then Err(KeyError)
        else Ok(Table(t.keys, WithSize(m2, Anchor, m2[sol[a + 1]].address.value - m2[Anchor].address.value)))
    else if Anchor !in m1 || m1[Anchor].address.None? then Err(KeyError)
    else Ok(Table(t.keys, WithSize(m1, Anchor, flash - m1[Anchor].address.value)))
  }

  /** What a successful forward loop up to i has read and written: it
      found `solution[..i]` in the table and the sizes of all of them but the
      last, and it changed only addresses, only of the solution. */
  ghost predicate ForwardRead(m: map<string, Entry>, sol: seq<string>, i: nat, r: map<string, Entry>)
    requires 1 <= i <= |sol|
  {
    && OnlyAddresses(m, r)
    && (forall j :: 0 <= j < i ==> sol[j] in m)
    && Sized(m, sol, 0, i - 1)
    && (forall x :: x in m && x !in sol ==> r[x] == m[x])
  }

  lemma {:induction false} ForwardReads(m: map<string, Entry>, sol: seq<string>, i: nat)
    requires 1 <= i <= |sol| && Forward(m, sol, i).Ok?
    ensures ForwardRead(m, sol, i, Forward(m, sol, i).value)
    decreases i
  {
    if i > 1 {
      ForwardReads(m, sol, i - 1);
      ForwardReadStep(m, sol, i, Forward(m, sol, i - 1).value);
    }
  }

  lemma ForwardReadStep(m: map<string, Entry>, sol: seq<string>, i: nat, m': map<string, Entry>)
    requires 2 <= i <= |sol| && Forward(m, sol, i).Ok? && Forward(m, sol, i - 1) == Ok(m')
    requires ForwardRead(m, sol, i - 1, m')
    ensures ForwardRead(m, sol, i, Forward(m, sol, i).value)
  {
    ForwardUnfold(m, sol, i, m');
    var prev, cur := sol[i - 2], sol[i - 1];
    assert m'[prev].size == m[prev].size;
    assert cur in sol;
  }

  /** What a successful backward part down to j has read and written: the
      sizes of `solution[j..]`, and only addresses, only of the solution. */
  ghost predicate BackwardRead(m: map<string, Entry>, sol: seq<string>, j: nat, r: map<string, Entry>)
    requires j < |sol|
  {
    && OnlyAddresses(m, r)
    && Sized(m, sol, j, |sol|)
    && (forall x :: x in m && x !in sol ==> r[x] == m[x])
  }

  lemma {:induction false} BackwardReads(m: map<string, Entry>, sol: seq<string>, flash: int, j: nat)
    requires j < |sol| && Backward(m, sol, flash, j).Ok?
    ensures BackwardRead(m, sol, j, Backward(m, sol, flash, j).value)
    decreases |sol| - j
  {
    if j < |sol| - 1 {
      BackwardReads(m, sol, flash, j + 1);
      BackwardReadStep(m, sol, flash, j, Backward(m, sol, flash, j + 1).value);
    } else {
      assert sol[j] in sol;
    }
  }

  lemma BackwardReadStep(m: map<string, Entry>, sol: seq<string>, flash: int, j: nat, m': map<string, Entry>)
    requires j + 1 < |sol| && Backward(m, sol, flash, j).Ok? && Backward(m, sol, flash, j + 1) == Ok(m')
    requires BackwardRead(m, sol, j + 1, m')
    ensures BackwardRead(m, sol, j, Backward(m, sol, flash, j).value)
  {
    var cur := sol[j];
    assert m'[cur].size == m[cur].size;
    assert cur in sol;
  }

  /** An exception in the forward loop ends `set_addresses` with it. */
  lemma {:induction false} ForwardErr(m: map<string, Entry>, sol: seq<string>, i: nat, k: nat)
    requires 1 <= i <= k <= |sol| && Forward(m, sol, i).Err?
    ensures Forward(m, sol, k) == Forward(m, sol, i)
    decreases k
  {
    if k > i {
      ForwardErr(m, sol, i, k - 1);
    }
  }

  /** An exception in the backward loop ends `set_addresses` with it. */
  lemma {:induction false} BackwardErr(m: map<string, Entry>, sol: seq<string>, flash: int, j: nat, k: nat)
    requires k <= j < |sol| && Backward(m, sol, flash, j).Err?
    ensures Backward(m, sol, flash, k) == Backward(m, sol, flash, j)
    decreases j - k
  {
    if k < j {
      BackwardErr(m, sol, flash, j, k + 1);
    }
  }

  lemma {:induction false} TotalSnoc(m: map<string, Entry>, sol: seq<string>, lo: nat, hi: nat)
    requires lo <= hi < |sol| && Sized(m, sol, lo, hi + 1)
    ensures Total(m, sol, lo, hi + 1) == Total(m, sol, lo, hi) + m[sol[hi]].size.value
    decreases hi - lo
  {
    if lo < hi {
      TotalSnoc(m, sol, lo + 1, hi);
    }
  }

  /** Sizes are all the two loops read, and `OnlyAddresses` keeps them. */
  lemma {:induction false} TotalOnlyAddresses(m: map<string, Entry>, m': map<string, Entry>, sol: seq<string>, lo: nat, hi: nat)
    requires OnlyAddresses(m, m') && lo <= hi <= |sol| && Sized(m, sol, lo, hi)
    ensures Sized(m', sol, lo, hi) && Total(m', sol, lo, hi) == Total(m, sol, lo, hi)
    decreases hi - lo
  {
    if lo < hi {
      assert sol[lo] in m;
      TotalOnlyAddresses(m, m', sol, lo + 1, hi);
    }
  }

  /** One iteration of the forward loop, once the earlier ones succeeded. */
  lemma ForwardStep(m: map<string, Entry>, sol: seq<string>, i: nat)
    requires 2 <= i <= |sol| && Forward(m, sol, i - 1).Ok?
    requires var m' := Forward(m, sol, i - 1).value;
      sol[i - 2] in m' && m'[sol[i - 2]].address.Some? && m'[sol[i - 2]].size.Some? && sol[i - 1] in m'
    ensures var m' := Forward(m, sol, i - 1).value;
      Forward(m, sol, i) == Ok(WithAddress(m', sol[i - 1], m'[sol[i - 2]].address.value + m'[sol[i - 2]].size.value))
  {
  }

  /** Each of `sol[..i]` sits in `r` at the total size of the partitions
      in front of it. */
  ghost predicate PlacedFromStart(m: map<string, Entry>, sol: seq<string>, i: nat, r: map<string, Entry>)
    requires i <= |sol|
  {
    forall j :: 0 <= j < i ==> sol[j] in r && r[sol[j]].address == Some(Total(m, sol, 0, j))
  }

  /** The forward loop places `solution[j]`, for j < i, at the total size of
      the partitions in front of it. */
  lemma {:induction false} ForwardClosed(m: map<string, Entry>, sol: seq<string>, i: nat)
    requires Distinct(sol) && 1 <= i <= |sol|
    requires forall j :: 0 <= j < i ==> sol[j] in m
    requires Sized(m, sol, 0, i - 1)
    ensures Forward(m, sol, i).Ok?
    ensures PlacedFromStart(m, sol, i, Forward(m, sol, i).value)
    decreases i
  {
    if i > 1 {
      ForwardClosed(m, sol, i - 1);
      ForwardExtend(m, sol, i);
    }
  }

  /** The inductive step of ForwardClosed. */
  lemma ForwardExtend(m: map<string, Entry>, sol: seq<string>, i: nat)
    requires Distinct(sol) && 2 <= i <= |sol|
    requires forall j :: 0 <= j < i ==> sol[j] in m
    requires Sized(m, sol, 0, i - 1)
    requires Forward(m, sol, i - 1).Ok? && PlacedFromStart(m, sol, i - 1, Forward(m, sol, i - 1).value)
    ensures Forward(m, sol, i).Ok?
    ensures PlacedFromStart(m, sol, i, Forward(m, sol, i).value)
  {
    var prev, cur := sol[i - 2], sol[i - 1];
    var m' := Forward(m, sol, i - 1).value;
    ForwardReads(m, sol, i - 1);
    assert m'[prev].address == Some(Total(m, sol, 0, i - 2));
    assert m'[prev].size == m[prev].size;
    ForwardStep(m, sol, i);
    TotalSnoc(m, sol, 0, i - 2);
    PlacedSnoc(m, sol, i, m', m'[prev].address.value + m'[prev].size.value);
  }

  lemma PlacedSnoc(m: map<string, Entry>, sol: seq<string>, i: nat, m': map<string, Entry>, v: int)
    requires Distinct(sol) && 2 <= i <= |sol| && sol[i - 1] in m'
    requires PlacedFromStart(m, sol, i - 1, m') && v == Total(m, sol, 0, i - 1)
    ensures PlacedFromStart(m, sol, i, WithAddress(m', sol[i - 1], v))
  {
    var r := WithAddress(m', sol[i - 1], v);
    forall j | 0 <= j < i - 1 ensures sol[j] in r && r[sol[j]] == m'[sol[j]] {
      assert sol[j] != sol[i - 1];
    }
  }

  /** One iteration of the backward loop, once the later ones succeeded. */
  lemma BackwardStep(m: map<string, Entry>, sol: seq<string>, flash: int, j: nat)
    requires j + 1 < |sol| && Backward(m, sol, flash, j + 1).Ok?
    requires var m' := Backward(m, sol, flash, j + 1).value;
      sol[j + 1] in m' && m'[sol[j + 1]].address.Some? && sol[j] in m' && m'[sol[j]].size.Some?
    ensures var m' := Backward(m, sol, flash, j + 1).value;
      Backward(m, sol, flash, j) == Ok(WithAddress(m', sol[j], m'[sol[j + 1]].address.value - m'[sol[j]].size.value))
  {
  }

  /** Each of `sol[j..]` sits in `r` where the partitions from it on end
      exactly at `flash_size`. */
  ghost predicate PlacedFromEnd(m: map<string, Entry>, sol: seq<string>, flash: int, j: nat, r: map<string, Entry>)
    requires j <= |sol|
  {
    forall p :: j <= p < |sol| ==> sol[p] in r && r[sol[p]].address == Some(flash - Total(m, sol, p, |sol|))
  }

  /** The backward part places `solution[p]`, for p >= j, so that the
      partitions from p on end exactly at `flash_size`. */
  lemma {:induction false} BackwardClosed(m: map<string, Entry>, sol: seq<string>, flash: int, j: nat)
    requires Distinct(sol) && j < |sol| && Sized(m, sol, j, |sol|)
    ensures Backward(m, sol, flash, j).Ok?
    ensures PlacedFromEnd(m, sol, flash, j, Backward(m, sol, flash, j).value)
    decreases |sol| - j
  {
    if j == |sol| - 1 {
      BackwardLast(m, sol, flash);
    } else {
      BackwardClosed(m, sol, flash, j + 1);
      BackwardExtend(m, sol, flash, j);
    }
  }

  /** The statement before the backward loop: the last partition ends at
      `flash_size`. */
  lemma BackwardLast(m: map<string, Entry>, sol: seq<string>, flash: int)
    requires |sol| > 0 && Sized(m, sol, |sol| - 1, |sol|)
    ensures Backward(m, sol, flash, |sol| - 1).Ok?
    ensures PlacedFromEnd(m, sol, flash, |sol| - 1, Backward(m, sol, flash, |sol| - 1).value)
  {
    var last := sol[|sol| - 1];
    assert last in m && m[last].size.Some?;
    assert Backward(m, sol, flash, |sol| - 1) == Ok(WithAddress(m, last, flash - m[last].size.value));
    assert Total(m, sol, |sol| - 1, |sol|) == m[last].size.value;
  }

  /** The inductive step of BackwardClosed. */
  lemma BackwardExtend(m: map<string, Entry>, sol: seq<string>, flash: int, j: nat)
    requires Distinct(sol) && j + 1 < |sol| && Sized(m, sol, j, |sol|)
    requires Backward(m, sol, flash, j + 1).Ok?
    requires PlacedFromEnd(m, sol, flash, j + 1, Backward(m, sol, flash, j + 1).value)
    ensures Backward(m, sol, flash, j).Ok?
    ensures PlacedFromEnd(m, sol, flash, j, Backward(m, sol, flash, j).value)
  {
    var next, cur := sol[j + 1], sol[j];
    BackwardReads(m, sol, flash, j + 1);
    var m' := Backward(m, sol, flash, j + 1).value;
    assert next in m' && m'[next].address == Some(flash - Total(m, sol, j + 1, |sol|));
    assert cur in m;
    assert m'[cur].size == m[cur].size;
    BackwardStep(m, sol, flash, j);
    assert Total(m, sol, j, |sol|) == m[cur].size.value + Total(m, sol, j + 1, |sol|);
    PlacedCons(m, sol, flash, j, m', m'[next].address.value - m'[cur].size.value);
  }

  lemma PlacedCons(m: map<string, Entry>, sol: seq<string>, flash: int, j: nat, m': map<string, Entry>, v: int)
    requires Distinct(sol) && j + 1 < |sol| && sol[j] in m'
    requires PlacedFromEnd(m, sol, flash, j + 1, m') && v == flash - Total(m, sol, j, |sol|)
    ensures PlacedFromEnd(m, sol, flash, j, WithAddress(m', sol[j], v))
  {
    var r := WithAddress(m', sol[j], v);
    forall p | j < p < |sol| ensures sol[p] in r && r[sol[p]] == m'[sol[p]] {
      assert sol[p] != sol[j];
    }
  }

  /** What `set_addresses` needs to succeed on a solution without
      repetitions: a non-empty solution holding `app`, every partition in the
      table, every one but `app` with a size. */
  predicate Placeable(t: Table, sol: seq<string>) {
    && sol != [] && Anchor in sol
    && (forall x :: x in sol ==> x in t.entries)
    && (forall x :: x in sol && x != Anchor ==> t.entries[x].size.Some?)
  }

  /** The solution laid out without gaps: `solution[0]` at 0, each
      partition ending where the next begins, the last ending at `flash_size`. */
  ghost predicate Contiguous(sol: seq<string>, m': map<string, Entry>, flash: int)
    requires sol != []
  {
    && (forall x :: x in sol ==> x in m' && m'[x].address.Some? && m'[x].size.Some?)
    && m'[sol[0]].address == Some(0)
    && (forall i :: 0 <= i < |sol| - 1 ==>
          m'[sol[i + 1]].address.value == m'[sol[i]].address.value + m'[sol[i]].size.value)
    && m'[sol[|sol| - 1]].address.value + m'[sol[|sol| - 1]].size.value == flash
  }

  /** Only the addresses of the solution and the size of `app` change. */
  ghost predicate Touches(m: map<string, Entry>, m': map<string, Entry>, sol: seq<string>) {
    && m'.Keys == m.Keys
    && (forall x :: x in m && x != Anchor ==> m'[x] == m[x].(address := m'[x].address))
    && (Anchor in m ==> m'[Anchor] == m[Anchor].(address := m'[Anchor].address, size := m'[Anchor].size))
    && (forall x :: x in m && x !in sol ==> m'[x] == m[x])
  }

  /** `app`, at index a of the solution, gets what the other partitions
      leave of flash. */
  ghost predicate AppGap(m: map<string, Entry>, m': map<string, Entry>, sol: seq<string>, a: nat, flash: int)
    requires a < |sol|
  {
    && Sized(m, sol, 0, a) && Sized(m, sol, a + 1, |sol|) && Anchor in m'
    && m'[Anchor].size == Some(flash - Total(m, sol, 0, a) - Total(m, sol, a + 1, |sol|))
  }

  /** In a contiguous layout every partition starts where the sizes of
      those before it add up to. */
  lemma {:induction false} ContiguousPrefix(sol: seq<string>, m': map<string, Entry>, flash: int, i: nat)
    requires sol != [] && Contiguous(sol, m', flash) && i < |sol|
    ensures Sized(m', sol, 0, i) && m'[sol[i]].address == Some(Total(m', sol, 0, i))
  {
    assert sol[i] in sol;
    if i > 0 {
      ContiguousPrefix(sol, m', flash, i - 1);
      assert sol[i - 1] in sol;
      TotalSnoc(m', sol, 0, i - 1);
    }
  }

  /** Two tables that agree on the sizes of `sol[lo..hi]` agree on their total. */
  lemma {:induction false} TotalAgree(m: map<string, Entry>, m': map<string, Entry>, sol: seq<string>, lo: nat, hi: nat)
    requires lo <= hi <= |sol| && Sized(m, sol, lo, hi)
    requires forall k :: lo <= k < hi ==> sol[k] in m' && m'[sol[k]].size == m[sol[k]].size
    ensures Sized(m', sol, lo, hi) && Total(m', sol, lo, hi) == Total(m, sol, lo, hi)
    decreases hi - lo
  {
    if lo < hi {
      TotalAgree(m, m', sol, lo + 1, hi);
    }
  }

  /** The layout `set_addresses` produces on a placeable solution. */
  ghost predicate Layout(t: Table, sol: seq<string>, flash: int, t': Table)
    requires t.Valid() && Placeable(t, sol) && Distinct(sol)
  {
    && t'.keys == t.keys
    && Contiguous(sol, t'.entries, flash)
    && Touches(t.entries, t'.entries, sol)
    && AppGap(t.entries, t'.entries, sol, IndexOf(sol, Anchor).value, flash)
  }

  /** The backward part writes only the partitions `sol[j..]`. */
  lemma {:induction false} BackwardFrame(m: map<string, Entry>, sol: seq<string>, flash: int, j: nat, x: string)
    requires j < |sol| && Backward(m, sol, flash, j).Ok? && x in m
    requires forall p :: j <= p < |sol| ==> sol[p] != x
    ensures Backward(m, sol, flash, j).value[x] == m[x]
    decreases |sol| - j
  {
    if j < |sol| - 1 {
      BackwardFrame(m, sol, flash, j + 1, x);
    }
  }

  /** The partitions in front of `app`, `app` included, are in the table and
      all but `app` have a size. */
  lemma PlaceableParts(t: Table, sol: seq<string>, a: nat)
    requires t.Valid() && Distinct(sol) && Placeable(t, sol) && IndexOf(sol, Anchor) == Some(a)
    ensures forall j :: 0 <= j <= a ==> sol[j] in t.entries
    ensures Sized(t.entries, sol, 0, a) && Sized(t.entries, sol, a + 1, |sol|)
  {
    forall k | 0 <= k < a ensures sol[k] != Anchor {
      assert sol[k] in sol[..a];
    }
    forall k | a < k < |sol| ensures sol[k] != Anchor {
    }
  }

  /** The state after the forward loop, as ForwardClosed describes it. */
  ghost predicate ForwardDone(m: map<string, Entry>, sol: seq<string>, a: nat, m1: map<string, Entry>) {
    && a < |sol| && Sized(m, sol, 0, a) && OnlyAddresses(m, m1)
    && PlacedFromStart(m, sol, a + 1, m1)
    && (forall x :: x in m && x !in sol ==> m1[x] == m[x])
  }

  lemma ForwardDoneHolds(t: Table, sol: seq<string>, a: nat)
    requires t.Valid() && Distinct(sol) && Placeable(t, sol) && IndexOf(sol, Anchor) == Some(a)
    ensures Forward(t.entries, sol, a + 1).Ok?
    ensures ForwardDone(t.entries, sol, a, Forward(t.entries, sol, a + 1).value)
  {
    PlaceableParts(t, sol, a);
    ForwardDoneFrom(t.entries, sol, a);
  }

  lemma ForwardDoneFrom(m: map<string, Entry>, sol: seq<string>, a: nat)
    requires Distinct(sol) && a < |sol| && (forall j :: 0 <= j <= a ==> sol[j] in m) && Sized(m, sol, 0, a)
    ensures Forward(m, sol, a + 1).Ok?
    ensures ForwardDone(m, sol, a, Forward(m, sol, a + 1).value)
  {
    ForwardClosed(m, sol, a + 1);
    ForwardReads(m, sol, a + 1);
  }

  /** What a successful `set_addresses` has read: every partition of the
      solution, and the size of every one but `app`. */
  lemma AddressedNeeds(t: Table, sol: seq<string>, flash: int)
    requires t.Valid() && Distinct(sol) && Addressed(t, sol, flash).Ok?
    ensures Placeable(t, sol)
  {
    var m := t.entries;
    var a := IndexOf(sol, Anchor).value;
    var m1 := Forward(m, sol, a + 1).value;
    AddressedVia(t, sol, flash, a);
    ForwardReads(m, sol, a + 1);
    if |sol| > a + 1 {
      FinishedNeeds(t, sol, flash, a, m1);
      SizedBefore(m, m1, sol, a + 1);
    }
    PlaceableFrom(t, sol, a);
  }

  /** Sizes are the same before and after addresses are written. */
  lemma SizedBefore(m: map<string, Entry>, m1: map<string, Entry>, sol: seq<string>, lo: nat)
    requires lo <= |sol| && OnlyAddresses(m, m1) && Sized(m1, sol, lo, |sol|)
    ensures Sized(m, sol, lo, |sol|)
  {
    forall k | lo <= k < |sol| ensures sol[k] in m && m[sol[k]].size.Some? {
      assert m1[sol[k]].size == m[sol[k]].size;
    }
  }

  lemma PlaceableFrom(t: Table, sol: seq<string>, a: nat)
    requires a < |sol| && sol[a] == Anchor
    requires forall j :: 0 <= j <= a ==> sol[j] in t.entries
    requires Sized(t.entries, sol, 0, a) && Sized(t.entries, sol, a + 1, |sol|)
    ensures Placeable(t, sol)
  {
    forall x | x in sol ensures x in t.entries && (x != Anchor ==> t.entries[x].size.Some?) {
      var q :| 0 <= q < |sol| && sol[q] == x;
    }
  }

  lemma FinishedNeeds(t: Table, sol: seq<string>, flash: int, a: nat, m1: map<string, Entry>)
    requires t.Valid() && a + 1 < |sol| && m1.Keys == t.entries.Keys && Finished(t, sol, flash, a, m1).Ok?
    ensures Sized(m1, sol, a + 1, |sol|)
  {
    BackwardReads(m1, sol, flash, a + 1);
  }

  /** The state after the backward part, as BackwardClosed and
      BackwardFrame describe it. */
  ghost predicate BackwardDone(m1: map<string, Entry>, sol: seq<string>, flash: int, a: nat, m2: map<string, Entry>) {
    && a + 1 < |sol| && Sized(m1, sol, a + 1, |sol|) && OnlyAddresses(m1, m2)
    && PlacedFromEnd(m1, sol, flash, a + 1, m2)
    && (forall k :: 0 <= k <= a ==> sol[k] in m1 ==> m2[sol[k]] == m1[sol[k]])
    && (forall x :: x in m1 && x !in sol ==> m2[x] == m1[x])
  }

  lemma BackwardDoneHolds(m: map<string, Entry>, sol: seq<string>, flash: int, a: nat, m1: map<string, Entry>)
    requires Distinct(sol) && a + 1 < |sol| && ForwardDone(m, sol, a, m1) && Sized(m, sol, a + 1, |sol|)
    ensures Sized(m1, sol, a + 1, |sol|) && Backward(m1, sol, flash, a + 1).Ok?
    ensures BackwardDone(m1, sol, flash, a, Backward(m1, sol, flash, a + 1).value)
  {
    TotalOnlyAddresses(m, m1, sol, a + 1, |sol|);
    BackwardDoneFrom(m1, sol, flash, a);
  }

  lemma BackwardDoneFrom(m1: map<string, Entry>, sol: seq<string>, flash: int, a: nat)
    requires Distinct(sol) && a + 1 < |sol| && Sized(m1, sol, a + 1, |sol|)
    ensures Backward(m1, sol, flash, a + 1).Ok?
    ensures BackwardDone(m1, sol, flash, a, Backward(m1, sol, flash, a + 1).value)
  {
    BackwardClosed(m1, sol, flash, a + 1);
    var m2 := Backward(m1, sol, flash, a + 1).value;
    BackwardReads(m1, sol, flash, a + 1);
    forall k | 0 <= k <= a && sol[k] in m1
      ensures m2[sol[k]] == m1[sol[k]]
    {
      BackwardFramePrefix(m1, sol, flash, a, k);
    }
  }

  lemma BackwardFramePrefix(m1: map<string, Entry>, sol: seq<string>, flash: int, a: nat, k: nat)
    requires Distinct(sol) && k <= a && a + 1 < |sol| && sol[k] in m1 && Backward(m1, sol, flash, a + 1).Ok?
    ensures Backward(m1, sol, flash, a + 1).value[sol[k]] == m1[sol[k]]
  {
    BackwardFrame(m1, sol, flash, a + 1, sol[k]);
  }

  /** `app` last: the forward loop and `flash_size - address` lay out the
      whole solution. */
  lemma EndContiguous(m: map<string, Entry>, sol: seq<string>, flash: int, a: nat, m1: map<string, Entry>)
    requires Distinct(sol) && a + 1 == |sol| && sol[a] == Anchor && ForwardDone(m, sol, a, m1)
    ensures Contiguous(sol, WithSize(m1, Anchor, flash - m1[Anchor].address.value), flash)
  {
    var m' := WithSize(m1, Anchor, flash - m1[Anchor].address.value);
    forall i | 0 <= i < |sol| - 1
      ensures m'[sol[i + 1]].address.value == m'[sol[i]].address.value + m'[sol[i]].size.value
    {
      TotalSnoc(m, sol, 0, i);
      assert sol[i] != Anchor;
      assert m1[sol[i]].size == m[sol[i]].size;
    }
    forall x | x in sol ensures x in m' && m'[x].address.Some? && m'[x].size.Some? {
      var q :| 0 <= q < |sol| && sol[q] == x;
      if q < a {
        assert sol[q] != Anchor;
        assert m1[x].size == m[x].size;
      }
    }
  }

  lemma EndGap(m: map<string, Entry>, sol: seq<string>, flash: int, a: nat, m1: map<string, Entry>)
    requires Distinct(sol) && a + 1 == |sol| && sol[a] == Anchor && ForwardDone(m, sol, a, m1)
    ensures AppGap(m, WithSize(m1, Anchor, flash - m1[Anchor].address.value), sol, a, flash)
  {
  }

  lemma EndTouches(m: map<string, Entry>, sol: seq<string>, flash: int, a: nat, m1: map<string, Entry>)
    requires Distinct(sol) && a + 1 == |sol| && sol[a] == Anchor && ForwardDone(m, sol, a, m1)
    ensures Touches(m, WithSize(m1, Anchor, flash - m1[Anchor].address.value), sol)
  {
  }

  /** The table `set_addresses` returns when partitions follow `app`. */
  ghost predicate TailFacts(m: map<string, Entry>, sol: seq<string>, flash: int, a: nat,
                            m1: map<string, Entry>, m2: map<string, Entry>, m': map<string, Entry>) {
    && Distinct(sol) && a + 1 < |sol| && sol[a] == Anchor && ForwardDone(m, sol, a, m1) && BackwardDone(m1, sol, flash, a, m2)
    && sol[a + 1] in m2 && m2[sol[a + 1]].address.Some? && Anchor in m2 && m2[Anchor].address.Some?
    && m' == WithSize(m2, Anchor, m2[sol[a + 1]].address.value - m2[Anchor].address.value)
  }

  /** Where partition i ends up: at its forward address with its own size
      in front of `app`, */
  lemma TailFront(m: map<string, Entry>, sol: seq<string>, flash: int, a: nat,
                  m1: map<string, Entry>, m2: map<string, Entry>, m': map<string, Entry>, v: int, i: nat)
    requires a < |sol| && Distinct(sol) && sol[a] == Anchor && i < a && ForwardDone(m, sol, a, m1) && BackwardDone(m1, sol, flash, a, m2)
    requires Anchor in m2 && m' == WithSize(m2, Anchor, v)
    ensures sol[i] in m && sol[i] in m' && m'[sol[i]].size == m[sol[i]].size && m[sol[i]].size.Some?
    ensures m'[sol[i]].address == Some(Total(m, sol, 0, i))
  {
    assert sol[i] != sol[a];
    assert m1[sol[i]] == m2[sol[i]];
  }

  /** at its backward address with its own size behind `app`, */
  lemma TailBack(sol: seq<string>, flash: int, a: nat, m1: map<string, Entry>, m2: map<string, Entry>,
                 m': map<string, Entry>, v: int, i: nat)
    requires a < i < |sol| && Distinct(sol) && sol[a] == Anchor && BackwardDone(m1, sol, flash, a, m2)
    requires Anchor in m2 && m' == WithSize(m2, Anchor, v)
    ensures sol[i] in m' && sol[i] in m1 && m'[sol[i]] == m2[sol[i]] && m2[sol[i]].size == m1[sol[i]].size
    ensures m1[sol[i]].size.Some? && m'[sol[i]].address == Some(flash - Total(m1, sol, i, |sol|))
  {
    assert sol[i] != sol[a];
  }

  /** and `app` with the gap. */
  lemma TailApp(m: map<string, Entry>, sol: seq<string>, flash: int, a: nat,
                m1: map<string, Entry>, m2: map<string, Entry>, m': map<string, Entry>)
    requires TailFacts(m, sol, flash, a, m1, m2, m')
    ensures Anchor in m' && m1[Anchor].address.Some? && m'[Anchor].address == m1[Anchor].address
    ensures m'[Anchor].size == Some(m2[sol[a + 1]].address.value - m1[Anchor].address.value)
  {
    assert m1[Anchor] == m2[Anchor];
  }

  /** Neighbours i and i + 1 of the solution touch. */
  ghost predicate Adjacent(sol: seq<string>, m': map<string, Entry>, i: nat)
    requires i + 1 < |sol|
  {
    && sol[i] in m' && sol[i + 1] in m' && m'[sol[i]].address.Some? && m'[sol[i]].size.Some?
    && m'[sol[i + 1]].address.Some?
    && m'[sol[i + 1]].address.value == m'[sol[i]].address.value + m'[sol[i]].size.value
  }

  lemma TailAdjacent(m: map<string, Entry>, sol: seq<string>, flash: int, a: nat,
                     m1: map<string, Entry>, m2: map<string, Entry>, m': map<string, Entry>, i: nat)
    requires TailFacts(m, sol, flash, a, m1, m2, m') && i + 1 < |sol|
    ensures Adjacent(sol, m', i)
  {
    var v := m2[sol[a + 1]].address.value - m2[Anchor].address.value;
    if i + 1 < a {
      TailFront(m, sol, flash, a, m1, m2, m', v, i);
      TailFront(m, sol, flash, a, m1, m2, m', v, i + 1);
      TotalSnoc(m, sol, 0, i);
    } else if i + 1 == a {
      TailAdjacentApp(m, sol, flash, a, m1, m2, m', v);
    } else if i == a {
      TailApp(m, sol, flash, a, m1, m2, m');
      TailBack(sol, flash, a, m1, m2, m', v, i + 1);
    } else {
      TailAdjacentBack(sol, flash, a, m1, m2, m', v, i);
    }
  }

  /** The partition right in front of `app` ends where `app` begins. */
  lemma TailAdjacentApp(m: map<string, Entry>, sol: seq<string>, flash: int, a: nat,
                        m1: map<string, Entry>, m2: map<string, Entry>, m': map<string, Entry>, v: int)
    requires TailFacts(m, sol, flash, a, m1, m2, m') && a > 0
    requires v == m2[sol[a + 1]].address.value - m2[Anchor].address.value
    ensures Adjacent(sol, m', a - 1)
  {
    TailFront(m, sol, flash, a, m1, m2, m', v, a - 1);
    TailApp(m, sol, flash, a, m1, m2, m');
    TotalSnoc(m, sol, 0, a - 1);
    assert m1[sol[a]].address == Some(Total(m, sol, 0, a));
  }

  /** Behind `app`, each partition ends where the next begins. */
  lemma TailAdjacentBack(sol: seq<string>, flash: int, a: nat, m1: map<string, Entry>, m2: map<string, Entry>,
                         m': map<string, Entry>, v: int, i: nat)
    requires a < i && i + 1 < |sol| && Distinct(sol) && sol[a] == Anchor && BackwardDone(m1, sol, flash, a, m2)
    requires Anchor in m2 && m' == WithSize(m2, Anchor, v)
    ensures Adjacent(sol, m', i)
  {
    TailBack(sol, flash, a, m1, m2, m', v, i);
    TailBack(sol, flash, a, m1, m2, m', v, i + 1);
    assert Total(m1, sol, i, |sol|) == m1[sol[i]].size.value + Total(m1, sol, i + 1, |sol|);
  }

  lemma TailPresent(m: map<string, Entry>, sol: seq<string>, flash: int, a: nat,
                    m1: map<string, Entry>, m2: map<string, Entry>, m': map<string, Entry>)
    requires TailFacts(m, sol, flash, a, m1, m2, m')
    ensures forall x :: x in sol ==> x in m' && m'[x].address.Some? && m'[x].size.Some?
  {
    var v := m2[sol[a + 1]].address.value - m2[Anchor].address.value;
    forall x | x in sol ensures x in m' && m'[x].address.Some? && m'[x].size.Some? {
      var q :| 0 <= q < |sol| && sol[q] == x;
      if q < a {
        TailFront(m, sol, flash, a, m1, m2, m', v, q);
      } else if q > a {
        TailBack(sol, flash, a, m1, m2, m', v, q);
      } else {
        TailApp(m, sol, flash, a, m1, m2, m');
      }
    }
  }

  lemma TailEnds(m: map<string, Entry>, sol: seq<string>, flash: int, a: nat,
                 m1: map<string, Entry>, m2: map<string, Entry>, m': map<string, Entry>)
    requires TailFacts(m, sol, flash, a, m1, m2, m')
    ensures sol[0] in m' && m'[sol[0]].address == Some(0)
    ensures var last := sol[|sol| - 1];
      last in m' && m'[last].address.Some? && m'[last].size.Some? && m'[last].address.value + m'[last].size.value == flash
  {
    var v := m2[sol[a + 1]].address.value - m2[Anchor].address.value;
    if a == 0 {
      TailApp(m, sol, flash, a, m1, m2, m');
    } else {
      TailFront(m, sol, flash, a, m1, m2, m', v, 0);
    }
    TailBack(sol, flash, a, m1, m2, m', v, |sol| - 1);
    assert Total(m1, sol, |sol| - 1, |sol|) == m1[sol[|sol| - 1]].size.value;
  }

  /** Partitions after `app`: the forward prefix, the backward suffix and
      the size of `app` fit together. */
  lemma TailContiguous(m: map<string, Entry>, sol: seq<string>, flash: int, a: nat,
                       m1: map<string, Entry>, m2: map<string, Entry>, m': map<string, Entry>)
    requires TailFacts(m, sol, flash, a, m1, m2, m')
    ensures Contiguous(sol, m', flash)
  {
    TailPresent(m, sol, flash, a, m1, m2, m');
    forall i | 0 <= i < |sol| - 1 ensures Adjacent(sol, m', i) {
      TailAdjacent(m, sol, flash, a, m1, m2, m', i);
    }
    TailEnds(m, sol, flash, a, m1, m2, m');
    ContiguousOf(sol, m', flash);
  }

  lemma ContiguousOf(sol: seq<string>, m': map<string, Entry>, flash: int)
    requires sol != [] && forall x :: x in sol ==> x in m' && m'[x].address.Some? && m'[x].size.Some?
    requires forall i :: 0 <= i < |sol| - 1 ==> Adjacent(sol, m', i)
    requires m'[sol[0]].address == Some(0)
    requires m'[sol[|sol| - 1]].address.value + m'[sol[|sol| - 1]].size.value == flash
    ensures Contiguous(sol, m', flash)
  {
    forall i | 0 <= i < |sol| - 1
      ensures m'[sol[i + 1]].address.value == m'[sol[i]].address.value + m'[sol[i]].size.value
    {
      assert Adjacent(sol, m', i);
    }
  }

  lemma TailGap(m: map<string, Entry>, sol: seq<string>, flash: int, a: nat,
                m1: map<string, Entry>, m2: map<string, Entry>)
    requires Distinct(sol) && a + 1 < |sol| && sol[a] == Anchor && ForwardDone(m, sol, a, m1) && BackwardDone(m1, sol, flash, a, m2)
    requires Sized(m, sol, a + 1, |sol|)
    ensures AppGap(m, WithSize(m2, Anchor, m2[sol[a + 1]].address.value - m2[Anchor].address.value), sol, a, flash)
  {
    TailAnchorAt(m, sol, flash, a, m1, m2);
    TailNextAt(m, sol, flash, a, m1, m2);
    GapOf(m, m2, sol, a, flash);
  }

  lemma TailAnchorAt(m: map<string, Entry>, sol: seq<string>, flash: int, a: nat,
                     m1: map<string, Entry>, m2: map<string, Entry>)
    requires a + 1 < |sol| && sol[a] == Anchor && ForwardDone(m, sol, a, m1) && BackwardDone(m1, sol, flash, a, m2)
    ensures Anchor in m2 && m2[Anchor].address == Some(Total(m, sol, 0, a))
  {
    assert sol[a] in m1;
  }

  lemma TailNextAt(m: map<string, Entry>, sol: seq<string>, flash: int, a: nat,
                   m1: map<string, Entry>, m2: map<string, Entry>)
    requires a + 1 < |sol| && ForwardDone(m, sol, a, m1) && BackwardDone(m1, sol, flash, a, m2)
    ensures sol[a + 1] in m2 && m2[sol[a + 1]].address == Some(flash - Total(m, sol, a + 1, |sol|))
  {
    TotalOnlyAddresses(m, m1, sol, a + 1, |sol|);
  }

  lemma GapOf(m: map<string, Entry>, m2: map<string, Entry>, sol: seq<string>, a: nat, flash: int)
    requires a + 1 < |sol| && Sized(m, sol, 0, a) && Sized(m, sol, a + 1, |sol|)
    requires Anchor in m2 && m2[Anchor].address == Some(Total(m, sol, 0, a))
    requires sol[a + 1] in m2 && m2[sol[a + 1]].address == Some(flash - Total(m, sol, a + 1, |sol|))
    ensures AppGap(m, WithSize(m2, Anchor, m2[sol[a + 1]].address.value - m2[Anchor].address.value), sol, a, flash)
  {
  }

  lemma TailTouches(m: map<string, Entry>, sol: seq<string>, flash: int, a: nat,
                    m1: map<string, Entry>, m2: map<string, Entry>)
    requires Distinct(sol) && a + 1 < |sol| && sol[a] == Anchor && ForwardDone(m, sol, a, m1) && BackwardDone(m1, sol, flash, a, m2)
    ensures Touches(m, WithSize(m2, Anchor, m2[sol[a + 1]].address.value - m2[Anchor].address.value), sol)
  {
  }

  lemma AddressedVia(t: Table, sol: seq<string>, flash: int, a: nat)
    requires t.Valid() && sol != [] && sol[0] in t.entries && IndexOf(sol, Anchor) == Some(a)
    requires Forward(t.entries, sol, a + 1).Ok?
    ensures Addressed(t, sol, flash) == Finished(t, sol, flash, a, Forward(t.entries, sol, a + 1).value)
  {
  }

  lemma FinishedEnd(t: Table, sol: seq<string>, flash: int, a: nat, m1: map<string, Entry>)
    requires t.Valid() && a + 1 == |sol| && m1.Keys == t.entries.Keys && Anchor in m1 && m1[Anchor].address.Some?
    ensures Finished(t, sol, flash, a, m1) == Ok(Table(t.keys, WithSize(m1, Anchor, flash - m1[Anchor].address.value)))
  {
  }

  lemma FinishedTail(t: Table, sol: seq<string>, flash: int, a: nat, m1: map<string, Entry>, m2: map<string, Entry>)
    requires t.Valid() && a + 1 < |sol| && m1.Keys == t.entries.Keys && Backward(m1, sol, flash, a + 1) == Ok(m2)
    requires sol[a + 1] in m2 && m2[sol[a + 1]].address.Some? && Anchor in m2 && m2[Anchor].address.Some?
    ensures Finished(t, sol, flash, a, m1)
      == Ok(Table(t.keys, WithSize(m2, Anchor, m2[sol[a + 1]].address.value - m2[Anchor].address.value)))
  {
  }

  /** `set_addresses` when partitions follow `app`. */
  lemma AddressedTail(t: Table, sol: seq<string>, flash: int, a: nat)
    requires t.Valid() && Distinct(sol) && Placeable(t, sol) && IndexOf(sol, Anchor) == Some(a) && a + 1 < |sol|
    ensures Addressed(t, sol, flash).Ok?
    ensures Layout(t, sol, flash, Addressed(t, sol, flash).value)
  {
    var m := t.entries;
    PlaceableParts(t, sol, a);
    ForwardDoneHolds(t, sol, a);
    var m1 := Forward(m, sol, a + 1).value;
    BackwardDoneHolds(m, sol, flash, a, m1);
    var m2 := Backward(m1, sol, flash, a + 1).value;
    TailAnchorAt(m, sol, flash, a, m1, m2);
    TailNextAt(m, sol, flash, a, m1, m2);
    var m' := WithSize(m2, Anchor, m2[sol[a + 1]].address.value - m2[Anchor].address.value);
    AddressedVia(t, sol, flash, a);
    FinishedTail(t, sol, flash, a, m1, m2);
    TailContiguous(m, sol, flash, a, m1, m2, m');
    TailGap(m, sol, flash, a, m1, m2);
    TailTouches(m, sol, flash, a, m1, m2);
  }

  /** `set_addresses` when `app` is the last partition. */
  lemma AddressedEnd(t: Table, sol: seq<string>, flash: int, a: nat)
    requires t.Valid() && Distinct(sol) && Placeable(t, sol) && IndexOf(sol, Anchor) == Some(a) && a + 1 == |sol|
    ensures Addressed(t, sol, flash).Ok?
    ensures Layout(t, sol, flash, Addressed(t, sol, flash).value)
  {
    var m := t.entries;
    ForwardDoneHolds(t, sol, a);
    var m1 := Forward(m, sol, a + 1).value;
    assert sol[a] == Anchor && Anchor in m1 && m1[Anchor].address.Some?;
    var m' := WithSize(m1, Anchor, flash - m1[Anchor].address.value);
    AddressedVia(t, sol, flash, a);
    FinishedEnd(t, sol, flash, a, m1);
    EndContiguous(m, sol, flash, a, m1);
    EndGap(m, sol, flash, a, m1);
    EndTouches(m, sol, flash, a, m1);
  }

  /** `set_addresses` on a placeable solution without repetitions yields
      `Layout`. */
  lemma AddressedLayout(t: Table, sol: seq<string>, flash: int)
    requires t.Valid() && Distinct(sol) && Placeable(t, sol)
    ensures Addressed(t, sol, flash).Ok?
    ensures Layout(t, sol, flash, Addressed(t, sol, flash).value)
  {
    var a := IndexOf(sol, Anchor).value;
    if |sol| > a + 1 {
      AddressedTail(t, sol, flash, a);
    } else {
      AddressedEnd(t, sol, flash, a);
    }
  }

  /** In the layout, each partition up to `app` starts at the total size
      of the partitions in front of it. */
  lemma LayoutPrefix(t: Table, sol: seq<string>, flash: int, t': Table, i: nat)
    requires t.Valid() && Distinct(sol) && Placeable(t, sol) && Layout(t, sol, flash, t')
    requires i <= IndexOf(sol, Anchor).value
    ensures Sized(t.entries, sol, 0, i) && sol[i] in t'.entries
    ensures t'.entries[sol[i]].address == Some(Total(t.entries, sol, 0, i))
  {
    var a := IndexOf(sol, Anchor).value;
    PlaceableParts(t, sol, a);
    ContiguousPrefix(sol, t'.entries, flash, i);
    forall k | 0 <= k < i ensures sol[k] in t'.entries && t'.entries[sol[k]].size == t.entries[sol[k]].size {
      assert sol[k] in sol && sol[k] != Anchor;
    }
    TotalAgree(t.entries, t'.entries, sol, 0, i);
  }

  /** In the layout, the last partition ends at `flash_size`. */
  lemma LayoutEnd(t: Table, sol: seq<string>, flash: int, t': Table)
    requires t.Valid() && Distinct(sol) && Placeable(t, sol) && Layout(t, sol, flash, t')
    ensures var last := sol[|sol| - 1];
      && last in t'.entries && t'.entries[last].address.Some? && t'.entries[last].size.Some?
      && t'.entries[last].address.value + t'.entries[last].size.value == flash
  {
    assert sol[|sol| - 1] in sol;
  }

  /** A last partition other than `app` keeps its size and ends at `flash_size`. */
  lemma LayoutLast(t: Table, sol: seq<string>, flash: int, t': Table)
    requires t.Valid() && Distinct(sol) && Placeable(t, sol) && Layout(t, sol, flash, t')
    requires sol[|sol| - 1] != Anchor
    ensures var last := sol[|sol| - 1];
      && last in t'.entries && t'.entries[last].size == t.entries[last].size
      && t'.entries[last].address == Some(flash - t.entries[last].size.value)
  {
    var last := sol[|sol| - 1];
    assert last in sol;
    assert t'.entries[last] == t.entries[last].(address := t'.entries[last].address);
  }

  /** The exceptions `set_addresses` raises before laying anything out: an
      empty solution (`solution[0]`), an unknown first partition, a solution
      without `app` (`solution.index('app')`). */
  lemma AddressedErrors(t: Table, sol: seq<string>, flash: int)
    requires t.Valid()
    ensures sol == [] ==> Addressed(t, sol, flash) == Err(IndexError)
    ensures sol != [] && sol[0] !in t.entries ==> Addressed(t, sol, flash) == Err(KeyError)
    ensures sol != [] && sol[0] in t.entries && Anchor !in sol ==> Addressed(t, sol, flash) == Err(ValueError)
  {
  }

  /** `set_addresses` succeeds exactly on placeable solutions. */
  lemma AddressedOk(t: Table, sol: seq<string>, flash: int)
    requires t.Valid() && Distinct(sol)
    ensures Addressed(t, sol, flash).Ok? <==> Placeable(t, sol)
  {
    if Placeable(t, sol) {
      AddressedLayout(t, sol, flash);
    } else if Addressed(t, sol, flash).Ok? {
      AddressedNeeds(t, sol, flash);
    }
  }

  lemma ForwardUnfold(m: map<string, Entry>, sol: seq<string>, i: nat, m': map<string, Entry>)
    requires 2 <= i <= |sol| && Forward(m, sol, i - 1) == Ok(m')
    ensures var prev, cur := sol[i - 2], sol[i - 1];
      Forward(m, sol, i) ==
        if prev !in m' || m'[prev].address.None? || m'[prev].size.None? || cur !in m' then Err(KeyError)
        else Ok(WithAddress(m', cur, m'[prev].address.value + m'[prev].size.value))
  {
  }

  /** The statement that puts `solution[0]` at 0, then the forward loop up
      to index n - 1. */
  method AssignForward(m: map<string, Entry>, sol: seq<string>, n: nat) returns (r: Result<map<string, Entry>>)
    requires 1 <= n <= |sol|
    ensures r == Forward(m, sol, n)
  {
    if sol[0] !in m {
      ForwardErr(m, sol, 1, n);
      return Err(KeyError);
    }
    var m' := WithAddress(m, sol[0], 0);
    var i := 1;
    while i < n
      invariant 1 <= i <= n && Forward(m, sol, i) == Ok(m')
    {
      var current, previous := sol[i], sol[i - 1];
      ForwardUnfold(m, sol, i + 1, m');
      if previous !in m' || m'[previous].address.None? || m'[previous].size.None? || current !in m' {
        ForwardErr(m, sol, i + 1, n);
        return Err(KeyError);
      }
      m' := WithAddress(m', current, m'[previous].address.value + m'[previous].size.value);
      i := i + 1;
    }
    r := Ok(m');
  }

  /** The statement that puts `solution[-1]` below `flash_size`, then the
      backward loop down to index j. */
  method AssignBackward(m: map<string, Entry>, sol: seq<string>, flash: int, j: nat) returns (r: Result<map<string, Entry>>)
    requires j < |sol|
    ensures r == Backward(m, sol, flash, j)
  {
    var last := sol[|sol| - 1];
    if last !in m || m[last].size.None? {
      BackwardErr(m, sol, flash, |sol| - 1, j);
      return Err(KeyError);
    }
    var m' := WithAddress(m, last, flash - m[last].size.value);
    var i := |sol| - 2;
    while i >= j
      invariant j - 1 <= i <= |sol| - 2 && Backward(m, sol, flash, i + 1) == Ok(m')
    {
      var current, next := sol[i], sol[i + 1];
      if next !in m' || m'[next].address.None? || current !in m' || m'[current].size.None? {
        BackwardErr(m, sol, flash, i, j);
        return Err(KeyError);
      }
      m' := WithAddress(m', current, m'[next].address.value - m'[current].size.value);
      i := i - 1;
    }
    r := Ok(m');
  }

  /** `set_addresses(reqs, solution, flash_size)` on the dictionary's
      value: the statements and loops in order, each exception where the
      Python code raises it. */
  method AssignAddresses(t: Table, sol: seq<string>, flash: int) returns (r: Result<Table>)
    requires t.Valid()
    ensures r == Addressed(t, sol, flash)
  {
    if |sol| == 0 {
      return Err(IndexError);
    }
    if sol[0] !in t.entries {
      return Err(KeyError);
    }
    var a := IndexOf(sol, Anchor);
    if a.None? {
      return Err(ValueError);
    }
    var m1 := AssignForward(t.entries, sol, a.value + 1);
    if m1.Err? {
      return Err(m1.error);
    }
    AddressedVia(t, sol, flash, a.value);
    r := AssignSizeOfAnchor(t, sol, flash, a.value, m1.value);
  }

  /** The rest of `set_addresses` once the forward loop is done, with `app`
      at index a. */
  method AssignSizeOfAnchor(t: Table, sol: seq<string>, flash: int, a: nat, m1: map<string, Entry>)
    returns (r: Result<Table>)
    requires t.Valid() && a < |sol| && m1.Keys == t.entries.Keys
    ensures r == Finished(t, sol, flash, a, m1)
  {
    if |sol| > a + 1 {
      var m2 := AssignBackward(m1, sol, flash, a + 1);
      if m2.Err? {
        return Err(m2.error);
      }
      var m := m2.value;
      var after := sol[a + 1];
      if after !in m || m[after].address.None? || Anchor !in m || m[Anchor].address.None? {
        return Err(KeyError);
      }
      FinishedTail(t, sol, flash, a, m1, m);
      r := Ok(Table(t.keys, WithSize(m, Anchor, m[after].address.value - m[Anchor].address.value)));
    } else {
      if Anchor !in m1 || m1[Anchor].address.None? {
        return Err(KeyError);
      }
      FinishedEnd(t, sol, flash, a, m1);
      r := Ok(Table(t.keys, WithSize(m1, Anchor, flash - m1[Anchor].address.value)));
    }
  }
}
