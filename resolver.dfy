/** Ordering (`item_is_placed`, `get_images_which_needs_resolving`,
    `solve_from_last`, `solve_direction`, `resolve`): the order of the
    ordinary partitions, grown from `['app']` by inserting, one at a time,
    the partition whose fallback list now starts with the cursor. */
module Resolver {
  import opened Common
  import opened Partitions
  import opened Normalizer
  import opened SpanExtractor

  /** The entry places itself directly before (or after) `item`: its list for
      that direction starts with `item`. */
  predicate Claims(e: Entry, item: string, d: Dir) {
    && e.placement.Some?
    && Chain(e.placement.value, d).Some?
    && |Chain(e.placement.value, d).value| > 0
    && Chain(e.placement.value, d).value[0] == item
  }

  /** `item_is_placed(d, item, after_or_before)`: KeyError without a
      `placement`, IndexError on an empty fallback list. */
  function ItemIsPlaced(e: Entry, item: string, d: Dir): (r: Result<bool>)
    ensures r == Ok(true) <==> Claims(e, item, d)
    ensures r.Err? <==> e.placement.None? || Chain(e.placement.value, d) == Some([])
    ensures r.Err? ==> r.error == (if e.placement.None? then KeyError else IndexError)
  {
    match e.placement
    case None => Err(KeyError)
    case Some(p) =>
      match Chain(p, d)
      case None => Ok(false)
      case Some(l) => if l == [] then Err(IndexError) else Ok(l[0] == item)
  }

  /** The comprehension `[x for x in reqs.keys() if item_is_placed(reqs[x], item, d)]`
      over the given keys; the first failing key decides the error. */
  function ClaimantsIn(keys: seq<string>, entries: map<string, Entry>, item: string, d: Dir): (r: Result<seq<string>>)
    requires forall k :: k in keys ==> k in entries
    ensures r.Ok? ==> SubseqOf(r.value, keys)
    ensures r.Ok? ==> forall x :: x in r.value <==> x in keys && Claims(entries[x], item, d)
    ensures r.Err? <==> exists x :: x in keys && ItemIsPlaced(entries[x], item, d).Err?
  {
    if keys == [] then Ok([])
    else
      assert forall k :: k in keys <==> k == keys[0] || k in keys[1..];
      match ItemIsPlaced(entries[keys[0]], item, d)
      case Err(e) => Err(e)
      case Ok(b) =>
        match ClaimantsIn(keys[1..], entries, item, d)
        case Err(e) => Err(e)
        case Ok(rest) => Ok(if b then [keys[0]] + rest else rest)
  }

  /** The partitions of the table that claim the slot next to `item`. */
  function Claimants(t: Table, item: string, d: Dir): (r: Result<seq<string>>)
    requires t.Valid()
    ensures r.Ok? ==> forall x :: x in r.value ==> x in t.entries && Claims(t.entries[x], item, d)
  {
    ClaimantsIn(t.keys, t.entries, item, d)
  }

  /** The claimants of `item` are the keys whose `d` list starts with it,
      in key order and without repetitions; the comprehension raises
      exactly when some entry has no placement or an empty `d` list. */
  lemma ClaimantsSpec(t: Table, item: string, d: Dir)
    requires t.Valid()
    ensures var r := Claimants(t, item, d);
      && (r.Ok? ==> Distinct(r.value) && SubseqOf(r.value, t.keys))
      && (r.Ok? ==> forall x :: x in r.value <==> x in t.entries && Claims(t.entries[x], item, d))
      && (r.Err? <==> exists x :: x in t.entries && ItemIsPlaced(t.entries[x], item, d).Err?)
  {
    var r := Claimants(t, item, d);
    if r.Ok? {
      SubseqDistinct(r.value, t.keys);
    }
    assert forall x :: x in t.keys <==> x in t.entries;
  }

  /** A partition with a `before` or an `after` list: one the passes are to place. */
  predicate NeedsPlacing(e: Entry) {
    e.placement.Some? && e.placement.value.Rules? &&
    (e.placement.value.before.Some? || e.placement.value.after.Some?)
  }

  predicate IsLast(e: Entry) {
    e.placement == Some(Str(LastTag))
  }

  /** The keys, in order, whose entry satisfies `keep`; KeyError when an entry
      has no `placement`, which both comprehensions read for every key. */
  function KeysWhere(t: Table, keep: Entry -> bool): (r: Result<seq<string>>)
    requires t.Valid()
    ensures r.Err? <==> exists x :: x in t.entries && t.entries[x].placement.None?
    ensures r.Err? ==> r.error == KeyError
    ensures r.Ok? ==> Distinct(r.value) && SubseqOf(r.value, t.keys)
    ensures r.Ok? ==> forall x :: x in r.value <==> x in t.entries && keep(t.entries[x])
  {
    if exists x :: x in t.entries && t.entries[x].placement.None? then Err(KeyError)
    else
      var r := FilterKeys(t.keys, t.entries, keep);
      SubseqDistinct(r, t.keys);
      Ok(r)
  }

  /** `get_images_which_needs_resolving(reqs)`. */
  function ImagesToResolve(t: Table): (r: Result<seq<string>>)
    requires t.Valid()
    ensures r.Err? <==> exists x :: x in t.entries && t.entries[x].placement.None?
    ensures r.Ok? ==> Distinct(r.value)
    ensures r.Ok? ==> forall x :: x in r.value <==> x in t.entries && NeedsPlacing(t.entries[x])
  {
    KeysWhere(t, NeedsPlacing)
  }

  /** The comprehension of `solve_from_last` that finds the `'last'` partitions. */
  function LastPartitions(t: Table): (r: Result<seq<string>>)
    requires t.Valid()
    ensures r.Err? <==> exists x :: x in t.entries && t.entries[x].placement.None?
    ensures r.Ok? ==> Distinct(r.value)
    ensures r.Ok? ==> forall x :: x in r.value <==> x in t.entries && IsLast(t.entries[x])
  {
    KeysWhere(t, IsLast)
  }

  /** The `while cont` loop shared by `solve_from_last` (strict = false) and
      `solve_direction` (strict = true, which asserts a single claimant):
      insert the first claimant of the cursor directly before it (`Before`)
      or directly after it (`After`), make it the cursor, and remove it from
      `unsolved`; stop when nothing claims the cursor. */
  function Pass(t: Table, unsolved: seq<string>, solution: seq<string>, current: string, d: Dir, strict: bool)
    : (r: Result<(seq<string>, seq<string>)>)
    requires t.Valid()
    ensures r.Ok? ==> |r.value.0| <= |unsolved| && |r.value.0| + |r.value.1| == |unsolved| + |solution|
    decreases |unsolved|
  {
    match Claimants(t, current, d)
    case Err(e) => Err(e)
    case Ok(depends) =>
      if depends == [] then Ok((unsolved, solution))
      else if strict && |depends| != 1 then Err(AssertionError)
      else
        match IndexOf(solution, current)
        case None => Err(ValueError)
        case Some(k) =>
          var solution' := InsertAt(solution, if d == Before then k else k + 1, depends[0]);
          if depends[0] !in unsolved then Err(ValueError)
          else Pass(t, RemoveFirst(unsolved, depends[0]), solution', depends[0], d, strict)
  }

  /** `solve_direction(reqs, unsolved, solution, ab)`: runs only when
      something is unsolved, starting at `app`. */
  function SolvedDirection(t: Table, unsolved: seq<string>, solution: seq<string>, d: Dir)
    : (r: Result<(seq<string>, seq<string>)>)
    requires t.Valid()
    ensures r.Ok? ==> |r.value.0| <= |unsolved| && |r.value.0| + |r.value.1| == |unsolved| + |solution|
  {
    if |unsolved| > 0 then Pass(t, unsolved, solution, Anchor, d, true)
    else Ok((unsolved, solution))
  }

  /** `solve_from_last(reqs, unsolved, solution)`: appends the `'last'`
      partition and grows its `before` chain, without checking for a second
      claimant. */
  function SolvedFromLast(t: Table, unsolved: seq<string>, solution: seq<string>)
    : (r: Result<(seq<string>, seq<string>)>)
    requires t.Valid()
    ensures r.Ok? ==> |r.value.0| <= |unsolved| && |solution| <= |r.value.1|
    ensures r.Ok? ==> |r.value.0| + |r.value.1| <= |unsolved| + |solution| + 1
  {
    match LastPartitions(t)
    case Err(e) => Err(e)
    case Ok(last) =>
      if last == [] then Ok((unsolved, solution))
      else if |last| != 1 then Err(AssertionError)
      else Pass(t, unsolved, solution + [last[0]], last[0], Before, false)
  }

  /** The table `resolve` leaves behind: normalised, spans deleted. */
  function Prepared(t: Table): (r: Table)
    requires t.Valid()
    ensures r.Valid()
  {
    Extracted(Normalized(t)).1
  }

  /** `resolve(reqs)`: the solution and the extracted spans. */
  function Resolved(t: Table): (r: Result<(seq<string>, Table)>)
    requires t.Valid()
    ensures r.Ok? ==> r.value.1 == Extracted(Normalized(t)).0
  {
    var spans := Extracted(Normalized(t)).0;
    var reqs := Prepared(t);
    match ImagesToResolve(reqs)
    case Err(e) => Err(e)
    case Ok(unsolved) =>
      match SolvedFromLast(reqs, unsolved, [Anchor])
      case Err(e) => Err(e)
      case Ok(r1) =>
        match SolvedDirection(reqs, r1.0, r1.1, Before)
        case Err(e) => Err(e)
        case Ok(r2) =>
          match SolvedDirection(reqs, r2.0, r2.1, After)
          case Err(e) => Err(e)
          case Ok(r3) => Ok((r3.1, spans))
  }

  /** `solve_direction` with its `while cont` loop. */
  method SolveDirection(t: Table, unsolved: seq<string>, solution: seq<string>, d: Dir)
    returns (r: Result<(seq<string>, seq<string>)>)
    requires t.Valid()
    ensures r == SolvedDirection(t, unsolved, solution, d)
  {
    var u, s, current := unsolved, solution, Anchor;
    var cont := |u| > 0;
    while cont
      invariant cont ==> SolvedDirection(t, unsolved, solution, d) == Pass(t, u, s, current, d, true)
      invariant !cont ==> SolvedDirection(t, unsolved, solution, d) == Ok((u, s))
      decreases |u|, cont
    {
      var depends := Claimants(t, current, d);
      if depends.Err? {
        return Err(depends.error);
      }
      if depends.value != [] {
        if |depends.value| != 1 {
          return Err(AssertionError);
        }
        var k := IndexOf(s, current);
        if k.None? {
          return Err(ValueError);
        }
        s := InsertAt(s, if d == Before then k.value else k.value + 1, depends.value[0]);
        current := depends.value[0];
        if current !in u {
          return Err(ValueError);
        }
        u := RemoveFirst(u, current);
      } else {
        cont := false;
      }
    }
    r := Ok((u, s));
  }

  /** `solve_from_last` with its `while cont` loop. */
  method SolveFromLast(t: Table, unsolved: seq<string>, solution: seq<string>)
    returns (r: Result<(seq<string>, seq<string>)>)
    requires t.Valid()
    ensures r == SolvedFromLast(t, unsolved, solution)
  {
    var last := LastPartitions(t);
    if last.Err? {
      return Err(last.error);
    }
    if last.value == [] {
      return Ok((unsolved, solution));
    }
    if |last.value| != 1 {
      return Err(AssertionError);
    }
    var u, s, current := unsolved, solution + [last.value[0]], last.value[0];
    var cont := true;
    while cont
      invariant cont ==> SolvedFromLast(t, unsolved, solution) == Pass(t, u, s, current, Before, false)
      invariant !cont ==> SolvedFromLast(t, unsolved, solution) == Ok((u, s))
      decreases |u|, cont
    {
      var depends := Claimants(t, current, Before);
      if depends.Err? {
        return Err(depends.error);
      }
      if depends.value != [] {
        var k := IndexOf(s, current);
        if k.None? {
          return Err(ValueError);
        }
        s := InsertAt(s, k.value, depends.value[0]);
        current := depends.value[0];
        if current !in u {
          return Err(ValueError);
        }
        u := RemoveFirst(u, current);
      } else {
        cont := false;
      }
    }
    r := Ok((u, s));
  }
}
