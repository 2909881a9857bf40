/** Constraint normalisation (`remove_item_not_in_list`,
    `remove_irrelevant_requirements`): every `before`/`after` fallback list is
    trimmed to the names that are keys of the table, `app` always kept. The
    trimming removes from the list while iterating over it, as the Python
    loop does, so the element right after a removed one is not inspected. */
module Normalizer {
  import opened Common
  import opened Partitions

  /** A name normalisation keeps: a key of the table, or the anchor. */
  predicate Kept(x: string, check: set<string>) {
    x in check || x == Anchor
  }

  /** The Python `for x in r: if ...: r.remove(x)` loop, resumed at iterator
      position i: the iterator reads `r[i]` and moves on to `i + 1` even when
      the body has just shortened `r`. */
  function TrimFrom(r: seq<string>, i: nat, check: set<string>): (res: seq<string>)
    ensures multiset(res) <= multiset(r)
    decreases |r| - i
  {
    if i >= |r| then r
    else if !Kept(r[i], check) then
      RemoveFirstMultiset(r, r[i]);
      TrimFrom(RemoveFirst(r, r[i]), i + 1, check)
    else TrimFrom(r, i + 1, check)
  }

  /** The list `remove_item_not_in_list(list, check)` leaves behind. */
  function Trimmed(list: seq<string>, check: set<string>): seq<string> {
    TrimFrom(list, 0, check)
  }

  /** Reference definition: every name that is neither a key nor the anchor removed. */
  function Keep(s: seq<string>, check: set<string>): (r: seq<string>)
    ensures forall x :: x in r ==> Kept(x, check)
  {
    if s == [] then []
    else if Kept(s[0], check) then [s[0]] + Keep(s[1..], check)
    else Keep(s[1..], check)
  }

  /** No two neighbouring names are both dropped: the case in which the
      skipping of the Python loop makes no difference. */
  predicate NoAdjacentAbsent(s: seq<string>, check: set<string>) {
    forall i :: 0 <= i < |s| - 1 ==> Kept(s[i], check) || Kept(s[i + 1], check)
  }

  /** `trimmed` arises from `list` by deleting names, in order, and every
      table key and every `app` of `list` survives: only absent names go. */
  ghost predicate TrimmedFrom(list: seq<string>, trimmed: seq<string>, check: set<string>) {
    && SubseqOf(trimmed, list)
    && multiset(trimmed) <= multiset(list)
    && forall y :: Kept(y, check) ==> multiset(trimmed)[y] == multiset(list)[y]
  }

  lemma {:induction false} TrimFromRemovesOnlyAbsent(r: seq<string>, i: nat, check: set<string>)
    ensures TrimmedFrom(r, TrimFrom(r, i, check), check)
    decreases |r| - i
  {
    if i >= |r| {
      SubseqRefl(r);
    } else if !Kept(r[i], check) {
      var r' := RemoveFirst(r, r[i]);
      TrimFromRemovesOnlyAbsent(r', i + 1, check);
      RemoveFirstSubseq(r, r[i]);
      RemoveFirstMultiset(r, r[i]);
      SubseqTrans(TrimFrom(r', i + 1, check), r', r);
      SubseqMembers(TrimFrom(r', i + 1, check), r);
    } else {
      TrimFromRemovesOnlyAbsent(r, i + 1, check);
    }
  }

  /** Normalisation never drops a table key or `app`, drops nothing but
      absent names, and keeps the order of what it keeps. */
  lemma TrimmedRemovesOnlyAbsent(list: seq<string>, check: set<string>)
    ensures TrimmedFrom(list, Trimmed(list, check), check)
  {
    TrimFromRemovesOnlyAbsent(list, 0, check);
  }

  lemma NoAdjacentAbsentSuffix(s: seq<string>, k: nat, check: set<string>)
    requires NoAdjacentAbsent(s, check) && k <= |s|
    ensures NoAdjacentAbsent(s[k..], check)
  {
    forall i | 0 <= i < |s[k..]| - 1 ensures Kept(s[k..][i], check) || Kept(s[k..][i + 1], check) {
      assert s[k..][i] == s[k + i] && s[k..][i + 1] == s[k + i + 1];
    }
  }

  /** A kept name is looked at and left in place. */
  lemma TrimFromKeptStep(q: seq<string>, s: seq<string>, check: set<string>)
    requires s != [] && Kept(s[0], check)
    ensures TrimFrom(q + s, |q|, check) == TrimFrom((q + [s[0]]) + s[1..], |q + [s[0]]|, check)
  {
    assert (q + s)[|q|] == s[0];
    assert q + s == (q + [s[0]]) + s[1..];
  }

  /** An absent name is removed, and the name after it is skipped. */
  lemma TrimFromAbsentStep(q: seq<string>, s: seq<string>, check: set<string>)
    requires forall x :: x in q ==> Kept(x, check)
    requires s != [] && !Kept(s[0], check)
    ensures TrimFrom(q + s, |q|, check) == TrimFrom(q + s[1..], |q| + 1, check)
  {
    assert (q + s)[|q|] == s[0];
    assert (q + s)[..|q|] == q;
    assert s[0] !in q;
    assert IndexOf(q + s, s[0]) == Some(|q|);
    assert RemoveFirst(q + s, s[0]) == q + s[1..];
  }

  /** Keep on a list whose head is kept, written after a prefix. */
  lemma KeepKeptHead(q: seq<string>, s: seq<string>, check: set<string>)
    requires s != [] && Kept(s[0], check)
    ensures (q + [s[0]]) + Keep(s[1..], check) == q + Keep(s, check)
  {
    var rest := Keep(s[1..], check);
    assert Keep(s, check) == [s[0]] + rest;
    assert (q + [s[0]]) + rest == q + ([s[0]] + rest);
  }

  /** Keep on a list whose head is dropped and whose second name is kept. */
  lemma KeepAbsentHead(q: seq<string>, s: seq<string>, check: set<string>)
    requires |s| >= 2 && !Kept(s[0], check) && Kept(s[1], check)
    ensures (q + [s[1]]) + Keep(s[2..], check) == q + Keep(s, check)
  {
    var rest := Keep(s[2..], check);
    assert Keep(s, check) == Keep(s[1..], check);
    assert s[1..][1..] == s[2..];
    assert Keep(s[1..], check) == [s[1]] + rest;
    assert (q + [s[1]]) + rest == q + ([s[1]] + rest);
  }

  lemma KeptCase(q: seq<string>, s: seq<string>, check: set<string>)
    requires s != [] && Kept(s[0], check)
    requires TrimFrom((q + [s[0]]) + s[1..], |q + [s[0]]|, check) == (q + [s[0]]) + Keep(s[1..], check)
    ensures TrimFrom(q + s, |q|, check) == q + Keep(s, check)
  {
    TrimFromKeptStep(q, s, check);
    KeepKeptHead(q, s, check);
  }

  /** After an absent name is removed, the list seen from the next position
      is the prefix, the kept second name, and the rest. */
  lemma AbsentShift(q: seq<string>, s: seq<string>)
    requires |s| >= 2
    ensures q + s[1..] == (q + [s[1]]) + s[2..] && |q + [s[1]]| == |q| + 1
  {
  }

  lemma AbsentCase(q: seq<string>, s: seq<string>, check: set<string>)
    requires forall x :: x in q ==> Kept(x, check)
    requires |s| >= 2 && !Kept(s[0], check) && Kept(s[1], check)
    requires TrimFrom((q + [s[1]]) + s[2..], |q + [s[1]]|, check) == (q + [s[1]]) + Keep(s[2..], check)
    ensures TrimFrom(q + s, |q|, check) == q + Keep(s, check)
  {
    TrimFromAbsentStep(q, s, check);
    AbsentShift(q, s);
    KeepAbsentHead(q, s, check);
  }

  lemma {:induction false} TrimFromKeep(q: seq<string>, s: seq<string>, check: set<string>)
    requires forall x :: x in q ==> Kept(x, check)
    requires NoAdjacentAbsent(s, check)
    ensures TrimFrom(q + s, |q|, check) == q + Keep(s, check)
    decreases |s|
  {
    if s == [] {
      assert q + s == q;
    } else if Kept(s[0], check) {
      NoAdjacentAbsentSuffix(s, 1, check);
      TrimFromKeep(q + [s[0]], s[1..], check);
      KeptCase(q, s, check);
    } else if |s| == 1 {
      TrimFromAbsentStep(q, s, check);
      assert q + s[1..] == q;
    } else {
      NoAdjacentAbsentSuffix(s, 2, check);
      TrimFromKeep(q + [s[1]], s[2..], check);
      AbsentCase(q, s, check);
    }
  }

  /** When no two neighbouring names are both absent, the in-place loop
      computes exactly the reference filter. */
  lemma TrimmedIsKeep(list: seq<string>, check: set<string>)
    requires NoAdjacentAbsent(list, check)
    ensures Trimmed(list, check) == Keep(list, check)
  {
    TrimFromKeep([], list, check);
    assert [] + list == list;
  }

  /** The skipping in action: with `x` and `y` both absent, `y` survives. */
  lemma TrimmedSkipsAfterRemoval()
    ensures Trimmed(["x", "y", Anchor], {}) == ["y", Anchor]
    ensures Keep(["x", "y", Anchor], {}) == [Anchor]
  {
    var l: seq<string> := ["x", "y", Anchor];
    assert IndexOf(l, "x") == Some(0);
    assert RemoveFirst(l, "x") == ["y", Anchor];
    assert TrimFrom(l, 0, {}) == TrimFrom(["y", Anchor], 1, {});
    assert Kept(Anchor, {});
    assert TrimFrom(["y", Anchor], 1, {}) == TrimFrom(["y", Anchor], 2, {}) == ["y", Anchor];
    assert Keep([Anchor], {}) == [Anchor];
    assert Keep(["y", Anchor], {}) == [Anchor] by { assert ["y", Anchor][1..] == [Anchor]; }
    assert l[1..] == ["y", Anchor];
  }

  /** `remove_item_not_in_list`: the fallback list after the Python loop. */
  method RemoveItemNotInList(list: seq<string>, check: set<string>) returns (r: seq<string>)
    ensures r == Trimmed(list, check)
    ensures TrimmedFrom(list, r, check)
    ensures NoAdjacentAbsent(list, check) ==> r == Keep(list, check)
  {
    r := list;
    var i := 0;
    while i < |r|
      invariant TrimFrom(r, i, check) == Trimmed(list, check)
      decreases |r| - i
    {
      var x := r[i];
      i := i + 1;
      if !Kept(x, check) {
        r := RemoveFirst(r, x);
      }
    }
    TrimmedRemovesOnlyAbsent(list, check);
    if NoAdjacentAbsent(list, check) {
      TrimmedIsKeep(list, check);
    }
  }

  /** One entry after its `before` or `after` list has been trimmed. */
  function TrimChain(e: Entry, d: Dir, check: set<string>): Entry {
    match e.placement
    case Some(p) =>
      (match Chain(p, d)
       case Some(l) => e.(placement := Some(WithChain(p, d, Trimmed(l, check))))
       case None => e)
    case None => e
  }

  /** `m` is `m0` with the entries of the keys in `done` trimmed. */
  ghost predicate TrimmedUpTo(m0: map<string, Entry>, m: map<string, Entry>, done: seq<string>, d: Dir, check: set<string>) {
    && m.Keys == m0.Keys
    && forall k :: k in m ==> m[k] == if k in done then TrimChain(m0[k], d, check) else m0[k]
  }

  lemma TrimmedUpToStep(m0: map<string, Entry>, m: map<string, Entry>, done: seq<string>, x: string,
                        d: Dir, check: set<string>, m': map<string, Entry>)
    requires TrimmedUpTo(m0, m, done, d, check) && x in m && x !in done
    requires m' == m[x := TrimChain(m[x], d, check)]
    ensures TrimmedUpTo(m0, m', done + [x], d, check)
  {
    forall k | k in m' ensures m'[k] == if k in done + [x] then TrimChain(m0[k], d, check) else m0[k] {
      assert k in done + [x] <==> k in done || k == x;
    }
  }

  /** An entry whose placement or `d` list is missing is left as it is. */
  lemma TrimmedUpToKeep(m0: map<string, Entry>, m: map<string, Entry>, done: seq<string>, x: string,
                        d: Dir, check: set<string>)
    requires TrimmedUpTo(m0, m, done, d, check) && x in m && x !in done
    requires m[x].placement.None? || Chain(m[x].placement.value, d).None?
    ensures TrimmedUpTo(m0, m, done + [x], d, check)
  {
    forall k | k in m ensures m[k] == if k in done + [x] then TrimChain(m0[k], d, check) else m0[k] {
      assert k in done + [x] <==> k in done || k == x;
    }
  }

  /** The entry with its trimmed `d` list. */
  lemma TrimChainOf(e: Entry, d: Dir, check: set<string>, l: seq<string>)
    requires e.placement.Some? && Chain(e.placement.value, d).Some? && l == Trimmed(Chain(e.placement.value, d).value, check)
    ensures TrimChain(e, d, check) == e.(placement := Some(WithChain(e.placement.value, d, l)))
  {
  }

  lemma TrimmedUpToAll(m0: map<string, Entry>, m: map<string, Entry>, done: seq<string>, d: Dir, check: set<string>)
    requires TrimmedUpTo(m0, m, done, d, check) && forall k :: k in m0 ==> k in done
    ensures forall k :: k in m ==> m[k] == TrimChain(m0[k], d, check)
  {
  }

  function NormalizeEntry(e: Entry, check: set<string>): Entry {
    TrimChain(TrimChain(e, Before, check), After, check)
  }

  /** The table after `remove_irrelevant_requirements`; names are checked
      against the keys of the whole table, spans included. */
  function Normalized(t: Table): (r: Table)
    requires t.Valid()
    ensures r.Valid() && r.keys == t.keys && r.entries.Keys == t.entries.Keys
  {
    Table(t.keys, map k | k in t.entries :: NormalizeEntry(t.entries[k], t.entries.Keys))
  }

  ghost predicate ChainNormalized(p: Placement, p': Placement, d: Dir, check: set<string>) {
    && (Chain(p, d).Some? <==> Chain(p', d).Some?)
    && (Chain(p, d).Some? ==> TrimmedFrom(Chain(p, d).value, Chain(p', d).value, check))
  }

  /** What normalisation may do to an entry: trim its fallback lists, nothing else. */
  ghost predicate EntryNormalized(e: Entry, e': Entry, check: set<string>) {
    && e'.size == e.size && e'.address == e.address
    && e'.inside == e.inside && e'.subPartitions == e.subPartitions
    && (e.placement.Some? <==> e'.placement.Some?)
    && (e.placement.Some? && e.placement.value.Str? ==> e'.placement == e.placement)
    && (e.placement.Some? && e.placement.value.Rules? ==>
          && e'.placement.value.Rules?
          && ChainNormalized(e.placement.value, e'.placement.value, Before, check)
          && ChainNormalized(e.placement.value, e'.placement.value, After, check))
  }

  lemma TrimChainSpec(e: Entry, d: Dir, check: set<string>)
    ensures var e' := TrimChain(e, d, check);
      && e'.size == e.size && e'.address == e.address
      && e'.inside == e.inside && e'.subPartitions == e.subPartitions
      && (e.placement.Some? <==> e'.placement.Some?)
      && (e.placement.Some? ==>
            && (e.placement.value.Str? ==> e'.placement == e.placement)
            && (e.placement.value.Rules? ==> e'.placement.value.Rules?)
            && (forall d' :: d' != d ==> Chain(e'.placement.value, d') == Chain(e.placement.value, d'))
            && ChainNormalized(e.placement.value, e'.placement.value, d, check))
  {
    if e.placement.Some? && Chain(e.placement.value, d).Some? {
      TrimmedRemovesOnlyAbsent(Chain(e.placement.value, d).value, check);
    }
  }

  /** `remove_irrelevant_requirements` keeps every key and touches only the
      `before`/`after` lists, each of which loses absent names only. */
  lemma NormalizedOnlyTrimsChains(t: Table)
    requires t.Valid()
    ensures forall k :: k in t.entries ==>
      EntryNormalized(t.entries[k], Normalized(t).entries[k], t.entries.Keys)
  {
    forall k | k in t.entries
      ensures EntryNormalized(t.entries[k], Normalized(t).entries[k], t.entries.Keys)
    {
      var e := t.entries[k];
      TrimChainSpec(e, Before, t.entries.Keys);
      TrimChainSpec(TrimChain(e, Before, t.entries.Keys), After, t.entries.Keys);
    }
  }

  /** Every name in the entry's `before` and `after` lists is kept. */
  predicate ChainsKnown(e: Entry, check: set<string>) {
    e.placement.Some? ==>
      && (Chain(e.placement.value, Before).Some? ==> forall y :: y in Chain(e.placement.value, Before).value ==> Kept(y, check))
      && (Chain(e.placement.value, After).Some? ==> forall y :: y in Chain(e.placement.value, After).value ==> Kept(y, check))
  }

  lemma {:induction false} TrimFromAllKept(r: seq<string>, i: nat, check: set<string>)
    requires forall x :: x in r ==> Kept(x, check)
    ensures TrimFrom(r, i, check) == r
    decreases |r| - i
  {
    if i < |r| {
      TrimFromAllKept(r, i + 1, check);
    }
  }

  lemma TrimChainKnown(e: Entry, d: Dir, check: set<string>)
    requires ChainsKnown(e, check)
    ensures TrimChain(e, d, check) == e && ChainsKnown(TrimChain(e, d, check), check)
  {
    if e.placement.Some? && Chain(e.placement.value, d).Some? {
      TrimFromAllKept(Chain(e.placement.value, d).value, 0, check);
    }
  }

  /** `remove_irrelevant_requirements` leaves a table whose lists name only
      its keys and `app` as it is. */
  lemma NormalizedUnchanged(t: Table)
    requires t.Valid() && forall k :: k in t.entries ==> ChainsKnown(t.entries[k], t.entries.Keys)
    ensures Normalized(t) == t
  {
    forall k | k in t.entries
      ensures Normalized(t).entries[k] == t.entries[k]
    {
      TrimChainKnown(t.entries[k], Before, t.entries.Keys);
      TrimChainKnown(t.entries[k], After, t.entries.Keys);
    }
  }
}
