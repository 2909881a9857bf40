/** The scenarios of the script's `test()` function, evaluated in the model. */
module Fixtures {
  import opened Common
  import opened Partitions
  import opened Normalizer
  import opened SpanExtractor
  import opened Resolver
  import opened AddressAssigner
  import opened SpanApportioner
  import opened PartitionManager

  function PlacedBefore(l: seq<string>, size: int): Entry {
    Entry(Some(Rules(Some(l), None)), Some(size), None, None, None)
  }

  function PlacedAfter(l: seq<string>, size: int): Entry {
    Entry(Some(Rules(None, Some(l))), Some(size), None, None, None)
  }

  function AtLast(size: int): Entry {
    Entry(Some(Str(LastTag)), Some(size), None, None, None)
  }

  const NoNames: seq<string> := []

  const App: Entry := Entry(Some(Str("")), None, None, None, None)

  /** No entry makes `item_is_placed` raise: each has a placement and no
      empty fallback list. */
  predicate Claimable(t: Table) {
    forall x :: x in t.entries ==>
      t.entries[x].placement.Some? &&
      Chain(t.entries[x].placement.value, Before) != Some([]) &&
      Chain(t.entries[x].placement.value, After) != Some([])
  }

  /** The claimants of a slot, when exactly the names `xs` claim it. */
  lemma ClaimantsExact(t: Table, item: string, d: Dir, xs: seq<string>)
    requires t.Valid() && Claimable(t) && SubseqOf(xs, t.keys)
    requires forall x :: x in t.entries ==> (Claims(t.entries[x], item, d) <==> x in xs)
    ensures Claimants(t, item, d) == Ok(xs)
  {
    SubseqMembers(xs, t.keys);
    SubseqUnique(Claimants(t, item, d).value, xs, t.keys);
  }

  /** Two claimants of the same slot. */
  lemma ClaimantsTwo(t: Table, item: string, d: Dir, x: string, y: string)
    requires t.Valid() && Claimable(t) && x != y && x in t.entries && y in t.entries
    requires Claims(t.entries[x], item, d) && Claims(t.entries[y], item, d)
    ensures Claimants(t, item, d).Ok? && |Claimants(t, item, d).value| >= 2
  {
    var r := Claimants(t, item, d).value;
    assert x in r && y in r;
    var i :| 0 <= i < |r| && r[i] == x;
    var j :| 0 <= j < |r| && r[j] == y;
    assert i != j;
  }

  /** One step of a pass: the single claimant goes next to the cursor. */
  lemma PassGo(t: Table, U: seq<string>, S: seq<string>, cur: string, d: Dir, strict: bool, x: string, k: nat)
    requires t.Valid() && Claimants(t, cur, d) == Ok([x]) && IndexOf(S, cur) == Some(k) && x in U
    ensures Pass(t, U, S, cur, d, strict)
      == Pass(t, RemoveFirst(U, x), InsertAt(S, if d == Before then k else k + 1, x), x, d, strict)
  {
    var deps := Claimants(t, cur, d).value;
    assert deps[0] == x && |deps| == 1;
  }

  lemma PassHalt(t: Table, U: seq<string>, S: seq<string>, cur: string, d: Dir, strict: bool)
    requires t.Valid() && Claimants(t, cur, d) == Ok([])
    ensures Pass(t, U, S, cur, d, strict) == Ok((U, S))
  {
  }

  /** Normalisation, when it maps every entry of `t` to that of `n`. */
  lemma NormalizedVia(t: Table, n: Table)
    requires t.Valid() && n.keys == t.keys && n.entries.Keys == t.entries.Keys
    requires forall k :: k in t.entries ==> n.entries[k] == NormalizeEntry(t.entries[k], t.entries.Keys)
    ensures Normalized(t) == n
  {
  }

  /** The keys a comprehension over the table selects, in key order. */
  lemma KeysWhereExact(t: Table, keep: Entry -> bool, xs: seq<string>)
    requires t.Valid() && Claimable(t) && SubseqOf(xs, t.keys)
    requires forall x :: x in t.entries ==> (keep(t.entries[x]) <==> x in xs)
    ensures KeysWhere(t, keep) == Ok(xs)
  {
    SubseqMembers(xs, t.keys);
    SubseqUnique(KeysWhere(t, keep).value, xs, t.keys);
  }

  /** The entries `Part` selects, when exactly the keys of `m` are selected. */
  lemma PartEntriesExact(t: Table, spans: bool, m: map<string, Entry>)
    requires t.Valid()
    requires forall k :: k in m ==> k in t.entries && m[k] == t.entries[k]
    requires forall k :: k in t.entries ==> (IsSpan(t.entries[k]) == spans <==> k in m)
    ensures Part(t, spans).entries == m
  {
    assert Part(t, spans).entries.Keys == m.Keys;
  }

  /** The keys `Part` selects, when exactly the names `xs` are selected. */
  lemma PartKeysExact(t: Table, spans: bool, xs: seq<string>)
    requires t.Valid() && SubseqOf(xs, t.keys)
    requires forall k :: k in t.entries ==> (IsSpan(t.entries[k]) == spans <==> k in xs)
    ensures Part(t, spans).keys == xs
  {
    SubseqMembers(xs, t.keys);
    SubseqUnique(Part(t, spans).keys, xs, t.keys);
  }

  /** One span laid out: its parents scanned, its children placed. */
  lemma ApportionVia(t: Table, span: string, e: Entry, first: Option<string>, parents: seq<string>,
                     subs: seq<string>, parent: string, size: int, base: int, r: Table)
    requires t.Valid() && e.inside == Some(parents) && e.subPartitions == Some(subs)
    requires Scan(t, parents, 0, first, 0) == Ok((Some(parent), size)) && size != 0 && |subs| > 0
    requires parent in t.entries && t.entries[parent].address == Some(base)
    requires LaidOut(t, span, subs, size / |subs|, base, |subs|) == r
    ensures Apportion(t, span, e, first) == Ok((r, Some(parent)))
  {
  }

  /** The first table of `test()`: `mcuboot` before `spm` before `app`, and
      the span `mcuboot_partitions` over `spm` and `app`. */
  const Boot: Entry := PlacedBefore(["spm", Anchor], 200)
  const Spm: Entry := PlacedBefore([Anchor], 100)
  const BootSpan: Entry := Entry(None, None, None, Some(["spm", Anchor]), Some(["primary", "secondary"]))
  const T1: Table := Table(["spm", "mcuboot", "mcuboot_partitions", Anchor],
    map["spm" := Spm, "mcuboot" := Boot, "mcuboot_partitions" := BootSpan, Anchor := App])

  const P1: Table := Table(["spm", "mcuboot", Anchor], map["spm" := Spm, "mcuboot" := Boot, Anchor := App])
  const S1: Table := Table(["mcuboot_partitions"], map["mcuboot_partitions" := BootSpan])

  lemma T1Valid()
    ensures T1.Valid()
  {
  }

  lemma T1Keys(k: string)
    requires k in T1.entries
    ensures k == "spm" || k == "mcuboot" || k == "mcuboot_partitions" || k == Anchor
  {
  }

  lemma T1At(k: string)
    requires k in T1.entries
    ensures ChainsKnown(T1.entries[k], T1.entries.Keys)
    ensures IsSpan(T1.entries[k]) <==> k == "mcuboot_partitions"
  {
    T1Keys(k);
  }

  lemma T1Normalized()
    ensures T1.Valid() && Normalized(T1) == T1
  {
    T1Valid();
    forall k | k in T1.entries ensures ChainsKnown(T1.entries[k], T1.entries.Keys) {
      T1At(k);
    }
    NormalizedUnchanged(T1);
  }

  lemma T1SpanOrder()
    ensures SubseqOf(S1.keys, T1.keys)
  {
    SubseqAt(S1.keys, T1.keys, [2]);
  }

  lemma T1RestOrder()
    ensures SubseqOf(P1.keys, T1.keys)
  {
    SubseqAt(P1.keys, T1.keys, [0, 1, 3]);
  }

  lemma T1SpanKeys()
    ensures T1.Valid() && Part(T1, true).keys == S1.keys
  {
    T1Valid();
    T1SpanOrder();
    forall k | k in T1.entries ensures IsSpan(T1.entries[k]) == true <==> k in S1.keys {
      T1At(k);
    }
    PartKeysExact(T1, true, S1.keys);
  }

  lemma T1RestKeys()
    ensures T1.Valid() && Part(T1, false).keys == P1.keys
  {
    T1Valid();
    T1RestOrder();
    forall k | k in T1.entries ensures IsSpan(T1.entries[k]) == false <==> k in P1.keys {
      T1At(k);
    }
    PartKeysExact(T1, false, P1.keys);
  }

  lemma T1SpanEntries()
    ensures T1.Valid() && Part(T1, true).entries == S1.entries
  {
    T1Valid();
    forall k | k in T1.entries ensures IsSpan(T1.entries[k]) == true <==> k in S1.entries {
      T1At(k);
    }
    PartEntriesExact(T1, true, S1.entries);
  }

  lemma T1RestEntries()
    ensures T1.Valid() && Part(T1, false).entries == P1.entries
  {
    T1Valid();
    forall k | k in T1.entries ensures IsSpan(T1.entries[k]) == false <==> k in P1.entries {
      T1At(k);
    }
    PartEntriesExact(T1, false, P1.entries);
  }

  lemma P1Valid()
    ensures P1.Valid() && Claimable(P1)
  {
  }

  lemma P1At(k: string)
    requires k in P1.entries
    ensures NeedsPlacing(P1.entries[k]) <==> k in ["spm", "mcuboot"]
    ensures !IsLast(P1.entries[k])
    ensures Claims(P1.entries[k], Anchor, Before) <==> k in ["spm"]
    ensures Claims(P1.entries[k], "spm", Before) <==> k in ["mcuboot"]
    ensures !Claims(P1.entries[k], "mcuboot", Before)
  {
  }

  lemma P1Images()
    ensures P1.Valid() && ImagesToResolve(P1) == Ok(["spm", "mcuboot"])
  {
    P1Valid();
    SubseqAt(["spm", "mcuboot"], P1.keys, [0, 1]);
    forall k | k in P1.entries ensures NeedsPlacing(P1.entries[k]) <==> k in ["spm", "mcuboot"] {
      P1At(k);
    }
    KeysWhereExact(P1, NeedsPlacing, ["spm", "mcuboot"]);
  }

  lemma P1Last()
    ensures P1.Valid() && LastPartitions(P1) == Ok([])
  {
    P1Valid();
    forall k | k in P1.entries ensures IsLast(P1.entries[k]) <==> k in NoNames {
      P1At(k);
    }
    KeysWhereExact(P1, IsLast, []);
  }

  lemma P1BeforeApp()
    ensures P1.Valid() && Claimants(P1, Anchor, Before) == Ok(["spm"])
  {
    P1Valid();
    SubseqAt(["spm"], P1.keys, [0]);
    forall k | k in P1.entries ensures Claims(P1.entries[k], Anchor, Before) <==> k in ["spm"] {
      P1At(k);
    }
    ClaimantsExact(P1, Anchor, Before, ["spm"]);
  }

  lemma P1BeforeSpm()
    ensures P1.Valid() && Claimants(P1, "spm", Before) == Ok(["mcuboot"])
  {
    P1Valid();
    SubseqAt(["mcuboot"], P1.keys, [1]);
    forall k | k in P1.entries ensures Claims(P1.entries[k], "spm", Before) <==> k in ["mcuboot"] {
      P1At(k);
    }
    ClaimantsExact(P1, "spm", Before, ["mcuboot"]);
  }

  lemma P1BeforeBoot()
    ensures P1.Valid() && Claimants(P1, "mcuboot", Before) == Ok([])
  {
    P1Valid();
    forall k | k in P1.entries ensures Claims(P1.entries[k], "mcuboot", Before) <==> k in NoNames {
      P1At(k);
    }
    ClaimantsExact(P1, "mcuboot", Before, []);
  }

  lemma P1FirstStep()
    ensures P1.Valid()
    ensures Pass(P1, ["spm", "mcuboot"], [Anchor], Anchor, Before, true)
      == Pass(P1, ["mcuboot"], ["spm", Anchor], "spm", Before, true)
  {
    P1BeforeApp();
    P1FirstLists();
    PassGo(P1, ["spm", "mcuboot"], [Anchor], Anchor, Before, true, "spm", 0);
  }

  lemma P1FirstLists()
    ensures IndexOf([Anchor], Anchor) == Some(0)
    ensures RemoveFirst(["spm", "mcuboot"], "spm") == ["mcuboot"]
    ensures InsertAt([Anchor], 0, "spm") == ["spm", Anchor]
  {
    IndexOfSplit(NoNames, Anchor, NoNames);
    RemoveFirstSplit(NoNames, "spm", ["mcuboot"]);
    InsertAtFront([Anchor], "spm");
  }

  lemma P1SecondLists()
    ensures IndexOf(["spm", Anchor], "spm") == Some(0)
    ensures RemoveFirst(["mcuboot"], "mcuboot") == NoNames
    ensures InsertAt(["spm", Anchor], 0, "mcuboot") == ["mcuboot", "spm", Anchor]
  {
    IndexOfSplit(NoNames, "spm", [Anchor]);
    RemoveFirstSplit(NoNames, "mcuboot", NoNames);
    InsertAtFront(["spm", Anchor], "mcuboot");
  }

  lemma P1SecondStep()
    ensures P1.Valid()
    ensures Pass(P1, ["mcuboot"], ["spm", Anchor], "spm", Before, true) == Ok((NoNames, ["mcuboot", "spm", Anchor]))
  {
    P1BeforeSpm();
    P1BeforeBoot();
    P1SecondLists();
    PassGo(P1, ["mcuboot"], ["spm", Anchor], "spm", Before, true, "mcuboot", 0);
    PassHalt(P1, NoNames, ["mcuboot", "spm", Anchor], "mcuboot", Before, true);
  }

  lemma P1Passes()
    ensures P1.Valid()
    ensures SolvedDirection(P1, ["spm", "mcuboot"], [Anchor], Before) == Ok(([], ["mcuboot", "spm", Anchor]))
  {
    P1FirstStep();
    P1SecondStep();
  }

  /** `resolve` on the first table: `[mcuboot, spm, app]` and the span. */
  lemma Test1Resolved()
    ensures T1.Valid() && Resolved(T1) == Ok((["mcuboot", "spm", Anchor], S1))
  {
    T1Normalized();
    T1SpanKeys();
    T1RestKeys();
    T1SpanEntries();
    T1RestEntries();
    P1Images();
    P1Last();
    P1Passes();
  }

  lemma T1Prepared()
    ensures T1.Valid() && Prepared(T1) == P1
  {
    T1Normalized();
    T1RestKeys();
    T1RestEntries();
  }

  /** `set_addresses(td, s, 1000)` on the first table: `mcuboot` at 0,
      `spm` at 200, `app` at 300 with the remaining 700. */
  const Sol1: seq<string> := ["mcuboot", "spm", Anchor]
  const A1: Table := Table(P1.keys, P1.entries["mcuboot" := Boot.(address := Some(0))]
    ["spm" := Spm.(address := Some(200))][Anchor := App.(address := Some(300), size := Some(700))])

  const M1a: map<string, Entry> := WithAddress(P1.entries, "mcuboot", 0)
  const M1b: map<string, Entry> := WithAddress(M1a, "spm", 200)
  const M1c: map<string, Entry> := WithAddress(M1b, Anchor, 300)

  lemma T1Forward1()
    ensures Forward(P1.entries, Sol1, 1) == Ok(M1a)
  {
  }

  lemma T1Forward2()
    ensures Forward(P1.entries, Sol1, 2) == Ok(M1b)
  {
    T1Forward1();
    ForwardUnfold(P1.entries, Sol1, 2, M1a);
    assert M1a["mcuboot"].address == Some(0) && M1a["mcuboot"].size == Some(200);
  }

  lemma T1Forward3()
    ensures Forward(P1.entries, Sol1, 3) == Ok(M1c)
  {
    T1Forward2();
    ForwardUnfold(P1.entries, Sol1, 3, M1b);
    assert M1b["spm"].address == Some(200) && M1b["spm"].size == Some(100);
  }

  lemma Test1Addressed()
    ensures P1.Valid() && Addressed(P1, Sol1, 1000) == Ok(A1)
  {
    P1Valid();
    T1Forward3();
    T1Ends();
    AddressedVia(P1, Sol1, 1000, 2);
    FinishedEnd(P1, Sol1, 1000, 2, M1c);
  }

  lemma T1Ends()
    ensures IndexOf(Sol1, Anchor) == Some(2) && M1c.Keys == P1.entries.Keys
    ensures Anchor in M1c && M1c[Anchor].address == Some(300)
    ensures WithSize(M1c, Anchor, 1000 - 300) == A1.entries
  {
    IndexOfSplit(["mcuboot", "spm"], Anchor, NoNames);
    assert ["mcuboot", "spm"] + [Anchor] + NoNames == Sol1;
  }

  /** `set_sub_partition_address_and_size` on the first table: the span
      over `spm` (100) and `app` (700) split in two halves of 400 from the
      address of `spm`. */
  const F1: Table := A1.Put("mcuboot_partitions_primary", SizedAt(400, 200))
    .Put("mcuboot_partitions_secondary", SizedAt(400, 600))

  lemma A1Facts()
    ensures A1.Valid() && S1.Valid()
    ensures "spm" in A1.entries && A1.entries["spm"].size == Some(100) && A1.entries["spm"].address == Some(200)
    ensures Anchor in A1.entries && A1.entries[Anchor].size == Some(700)
  {
  }

  lemma T1Scan()
    ensures A1.Valid() && Scan(A1, ["spm", Anchor], 0, None, 0) == Ok((Some("spm"), 800))
  {
    A1Facts();
    assert Scan(A1, ["spm", Anchor], 2, Some("spm"), 800) == Ok((Some("spm"), 800));
    assert Scan(A1, ["spm", Anchor], 1, Some("spm"), 100) == Ok((Some("spm"), 800));
  }

  lemma T1LaidOut()
    ensures A1.Valid() && LaidOut(A1, "mcuboot_partitions", ["primary", "secondary"], 400, 200, 2) == F1
  {
    A1Facts();
    var span, subs := "mcuboot_partitions", ["primary", "secondary"];
    assert ChildName(span, "primary") == "mcuboot_partitions_primary";
    assert ChildName(span, "secondary") == "mcuboot_partitions_secondary";
    assert LaidOut(A1, span, subs, 400, 200, 0) == A1;
  }

  lemma T1Apportion()
    ensures A1.Valid() && Apportion(A1, "mcuboot_partitions", BootSpan, None) == Ok((F1, Some("spm")))
  {
    A1Facts();
    T1Scan();
    T1LaidOut();
    ApportionVia(A1, "mcuboot_partitions", BootSpan, None, ["spm", Anchor], ["primary", "secondary"], "spm", 800, 200, F1);
  }

  lemma Test1Apportioned()
    ensures A1.Valid() && S1.Valid() && Apportioned(A1, S1) == Ok(F1)
  {
    A1Facts();
    T1Apportion();
    assert ApportionFirst(A1, S1, 1) == Ok((F1, Some("spm")));
  }

  /** The first scenario end to end. */
  lemma Test1Generated()
    ensures T1.Valid() && Generated(T1, 1000) == Ok(F1)
  {
    Test1Resolved();
    T1Prepared();
    Test1Addressed();
    Test1Apportioned();
  }

  /** The third table of `test()`: a chain of five partitions before `app`,
      two after it, and a `'last'` partition with two in front of it. */
  const T3: Table := Table(["e", "a", "d", "c", "j", "i", "h", "f", "g", "b", Anchor], map[
    "e" := PlacedBefore([Anchor], 100),
    "a" := PlacedBefore(["b"], 100),
    "d" := PlacedBefore(["e"], 100),
    "c" := PlacedBefore(["d"], 100),
    "j" := AtLast(20),
    "i" := PlacedBefore(["j"], 20),
    "h" := PlacedBefore(["i"], 20),
    "f" := PlacedAfter([Anchor], 20),
    "g" := PlacedAfter(["f"], 20),
    "b" := PlacedBefore(["c"], 20),
    Anchor := App])

  lemma T3Distinct()
    ensures Distinct(T3.keys)
  {
  }

  lemma T3KeySet()
    ensures T3.entries.Keys == set k | k in T3.keys
  {
  }

  lemma T3ClaimableAt(k: string)
    requires k in T3.entries
    ensures T3.entries[k].placement.Some?
    ensures Chain(T3.entries[k].placement.value, Before) != Some([])
    ensures Chain(T3.entries[k].placement.value, After) != Some([])
  {
  }

  lemma T3Valid()
    ensures T3.Valid() && Claimable(T3)
  {
    T3Distinct();
    T3KeySet();
    forall k | k in T3.entries
      ensures T3.entries[k].placement.Some? &&
        Chain(T3.entries[k].placement.value, Before) != Some([]) &&
        Chain(T3.entries[k].placement.value, After) != Some([])
    {
      T3ClaimableAt(k);
    }
  }

  lemma T3KnownAt(k: string)
    requires k in T3.entries
    ensures ChainsKnown(T3.entries[k], T3.entries.Keys) && !IsSpan(T3.entries[k])
  {
  }

  lemma T3ImageAt(k: string)
    requires k in T3.entries
    ensures NeedsPlacing(T3.entries[k]) <==> k != "j" && k != Anchor
    ensures IsLast(T3.entries[k]) <==> k == "j"
  {
  }

  lemma T3Prepared()
    ensures T3.Valid() && Prepared(T3) == T3 && Extracted(Normalized(T3)).0 == Table([], map[])
  {
    T3Valid();
    forall k | k in T3.entries ensures ChainsKnown(T3.entries[k], T3.entries.Keys) && !IsSpan(T3.entries[k]) {
      T3KnownAt(k);
    }
    NormalizedUnchanged(T3);
    ExtractedWithoutSpans(T3);
  }

  const U3: seq<string> := ["e", "a", "d", "c", "i", "h", "f", "g", "b"]

  lemma U3Order()
    ensures SubseqOf(U3, T3.keys)
  {
    SubseqAt(U3, T3.keys, [0, 1, 2, 3, 5, 6, 7, 8, 9]);
  }

  lemma U3At(k: string)
    requires k in T3.entries
    ensures NeedsPlacing(T3.entries[k]) <==> k in U3
  {
    T3ImageAt(k);
  }

  lemma T3Images()
    ensures T3.Valid() && ImagesToResolve(T3) == Ok(U3)
  {
    T3Valid();
    U3Order();
    forall k | k in T3.entries ensures NeedsPlacing(T3.entries[k]) <==> k in U3 {
      U3At(k);
    }
    KeysWhereExact(T3, NeedsPlacing, U3);
  }

  lemma T3Last()
    ensures T3.Valid() && LastPartitions(T3) == Ok(["j"])
  {
    T3Valid();
    SubseqAt(["j"], T3.keys, [4]);
    forall k | k in T3.entries ensures IsLast(T3.entries[k]) <==> k in ["j"] {
      T3ImageAt(k);
    }
    KeysWhereExact(T3, IsLast, ["j"]);
  }

  lemma T3BeforeJAt(k: string)
    requires k in T3.entries
    ensures Claims(T3.entries[k], "j", Before) <==> k == "i"
  {
  }

  lemma T3BeforeJ()
    ensures T3.Valid() && Claimants(T3, "j", Before) == Ok(["i"])
  {
    T3Valid();
    SubseqAt(["i"], T3.keys, [5]);
    forall k | k in T3.entries ensures Claims(T3.entries[k], "j", Before) <==> k in ["i"] {
      T3BeforeJAt(k);
    }
    ClaimantsExact(T3, "j", Before, ["i"]);
  }

  lemma T3BeforeIAt(k: string)
    requires k in T3.entries
    ensures Claims(T3.entries[k], "i", Before) <==> k == "h"
  {
  }

  lemma T3BeforeI()
    ensures T3.Valid() && Claimants(T3, "i", Before) == Ok(["h"])
  {
    T3Valid();
    SubseqAt(["h"], T3.keys, [6]);
    forall k | k in T3.entries ensures Claims(T3.entries[k], "i", Before) <==> k in ["h"] {
      T3BeforeIAt(k);
    }
    ClaimantsExact(T3, "i", Before, ["h"]);
  }

  lemma T3BeforeHAt(k: string)
    requires k in T3.entries
    ensures Claims(T3.entries[k], "h", Before) <==> false
  {
  }

  lemma T3BeforeH()
    ensures T3.Valid() && Claimants(T3, "h", Before) == Ok([])
  {
    T3Valid();
    forall k | k in T3.entries ensures Claims(T3.entries[k], "h", Before) <==> k in [] {
      T3BeforeHAt(k);
    }
    ClaimantsExact(T3, "h", Before, []);
  }

  lemma T3BeforeAppAt(k: string)
    requires k in T3.entries
    ensures Claims(T3.entries[k], Anchor, Before) <==> k == "e"
  {
  }

  lemma T3BeforeApp()
    ensures T3.Valid() && Claimants(T3, Anchor, Before) == Ok(["e"])
  {
    T3Valid();
    SubseqAt(["e"], T3.keys, [0]);
    forall k | k in T3.entries ensures Claims(T3.entries[k], Anchor, Before) <==> k in ["e"] {
      T3BeforeAppAt(k);
    }
    ClaimantsExact(T3, Anchor, Before, ["e"]);
  }

  lemma T3BeforeEAt(k: string)
    requires k in T3.entries
    ensures Claims(T3.entries[k], "e", Before) <==> k == "d"
  {
  }

  lemma T3BeforeE()
    ensures T3.Valid() && Claimants(T3, "e", Before) == Ok(["d"])
  {
    T3Valid();
    SubseqAt(["d"], T3.keys, [2]);
    forall k | k in T3.entries ensures Claims(T3.entries[k], "e", Before) <==> k in ["d"] {
      T3BeforeEAt(k);
    }
    ClaimantsExact(T3, "e", Before, ["d"]);
  }

  lemma T3BeforeDAt(k: string)
    requires k in T3.entries
    ensures Claims(T3.entries[k], "d", Before) <==> k == "c"
  {
  }

  lemma T3BeforeD()
    ensures T3.Valid() && Claimants(T3, "d", Before) == Ok(["c"])
  {
    T3Valid();
    SubseqAt(["c"], T3.keys, [3]);
    forall k | k in T3.entries ensures Claims(T3.entries[k], "d", Before) <==> k in ["c"] {
      T3BeforeDAt(k);
    }
    ClaimantsExact(T3, "d", Before, ["c"]);
  }

  lemma T3BeforeCAt(k: string)
    requires k in T3.entries
    ensures Claims(T3.entries[k], "c", Before) <==> k == "b"
  {
  }

  lemma T3BeforeC()
    ensures T3.Valid() && Claimants(T3, "c", Before) == Ok(["b"])
  {
    T3Valid();
    SubseqAt(["b"], T3.keys, [9]);
    forall k | k in T3.entries ensures Claims(T3.entries[k], "c", Before) <==> k in ["b"] {
      T3BeforeCAt(k);
    }
    ClaimantsExact(T3, "c", Before, ["b"]);
  }

  lemma T3BeforeBAt(k: string)
    requires k in T3.entries
    ensures Claims(T3.entries[k], "b", Before) <==> k == "a"
  {
  }

  lemma T3BeforeB()
    ensures T3.Valid() && Claimants(T3, "b", Before) == Ok(["a"])
  {
    T3Valid();
    SubseqAt(["a"], T3.keys, [1]);
    forall k | k in T3.entries ensures Claims(T3.entries[k], "b", Before) <==> k in ["a"] {
      T3BeforeBAt(k);
    }
    ClaimantsExact(T3, "b", Before, ["a"]);
  }

  lemma T3BeforeAAt(k: string)
    requires k in T3.entries
    ensures Claims(T3.entries[k], "a", Before) <==> false
  {
  }

  lemma T3BeforeA()
    ensures T3.Valid() && Claimants(T3, "a", Before) == Ok([])
  {
    T3Valid();
    forall k | k in T3.entries ensures Claims(T3.entries[k], "a", Before) <==> k in [] {
      T3BeforeAAt(k);
    }
    ClaimantsExact(T3, "a", Before, []);
  }

  lemma T3AfterAppAt(k: string)
    requires k in T3.entries
    ensures Claims(T3.entries[k], Anchor, After) <==> k == "f"
  {
  }

  lemma T3AfterApp()
    ensures T3.Valid() && Claimants(T3, Anchor, After) == Ok(["f"])
  {
    T3Valid();
    SubseqAt(["f"], T3.keys, [7]);
    forall k | k in T3.entries ensures Claims(T3.entries[k], Anchor, After) <==> k in ["f"] {
      T3AfterAppAt(k);
    }
    ClaimantsExact(T3, Anchor, After, ["f"]);
  }

  lemma T3AfterFAt(k: string)
    requires k in T3.entries
    ensures Claims(T3.entries[k], "f", After) <==> k == "g"
  {
  }

  lemma T3AfterF()
    ensures T3.Valid() && Claimants(T3, "f", After) == Ok(["g"])
  {
    T3Valid();
    SubseqAt(["g"], T3.keys, [8]);
    forall k | k in T3.entries ensures Claims(T3.entries[k], "f", After) <==> k in ["g"] {
      T3AfterFAt(k);
    }
    ClaimantsExact(T3, "f", After, ["g"]);
  }

  lemma T3AfterGAt(k: string)
    requires k in T3.entries
    ensures Claims(T3.entries[k], "g", After) <==> false
  {
  }

  lemma T3AfterG()
    ensures T3.Valid() && Claimants(T3, "g", After) == Ok([])
  {
    T3Valid();
    forall k | k in T3.entries ensures Claims(T3.entries[k], "g", After) <==> k in [] {
      T3AfterGAt(k);
    }
    ClaimantsExact(T3, "g", After, []);
  }

  lemma T3Step1()
    ensures T3.Valid()
    ensures Pass(T3, ["e", "a", "d", "c", "i", "h", "f", "g", "b"], [Anchor, "j"], "j", Before, false) == Pass(T3, ["e", "a", "d", "c", "h", "f", "g", "b"], [Anchor, "i", "j"], "i", Before, false)
  {
    T3BeforeJ();
    T3Step1Index();
    T3Step1Remove();
    T3Step1Insert();
    PassGo(T3, ["e", "a", "d", "c", "i", "h", "f", "g", "b"], [Anchor, "j"], "j", Before, false, "i", 1);
  }

  lemma T3Step1Index()
    ensures IndexOf([Anchor, "j"], "j") == Some(1)
  {
    IndexOfSplit([Anchor], "j", NoNames);
    assert [Anchor] + ["j"] + NoNames == [Anchor, "j"];
  }

  lemma T3Step1Remove()
    ensures RemoveFirst(["e", "a", "d", "c", "i", "h", "f", "g", "b"], "i") == ["e", "a", "d", "c", "h", "f", "g", "b"]
  {
    RemoveFirstSplit(["e", "a", "d", "c"], "i", ["h", "f", "g", "b"]);
    assert ["e", "a", "d", "c"] + ["i"] + ["h", "f", "g", "b"] == ["e", "a", "d", "c", "i", "h", "f", "g", "b"];
    assert ["e", "a", "d", "c"] + ["h", "f", "g", "b"] == ["e", "a", "d", "c", "h", "f", "g", "b"];
  }

  lemma T3Step1Insert()
    ensures InsertAt([Anchor, "j"], 1, "i") == [Anchor, "i", "j"]
  {
    InsertAtSplit([Anchor], "i", ["j"]);
    assert [Anchor] + ["j"] == [Anchor, "j"];
    assert [Anchor] + ["i"] + ["j"] == [Anchor, "i", "j"];
  }

  lemma T3Step2()
    ensures T3.Valid()
    ensures Pass(T3, ["e", "a", "d", "c", "h", "f", "g", "b"], [Anchor, "i", "j"], "i", Before, false) == Pass(T3, ["e", "a", "d", "c", "f", "g", "b"], [Anchor, "h", "i", "j"], "h", Before, false)
  {
    T3BeforeI();
    T3Step2Index();
    T3Step2Remove();
    T3Step2Insert();
    PassGo(T3, ["e", "a", "d", "c", "h", "f", "g", "b"], [Anchor, "i", "j"], "i", Before, false, "h", 1);
  }

  lemma T3Step2Index()
    ensures IndexOf([Anchor, "i", "j"], "i") == Some(1)
  {
    IndexOfSplit([Anchor], "i", ["j"]);
    assert [Anchor] + ["i"] + ["j"] == [Anchor, "i", "j"];
  }

  lemma T3Step2Remove()
    ensures RemoveFirst(["e", "a", "d", "c", "h", "f", "g", "b"], "h") == ["e", "a", "d", "c", "f", "g", "b"]
  {
    RemoveFirstSplit(["e", "a", "d", "c"], "h", ["f", "g", "b"]);
    assert ["e", "a", "d", "c"] + ["h"] + ["f", "g", "b"] == ["e", "a", "d", "c", "h", "f", "g", "b"];
    assert ["e", "a", "d", "c"] + ["f", "g", "b"] == ["e", "a", "d", "c", "f", "g", "b"];
  }

  lemma T3Step2Insert()
    ensures InsertAt([Anchor, "i", "j"], 1, "h") == [Anchor, "h", "i", "j"]
  {
    InsertAtSplit([Anchor], "h", ["i", "j"]);
    assert [Anchor] + ["i", "j"] == [Anchor, "i", "j"];
    assert [Anchor] + ["h"] + ["i", "j"] == [Anchor, "h", "i", "j"];
  }

  lemma T3Step3()
    ensures T3.Valid() && Pass(T3, ["e", "a", "d", "c", "f", "g", "b"], [Anchor, "h", "i", "j"], "h", Before, false) == Ok((["e", "a", "d", "c", "f", "g", "b"], [Anchor, "h", "i", "j"]))
  {
    T3BeforeH();
    PassHalt(T3, ["e", "a", "d", "c", "f", "g", "b"], [Anchor, "h", "i", "j"], "h", Before, false);
  }

  lemma T3Step4()
    ensures T3.Valid()
    ensures Pass(T3, ["e", "a", "d", "c", "f", "g", "b"], [Anchor, "h", "i", "j"], Anchor, Before, true) == Pass(T3, ["a", "d", "c", "f", "g", "b"], ["e", Anchor, "h", "i", "j"], "e", Before, true)
  {
    T3BeforeApp();
    T3Step4Index();
    T3Step4Remove();
    T3Step4Insert();
    PassGo(T3, ["e", "a", "d", "c", "f", "g", "b"], [Anchor, "h", "i", "j"], Anchor, Before, true, "e", 0);
  }

  lemma T3Step4Index()
    ensures IndexOf([Anchor, "h", "i", "j"], Anchor) == Some(0)
  {
    IndexOfSplit(NoNames, Anchor, ["h", "i", "j"]);
    assert NoNames + [Anchor] + ["h", "i", "j"] == [Anchor, "h", "i", "j"];
  }

  lemma T3Step4Remove()
    ensures RemoveFirst(["e", "a", "d", "c", "f", "g", "b"], "e") == ["a", "d", "c", "f", "g", "b"]
  {
    RemoveFirstSplit(NoNames, "e", ["a", "d", "c", "f", "g", "b"]);
    assert NoNames + ["e"] + ["a", "d", "c", "f", "g", "b"] == ["e", "a", "d", "c", "f", "g", "b"];
    assert NoNames + ["a", "d", "c", "f", "g", "b"] == ["a", "d", "c", "f", "g", "b"];
  }

  lemma T3Step4Insert()
    ensures InsertAt([Anchor, "h", "i", "j"], 0, "e") == ["e", Anchor, "h", "i", "j"]
  {
    InsertAtFront([Anchor, "h", "i", "j"], "e");
  }

  lemma T3Step5()
    ensures T3.Valid()
    ensures Pass(T3, ["a", "d", "c", "f", "g", "b"], ["e", Anchor, "h", "i", "j"], "e", Before, true) == Pass(T3, ["a", "c", "f", "g", "b"], ["d", "e", Anchor, "h", "i", "j"], "d", Before, true)
  {
    T3BeforeE();
    T3Step5Index();
    T3Step5Remove();
    T3Step5Insert();
    PassGo(T3, ["a", "d", "c", "f", "g", "b"], ["e", Anchor, "h", "i", "j"], "e", Before, true, "d", 0);
  }

  lemma T3Step5Index()
    ensures IndexOf(["e", Anchor, "h", "i", "j"], "e") == Some(0)
  {
    IndexOfSplit(NoNames, "e", [Anchor, "h", "i", "j"]);
    assert NoNames + ["e"] + [Anchor, "h", "i", "j"] == ["e", Anchor, "h", "i", "j"];
  }

  lemma T3Step5Remove()
    ensures RemoveFirst(["a", "d", "c", "f", "g", "b"], "d") == ["a", "c", "f", "g", "b"]
  {
    RemoveFirstSplit(["a"], "d", ["c", "f", "g", "b"]);
    assert ["a"] + ["d"] + ["c", "f", "g", "b"] == ["a", "d", "c", "f", "g", "b"];
    assert ["a"] + ["c", "f", "g", "b"] == ["a", "c", "f", "g", "b"];
  }

  lemma T3Step5Insert()
    ensures InsertAt(["e", Anchor, "h", "i", "j"], 0, "d") == ["d", "e", Anchor, "h", "i", "j"]
  {
    InsertAtFront(["e", Anchor, "h", "i", "j"], "d");
  }

  lemma T3Step6()
    ensures T3.Valid()
    ensures Pass(T3, ["a", "c", "f", "g", "b"], ["d", "e", Anchor, "h", "i", "j"], "d", Before, true) == Pass(T3, ["a", "f", "g", "b"], ["c", "d", "e", Anchor, "h", "i", "j"], "c", Before, true)
  {
    T3BeforeD();
    T3Step6Index();
    T3Step6Remove();
    T3Step6Insert();
    PassGo(T3, ["a", "c", "f", "g", "b"], ["d", "e", Anchor, "h", "i", "j"], "d", Before, true, "c", 0);
  }

  lemma T3Step6Index()
    ensures IndexOf(["d", "e", Anchor, "h", "i", "j"], "d") == Some(0)
  {
    IndexOfSplit(NoNames, "d", ["e", Anchor, "h", "i", "j"]);
    assert NoNames + ["d"] + ["e", Anchor, "h", "i", "j"] == ["d", "e", Anchor, "h", "i", "j"];
  }

  lemma T3Step6Remove()
    ensures RemoveFirst(["a", "c", "f", "g", "b"], "c") == ["a", "f", "g", "b"]
  {
    RemoveFirstSplit(["a"], "c", ["f", "g", "b"]);
    assert ["a"] + ["c"] + ["f", "g", "b"] == ["a", "c", "f", "g", "b"];
    assert ["a"] + ["f", "g", "b"] == ["a", "f", "g", "b"];
  }

  lemma T3Step6Insert()
    ensures InsertAt(["d", "e", Anchor, "h", "i", "j"], 0, "c") == ["c", "d", "e", Anchor, "h", "i", "j"]
  {
    InsertAtFront(["d", "e", Anchor, "h", "i", "j"], "c");
  }

  lemma T3Step7()
    ensures T3.Valid()
    ensures Pass(T3, ["a", "f", "g", "b"], ["c", "d", "e", Anchor, "h", "i", "j"], "c", Before, true) == Pass(T3, ["a", "f", "g"], ["b", "c", "d", "e", Anchor, "h", "i", "j"], "b", Before, true)
  {
    T3BeforeC();
    T3Step7Index();
    T3Step7Remove();
    T3Step7Insert();
    PassGo(T3, ["a", "f", "g", "b"], ["c", "d", "e", Anchor, "h", "i", "j"], "c", Before, true, "b", 0);
  }

  lemma T3Step7Index()
    ensures IndexOf(["c", "d", "e", Anchor, "h", "i", "j"], "c") == Some(0)
  {
    IndexOfSplit(NoNames, "c", ["d", "e", Anchor, "h", "i", "j"]);
    assert NoNames + ["c"] + ["d", "e", Anchor, "h", "i", "j"] == ["c", "d", "e", Anchor, "h", "i", "j"];
  }

  lemma T3Step7Remove()
    ensures RemoveFirst(["a", "f", "g", "b"], "b") == ["a", "f", "g"]
  {
    RemoveFirstSplit(["a", "f", "g"], "b", NoNames);
    assert ["a", "f", "g"] + ["b"] + NoNames == ["a", "f", "g", "b"];
    assert ["a", "f", "g"] + NoNames == ["a", "f", "g"];
  }

  lemma T3Step7Insert()
    ensures InsertAt(["c", "d", "e", Anchor, "h", "i", "j"], 0, "b") == ["b", "c", "d", "e", Anchor, "h", "i", "j"]
  {
    InsertAtFront(["c", "d", "e", Anchor, "h", "i", "j"], "b");
  }

  lemma T3Step8()
    ensures T3.Valid()
    ensures Pass(T3, ["a", "f", "g"], ["b", "c", "d", "e", Anchor, "h", "i", "j"], "b", Before, true) == Pass(T3, ["f", "g"], ["a", "b", "c", "d", "e", Anchor, "h", "i", "j"], "a", Before, true)
  {
    T3BeforeB();
    T3Step8Index();
    T3Step8Remove();
    T3Step8Insert();
    PassGo(T3, ["a", "f", "g"], ["b", "c", "d", "e", Anchor, "h", "i", "j"], "b", Before, true, "a", 0);
  }

  lemma T3Step8Index()
    ensures IndexOf(["b", "c", "d", "e", Anchor, "h", "i", "j"], "b") == Some(0)
  {
    IndexOfSplit(NoNames, "b", ["c", "d", "e", Anchor, "h", "i", "j"]);
    assert NoNames + ["b"] + ["c", "d", "e", Anchor, "h", "i", "j"] == ["b", "c", "d", "e", Anchor, "h", "i", "j"];
  }

  lemma T3Step8Remove()
    ensures RemoveFirst(["a", "f", "g"], "a") == ["f", "g"]
  {
    RemoveFirstSplit(NoNames, "a", ["f", "g"]);
    assert NoNames + ["a"] + ["f", "g"] == ["a", "f", "g"];
    assert NoNames + ["f", "g"] == ["f", "g"];
  }

  lemma T3Step8Insert()
    ensures InsertAt(["b", "c", "d", "e", Anchor, "h", "i", "j"], 0, "a") == ["a", "b", "c", "d", "e", Anchor, "h", "i", "j"]
  {
    InsertAtFront(["b", "c", "d", "e", Anchor, "h", "i", "j"], "a");
  }

  lemma T3Step9()
    ensures T3.Valid() && Pass(T3, ["f", "g"], ["a", "b", "c", "d", "e", Anchor, "h", "i", "j"], "a", Before, true) == Ok((["f", "g"], ["a", "b", "c", "d", "e", Anchor, "h", "i", "j"]))
  {
    T3BeforeA();
    PassHalt(T3, ["f", "g"], ["a", "b", "c", "d", "e", Anchor, "h", "i", "j"], "a", Before, true);
  }

  lemma T3Step10()
    ensures T3.Valid()
    ensures Pass(T3, ["f", "g"], ["a", "b", "c", "d", "e", Anchor, "h", "i", "j"], Anchor, After, true) == Pass(T3, ["g"], ["a", "b", "c", "d", "e", Anchor, "f", "h", "i", "j"], "f", After, true)
  {
    T3AfterApp();
    T3Step10Index();
    T3Step10Remove();
    T3Step10Insert();
    PassGo(T3, ["f", "g"], ["a", "b", "c", "d", "e", Anchor, "h", "i", "j"], Anchor, After, true, "f", 5);
  }

  lemma T3Step10Index()
    ensures IndexOf(["a", "b", "c", "d", "e", Anchor, "h", "i", "j"], Anchor) == Some(5)
  {
    IndexOfSplit(["a", "b", "c", "d", "e"], Anchor, ["h", "i", "j"]);
    assert ["a", "b", "c", "d", "e"] + [Anchor] + ["h", "i", "j"] == ["a", "b", "c", "d", "e", Anchor, "h", "i", "j"];
  }

  lemma T3Step10Remove()
    ensures RemoveFirst(["f", "g"], "f") == ["g"]
  {
    RemoveFirstSplit(NoNames, "f", ["g"]);
    assert NoNames + ["f"] + ["g"] == ["f", "g"];
    assert NoNames + ["g"] == ["g"];
  }

  lemma T3Step10Insert()
    ensures InsertAt(["a", "b", "c", "d", "e", Anchor, "h", "i", "j"], 6, "f") == ["a", "b", "c", "d", "e", Anchor, "f", "h", "i", "j"]
  {
    InsertAtSplit(["a", "b", "c", "d", "e", Anchor], "f", ["h", "i", "j"]);
    assert ["a", "b", "c", "d", "e", Anchor] + ["h", "i", "j"] == ["a", "b", "c", "d", "e", Anchor, "h", "i", "j"];
    assert ["a", "b", "c", "d", "e", Anchor] + ["f"] + ["h", "i", "j"] == ["a", "b", "c", "d", "e", Anchor, "f", "h", "i", "j"];
  }

  lemma T3Step11()
    ensures T3.Valid()
    ensures Pass(T3, ["g"], ["a", "b", "c", "d", "e", Anchor, "f", "h", "i", "j"], "f", After, true) == Pass(T3, NoNames, ["a", "b", "c", "d", "e", Anchor, "f", "g", "h", "i", "j"], "g", After, true)
  {
    T3AfterF();
    T3Step11Index();
    T3Step11Remove();
    T3Step11Insert();
    PassGo(T3, ["g"], ["a", "b", "c", "d", "e", Anchor, "f", "h", "i", "j"], "f", After, true, "g", 6);
  }

  lemma T3Step11Index()
    ensures IndexOf(["a", "b", "c", "d", "e", Anchor, "f", "h", "i", "j"], "f") == Some(6)
  {
    IndexOfSplit(["a", "b", "c", "d", "e", Anchor], "f", ["h", "i", "j"]);
    assert ["a", "b", "c", "d", "e", Anchor] + ["f"] + ["h", "i", "j"] == ["a", "b", "c", "d", "e", Anchor, "f", "h", "i", "j"];
  }

  lemma T3Step11Remove()
    ensures RemoveFirst(["g"], "g") == NoNames
  {
    RemoveFirstSplit(NoNames, "g", NoNames);
    assert NoNames + ["g"] + NoNames == ["g"];
    assert NoNames + NoNames == NoNames;
  }

  lemma T3Step11Insert()
    ensures InsertAt(["a", "b", "c", "d", "e", Anchor, "f", "h", "i", "j"], 7, "g") == ["a", "b", "c", "d", "e", Anchor, "f", "g", "h", "i", "j"]
  {
    InsertAtSplit(["a", "b", "c", "d", "e", Anchor, "f"], "g", ["h", "i", "j"]);
    assert ["a", "b", "c", "d", "e", Anchor, "f"] + ["h", "i", "j"] == ["a", "b", "c", "d", "e", Anchor, "f", "h", "i", "j"];
    assert ["a", "b", "c", "d", "e", Anchor, "f"] + ["g"] + ["h", "i", "j"] == ["a", "b", "c", "d", "e", Anchor, "f", "g", "h", "i", "j"];
  }

  lemma T3Step12()
    ensures T3.Valid() && Pass(T3, NoNames, ["a", "b", "c", "d", "e", Anchor, "f", "g", "h", "i", "j"], "g", After, true) == Ok((NoNames, ["a", "b", "c", "d", "e", Anchor, "f", "g", "h", "i", "j"]))
  {
    T3AfterG();
    PassHalt(T3, NoNames, ["a", "b", "c", "d", "e", Anchor, "f", "g", "h", "i", "j"], "g", After, true);
  }

  /** `solve_from_last`: `h` and `i` in front of the `'last'` partition `j`. */
  lemma T3FromLast()
    ensures T3.Valid() && SolvedFromLast(T3, ["e", "a", "d", "c", "i", "h", "f", "g", "b"], [Anchor]) == Ok((["e", "a", "d", "c", "f", "g", "b"], [Anchor, "h", "i", "j"]))
  {
    T3Last();
    assert [Anchor] + ["j"] == [Anchor, "j"];
    T3Step1();
    T3Step2();
    T3Step3();
  }

  /** The `before` pass: `a` to `e` in front of `app`. */
  lemma T3BeforePass()
    ensures T3.Valid() && SolvedDirection(T3, ["e", "a", "d", "c", "f", "g", "b"], [Anchor, "h", "i", "j"], Before) == Ok((["f", "g"], ["a", "b", "c", "d", "e", Anchor, "h", "i", "j"]))
  {
    T3Step4();
    T3Step5();
    T3Step6();
    T3Step7();
    T3Step8();
    T3Step9();
  }

  /** The `after` pass: `f` and `g` behind `app`. */
  lemma T3AfterPass()
    ensures T3.Valid() && SolvedDirection(T3, ["f", "g"], ["a", "b", "c", "d", "e", Anchor, "h", "i", "j"], After) == Ok((NoNames, ["a", "b", "c", "d", "e", Anchor, "f", "g", "h", "i", "j"]))
  {
    T3Step10();
    T3Step11();
    T3Step12();
  }

  const Sol3: seq<string> := ["a", "b", "c", "d", "e", Anchor, "f", "g", "h", "i", "j"]

  /** `resolve` on the third table. */
  lemma Test3Resolved()
    ensures T3.Valid() && Resolved(T3) == Ok((Sol3, Table([], map[])))
  {
    T3Prepared();
    T3Images();
    T3FromLast();
    T3BeforePass();
    T3AfterPass();
  }

  lemma Sol3Distinct()
    ensures Distinct(Sol3)
  {
  }

  lemma Sol3At(x: string)
    requires x in Sol3
    ensures x in T3.entries && (x != Anchor ==> T3.entries[x].size.Some?)
  {
  }

  lemma Sol3Placeable()
    ensures T3.Valid() && Distinct(Sol3) && AddressAssigner.Placeable(T3, Sol3)
  {
    T3Valid();
    Sol3Distinct();
    forall x | x in Sol3 ensures x in T3.entries && (x != Anchor ==> T3.entries[x].size.Some?) {
      Sol3At(x);
    }
    assert Sol3[5] == Anchor;
  }

  lemma Sol3Index()
    ensures IndexOf(Sol3, Anchor) == Some(5) && Sol3[0] == "a" && Sol3[5] == Anchor && Sol3[10] == "j"
  {
    IndexOfSplit(["a", "b", "c", "d", "e"], Anchor, ["f", "g", "h", "i", "j"]);
    assert ["a", "b", "c", "d", "e"] + [Anchor] + ["f", "g", "h", "i", "j"] == Sol3;
  }

  lemma Sol3Front()
    ensures Sized(T3.entries, Sol3, 0, 5) && Total(T3.entries, Sol3, 0, 5) == 420
  {
  }

  lemma Sol3Back()
    ensures Sized(T3.entries, Sol3, 6, 11) && Total(T3.entries, Sol3, 6, 11) == 100
  {
  }

  /** `set_addresses(td, s, 1000)` on the third table: `a` at 0, `app` at
      420 with the 480 left between `e` and `f`, `j` ending at 1000. */
  lemma Test3Addressed()
    ensures T3.Valid() && Addressed(T3, Sol3, 1000).Ok?
    ensures var m := Addressed(T3, Sol3, 1000).value.entries;
      && "a" in m && m["a"].address == Some(0)
      && Anchor in m && m[Anchor].address == Some(420) && m[Anchor].size == Some(480)
      && "j" in m && m["j"].address == Some(980) && m["j"].size == Some(20)
  {
    Sol3Placeable();
    AddressedLayout(T3, Sol3, 1000);
    Sol3Layout(Addressed(T3, Sol3, 1000).value);
  }

  /** Any layout of the third solution puts `a`, `app` and `j` there. */
  lemma Sol3Layout(t': Table)
    requires T3.Valid() && Distinct(Sol3) && AddressAssigner.Placeable(T3, Sol3) && Layout(T3, Sol3, 1000, t')
    ensures "a" in t'.entries && t'.entries["a"].address == Some(0)
    ensures Anchor in t'.entries && t'.entries[Anchor].address == Some(420) && t'.entries[Anchor].size == Some(480)
    ensures "j" in t'.entries && t'.entries["j"].address == Some(980) && t'.entries["j"].size == Some(20)
  {
    Sol3First(t');
    Sol3App(t');
    Sol3End(t');
  }

  lemma Sol3First(t': Table)
    requires T3.Valid() && Distinct(Sol3) && AddressAssigner.Placeable(T3, Sol3) && Layout(T3, Sol3, 1000, t')
    ensures "a" in t'.entries && t'.entries["a"].address == Some(0)
  {
    Sol3Index();
    LayoutPrefix(T3, Sol3, 1000, t', 0);
  }

  lemma Sol3App(t': Table)
    requires T3.Valid() && Distinct(Sol3) && AddressAssigner.Placeable(T3, Sol3) && Layout(T3, Sol3, 1000, t')
    ensures Anchor in t'.entries && t'.entries[Anchor].address == Some(420) && t'.entries[Anchor].size == Some(480)
  {
    Sol3Index();
    Sol3Front();
    Sol3Back();
    LayoutPrefix(T3, Sol3, 1000, t', 5);
  }

  lemma Sol3End(t': Table)
    requires T3.Valid() && Distinct(Sol3) && AddressAssigner.Placeable(T3, Sol3) && Layout(T3, Sol3, 1000, t')
    ensures "j" in t'.entries && t'.entries["j"].address == Some(980) && t'.entries["j"].size == Some(20)
  {
    Sol3Index();
    T3SizeOfJ();
    LastAt(T3, Sol3, 1000, t', "j", 20);
  }

  lemma T3SizeOfJ()
    ensures "j" in T3.entries && T3.entries["j"].size == Some(20)
  {
  }

  /** The last partition of a layout, of size `sz`, ends at the flash size. */
  lemma LastAt(t: Table, sol: seq<string>, flash: int, t': Table, x: string, sz: int)
    requires t.Valid() && Distinct(sol) && AddressAssigner.Placeable(t, sol) && Layout(t, sol, flash, t')
    requires |sol| > 0 && sol[|sol| - 1] == x && x != Anchor && x in t.entries && t.entries[x].size == Some(sz)
    ensures x in t'.entries && t'.entries[x].address == Some(flash - sz) && t'.entries[x].size == Some(sz)
  {
    LayoutLast(t, sol, flash, t');
  }

  /** Two partitions that both ask to go right before `app`: the assert of
      `solve_direction` fails. */
  const Twice: Table := Table(["x", "y", Anchor],
    map["x" := PlacedBefore([Anchor], 10), "y" := PlacedBefore([Anchor], 10), Anchor := App])

  lemma TwiceValid()
    ensures Twice.Valid() && Claimable(Twice)
  {
  }

  lemma TwiceAt(k: string)
    requires k in Twice.entries
    ensures ChainsKnown(Twice.entries[k], Twice.entries.Keys) && !IsSpan(Twice.entries[k])
    ensures NeedsPlacing(Twice.entries[k]) <==> k in ["x", "y"]
    ensures !IsLast(Twice.entries[k])
    ensures Claims(Twice.entries[k], Anchor, Before) <==> k in ["x", "y"]
  {
  }

  lemma TwicePrepared()
    ensures Twice.Valid() && Prepared(Twice) == Twice && Extracted(Normalized(Twice)).0 == Table([], map[])
  {
    TwiceValid();
    forall k | k in Twice.entries ensures ChainsKnown(Twice.entries[k], Twice.entries.Keys) && !IsSpan(Twice.entries[k]) {
      TwiceAt(k);
    }
    NormalizedUnchanged(Twice);
    ExtractedWithoutSpans(Twice);
  }

  lemma TwiceClaims()
    ensures Twice.Valid() && Claimants(Twice, Anchor, Before) == Ok(["x", "y"])
  {
    TwiceValid();
    SubseqAt(["x", "y"], Twice.keys, [0, 1]);
    forall k | k in Twice.entries ensures Claims(Twice.entries[k], Anchor, Before) <==> k in ["x", "y"] {
      TwiceAt(k);
    }
    ClaimantsExact(Twice, Anchor, Before, ["x", "y"]);
  }

  lemma TwiceImages()
    ensures Twice.Valid() && ImagesToResolve(Twice) == Ok(["x", "y"]) && LastPartitions(Twice) == Ok([])
  {
    TwiceValid();
    SubseqAt(["x", "y"], Twice.keys, [0, 1]);
    forall k | k in Twice.entries
      ensures (NeedsPlacing(Twice.entries[k]) <==> k in ["x", "y"]) && (IsLast(Twice.entries[k]) <==> k in NoNames)
    {
      TwiceAt(k);
    }
    KeysWhereExact(Twice, NeedsPlacing, ["x", "y"]);
    KeysWhereExact(Twice, IsLast, []);
  }

  lemma TwiceAmbiguous()
    ensures Twice.Valid() && Resolved(Twice) == Err(AssertionError)
  {
    TwicePrepared();
    TwiceImages();
    TwiceClaims();
  }

  /** An empty fallback list: `[0]` of it raises IndexError as soon as a
      pass asks who claims a slot. */
  const Empty: Table := Table(["x", Anchor], map["x" := PlacedBefore([], 10), Anchor := App])

  lemma EmptyValid()
    ensures Empty.Valid()
  {
  }

  lemma EmptyAt(k: string)
    requires k in Empty.entries
    ensures ChainsKnown(Empty.entries[k], Empty.entries.Keys) && !IsSpan(Empty.entries[k])
    ensures Empty.entries[k].placement.Some?
    ensures NeedsPlacing(Empty.entries[k]) <==> k in ["x"]
    ensures !IsLast(Empty.entries[k])
  {
  }

  lemma EmptyPrepared()
    ensures Empty.Valid() && Prepared(Empty) == Empty
  {
    EmptyValid();
    forall k | k in Empty.entries ensures ChainsKnown(Empty.entries[k], Empty.entries.Keys) && !IsSpan(Empty.entries[k]) {
      EmptyAt(k);
    }
    NormalizedUnchanged(Empty);
    ExtractedWithoutSpans(Empty);
  }

  lemma EmptyImages()
    ensures Empty.Valid() && ImagesToResolve(Empty) == Ok(["x"]) && LastPartitions(Empty) == Ok([])
  {
    EmptyValid();
    SubseqAt(["x"], Empty.keys, [0]);
    forall k | k in Empty.entries
      ensures Empty.entries[k].placement.Some? && (NeedsPlacing(Empty.entries[k]) <==> k in ["x"]) && !IsLast(Empty.entries[k])
    {
      EmptyAt(k);
    }
    SubseqUnique(KeysWhere(Empty, NeedsPlacing).value, ["x"], Empty.keys);
    SubseqUnique(KeysWhere(Empty, IsLast).value, [], Empty.keys);
  }

  lemma EmptyClaims()
    ensures Empty.Valid() && Claimants(Empty, Anchor, Before) == Err(IndexError)
  {
    EmptyValid();
    assert ItemIsPlaced(Empty.entries["x"], Anchor, Before) == Err(IndexError);
    assert ClaimantsIn(Empty.keys, Empty.entries, Anchor, Before) == Err(IndexError);
  }

  lemma EmptyFallback()
    ensures Empty.Valid() && Resolved(Empty) == Err(IndexError)
  {
    EmptyPrepared();
    EmptyImages();
    EmptyClaims();
  }

  /** The second table of `test()`: the span names `spm`, which is not a
      partition here, so it covers `app` alone and starts where `app` does. */
  const Boot2: Entry := PlacedBefore([Anchor], 200)
  const T2: Table := Table(["mcuboot", "mcuboot_partitions", Anchor],
    map["mcuboot" := Boot2, "mcuboot_partitions" := BootSpan, Anchor := App])
  const P2: Table := Table(["mcuboot", Anchor], map["mcuboot" := Boot2, Anchor := App])
  const Sol2: seq<string> := ["mcuboot", Anchor]

  lemma T2Valid()
    ensures T2.Valid() && P2.Valid() && Claimable(P2)
  {
  }

  lemma T2At(k: string)
    requires k in T2.entries
    ensures ChainsKnown(T2.entries[k], T2.entries.Keys)
    ensures IsSpan(T2.entries[k]) <==> k == "mcuboot_partitions"
  {
    assert k == "mcuboot" || k == "mcuboot_partitions" || k == Anchor;
  }

  lemma T2Normalized()
    ensures T2.Valid() && Normalized(T2) == T2
  {
    T2Valid();
    forall k | k in T2.entries ensures ChainsKnown(T2.entries[k], T2.entries.Keys) {
      T2At(k);
    }
    NormalizedUnchanged(T2);
  }

  lemma T2Prepared()
    ensures T2.Valid() && Normalized(T2) == T2 && Prepared(T2) == P2
  {
    T2Normalized();
    T2RestKeys();
    T2RestEntries();
  }

  lemma T2RestKeys()
    ensures T2.Valid() && Part(T2, false).keys == P2.keys
  {
    T2Valid();
    SubseqAt(P2.keys, T2.keys, [0, 2]);
    forall k | k in T2.entries ensures IsSpan(T2.entries[k]) == false <==> k in P2.keys {
      T2At(k);
    }
    PartKeysExact(T2, false, P2.keys);
  }

  lemma T2RestEntries()
    ensures T2.Valid() && Part(T2, false).entries == P2.entries
  {
    T2Valid();
    forall k | k in T2.entries ensures IsSpan(T2.entries[k]) == false <==> k in P2.entries {
      T2At(k);
    }
    PartEntriesExact(T2, false, P2.entries);
  }

  lemma T2SpanKeys()
    ensures T2.Valid() && Part(T2, true).keys == S1.keys
  {
    T2Valid();
    SubseqAt(S1.keys, T2.keys, [1]);
    forall k | k in T2.entries ensures IsSpan(T2.entries[k]) == true <==> k in S1.keys {
      T2At(k);
    }
    PartKeysExact(T2, true, S1.keys);
  }

  lemma T2SpanEntries()
    ensures T2.Valid() && Part(T2, true).entries == S1.entries
  {
    T2Valid();
    forall k | k in T2.entries ensures IsSpan(T2.entries[k]) == true <==> k in S1.entries {
      T2At(k);
    }
    PartEntriesExact(T2, true, S1.entries);
  }

  lemma T2Spans()
    ensures T2.Valid() && Extracted(Normalized(T2)).0 == S1
  {
    T2Normalized();
    T2SpanKeys();
    T2SpanEntries();
  }

  lemma P2Images()
    ensures P2.Valid() && ImagesToResolve(P2) == Ok(["mcuboot"]) && LastPartitions(P2) == Ok([])
  {
    T2Valid();
    SubseqAt(["mcuboot"], P2.keys, [0]);
    KeysWhereExact(P2, NeedsPlacing, ["mcuboot"]);
    KeysWhereExact(P2, IsLast, []);
  }

  lemma P2Claims()
    ensures P2.Valid()
    ensures Claimants(P2, Anchor, Before) == Ok(["mcuboot"]) && Claimants(P2, "mcuboot", Before) == Ok([])
  {
    T2Valid();
    SubseqAt(["mcuboot"], P2.keys, [0]);
    ClaimantsExact(P2, Anchor, Before, ["mcuboot"]);
    ClaimantsExact(P2, "mcuboot", Before, []);
  }

  lemma P2Lists()
    ensures IndexOf([Anchor], Anchor) == Some(0)
    ensures RemoveFirst(["mcuboot"], "mcuboot") == [] && InsertAt([Anchor], 0, "mcuboot") == Sol2
  {
    RemoveFirstSplit(NoNames, "mcuboot", NoNames);
    InsertAtFront([Anchor], "mcuboot");
  }

  lemma P2Passes()
    ensures P2.Valid() && SolvedDirection(P2, ["mcuboot"], [Anchor], Before) == Ok(([], Sol2))
  {
    P2Claims();
    P2Lists();
    PassGo(P2, ["mcuboot"], [Anchor], Anchor, Before, true, "mcuboot", 0);
    PassHalt(P2, [], Sol2, "mcuboot", Before, true);
  }

  /** `resolve`: `mcuboot` before `app`, nothing left for the `after` pass. */
  lemma Test2Resolved()
    ensures T2.Valid() && Resolved(T2) == Ok((Sol2, S1))
  {
    T2Prepared();
    T2Spans();
    P2Images();
    P2Passes();
  }

  /** `set_addresses(td, s, 1000)`: `mcuboot` at 0, `app` at 200 with 800. */
  const A2: Table := Table(P2.keys, P2.entries["mcuboot" := Boot2.(address := Some(0))]
    [Anchor := App.(address := Some(200), size := Some(800))])

  const M2a: map<string, Entry> := WithAddress(P2.entries, "mcuboot", 0)
  const M2b: map<string, Entry> := WithAddress(M2a, Anchor, 200)

  lemma Test2Forward()
    ensures Forward(P2.entries, Sol2, 2) == Ok(M2b)
  {
    assert Forward(P2.entries, Sol2, 1) == Ok(M2a);
    ForwardUnfold(P2.entries, Sol2, 2, M2a);
    assert M2a["mcuboot"].address == Some(0) && M2a["mcuboot"].size == Some(200);
  }

  lemma T2Ends()
    ensures IndexOf(Sol2, Anchor) == Some(1) && M2b.Keys == P2.entries.Keys
    ensures Anchor in M2b && M2b[Anchor].address == Some(200)
    ensures WithSize(M2b, Anchor, 1000 - 200) == A2.entries
  {
    IndexOfSplit(["mcuboot"], Anchor, NoNames);
    assert ["mcuboot"] + [Anchor] + NoNames == Sol2;
  }

  lemma Test2Addressed()
    ensures P2.Valid() && Addressed(P2, Sol2, 1000) == Ok(A2)
  {
    T2Valid();
    Test2Forward();
    T2Ends();
    AddressedVia(P2, Sol2, 1000, 1);
    FinishedEnd(P2, Sol2, 1000, 1, M2b);
  }

  /** The span over the absent `spm` and `app` (800): two halves of 400
      from the address of `app`. */
  const F2: Table := A2.Put("mcuboot_partitions_primary", SizedAt(400, 200))
    .Put("mcuboot_partitions_secondary", SizedAt(400, 600))

  lemma A2Facts()
    ensures A2.Valid() && S1.Valid() && "spm" !in A2.entries
    ensures Anchor in A2.entries && A2.entries[Anchor].size == Some(800) && A2.entries[Anchor].address == Some(200)
  {
  }

  lemma T2Scan()
    ensures A2.Valid() && Scan(A2, ["spm", Anchor], 0, None, 0) == Ok((Some(Anchor), 800))
  {
    A2Facts();
    assert Scan(A2, ["spm", Anchor], 2, Some(Anchor), 800) == Ok((Some(Anchor), 800));
    assert Scan(A2, ["spm", Anchor], 1, None, 0) == Ok((Some(Anchor), 800));
  }

  lemma T2LaidOut()
    ensures A2.Valid() && LaidOut(A2, "mcuboot_partitions", ["primary", "secondary"], 400, 200, 2) == F2
  {
    A2Facts();
    var span, subs := "mcuboot_partitions", ["primary", "secondary"];
    assert ChildName(span, "primary") == "mcuboot_partitions_primary";
    assert ChildName(span, "secondary") == "mcuboot_partitions_secondary";
    assert LaidOut(A2, span, subs, 400, 200, 0) == A2;
  }

  lemma T2Apportion()
    ensures A2.Valid() && Apportion(A2, "mcuboot_partitions", BootSpan, None) == Ok((F2, Some(Anchor)))
  {
    A2Facts();
    T2Scan();
    T2LaidOut();
    ApportionVia(A2, "mcuboot_partitions", BootSpan, None, ["spm", Anchor], ["primary", "secondary"], Anchor, 800, 200, F2);
  }

  lemma Test2Apportioned()
    ensures A2.Valid() && S1.Valid() && Apportioned(A2, S1) == Ok(F2)
  {
    A2Facts();
    T2Apportion();
    assert ApportionFirst(A2, S1, 1) == Ok((F2, Some(Anchor)));
  }

  /** The second scenario end to end. */
  lemma Test2Generated()
    ensures T2.Valid() && Generated(T2, 1000) == Ok(F2)
  {
    Test2Resolved();
    T2Prepared();
    Test2Addressed();
    Test2Apportioned();
  }

  /** The fourth table of `test()`: `mcuboot` names `spu`, which is not a
      partition, and normalisation drops it. */
  const T4: Table := Table(["mcuboot", "b0", Anchor], map[
    "mcuboot" := PlacedBefore([Anchor, "spu"], 200),
    "b0" := PlacedBefore(["mcuboot", Anchor], 100),
    Anchor := App])
  const N4: Table := Table(["mcuboot", "b0", Anchor], map[
    "mcuboot" := PlacedBefore([Anchor], 200),
    "b0" := PlacedBefore(["mcuboot", Anchor], 100),
    Anchor := App])
  const Sol4: seq<string> := ["b0", "mcuboot", Anchor]

  lemma T4Trims()
    ensures T4.Valid()
    ensures Trimmed([Anchor, "spu"], T4.entries.Keys) == [Anchor]
    ensures Trimmed(["mcuboot", Anchor], T4.entries.Keys) == ["mcuboot", Anchor]
  {
    var check := T4.entries.Keys;
    assert "spu" !in check && "mcuboot" in check && Anchor in check;
    RemoveFirstSplit([Anchor], "spu", NoNames);
    assert [Anchor] + ["spu"] + NoNames == [Anchor, "spu"];
    assert TrimFrom([Anchor, "spu"], 1, check) == [Anchor];
    assert TrimFrom(["mcuboot", Anchor], 1, check) == ["mcuboot", Anchor];
  }

  lemma T4Normalized()
    ensures T4.Valid() && Normalized(T4) == N4
  {
    T4Trims();
    forall k | k in T4.entries ensures k in N4.entries && N4.entries[k] == NormalizeEntry(T4.entries[k], T4.entries.Keys) {
      T4NormalizedAt(k);
    }
    NormalizedVia(T4, N4);
  }

  lemma T4NormalizedAt(k: string)
    requires k in T4.entries
    requires Trimmed([Anchor, "spu"], T4.entries.Keys) == [Anchor]
    requires Trimmed(["mcuboot", Anchor], T4.entries.Keys) == ["mcuboot", Anchor]
    ensures k in N4.entries && N4.entries[k] == NormalizeEntry(T4.entries[k], T4.entries.Keys)
  {
  }

  lemma N4Valid()
    ensures N4.Valid() && Claimable(N4)
  {
  }

  lemma N4At(k: string)
    requires k in N4.entries
    ensures !IsSpan(N4.entries[k])
    ensures NeedsPlacing(N4.entries[k]) <==> k in ["mcuboot", "b0"]
    ensures !IsLast(N4.entries[k])
    ensures Claims(N4.entries[k], Anchor, Before) <==> k in ["mcuboot"]
    ensures Claims(N4.entries[k], "mcuboot", Before) <==> k in ["b0"]
    ensures !Claims(N4.entries[k], "b0", Before)
  {
  }

  lemma N4Spanless()
    ensures N4.Valid() && Extracted(N4) == (Table([], map[]), N4)
  {
    N4Valid();
    forall k | k in N4.entries ensures !IsSpan(N4.entries[k]) {
      N4At(k);
    }
    ExtractedWithoutSpans(N4);
  }

  lemma N4Images()
    ensures N4.Valid() && ImagesToResolve(N4) == Ok(["mcuboot", "b0"]) && LastPartitions(N4) == Ok([])
  {
    N4Valid();
    SubseqAt(["mcuboot", "b0"], N4.keys, [0, 1]);
    forall k | k in N4.entries
      ensures (NeedsPlacing(N4.entries[k]) <==> k in ["mcuboot", "b0"]) && (IsLast(N4.entries[k]) <==> k in NoNames)
    {
      N4At(k);
    }
    KeysWhereExact(N4, NeedsPlacing, ["mcuboot", "b0"]);
    KeysWhereExact(N4, IsLast, []);
  }

  lemma N4BeforeApp()
    ensures N4.Valid() && Claimants(N4, Anchor, Before) == Ok(["mcuboot"])
  {
    N4Valid();
    SubseqAt(["mcuboot"], N4.keys, [0]);
    forall k | k in N4.entries ensures Claims(N4.entries[k], Anchor, Before) <==> k in ["mcuboot"] {
      N4At(k);
    }
    ClaimantsExact(N4, Anchor, Before, ["mcuboot"]);
  }

  lemma N4BeforeBoot()
    ensures N4.Valid() && Claimants(N4, "mcuboot", Before) == Ok(["b0"])
  {
    N4Valid();
    SubseqAt(["b0"], N4.keys, [1]);
    forall k | k in N4.entries ensures Claims(N4.entries[k], "mcuboot", Before) <==> k in ["b0"] {
      N4At(k);
    }
    ClaimantsExact(N4, "mcuboot", Before, ["b0"]);
  }

  lemma N4BeforeB0()
    ensures N4.Valid() && Claimants(N4, "b0", Before) == Ok([])
  {
    N4Valid();
    forall k | k in N4.entries ensures Claims(N4.entries[k], "b0", Before) <==> k in NoNames {
      N4At(k);
    }
    ClaimantsExact(N4, "b0", Before, []);
  }

  lemma N4Lists()
    ensures IndexOf([Anchor], Anchor) == Some(0) && IndexOf(["mcuboot", Anchor], "mcuboot") == Some(0)
    ensures RemoveFirst(["mcuboot", "b0"], "mcuboot") == ["b0"] && RemoveFirst(["b0"], "b0") == NoNames
    ensures InsertAt([Anchor], 0, "mcuboot") == ["mcuboot", Anchor] && InsertAt(["mcuboot", Anchor], 0, "b0") == Sol4
  {
    IndexOfSplit(NoNames, Anchor, NoNames);
    IndexOfSplit(NoNames, "mcuboot", [Anchor]);
    RemoveFirstSplit(NoNames, "mcuboot", ["b0"]);
    RemoveFirstSplit(NoNames, "b0", NoNames);
    InsertAtFront([Anchor], "mcuboot");
    InsertAtFront(["mcuboot", Anchor], "b0");
  }

  lemma N4FirstStep()
    ensures N4.Valid()
    ensures Pass(N4, ["mcuboot", "b0"], [Anchor], Anchor, Before, true)
      == Pass(N4, ["b0"], ["mcuboot", Anchor], "mcuboot", Before, true)
  {
    N4BeforeApp();
    N4Lists();
    PassGo(N4, ["mcuboot", "b0"], [Anchor], Anchor, Before, true, "mcuboot", 0);
  }

  lemma N4SecondStep()
    ensures N4.Valid()
    ensures Pass(N4, ["b0"], ["mcuboot", Anchor], "mcuboot", Before, true) == Ok((NoNames, Sol4))
  {
    N4BeforeBoot();
    N4BeforeB0();
    N4Lists();
    PassGo(N4, ["b0"], ["mcuboot", Anchor], "mcuboot", Before, true, "b0", 0);
    PassHalt(N4, NoNames, Sol4, "b0", Before, true);
  }

  /** `resolve`: `b0` before `mcuboot` before `app`. */
  lemma Test4Resolved()
    ensures T4.Valid() && Resolved(T4) == Ok((Sol4, Table([], map[])))
  {
    T4Normalized();
    N4Spanless();
    N4Images();
    N4FirstStep();
    N4SecondStep();
  }

  /** The fifth table of `test()`: `b0` names the absent `mcuboot` and ends
      up right before `app`. */
  const T5: Table := Table(["b0", Anchor], map["b0" := PlacedBefore(["mcuboot", Anchor], 100), Anchor := App])
  const N5: Table := Table(["b0", Anchor], map["b0" := PlacedBefore([Anchor], 100), Anchor := App])
  const Sol5: seq<string> := ["b0", Anchor]

  lemma T5Trims()
    ensures T5.Valid() && Trimmed(["mcuboot", Anchor], T5.entries.Keys) == [Anchor]
  {
    var check := T5.entries.Keys;
    assert "mcuboot" !in check && Anchor in check;
    RemoveFirstSplit(NoNames, "mcuboot", [Anchor]);
    assert NoNames + ["mcuboot"] + [Anchor] == ["mcuboot", Anchor];
    assert !Kept(["mcuboot", Anchor][0], check);
    assert TrimFrom(["mcuboot", Anchor], 0, check) == TrimFrom([Anchor], 1, check);
  }

  lemma T5Normalized()
    ensures T5.Valid() && Normalized(T5) == N5
  {
    T5Trims();
    forall k | k in T5.entries ensures k in N5.entries && N5.entries[k] == NormalizeEntry(T5.entries[k], T5.entries.Keys) {
      T5NormalizedAt(k);
    }
    NormalizedVia(T5, N5);
  }

  lemma T5NormalizedAt(k: string)
    requires k in T5.entries
    requires Trimmed(["mcuboot", Anchor], T5.entries.Keys) == [Anchor]
    ensures k in N5.entries && N5.entries[k] == NormalizeEntry(T5.entries[k], T5.entries.Keys)
  {
  }

  lemma N5Valid()
    ensures N5.Valid() && Claimable(N5)
  {
  }

  lemma N5At(k: string)
    requires k in N5.entries
    ensures !IsSpan(N5.entries[k])
    ensures NeedsPlacing(N5.entries[k]) <==> k in ["b0"]
    ensures !IsLast(N5.entries[k])
    ensures Claims(N5.entries[k], Anchor, Before) <==> k in ["b0"]
    ensures !Claims(N5.entries[k], "b0", Before)
  {
  }

  lemma N5Spanless()
    ensures N5.Valid() && Extracted(N5) == (Table([], map[]), N5)
  {
    N5Valid();
    forall k | k in N5.entries ensures !IsSpan(N5.entries[k]) {
      N5At(k);
    }
    ExtractedWithoutSpans(N5);
  }

  lemma N5Images()
    ensures N5.Valid() && ImagesToResolve(N5) == Ok(["b0"]) && LastPartitions(N5) == Ok([])
  {
    N5Valid();
    SubseqAt(["b0"], N5.keys, [0]);
    forall k | k in N5.entries
      ensures (NeedsPlacing(N5.entries[k]) <==> k in ["b0"]) && (IsLast(N5.entries[k]) <==> k in NoNames)
    {
      N5At(k);
    }
    KeysWhereExact(N5, NeedsPlacing, ["b0"]);
    KeysWhereExact(N5, IsLast, []);
  }

  lemma N5Claims()
    ensures N5.Valid() && Claimants(N5, Anchor, Before) == Ok(["b0"]) && Claimants(N5, "b0", Before) == Ok([])
  {
    N5Valid();
    SubseqAt(["b0"], N5.keys, [0]);
    forall k | k in N5.entries
      ensures (Claims(N5.entries[k], Anchor, Before) <==> k in ["b0"]) && (Claims(N5.entries[k], "b0", Before) <==> k in NoNames)
    {
      N5At(k);
    }
    ClaimantsExact(N5, Anchor, Before, ["b0"]);
    ClaimantsExact(N5, "b0", Before, []);
  }

  lemma N5Lists()
    ensures IndexOf([Anchor], Anchor) == Some(0)
    ensures RemoveFirst(["b0"], "b0") == NoNames && InsertAt([Anchor], 0, "b0") == Sol5
  {
    IndexOfSplit(NoNames, Anchor, NoNames);
    RemoveFirstSplit(NoNames, "b0", NoNames);
    InsertAtFront([Anchor], "b0");
  }

  lemma N5Pass()
    ensures N5.Valid() && SolvedDirection(N5, ["b0"], [Anchor], Before) == Ok((NoNames, Sol5))
  {
    N5Claims();
    N5Lists();
    PassGo(N5, ["b0"], [Anchor], Anchor, Before, true, "b0", 0);
    PassHalt(N5, NoNames, Sol5, "b0", Before, true);
  }

  /** `resolve`: `b0` right before `app`. */
  lemma Test5Resolved()
    ensures T5.Valid() && Resolved(T5) == Ok((Sol5, Table([], map[])))
  {
    T5Normalized();
    N5Spanless();
    N5Images();
    N5Pass();
  }

  /** The sixth table of `test()`: `mcuboot` before `spu` before `app`,
      every name a partition, so normalisation changes nothing. */
  const T6: Table := Table(["spu", "mcuboot", Anchor], map[
    "spu" := PlacedBefore([Anchor], 100),
    "mcuboot" := PlacedBefore(["spu", Anchor], 200),
    Anchor := App])
  const Sol6: seq<string> := ["mcuboot", "spu", Anchor]

  lemma T6Valid()
    ensures T6.Valid() && Claimable(T6)
  {
  }

  lemma T6At(k: string)
    requires k in T6.entries
    ensures ChainsKnown(T6.entries[k], T6.entries.Keys) && !IsSpan(T6.entries[k])
    ensures NeedsPlacing(T6.entries[k]) <==> k in ["spu", "mcuboot"]
    ensures !IsLast(T6.entries[k])
    ensures Claims(T6.entries[k], Anchor, Before) <==> k in ["spu"]
    ensures Claims(T6.entries[k], "spu", Before) <==> k in ["mcuboot"]
    ensures !Claims(T6.entries[k], "mcuboot", Before)
  {
  }

  lemma T6Prepared()
    ensures T6.Valid() && Normalized(T6) == T6 && Extracted(T6) == (Table([], map[]), T6)
  {
    T6Valid();
    forall k | k in T6.entries ensures ChainsKnown(T6.entries[k], T6.entries.Keys) && !IsSpan(T6.entries[k]) {
      T6At(k);
    }
    NormalizedUnchanged(T6);
    ExtractedWithoutSpans(T6);
  }

  lemma T6Images()
    ensures T6.Valid() && ImagesToResolve(T6) == Ok(["spu", "mcuboot"]) && LastPartitions(T6) == Ok([])
  {
    T6Valid();
    SubseqAt(["spu", "mcuboot"], T6.keys, [0, 1]);
    forall k | k in T6.entries
      ensures (NeedsPlacing(T6.entries[k]) <==> k in ["spu", "mcuboot"]) && (IsLast(T6.entries[k]) <==> k in NoNames)
    {
      T6At(k);
    }
    KeysWhereExact(T6, NeedsPlacing, ["spu", "mcuboot"]);
    KeysWhereExact(T6, IsLast, []);
  }

  lemma T6BeforeApp()
    ensures T6.Valid() && Claimants(T6, Anchor, Before) == Ok(["spu"])
  {
    T6Valid();
    SubseqAt(["spu"], T6.keys, [0]);
    forall k | k in T6.entries ensures Claims(T6.entries[k], Anchor, Before) <==> k in ["spu"] {
      T6At(k);
    }
    ClaimantsExact(T6, Anchor, Before, ["spu"]);
  }

  lemma T6BeforeSpu()
    ensures T6.Valid() && Claimants(T6, "spu", Before) == Ok(["mcuboot"]) && Claimants(T6, "mcuboot", Before) == Ok([])
  {
    T6Valid();
    SubseqAt(["mcuboot"], T6.keys, [1]);
    forall k | k in T6.entries
      ensures (Claims(T6.entries[k], "spu", Before) <==> k in ["mcuboot"]) && (Claims(T6.entries[k], "mcuboot", Before) <==> k in NoNames)
    {
      T6At(k);
    }
    ClaimantsExact(T6, "spu", Before, ["mcuboot"]);
    ClaimantsExact(T6, "mcuboot", Before, []);
  }

  lemma T6Lists()
    ensures IndexOf([Anchor], Anchor) == Some(0) && IndexOf(["spu", Anchor], "spu") == Some(0)
    ensures RemoveFirst(["spu", "mcuboot"], "spu") == ["mcuboot"] && RemoveFirst(["mcuboot"], "mcuboot") == NoNames
    ensures InsertAt([Anchor], 0, "spu") == ["spu", Anchor] && InsertAt(["spu", Anchor], 0, "mcuboot") == Sol6
  {
    IndexOfSplit(NoNames, Anchor, NoNames);
    IndexOfSplit(NoNames, "spu", [Anchor]);
    RemoveFirstSplit(NoNames, "spu", ["mcuboot"]);
    RemoveFirstSplit(NoNames, "mcuboot", NoNames);
    InsertAtFront([Anchor], "spu");
    InsertAtFront(["spu", Anchor], "mcuboot");
  }

  lemma T6Pass()
    ensures T6.Valid() && SolvedDirection(T6, ["spu", "mcuboot"], [Anchor], Before) == Ok((NoNames, Sol6))
  {
    T6BeforeApp();
    T6BeforeSpu();
    T6Lists();
    PassGo(T6, ["spu", "mcuboot"], [Anchor], Anchor, Before, true, "spu", 0);
    PassGo(T6, ["mcuboot"], ["spu", Anchor], "spu", Before, true, "mcuboot", 0);
    PassHalt(T6, NoNames, Sol6, "mcuboot", Before, true);
  }

  /** `resolve`: `mcuboot` before `spu` before `app`. */
  lemma Test6Resolved()
    ensures T6.Valid() && Resolved(T6) == Ok((Sol6, Table([], map[])))
  {
    T6Prepared();
    T6Images();
    T6Pass();
  }

  /** The last table of `test()`: `provision` is `'last'`, and a chain of
      three in front of `app`. */
  const T7: Table := Table(["provision", "mcuboot", "b0", "spu", Anchor], map[
    "provision" := AtLast(100),
    "mcuboot" := PlacedBefore(["spu", Anchor], 100),
    "b0" := PlacedBefore(["mcuboot", Anchor], 50),
    "spu" := PlacedBefore([Anchor], 100),
    Anchor := App])
  const Sol7: seq<string> := ["b0", "mcuboot", "spu", Anchor, "provision"]


  lemma T7Distinct()
    ensures Distinct(T7.keys)
  {
  }

  lemma T7KeySet()
    ensures T7.entries.Keys == set k | k in T7.keys
  {
  }

  lemma T7ClaimableAt(k: string)
    requires k in T7.entries
    ensures T7.entries[k].placement.Some?
    ensures Chain(T7.entries[k].placement.value, Before) != Some([])
    ensures Chain(T7.entries[k].placement.value, After) != Some([])
  {
  }

  lemma T7Valid()
    ensures T7.Valid() && Claimable(T7)
  {
    T7Distinct();
    T7KeySet();
    forall k | k in T7.entries
      ensures T7.entries[k].placement.Some? &&
        Chain(T7.entries[k].placement.value, Before) != Some([]) &&
        Chain(T7.entries[k].placement.value, After) != Some([])
    {
      T7ClaimableAt(k);
    }
  }

  lemma T7KnownAt(k: string)
    requires k in T7.entries
    ensures ChainsKnown(T7.entries[k], T7.entries.Keys) && !IsSpan(T7.entries[k])
  {
  }

  lemma T7ImageAt(k: string)
    requires k in T7.entries
    ensures NeedsPlacing(T7.entries[k]) <==> k in ["mcuboot", "b0", "spu"]
    ensures IsLast(T7.entries[k]) <==> k in ["provision"]
  {
  }

  lemma T7Prepared()
    ensures T7.Valid() && Prepared(T7) == T7 && Extracted(Normalized(T7)).0 == Table([], map[])
  {
    T7Valid();
    forall k | k in T7.entries ensures ChainsKnown(T7.entries[k], T7.entries.Keys) && !IsSpan(T7.entries[k]) {
      T7KnownAt(k);
    }
    NormalizedUnchanged(T7);
    ExtractedWithoutSpans(T7);
  }

  lemma T7Images()
    ensures T7.Valid() && ImagesToResolve(T7) == Ok(["mcuboot", "b0", "spu"]) && LastPartitions(T7) == Ok(["provision"])
  {
    T7Valid();
    SubseqAt(["mcuboot", "b0", "spu"], T7.keys, [1, 2, 3]);
    SubseqAt(["provision"], T7.keys, [0]);
    forall k | k in T7.entries
      ensures (NeedsPlacing(T7.entries[k]) <==> k in ["mcuboot", "b0", "spu"]) && (IsLast(T7.entries[k]) <==> k in ["provision"])
    {
      T7ImageAt(k);
    }
    KeysWhereExact(T7, NeedsPlacing, ["mcuboot", "b0", "spu"]);
    KeysWhereExact(T7, IsLast, ["provision"]);
  }

  /** Who claims the slot before each name: `spu` before `app`, `mcuboot`
      before `spu`, `b0` before `mcuboot`, nobody before `provision` or `b0`. */
  lemma T7ClaimsAt(k: string)
    requires k in T7.entries
    ensures Claims(T7.entries[k], Anchor, Before) <==> k in ["spu"]
    ensures Claims(T7.entries[k], "spu", Before) <==> k in ["mcuboot"]
    ensures Claims(T7.entries[k], "mcuboot", Before) <==> k in ["b0"]
    ensures !Claims(T7.entries[k], "b0", Before) && !Claims(T7.entries[k], "provision", Before)
  {
  }

  lemma T7BeforeApp()
    ensures T7.Valid() && Claimants(T7, Anchor, Before) == Ok(["spu"])
  {
    T7Valid();
    SubseqAt(["spu"], T7.keys, [3]);
    forall k | k in T7.entries ensures Claims(T7.entries[k], Anchor, Before) <==> k in ["spu"] {
      T7ClaimsAt(k);
    }
    ClaimantsExact(T7, Anchor, Before, ["spu"]);
  }

  lemma T7BeforeSpu()
    ensures T7.Valid() && Claimants(T7, "spu", Before) == Ok(["mcuboot"])
  {
    T7Valid();
    SubseqAt(["mcuboot"], T7.keys, [1]);
    forall k | k in T7.entries ensures Claims(T7.entries[k], "spu", Before) <==> k in ["mcuboot"] {
      T7ClaimsAt(k);
    }
    ClaimantsExact(T7, "spu", Before, ["mcuboot"]);
  }

  lemma T7BeforeBoot()
    ensures T7.Valid() && Claimants(T7, "mcuboot", Before) == Ok(["b0"])
  {
    T7Valid();
    SubseqAt(["b0"], T7.keys, [2]);
    forall k | k in T7.entries ensures Claims(T7.entries[k], "mcuboot", Before) <==> k in ["b0"] {
      T7ClaimsAt(k);
    }
    ClaimantsExact(T7, "mcuboot", Before, ["b0"]);
  }

  lemma T7Unclaimed()
    ensures T7.Valid() && Claimants(T7, "b0", Before) == Ok([]) && Claimants(T7, "provision", Before) == Ok([])
  {
    T7Valid();
    forall k | k in T7.entries ensures !Claims(T7.entries[k], "b0", Before) && !Claims(T7.entries[k], "provision", Before) {
      T7ClaimsAt(k);
    }
    ClaimantsExact(T7, "b0", Before, []);
    ClaimantsExact(T7, "provision", Before, []);
  }

  /** `solve_from_last`: `provision` after `app`, nothing in front of it. */
  lemma T7FromLast()
    ensures T7.Valid() && SolvedFromLast(T7, ["mcuboot", "b0", "spu"], [Anchor])
      == Ok((["mcuboot", "b0", "spu"], [Anchor, "provision"]))
  {
    T7Images();
    T7Unclaimed();
    assert [Anchor] + ["provision"] == [Anchor, "provision"];
    PassHalt(T7, ["mcuboot", "b0", "spu"], [Anchor, "provision"], "provision", Before, false);
  }

  lemma T7Step1()
    ensures T7.Valid()
    ensures Pass(T7, ["mcuboot", "b0", "spu"], [Anchor, "provision"], Anchor, Before, true)
      == Pass(T7, ["mcuboot", "b0"], ["spu", Anchor, "provision"], "spu", Before, true)
  {
    T7BeforeApp();
    T7Step1Index();
    T7Step1Remove();
    T7Step1Insert();
    PassGo(T7, ["mcuboot", "b0", "spu"], [Anchor, "provision"], Anchor, Before, true, "spu", 0);
  }

  lemma T7Step1Index()
    ensures IndexOf([Anchor, "provision"], Anchor) == Some(0)
  {
    IndexOfSplit(NoNames, Anchor, ["provision"]);
    assert NoNames + [Anchor] + ["provision"] == [Anchor, "provision"];
  }

  lemma T7Step1Remove()
    ensures RemoveFirst(["mcuboot", "b0", "spu"], "spu") == ["mcuboot", "b0"]
  {
    RemoveFirstSplit(["mcuboot", "b0"], "spu", NoNames);
    assert ["mcuboot", "b0"] + ["spu"] + NoNames == ["mcuboot", "b0", "spu"];
    assert ["mcuboot", "b0"] + NoNames == ["mcuboot", "b0"];
  }

  lemma T7Step1Insert()
    ensures InsertAt([Anchor, "provision"], 0, "spu") == ["spu", Anchor, "provision"]
  {
    InsertAtFront([Anchor, "provision"], "spu");
  }

  lemma T7Step2()
    ensures T7.Valid()
    ensures Pass(T7, ["mcuboot", "b0"], ["spu", Anchor, "provision"], "spu", Before, true)
      == Pass(T7, ["b0"], ["mcuboot", "spu", Anchor, "provision"], "mcuboot", Before, true)
  {
    T7BeforeSpu();
    T7Step2Index();
    T7Step2Remove();
    T7Step2Insert();
    PassGo(T7, ["mcuboot", "b0"], ["spu", Anchor, "provision"], "spu", Before, true, "mcuboot", 0);
  }

  lemma T7Step2Index()
    ensures IndexOf(["spu", Anchor, "provision"], "spu") == Some(0)
  {
    IndexOfSplit(NoNames, "spu", [Anchor, "provision"]);
    assert NoNames + ["spu"] + [Anchor, "provision"] == ["spu", Anchor, "provision"];
  }

  lemma T7Step2Remove()
    ensures RemoveFirst(["mcuboot", "b0"], "mcuboot") == ["b0"]
  {
    RemoveFirstSplit(NoNames, "mcuboot", ["b0"]);
    assert NoNames + ["mcuboot"] + ["b0"] == ["mcuboot", "b0"];
    assert NoNames + ["b0"] == ["b0"];
  }

  lemma T7Step2Insert()
    ensures InsertAt(["spu", Anchor, "provision"], 0, "mcuboot") == ["mcuboot", "spu", Anchor, "provision"]
  {
    InsertAtFront(["spu", Anchor, "provision"], "mcuboot");
  }

  lemma T7Step3()
    ensures T7.Valid()
    ensures Pass(T7, ["b0"], ["mcuboot", "spu", Anchor, "provision"], "mcuboot", Before, true) == Ok((NoNames, Sol7))
  {
    T7BeforeBoot();
    T7Unclaimed();
    T7Step3Index();
    T7Step3Remove();
    T7Step3Insert();
    PassGo(T7, ["b0"], ["mcuboot", "spu", Anchor, "provision"], "mcuboot", Before, true, "b0", 0);
    PassHalt(T7, NoNames, Sol7, "b0", Before, true);
  }

  lemma T7Step3Index()
    ensures IndexOf(["mcuboot", "spu", Anchor, "provision"], "mcuboot") == Some(0)
  {
    IndexOfSplit(NoNames, "mcuboot", ["spu", Anchor, "provision"]);
    assert NoNames + ["mcuboot"] + ["spu", Anchor, "provision"] == ["mcuboot", "spu", Anchor, "provision"];
  }

  lemma T7Step3Remove()
    ensures RemoveFirst(["b0"], "b0") == NoNames
  {
    RemoveFirstSplit(NoNames, "b0", NoNames);
    assert NoNames + ["b0"] + NoNames == ["b0"];
  }

  lemma T7Step3Insert()
    ensures InsertAt(["mcuboot", "spu", Anchor, "provision"], 0, "b0") == Sol7
  {
    InsertAtFront(["mcuboot", "spu", Anchor, "provision"], "b0");
  }

  /** The `before` pass: `spu`, `mcuboot`, `b0` in front of `app`. */
  lemma T7BeforePass()
    ensures T7.Valid()
    ensures SolvedDirection(T7, ["mcuboot", "b0", "spu"], [Anchor, "provision"], Before) == Ok(([], Sol7))
  {
    T7Step1();
    T7Step2();
    T7Step3();
  }

  /** `resolve`: `[b0, mcuboot, spu, app, provision]`. */
  lemma Test7Resolved()
    ensures T7.Valid() && Resolved(T7) == Ok((Sol7, Table([], map[])))
  {
    T7Prepared();
    T7Images();
    T7FromLast();
    T7BeforePass();
  }

  lemma Sol7At(x: string)
    requires x in Sol7
    ensures x in T7.entries && (x != Anchor ==> T7.entries[x].size.Some?)
  {
  }

  lemma Sol7Placeable()
    ensures T7.Valid() && Distinct(Sol7) && AddressAssigner.Placeable(T7, Sol7)
  {
    T7Valid();
    forall x | x in Sol7 ensures x in T7.entries && (x != Anchor ==> T7.entries[x].size.Some?) {
      Sol7At(x);
    }
    assert Sol7[3] == Anchor;
  }

  lemma Sol7Index()
    ensures IndexOf(Sol7, Anchor) == Some(3) && Sol7[0] == "b0" && Sol7[3] == Anchor && Sol7[4] == "provision"
  {
    IndexOfSplit(["b0", "mcuboot", "spu"], Anchor, ["provision"]);
    assert ["b0", "mcuboot", "spu"] + [Anchor] + ["provision"] == Sol7;
  }

  lemma Sol7Front()
    ensures Sized(T7.entries, Sol7, 0, 3) && Total(T7.entries, Sol7, 0, 3) == 250
  {
  }

  lemma Sol7Back()
    ensures Sized(T7.entries, Sol7, 4, 5) && Total(T7.entries, Sol7, 4, 5) == 100
  {
  }

  /** `set_addresses(td, s, 1000)`: `b0` at 0, `app` at 250 with 650,
      `provision` in the last 100. */
  lemma Test7Addressed()
    ensures T7.Valid() && Addressed(T7, Sol7, 1000).Ok?
    ensures var m := Addressed(T7, Sol7, 1000).value.entries;
      && "b0" in m && m["b0"].address == Some(0)
      && Anchor in m && m[Anchor].address == Some(250) && m[Anchor].size == Some(650)
      && "provision" in m && m["provision"].address == Some(900)
  {
    Sol7Placeable();
    AddressedLayout(T7, Sol7, 1000);
    Sol7Layout(Addressed(T7, Sol7, 1000).value);
  }

  /** Any layout of the last solution puts `b0`, `app` and `provision` there. */
  lemma Sol7Layout(t': Table)
    requires T7.Valid() && Distinct(Sol7) && AddressAssigner.Placeable(T7, Sol7) && Layout(T7, Sol7, 1000, t')
    ensures "b0" in t'.entries && t'.entries["b0"].address == Some(0)
    ensures Anchor in t'.entries && t'.entries[Anchor].address == Some(250) && t'.entries[Anchor].size == Some(650)
    ensures "provision" in t'.entries && t'.entries["provision"].address == Some(900)
  {
    Sol7Index();
    Sol7Front();
    Sol7Back();
    LayoutPrefix(T7, Sol7, 1000, t', 0);
    LayoutPrefix(T7, Sol7, 1000, t', 3);
    LayoutLast(T7, Sol7, 1000, t');
  }

  /** The first parent partition is carried over: the second span's own
      parent `B` is present and at 5000, yet its sub-partition starts at
      1000, the address of `A`, the parent the first span found. */
  const Carry: Table := Table(["A", "B"], map["A" := SizedAt(100, 1000), "B" := SizedAt(50, 5000)])
  const CarryS1: Entry := Entry(None, None, None, Some(["A"]), Some(["x"]))
  const CarryS2: Entry := Entry(None, None, None, Some(["B"]), Some(["y"]))
  const CarrySpans: Table := Table(["s1", "s2"], map["s1" := CarryS1, "s2" := CarryS2])
  const Carry1: Table := Carry.Put("s1_x", SizedAt(100, 1000))
  const Carry2: Table := Carry1.Put("s2_y", SizedAt(50, 1000))

  lemma CarryFacts()
    ensures Carry.Valid() && CarrySpans.Valid()
    ensures "A" in Carry.entries && Carry.entries["A"].size == Some(100) && Carry.entries["A"].address == Some(1000)
  {
  }

  lemma Carry1Facts()
    ensures Carry1.Valid()
    ensures "A" in Carry1.entries && Carry1.entries["A"].address == Some(1000)
    ensures "B" in Carry1.entries && Carry1.entries["B"].size == Some(50)
  {
  }

  lemma CarryScans()
    ensures Carry.Valid() && Scan(Carry, ["A"], 0, None, 0) == Ok((Some("A"), 100))
    ensures Carry1.Valid() && Scan(Carry1, ["B"], 0, Some("A"), 0) == Ok((Some("A"), 50))
  {
    CarryFacts();
    Carry1Facts();
    assert Scan(Carry, ["A"], 1, Some("A"), 100) == Ok((Some("A"), 100));
    assert Scan(Carry1, ["B"], 1, Some("A"), 50) == Ok((Some("A"), 50));
  }

  lemma CarryLaidOut()
    ensures Carry.Valid() && LaidOut(Carry, "s1", ["x"], 100, 1000, 1) == Carry1
    ensures Carry1.Valid() && LaidOut(Carry1, "s2", ["y"], 50, 1000, 1) == Carry2
  {
    CarryFacts();
    Carry1Facts();
    assert ChildName("s1", "x") == "s1_x" && ChildName("s2", "y") == "s2_y";
    assert LaidOut(Carry, "s1", ["x"], 100, 1000, 0) == Carry;
    assert LaidOut(Carry1, "s2", ["y"], 50, 1000, 0) == Carry1;
  }

  lemma CarrySteps()
    ensures Carry.Valid() && Apportion(Carry, "s1", CarryS1, None) == Ok((Carry1, Some("A")))
    ensures Carry1.Valid() && Apportion(Carry1, "s2", CarryS2, Some("A")) == Ok((Carry2, Some("A")))
  {
    CarryFacts();
    Carry1Facts();
    CarryScans();
    CarryLaidOut();
    ApportionVia(Carry, "s1", CarryS1, None, ["A"], ["x"], "A", 100, 1000, Carry1);
    ApportionVia(Carry1, "s2", CarryS2, Some("A"), ["B"], ["y"], "A", 50, 1000, Carry2);
  }

  lemma CarryFirstSpan()
    ensures Carry.Valid() && CarrySpans.Valid() && ApportionFirst(Carry, CarrySpans, 1) == Ok((Carry1, Some("A")))
  {
    CarryFacts();
    CarrySteps();
    assert CarrySpans.keys[0] == "s1" && CarrySpans.entries["s1"] == CarryS1;
  }

  lemma CarryApportioned()
    ensures Carry.Valid() && CarrySpans.Valid() && Apportioned(Carry, CarrySpans) == Ok(Carry2)
  {
    CarryFirstSpan();
    CarrySteps();
    ApportionFirstStep(Carry, CarrySpans, 1, (Carry1, Some("A")));
    assert CarrySpans.keys[1] == "s2" && CarrySpans.entries["s2"] == CarryS2;
  }

  lemma FirstParentCarriesOver()
    ensures Carry.Valid() && CarrySpans.Valid() && Apportioned(Carry, CarrySpans).Ok?
    ensures var m := Apportioned(Carry, CarrySpans).value.entries;
      && "s1_x" in m && m["s1_x"] == SizedAt(100, 1000)
      && "s2_y" in m && m["s2_y"] == SizedAt(50, 1000)
      && "B" in m && m["B"].address == Some(5000)
  {
    CarryApportioned();
  }
}
