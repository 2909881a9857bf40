/** The order `resolve` returns, stage by stage: the `'last'` chain at the
    end, the `before` chain in front of `app`, the `after` chain behind it. */
module ResolverTheorem {
  import opened Common
  import opened Partitions
  import opened Normalizer
  import opened SpanExtractor
  import opened Resolver
  import opened ResolverProperties

  /** `app` as `load_adr_map` declares it: placement `''`, no `inside`. */
  predicate AnchorDeclared(t: Table) {
    Anchor in t.entries && t.entries[Anchor].placement == Some(Str("")) && t.entries[Anchor].inside.None?
  }

  /** Every partition the passes are to place is in `sol`. */
  ghost predicate AllPlaced(reqs: Table, sol: seq<string>) {
    forall x :: x in reqs.entries && NeedsPlacing(reqs.entries[x]) ==> x in sol
  }

  /** The tail of the order that `solve_from_last` builds: empty when no
      partition is `'last'`; otherwise it ends with the `'last'` partition,
      each element is the first claimant of the slot before the next, and
      nothing claims the slot before its first element. */
  ghost predicate LastPart(reqs: Table, tail: seq<string>)
    requires reqs.Valid()
  {
    || (tail == [] && LastPartitions(reqs) == Ok([]))
    || (&& tail != []
        && LastPartitions(reqs) == Ok([tail[|tail| - 1]])
        && BeforeLinked(reqs, tail, false)
        && Unclaimed(reqs, tail[0], Before))
  }

  /** The state of `unsolved` and `solution` during `resolve`, with U0 the
      initial `unsolved`: no repetitions, no overlap, every name a key, and
      every name of U0 either placed or still unsolved. */
  ghost predicate Progress(reqs: Table, U0: seq<string>, S: seq<string>, U: seq<string>) {
    && Distinct(S) && Distinct(U) && Disjoint(S, U)
    && (forall x :: x in U0 ==> x in reqs.entries)
    && (forall x :: x in S ==> x in reqs.entries)
    && (forall x :: x in U ==> x in U0)
    && (forall x :: x in U0 ==> x in S || x in U)
  }

  lemma ProgressMoved(reqs: Table, U0: seq<string>, S: seq<string>, U: seq<string>, S': seq<string>, U': seq<string>)
    requires Progress(reqs, U0, S, U) && Moved(S, U, S', U')
    ensures Progress(reqs, U0, S', U')
  {
  }

  /** The chain `solve_from_last` grows from the `'last'` partition L. */
  lemma LastChain(reqs: Table, U0: seq<string>, L: string, U1: seq<string>, S1: seq<string>)
    requires reqs.Valid() && Distinct(U0) && L != Anchor && L !in U0 && Anchor !in U0
    requires Pass(reqs, U0, [Anchor, L], L, Before, false) == Ok((U1, S1))
    ensures |S1| >= 2 && S1[0] == Anchor && S1[|S1| - 1] == L
    ensures BeforeLinked(reqs, S1[1..], false) && Unclaimed(reqs, S1[1], Before)
  {
    var S: seq<string> := [Anchor, L];
    assert S[1] == L;
    PassBefore(reqs, U0, S, 1, false, U1, S1);
    BeforeShapeOfPair(reqs, S, S1, false);
  }

  lemma BeforeShapeOfPair(t: Table, S: seq<string>, S': seq<string>, strict: bool)
    requires t.Valid() && |S| == 2 && BeforeShape(t, S, 1, S', strict)
    ensures |S'| >= 2 && S'[0] == S[0] && S'[|S'| - 1] == S[1] && BeforeLinked(t, S'[1..], strict)
  {
    assert S'[1..] == S'[1..|S'|];
    assert S'[|S'| - 1] == S'[|S'| - 1..][0];
    assert S'[0] == S'[..1][0];
  }

  lemma LastChainProgress(reqs: Table, U0: seq<string>, L: string, U1: seq<string>, S1: seq<string>)
    requires reqs.Valid() && Distinct(U0)
    requires forall x :: x in U0 ==> x in reqs.entries
    requires L != Anchor && L !in U0 && Anchor !in U0 && L in reqs.entries && Anchor in reqs.entries
    requires Pass(reqs, U0, [Anchor, L], L, Before, false) == Ok((U1, S1))
    ensures Progress(reqs, U0, S1, U1)
  {
    var S: seq<string> := [Anchor, L];
    assert S[1] == L;
    PassMoved(reqs, U0, S, 1, Before, false, U1, S1);
    assert Progress(reqs, U0, S, U0);
    ProgressMoved(reqs, U0, S, U0, S1, U1);
  }

  /** `solve_from_last` on `['app']`: `app` first, the `'last'` chain after it. */
  lemma LastStage(reqs: Table, U0: seq<string>, U1: seq<string>, S1: seq<string>)
    requires reqs.Valid() && Distinct(U0)
    requires forall x :: x in U0 ==> x in reqs.entries && NeedsPlacing(reqs.entries[x])
    requires Anchor in reqs.entries && reqs.entries[Anchor].placement == Some(Str(""))
    requires SolvedFromLast(reqs, U0, [Anchor]) == Ok((U1, S1))
    ensures |S1| >= 1 && S1[0] == Anchor && LastPart(reqs, S1[1..])
    ensures Progress(reqs, U0, S1, U1)
  {
    var last := LastPartitions(reqs).value;
    if last == [] {
      assert S1 == [Anchor] && U1 == U0;
    } else {
      var L := last[0];
      assert L in reqs.entries && IsLast(reqs.entries[L]);
      assert [Anchor] + [L] == [Anchor, L];
      LastChain(reqs, U0, L, U1, S1);
      LastChainProgress(reqs, U0, L, U1, S1);
      assert last == [L];
      assert S1[1..][|S1[1..]| - 1] == L && S1[1..][0] == S1[1];
    }
  }

  /** `solve_direction(..., 'before')`: a chain in front of what was built. */
  lemma BeforeStage(reqs: Table, U0: seq<string>, U1: seq<string>, S1: seq<string>, U2: seq<string>, S2: seq<string>)
    requires reqs.Valid() && Progress(reqs, U0, S1, U1) && |S1| >= 1 && S1[0] == Anchor
    requires SolvedDirection(reqs, U1, S1, Before) == Ok((U2, S2))
    ensures Progress(reqs, U0, S2, U2) && (U1 == [] ==> U2 == [])
    ensures |S2| >= |S1| && S2[|S2| - |S1|..] == S1
    ensures BeforeLinked(reqs, S2[..|S2| - |S1| + 1], true)
    ensures Unclaimed(reqs, S2[0], Before) || U2 == []
  {
    if |U1| > 0 {
      PassBefore(reqs, U1, S1, 0, true, U2, S2);
      PassMoved(reqs, U1, S1, 0, Before, true, U2, S2);
      ProgressMoved(reqs, U0, S1, U1, S2, U2);
      assert S2[..|S2| - |S1| + 1] == S2[0..|S2| - |S1| + 1];
    }
  }

  /** `solve_direction(..., 'after')`: a chain directly behind `app`. */
  lemma AfterStage(reqs: Table, U0: seq<string>, U2: seq<string>, S2: seq<string>, a: nat,
                   U3: seq<string>, S3: seq<string>)
    requires reqs.Valid() && Progress(reqs, U0, S2, U2) && a < |S2| && S2[a] == Anchor
    requires SolvedDirection(reqs, U2, S2, After) == Ok((U3, S3))
    ensures Progress(reqs, U0, S3, U3) && (U2 == [] ==> U3 == [])
    ensures |S3| >= |S2| && S3[..a + 1] == S2[..a + 1] && S3[|S3| - |S2| + a + 1..] == S2[a + 1..]
    ensures AfterLinked(reqs, S3[a..|S3| - |S2| + a + 1], true)
    ensures Unclaimed(reqs, S3[|S3| - |S2| + a], After) || U3 == []
  {
    if |U2| > 0 {
      PassAfter(reqs, U2, S2, a, true, U3, S3);
      PassAfterEnd(reqs, U2, S2, a, true, U3, S3);
      PassMoved(reqs, U2, S2, a, After, true, U3, S3);
      ProgressMoved(reqs, U0, S2, U2, S3, U3);
      assert |S3| - 1 - (|S2| - 1 - a) == |S3| - |S2| + a;
    }
  }

  /** The order `resolve` returns: `app` at `a`, in front of it the chain
      the `before` pass grew, from `a` to `b` the chain the `after` pass grew,
      from `b` on the `'last'` chain; every link is the single claimant of
      its slot (the first claimant in the `'last'` chain), and each chain
      stops where nothing claims its end, unless nothing was left to place. */
  ghost predicate OrderShape(reqs: Table, sol: seq<string>, a: nat, b: nat)
    requires reqs.Valid()
  {
    && a < b <= |sol| && sol[a] == Anchor && Distinct(sol)
    && (forall x :: x in sol ==> x in reqs.entries)
    && BeforeLinked(reqs, sol[..a + 1], true)
    && AfterLinked(reqs, sol[a..b], true)
    && LastPart(reqs, sol[b..])
    && (Unclaimed(reqs, sol[0], Before) || AllPlaced(reqs, sol))
    && (Unclaimed(reqs, sol[b - 1], After) || AllPlaced(reqs, sol))
  }

  lemma PreparedAnchor(t: Table)
    requires t.Valid() && AnchorDeclared(t)
    ensures Anchor in Prepared(t).entries && Prepared(t).entries[Anchor].placement == Some(Str(""))
    ensures forall x :: x in Prepared(t).entries <==> x in t.entries && !IsSpan(t.entries[x])
  {
    NormalizedOnlyTrimsChains(t);
  }

  /** The three stages together, as slices of the final order: `app` at a,
      the `before` chain up to it, the `after` chain from it to b, and the
      tail of `solve_from_last` from b on. */
  lemma Assembly(reqs: Table, S1: seq<string>, S2: seq<string>,
                 U3: seq<string>, S3: seq<string>, a: nat)
    requires reqs.Valid() && |S1| >= 1 && S1[0] == Anchor && LastPart(reqs, S1[1..])
    requires |S2| >= |S1| && S2[|S2| - |S1|..] == S1 && a == |S2| - |S1|
    requires BeforeLinked(reqs, S2[..a + 1], true)
    requires |S3| >= |S2| && S3[..a + 1] == S2[..a + 1] && S3[|S3| - |S2| + a + 1..] == S2[a + 1..]
    requires AfterLinked(reqs, S3[a..|S3| - |S2| + a + 1], true)
    requires Distinct(S3) && (forall x :: x in S3 ==> x in reqs.entries) && (U3 == [] ==> AllPlaced(reqs, S3))
    requires Unclaimed(reqs, S2[0], Before) || U3 == []
    requires Unclaimed(reqs, S3[|S3| - |S2| + a], After) || U3 == []
    ensures OrderShape(reqs, S3, a, |S3| - |S1| + 1)
  {
    Slices(S1, S2, S3, a);
  }

  /** Where the three stages sit in the final order. */
  lemma Slices(S1: seq<string>, S2: seq<string>, S3: seq<string>, a: nat)
    requires |S1| >= 1 && S1[0] == Anchor
    requires |S2| >= |S1| && S2[|S2| - |S1|..] == S1 && a == |S2| - |S1|
    requires |S3| >= |S2| && S3[..a + 1] == S2[..a + 1] && S3[|S3| - |S2| + a + 1..] == S2[a + 1..]
    ensures a < |S3| - |S1| + 1 <= |S3| && S3[a] == Anchor && S3[0] == S2[0]
    ensures S3[|S3| - |S1| + 1..] == S1[1..] && |S3| - |S1| == |S3| - |S2| + a
  {
    var b := |S3| - |S1| + 1;
    assert S2[a] == S2[a..][0] == Anchor;
    assert S3[a] == S3[..a + 1][a] == S2[..a + 1][a];
    assert S3[b..] == S2[a + 1..] == S1[1..];
    assert S3[0] == S3[..a + 1][0] == S2[..a + 1][0];
  }

  /** The `after` stage and the assembly, from the order the first two
      stages built. */
  lemma AfterShape3(reqs: Table, U0: seq<string>, S1: seq<string>,
                    U2: seq<string>, S2: seq<string>, U3: seq<string>, S3: seq<string>)
    requires reqs.Valid() && |S1| >= 1 && S1[0] == Anchor && LastPart(reqs, S1[1..])
    requires forall x :: x in U0 <==> x in reqs.entries && NeedsPlacing(reqs.entries[x])
    requires Progress(reqs, U0, S2, U2) && |S2| >= |S1| && S2[|S2| - |S1|..] == S1
    requires BeforeLinked(reqs, S2[..|S2| - |S1| + 1], true)
    requires Unclaimed(reqs, S2[0], Before) || U2 == []
    requires SolvedDirection(reqs, U2, S2, After) == Ok((U3, S3))
    ensures |S3| >= |S1| && OrderShape(reqs, S3, |S2| - |S1|, |S3| - |S1| + 1)
  {
    var a := |S2| - |S1|;
    assert S2[a] == S2[a..][0];
    assert && |S3| >= |S2| && S3[..a + 1] == S2[..a + 1] && S3[|S3| - |S2| + a + 1..] == S2[a + 1..]
           && AfterLinked(reqs, S3[a..|S3| - |S2| + a + 1], true)
           && (Unclaimed(reqs, S3[|S3| - |S2| + a], After) || U3 == [])
           && Distinct(S3) && (forall x :: x in S3 ==> x in reqs.entries) && (U3 == [] ==> AllPlaced(reqs, S3))
           && (U2 == [] ==> U3 == [])
    by {
      AfterStage(reqs, U0, U2, S2, a, U3, S3);
      if U3 == [] {
        DonePlaced(reqs, U0, S3);
      }
    }
    Assembly(reqs, S1, S2, U3, S3, a);
  }

  /** The stages of `resolve` after the preparation, from the initial
      `unsolved` U0 of every partition to place. */
  lemma StagesShape(reqs: Table, U0: seq<string>, U1: seq<string>, S1: seq<string>,
                    U2: seq<string>, S2: seq<string>, U3: seq<string>, S3: seq<string>)
    requires reqs.Valid() && Distinct(U0)
    requires forall x :: x in U0 <==> x in reqs.entries && NeedsPlacing(reqs.entries[x])
    requires Anchor in reqs.entries && reqs.entries[Anchor].placement == Some(Str(""))
    requires SolvedFromLast(reqs, U0, [Anchor]) == Ok((U1, S1))
    requires SolvedDirection(reqs, U1, S1, Before) == Ok((U2, S2))
    requires SolvedDirection(reqs, U2, S2, After) == Ok((U3, S3))
    ensures exists a: nat, b: nat :: OrderShape(reqs, S3, a, b)
  {
    LastStage(reqs, U0, U1, S1);
    BeforeStage(reqs, U0, U1, S1, U2, S2);
    AfterShape3(reqs, U0, S1, U2, S2, U3, S3);
  }

  /** With nothing left unsolved, every partition to place is in the order. */
  lemma DonePlaced(reqs: Table, U0: seq<string>, S: seq<string>)
    requires Progress(reqs, U0, S, [])
    requires forall x :: x in U0 <==> x in reqs.entries && NeedsPlacing(reqs.entries[x])
    ensures AllPlaced(reqs, S)
  {
  }

  /** What `resolve` returns when it succeeds: the order has OrderShape over
      the prepared table, holds only keys of the table that are not spans,
      and the second result is exactly the span entries, normalised. */
  lemma ResolvedOrder(t: Table, sol: seq<string>, spans: Table)
    requires t.Valid() && AnchorDeclared(t)
    requires Resolved(t) == Ok((sol, spans))
    ensures exists a: nat, b: nat :: OrderShape(Prepared(t), sol, a, b)
    ensures forall x :: x in sol ==> x in t.entries && !IsSpan(t.entries[x])
    ensures spans == Extracted(Normalized(t)).0
    ensures forall x :: x in spans.entries <==> x in t.entries && IsSpan(t.entries[x])
  {
    NormalizedOnlyTrimsChains(t);
    PreparedAnchor(t);
    var reqs := Prepared(t);
    var U0 := ImagesToResolve(reqs).value;
    var r1 := SolvedFromLast(reqs, U0, [Anchor]).value;
    var r2 := SolvedDirection(reqs, r1.0, r1.1, Before).value;
    var r3 := SolvedDirection(reqs, r2.0, r2.1, After).value;
    assert sol == r3.1;
    StagesShape(reqs, U0, r1.0, r1.1, r2.0, r2.1, r3.0, r3.1);
  }
}
