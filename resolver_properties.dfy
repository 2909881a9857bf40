/** What the passes of `resolve` guarantee: each inserted partition sits
    directly next to the one it claims, the order already built is kept,
    every inserted name leaves `unsolved`, and a chain ends only where no
    partition claims its end. */
module ResolverProperties {
  import opened Common
  import opened Partitions
  import opened Resolver

  predicate Disjoint(a: seq<string>, b: seq<string>) {
    forall x :: x in a ==> x !in b
  }

  /** `x` is the partition the pass inserts next to `y`: the first of the
      claimants of `y`, and (strict) the only one. */
  ghost predicate FirstClaimant(t: Table, y: string, x: string, d: Dir, strict: bool)
    requires t.Valid()
  {
    && Claimants(t, y, d).Ok?
    && |Claimants(t, y, d).value| > 0
    && Claimants(t, y, d).value[0] == x
    && (strict ==> |Claimants(t, y, d).value| == 1)
  }

  /** Every element of `ch` is placed directly before its right neighbour. */
  ghost predicate BeforeLinked(t: Table, ch: seq<string>, strict: bool)
    requires t.Valid()
  {
    forall i :: 0 <= i < |ch| - 1 ==> FirstClaimant(t, ch[i + 1], ch[i], Before, strict)
  }

  /** Every element of `ch` is placed directly after its left neighbour. */
  ghost predicate AfterLinked(t: Table, ch: seq<string>, strict: bool)
    requires t.Valid()
  {
    forall i :: 0 <= i < |ch| - 1 ==> FirstClaimant(t, ch[i], ch[i + 1], After, strict)
  }

  /** Nothing claims `y`. */
  ghost predicate Unclaimed(t: Table, y: string, d: Dir)
    requires t.Valid()
  {
    Claimants(t, y, d) == Ok([])
  }

  /** From (solution, unsolved) to (S', U'): names only move from unsolved
      into the solution, and both stay free of repetitions and disjoint. */
  ghost predicate Moved(S: seq<string>, U: seq<string>, S': seq<string>, U': seq<string>) {
    && Distinct(S') && Distinct(U') && Disjoint(S', U')
    && (forall x :: x in S ==> x in S')
    && (forall x :: x in U' ==> x in U)
    && (forall x :: x in S' ==> x in S || x in U)
    && (forall x :: x in U ==> x in S' || x in U')
  }

  lemma MovedRefl(S: seq<string>, U: seq<string>)
    requires Distinct(S) && Distinct(U) && Disjoint(S, U)
    ensures Moved(S, U, S, U)
  {
  }

  lemma MovedTrans(S: seq<string>, U: seq<string>, S1: seq<string>, U1: seq<string>, S2: seq<string>, U2: seq<string>)
    requires Moved(S, U, S1, U1) && Moved(S1, U1, S2, U2)
    ensures Moved(S, U, S2, U2)
  {
  }

  lemma InsertDistinct(s: seq<string>, i: nat, x: string)
    requires Distinct(s) && i <= |s| && x !in s
    ensures Distinct(InsertAt(s, i, x))
    ensures forall y :: y in InsertAt(s, i, x) <==> y in s || y == x
  {
    var r := InsertAt(s, i, x);
    assert r == s[..i] + [x] + s[i..];
    forall a, b | 0 <= a < b < |r| ensures r[a] != r[b] {
      if a < i && b == i {
        assert r[a] == s[a];
      } else if a == i {
        assert r[b] == s[b - 1];
      } else {
        assert r[a] == (if a < i then s[a] else s[a - 1]);
        assert r[b] == (if b < i then s[b] else s[b - 1]);
      }
    }
    assert s == s[..i] + s[i..];
  }

  /** One step of a pass: the claimant `x` of the cursor, taken out of
      `unsolved` and inserted at position `pos`. */
  lemma StepMoved(S: seq<string>, U: seq<string>, pos: nat, x: string)
    requires Distinct(S) && Distinct(U) && Disjoint(S, U) && pos <= |S| && x in U
    ensures Moved(S, U, InsertAt(S, pos, x), RemoveFirst(U, x))
  {
    InsertDistinct(S, pos, x);
    DistinctRemoveFirst(U, x);
  }

  lemma BeforeLinkedSnoc(t: Table, ch: seq<string>, x: string, strict: bool)
    requires t.Valid() && ch != [] && BeforeLinked(t, ch, strict)
    requires FirstClaimant(t, x, ch[|ch| - 1], Before, strict)
    ensures BeforeLinked(t, ch + [x], strict)
  {
    var c := ch + [x];
    forall i | 0 <= i < |c| - 1 ensures FirstClaimant(t, c[i + 1], c[i], Before, strict) {
      if i < |ch| - 1 {
        assert c[i] == ch[i] && c[i + 1] == ch[i + 1];
      }
    }
  }

  lemma AfterLinkedCons(t: Table, x: string, ch: seq<string>, strict: bool)
    requires t.Valid() && ch != [] && AfterLinked(t, ch, strict)
    requires FirstClaimant(t, x, ch[0], After, strict)
    ensures AfterLinked(t, [x] + ch, strict)
  {
    var c := [x] + ch;
    forall i | 0 <= i < |c| - 1 ensures FirstClaimant(t, c[i], c[i + 1], After, strict) {
      if i > 0 {
        assert c[i] == ch[i - 1] && c[i + 1] == ch[i];
      }
    }
  }

  /** The step of a pass in which the cursor S[k] has claimants. */
  lemma PassStep(t: Table, U: seq<string>, S: seq<string>, k: nat, d: Dir, strict: bool)
    requires t.Valid() && Distinct(S) && Distinct(U) && Disjoint(S, U) && k < |S|
    requires Claimants(t, S[k], d).Ok? && Claimants(t, S[k], d).value != []
    requires Pass(t, U, S, S[k], d, strict).Ok?
    ensures var x := Claimants(t, S[k], d).value[0];
      && x in U && x !in S
      && FirstClaimant(t, S[k], x, d, strict)
      && var pos := if d == Before then k else k + 1;
         Pass(t, U, S, S[k], d, strict)
           == Pass(t, RemoveFirst(U, x), InsertAt(S, pos, x), InsertAt(S, pos, x)[pos], d, strict)
  {
    var x := Claimants(t, S[k], d).value[0];
    DistinctIndexOf(S, k);
    PassStepNeeds(t, U, S, k, d, strict);
    DisjointNotIn(S, U, x);
    PassUnfold(t, U, S, S[k], k, d, strict, Claimants(t, S[k], d).value);
  }

  lemma PassStepNeeds(t: Table, U: seq<string>, S: seq<string>, k: nat, d: Dir, strict: bool)
    requires t.Valid() && k < |S| && IndexOf(S, S[k]) == Some(k)
    requires Claimants(t, S[k], d).Ok? && Claimants(t, S[k], d).value != []
    requires Pass(t, U, S, S[k], d, strict).Ok?
    ensures Claimants(t, S[k], d).value[0] in U
    ensures strict ==> |Claimants(t, S[k], d).value| == 1
  {
  }

  /** One step of a pass: the first claimant goes next to the cursor. */
  lemma PassUnfold(t: Table, U: seq<string>, S: seq<string>, cur: string, k: nat, d: Dir, strict: bool, deps: seq<string>)
    requires t.Valid() && IndexOf(S, cur) == Some(k) && Claimants(t, cur, d) == Ok(deps)
    requires deps != [] && deps[0] in U && (strict ==> |deps| == 1)
    ensures Pass(t, U, S, cur, d, strict)
      == Pass(t, RemoveFirst(U, deps[0]), InsertAt(S, if d == Before then k else k + 1, deps[0]), deps[0], d, strict)
  {
    if strict {
      assert |deps| == 1;
    } else {
      assert deps[0] in U;
    }
  }



  lemma DisjointNotIn(S: seq<string>, U: seq<string>, x: string)
    requires Disjoint(S, U) && x in U
    ensures x !in S
  {
  }

  /** Every pass only moves names from `unsolved` into the solution. */
  lemma {:induction false} PassMoved(t: Table, U: seq<string>, S: seq<string>, k: nat, d: Dir, strict: bool,
                                     U': seq<string>, S': seq<string>)
    requires t.Valid() && Distinct(S) && Distinct(U) && Disjoint(S, U) && k < |S|
    requires Pass(t, U, S, S[k], d, strict) == Ok((U', S'))
    ensures Moved(S, U, S', U')
    decreases |U|
  {
    var ds := Claimants(t, S[k], d).value;
    if ds == [] {
      MovedRefl(S, U);
    } else {
      PassStep(t, U, S, k, d, strict);
      var x := ds[0];
      var pos := if d == Before then k else k + 1;
      var S1, U1 := InsertAt(S, pos, x), RemoveFirst(U, x);
      StepMoved(S, U, pos, x);
      PassMoved(t, U1, S1, pos, d, strict, U', S');
      MovedTrans(S, U, S1, U1, S', U');
    }
  }

  /** A pass that stops at once leaves the solution as it is. */
  lemma PassStops(t: Table, U: seq<string>, S: seq<string>, k: nat, d: Dir, strict: bool,
                  U': seq<string>, S': seq<string>)
    requires t.Valid() && k < |S|
    requires Pass(t, U, S, S[k], d, strict) == Ok((U', S'))
    requires Claimants(t, S[k], d) == Ok([])
    ensures S' == S && U' == U
  {
  }

  /** The result S' of a `before` pass from S[k]: S[..k] in front, S[k..] at
      the end, and in between a chain of claimants, each directly before the
      partition it claims. */
  ghost predicate BeforeShape(t: Table, S: seq<string>, k: nat, S': seq<string>, strict: bool)
    requires t.Valid()
  {
    && k < |S| <= |S'| && S'[..k] == S[..k] && S'[|S'| - |S| + k..] == S[k..]
    && BeforeLinked(t, S'[k..|S'| - |S| + k + 1], strict)
  }

  /** The result S' of an `after` pass from S[k]: S[..k+1] in front,
      S[k+1..] at the end, and in between a chain of claimants, each
      directly after the partition it claims. */
  ghost predicate AfterShape(t: Table, S: seq<string>, k: nat, S': seq<string>, strict: bool)
    requires t.Valid()
  {
    && k < |S| <= |S'| && S'[..k + 1] == S[..k + 1] && S'[|S'| - |S| + k + 1..] == S[k + 1..]
    && AfterLinked(t, S'[k..|S'| - |S| + k + 1], strict)
  }

  lemma ShapeStops(t: Table, S: seq<string>, k: nat, strict: bool)
    requires t.Valid() && k < |S|
    ensures BeforeShape(t, S, k, S, strict) && AfterShape(t, S, k, S, strict)
  {
  }

  /** The `before` shape after one more step: what holds of S' relative to
      S1 = S with x inserted at k carries over to S. */
  lemma BeforeExtend(t: Table, S: seq<string>, k: nat, x: string, S': seq<string>, strict: bool)
    requires t.Valid() && k < |S|
    requires BeforeShape(t, InsertAt(S, k, x), k, S', strict)
    requires FirstClaimant(t, S[k], x, Before, strict)
    ensures BeforeShape(t, S, k, S', strict)
  {
    var S1 := InsertAt(S, k, x);
    var j := |S'| - |S| + k;
    assert |S'| - |S1| + k + 1 == j;
    var ch := S'[k..j];
    assert BeforeLinked(t, ch, strict);
    assert |S'| - |S1| + k == j - 1;
    BeforeSlices(S, k, x, S');
    assert ch[|ch| - 1] == x;
    BeforeLinkedSnoc(t, ch, S[k], strict);
    assert S'[k..j + 1] == ch + [S[k]];
  }

  /** Where S and x sit in S' when S' starts with S[..k] and ends with
      `InsertAt(S, k, x)[k..]`. */
  lemma BeforeSlices(S: seq<string>, k: nat, x: string, S': seq<string>)
    requires k < |S| && |S| + 1 <= |S'|
    requires S'[..k] == InsertAt(S, k, x)[..k]
    requires S'[|S'| - |S| - 1 + k..] == InsertAt(S, k, x)[k..]
    ensures S'[..k] == S[..k] && S'[|S'| - |S| + k..] == S[k..]
    ensures S'[|S'| - |S| + k - 1] == x
    ensures S'[k..|S'| - |S| + k + 1] == S'[k..|S'| - |S| + k] + [S[k]]
  {
    var j := |S'| - |S| + k;
    var S1 := InsertAt(S, k, x);
    assert S1[k..] == [x] + S[k..];
    assert S'[j..] == S'[j - 1..][1..];
    assert S'[j - 1] == S'[j - 1..][0];
    assert S'[j] == S'[j - 1..][1];
    assert S1[..k] == S[..k];
  }


  /** A `before` pass from the cursor S[k] yields BeforeShape, and its
      chain starts at a partition nothing claims. */
  lemma {:induction false} PassBefore(t: Table, U: seq<string>, S: seq<string>, k: nat, strict: bool,
                                      U': seq<string>, S': seq<string>)
    requires t.Valid() && Distinct(S) && Distinct(U) && Disjoint(S, U) && k < |S|
    requires Pass(t, U, S, S[k], Before, strict) == Ok((U', S'))
    ensures BeforeShape(t, S, k, S', strict)
    ensures Unclaimed(t, S'[k], Before)
    decreases |U|
  {
    var ds := Claimants(t, S[k], Before).value;
    if ds == [] {
      PassStops(t, U, S, k, Before, strict, U', S');
      ShapeStops(t, S, k, strict);
    } else {
      PassStep(t, U, S, k, Before, strict);
      var x := ds[0];
      var S1, U1 := InsertAt(S, k, x), RemoveFirst(U, x);
      StepMoved(S, U, k, x);
      PassBefore(t, U1, S1, k, strict, U', S');
      BeforeExtend(t, S, k, x, S', strict);
    }
  }

  /** The `after` shape after one more step, as BeforeExtend. */
  lemma AfterExtend(t: Table, S: seq<string>, k: nat, x: string, S': seq<string>, strict: bool)
    requires t.Valid() && k < |S|
    requires AfterShape(t, InsertAt(S, k + 1, x), k + 1, S', strict)
    requires FirstClaimant(t, S[k], x, After, strict)
    ensures AfterShape(t, S, k, S', strict)
  {
    var j := |S'| - |S| + k;
    assert |S'| - |InsertAt(S, k + 1, x)| + (k + 1) + 1 == j + 1;
    AfterSlices(S, k, x, S');
    AfterLinkedCons(t, S[k], S'[k + 1..j + 1], strict);
  }

  /** Where S and x sit in S' when S' starts with
      `InsertAt(S, k + 1, x)[..k + 2]` and ends with S[k + 1..]. */
  lemma AfterSlices(S: seq<string>, k: nat, x: string, S': seq<string>)
    requires k < |S| && |S| + 1 <= |S'|
    requires S'[..k + 2] == InsertAt(S, k + 1, x)[..k + 2]
    requires S'[|S'| - |S| + k + 1..] == InsertAt(S, k + 1, x)[k + 2..]
    ensures S'[..k + 1] == S[..k + 1] && S'[|S'| - |S| + k + 1..] == S[k + 1..]
    ensures S'[k + 1] == x
    ensures S'[k..|S'| - |S| + k + 1] == [S[k]] + S'[k + 1..|S'| - |S| + k + 1]
  {
    var j := |S'| - |S| + k;
    var S1 := InsertAt(S, k + 1, x);
    assert S1[..k + 1] == S[..k + 1] && S1[k + 1] == x && S1[k + 2..] == S[k + 1..];
    assert S'[k] == S'[..k + 2][k];
    assert S'[k + 1] == S'[..k + 2][k + 1];
    assert S'[..k + 1] == S'[..k + 2][..k + 1];
  }


  /** An `after` pass from the cursor S[k] yields AfterShape. */
  lemma {:induction false} PassAfter(t: Table, U: seq<string>, S: seq<string>, k: nat, strict: bool,
                                     U': seq<string>, S': seq<string>)
    requires t.Valid() && Distinct(S) && Distinct(U) && Disjoint(S, U) && k < |S|
    requires Pass(t, U, S, S[k], After, strict) == Ok((U', S'))
    ensures AfterShape(t, S, k, S', strict)
    decreases |U|
  {
    var ds := Claimants(t, S[k], After).value;
    if ds == [] {
      PassStops(t, U, S, k, After, strict, U', S');
      ShapeStops(t, S, k, strict);
    } else {
      PassStep(t, U, S, k, After, strict);
      var x := ds[0];
      var S1, U1 := InsertAt(S, k + 1, x), RemoveFirst(U, x);
      StepMoved(S, U, k + 1, x);
      PassAfter(t, U1, S1, k + 1, strict, U', S');
      AfterExtend(t, S, k, x, S', strict);
    }
  }

  /** The partition `n` places from the end of S' is one nothing claims
      directly after it. */
  ghost predicate EndsUnclaimed(t: Table, S': seq<string>, n: nat)
    requires t.Valid()
  {
    n < |S'| && Unclaimed(t, S'[|S'| - 1 - n], After)
  }

  /** The chain of an `after` pass ends at a partition nothing claims. */
  lemma {:induction false} PassAfterEnd(t: Table, U: seq<string>, S: seq<string>, k: nat, strict: bool,
                                        U': seq<string>, S': seq<string>)
    requires t.Valid() && Distinct(S) && Distinct(U) && Disjoint(S, U) && k < |S|
    requires Pass(t, U, S, S[k], After, strict) == Ok((U', S'))
    ensures EndsUnclaimed(t, S', |S| - 1 - k)
    decreases |U|
  {
    var c := Claimants(t, S[k], After);
    assert c.Ok?;
    if c.value == [] {
      PassStops(t, U, S, k, After, strict, U', S');
      assert S'[|S'| - 1 - (|S| - 1 - k)] == S[k];
    } else {
      PassStep(t, U, S, k, After, strict);
      var x := c.value[0];
      var S1, U1 := InsertAt(S, k + 1, x), RemoveFirst(U, x);
      StepMoved(S, U, k + 1, x);
      PassAfterEnd(t, U1, S1, k + 1, strict, U', S');
      assert |S1| - 1 - (k + 1) == |S| - 1 - k;
    }
  }
}
