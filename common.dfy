/** Python values the partition manager relies on: optional values, the
    exceptions it can raise, and the list operations it uses (`index`,
    `insert`, `remove`), together with the facts about them the proofs need. */
module Common {

  datatype Option<T> = None | Some(value: T)

  /** The exception kinds raised by the placement engine. Every one of them
      aborts the run; only the span error carries a message. */
  datatype Error =
    | KeyError           // a missing dictionary key (`placement`, `size`, `address`, an unknown name)
    | IndexError         // `[0]` of an empty fallback list, `solution[0]` of an empty solution
    | ValueError         // `list.index` or `list.remove` of an absent element
    | AssertionError     // an `assert` of the engine failed
    | ZeroDivisionError  // a span with no sub-partitions
    | NoCompatibleParent(span: string)  // the RuntimeError of a span whose parents sum to zero

  datatype Result<T> = Ok(value: T) | Err(error: Error)

  /** Python's `list.index`: the position of the first occurrence, or None
      where Python raises ValueError. */
  function IndexOf<T(==)>(s: seq<T>, x: T): (r: Option<nat>)
    ensures r.None? <==> x !in s
    ensures r.Some? ==> r.value < |s| && s[r.value] == x && x !in s[..r.value]
  {
    if s == [] then None
    else if s[0] == x then Some(0)
    else match IndexOf(s[1..], x)
      case None => None
      case Some(i) => Some(i + 1)
  }

  function RemoveAt<T>(s: seq<T>, i: nat): (r: seq<T>)
    requires i < |s|
    ensures |r| == |s| - 1
  {
    s[..i] + s[i + 1..]
  }

  /** Python's `list.insert(i, x)` for `0 <= i <= len(s)`. */
  function InsertAt<T>(s: seq<T>, i: nat, x: T): (r: seq<T>)
    requires i <= |s|
    ensures |r| == |s| + 1 && r[i] == x
  {
    s[..i] + [x] + s[i..]
  }

  /** Python's `list.remove(x)` on a list that holds x: drops its first occurrence. */
  function RemoveFirst<T(==)>(s: seq<T>, x: T): (r: seq<T>)
    ensures x in s ==> |r| == |s| - 1
    ensures x !in s ==> r == s
  {
    match IndexOf(s, x)
    case None => s
    case Some(i) => RemoveAt(s, i)
  }

  predicate Distinct<T(==)>(s: seq<T>) {
    forall i, j :: 0 <= i < j < |s| ==> s[i] != s[j]
  }

  /** `a` is obtained from `b` by deleting elements, keeping the order of the rest. */
  predicate SubseqOf<T(==)>(a: seq<T>, b: seq<T>)
    decreases |b|
  {
    if a == [] then true
    else if b == [] then false
    else (a[0] == b[0] && SubseqOf(a[1..], b[1..])) || SubseqOf(a, b[1..])
  }

  lemma {:induction false} SubseqRefl<T>(s: seq<T>)
    ensures SubseqOf(s, s)
    decreases |s|
  {
    if s != [] {
      SubseqRefl(s[1..]);
    }
  }

  lemma {:induction false} SubseqTrans<T>(a: seq<T>, b: seq<T>, c: seq<T>)
    requires SubseqOf(a, b) && SubseqOf(b, c)
    ensures SubseqOf(a, c)
    decreases |c|
  {
    if a != [] {
      assert b != [] && c != [];
      if SubseqOf(b, c[1..]) {
        SubseqTrans(a, b, c[1..]);
      } else {
        assert b[0] == c[0] && SubseqOf(b[1..], c[1..]);
        if a[0] == b[0] && SubseqOf(a[1..], b[1..]) {
          SubseqTrans(a[1..], b[1..], c[1..]);
        } else {
          SubseqTrans(a, b[1..], c[1..]);
        }
      }
    }
  }

  lemma {:induction false} SubseqMembers<T>(a: seq<T>, b: seq<T>)
    requires SubseqOf(a, b)
    ensures forall x :: x in a ==> x in b
    ensures multiset(a) <= multiset(b)
    decreases |b|
  {
    if a != [] {
      if a[0] == b[0] && SubseqOf(a[1..], b[1..]) {
        SubseqMembers(a[1..], b[1..]);
        assert a == [a[0]] + a[1..] && b == [b[0]] + b[1..];
      } else {
        SubseqMembers(a, b[1..]);
        assert b == [b[0]] + b[1..];
      }
    }
  }

  lemma {:induction false} SubseqDistinct<T>(a: seq<T>, b: seq<T>)
    requires SubseqOf(a, b) && Distinct(b)
    ensures Distinct(a)
    decreases |b|
  {
    if a != [] {
      if a[0] == b[0] && SubseqOf(a[1..], b[1..]) {
        SubseqDistinct(a[1..], b[1..]);
        SubseqMembers(a[1..], b[1..]);
        forall i, j | 0 <= i < j < |a| ensures a[i] != a[j] {
          if i == 0 {
            assert a[j] == a[1..][j - 1];
            assert a[j] in b[1..];
          } else {
            assert a[i] == a[1..][i - 1] && a[j] == a[1..][j - 1];
          }
        }
      } else {
        SubseqDistinct(a, b[1..]);
      }
    }
  }

  /** Deleting one element keeps the rest in order. */
  lemma {:induction false} RemoveAtSubseq<T>(s: seq<T>, i: nat)
    requires i < |s|
    ensures SubseqOf(RemoveAt(s, i), s)
    decreases |s|
  {
    var r := RemoveAt(s, i);
    if i == 0 {
      assert r == s[1..];
      SubseqRefl(s[1..]);
    } else {
      RemoveAtSubseq(s[1..], i - 1);
      assert r[1..] == RemoveAt(s[1..], i - 1);
    }
  }

  lemma RemoveAtMultiset<T>(s: seq<T>, i: nat)
    requires i < |s|
    ensures multiset(RemoveAt(s, i)) == multiset(s) - multiset{s[i]}
  {
    assert s == s[..i] + [s[i]] + s[i + 1..];
  }

  /** `s.index(x)` when `x` first occurs right after `a`. */
  lemma IndexOfSplit<T>(a: seq<T>, x: T, b: seq<T>)
    requires x !in a
    ensures IndexOf(a + [x] + b, x) == Some(|a|)
  {
    var s := a + [x] + b;
    assert s[|a|] == x;
  }

  /** `s.remove(x)` when `x` first occurs right after `a`. */
  lemma RemoveFirstSplit<T>(a: seq<T>, x: T, b: seq<T>)
    requires x !in a
    ensures RemoveFirst(a + [x] + b, x) == a + b
  {
    IndexOfSplit(a, x, b);
    var s := a + [x] + b;
    assert s[..|a|] == a && s[|a| + 1..] == b;
  }

  /** `s.insert(i, x)` at the seam between the first i elements and the rest. */
  lemma InsertAtSplit<T>(a: seq<T>, x: T, b: seq<T>)
    ensures InsertAt(a + b, |a|, x) == a + [x] + b
  {
    assert (a + b)[..|a|] == a && (a + b)[|a|..] == b;
  }

  /** `s.insert(0, x)`. */
  lemma InsertAtFront<T>(s: seq<T>, x: T)
    ensures InsertAt(s, 0, x) == [x] + s
  {
    assert s[..0] == [] && s[0..] == s;
  }

  lemma RemoveFirstSubseq<T>(s: seq<T>, x: T)
    ensures SubseqOf(RemoveFirst(s, x), s)
  {
    match IndexOf(s, x)
    case None => SubseqRefl(s);
    case Some(i) => RemoveAtSubseq(s, i);
  }

  lemma RemoveFirstMultiset<T>(s: seq<T>, x: T)
    ensures x in s ==> multiset(RemoveFirst(s, x)) == multiset(s) - multiset{x}
  {
    match IndexOf(s, x)
    case None =>
    case Some(i) => RemoveAtMultiset(s, i);
  }

  lemma TakeSnoc<T>(s: seq<T>, i: nat)
    requires i < |s|
    ensures s[..i + 1] == s[..i] + [s[i]]
  {
  }

  lemma NotBefore<T>(s: seq<T>, j: nat)
    requires j < |s| && Distinct(s)
    ensures s[j] !in s[..j]
  {
  }

  lemma DistinctIndexOf<T>(s: seq<T>, k: nat)
    requires Distinct(s) && k < |s|
    ensures IndexOf(s, s[k]) == Some(k)
  {
  }

  /** Taking one element out of a sequence without repetitions. */
  lemma DistinctSplit<T>(a: seq<T>, x: T, b: seq<T>)
    requires Distinct(a + [x] + b)
    ensures Distinct(a + b) && x !in a && x !in b
  {
    var s := a + [x] + b;
    forall i, j | 0 <= i < j < |a + b| ensures (a + b)[i] != (a + b)[j] {
      var i', j' := if i < |a| then i else i + 1, if j < |a| then j else j + 1;
      assert (a + b)[i] == s[i'] && (a + b)[j] == s[j'];
    }
    forall k | 0 <= k < |a| ensures a[k] != x {
      assert s[k] == a[k] && s[|a|] == x;
    }
    forall k | 0 <= k < |b| ensures b[k] != x {
      assert s[|a| + 1 + k] == b[k] && s[|a|] == x;
    }
  }

  /** Removing a member of a sequence without repetitions removes that member
      and no other. */
  lemma DistinctRemoveFirst<T>(s: seq<T>, x: T)
    requires Distinct(s) && x in s
    ensures Distinct(RemoveFirst(s, x))
    ensures forall y :: y in RemoveFirst(s, x) <==> y in s && y != x
  {
    var i := IndexOf(s, x).value;
    var a, b := s[..i], s[i + 1..];
    assert s == a + [x] + b;
    DistinctSplit(a, x, b);
    RemoveFirstSplit(a, x, b);
  }

  /** Appending the same element to both sides keeps a subsequence. */
  lemma {:induction false} SubseqSnoc<T>(a: seq<T>, b: seq<T>, x: T)
    requires SubseqOf(a, b)
    ensures SubseqOf(a + [x], b + [x]) && SubseqOf(a, b + [x])
    decreases |b|
  {
    if b == [] {
      assert a == [];
      assert SubseqOf([x][1..], [x][1..]);
    } else {
      assert (b + [x])[1..] == b[1..] + [x];
      if a == [] {
        SubseqSnoc(a, b[1..], x);
        assert a + [x] == [x];
      } else if a[0] == b[0] && SubseqOf(a[1..], b[1..]) {
        SubseqSnoc(a[1..], b[1..], x);
        assert (a + [x])[1..] == a[1..] + [x];
      } else {
        SubseqSnoc(a, b[1..], x);
      }
    }
  }

  /** A subsequence of a sequence without repetitions is determined by its
      members. */
  lemma {:induction false} SubseqUnique<T>(a: seq<T>, b: seq<T>, s: seq<T>)
    requires SubseqOf(a, s) && SubseqOf(b, s) && Distinct(s)
    requires forall x :: x in a <==> x in b
    ensures a == b
    decreases |s|
  {
    if s == [] {
      assert a == [] && b == [];
    } else {
      assert Distinct(s[1..]) by {
        forall i, j | 0 <= i < j < |s[1..]| ensures s[1..][i] != s[1..][j] {
          assert s[1..][i] == s[i + 1] && s[1..][j] == s[j + 1];
        }
      }
      assert s[0] !in s[1..] by {
        forall j | 0 <= j < |s[1..]| ensures s[1..][j] != s[0] {
          assert s[1..][j] == s[j + 1];
        }
      }
      if s[0] in a {
        SubseqHead(a, s);
        SubseqHead(b, s);
        SubseqMembers(a[1..], s[1..]);
        SubseqMembers(b[1..], s[1..]);
        forall x ensures x in a[1..] <==> x in b[1..] {
          assert x in a <==> x == a[0] || x in a[1..];
          assert x in b <==> x == b[0] || x in b[1..];
        }
        SubseqUnique(a[1..], b[1..], s[1..]);
      } else {
        SubseqTail(a, s);
        SubseqTail(b, s);
        SubseqUnique(a, b, s[1..]);
      }
    }
  }

  lemma SubseqHead<T>(a: seq<T>, s: seq<T>)
    requires SubseqOf(a, s) && s != [] && s[0] in a && s[0] !in s[1..]
    ensures a[0] == s[0] && SubseqOf(a[1..], s[1..])
  {
    if !(a[0] == s[0] && SubseqOf(a[1..], s[1..])) {
      SubseqMembers(a, s[1..]);
      assert false;
    }
  }

  lemma SubseqTail<T>(a: seq<T>, s: seq<T>)
    requires SubseqOf(a, s) && s != [] && s[0] !in a
    ensures SubseqOf(a, s[1..])
  {
    if a != [] {
      assert a[0] != s[0];
    }
  }

  /** `a` is a subsequence of `b` when its elements appear in `b` at the
      increasing positions `idx`. */
  lemma {:induction false} SubseqAt<T>(a: seq<T>, b: seq<T>, idx: seq<nat>)
    requires |idx| == |a|
    requires forall i :: 0 <= i < |idx| ==> idx[i] < |b| && b[idx[i]] == a[i]
    requires forall i, j :: 0 <= i < j < |idx| ==> idx[i] < idx[j]
    ensures SubseqOf(a, b)
    decreases |b|
  {
    if a != [] {
      if idx[0] == 0 {
        var idx' := seq(|idx| - 1, i requires 0 <= i < |idx| - 1 => idx[i + 1] - 1);
        forall i | 0 <= i < |idx'| ensures idx'[i] < |b[1..]| && b[1..][idx'[i]] == a[1..][i] {
          assert idx[0] < idx[i + 1];
        }
        SubseqAt(a[1..], b[1..], idx');
      } else {
        var idx' := seq(|idx|, i requires 0 <= i < |idx| => idx[i] - 1);
        forall i | 0 <= i < |idx'| ensures idx'[i] < |b[1..]| && b[1..][idx'[i]] == a[i] {
          if i > 0 { assert idx[0] < idx[i]; }
        }
        SubseqAt(a, b[1..], idx');
      }
    }
  }
}
