/** Sub-partition extraction (`extract_sub_partitions`): the span entries,
    recognised by their `inside` key, are taken out of the table. */
module SpanExtractor {
  import opened Common
  import opened Partitions

  predicate IsSpan(e: Entry) {
    e.inside.Some?
  }

  /** The part of `t` whose entries do (`spans`) or do not satisfy IsSpan,
      in the table's order. */
  function Part(t: Table, spans: bool): (r: Table)
    requires t.Valid()
    ensures r.Valid() && SubseqOf(r.keys, t.keys)
    ensures forall k :: k in r.entries <==> k in t.entries && IsSpan(t.entries[k]) == spans
    ensures forall k :: k in r.entries ==> r.entries[k] == t.entries[k]
  {
    var keys := FilterKeys(t.keys, t.entries, e => IsSpan(e) == spans);
    SubseqDistinct(keys, t.keys);
    Table(keys, map k | k in t.entries && IsSpan(t.entries[k]) == spans :: t.entries[k])
  }

  /** `extract_sub_partitions(reqs)`: the returned dictionary of spans and
      what is left of `reqs` once their keys are deleted. */
  function Extracted(t: Table): (r: (Table, Table))
    requires t.Valid()
    ensures r.0.Valid() && r.1.Valid()
    ensures forall k :: k in r.0.entries <==> k in t.entries && IsSpan(t.entries[k])
    ensures forall k :: k in r.1.entries <==> k in t.entries && !IsSpan(t.entries[k])
    ensures forall k :: k in r.0.entries ==> r.0.entries[k] == t.entries[k]
    ensures forall k :: k in r.1.entries ==> r.1.entries[k] == t.entries[k]
    ensures SubseqOf(r.0.keys, t.keys) && SubseqOf(r.1.keys, t.keys)
  {
    (Part(t, true), Part(t, false))
  }

  /** The first loop of `extract_sub_partitions`: the spans in key order. */
  method CollectSpans(t: Table) returns (spans: Table)
    requires t.Valid()
    ensures spans == Extracted(t).0
  {
    spans := Table([], map[]);
    var i := 0;
    while i < |t.keys|
      invariant 0 <= i <= |t.keys| && spans.Valid() && SubseqOf(spans.keys, t.keys[..i])
      invariant forall k :: k in spans.entries <==> k in t.keys[..i] && IsSpan(t.entries[k])
      invariant forall k :: k in spans.entries ==> spans.entries[k] == t.entries[k]
    {
      var k := t.keys[i];
      assert t.keys[..i + 1] == t.keys[..i] + [k] && k !in t.keys[..i];
      SubseqSnoc(spans.keys, t.keys[..i], k);
      if t.entries[k].inside.Some? {
        spans := spans.Put(k, t.entries[k]);
      }
      i := i + 1;
    }
    assert t.keys[..i] == t.keys;
    PartOf(t, spans, true);
  }

  /** Deleting the keys of the spans from `t` leaves the table of the
      other entries. */
  lemma LeftAfterDelete(t: Table, spans: Table, c: Table)
    requires t.Valid() && c.Valid() && spans == Extracted(t).0 && SubseqOf(c.keys, t.keys)
    requires forall x :: x in c.entries <==> x in t.entries && x !in spans.keys
    requires forall x :: x in c.entries ==> c.entries[x] == t.entries[x]
    ensures c == Extracted(t).1
  {
    SpanKeys(t);
    PartOf(t, c, false);
  }

  lemma SpanKeys(t: Table)
    requires t.Valid()
    ensures forall x :: x in Extracted(t).0.keys <==> x in t.entries && IsSpan(t.entries[x])
  {
    var spans := Part(t, true);
    forall x ensures x in spans.keys <==> x in t.entries && IsSpan(t.entries[x]) {
      assert x in spans.keys <==> x in spans.entries;
    }
  }

  /** A table whose keys are in `t`'s order and whose entries are those of
      `t` that are spans (or are not) is `Part(t, spans)`. */
  lemma PartOf(t: Table, c: Table, spans: bool)
    requires t.Valid() && c.Valid() && SubseqOf(c.keys, t.keys)
    requires forall x :: x in c.entries <==> x in t.entries && IsSpan(t.entries[x]) == spans
    requires forall x :: x in c.entries ==> c.entries[x] == t.entries[x]
    ensures c == Part(t, spans)
  {
    var rest := Part(t, spans);
    assert c.entries == rest.entries;
    SameKeys(c, rest);
    SubseqUnique(c.keys, rest.keys, t.keys);
  }

  lemma SameKeys(a: Table, b: Table)
    requires a.Valid() && b.Valid() && a.entries.Keys == b.entries.Keys
    ensures forall x :: x in a.keys <==> x in b.keys
  {
    forall x ensures x in a.keys <==> x in b.keys {
      assert x in a.keys <==> x in a.entries;
      assert x in b.keys <==> x in b.entries;
    }
  }

  /** `cur` is `t` with the keys of `done` deleted. */
  ghost predicate Pruned(t: Table, cur: Table, done: seq<string>) {
    && cur.Valid() && SubseqOf(cur.keys, t.keys)
    && (forall x :: x in cur.entries <==> x in t.entries && x !in done)
    && (forall x :: x in cur.entries ==> cur.entries[x] == t.entries[x])
  }

  lemma PrunedStep(t: Table, cur: Table, ks: seq<string>, j: nat)
    requires j < |ks| && Pruned(t, cur, ks[..j]) && Distinct(ks) && ks[j] in t.entries
    ensures ks[j] in cur.entries && Pruned(t, cur.Delete(ks[j]), ks[..j + 1])
  {
    NotBefore(ks, j);
    PrunedDelete(t, cur, ks[..j], ks[j]);
    assert ks[..j + 1] == ks[..j] + [ks[j]];
  }

  lemma PrunedDelete(t: Table, cur: Table, done: seq<string>, k: string)
    requires Pruned(t, cur, done) && k in t.entries && k !in done
    ensures k in cur.entries && Pruned(t, cur.Delete(k), done + [k])
  {
    var d := cur.Delete(k);
    RemoveFirstSubseq(cur.keys, k);
    SubseqTrans(d.keys, cur.keys, t.keys);
    DeletedOne(t.entries, cur.entries, d.entries, done, k);
  }


  /** Deleting one more key `k` from `cur`, which is `m` without `done`. */
  lemma DeletedOne(m: map<string, Entry>, cur: map<string, Entry>, d: map<string, Entry>, done: seq<string>, k: string)
    requires d == cur - {k}
    requires forall x :: x in cur <==> x in m && x !in done
    requires forall x :: x in cur ==> cur[x] == m[x]
    ensures forall x :: x in d <==> x in m && x !in done + [k]
    ensures forall x :: x in d ==> d[x] == m[x]
  {
    forall x ensures x in d <==> x in m && x !in done + [k] {
      assert x in done + [k] <==> x in done || x == k;
    }
  }

  /** Without spans, `extract_sub_partitions` returns an empty dictionary
      and leaves `reqs` as it is. */
  lemma ExtractedWithoutSpans(t: Table)
    requires t.Valid() && forall k :: k in t.entries ==> !IsSpan(t.entries[k])
    ensures Extracted(t) == (Table([], map[]), t)
  {
    SubseqRefl(t.keys);
    SubseqUnique(Part(t, false).keys, t.keys, t.keys);
    SubseqUnique(Part(t, true).keys, [], t.keys);
    assert Part(t, true).entries == map[];
    assert Part(t, false).entries == t.entries;
  }
}
