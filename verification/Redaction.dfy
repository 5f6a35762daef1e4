/** The redaction policy's overlap resolution and splicing (dontlie/redaction.py). */
module Redaction {
  import opened Prelude

  datatype Detection = Detection(rule: string, start: int, end: int, token: string)

  predicate InText(length: nat, d: Detection) {
    0 <= d.start < d.end <= length
  }

  ghost predicate AllInText(length: nat, ds: seq<Detection>) {
    forall d :: d in ds ==> InText(length, d)
  }

  /** The sort key: start, then the longer span first. */
  predicate SpanLe(a: Detection, b: Detection) {
    a.start < b.start || (a.start == b.start && a.end >= b.end)
  }

  function Kept(ds: seq<Detection>, lastEnd: int): seq<Detection> {
    if ds == [] then []
    else if ds[0].start < lastEnd then Kept(ds[1..], lastEnd)
    else [ds[0]] + Kept(ds[1..], ds[0].end)
  }

  function Merged(ds: seq<Detection>): seq<Detection> {
    Kept(Sort(SpanLe, ds), -1)
  }

  method Merge(ds: seq<Detection>) returns (merged: seq<Detection>)
    ensures merged == Merged(ds)
  {
    var sorted := Sort(SpanLe, ds);
    hide Sort;
    merged := [];
    var lastEnd := -1;
    var k := 0;
    assert sorted[0..] == sorted && [] + Kept(sorted, -1) == Kept(sorted, -1);
    while k < |sorted|
      invariant 0 <= k <= |sorted|
      invariant merged + Kept(sorted[k..], lastEnd) == Merged(ds)
    {
      var d := sorted[k];
      assert sorted[k..][1..] == sorted[k + 1..];
      if d.start >= lastEnd {
        assert merged + ([d] + Kept(sorted[k + 1..], d.end)) == (merged + [d]) + Kept(sorted[k + 1..], d.end);
        merged := merged + [d];
        lastEnd := d.end;
      }
      k := k + 1;
    }
    assert merged + [] == merged;
  }

  ghost predicate Apart(ds: seq<Detection>) {
    forall i, j :: 0 <= i < j < |ds| ==> ds[i].end <= ds[j].start
  }

  /** d begins inside k, and a detection with k's own start is no longer than k. */
  ghost predicate StartsInside(d: Detection, k: Detection) {
    k.start <= d.start < k.end && (k.start == d.start ==> d.end <= k.end)
  }

  ghost predicate Accounted(d: Detection, kept: seq<Detection>) {
    exists k :: k in kept && (k == d || StartsInside(d, k))
  }

  lemma SpanOrder()
    ensures TotalPreorder(SpanLe)
  {
  }

  lemma KeptCons(first: Detection, rest: seq<Detection>, kept: seq<Detection>)
    requires first.start < first.end && forall d :: d in rest ==> SpanLe(first, d)
    requires Apart(kept) && forall k :: k in kept ==> first.end <= k.start
    requires forall d :: d in rest && d.start >= first.end ==> Accounted(d, kept)
    ensures Apart([first] + kept)
    ensures forall d :: d in [first] + rest ==> Accounted(d, [first] + kept)
  {
    assert first in [first] + kept;
    forall d | d in rest ensures Accounted(d, [first] + kept) {
      if d.start >= first.end {
        var k :| k in kept && (k == d || StartsInside(d, k));
        assert k in [first] + kept;
      } else {
        assert StartsInside(d, first);
      }
    }
  }

  lemma {:induction false} KeptSelects(ds: seq<Detection>, lastEnd: int)
    ensures multiset(Kept(ds, lastEnd)) <= multiset(ds)
    ensures forall k :: k in Kept(ds, lastEnd) ==> k in ds
  {
    if ds == [] {
    } else {
      assert ds == [ds[0]] + ds[1..];
      KeptSelects(ds[1..], if ds[0].start < lastEnd then lastEnd else ds[0].end);
    }
  }

  lemma {:induction false} KeptProperties(length: nat, ds: seq<Detection>, lastEnd: int)
    requires AllInText(length, ds) && Sorted(SpanLe, ds)
    ensures Apart(Kept(ds, lastEnd))
    ensures forall k :: k in Kept(ds, lastEnd) ==> lastEnd <= k.start
    ensures forall d :: d in ds && d.start >= lastEnd ==> Accounted(d, Kept(ds, lastEnd))
  {
    hide Accounted, SpanLe;
    if ds == [] {
    } else {
      var first, rest := ds[0], ds[1..];
      assert ds == [first] + rest;
      if first.start < lastEnd {
        KeptProperties(length, rest, lastEnd);
      } else {
        KeptProperties(length, rest, first.end);
        assert first in ds && InText(length, first);
        forall d | d in rest ensures SpanLe(first, d) {
          var i :| 0 <= i < |rest| && rest[i] == d;
          assert ds[i + 1] == d;
        }
        KeptCons(first, rest, Kept(rest, first.end));
      }
    }
  }

  /** Main result: a sorted disjoint selection; whatever was dropped starts inside something kept. */
  lemma MergeIsSound(length: nat, ds: seq<Detection>)
    requires AllInText(length, ds)
    ensures multiset(Merged(ds)) <= multiset(ds)
    ensures Apart(Merged(ds)) && AllInText(length, Merged(ds))
    ensures forall d :: d in ds ==> Accounted(d, Merged(ds))
  {
    SpanOrder();
    SortSorts(SpanLe, ds);
    SortPermutes(SpanLe, ds);
    var sorted := Sort(SpanLe, ds);
    hide Sort;
    assert AllInText(length, sorted);
    KeptSelects(sorted, -1);
    KeptProperties(length, sorted, -1);
    forall k | k in Merged(ds) ensures InText(length, k) {
      assert k in sorted;
    }
    forall d | d in ds ensures Accounted(d, Merged(ds)) {
      assert d in sorted && InText(length, d);
    }
  }

  /** Left to right: untouched gaps and tokens in turn. */
  function Interleaved(text: string, cursor: nat, ds: seq<Detection>): string
    requires cursor <= |text| && Apart(ds)
    requires forall i :: 0 <= i < |ds| ==> cursor <= ds[i].start < ds[i].end <= |text|
    decreases |ds|
  {
    if ds == [] then text[cursor..]
    else text[cursor..ds[0].start] + ds[0].token + Interleaved(text, ds[0].end, ds[1..])
  }

  lemma MergedInText(length: nat, ds: seq<Detection>)
    requires AllInText(length, ds)
    ensures Apart(Merged(ds))
    ensures forall i :: 0 <= i < |Merged(ds)| ==> 0 <= Merged(ds)[i].start < Merged(ds)[i].end <= length
  {
    MergeIsSound(length, ds);
    forall i | 0 <= i < |Merged(ds)| ensures InText(length, Merged(ds)[i]) {
      assert Merged(ds)[i] in Merged(ds);
    }
  }

  /** Where the text left of the k-th detection's predecessor ends. */
  function Edge(ds: seq<Detection>, k: nat): int
    requires k <= |ds|
  {
    if k == 0 then 0 else ds[k - 1].end
  }

  ghost predicate Spread(text: string, ds: seq<Detection>) {
    Apart(ds) && forall i :: 0 <= i < |ds| ==> 0 <= ds[i].start < ds[i].end <= |text|
  }

  /** The text once the detections from the k-th on have been replaced. */
  ghost predicate DoneFrom(text: string, ds: seq<Detection>, k: nat, redacted: string)
    requires Spread(text, ds) && k <= |ds|
  {
    redacted == text[..Edge(ds, k)] + Interleaved(text, Edge(ds, k), ds[k..])
  }

  lemma OneReplacement(text: string, ds: seq<Detection>, k: nat, redacted: string)
    requires Spread(text, ds) && k < |ds| && DoneFrom(text, ds, k + 1, redacted)
    ensures ds[k].end <= |redacted|
    ensures DoneFrom(text, ds, k, redacted[..ds[k].start] + ds[k].token + redacted[ds[k].end..])
  {
    var d, rest := ds[k], Interleaved(text, ds[k].end, ds[k + 1..]);
    assert redacted == text[..d.end] + rest;
    assert redacted[..d.start] == text[..d.start] && redacted[d.end..] == rest;
    var edge := Edge(ds, k);
    assert ds[k..][0] == d && ds[k..][1..] == ds[k + 1..];
    assert Interleaved(text, edge, ds[k..]) == text[edge..d.start] + d.token + rest;
    assert text[..d.start] == text[..edge] + text[edge..d.start];
  }

  lemma EmptyTail(text: string, ds: seq<Detection>)
    requires Spread(text, ds)
    ensures DoneFrom(text, ds, |ds|, text)
  {
    assert ds[|ds|..] == [];
  }

  lemma NothingToRedact(text: string, ds: seq<Detection>)
    ensures ds == [] ==> Merged(ds) == [] && Apart([]) && Interleaved(text, 0, []) == text
  {
    assert text[0..] == text;
  }

  /** Main result: replacing from right to left equals interleaving from left to right. */
  method Apply(text: string, ds: seq<Detection>) returns (redacted: string, kept: seq<Detection>)
    requires AllInText(|text|, ds)
    ensures kept == Merged(ds) && Spread(text, kept)
    ensures redacted == Interleaved(text, 0, kept)
    ensures ds == [] ==> redacted == text
  {
    MergedInText(|text|, ds);
    kept := Merge(ds);
    redacted := text;
    var k := |kept|;
    assert kept[k..] == [] && text == text[..Edge(kept, k)] + text[Edge(kept, k)..];
    hide Merged, Interleaved;
    EmptyTail(text, kept);
    while k > 0
      invariant 0 <= k <= |kept|
      invariant DoneFrom(text, kept, k, redacted)
    {
      k := k - 1;
      OneReplacement(text, kept, k, redacted);
      redacted := redacted[..kept[k].start] + kept[k].token + redacted[kept[k].end..];
    }
    assert kept[0..] == kept && text[..0] == "";
    assert redacted == Interleaved(text, 0, kept);
    NothingToRedact(text, ds);
  }
}
