/** Evidence redaction: claiming detector hits and replacing them (dontlie/privacy.py). */
module Privacy {
  import opened Prelude

  /** SHA-256 of a text, in hexadecimal. */
  type Digest = string -> string

  datatype Span = Span(start: int, end: int)

  /** A registered detector and what its pattern finds in the text, in order; None has no named group. */
  datatype Detector = Detector(id: string, labelText: string, matches: seq<Option<Span>>)

  datatype Detection = Detection(
    detector: string, labelText: string, start: int, end: int, text: string, digest: string)

  predicate Overlaps(aStart: int, aEnd: int, bStart: int, bEnd: int) {
    aStart < bEnd && bStart < aEnd
  }

  predicate Inside(i: int, start: int, end: int) {
    start <= i < end
  }

  /** Two non-empty spans overlap exactly when they have a position in common; touching is not overlapping. */
  lemma OverlapsIff(aStart: int, aEnd: int, bStart: int, bEnd: int)
    requires aStart < aEnd && bStart < bEnd
    ensures Overlaps(aStart, aEnd, bStart, bEnd) <==> exists i :: Inside(i, aStart, aEnd) && Inside(i, bStart, bEnd)
  {
    if Overlaps(aStart, aEnd, bStart, bEnd) {
      var i := if aStart >= bStart then aStart else bStart;
      assert Inside(i, aStart, aEnd) && Inside(i, bStart, bEnd);
    }
  }

  // ---- Claiming ----

  /** One match of one detector, in the order the two loops visit them. */
  datatype Visit = Visit(detector: Detector, span: Option<Span>)

  function VisitsOf(d: Detector, n: nat): (visits: seq<Visit>)
    requires n <= |d.matches|
    ensures |visits| == n && forall i :: 0 <= i < n ==> visits[i] == Visit(d, d.matches[i])
  {
    seq(n, i requires 0 <= i < n => Visit(d, d.matches[i]))
  }

  function Visits(detectors: seq<Detector>): seq<Visit> {
    if detectors == [] then []
    else
      var last := detectors[|detectors| - 1];
      Visits(detectors[..|detectors| - 1]) + VisitsOf(last, |last.matches|)
  }

  ghost predicate InText(visits: seq<Visit>, text: string) {
    forall i :: 0 <= i < |visits| && visits[i].span.Some? ==>
      0 <= visits[i].span.value.start <= visits[i].span.value.end <= |text|
  }

  predicate Blocked(span: Span, hits: seq<Detection>) {
    exists i :: 0 <= i < |hits| && Overlaps(span.start, span.end, hits[i].start, hits[i].end)
  }

  function HitFor(digest: Digest, text: string, d: Detector, span: Span): Detection
    requires 0 <= span.start <= span.end <= |text|
  {
    var hit := text[span.start..span.end];
    Detection(d.id, d.labelText, span.start, span.end, hit, digest(hit))
  }

  /** The hits claimed by the visits so far, in claiming order. */
  function Claimed(digest: Digest, text: string, visits: seq<Visit>): seq<Detection>
    requires InText(visits, text)
  {
    if visits == [] then []
    else
      var before, v := Claimed(digest, text, visits[..|visits| - 1]), visits[|visits| - 1];
      if v.span.None? || Blocked(v.span.value, before) then before
      else before + [HitFor(digest, text, v.detector, v.span.value)]
  }

  predicate HitLe(a: Detection, b: Detection) {
    a.start < b.start || (a.start == b.start && a.end <= b.end)
  }

  function Detected(digest: Digest, text: string, detectors: seq<Detector>): seq<Detection>
    requires InText(Visits(detectors), text)
  {
    if text == "" then [] else Sort(HitLe, Claimed(digest, text, Visits(detectors)))
  }

  /** The visits up to the k-th match of the i-th detector. */
  function UpTo(detectors: seq<Detector>, i: nat, k: nat): seq<Visit>
    requires i < |detectors| && k <= |detectors[i].matches|
  {
    Visits(detectors[..i]) + VisitsOf(detectors[i], k)
  }

  lemma NothingVisited(digest: Digest, text: string, detectors: seq<Detector>)
    ensures Visits(detectors[..0]) == [] && InText([], text) && Claimed(digest, text, []) == []
  {
  }

  lemma StartOfDetector(detectors: seq<Detector>, i: nat)
    requires i < |detectors|
    ensures UpTo(detectors, i, 0) == Visits(detectors[..i])
  {
    assert VisitsOf(detectors[i], 0) == [];
  }

  lemma {:induction false} VisitsPrefix(detectors: seq<Detector>, n: nat)
    requires n <= |detectors|
    ensures Visits(detectors[..n]) <= Visits(detectors)
  {
    if n == |detectors| {
      assert detectors[..n] == detectors;
    } else {
      var before := detectors[..|detectors| - 1];
      assert before[..n] == detectors[..n];
      VisitsPrefix(before, n);
    }
  }

  lemma VisitsGrow(detectors: seq<Detector>, i: nat)
    requires i < |detectors|
    ensures Visits(detectors[..i + 1]) == UpTo(detectors, i, |detectors[i].matches|)
    ensures Visits(detectors[..i + 1]) <= Visits(detectors)
  {
    assert detectors[..i + 1][..i] == detectors[..i];
    VisitsPrefix(detectors, i + 1);
  }

  /** What the k-th match of the i-th detector does to the claimed hits. */
  lemma ClaimStep(digest: Digest, text: string, detectors: seq<Detector>, i: nat, k: nat)
    requires InText(Visits(detectors), text) && i < |detectors| && k < |detectors[i].matches|
    ensures InText(UpTo(detectors, i, k), text) && InText(UpTo(detectors, i, k + 1), text)
    ensures var d, span := detectors[i], detectors[i].matches[k];
      && (span.Some? ==> 0 <= span.value.start <= span.value.end <= |text|)
      && var hits := Claimed(digest, text, UpTo(detectors, i, k));
         Claimed(digest, text, UpTo(detectors, i, k + 1)) ==
           if span.None? || Blocked(span.value, hits) then hits
           else hits + [HitFor(digest, text, d, span.value)]
  {
    hide Blocked, HitFor, Visits;
    var d := detectors[i];
    var visits, more := UpTo(detectors, i, k), UpTo(detectors, i, k + 1);
    VisitsGrow(detectors, i);
    assert more == visits + [Visit(d, d.matches[k])] && more[..|visits|] == visits;
    var whole := UpTo(detectors, i, |d.matches|);
    assert more <= whole;
    assert InText(more, text) && InText(visits, text) && more[|visits|].span == d.matches[k] by {
      forall j | 0 <= j < |more| ensures more[j] == Visits(detectors)[j] {
        assert more[j] == whole[j];
      }
    }
  }

  /** The inner loop: the matches of the i-th detector. */
  method ClaimMatches(digest: Digest, text: string, detectors: seq<Detector>, i: nat, before: seq<Detection>)
    returns (hits: seq<Detection>)
    requires InText(Visits(detectors), text) && i < |detectors|
    requires InText(Visits(detectors[..i]), text) && before == Claimed(digest, text, Visits(detectors[..i]))
    ensures InText(Visits(detectors[..i + 1]), text)
    ensures hits == Claimed(digest, text, Visits(detectors[..i + 1]))
  {
    hide Claimed, Visits, Blocked, InText, HitFor, UpTo;
    var d := detectors[i];
    hits := before;
    StartOfDetector(detectors, i);
    var k := 0;
    while k < |d.matches|
      invariant 0 <= k <= |d.matches|
      invariant InText(UpTo(detectors, i, k), text)
      invariant hits == Claimed(digest, text, UpTo(detectors, i, k))
    {
      ClaimStep(digest, text, detectors, i, k);
      var span := d.matches[k];
      if span.Some? && !Blocked(span.value, hits) {
        hits := hits + [HitFor(digest, text, d, span.value)];
      }
      k := k + 1;
    }
    VisitsGrow(detectors, i);
  }

  method Detect(digest: Digest, text: string, detectors: seq<Detector>) returns (hits: seq<Detection>)
    requires InText(Visits(detectors), text)
    ensures hits == Detected(digest, text, detectors)
  {
    if text == "" {
      return [];
    }
    hide Claimed, Visits, Sort, InText;
    hits := [];
    NothingVisited(digest, text, detectors);
    var i := 0;
    while i < |detectors|
      invariant 0 <= i <= |detectors|
      invariant InText(Visits(detectors[..i]), text)
      invariant hits == Claimed(digest, text, Visits(detectors[..i]))
    {
      hits := ClaimMatches(digest, text, detectors, i, hits);
      i := i + 1;
    }
    assert detectors[..i] == detectors;
    hits := Sort(HitLe, hits);
  }

  // ---- What detect returns ----

  ghost predicate NoOverlap(a: Detection, b: Detection) {
    !Overlaps(a.start, a.end, b.start, b.end)
  }

  lemma {:induction false} ClaimedHits(digest: Digest, text: string, visits: seq<Visit>)
    requires InText(visits, text)
    ensures forall i, j :: 0 <= i < j < |Claimed(digest, text, visits)| ==>
      NoOverlap(Claimed(digest, text, visits)[i], Claimed(digest, text, visits)[j])
    ensures forall h :: h in Claimed(digest, text, visits) ==>
      0 <= h.start <= h.end <= |text| && h.text == text[h.start..h.end] && h.digest == digest(h.text)
  {
    if visits == [] {
    } else {
      var before := visits[..|visits| - 1];
      ClaimedHits(digest, text, before);
      assert InText(before, text);
    }
  }

  lemma HitOrder()
    ensures TotalPreorder(HitLe)
  {
  }

  ghost predicate Apart(hits: seq<Detection>) {
    forall i, j :: 0 <= i < j < |hits| ==> hits[i].end <= hits[j].start
  }

  ghost predicate Recorded(digest: Digest, text: string, h: Detection) {
    0 <= h.start <= h.end <= |text| && h.text == text[h.start..h.end] && h.digest == digest(h.text)
  }

  /** Main result: hits come out in text order, disjoint, each recording the text it covers. */
  lemma DetectedAreSortedAndDisjoint(digest: Digest, text: string, detectors: seq<Detector>)
    requires InText(Visits(detectors), text)
    ensures Sorted(HitLe, Detected(digest, text, detectors))
    ensures Apart(Detected(digest, text, detectors))
    ensures forall h :: h in Detected(digest, text, detectors) ==> Recorded(digest, text, h)
  {
    var claimed := Claimed(digest, text, Visits(detectors));
    ClaimedHits(digest, text, Visits(detectors));
    HitOrder();
    SortSorts(HitLe, claimed);
    SortPermutes(HitLe, claimed);
    assert Pairwise(NoOverlap, claimed);
    SortKeepsPairwise(NoOverlap, HitLe, claimed);
    var hits := Sort(HitLe, claimed);
    forall h | h in hits ensures Recorded(digest, text, h) {
      assert h in claimed;
    }
    forall i, j | 0 <= i < j < |hits| ensures hits[i].end <= hits[j].start {
      assert HitLe(hits[i], hits[j]) && NoOverlap(hits[i], hits[j]);
      assert hits[i] in hits && hits[j] in hits;
    }
  }

  lemma {:induction false} ClaimedPrefix(digest: Digest, text: string, visits: seq<Visit>, k: nat)
    requires InText(visits, text) && k <= |visits|
    ensures InText(visits[..k], text)
    ensures Claimed(digest, text, visits[..k]) <= Claimed(digest, text, visits)
  {
    if k == |visits| {
      assert visits[..k] == visits;
    } else {
      var before := visits[..|visits| - 1];
      assert before[..k] == visits[..k];
      ClaimedPrefix(digest, text, before, k);
    }
  }

  /** A match is claimed unless a hit claimed before it overlaps it. */
  lemma ClaimedOrBlocked(digest: Digest, text: string, visits: seq<Visit>, k: nat)
    requires InText(visits, text) && k < |visits| && visits[k].span.Some?
    ensures InText(visits[..k], text)
    ensures Claimed(digest, text, visits[..k]) <= Claimed(digest, text, visits)
    ensures var span := visits[k].span.value;
      if Blocked(span, Claimed(digest, text, visits[..k]))
      then Claimed(digest, text, visits[..k + 1]) == Claimed(digest, text, visits[..k])
      else HitFor(digest, text, visits[k].detector, span) in Claimed(digest, text, visits)
  {
    ClaimedPrefix(digest, text, visits, k);
    ClaimedPrefix(digest, text, visits, k + 1);
    assert visits[..k + 1][..k] == visits[..k];
    var now := Claimed(digest, text, visits[..k + 1]);
    if !Blocked(visits[k].span.value, Claimed(digest, text, visits[..k])) {
      assert now[|now| - 1] in now;
    }
  }

  /** h records what the j-th visit found. */
  ghost predicate IsMatch(digest: Digest, text: string, visits: seq<Visit>, j: nat, h: Detection)
    requires InText(visits, text) && j < |visits|
  {
    && visits[j].span.Some?
    && h.start == visits[j].span.value.start && h.end == visits[j].span.value.end
    && h.text == text[h.start..h.end] && h.digest == digest(text[h.start..h.end])
    && h.detector == visits[j].detector.id && h.labelText == visits[j].detector.labelText
  }

  lemma IsMatchIff(digest: Digest, text: string, visits: seq<Visit>, j: nat, h: Detection)
    requires InText(visits, text) && j < |visits|
    ensures IsMatch(digest, text, visits, j, h) <==>
      visits[j].span.Some? && h == HitFor(digest, text, visits[j].detector, visits[j].span.value)
  {
  }

  lemma {:induction false} ClaimedOrigin(digest: Digest, text: string, visits: seq<Visit>, h: Detection)
    returns (j: nat)
    requires InText(visits, text) && h in Claimed(digest, text, visits)
    ensures j < |visits| && IsMatch(digest, text, visits, j, h)
  {
    hide HitFor, Blocked;
    var last := |visits| - 1;
    if h in Claimed(digest, text, visits[..last]) {
      j := ClaimedOrigin(digest, text, visits[..last], h);
    } else {
      j := last;
      IsMatchIff(digest, text, visits, j, h);
    }
  }

  lemma DetectedAreClaimed(digest: Digest, text: string, detectors: seq<Detector>, h: Detection)
    requires InText(Visits(detectors), text)
    ensures h in Detected(digest, text, detectors)
      <==> text != "" && h in Claimed(digest, text, Visits(detectors))
  {
    SortPermutes(HitLe, Claimed(digest, text, Visits(detectors)));
  }

  /** A reported hit found by an earlier visit overlaps the k-th match. */
  ghost predicate Displaced(digest: Digest, text: string, detectors: seq<Detector>, k: nat)
    requires InText(Visits(detectors), text) && k < |Visits(detectors)| && Visits(detectors)[k].span.Some?
  {
    var visits := Visits(detectors);
    exists j, h :: 0 <= j < k && IsMatch(digest, text, visits, j, h) && h in Detected(digest, text, detectors)
      && Overlaps(visits[k].span.value.start, visits[k].span.value.end, h.start, h.end)
  }

  /** Main result: every match is reported unless a reported hit of an earlier visit overlaps it. */
  lemma DroppedMatchesOverlapEarlierHits(digest: Digest, text: string, detectors: seq<Detector>, k: nat)
    requires InText(Visits(detectors), text) && text != ""
    requires k < |Visits(detectors)| && Visits(detectors)[k].span.Some?
    ensures Displaced(digest, text, detectors, k)
      || exists h :: IsMatch(digest, text, Visits(detectors), k, h) && h in Detected(digest, text, detectors)
  {
    hide Visits, Claimed, Detected, HitFor, Overlaps;
    var visits, span := Visits(detectors), Visits(detectors)[k].span.value;
    ClaimedOrBlocked(digest, text, visits, k);
    var before := Claimed(digest, text, visits[..k]);
    if Blocked(span, before) {
      var i :| 0 <= i < |before| && Overlaps(span.start, span.end, before[i].start, before[i].end);
      var h := before[i];
      var j := ClaimedOrigin(digest, text, visits[..k], h);
      assert h in Claimed(digest, text, visits) by {
        assert Claimed(digest, text, visits)[i] == h;
      }
      DetectedAreClaimed(digest, text, detectors, h);
      assert IsMatch(digest, text, visits, j, h);
    } else {
      var h := HitFor(digest, text, visits[k].detector, span);
      DetectedAreClaimed(digest, text, detectors, h);
      IsMatchIff(digest, text, visits, k, h);
    }
  }

  /** Main result: nothing is reported that no detector matched. */
  lemma DetectedAreMatches(digest: Digest, text: string, detectors: seq<Detector>, h: Detection)
    returns (j: nat)
    requires InText(Visits(detectors), text) && h in Detected(digest, text, detectors)
    ensures j < |Visits(detectors)| && IsMatch(digest, text, Visits(detectors), j, h)
  {
    DetectedAreClaimed(digest, text, detectors, h);
    j := ClaimedOrigin(digest, text, Visits(detectors), h);
  }

  // ---- Redaction ----

  /** PARTIAL_TOKEN.format. */
  function Token(h: Detection): string {
    "[PARTIAL:" + h.detector + ":sha256=" + h.digest + "]"
  }

  predicate Skipped(length: nat, cursor: nat, h: Detection) {
    h.start < cursor || h.end > length || h.start >= h.end
  }

  function RedactFrom(text: string, cursor: nat, hits: seq<Detection>): string
    requires cursor <= |text|
    decreases |hits|
  {
    if hits == [] then text[cursor..]
    else if Skipped(|text|, cursor, hits[0]) then RedactFrom(text, cursor, hits[1..])
    else text[cursor..hits[0].start] + Token(hits[0]) + RedactFrom(text, hits[0].end, hits[1..])
  }

  function Redacted(text: string, detections: seq<Detection>): string {
    RedactFrom(text, 0, Sort(HitLe, detections))
  }

  lemma Regroup(a: string, b: string, c: string, d: string)
    ensures a + (b + c + d) == a + b + c + d
  {
  }

  lemma RedactStep(text: string, cursor: nat, hits: seq<Detection>, k: nat, done: string)
    requires cursor <= |text| && k < |hits|
    ensures var h := hits[k];
      done + RedactFrom(text, cursor, hits[k..]) ==
        if Skipped(|text|, cursor, h) then done + RedactFrom(text, cursor, hits[k + 1..])
        else (if h.start > cursor then done + text[cursor..h.start] else done) + Token(h)
             + RedactFrom(text, h.end, hits[k + 1..])
  {
    hide Token;
    var h := hits[k];
    assert hits[k..][0] == h && hits[k..][1..] == hits[k + 1..];
    if !Skipped(|text|, cursor, h) {
      Regroup(done, text[cursor..h.start], Token(h), RedactFrom(text, h.end, hits[k + 1..]));
      assert h.start == cursor ==> done + text[cursor..h.start] == done;
    }
  }

  lemma RedactRest(text: string, cursor: nat, rest: seq<Detection>, done: string)
    requires cursor <= |text| && rest == []
    ensures done + RedactFrom(text, cursor, rest) == if cursor < |text| then done + text[cursor..] else done
  {
  }

  method RedactText(text: string, detections: seq<Detection>) returns (redacted: string)
    ensures redacted == Redacted(text, detections)
  {
    hide Sort, Token, RedactFrom;
    var hits := Sort(HitLe, detections);
    var cursor: nat := 0;
    redacted := "";
    var k := 0;
    assert hits[0..] == hits && "" + Redacted(text, detections) == Redacted(text, detections);
    while k < |hits|
      invariant 0 <= k <= |hits| && cursor <= |text|
      invariant redacted + RedactFrom(text, cursor, hits[k..]) == Redacted(text, detections)
    {
      var h := hits[k];
      RedactStep(text, cursor, hits, k, redacted);
      if !(h.start < cursor || h.end > |text| || h.start >= h.end) {
        if h.start > cursor {
          redacted := redacted + text[cursor..h.start];
        }
        redacted := redacted + Token(h);
        cursor := h.end;
      }
      k := k + 1;
    }
    RedactRest(text, cursor, hits[k..], redacted);
    if cursor < |text| {
      redacted := redacted + text[cursor..];
    }
  }

  /** The detections that actually replace something, given the text's length. */
  function Applied(length: nat, cursor: nat, hits: seq<Detection>): seq<Detection>
    decreases |hits|
  {
    if hits == [] then []
    else if Skipped(length, cursor, hits[0]) then Applied(length, cursor, hits[1..])
    else [hits[0]] + Applied(length, hits[0].end, hits[1..])
  }

  lemma {:induction false} AppliedBounds(length: nat, cursor: nat, hits: seq<Detection>)
    requires cursor <= length
    ensures forall h :: h in Applied(length, cursor, hits) ==> cursor <= h.start < h.end <= length
    ensures Apart(Applied(length, cursor, hits))
    decreases |hits|
  {
    if hits == [] {
    } else {
      if Skipped(length, cursor, hits[0]) {
        AppliedBounds(length, cursor, hits[1..]);
      } else {
        AppliedBounds(length, hits[0].end, hits[1..]);
      }
    }
  }

  /** Non-empty, disjoint and from the cursor on. */
  ghost predicate InOrder(cursor: nat, hits: seq<Detection>) {
    Apart(hits) && forall i :: 0 <= i < |hits| ==> cursor <= hits[i].start < hits[i].end
  }

  ghost predicate Fits(length: nat, hits: seq<Detection>) {
    forall i :: 0 <= i < |hits| ==> hits[i].end <= length
  }

  lemma {:induction false} ApartAllApplied(length: nat, cursor: nat, hits: seq<Detection>)
    requires cursor <= length && InOrder(cursor, hits) && Fits(length, hits)
    ensures Applied(length, cursor, hits) == hits
    decreases |hits|
  {
    if hits == [] {
    } else {
      ApartAllApplied(length, hits[0].end, hits[1..]);
    }
  }

  /** The hits that cover at least one character, in order. */
  function NonEmpty(hits: seq<Detection>): seq<Detection> {
    if hits == [] then []
    else (if hits[0].start < hits[0].end then [hits[0]] else []) + NonEmpty(hits[1..])
  }

  lemma {:induction false} NonEmptyIsSelection(hits: seq<Detection>)
    ensures forall h :: h in NonEmpty(hits) <==> h in hits && h.start < h.end
    ensures Apart(hits) ==> Apart(NonEmpty(hits))
  {
    if hits == [] {
    } else {
      NonEmptyIsSelection(hits[1..]);
      if Apart(hits) {
        forall h | h in NonEmpty(hits[1..]) ensures hits[0].end <= h.start {
          var i :| 0 <= i < |hits[1..]| && hits[1..][i] == h;
          assert hits[i + 1] == h;
        }
      }
    }
  }

  lemma {:induction false} EmptyHitsDoNothing(text: string, cursor: nat, hits: seq<Detection>)
    requires cursor <= |text|
    ensures RedactFrom(text, cursor, hits) == RedactFrom(text, cursor, NonEmpty(hits))
    ensures Applied(|text|, cursor, hits) == Applied(|text|, cursor, NonEmpty(hits))
    decreases |hits|
  {
    hide Token;
    if hits == [] {
    } else {
      var h := hits[0];
      var kept := NonEmpty(hits[1..]);
      assert NonEmpty(hits) == if h.start < h.end then [h] + kept else kept;
      assert ([h] + kept)[1..] == kept;
      EmptyHitsDoNothing(text, if Skipped(|text|, cursor, h) then cursor else h.end, hits[1..]);
    }
  }

  /** What detect returned needs no sorting; its non-empty hits are disjoint and inside the text. */
  lemma DetectedInOrder(digest: Digest, text: string, detectors: seq<Detector>)
    requires InText(Visits(detectors), text)
    ensures var hits := Detected(digest, text, detectors);
      && Sort(HitLe, hits) == hits && InOrder(0, NonEmpty(hits)) && Fits(|text|, NonEmpty(hits))
  {
    hide Detected, Visits;
    var hits := Detected(digest, text, detectors);
    DetectedAreSortedAndDisjoint(digest, text, detectors);
    SortOfSorted(HitLe, hits);
    NonEmptyIsSelection(hits);
    forall i | 0 <= i < |NonEmpty(hits)| ensures Recorded(digest, text, NonEmpty(hits)[i]) {
      assert NonEmpty(hits)[i] in hits;
    }
  }

  /** Main result: redacting with what detect returned replaces exactly its non-empty hits. */
  lemma DetectedHitsAreAllApplied(digest: Digest, text: string, detectors: seq<Detector>)
    requires InText(Visits(detectors), text)
    ensures var hits := Detected(digest, text, detectors);
      Applied(|text|, 0, Sort(HitLe, hits)) == NonEmpty(hits)
  {
    hide Detected, Visits;
    var hits := Detected(digest, text, detectors);
    DetectedInOrder(digest, text, detectors);
    EmptyHitsDoNothing(text, 0, hits);
    ApartAllApplied(|text|, 0, NonEmpty(hits));
  }

  // ---- Restoring ----

  /** Reads the redacted text along the applied hits and puts each recorded text back. */
  function Restore(redacted: string, cursor: nat, applied: seq<Detection>): Option<string>
    decreases |applied|
  {
    if applied == [] then Some(redacted)
    else
      var h := applied[0];
      var gap := h.start - cursor;
      if gap < 0 || h.end < 0 || gap + |Token(h)| > |redacted| then None
      else
        var rest := Restore(redacted[gap + |Token(h)|..], h.end, applied[1..]);
        if rest.None? then None else Some(redacted[..gap] + h.text + rest.value)
  }

  lemma {:induction false} RestoreFrom(text: string, cursor: nat, hits: seq<Detection>)
    requires cursor <= |text|
    requires forall h :: h in hits && 0 <= h.start <= h.end <= |text| ==> h.text == text[h.start..h.end]
    ensures Restore(RedactFrom(text, cursor, hits), cursor, Applied(|text|, cursor, hits)) == Some(text[cursor..])
    decreases |hits|
  {
    hide Token;
    if hits == [] {
    } else {
      var h := hits[0];
      if Skipped(|text|, cursor, h) {
        RestoreFrom(text, cursor, hits[1..]);
      } else {
        RestoreFrom(text, h.end, hits[1..]);
        assert h in hits;
        var rest := RedactFrom(text, h.end, hits[1..]);
        var redacted := text[cursor..h.start] + Token(h) + rest;
        assert redacted[h.start - cursor + |Token(h)|..] == rest;
        assert redacted[..h.start - cursor] == text[cursor..h.start];
        assert text[cursor..] == text[cursor..h.start] + text[h.start..h.end] + text[h.end..];
      }
    }
  }

  /** Main result: the redacted text and the recorded hits give the original back. */
  lemma RedactionIsReversible(text: string, detections: seq<Detection>)
    requires forall h :: h in detections && 0 <= h.start <= h.end <= |text| ==> h.text == text[h.start..h.end]
    ensures Restore(Redacted(text, detections), 0, Applied(|text|, 0, Sort(HitLe, detections))) == Some(text)
  {
    SortPermutes(HitLe, detections);
    RestoreFrom(text, 0, Sort(HitLe, detections));
    assert text[0..] == text;
  }

  // ---- What redaction hides, exactly ----

  ghost predicate Covered(applied: seq<Detection>, i: int) {
    exists k :: 0 <= k < |applied| && applied[k].start <= i < applied[k].end
  }

  ghost predicate AgreeOutside(s: string, t: string, cursor: nat, applied: seq<Detection>) {
    |s| == |t| && forall i :: cursor <= i < |s| && !Covered(applied, i) ==> s[i] == t[i]
  }

  lemma CoveredCons(h: Detection, rest: seq<Detection>, i: int)
    ensures Covered([h] + rest, i) <==> h.start <= i < h.end || Covered(rest, i)
  {
    var all := [h] + rest;
    if h.start <= i < h.end {
      assert all[0] == h;
    } else if Covered(rest, i) {
      var k :| 0 <= k < |rest| && rest[k].start <= i < rest[k].end;
      assert all[k + 1] == rest[k];
    }
  }

  lemma AgreeStep(s: string, t: string, cursor: nat, h: Detection, rest: seq<Detection>)
    requires |s| == |t| && cursor <= h.start < h.end <= |s|
    requires forall k :: 0 <= k < |rest| ==> h.end <= rest[k].start
    ensures AgreeOutside(s, t, cursor, [h] + rest) <==>
      s[cursor..h.start] == t[cursor..h.start] && AgreeOutside(s, t, h.end, rest)
  {
    forall i ensures Covered([h] + rest, i) <==> h.start <= i < h.end || Covered(rest, i) {
      CoveredCons(h, rest, i);
    }
    if AgreeOutside(s, t, cursor, [h] + rest) {
      forall i | cursor <= i < h.start ensures s[i] == t[i] {
        assert !Covered(rest, i);
      }
    }
    if s[cursor..h.start] == t[cursor..h.start] && AgreeOutside(s, t, h.end, rest) {
      forall i | cursor <= i < |s| && !Covered([h] + rest, i) ensures s[i] == t[i] {
        if i < h.start {
          assert s[cursor..h.start][i - cursor] == t[cursor..h.start][i - cursor];
        }
      }
    }
  }

  lemma SameTail(s: string, t: string, cursor: nat)
    requires |s| == |t| && cursor <= |s|
    ensures s[cursor..] == t[cursor..] <==> AgreeOutside(s, t, cursor, [])
  {
    assert forall i :: !Covered([], i);
    if s[cursor..] == t[cursor..] {
      forall i | cursor <= i < |s| ensures s[i] == t[i] {
        assert s[cursor..][i - cursor] == t[cursor..][i - cursor];
      }
    }
  }

  lemma PiecesCancel(a: string, b: string, token: string, x: string, y: string)
    requires |a| == |b|
    ensures a + token + x == b + token + y <==> a == b && x == y
  {
    if a + token + x == b + token + y {
      assert a == (a + token + x)[..|a|] && b == (b + token + y)[..|b|];
      assert x == (a + token + x)[|a| + |token|..] && y == (b + token + y)[|b| + |token|..];
    }
  }

  lemma {:induction false} SameRedactionFrom(s: string, t: string, cursor: nat, hits: seq<Detection>)
    requires |s| == |t| && cursor <= |s|
    ensures RedactFrom(s, cursor, hits) == RedactFrom(t, cursor, hits)
      <==> AgreeOutside(s, t, cursor, Applied(|s|, cursor, hits))
    decreases |hits|
  {
    hide AgreeOutside, Token;
    if hits == [] {
      SameTail(s, t, cursor);
    } else if Skipped(|s|, cursor, hits[0]) {
      SameRedactionFrom(s, t, cursor, hits[1..]);
    } else {
      var h := hits[0];
      SameRedactionFrom(s, t, h.end, hits[1..]);
      AppliedBounds(|s|, h.end, hits[1..]);
      AgreeStep(s, t, cursor, h, Applied(|s|, h.end, hits[1..]));
      PiecesCancel(s[cursor..h.start], t[cursor..h.start], Token(h),
                   RedactFrom(s, h.end, hits[1..]), RedactFrom(t, h.end, hits[1..]));
    }
  }

  /** Main result: equal-length texts redact alike exactly when they agree outside the applied spans. */
  lemma SameRedactionIff(s: string, t: string, detections: seq<Detection>)
    requires |s| == |t|
    ensures Redacted(s, detections) == Redacted(t, detections)
      <==> AgreeOutside(s, t, 0, Applied(|s|, 0, Sort(HitLe, detections)))
  {
    SameRedactionFrom(s, t, 0, Sort(HitLe, detections));
  }

  // ---- Evidence ----

  /** The redacted mode of build_evidence, without its fixed labels. */
  datatype Evidence = Evidence(textDigest: string, redactions: seq<Detection>, text: string)

  function RedactedEvidence(digest: Digest, text: string, detectors: seq<Detector>): Evidence
    requires InText(Visits(detectors), text)
  {
    var hits := Detected(digest, text, detectors);
    Evidence(digest(text), hits, Redacted(text, hits))
  }

  /** forensic_diff_summary's byte_equal. */
  predicate ByteEqual(original: string, e: Evidence) {
    Redacted(original, e.redactions) == e.text
  }

  /** How much longer a text gets when these hits are replaced by their tokens. */
  function Growth(hits: seq<Detection>): int {
    if hits == [] then 0 else |Token(hits[0])| - (hits[0].end - hits[0].start) + Growth(hits[1..])
  }

  lemma {:induction false} RedactedLength(text: string, cursor: nat, hits: seq<Detection>)
    requires cursor <= |text| && InOrder(cursor, hits) && Fits(|text|, hits)
    ensures |RedactFrom(text, cursor, hits)| == |text| - cursor + Growth(hits)
    decreases |hits|
  {
    hide Token;
    if hits == [] {
    } else {
      RedactedLength(text, hits[0].end, hits[1..]);
    }
  }

  lemma {:induction false} OverlongHitsDoNothing(text: string, cursor: nat, hits: seq<Detection>)
    requires cursor <= |text| && forall i :: 0 <= i < |hits| ==> hits[i].end > |text|
    ensures RedactFrom(text, cursor, hits) == text[cursor..]
  {
    if hits == [] {
    } else {
      OverlongHitsDoNothing(text, cursor, hits[1..]);
    }
  }

  /** When the first hit ends behind the text, so do the others, and nothing is replaced. */
  lemma FirstOverlong(text: string, cursor: nat, hits: seq<Detection>)
    requires cursor <= |text| && InOrder(cursor, hits) && hits != [] && hits[0].end > |text|
    ensures RedactFrom(text, cursor, hits) == text[cursor..]
  {
    forall i | 0 <= i < |hits| ensures hits[i].end > |text| {
      assert i == 0 || hits[0].end <= hits[i].start;
    }
    OverlongHitsDoNothing(text, cursor, hits);
  }

  lemma InOrderTail(length: nat, cursor: nat, hits: seq<Detection>)
    requires InOrder(cursor, hits) && hits != []
    ensures InOrder(hits[0].end, hits[1..])
    ensures Fits(length, hits) <==> hits[0].end <= length && Fits(length, hits[1..])
  {
    assert forall i :: 0 < i < |hits| ==> hits[i] == hits[1..][i - 1];
  }

  /** With every hit inside both texts, equal redactions mean equal lengths and equal gaps. */
  lemma SameRedactionAnyLength(s: string, t: string, cursor: nat, hits: seq<Detection>)
    requires cursor <= |s| && cursor <= |t| && InOrder(cursor, hits) && Fits(|s|, hits) && Fits(|t|, hits)
    ensures RedactFrom(s, cursor, hits) == RedactFrom(t, cursor, hits) <==> AgreeOutside(s, t, cursor, hits)
  {
    hide RedactFrom, InOrder, Fits;
    RedactedLength(s, cursor, hits);
    RedactedLength(t, cursor, hits);
    if |s| == |t| {
      SameRedactionFrom(s, t, cursor, hits);
      ApartAllApplied(|s|, cursor, hits);
    }
  }

  /** From each hit on, the redacted text still reaches as far as the hit did. */
  ghost predicate KeepsReach(length: nat, hits: seq<Detection>) {
    forall k :: 0 <= k < |hits| ==> hits[k].end <= length + Growth(hits[k..])
  }

  lemma KeepsReachTail(length: nat, hits: seq<Detection>)
    requires hits != [] && KeepsReach(length, hits)
    ensures KeepsReach(length, hits[1..])
    ensures hits[0].end <= length + Growth(hits)
  {
    hide Growth;
    assert hits[0..] == hits;
    forall k | 0 <= k < |hits[1..]| ensures hits[1..][k].end <= length + Growth(hits[1..][k..]) {
      assert hits[1..][k..] == hits[k + 1..] && hits[1..][k] == hits[k + 1];
    }
  }

  lemma {:induction false} ShorterTextIsTold(original: string, text: string, cursor: nat, hits: seq<Detection>)
    requires cursor <= |original| && cursor <= |text| && InOrder(cursor, hits) && Fits(|text|, hits)
    requires KeepsReach(|text|, hits) && !Fits(|original|, hits)
    ensures RedactFrom(original, cursor, hits) != RedactFrom(text, cursor, hits)
    decreases |hits|
  {
    hide Token, Growth, KeepsReach;
    KeepsReachTail(|text|, hits);
    InOrderTail(|original|, cursor, hits);
    InOrderTail(|text|, cursor, hits);
    var h, rest := hits[0], hits[1..];
    if h.end > |original| {
      FirstOverlong(original, cursor, hits);
      RedactedLength(text, cursor, hits);
    } else {
      ShorterTextIsTold(original, text, h.end, rest);
      PiecesCancel(original[cursor..h.start], text[cursor..h.start], Token(h),
                   RedactFrom(original, h.end, rest), RedactFrom(text, h.end, rest));
    }
  }

  lemma SamePrefixSameSlice(s: string, t: string, n: nat, from: nat, to: nat)
    requires from <= to <= n <= |s| && n <= |t| && s[..n] == t[..n]
    ensures s[from..to] == t[from..to]
  {
    assert s[..n][from..to] == s[from..to] && t[..n][from..to] == t[from..to];
  }

  /** A shorter text with the same redaction: from the k-th hit on it already is the redacted text. */
  lemma {:induction false} Impostor(text: string, cursor: nat, hits: seq<Detection>, k: nat) returns (other: string)
    requires cursor <= |text| && InOrder(cursor, hits) && Fits(|text|, hits)
    requires k < |hits| && hits[k].end > |text| + Growth(hits[k..])
    ensures |other| == |text| + Growth(hits[k..]) && cursor <= |other| && other[..cursor] == text[..cursor]
    ensures RedactFrom(other, cursor, hits) == RedactFrom(text, cursor, hits)
    decreases |hits|
  {
    hide Token, Growth;
    var h, rest := hits[0], hits[1..];
    InOrderTail(|text|, cursor, hits);
    if k == 0 {
      var tail := RedactFrom(text, cursor, hits);
      other := text[..cursor] + tail;
      assert hits[0..] == hits;
      RedactedLength(text, cursor, hits);
      FirstOverlong(other, cursor, hits);
    } else {
      assert rest[k - 1..] == hits[k..];
      other := Impostor(text, h.end, rest, k - 1);
      SamePrefixSameSlice(other, text, h.end, cursor, h.start);
      SamePrefixSameSlice(other, text, h.end, 0, cursor);
    }
  }

  lemma EvidenceRedactions(digest: Digest, text: string, detectors: seq<Detector>, original: string)
    requires InText(Visits(detectors), text)
    ensures var e := RedactedEvidence(digest, text, detectors);
      var hits := NonEmpty(e.redactions);
      && InOrder(0, hits) && Fits(|text|, hits)
      && (ByteEqual(original, e) <==> RedactFrom(original, 0, hits) == RedactFrom(text, 0, hits))
  {
    hide Detected, Visits, InOrder, Fits, RedactFrom, Sort;
    var hits := Detected(digest, text, detectors);
    DetectedInOrder(digest, text, detectors);
    EmptyHitsDoNothing(text, 0, hits);
    EmptyHitsDoNothing(original, 0, hits);
  }

  /**
   * Main result: among the originals that reach behind every redaction, of whatever length, the
   * forensic check accepts exactly those that agree with the text outside the redactions.
   */
  lemma ForensicCheckIff(digest: Digest, text: string, detectors: seq<Detector>, original: string)
    requires InText(Visits(detectors), text)
    requires Fits(|original|, NonEmpty(RedactedEvidence(digest, text, detectors).redactions))
    ensures var e := RedactedEvidence(digest, text, detectors);
      ByteEqual(original, e) <==> AgreeOutside(original, text, 0, NonEmpty(e.redactions))
  {
    hide RedactedEvidence, ByteEqual;
    EvidenceRedactions(digest, text, detectors, original);
    SameRedactionAnyLength(original, text, 0, NonEmpty(RedactedEvidence(digest, text, detectors).redactions));
  }

  /** The check accepts the agreeing originals and no other string. */
  ghost predicate CheckIsExact(text: string, e: Evidence) {
    forall original: string :: ByteEqual(original, e) <==> AgreeOutside(original, text, 0, NonEmpty(e.redactions))
  }

  lemma LosesReach(length: nat, hits: seq<Detection>) returns (k: nat)
    requires !KeepsReach(length, hits)
    ensures k < |hits| && hits[k].end > length + Growth(hits[k..])
  {
    k :| k < |hits| && hits[k].end > length + Growth(hits[k..]);
  }

  /** Main result: over all originals, the forensic check is exact if and only if replacement keeps the reach. */
  lemma ForensicCheckExactIff(digest: Digest, text: string, detectors: seq<Detector>)
    requires InText(Visits(detectors), text)
    ensures var e := RedactedEvidence(digest, text, detectors);
      CheckIsExact(text, e) <==> KeepsReach(|text|, NonEmpty(e.redactions))
  {
    hide RedactedEvidence, ByteEqual, KeepsReach, InOrder, RedactFrom;
    var e := RedactedEvidence(digest, text, detectors);
    var hits := NonEmpty(e.redactions);
    EvidenceRedactions(digest, text, detectors, text);
    if KeepsReach(|text|, hits) {
      forall original: string ensures ByteEqual(original, e) <==> AgreeOutside(original, text, 0, hits) {
        EvidenceRedactions(digest, text, detectors, original);
        if Fits(|original|, hits) {
          SameRedactionAnyLength(original, text, 0, hits);
        } else {
          ShorterTextIsTold(original, text, 0, hits);
        }
      }
    } else {
      var k := LosesReach(|text|, hits);
      var other := Impostor(text, 0, hits, k);
      EvidenceRedactions(digest, text, detectors, other);
      assert ByteEqual(other, e) && !AgreeOutside(other, text, 0, hits);
    }
  }

  /** Hits no longer than their tokens keep the reach, so the check is exact on such evidence. */
  lemma {:induction false} ShortHitsKeepReach(length: nat, hits: seq<Detection>)
    requires Fits(length, hits)
    requires forall i :: 0 <= i < |hits| ==> hits[i].end - hits[i].start <= |Token(hits[i])|
    ensures KeepsReach(length, hits) && Growth(hits) >= 0
  {
    hide Token;
    if hits == [] {
    } else {
      ShortHitsKeepReach(length, hits[1..]);
      forall k | 0 <= k < |hits| ensures hits[k].end <= length + Growth(hits[k..]) {
        if k == 0 {
          assert hits[0..] == hits;
        } else {
          assert hits[k..] == hits[1..][k - 1..] && hits[k] == hits[1..][k - 1];
        }
      }
    }
  }

  /** An API key of 100 characters, matched as a whole. */
  const LONG_KEY: string := "sk-" + seq(97, _ => 'A')
  const KEY_DETECTOR :=
    Detector("openai_api_key", "OpenAI / OpenAI-style API key", [Some(Span(0, 100))])

  lemma LongKeyEvidence(digest: Digest)
    ensures InText(Visits([KEY_DETECTOR]), LONG_KEY) && |LONG_KEY| == 100
    ensures var hit := Detection("openai_api_key", KEY_DETECTOR.labelText, 0, 100, LONG_KEY, digest(LONG_KEY));
      RedactedEvidence(digest, LONG_KEY, [KEY_DETECTOR]) == Evidence(digest(LONG_KEY), [hit], Token(hit))
  {
    hide Token;
    var visit := Visit(KEY_DETECTOR, Some(Span(0, 100)));
    assert Visits([KEY_DETECTOR]) == [visit] by {
      assert Visits([]) == [] && [KEY_DETECTOR][..0] == [];
    }
    assert LONG_KEY[0..100] == LONG_KEY;
    var hit := Detection("openai_api_key", KEY_DETECTOR.labelText, 0, 100, LONG_KEY, digest(LONG_KEY));
    assert Claimed(digest, LONG_KEY, [visit]) == [hit] by {
      assert [visit][..0] == [] && Claimed(digest, LONG_KEY, []) == [];
    }
    assert Sort(HitLe, [hit]) == [hit] by {
      assert [hit][1..] == [] && Sort(HitLe, []) == [];
    }
    assert Redacted(LONG_KEY, [hit]) == Token(hit) by {
      assert RedactFrom(LONG_KEY, 100, [hit][1..]) == "";
      assert LONG_KEY[0..0] + Token(hit) + "" == Token(hit);
    }
  }

  /** The check accepts its own redacted text in place of that key: 96 characters for 100. */
  lemma RedactedKeyPassesForOriginal(digest: Digest)
    requires |digest(LONG_KEY)| == 64
    ensures InText(Visits([KEY_DETECTOR]), LONG_KEY)
    ensures var e := RedactedEvidence(digest, LONG_KEY, [KEY_DETECTOR]);
      |e.text| == 96 && |LONG_KEY| == 100 && ByteEqual(e.text, e)
  {
    LongKeyEvidence(digest);
    hide RedactedEvidence, Visits, InText;
    var e := RedactedEvidence(digest, LONG_KEY, [KEY_DETECTOR]);
    assert e.text == Token(e.redactions[0]);
    assert Sort(HitLe, e.redactions) == e.redactions by {
      assert e.redactions[1..] == [] && Sort(HitLe, []) == [];
    }
    FirstOverlong(e.text, 0, e.redactions);
  }

  // ---- What stands in a redacted text ----

  /** Sorting is by start, then by end. */
  lemma SortedBySpan(hits: seq<Detection>)
    ensures var sorted := Sort(HitLe, hits);
      && multiset(sorted) == multiset(hits)
      && forall i, j :: 0 <= i < j < |sorted| ==>
           sorted[i].start < sorted[j].start || (sorted[i].start == sorted[j].start && sorted[i].end <= sorted[j].end)
  {
    HitOrder();
    SortPermutes(HitLe, hits);
    SortSorts(HitLe, hits);
    hide Sort;
    var sorted := Sort(HitLe, hits);
    assert forall i, j :: 0 <= i < j < |sorted| ==> HitLe(sorted[i], sorted[j]);
  }

  /** Where the text in front of the k-th hit begins. */
  function GapStart(cursor: int, hits: seq<Detection>, k: nat): int
    requires k <= |hits|
  {
    if k == 0 then cursor else hits[k - 1].end
  }

  /** Position `at` of a redacted text holds the gap in front of the k-th hit and then its token. */
  ghost predicate HoldsToken(text: string, cursor: int, hits: seq<Detection>, k: nat, redacted: string, at: int)
    requires k < |hits|
  {
    var h, gap := hits[k], GapStart(cursor, hits, k);
    var token := "[PARTIAL:" + h.detector + ":sha256=" + h.digest + "]";
    && 0 <= gap <= h.start <= |text| && 0 <= at && at + (h.start - gap) + |token| <= |redacted|
    && redacted[at..at + (h.start - gap)] == text[gap..h.start]
    && redacted[at + (h.start - gap)..at + (h.start - gap) + |token|] == token
  }

  lemma FirstToken(gap: string, token: string, tail: string)
    ensures (gap + token + tail)[..|gap|] == gap
    ensures (gap + token + tail)[|gap|..|gap| + |token|] == token
  {
  }

  lemma TokenText(h: Detection)
    ensures Token(h) == "[PARTIAL:" + h.detector + ":sha256=" + h.digest + "]"
  {
  }

  lemma FirstHeld(text: string, cursor: nat, hits: seq<Detection>, tail: string)
    requires hits != [] && cursor <= hits[0].start <= |text|
    ensures HoldsToken(text, cursor, hits, 0, text[cursor..hits[0].start] + Token(hits[0]) + tail, 0)
  {
    FirstToken(text[cursor..hits[0].start], Token(hits[0]), tail);
    TokenText(hits[0]);
    hide Token;
  }

  lemma NoGrowth()
    ensures Growth([]) == 0
  {
  }

  lemma GrowthCons(hits: seq<Detection>)
    requires hits != []
    ensures Growth(hits) == |Token(hits[0])| - (hits[0].end - hits[0].start) + Growth(hits[1..])
  {
    hide Token;
  }

  /** Text put in front shifts what stands there. */
  lemma Behind(text: string, cursor: nat, hits: seq<Detection>, k: nat, front: string, tail: string, at: int)
    requires 0 < k < |hits| && HoldsToken(text, hits[0].end, hits[1..], k - 1, tail, at)
    ensures HoldsToken(text, cursor, hits, k, front + tail, |front| + at)
  {
    var redacted := front + tail;
    forall i, j | 0 <= i <= j <= |tail| ensures redacted[|front| + i..|front| + j] == tail[i..j] {
    }
    assert GapStart(cursor, hits, k) == GapStart(hits[0].end, hits[1..], k - 1);
  }

  /**
   * Main result: in a redacted text each hit's token, naming its detector and digest, stands behind the
   * untouched text in front of the hit, shifted by what the earlier replacements added.
   */
  lemma {:induction false} TokenStandsAt(text: string, cursor: nat, hits: seq<Detection>, k: nat)
    requires cursor <= |text| && InOrder(cursor, hits) && Fits(|text|, hits) && k < |hits|
    ensures HoldsToken(text, cursor, hits, k, RedactFrom(text, cursor, hits),
                       GapStart(cursor, hits, k) - cursor + Growth(hits[..k]))
    decreases k
  {
    hide Token, Growth, HoldsToken;
    var h, rest := hits[0], hits[1..];
    InOrderTail(|text|, cursor, hits);
    var gap, token, tail := text[cursor..h.start], Token(h), RedactFrom(text, h.end, rest);
    assert RedactFrom(text, cursor, hits) == gap + token + tail;
    hide RedactFrom;
    if k == 0 {
      assert hits[..0] == [];
      FirstHeld(text, cursor, hits, tail);
      NoGrowth();
    } else {
      TokenStandsAt(text, h.end, rest, k - 1);
      GrowthCons(hits[..k]);
      assert hits[..k][1..] == rest[..k - 1];
      Behind(text, cursor, hits, k, gap + token, tail, GapStart(h.end, rest, k - 1) - h.end + Growth(rest[..k - 1]));
    }
  }
}
