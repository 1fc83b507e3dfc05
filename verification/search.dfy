/**
 * Span search: exact substring search over the normalised text, with every
 * hit mapped back to a half-open span of the (case-folded) original text
 * through the origin offsets the normaliser records.
 */
module TextSearch {
  import opened Unicode
  import opened Normalizer

  datatype Option<T> = None | Some(value: T)

  /** A hit: the half-open range [start, end) of the searched text.
      Equality is structural, on (start, end). */
  datatype HitSpan = HitSpan(start: int, end: int)

  /** `pattern` occurs in `hay` at index `k`. */
  predicate OccursAt(hay: Text, pattern: Text, k: int) {
    0 <= k && k + |pattern| <= |hay| && hay[k..k + |pattern|] == pattern
  }

  predicate NoOccurrenceIn(hay: Text, pattern: Text, lo: int, hi: int) {
    forall k :: lo <= k < hi ==> !OccursAt(hay, pattern, k)
  }

  /** The string library's `indexOf(pattern, from)`: the first occurrence
      of `pattern` at or after `from`. An empty pattern is found at `from`
      itself, or at the very end when `from` lies beyond it. */
  function IndexOf(hay: Text, pattern: Text, from: nat): Option<nat>
    decreases |hay| - from
  {
    if from + |pattern| > |hay| then
      if pattern == [] then Some(|hay|) else None
    else if hay[from..from + |pattern|] == pattern then
      Some(from)
    else
      IndexOf(hay, pattern, from + 1)
  }

  /** A hit leaves room for the whole pattern inside `hay`, and lies at or
      after `from` unless an empty pattern is sought from beyond the end. */
  lemma {:induction false} IndexOfInside(hay: Text, pattern: Text, from: nat)
    ensures var r := IndexOf(hay, pattern, from);
      && (r.Some? ==> r.value + |pattern| <= |hay|)
      && (r.Some? && (from <= |hay| || pattern != []) ==> from <= r.value)
    decreases |hay| - from
  {
    if from + |pattern| <= |hay| && hay[from..from + |pattern|] != pattern {
      IndexOfInside(hay, pattern, from + 1);
    }
  }

  /** `IndexOf` finds the first occurrence at or after `from`; it finds
      nothing only for a non-empty pattern that does not occur from `from`
      on; and an empty pattern searched from beyond the end is found at the
      end. */
  lemma {:induction false} IndexOfIsFirst(hay: Text, pattern: Text, from: nat)
    ensures var r := IndexOf(hay, pattern, from);
      && (r.Some? && from <= |hay| ==> FirstOccurrenceFrom(hay, pattern, from, r.value))
      && (r.Some? && from > |hay| ==> pattern == [] && r.value == |hay|)
      && (r.None? ==> pattern != [] && NoOccurrenceFrom(hay, pattern, from))
    decreases |hay| - from
  {
    if from + |pattern| <= |hay| && hay[from..from + |pattern|] != pattern {
      IndexOfIsFirst(hay, pattern, from + 1);
    }
  }

  predicate NoOccurrenceFrom(hay: Text, pattern: Text, lo: int) {
    forall k :: lo <= k <= |hay| ==> !OccursAt(hay, pattern, k)
  }

  /** Where the scan for the `j`-th of the hits `ms` begins: at `from` for
      the first, just past the previous hit for the others. */
  function ScanStart(ms: seq<nat>, from: nat, patternLength: nat, j: nat): nat
    requires j <= |ms|
  {
    if j == 0 then from else ms[j - 1] + patternLength
  }

  /** `k` is the first occurrence of `pattern` in `hay` at or after `lo`. */
  predicate FirstOccurrenceFrom(hay: Text, pattern: Text, lo: int, k: int) {
    lo <= k && OccursAt(hay, pattern, k) && NoOccurrenceIn(hay, pattern, lo, k)
  }

  /** `ms` are the leftmost non-overlapping occurrences of `pattern` in
      `hay` from `from` on: each is the first occurrence at or after the end
      of the one before, and no occurrence is left after the last. */
  predicate LeftmostHits(hay: Text, pattern: Text, from: nat, ms: seq<nat>) {
    && (forall j {:trigger ScanStart(ms, from, |pattern|, j)} :: 0 <= j < |ms| ==>
          FirstOccurrenceFrom(hay, pattern, ScanStart(ms, from, |pattern|, j), ms[j]))
    && NoOccurrenceFrom(hay, pattern, ScanStart(ms, from, |pattern|, |ms|))
  }

  lemma ConsLeftmostHits(hay: Text, pattern: Text, from: nat, index: nat, rest: seq<nat>)
    requires FirstOccurrenceFrom(hay, pattern, from, index)
    requires LeftmostHits(hay, pattern, index + |pattern|, rest)
    ensures LeftmostHits(hay, pattern, from, [index] + rest)
  {
    var ms := [index] + rest;
    forall j | 0 <= j < |ms|
      ensures FirstOccurrenceFrom(hay, pattern, ScanStart(ms, from, |pattern|, j), ms[j])
    {
      if j > 0 {
        assert ScanStart(ms, from, |pattern|, j) == ScanStart(rest, index + |pattern|, |pattern|, j - 1);
      }
    }
    assert ScanStart(ms, from, |pattern|, |ms|) == ScanStart(rest, index + |pattern|, |pattern|, |rest|);
  }

  /** The indices at which the search loop finds `pattern`, scanning from
      `from`: each the first occurrence at or after the end of the previous
      one. */
  function MatchIndices(hay: Text, pattern: Text, from: nat): seq<nat>
    requires pattern != []
    decreases |hay| + 1 - from
  {
    match IndexOf(hay, pattern, from)
    case None => []
    case Some(index) =>
      IndexOfInside(hay, pattern, from);
      [index] + MatchIndices(hay, pattern, index + |pattern|)
  }

  /** The hits the loop finds are exactly the leftmost non-overlapping
      occurrences of the pattern. */
  lemma {:induction false} MatchIndicesAreLeftmost(hay: Text, pattern: Text, from: nat)
    requires pattern != []
    ensures LeftmostHits(hay, pattern, from, MatchIndices(hay, pattern, from))
    decreases |hay| + 1 - from
  {
    IndexOfInside(hay, pattern, from);
    match IndexOf(hay, pattern, from)
    case None =>
      assert MatchIndices(hay, pattern, from) == [];
      assert NoOccurrenceFrom(hay, pattern, ScanStart([], from, |pattern|, 0)) by {
        IndexOfIsFirst(hay, pattern, from);
      }
    case Some(index) =>
      var rest := MatchIndices(hay, pattern, index + |pattern|);
      assert MatchIndices(hay, pattern, from) == [index] + rest;
      assert FirstOccurrenceFrom(hay, pattern, from, index) by {
        IndexOfIsFirst(hay, pattern, from);
      }
      MatchIndicesAreLeftmost(hay, pattern, index + |pattern|);
      ConsLeftmostHits(hay, pattern, from, index, rest);
  }

  lemma FirstOccurrenceUnique(hay: Text, pattern: Text, lo: int, k1: int, k2: int)
    requires FirstOccurrenceFrom(hay, pattern, lo, k1)
    requires FirstOccurrenceFrom(hay, pattern, lo, k2)
    ensures k1 == k2
  {
  }

  /** The tail of leftmost hits is the leftmost hits from just past the
      first one. */
  lemma TailLeftmostHits(hay: Text, pattern: Text, from: nat, ms: seq<nat>)
    requires ms != []
    requires LeftmostHits(hay, pattern, from, ms)
    ensures FirstOccurrenceFrom(hay, pattern, from, ms[0])
    ensures LeftmostHits(hay, pattern, ms[0] + |pattern|, ms[1..])
  {
    var rest := ms[1..];
    assert ScanStart(ms, from, |pattern|, 0) == from;
    forall j | 0 <= j < |rest|
      ensures FirstOccurrenceFrom(hay, pattern, ScanStart(rest, ms[0] + |pattern|, |pattern|, j), rest[j])
    {
      assert ScanStart(rest, ms[0] + |pattern|, |pattern|, j) == ScanStart(ms, from, |pattern|, j + 1);
    }
    assert ScanStart(rest, ms[0] + |pattern|, |pattern|, |rest|) == ScanStart(ms, from, |pattern|, |ms|);
  }

  /** Conversely, the leftmost non-overlapping occurrences are exactly the
      hits the loop finds: there is only one such sequence. */
  lemma {:induction false} LeftmostHitsUnique(hay: Text, pattern: Text, from: nat, ms: seq<nat>)
    requires pattern != []
    requires LeftmostHits(hay, pattern, from, ms)
    ensures ms == MatchIndices(hay, pattern, from)
    decreases |ms|
  {
    IndexOfInside(hay, pattern, from);
    match IndexOf(hay, pattern, from)
    case None =>
      if ms != [] {
        TailLeftmostHits(hay, pattern, from, ms);
        IndexOfIsFirst(hay, pattern, from);
        assert false;
      }
    case Some(index) =>
      assert ScanStart(ms, from, |pattern|, 0) == from;
      if ms == [] {
        IndexOfIsFirst(hay, pattern, from);
        assert false;
      }
      TailLeftmostHits(hay, pattern, from, ms);
      assert FirstOccurrenceFrom(hay, pattern, from, index) by {
        IndexOfIsFirst(hay, pattern, from);
      }
      FirstOccurrenceUnique(hay, pattern, from, ms[0], index);
      LeftmostHitsUnique(hay, pattern, index + |pattern|, ms[1..]);
      assert ms == [ms[0]] + ms[1..];
  }

  /** One round of the search loop: a hit at `hit` is the first of the
      remaining hits, and the rest are found from just past it; so the hits
      `done` before this round, followed by the remaining ones, are the
      hits before the next round followed by the ones after it. */
  lemma MatchIndicesStep(hay: Text, pattern: Text, done: seq<nat>, position: nat, hit: nat)
    requires pattern != [] && position <= |hay|
    requires IndexOf(hay, pattern, position) == Some(hit)
    ensures position <= hit && hit + |pattern| <= |hay|
    ensures done + MatchIndices(hay, pattern, position)
      == (done + [hit]) + MatchIndices(hay, pattern, hit + |pattern|)
  {
    IndexOfInside(hay, pattern, position);
    var rest := MatchIndices(hay, pattern, hit + |pattern|);
    assert MatchIndices(hay, pattern, position) == [hit] + rest;
    AppendAssociates(done, [hit], rest);
  }

  lemma MatchIndicesDone(hay: Text, pattern: Text, position: nat)
    requires pattern != []
    requires IndexOf(hay, pattern, position) == None
    ensures MatchIndices(hay, pattern, position) == []
  {
  }

  /** The end of a span whose last matched unit originates at `origin`,
      scanning the origins from index `from` on. */
  function SpanEnd(startPositions: seq<int>, from: nat, origin: int, textLength: int): int
    decreases |startPositions| - from
  {
    if from >= |startPositions| then textLength
    else if startPositions[from] != origin then startPositions[from]
    else SpanEnd(startPositions, from + 1, origin, textLength)
  }

  /** The end is the first origin at index `from` or later that differs from
      `origin`, or `textLength` when every later origin equals `origin`. */
  lemma {:induction false} SpanEndIsFirstDifference(startPositions: seq<int>, from: nat, origin: int, textLength: int)
    ensures (forall k :: from <= k < |startPositions| ==> startPositions[k] == origin) ==>
      SpanEnd(startPositions, from, origin, textLength) == textLength
    ensures forall k :: (from <= k < |startPositions| && startPositions[k] != origin &&
      forall m :: from <= m < k ==> startPositions[m] == origin) ==>
      SpanEnd(startPositions, from, origin, textLength) == startPositions[k]
    decreases |startPositions| - from
  {
    if from < |startPositions| && startPositions[from] == origin {
      SpanEndIsFirstDifference(startPositions, from + 1, origin, textLength);
    }
  }

  /** The span reported for a hit of a pattern of `patternLength` units at
      index `index` of the normalised text: it starts at the origin of the
      hit's first unit and ends at the first later origin that differs from
      the origin of the hit's last unit. */
  function SpanAt(startPositions: seq<int>, index: nat, patternLength: nat, textLength: int): HitSpan
    requires 0 < patternLength && index + patternLength <= |startPositions|
  {
    var last := startPositions[index + patternLength - 1];
    HitSpan(startPositions[index], SpanEnd(startPositions, index + patternLength, last, textLength))
  }

  /** The span as the search loop computes it: the end scan compares the
      later origins with the origin of the hit's FIRST unit. */
  function SpanAtAsWritten(startPositions: seq<int>, index: nat, patternLength: nat, textLength: int): HitSpan
    requires 0 < patternLength && index + patternLength <= |startPositions|
  {
    var start := startPositions[index];
    HitSpan(start, SpanEnd(startPositions, index + patternLength, start, textLength))
  }

  /** With the code's end rule too, every span lies inside the text and is
      non-empty, provided the origins are ordered and inside the text. */
  lemma SpanAtAsWrittenBounded(startPositions: seq<int>, index: nat, patternLength: nat, textLength: int)
    requires 0 < patternLength && index + patternLength <= |startPositions|
    requires NonDecreasing(startPositions)
    requires forall j :: 0 <= j < |startPositions| ==> 0 <= startPositions[j] < textLength
    ensures var span := SpanAtAsWritten(startPositions, index, patternLength, textLength);
      0 <= span.start < span.end <= textLength
  {
    var start := startPositions[index];
    var from := index + patternLength;
    SpanEndIsFirstDifference(startPositions, from, start, textLength);
    if exists k :: from <= k < |startPositions| && startPositions[k] != start {
      var k := FirstDifference(startPositions, from, start);
      assert start <= startPositions[k];
    }
  }

  /** Every span lies inside the text, is non-empty, and covers the origin
      of every unit of its hit, provided the origins are ordered and inside
      the text. */
  lemma SpanAtBounded(startPositions: seq<int>, index: nat, patternLength: nat, textLength: int)
    requires 0 < patternLength && index + patternLength <= |startPositions|
    requires NonDecreasing(startPositions)
    requires forall j :: 0 <= j < |startPositions| ==> 0 <= startPositions[j] < textLength
    ensures var span := SpanAt(startPositions, index, patternLength, textLength);
      0 <= span.start < span.end <= textLength
    ensures var span := SpanAt(startPositions, index, patternLength, textLength);
      forall u :: index <= u < index + patternLength ==> span.start <= startPositions[u] < span.end
  {
    var last := startPositions[index + patternLength - 1];
    var from := index + patternLength;
    SpanEndIsFirstDifference(startPositions, from, last, textLength);
    if exists k :: from <= k < |startPositions| && startPositions[k] != last {
      var k := FirstDifference(startPositions, from, last);
      assert last <= startPositions[k];
    }
  }

  /** The first index at or after `from` whose origin differs from `origin`. */
  lemma FirstDifference(startPositions: seq<int>, from: nat, origin: int) returns (k: nat)
    requires exists k :: from <= k < |startPositions| && startPositions[k] != origin
    ensures from <= k < |startPositions| && startPositions[k] != origin
    ensures forall m :: from <= m < k ==> startPositions[m] == origin
  {
    var w :| from <= w < |startPositions| && startPositions[w] != origin;
    k := from;
    while startPositions[k] == origin
      invariant from <= k <= w
      invariant forall m :: from <= m < k ==> startPositions[m] == origin
      decreases w - k
    {
      k := k + 1;
    }
  }

  /** A span end is at most any later origin that differs from the one
      compared against. */
  lemma SpanEndAtMost(startPositions: seq<int>, from: nat, origin: int, textLength: int, k: nat)
    requires NonDecreasing(startPositions)
    requires from <= k < |startPositions| && startPositions[k] != origin
    ensures SpanEnd(startPositions, from, origin, textLength) <= startPositions[k]
  {
    SpanEndIsFirstDifference(startPositions, from, origin, textLength);
    var k1 := FirstDifference(startPositions, from, origin);
    assert k1 <= k;
  }

  /** Over origins inside the text, a span end is at most the text length. */
  lemma SpanEndInsideText(startPositions: seq<int>, from: nat, origin: int, textLength: int)
    requires forall j :: 0 <= j < |startPositions| ==> startPositions[j] < textLength
    ensures SpanEnd(startPositions, from, origin, textLength) <= textLength
  {
    SpanEndIsFirstDifference(startPositions, from, origin, textLength);
    if exists k :: from <= k < |startPositions| && startPositions[k] != origin {
      var k := FirstDifference(startPositions, from, origin);
    }
  }

  /** Two hits in a row: the later span neither starts nor ends before the
      earlier one, and the two overlap only when the later one starts in the
      original unit where the earlier hit ends. */
  lemma SpansInOrder(startPositions: seq<int>, i1: nat, i2: nat, patternLength: nat, textLength: int)
    requires 0 < patternLength && i1 + patternLength <= i2 && i2 + patternLength <= |startPositions|
    requires NonDecreasing(startPositions)
    requires forall j :: 0 <= j < |startPositions| ==> startPositions[j] < textLength
    ensures var a := SpanAt(startPositions, i1, patternLength, textLength);
      var b := SpanAt(startPositions, i2, patternLength, textLength);
      && a.start <= b.start && a.end <= b.end
      && (a.end <= b.start || b.start == startPositions[i1 + patternLength - 1])
  {
    var last1 := startPositions[i1 + patternLength - 1];
    var last2 := startPositions[i2 + patternLength - 1];
    if startPositions[i2] != last1 {
      SpanEndAtMost(startPositions, i1 + patternLength, last1, textLength, i2);
    }
    SpanEndIsFirstDifference(startPositions, i2 + patternLength, last2, textLength);
    if exists k :: i2 + patternLength <= k < |startPositions| && startPositions[k] != last2 {
      var k2 := FirstDifference(startPositions, i2 + patternLength, last2);
      assert last1 <= last2 <= startPositions[k2];
      SpanEndAtMost(startPositions, i1 + patternLength, last1, textLength, k2);
    } else {
      SpanEndInsideText(startPositions, i1 + patternLength, last1, textLength);
    }
  }

  /** As written, two hits in a row either begin at the same original offset
      (both inside one original unit's expansion) or the later one begins at
      or after the end of the earlier one. */
  lemma SpansInOrderAsWritten(startPositions: seq<int>, i1: nat, i2: nat, patternLength: nat, textLength: int)
    requires 0 < patternLength && i1 + patternLength <= i2 && i2 + patternLength <= |startPositions|
    requires NonDecreasing(startPositions)
    ensures var a := SpanAtAsWritten(startPositions, i1, patternLength, textLength);
      var b := SpanAtAsWritten(startPositions, i2, patternLength, textLength);
      a.start <= b.start && (a.start == b.start || a.end <= b.start)
  {
    var start := startPositions[i1];
    var from := i1 + patternLength;
    SpanEndIsFirstDifference(startPositions, from, start, textLength);
    if startPositions[i2] != start {
      var k := FirstDifference(startPositions, from, start);
      assert k <= i2;
    }
  }

  /** Case folding applied alike to the pattern and to every searched text. */
  function Fold(p: Platform, ignoreCase: bool, s: Text): Text {
    if ignoreCase then p.toUpperCase(s) else s
  }

  /** The facts about leftmost hits the span computation relies on: each
      hit ends inside `hay`, and each starts at or after the end of the one
      before. */
  lemma LeftmostHitsAscend(hay: Text, pattern: Text, from: nat, ms: seq<nat>)
    requires LeftmostHits(hay, pattern, from, ms)
    ensures forall j :: 0 <= j < |ms| ==> ms[j] + |pattern| <= |hay|
    ensures forall j :: 0 < j < |ms| ==> ms[j - 1] + |pattern| <= ms[j]
  {
    forall j | 0 <= j < |ms|
      ensures ScanStart(ms, from, |pattern|, j) <= ms[j] && ms[j] + |pattern| <= |hay|
    {
    }
    forall j | 0 < j < |ms| ensures ms[j - 1] + |pattern| <= ms[j] {
      assert ScanStart(ms, from, |pattern|, j) <= ms[j];
    }
  }

  /** Every hit index leaves room for the pattern inside the origin map. */
  predicate HitsFit(ms: seq<nat>, patternLength: nat, n: int) {
    forall j :: 0 <= j < |ms| ==> ms[j] < n && ms[j] + patternLength <= n
  }

  lemma HitsFitSnoc(ms: seq<nat>, index: nat, patternLength: nat, n: int)
    requires HitsFit(ms, patternLength, n)
    requires index < n && index + patternLength <= n
    ensures HitsFit(ms + [index], patternLength, n)
  {
  }

  /** The spans of the hits `ms` of a pattern of `patternLength` units. */
  function SpansOf(startPositions: seq<int>, ms: seq<nat>, patternLength: nat, textLength: int): seq<HitSpan>
    requires 0 < patternLength && HitsFit(ms, patternLength, |startPositions|)
  {
    seq(|ms|, j requires 0 <= j < |ms| => SpanAt(startPositions, ms[j], patternLength, textLength))
  }

  lemma SpansOfSnoc(startPositions: seq<int>, ms: seq<nat>, index: nat, patternLength: nat, textLength: int)
    requires 0 < patternLength && HitsFit(ms, patternLength, |startPositions|)
    requires index < |startPositions| && index + patternLength <= |startPositions|
    ensures SpansOf(startPositions, ms + [index], patternLength, textLength)
      == SpansOf(startPositions, ms, patternLength, textLength) + [SpanAt(startPositions, index, patternLength, textLength)]
  {
  }

  /** Spans of hits over a well-formed origin map lie inside the text, are
      non-empty, and each covers the origins of all units of its hit. */
  lemma SpansInsideText(startPositions: seq<int>, ms: seq<nat>, patternLength: nat, textLength: int)
    requires 0 < patternLength
    requires NonDecreasing(startPositions)
    requires forall j :: 0 <= j < |startPositions| ==> 0 <= startPositions[j] < textLength
    requires forall j :: 0 <= j < |ms| ==> ms[j] + patternLength <= |startPositions|
    ensures var spans := SpansOf(startPositions, ms, patternLength, textLength);
      forall j :: 0 <= j < |spans| ==> 0 <= spans[j].start < spans[j].end <= textLength
    ensures var spans := SpansOf(startPositions, ms, patternLength, textLength);
      forall j, u :: 0 <= j < |spans| && ms[j] <= u < ms[j] + patternLength ==>
        spans[j].start <= startPositions[u] < spans[j].end
  {
    var spans := SpansOf(startPositions, ms, patternLength, textLength);
    forall j | 0 <= j < |spans|
      ensures 0 <= spans[j].start < spans[j].end <= textLength
      ensures forall u :: ms[j] <= u < ms[j] + patternLength ==> spans[j].start <= startPositions[u] < spans[j].end
    {
      assert spans[j] == SpanAt(startPositions, ms[j], patternLength, textLength);
      SpanAtBounded(startPositions, ms[j], patternLength, textLength);
    }
  }

  /** Spans of ascending, non-overlapping hits ascend by start and by end,
      and two in a row overlap only when the later one starts at the origin
      of the earlier hit's last unit. */
  lemma SpansAscend(startPositions: seq<int>, ms: seq<nat>, patternLength: nat, textLength: int)
    requires 0 < patternLength
    requires NonDecreasing(startPositions)
    requires forall j :: 0 <= j < |startPositions| ==> startPositions[j] < textLength
    requires forall j :: 0 <= j < |ms| ==> ms[j] + patternLength <= |startPositions|
    requires forall j :: 0 < j < |ms| ==> ms[j - 1] + patternLength <= ms[j]
    ensures var spans := SpansOf(startPositions, ms, patternLength, textLength);
      forall j :: 0 < j < |spans| ==>
        && spans[j - 1].start <= spans[j].start
        && spans[j - 1].end <= spans[j].end
        && (spans[j - 1].end <= spans[j].start || spans[j].start == startPositions[ms[j - 1] + patternLength - 1])
  {
    var spans := SpansOf(startPositions, ms, patternLength, textLength);
    forall j | 0 < j < |spans|
      ensures spans[j - 1].start <= spans[j].start
      ensures spans[j - 1].end <= spans[j].end
      ensures spans[j - 1].end <= spans[j].start || spans[j].start == startPositions[ms[j - 1] + patternLength - 1]
    {
      assert spans[j - 1] == SpanAt(startPositions, ms[j - 1], patternLength, textLength);
      assert spans[j] == SpanAt(startPositions, ms[j], patternLength, textLength);
      SpansInOrder(startPositions, ms[j - 1], ms[j], patternLength, textLength);
    }
  }

  /** The spans a search of the case-folded text `text` reports for the
      stored normalised pattern: one per hit of the pattern in the
      normalised text, in order. They lie inside `text`, are non-empty, and
      ascend by start and by end. An empty pattern yields no spans. */
  function Hits(p: Platform, normalizedPattern: Text, text: Text): (spans: seq<HitSpan>)
    ensures forall j :: 0 <= j < |spans| ==> 0 <= spans[j].start < spans[j].end <= |text|
    ensures forall j :: 0 < j < |spans| ==> spans[j - 1].start <= spans[j].start
    ensures forall j :: 0 < j < |spans| ==> spans[j - 1].end <= spans[j].end
    ensures normalizedPattern == [] ==> spans == []
  {
    if normalizedPattern == [] then []
    else
      var r := Normalized(p, text);
      var ms := MatchIndices(r.text, normalizedPattern, 0);
      OriginMapWellFormed(p, text);
      MatchIndicesAreLeftmost(r.text, normalizedPattern, 0);
      LeftmostHitsAscend(r.text, normalizedPattern, 0, ms);
      SpansInsideText(r.startPositions, ms, |normalizedPattern|, |text|);
      SpansAscend(r.startPositions, ms, |normalizedPattern|, |text|);
      SpansOf(r.startPositions, ms, |normalizedPattern|, |text|)
  }

  /** Each span covers its hit: the origin of every unit the hit matched
      lies in the span, and two spans in a row overlap only in the original
      unit where the earlier hit ends. */
  lemma HitsCoverMatches(p: Platform, normalizedPattern: Text, text: Text)
    requires normalizedPattern != []
    ensures var r := Normalized(p, text);
      var ms := MatchIndices(r.text, normalizedPattern, 0);
      var spans := Hits(p, normalizedPattern, text);
      && |spans| == |ms|
      && HitsFit(ms, |normalizedPattern|, |r.startPositions|)
      && (forall j, u :: 0 <= j < |ms| && ms[j] <= u < ms[j] + |normalizedPattern| ==>
            spans[j].start <= r.startPositions[u] < spans[j].end)
      && (forall j :: 0 < j < |ms| ==>
            spans[j - 1].end <= spans[j].start || spans[j].start == r.startPositions[ms[j - 1] + |normalizedPattern| - 1])
  {
    var r := Normalized(p, text);
    var ms := MatchIndices(r.text, normalizedPattern, 0);
    OriginMapWellFormed(p, text);
    MatchIndicesAreLeftmost(r.text, normalizedPattern, 0);
    LeftmostHitsAscend(r.text, normalizedPattern, 0, ms);
    SpansInsideText(r.startPositions, ms, |normalizedPattern|, |text|);
    SpansAscend(r.startPositions, ms, |normalizedPattern|, |text|);
  }

  /** The spans the search loop reports as written, for a non-empty
      pattern: one per hit, each ending where the origins first differ from
      the origin of the hit's first unit. They lie inside `text` and are
      non-empty. */
  function HitsAsWritten(p: Platform, normalizedPattern: Text, text: Text): (spans: seq<HitSpan>)
    requires normalizedPattern != []
    ensures |spans| == |MatchIndices(Normalized(p, text).text, normalizedPattern, 0)|
    ensures forall j :: 0 <= j < |spans| ==> 0 <= spans[j].start < spans[j].end <= |text|
  {
    var r := Normalized(p, text);
    var ms := MatchIndices(r.text, normalizedPattern, 0);
    OriginMapWellFormed(p, text);
    MatchIndicesAreLeftmost(r.text, normalizedPattern, 0);
    LeftmostHitsAscend(r.text, normalizedPattern, 0, ms);
    SpansAsWrittenInsideText(r.startPositions, ms, |normalizedPattern|, |text|);
    seq(|ms|, j requires 0 <= j < |ms| => SpanAtAsWritten(r.startPositions, ms[j], |normalizedPattern|, |text|))
  }

  /** Every span the code's end rule gives for the hits `ms` lies inside the
      text and is non-empty. */
  lemma SpansAsWrittenInsideText(startPositions: seq<int>, ms: seq<nat>, patternLength: nat, textLength: int)
    requires 0 < patternLength
    requires NonDecreasing(startPositions)
    requires forall j :: 0 <= j < |startPositions| ==> 0 <= startPositions[j] < textLength
    requires forall j :: 0 <= j < |ms| ==> ms[j] + patternLength <= |startPositions|
    ensures forall j :: 0 <= j < |ms| ==>
      var span := SpanAtAsWritten(startPositions, ms[j], patternLength, textLength);
      0 <= span.start < span.end <= textLength
  {
    forall j | 0 <= j < |ms|
      ensures var span := SpanAtAsWritten(startPositions, ms[j], patternLength, textLength);
        0 <= span.start < span.end <= textLength
    {
      SpanAtAsWrittenBounded(startPositions, ms[j], patternLength, textLength);
    }
  }

  /** As written, spans ascend by start, and two in a row either share their
      start or do not overlap. */
  lemma HitsAsWrittenInOrder(p: Platform, normalizedPattern: Text, text: Text)
    requires normalizedPattern != []
    ensures var spans := HitsAsWritten(p, normalizedPattern, text);
      forall j :: 0 < j < |spans| ==>
        spans[j - 1].start <= spans[j].start && (spans[j - 1].start == spans[j].start || spans[j - 1].end <= spans[j].start)
  {
    var r := Normalized(p, text);
    var ms := MatchIndices(r.text, normalizedPattern, 0);
    var spans := HitsAsWritten(p, normalizedPattern, text);
    OriginMapWellFormed(p, text);
    MatchIndicesAreLeftmost(r.text, normalizedPattern, 0);
    LeftmostHitsAscend(r.text, normalizedPattern, 0, ms);
    forall j | 0 < j < |spans|
      ensures spans[j - 1].start <= spans[j].start
      ensures spans[j - 1].start == spans[j].start || spans[j - 1].end <= spans[j].start
    {
      SpansInOrderAsWritten(r.startPositions, ms[j - 1], ms[j], |normalizedPattern|, |text|);
    }
  }

  /** A searcher for one pattern; its state is fixed at construction. */
  class NFKCTextSearch {
    const normalizedPattern: Text
    const ignoreCase: bool
    const platform: Platform

    /** Stores the pattern, upper-cased first when case is to be ignored,
        and then normalised. */
    constructor (pattern: Text, ignoreCase: bool, platform: Platform)
      ensures this.ignoreCase == ignoreCase && this.platform == platform
      ensures normalizedPattern == platform.normalize(Fold(platform, ignoreCase, pattern))
    {
      this.ignoreCase := ignoreCase;
      this.platform := platform;
      var folded := pattern;
      if ignoreCase {
        folded := platform.toUpperCase(pattern);
      }
      this.normalizedPattern := platform.normalize(folded);
    }

    /** The hits of the pattern in `text`, as spans of the case-folded text. */
    method Search(text: Text) returns (result: seq<HitSpan>)
      ensures result == Hits(platform, normalizedPattern, Fold(platform, ignoreCase, text))
    {
      var builder := new TextBuilder();
      var startPositions := new OffsetList();
      var folded := text;
      if ignoreCase {
        folded := platform.toUpperCase(text);
      }
      Normalize(platform, folded, builder, startPositions);
      OneOriginPerUnit(platform, folded);

      if |normalizedPattern| == 0 {
        // added guard: unguarded, the loop below would stall (EmptyPatternStalls)
        return [];
      }
      assert builder.contents == Normalized(platform, folded).text;
      assert startPositions.items == Normalized(platform, folded).startPositions;
      result := CollectHits(builder.contents, startPositions.items, normalizedPattern, |folded|);
    }
  }

  /** Scans the origins from index `from` for the first one that differs from
      `origin`; when none does, the span runs to the end of the text. */
  method FindSpanEnd(origins: seq<int>, from: nat, origin: int, textLength: int) returns (end: int)
    ensures end == SpanEnd(origins, from, origin, textLength)
  {
    var found: Option<int> := None;
    var i := from;
    while i < |origins|
      invariant from <= i
      invariant found.None?
      invariant SpanEnd(origins, i, origin, textLength) == SpanEnd(origins, from, origin, textLength)
      decreases |origins| - i
    {
      found := Some(origins[i]);
      if origin == origins[i] {
        found := None;
      } else {
        break;
      }
      i := i + 1;
    }
    end := if found.None? then textLength else found.value;
  }

  /** The search loop's invariant: `found` are the hits before `position`,
      the remaining hits follow from `position`, and `result` holds the
      spans of the hits found so far. */
  predicate Collected(normalized: Text, origins: seq<int>, pattern: Text, textLength: int,
                      found: seq<nat>, position: nat, result: seq<HitSpan>)
    requires pattern != []
  {
    && position <= |normalized|
    && MatchIndices(normalized, pattern, 0) == found + MatchIndices(normalized, pattern, position)
    && HitsFit(found, |pattern|, |origins|)
    && result == SpansOf(origins, found, |pattern|, textLength)
  }

  /** One round of the search loop keeps its invariant, and moves the
      position strictly forward, to `NextPosition`. */
  lemma CollectedStep(normalized: Text, origins: seq<int>, pattern: Text, textLength: int,
                      found: seq<nat>, position: nat, result: seq<HitSpan>, hit: nat)
    requires pattern != [] && |origins| == |normalized|
    requires Collected(normalized, origins, pattern, textLength, found, position, result)
    requires IndexOf(normalized, pattern, position) == Some(hit)
    ensures position < hit + |pattern| <= |origins|
    ensures NextPosition(normalized, pattern, position) == Some(hit + |pattern|)
    ensures var span := HitSpan(origins[hit], SpanEnd(origins, hit + |pattern|, origins[hit + |pattern| - 1], textLength));
      Collected(normalized, origins, pattern, textLength, found + [hit], hit + |pattern|, result + [span])
  {
    MatchIndicesStep(normalized, pattern, found, position, hit);
    SpansOfSnoc(origins, found, hit, |pattern|, textLength);
    HitsFitSnoc(found, hit, |pattern|, |origins|);
  }

  /** The search loop: finds each next hit of `pattern` in `normalized` from
      just past the previous one, and maps it back through `origins` to a
      span of a text of `textLength` units. */
  method CollectHits(normalized: Text, origins: seq<int>, pattern: Text, textLength: int)
    returns (result: seq<HitSpan>)
    requires pattern != [] && |origins| == |normalized|
    ensures HitsFit(MatchIndices(normalized, pattern, 0), |pattern|, |origins|)
    ensures result == SpansOf(origins, MatchIndices(normalized, pattern, 0), |pattern|, textLength)
  {
    result := [];
    ghost var found: seq<nat> := [];
    var position := 0;
    var index := IndexOf(normalized, pattern, position);
    while index.Some?
      invariant Collected(normalized, origins, pattern, textLength, found, position, result)
      invariant index == IndexOf(normalized, pattern, position)
      decreases |normalized| - position
    {
      var hit := index.value;
      CollectedStep(normalized, origins, pattern, textLength, found, position, result, hit);
      position := hit + |pattern|;
      var start := origins[hit];
      // corrected: compares with the origin of the hit's last unit (SpanAt)
      var end := FindSpanEnd(origins, position, origins[position - 1], textLength);
      result := result + [HitSpan(start, end)];
      found := found + [hit];
      index := IndexOf(normalized, pattern, position);
    }
    MatchIndicesDone(normalized, pattern, position);
    assert found + [] == found;
  }

  /** Where one round of the search loop leaves `position`: just past the
      hit it finds, or None when it finds none and the loop ends. */
  function NextPosition(normalized: Text, pattern: Text, position: nat): Option<nat> {
    match IndexOf(normalized, pattern, position)
    case None => None
    case Some(index) => Some(index + |pattern|)
  }

  /** With a non-empty pattern every round moves the position strictly
      forward and never past the end, so the loop ends. */
  lemma PositionAdvances(normalized: Text, pattern: Text, position: nat)
    requires pattern != [] && position <= |normalized|
    ensures var next := NextPosition(normalized, pattern, position);
      next.Some? ==> position < next.value <= |normalized|
  {
    IndexOfInside(normalized, pattern, position);
  }

  /** As written, with an empty pattern a round always finds a hit at the
      current position and leaves the position where it was: the loop never
      ends. */
  lemma EmptyPatternStalls(normalized: Text, position: nat)
    requires position <= |normalized|
    ensures NextPosition(normalized, [], position) == Some(position)
  {
  }
}
