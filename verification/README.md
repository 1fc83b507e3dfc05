# NFKCTextSearch in Dafny

A model of the NFKCTextSearch library (`NFKCTextSearch.java`): search for a
pattern in a text *after* NFKC compatibility normalisation of both, and report
each hit as a half-open span `[start, end)` of the text as given (after
optional upper-casing), not of its normalised form.

The library has two cooperating parts, modelled in the same imperative form:

- **The buffered normaliser** (`normalize`). It walks the text one UTF-16 code
  unit at a time, keeping a pending buffer and the offset where the buffer
  began. Each step tries the buffer plus the next unit:
  - if the candidate is already normalised, the buffer is flushed and
    restarted with the new unit;
  - if its normalisation still starts with the buffer, the buffer is flushed
    and the new tail is buffered;
  - otherwise the buffer is rewritten in place and nothing is flushed.

  Every unit flushed to the output gets one *origin offset*: the offset at
  which its buffer began. `Normalizer.Normalize` is a method with the source's
  loop. It appends to a `TextBuilder` (the `StringBuilder`) and an
  `OffsetList` (the `List<Integer>`), and it is proved equal to the functional
  definition `Step` / `Scan` / `Normalized`.
- **The search** (`NFKCTextSearch`). It normalises the text, then repeatedly
  looks for the next occurrence of the normalised pattern from just past the
  previous hit. Each hit is mapped back through the origins:
  - the span starts at the origin of the hit's first unit;
  - it ends at the first later origin that differs from the origin of the
    hit's last unit, or at the end of the text.

  The code compares the later origins with the origin of the hit's *first*
  unit. Where a hit begins inside one original unit's expansion and ends
  inside the next, the code's span stops short of the hit's last unit (see
  Findings). The model keeps the code's rule as `TextSearch.SpanAtAsWritten`
  and `TextSearch.HitsAsWritten`; everything else uses the corrected rule.

  `TextSearch.NFKCTextSearch.Search` and its loop `TextSearch.CollectHits` are
  proved equal to `TextSearch.Hits`. That function is built from
  `MatchIndices` (the hits the loop finds) and `SpansOf` (their spans).
  Every span covers the origin of every unit its hit matched
  (`TextSearch.HitsCoverMatches`).

  Spans need not be disjoint. When one original unit expands to several
  copies of the pattern, each copy is a hit, and all of them map back to the
  same span (`SearchVectors.RepeatedSpans`).

The platform services the library calls are fields of `Unicode.Platform`, and
nothing is assumed about them:
- `Normalizer.isNormalized(·, NFKC)`;
- `Normalizer.normalize(·, NFKC)`;
- `String.toUpperCase(Locale.ENGLISH)`.

All results hold for every platform, under the hypotheses each lemma names:
`Normalizer.IdentityOnStableText` needs every window the loop tests to be
normalised already (`StableWindows`), and `Normalizer.FirstOriginIsZero`
needs a platform that never normalises a non-empty text to nothing
(`NonErasing`). Texts are sequences of 16-bit code units
(`bv16`), matching Java's `char` indexing: a lone surrogate half is an ordinary
unit, and the two halves of a surrogate pair get origins of their own
(`SearchVectors.SurrogatePairExample`). `HitSpan` is a datatype, so its equality is the source's structural
`equals` on `(start, end)`.

The module `SearchVectors` replays five search examples from
`NFKCTextSearchTest.java` on stand-in platforms:
- "234" in "12345" (lines 15-16), and "𠮷" in "𠮷野家𠮷野家" ignoring case
  (lines 33-34), with a platform on which everything is normalised and
  upper-casing changes nothing. Each surrogate pair "𠮷" is hit as a whole
  and maps back to both of its halves, `[0, 2)` and `[4, 6)`;
- "キロ" and "キ" in "1㌔2㌔" (lines 26-29), and "ロキ" in "㌔㌔" (lines
  30-31), with a platform whose only mapping is U+3314 → キロ. The
  normalisations of "1㌔2㌔" and "㌔㌔" are intermediate steps of these
  examples, not test vectors.

It also shows the code's span for "ロキ" in "㌔㌔" and the repeated spans
that a stand-in mapping "A" → "BB" produces.

Modelling choices, against `NFKCTextSearch.java`:
- Upper-casing is Java's full `toUpperCase(Locale.ENGLISH)` (lines 17 and
  26), which may change the length. Spans index the upper-cased text, and a
  span's fallback end is that text's length (line 47).
- `HitSpan` overrides only `equals`, `hashCode` and `toString` (lines
  113-130) and is not `Comparable`, so the datatype has equality and no
  ordering.
- The empty-pattern guard and the span-end rule are corrections of the code
  (see Findings).

## Model

| member | source | states |
|---|---|---|
| Unicode.TextBuilder.Append | src/main/java/com/lisb/nfkctextsearch/NFKCTextSearch.java:74 | `dest.append` keeps the builder's contents and adds the text at the end |
| Unicode.OffsetList.Add | src/main/java/com/lisb/nfkctextsearch/NFKCTextSearch.java:79 | `startPositions.add` keeps the list and adds one offset at the end |
| Normalizer.AppendCopies | src/main/java/com/lisb/nfkctextsearch/NFKCTextSearch.java:78-80 | the flush loop adds exactly `count` copies of the buffer's start offset after what the list held |
| Normalizer.Normalize | src/main/java/com/lisb/nfkctextsearch/NFKCTextSearch.java:58-102 | the normaliser only appends: the old contents of `dest` and `startPositions` stay a prefix, followed by exactly the normalised text and origins of `Normalized` |
| Normalizer.Step | src/main/java/com/lisb/nfkctextsearch/NFKCTextSearch.java:68-95 | one iteration of the loop, branch for branch: flush and restart on a normalised candidate, flush and keep the tail when the normalisation still starts with the buffer, otherwise rewrite the buffer; specified by `StepKeepsConsistent` and `StepStartsAtZero` |
| Normalizer.StartsWith | src/main/java/com/lisb/nfkctextsearch/NFKCTextSearch.java:72 | `normalizedText.startsWith(buffer)`: the buffer is a prefix of the candidate's normalisation; the branch it selects is specified by `StepKeepsConsistent` |
| Normalizer.Scan | src/main/java/com/lisb/nfkctextsearch/NFKCTextSearch.java:67-96 | the loop state (flushed text, origins, buffer, buffer start) after the first `k` iterations; specified by `ScanInvariant`, `ScanStable` and `ScanStartsAtZero` |
| Normalizer.Normalized | src/main/java/com/lisb/nfkctextsearch/NFKCTextSearch.java:58-102 | the whole pass, with the final flush of the buffer at its start offset; `Normalize` is proved to append exactly it, and `OriginMapWellFormed`, `IdentityOnStableText` and `FirstOriginIsZero` specify it |
| Normalizer.FlushKeepsOrder | src/main/java/com/lisb/nfkctextsearch/NFKCTextSearch.java:78-80 | flushing at an offset no smaller than any recorded origin keeps the origins non-decreasing |
| Normalizer.StepKeepsConsistent | src/main/java/com/lisb/nfkctextsearch/NFKCTextSearch.java:67-96 | each of the three branches of one iteration keeps the loop invariant: one origin per flushed unit, origins non-decreasing and at most the buffer's start offset, which is 0 before the first unit and below the current index after it |
| Normalizer.ScanInvariant | src/main/java/com/lisb/nfkctextsearch/NFKCTextSearch.java:65-96 | the loop invariant holds after every prefix of the text |
| Normalizer.OneOriginPerUnit | src/main/java/com/lisb/nfkctextsearch/NFKCTextSearch.java:74-101 | across the three flush sites, exactly one origin is recorded per normalised unit |
| Normalizer.OriginMapWellFormed | src/main/java/com/lisb/nfkctextsearch/NFKCTextSearch.java:58-102 | for any platform: one origin per unit, origins non-decreasing, every origin in `[0, |text|)`, and an empty text yields an empty text and no origins |
| Normalizer.StableStateStep | src/main/java/com/lisb/nfkctextsearch/NFKCTextSearch.java:85-95 | on a text whose windows are normalised, one step moves from the closed-form state after `k - 1` units to the one after `k` |
| Normalizer.ScanStable | src/main/java/com/lisb/nfkctextsearch/NFKCTextSearch.java:67-96 | if every candidate the loop tests is already normalised, after `k` units the first `k - 1` are flushed verbatim with origins `0..k-2` and unit `k - 1` is buffered at its own offset |
| Normalizer.IdentityOnStableText | src/main/java/com/lisb/nfkctextsearch/NFKCTextSearch.java:58-102 | if every candidate the loop tests is already normalised, the output is the text verbatim and the origins are the identity `0..n-1` |
| Normalizer.StepStartsAtZero | src/main/java/com/lisb/nfkctextsearch/NFKCTextSearch.java:65-95 | on a platform that never normalises a non-empty text to nothing, one step keeps this invariant: before the first flush no origin is recorded and the buffer starts at 0, and afterwards the first origin is 0 |
| Normalizer.ScanStartsAtZero | src/main/java/com/lisb/nfkctextsearch/NFKCTextSearch.java:65-96 | that invariant holds after every prefix of the text |
| Normalizer.FirstOriginIsZero | src/main/java/com/lisb/nfkctextsearch/NFKCTextSearch.java:58-102 | on such a platform, a non-empty origin map begins with 0 |
| TextSearch.HitSpan | src/main/java/com/lisb/nfkctextsearch/NFKCTextSearch.java:104-125 | an immutable pair `(start, end)` with structural equality, as `equals` at lines 113-120; no ordering |
| TextSearch.IndexOf | src/main/java/com/lisb/nfkctextsearch/NFKCTextSearch.java:33 | Java's `indexOf(str, from)`, including an empty pattern found at `from`, or at the end when `from` lies beyond it; specified by `IndexOfIsFirst` and `IndexOfInside` |
| TextSearch.MatchIndices | src/main/java/com/lisb/nfkctextsearch/NFKCTextSearch.java:30-34 | the hits the loop finds, each searched from just past the previous one; specified by `MatchIndicesAreLeftmost` and `LeftmostHitsUnique` against `LeftmostHits` |
| TextSearch.IndexOfInside | src/main/java/com/lisb/nfkctextsearch/NFKCTextSearch.java:33 | a hit of `indexOf` leaves room for the whole pattern, and lies at or after `from` unless an empty pattern is sought from beyond the end |
| TextSearch.IndexOfIsFirst | src/main/java/com/lisb/nfkctextsearch/NFKCTextSearch.java:33 | `indexOf` returns the first occurrence at or after `from`; it returns none only for a non-empty pattern with no occurrence from `from` on; an empty pattern from beyond the end is found at the end |
| TextSearch.ConsLeftmostHits | src/main/java/com/lisb/nfkctextsearch/NFKCTextSearch.java:33-34 | a first occurrence followed by the leftmost hits from just past it are the leftmost hits |
| TextSearch.TailLeftmostHits | src/main/java/com/lisb/nfkctextsearch/NFKCTextSearch.java:33-34 | conversely, leftmost hits split into a first occurrence and the leftmost hits from just past it |
| TextSearch.MatchIndicesAreLeftmost | src/main/java/com/lisb/nfkctextsearch/NFKCTextSearch.java:30-34 | the hits the loop finds are the leftmost non-overlapping occurrences: each the first at or after the end of the previous, none left after the last |
| TextSearch.LeftmostHitsUnique | src/main/java/com/lisb/nfkctextsearch/NFKCTextSearch.java:30-34 | any sequence of leftmost non-overlapping occurrences is exactly what the loop finds |
| TextSearch.MatchIndicesStep | src/main/java/com/lisb/nfkctextsearch/NFKCTextSearch.java:33-34 | a round that finds `hit` has `position <= hit` and the pattern inside the text, and moves `hit` from the remaining hits to the found ones |
| TextSearch.LeftmostHitsAscend | src/main/java/com/lisb/nfkctextsearch/NFKCTextSearch.java:33-34 | leftmost hits lie inside the text, and each starts at or after the end of the one before: non-overlapping and ascending |
| TextSearch.NextPosition | src/main/java/com/lisb/nfkctextsearch/NFKCTextSearch.java:33-34 | the `position` update of one round: just past the hit found, or none when `indexOf` finds nothing; `CollectedStep` ties it to the loop, and `PositionAdvances` and `EmptyPatternStalls` are stated about it |
| TextSearch.PositionAdvances | src/main/java/com/lisb/nfkctextsearch/NFKCTextSearch.java:33-34 | with a non-empty pattern every round moves `position` strictly forward and never past the end, so the loop ends |
| TextSearch.SpanEnd | src/main/java/com/lisb/nfkctextsearch/NFKCTextSearch.java:36-48 | the end scan as a function: the first origin from a given index on that differs from the compared origin, else the text's length; `FindSpanEnd` is proved equal to it and `SpanEndIsFirstDifference` specifies it |
| TextSearch.SpanEndIsFirstDifference | src/main/java/com/lisb/nfkctextsearch/NFKCTextSearch.java:36-48 | a span's end is the first origin at or after the match's end that differs from the compared origin, or the text's length when all of them equal it |
| TextSearch.FindSpanEnd | src/main/java/com/lisb/nfkctextsearch/NFKCTextSearch.java:36-48 | the inner scan computes exactly that end |
| TextSearch.SpanEndAtMost | src/main/java/com/lisb/nfkctextsearch/NFKCTextSearch.java:37-44 | over ordered origins, the end is at most any later origin that differs from the compared one |
| TextSearch.SpanEndInsideText | src/main/java/com/lisb/nfkctextsearch/NFKCTextSearch.java:37-48 | over origins inside the text, the end is at most the text's length |
| TextSearch.SpanAt | src/main/java/com/lisb/nfkctextsearch/NFKCTextSearch.java:35-49 | the corrected span of one hit: from the origin of its first unit to the first later origin that differs from the origin of its last unit; specified by `SpanAtBounded` and `SpansInOrder` |
| TextSearch.SpanAtAsWritten | src/main/java/com/lisb/nfkctextsearch/NFKCTextSearch.java:35-48 | the code's span of one hit: the end scan compares with the origin of the hit's first unit; specified by `SpanAtAsWrittenBounded` and `SpansInOrderAsWritten` |
| TextSearch.SpanAtAsWrittenBounded | src/main/java/com/lisb/nfkctextsearch/NFKCTextSearch.java:35-48 | with the code's end rule and a well-formed origin map, every span satisfies `0 <= start < end <= |text|` |
| TextSearch.SpansAsWrittenInsideText | src/main/java/com/lisb/nfkctextsearch/NFKCTextSearch.java:33-49 | with the code's end rule, the spans of all hits lie inside the text and are non-empty |
| TextSearch.SpanAtBounded | src/main/java/com/lisb/nfkctextsearch/NFKCTextSearch.java:35-49 | with a non-empty pattern and a well-formed origin map, every span satisfies `0 <= start < end <= |text|` and contains the origin of every unit of its hit |
| TextSearch.SpansInOrder | src/main/java/com/lisb/nfkctextsearch/NFKCTextSearch.java:33-49 | of two non-overlapping hits in order, the later span starts and ends no earlier, and the two overlap only when the later one starts at the origin of the earlier hit's last unit |
| TextSearch.SpansInOrderAsWritten | src/main/java/com/lisb/nfkctextsearch/NFKCTextSearch.java:33-49 | with the code's end rule, the later span starts no earlier, and either shares the start or begins at or after the earlier one's end |
| TextSearch.HitsFitSnoc | src/main/java/com/lisb/nfkctextsearch/NFKCTextSearch.java:35 | a hit with room for the pattern can be added to the found hits |
| TextSearch.SpansOf | src/main/java/com/lisb/nfkctextsearch/NFKCTextSearch.java:30-52 | the `result` list that `result.add` builds: the span of each hit, in order; specified by `SpansOfSnoc`, `SpansInsideText` and `SpansAscend` |
| TextSearch.SpansOfSnoc | src/main/java/com/lisb/nfkctextsearch/NFKCTextSearch.java:49 | adding a hit adds its span at the end of the result |
| TextSearch.SpansInsideText | src/main/java/com/lisb/nfkctextsearch/NFKCTextSearch.java:35-49 | all spans of a search lie inside the text, are non-empty, and each contains the origins of all units of its hit |
| TextSearch.SpansAscend | src/main/java/com/lisb/nfkctextsearch/NFKCTextSearch.java:33-49 | span starts and span ends are non-decreasing, and consecutive spans overlap only when the later one starts at the origin of the earlier hit's last unit |
| TextSearch.Hits | src/main/java/com/lisb/nfkctextsearch/NFKCTextSearch.java:22-53 | the search result: every span inside the searched text and non-empty, starts and ends non-decreasing, and no spans for an empty normalised pattern |
| TextSearch.HitsCoverMatches | src/main/java/com/lisb/nfkctextsearch/NFKCTextSearch.java:30-50 | one span per hit; each span contains the origin of every unit its hit matched; consecutive spans overlap only in the original unit where the earlier hit ends |
| TextSearch.HitsAsWritten | src/main/java/com/lisb/nfkctextsearch/NFKCTextSearch.java:30-50 | the code's search result: one span per hit, each ending at the first later origin that differs from the origin of the hit's first unit, every span inside the searched text and non-empty |
| TextSearch.HitsAsWrittenInOrder | src/main/java/com/lisb/nfkctextsearch/NFKCTextSearch.java:30-50 | with the code's end rule, span starts are non-decreasing and consecutive spans share their start or are disjoint |
| TextSearch.CollectedStep | src/main/java/com/lisb/nfkctextsearch/NFKCTextSearch.java:33-50 | one round keeps the loop invariant (found hits, remaining hits, spans so far) and moves `position` strictly forward, to exactly `NextPosition` |
| TextSearch.CollectHits | src/main/java/com/lisb/nfkctextsearch/NFKCTextSearch.java:30-52 | the search loop returns the spans of exactly the hits `MatchIndices` describes, in order |
| TextSearch.Fold | src/main/java/com/lisb/nfkctextsearch/NFKCTextSearch.java:25-27 | the optional `toUpperCase(Locale.ENGLISH)` applied alike to the text here and to the pattern at lines 16-18; the constructor and `Search` state their results through it |
| TextSearch.NFKCTextSearch.constructor | src/main/java/com/lisb/nfkctextsearch/NFKCTextSearch.java:13-20 | stores `ignoreCase`, and the pattern upper-cased when case is ignored and then normalised |
| TextSearch.NFKCTextSearch.Search | src/main/java/com/lisb/nfkctextsearch/NFKCTextSearch.java:22-53 | upper-cases the text when case is ignored, normalises it, and returns exactly `Hits` of the stored pattern in that text |
| TextSearch.EmptyPatternStalls | src/main/java/com/lisb/nfkctextsearch/NFKCTextSearch.java:33-34 | as written, with an empty pattern a round finds a hit at `position` and leaves `position` unchanged |
| SearchVectors.SurrogatePairExample | src/test/java/com/lisb/nfkctextsearch/NFKCTextSearchTest.java:33-34 | "𠮷" in "𠮷野家𠮷野家", ignoring case, is `[HitSpan(0, 2), HitSpan(4, 6)]` on a platform where every text is normalised and upper-casing changes nothing |
| SearchVectors.SurrogatePairMatches | src/main/java/com/lisb/nfkctextsearch/NFKCTextSearch.java:33-34 | the surrogate pair is found at indices 0 and 4 |
| SearchVectors.SurrogatePairSpans | src/main/java/com/lisb/nfkctextsearch/NFKCTextSearch.java:35-49 | over identity origins each hit of the pair maps back to both halves |
| SearchVectors.DigitsExample | src/test/java/com/lisb/nfkctextsearch/NFKCTextSearchTest.java:15-16 | "234" in "12345" is `[HitSpan(1, 4)]` on a platform where every text is normalised |
| SearchVectors.KiroStep | src/main/java/com/lisb/nfkctextsearch/NFKCTextSearch.java:67-95 | each step of normalising "1㌔2㌔" on a platform that maps only U+3314 to キロ |
| SearchVectors.KiroNormalization | src/main/java/com/lisb/nfkctextsearch/NFKCTextSearch.java:58-102 | on that platform "1㌔2㌔" normalises to "1キロ2キロ" with origins `0, 1, 1, 2, 3, 3` |
| SearchVectors.KiroMatches | src/main/java/com/lisb/nfkctextsearch/NFKCTextSearch.java:33-34 | "キ" is found at indices 1 and 4 of "1キロ2キロ" |
| SearchVectors.KiroSpans | src/main/java/com/lisb/nfkctextsearch/NFKCTextSearch.java:35-49 | those hits map back to `[1, 2)` and `[3, 4)` |
| SearchVectors.KiroExample | src/test/java/com/lisb/nfkctextsearch/NFKCTextSearchTest.java:28-29 | "キ" in "1㌔2㌔" is `[HitSpan(1, 2), HitSpan(3, 4)]` |
| SearchVectors.KiroPairMatches | src/main/java/com/lisb/nfkctextsearch/NFKCTextSearch.java:33-34 | "キロ" is found at indices 1 and 4 of "1キロ2キロ" |
| SearchVectors.KiroPairExample | src/test/java/com/lisb/nfkctextsearch/NFKCTextSearchTest.java:26-27 | "キロ" in "1㌔2㌔" is `[HitSpan(1, 2), HitSpan(3, 4)]` |
| SearchVectors.KiroPairNormalization | src/main/java/com/lisb/nfkctextsearch/NFKCTextSearch.java:58-102 | on the U+3314 platform "㌔㌔" normalises to "キロキロ" with origins `0, 0, 1, 1` |
| SearchVectors.RoKiMatches | src/main/java/com/lisb/nfkctextsearch/NFKCTextSearch.java:33-34 | "ロキ" is found once in "キロキロ", at index 1 |
| SearchVectors.RoKiAsWritten | src/main/java/com/lisb/nfkctextsearch/NFKCTextSearch.java:35-49 | as written, "ロキ" in "㌔㌔" is `[HitSpan(0, 1)]`, although the hit's last unit originates at offset 1 |
| SearchVectors.RoKiExample | src/test/java/com/lisb/nfkctextsearch/NFKCTextSearchTest.java:30-31 | with the corrected end rule, "ロキ" in "㌔㌔" is `[HitSpan(0, 2)]` |
| SearchVectors.RepeatedSpans | src/main/java/com/lisb/nfkctextsearch/NFKCTextSearch.java:33-49 | on a platform mapping "A" to "BB", "B" in "A" is `[HitSpan(0, 1), HitSpan(0, 1)]`: two hits, one span, twice |

## Left out

- NFKC itself: `isNormalized` and `normalize` are arbitrary functions of a text. Results that depend on the real Unicode tables are not modelled: full-width letters, combining-mark recomposition, and the test vectors built on them. The replayed examples use the stand-in platforms `SearchVectors.Plain`, `SearchVectors.Kiro` and `SearchVectors.Doubling`.
- `toUpperCase(Locale.ENGLISH)` is an arbitrary function too. It is applied alike to the pattern and the text, and spans index its result.
- No claim is made that the output equals the full NFKC of the text: the one-unit lookahead does not promise it.
- No claim is made that surrogate pairs stay together: the loop works per code unit, and the two halves of a pair can get different origins.
- Normalizer.FirstOriginIsZero: assumes a platform that never normalises a non-empty text to the empty text. Without that, a first candidate erased by normalisation leaves a non-zero first origin.
- `HitSpan.hashCode` and `HitSpan.toString` are not modelled. They are a hash formula and formatting only.
- Java `int` overflow of offsets, list capacity hints and memory limits are not modelled: offsets are unbounded integers.
- On an empty normalised pattern with an empty text, the unguarded source would call `startPositions.get(0)` on an empty list and throw. The model returns `[]` there, as it does for every empty pattern.
- TextSearch.Hits: does not state that consecutive spans share their start or are disjoint. With the corrected end rule a span can reach into the original unit where the next hit begins; `TextSearch.HitsCoverMatches` states the exact relation, and `TextSearch.HitsAsWrittenInOrder` keeps the old one for the code's rule.
- Thread safety is not modelled: nothing in the library is concurrent.

## Findings

| source | as written | input that shows it | evidently intended | confidence | as-written member | corrected member |
|---|---|---|---|---|---|---|
| src/main/java/com/lisb/nfkctextsearch/NFKCTextSearch.java:33-34 | an empty normalised pattern is found at `position`, and `position` advances by its length, zero, so the loop never ends | pattern "" with text "ABCDE" (NFKCTextSearchTest.java:36 expects an empty list) | an empty normalised pattern yields no spans | not executed | TextSearch.EmptyPatternStalls | TextSearch.NFKCTextSearch.Search |
| src/main/java/com/lisb/nfkctextsearch/NFKCTextSearch.java:35-44 | the end scan compares later origins with `start`, the origin of the hit's first unit, so a hit that ends inside the expansion of a later original unit gets a span that stops before that unit | "ロキ" in "㌔㌔": origins `0, 0, 1, 1`, hit at 1, span `[0, 1)` (NFKCTextSearchTest.java:30-31 expects `[0, 2)`) | compare with the origin of the hit's last unit, so that the span contains every matched unit's origin | not executed | SearchVectors.RoKiAsWritten | TextSearch.HitsCoverMatches |
