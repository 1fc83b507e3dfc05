/**
 * Search examples from NFKCTextSearchTest.java, replayed on small stand-in
 * platforms that implement just enough of NFKC for each example, with the
 * span the code as written computes for one of them, and a platform on
 * which two hits share one span.
 */
module SearchVectors {
  import opened Unicode
  import opened Normalizer
  import opened TextSearch

  /** A platform on which every text is already normalised. */
  function Plain(): Platform {
    Platform(s => true, s => s, s => s)
  }

  const SQUARE_KIRO: CodeUnit := 0x3314
  const KATAKANA_KI: CodeUnit := 0x30AD
  const KATAKANA_RO: CodeUnit := 0x30ED

  /** Expands every U+3314 SQUARE KIRO into KATAKANA KI, KATAKANA RO. */
  function ExpandKiro(s: Text): Text {
    if s == [] then []
    else (if s[0] == SQUARE_KIRO then [KATAKANA_KI, KATAKANA_RO] else [s[0]]) + ExpandKiro(s[1..])
  }

  /** A platform whose only compatibility mapping is U+3314. */
  function Kiro(): Platform {
    Platform(s => SQUARE_KIRO !in s, ExpandKiro, s => s)
  }

  /** "234" in "12345" is the span [1, 4). */
  lemma DigitsExample()
    ensures Hits(Plain(), [0x32, 0x33, 0x34], [0x31, 0x32, 0x33, 0x34, 0x35]) == [HitSpan(1, 4)]
  {
    var text: Text := [0x31, 0x32, 0x33, 0x34, 0x35];
    var pattern: Text := [0x32, 0x33, 0x34];
    IdentityOnStableText(Plain(), text);
    assert text[0..3][0] != pattern[0];
    assert text[1..4] == pattern;
    assert IndexOf(text, pattern, 0) == Some(1);
    assert MatchIndices(text, pattern, 4) == [];
    assert Identity(5)[4] == 4;
  }

  const YOSHINOYA_TEXT: Text := [0xD842, 0xDFB7, 0x91CE, 0x5BB6, 0xD842, 0xDFB7, 0x91CE, 0x5BB6]
  const YOSHI: Text := [0xD842, 0xDFB7]

  /** "𠮷" (a surrogate pair) in "𠮷野家𠮷野家", ignoring case: upper-casing
      leaves these units alone, every window is already normalised, and the
      two halves of each pair get their own origins, so each hit spans both
      halves: [0, 2) and [4, 6). */
  lemma SurrogatePairExample()
    ensures var p := Plain();
      Hits(p, p.normalize(Fold(p, true, YOSHI)), Fold(p, true, YOSHINOYA_TEXT)) == [HitSpan(0, 2), HitSpan(4, 6)]
  {
    assert Fold(Plain(), true, YOSHI) == YOSHI;
    assert Fold(Plain(), true, YOSHINOYA_TEXT) == YOSHINOYA_TEXT;
    IdentityOnStableText(Plain(), YOSHINOYA_TEXT);
    SurrogatePairMatches();
    SurrogatePairSpans();
  }

  /** The pair is found at indices 0 and 4. */
  lemma SurrogatePairMatches()
    ensures MatchIndices(YOSHINOYA_TEXT, YOSHI, 0) == [0, 4]
  {
    var text, pattern := YOSHINOYA_TEXT, YOSHI;
    assert text[0..2] == pattern;
    assert text[2..4][0] != pattern[0];
    assert text[3..5][0] != pattern[0];
    assert text[4..6] == pattern;
    assert IndexOf(text, pattern, 2) == Some(4);
    assert text[6..8][0] != pattern[0];
    assert IndexOf(text, pattern, 6) == None;
    assert MatchIndices(text, pattern, 2) == [4];
  }

  /** Over the identity origins each hit of the pair maps back to both of
      its halves. */
  lemma SurrogatePairSpans()
    ensures SpansOf(Identity(8), [0, 4], 2, 8) == [HitSpan(0, 2), HitSpan(4, 6)]
  {
    var origins := Identity(8);
    assert origins[1] == 1 && origins[2] == 2 && origins[5] == 5 && origins[6] == 6;
    assert SpanEnd(origins, 2, 1, 8) == 2;
    assert SpanEnd(origins, 6, 5, 8) == 6;
  }

  const KIRO_TEXT: Text := [0x31, SQUARE_KIRO, 0x32, SQUARE_KIRO]
  const KIRO_NORMALIZED: Text := [0x31, KATAKANA_KI, KATAKANA_RO, 0x32, KATAKANA_KI, KATAKANA_RO]

  /** A unit followed by the square character: the candidate is not
      normalised, its expansion keeps the unit in front, so the unit is
      flushed at `bufferStartPosition` and the expansion is buffered from `i`. */
  lemma ExpandAfter(s: Progress, c: CodeUnit, i: int)
    requires c != SQUARE_KIRO && s.buffer == [c]
    ensures Step(Kiro(), s, SQUARE_KIRO, i)
      == Progress(s.dest + [c], s.startPositions + [s.bufferStartPosition], [KATAKANA_KI, KATAKANA_RO], i)
  {
    var candidate := [c, SQUARE_KIRO];
    assert candidate[1..] == [SQUARE_KIRO];
    assert ExpandKiro([SQUARE_KIRO]) == [KATAKANA_KI, KATAKANA_RO];
    var expanded := ExpandKiro(candidate);
    assert expanded == [c, KATAKANA_KI, KATAKANA_RO];
    assert StartsWith(expanded, [c]);
    assert expanded[1..] == [KATAKANA_KI, KATAKANA_RO];
    assert Copies(s.bufferStartPosition, 1) == [s.bufferStartPosition];
  }

  /** The loop state after each prefix of "1㌔2㌔". */
  function KiroState(k: nat): Progress
    requires k <= 4
  {
    match k
    case 0 => Start()
    case 1 => Progress([], [], [0x31], 0)
    case 2 => Progress([0x31], [0], [KATAKANA_KI, KATAKANA_RO], 1)
    case 3 => Progress([0x31, KATAKANA_KI, KATAKANA_RO], [0, 1, 1], [0x32], 2)
    case 4 => Progress([0x31, KATAKANA_KI, KATAKANA_RO, 0x32], [0, 1, 1, 2], [KATAKANA_KI, KATAKANA_RO], 3)
  }

  /** "1" is kept as is; "1㌔" expands and flushes "1"; "キロ2" is already
      normalised and flushes "キロ"; "2㌔" expands and flushes "2". */
  lemma KiroStep(k: nat)
    requires 1 <= k <= 4
    ensures Step(Kiro(), KiroState(k - 1), KIRO_TEXT[k - 1], k - 1) == KiroState(k)
  {
    match k
    case 1 =>
      StepOnNormalized(Kiro(), Start(), 0x31, 0);
    case 2 =>
      ExpandAfter(KiroState(1), 0x31, 1);
    case 3 =>
      StepOnNormalized(Kiro(), KiroState(2), 0x32, 2);
    case 4 =>
      ExpandAfter(KiroState(3), 0x32, 3);
  }

  /** "1㌔2㌔" normalises to "1キロ2キロ"; both units of each expansion
      originate at the square character they came from. */
  lemma KiroNormalization()
    ensures Normalized(Kiro(), KIRO_TEXT) == Normalization(KIRO_NORMALIZED, [0, 1, 1, 2, 3, 3])
  {
    for k := 1 to 5
      invariant Scan(Kiro(), KIRO_TEXT, k - 1) == KiroState(k - 1)
    {
      KiroStep(k);
    }
    assert Copies(3, 2) == [3, 3];
  }

  lemma KiroMatches()
    ensures MatchIndices(KIRO_NORMALIZED, [KATAKANA_KI], 0) == [1, 4]
  {
    var normalized, pattern := KIRO_NORMALIZED, [KATAKANA_KI];
    assert normalized[0..1][0] != pattern[0];
    assert normalized[1..2] == pattern;
    assert IndexOf(normalized, pattern, 0) == Some(1);
    assert normalized[2..3][0] != pattern[0];
    assert normalized[3..4][0] != pattern[0];
    assert normalized[4..5] == pattern;
    assert IndexOf(normalized, pattern, 4) == Some(4);
    assert IndexOf(normalized, pattern, 3) == Some(4);
    assert IndexOf(normalized, pattern, 2) == Some(4);
    assert normalized[5..6][0] != pattern[0];
    assert IndexOf(normalized, pattern, 5) == None;
    assert MatchIndices(normalized, pattern, 5) == [];
    assert MatchIndices(normalized, pattern, 2) == [4];
  }

  /** "キ" in "1㌔2㌔" is found inside each square character: [1, 2) and
      [3, 4). */
  lemma KiroExample()
    ensures Hits(Kiro(), [KATAKANA_KI], KIRO_TEXT) == [HitSpan(1, 2), HitSpan(3, 4)]
  {
    KiroNormalization();
    KiroMatches();
    KiroSpans();
  }

  /** Each hit of the one-unit pattern runs to the next differing origin. */
  lemma KiroSpans()
    ensures SpansOf([0, 1, 1, 2, 3, 3], [1, 4], 1, 4) == [HitSpan(1, 2), HitSpan(3, 4)]
  {
    var origins := [0, 1, 1, 2, 3, 3];
    assert SpanEnd(origins, 2, 1, 4) == SpanEnd(origins, 3, 1, 4) == 2;
    assert SpanEnd(origins, 5, 3, 4) == SpanEnd(origins, 6, 3, 4) == 4;
  }

  /** "キロ" in "1㌔2㌔" is found once per square character: [1, 2) and
      [3, 4). */
  lemma KiroPairExample()
    ensures Hits(Kiro(), [KATAKANA_KI, KATAKANA_RO], KIRO_TEXT) == [HitSpan(1, 2), HitSpan(3, 4)]
  {
    KiroNormalization();
    KiroPairMatches();
    var origins := [0, 1, 1, 2, 3, 3];
    assert SpanEnd(origins, 3, 1, 4) == 2;
    assert SpanEnd(origins, 6, 3, 4) == 4;
  }

  lemma KiroPairMatches()
    ensures MatchIndices(KIRO_NORMALIZED, [KATAKANA_KI, KATAKANA_RO], 0) == [1, 4]
  {
    var normalized, pattern := KIRO_NORMALIZED, [KATAKANA_KI, KATAKANA_RO];
    assert normalized[0..2][0] != pattern[0];
    assert normalized[1..3] == pattern;
    assert IndexOf(normalized, pattern, 0) == Some(1);
    assert normalized[3..5][0] != pattern[0];
    assert normalized[4..6] == pattern;
    assert IndexOf(normalized, pattern, 3) == Some(4);
    assert MatchIndices(normalized, pattern, 6) == [];
    assert MatchIndices(normalized, pattern, 3) == [4];
  }

  const KIRO_PAIR: Text := [SQUARE_KIRO, SQUARE_KIRO]
  const KIRO_PAIR_NORMALIZED: Text := [KATAKANA_KI, KATAKANA_RO, KATAKANA_KI, KATAKANA_RO]

  /** "㌔㌔" normalises to "キロキロ": the first expansion is buffered, and
      flushed when the second square character expands behind it. */
  lemma KiroPairNormalization()
    ensures Normalized(Kiro(), KIRO_PAIR) == Normalization(KIRO_PAIR_NORMALIZED, [0, 0, 1, 1])
  {
    var expansion := [KATAKANA_KI, KATAKANA_RO];
    assert ExpandKiro([SQUARE_KIRO]) == expansion;
    assert Scan(Kiro(), KIRO_PAIR, 1) == Progress([], [], expansion, 0);
    var candidate := expansion + [SQUARE_KIRO];
    assert candidate[1..][1..] == [SQUARE_KIRO];
    assert ExpandKiro(candidate) == KIRO_PAIR_NORMALIZED;
    assert StartsWith(KIRO_PAIR_NORMALIZED, expansion);
    assert KIRO_PAIR_NORMALIZED[2..] == expansion;
    assert Copies(0, 2) == [0, 0];
    assert Scan(Kiro(), KIRO_PAIR, 2) == Progress(expansion, [0, 0], expansion, 1);
    assert Copies(1, 2) == [1, 1];
  }

  /** "ロキ" occurs in "キロキロ" once, across the two expansions. */
  lemma RoKiMatches()
    ensures MatchIndices(KIRO_PAIR_NORMALIZED, [KATAKANA_RO, KATAKANA_KI], 0) == [1]
  {
    var normalized, pattern := KIRO_PAIR_NORMALIZED, [KATAKANA_RO, KATAKANA_KI];
    assert normalized[0..2][0] != pattern[0];
    assert normalized[1..3] == pattern;
    assert IndexOf(normalized, pattern, 0) == Some(1);
    assert IndexOf(normalized, pattern, 3) == None;
  }

  /** As written, "ロキ" in "㌔㌔" is reported as [0, 1): the span stops at
      the second square character, although the hit's last unit, at index 2
      of the normalised text, originates there. */
  lemma RoKiAsWritten()
    ensures HitsAsWritten(Kiro(), [KATAKANA_RO, KATAKANA_KI], KIRO_PAIR) == [HitSpan(0, 1)]
    ensures Normalized(Kiro(), KIRO_PAIR).startPositions == [0, 0, 1, 1]
  {
    KiroPairNormalization();
    RoKiMatches();
    assert SpanEnd([0, 0, 1, 1], 3, 0, 2) == 1;
  }

  /** With the end taken past the origin of the hit's last unit, "ロキ" in
      "㌔㌔" is [0, 2), covering both square characters. */
  lemma RoKiExample()
    ensures Hits(Kiro(), [KATAKANA_RO, KATAKANA_KI], KIRO_PAIR) == [HitSpan(0, 2)]
  {
    KiroPairNormalization();
    RoKiMatches();
    var origins := [0, 0, 1, 1];
    assert SpanEnd(origins, 3, 1, 2) == SpanEnd(origins, 4, 1, 2) == 2;
  }

  const LETTER_A: CodeUnit := 0x41
  const LETTER_B: CodeUnit := 0x42

  /** Expands every "A" into "BB". */
  function DoubleA(s: Text): Text {
    if s == [] then []
    else (if s[0] == LETTER_A then [LETTER_B, LETTER_B] else [s[0]]) + DoubleA(s[1..])
  }

  /** A stand-in platform whose only mapping is "A" to "BB". */
  function Doubling(): Platform {
    Platform(s => LETTER_A !in s, DoubleA, s => s)
  }

  /** Two hits inside the expansion of one original unit are reported as
      the same span, twice. */
  lemma RepeatedSpans()
    ensures Hits(Doubling(), [LETTER_B], [LETTER_A]) == [HitSpan(0, 1), HitSpan(0, 1)]
  {
    var normalized, pattern := [LETTER_B, LETTER_B], [LETTER_B];
    assert DoubleA([LETTER_A]) == normalized;
    assert Scan(Doubling(), [LETTER_A], 1) == Progress([], [], normalized, 0);
    assert Normalized(Doubling(), [LETTER_A]) == Normalization(normalized, [0, 0]);
    assert normalized[0..1] == pattern;
    assert normalized[1..2] == pattern;
    assert IndexOf(normalized, pattern, 1) == Some(1);
    assert MatchIndices(normalized, pattern, 2) == [];
    assert MatchIndices(normalized, pattern, 0) == [0, 1];
    assert SpanEnd([0, 0], 1, 0, 1) == 1;
  }
}
