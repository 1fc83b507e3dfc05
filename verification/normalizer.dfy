/**
 * The incremental normaliser: one left-to-right pass over the code units
 * of a text that keeps a small pending buffer, flushes it once the next
 * unit can no longer change it, and records for every emitted unit the
 * offset in the original text where its contribution began.
 */
module Normalizer {
  import opened Unicode

  /** The loop state after some prefix of the text has been consumed: what
      has been flushed so far, its origin offsets, the pending buffer and
      the offset the buffer started at. */
  datatype Progress = Progress(
    dest: Text,
    startPositions: seq<int>,
    buffer: Text,
    bufferStartPosition: int)

  /** The normalised text with one origin offset per unit. */
  datatype Normalization = Normalization(text: Text, startPositions: seq<int>)

  predicate StartsWith(s: Text, prefix: Text) {
    |prefix| <= |s| && s[..|prefix|] == prefix
  }

  function Copies(value: int, count: nat): seq<int> {
    seq(count, _ => value)
  }

  predicate NonDecreasing(s: seq<int>) {
    forall i, j :: 0 <= i <= j < |s| ==> s[i] <= s[j]
  }

  /** The identity origin map 0, 1, ..., n - 1. */
  function Identity(n: nat): seq<int> {
    seq(n, j => j)
  }

  /** The initial state: nothing flushed, an empty buffer starting at 0. */
  function Start(): Progress {
    Progress([], [], [], 0)
  }

  /** One iteration of the loop, consuming unit `c` found at offset `i`. */
  function Step(p: Platform, s: Progress, c: CodeUnit, i: int): Progress {
    var nextBufferText := s.buffer + [c];
    if !p.isNormalized(nextBufferText) then
      var normalizedText := p.normalize(nextBufferText);
      if StartsWith(normalizedText, s.buffer) then
        // the buffered units survive unchanged: flush them, keep the new tail
        Progress(s.dest + s.buffer,
                 s.startPositions + Copies(s.bufferStartPosition, |s.buffer|),
                 normalizedText[|s.buffer|..], i)
      else
        // normalisation reached back into the buffer: rewrite it, flush nothing
        Progress(s.dest, s.startPositions, normalizedText, s.bufferStartPosition)
    else
      Progress(s.dest + s.buffer,
               s.startPositions + Copies(s.bufferStartPosition, |s.buffer|),
               [c], i)
  }

  /** The loop state after the first `k` units of `text`. */
  function Scan(p: Platform, text: Text, k: nat): Progress
    requires k <= |text|
  {
    if k == 0 then Start() else Step(p, Scan(p, text, k - 1), text[k - 1], k - 1)
  }

  /** What the normaliser appends: the state after the whole text, with the
      remaining buffer flushed at its start offset. */
  function Normalized(p: Platform, text: Text): Normalization {
    var s := Scan(p, text, |text|);
    Normalization(s.dest + s.buffer,
                  s.startPositions + Copies(s.bufferStartPosition, |s.buffer|))
  }

  /** The loop invariant of the normaliser after `k` units, whatever the
      platform returns: one origin per flushed unit, origins non-decreasing
      and bounded by the buffer's start, which never passes the unit last
      consumed. */
  predicate Consistent(s: Progress, k: nat) {
    && |s.startPositions| == |s.dest|
    && NonDecreasing(s.startPositions)
    && (forall j :: 0 <= j < |s.startPositions| ==>
          0 <= s.startPositions[j] <= s.bufferStartPosition)
    && 0 <= s.bufferStartPosition
    && (k == 0 ==> s.buffer == [] && s.bufferStartPosition == 0)
    && (k > 0 ==> s.bufferStartPosition < k)
  }

  /** Flushing `n` units at offset `v` keeps the origins ordered when `v`
      is at least every origin recorded so far. */
  lemma FlushKeepsOrder(origins: seq<int>, v: int, n: nat)
    requires NonDecreasing(origins)
    requires forall j :: 0 <= j < |origins| ==> origins[j] <= v
    ensures NonDecreasing(origins + Copies(v, n))
  {
    var r := origins + Copies(v, n);
    forall i, j | 0 <= i <= j < |r| ensures r[i] <= r[j] {
      if j >= |origins| {
        assert r[j] == v;
      }
    }
  }

  /** One iteration keeps the loop invariant. */
  lemma StepKeepsConsistent(p: Platform, s: Progress, c: CodeUnit, i: nat)
    requires Consistent(s, i)
    ensures Consistent(Step(p, s, c, i), i + 1)
  {
    FlushKeepsOrder(s.startPositions, s.bufferStartPosition, |s.buffer|);
  }

  lemma {:induction false} ScanInvariant(p: Platform, text: Text, k: nat)
    requires k <= |text|
    ensures Consistent(Scan(p, text, k), k)
  {
    if k > 0 {
      ScanInvariant(p, text, k - 1);
      StepKeepsConsistent(p, Scan(p, text, k - 1), text[k - 1], k - 1);
    }
  }

  /** Exactly one origin per normalised unit. */
  lemma OneOriginPerUnit(p: Platform, text: Text)
    ensures |Normalized(p, text).startPositions| == |Normalized(p, text).text|
  {
    ScanInvariant(p, text, |text|);
  }

  /** The origin map is well formed for any platform: exactly one origin per
      normalised unit, non-decreasing, each inside the original text; an
      empty text yields nothing at all. */
  lemma OriginMapWellFormed(p: Platform, text: Text)
    ensures var r := Normalized(p, text);
      && |r.startPositions| == |r.text|
      && NonDecreasing(r.startPositions)
      && (forall j :: 0 <= j < |r.startPositions| ==> 0 <= r.startPositions[j] < |text|)
      && (text == [] ==> r == Normalization([], []))
  {
    var s := Scan(p, text, |text|);
    ScanInvariant(p, text, |text|);
    FlushKeepsOrder(s.startPositions, s.bufferStartPosition, |s.buffer|);
  }

  /** The window the loop tests at offset `i` when every earlier test found
      its candidate already normalised: the previous unit and this one. */
  function Window(text: Text, i: nat): Text
    requires i < |text|
  {
    if i == 0 then text[..1] else text[i - 1..i + 1]
  }

  predicate StableWindows(p: Platform, text: Text) {
    forall i :: 0 <= i < |text| ==> p.isNormalized(Window(text, i))
  }

  /** A step whose candidate is already normalised flushes the buffer and
      restarts it with the new unit. */
  lemma StepOnNormalized(p: Platform, s: Progress, c: CodeUnit, i: int)
    requires p.isNormalized(s.buffer + [c])
    ensures Step(p, s, c, i)
      == Progress(s.dest + s.buffer, s.startPositions + Copies(s.bufferStartPosition, |s.buffer|), [c], i)
  {
  }

  lemma IdentityGrows(n: nat)
    ensures Identity(n) + Copies(n, 1) == Identity(n + 1)
  {
    assert Copies(n, 1) == [n];
  }

  lemma PrefixGrows(text: Text, n: nat)
    requires n < |text|
    ensures text[..n] + [text[n]] == text[..n + 1]
  {
  }

  /** The loop state after `k` units of a text whose windows are all
      normalised: everything but the last unit flushed at its own offset,
      the last unit buffered. */
  function StableState(text: Text, k: nat): Progress
    requires k <= |text|
  {
    if k == 0 then Start() else Progress(text[..k - 1], Identity(k - 1), [text[k - 1]], k - 1)
  }

  lemma StableStateStep(p: Platform, text: Text, k: nat)
    requires 0 < k <= |text|
    requires p.isNormalized(Window(text, k - 1))
    ensures Step(p, StableState(text, k - 1), text[k - 1], k - 1) == StableState(text, k)
  {
    var s := StableState(text, k - 1);
    assert Window(text, k - 1) == s.buffer + [text[k - 1]];
    StepOnNormalized(p, s, text[k - 1], k - 1);
    if k > 1 {
      PrefixGrows(text, k - 2);
      IdentityGrows(k - 2);
    }
  }

  lemma {:induction false} ScanStable(p: Platform, text: Text, k: nat)
    requires k <= |text|
    requires StableWindows(p, text)
    ensures Scan(p, text, k) == StableState(text, k)
  {
    if k > 0 {
      ScanStable(p, text, k - 1);
      StableStateStep(p, text, k);
    }
  }

  /** When every candidate the loop tests is already normalised, the text is
      passed through verbatim and the origin map is the identity. */
  lemma IdentityOnStableText(p: Platform, text: Text)
    requires StableWindows(p, text)
    ensures Normalized(p, text) == Normalization(text, Identity(|text|))
  {
    ScanStable(p, text, |text|);
    if |text| > 0 {
      PrefixGrows(text, |text| - 1);
      IdentityGrows(|text| - 1);
      assert text[..|text|] == text;
    }
  }

  /** A platform whose normalisation never erases a non-empty text. */
  ghost predicate NonErasing(p: Platform) {
    forall s: Text :: s != [] ==> p.normalize(s) != []
  }

  /** What a non-erasing platform guarantees after `k` units: until the
      first flush nothing is recorded and the buffer starts at 0 (and holds
      something once a unit has been consumed); after it, the first origin
      is 0. */
  predicate StartsAtZero(s: Progress, k: nat) {
    && |s.startPositions| == |s.dest|
    && (s.dest == [] ==> s.startPositions == [] && s.bufferStartPosition == 0)
    && (s.dest == [] && k > 0 ==> s.buffer != [])
    && (s.startPositions != [] ==> s.startPositions[0] == 0)
  }

  lemma StepStartsAtZero(p: Platform, s: Progress, c: CodeUnit, i: nat)
    requires NonErasing(p)
    requires StartsAtZero(s, i)
    ensures StartsAtZero(Step(p, s, c, i), i + 1)
  {
    var candidate := s.buffer + [c];
    if !p.isNormalized(candidate) {
      assert candidate != [];
      assert p.normalize(candidate) != [];
    }
  }

  lemma {:induction false} ScanStartsAtZero(p: Platform, text: Text, k: nat)
    requires k <= |text|
    requires NonErasing(p)
    ensures StartsAtZero(Scan(p, text, k), k)
  {
    if k > 0 {
      ScanStartsAtZero(p, text, k - 1);
      StepStartsAtZero(p, Scan(p, text, k - 1), text[k - 1], k - 1);
    }
  }

  /** The first normalised unit originates at offset 0, provided the
      platform never normalises a non-empty text to nothing. */
  lemma FirstOriginIsZero(p: Platform, text: Text)
    requires NonErasing(p)
    ensures var r := Normalized(p, text);
      r.startPositions != [] ==> r.startPositions[0] == 0
  {
    ScanStartsAtZero(p, text, |text|);
  }

  /** Concatenation regroups; the solver does not see this unaided inside
      the loops below. */
  lemma AppendAssociates<T>(a: seq<T>, b: seq<T>, c: seq<T>)
    ensures (a + b) + c == a + (b + c)
  {
  }

  /** Appends `count` copies of `value` to `list`, one at a time. */
  method AppendCopies(list: OffsetList, value: int, count: nat)
    modifies list
    ensures list.items == old(list.items) + Copies(value, count)
  {
    for j := 0 to count
      invariant list.items == old(list.items) + Copies(value, j)
    {
      assert Copies(value, j + 1) == Copies(value, j) + [value];
      list.Add(value);
    }
  }

  /** Normalises `text`, appending the result to `dest` and one origin offset
      per appended unit to `startPositions`; what they held before is kept. */
  method Normalize(p: Platform, text: Text, dest: TextBuilder, startPositions: OffsetList)
    modifies dest, startPositions
    ensures dest.contents == old(dest.contents) + Normalized(p, text).text
    ensures startPositions.items == old(startPositions.items) + Normalized(p, text).startPositions
  {
    var length := |text|;
    var buffer: Text := [];
    var bufferStartPosition := 0;

    for i := 0 to length
      invariant dest.contents == old(dest.contents) + Scan(p, text, i).dest
      invariant startPositions.items == old(startPositions.items) + Scan(p, text, i).startPositions
      invariant buffer == Scan(p, text, i).buffer
      invariant bufferStartPosition == Scan(p, text, i).bufferStartPosition
    {
      var bufferLength := |buffer|;
      var nextBufferText := buffer + [text[i]];
      if !p.isNormalized(nextBufferText) {
        var normalizedText := p.normalize(nextBufferText);
        if StartsWith(normalizedText, buffer) {
          AppendAssociates(old(dest.contents), Scan(p, text, i).dest, buffer);
          AppendAssociates(old(startPositions.items), Scan(p, text, i).startPositions, Copies(bufferStartPosition, bufferLength));
          dest.Append(buffer[..bufferLength]);
          buffer := normalizedText[bufferLength..];
          AppendCopies(startPositions, bufferStartPosition, bufferLength);
          bufferStartPosition := i;
        } else {
          buffer := normalizedText;
        }
      } else {
        AppendAssociates(old(dest.contents), Scan(p, text, i).dest, buffer);
        AppendAssociates(old(startPositions.items), Scan(p, text, i).startPositions, Copies(bufferStartPosition, bufferLength));
        dest.Append(buffer);
        buffer := [text[i]];
        AppendCopies(startPositions, bufferStartPosition, bufferLength);
        bufferStartPosition := i;
      }
    }

    dest.Append(buffer);
    AppendCopies(startPositions, bufferStartPosition, |buffer|);
  }
}
