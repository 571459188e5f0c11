/** Word-level changes within a pair of lines (apdiff-viewer/src/diff/word_diff.rs). Offsets count
    characters. */
module DiffWords {
  import opened Prelude

  datatype ChangeType = Insert | Delete | Equal

  datatype Segment = Segment(text: string, change: ChangeType, start: nat, end: nat)

  /** One step of an edit script, on one word. */
  datatype Edit = Edit(tag: ChangeType, value: string)

  /** The characters that Unicode gives the White_Space property. */
  predicate IsWhitespace(c: char) {
    var n := c as int;
    || 9 <= n <= 13 || n == 0x20 || n == 0x85 || n == 0xA0 || n == 0x1680 || 0x2000 <= n <= 0x200A
    || n == 0x2028 || n == 0x2029 || n == 0x202F || n == 0x205F || n == 0x3000
  }

  predicate IsWhitespaceOnly(text: string) {
    text != "" && forall i :: 0 <= i < |text| ==> IsWhitespace(text[i])
  }

  function Concat(parts: seq<string>): string {
    if parts == [] then "" else parts[0] + Concat(parts[1..])
  }

  // Splitting -----------------------------------------------------------------------------------

  predicate Boundary(text: string, i: nat)
    requires 0 < i < |text|
  {
    IsWhitespace(text[i - 1]) != IsWhitespace(text[i])
  }

  /** The places, from `i` on, where the kind of character changes, and the end. */
  function CutsFrom(text: string, i: nat): (cuts: seq<nat>)
    requires 0 < i <= |text|
    ensures cuts != [] && i <= cuts[0] && cuts[|cuts| - 1] == |text|
    ensures forall k :: 0 < k < |cuts| ==> cuts[k - 1] < cuts[k]
    ensures forall k :: 0 <= k < |cuts| - 1 ==> i <= cuts[k] < |text| && Boundary(text, cuts[k])
    ensures forall j :: i <= j < |text| && Boundary(text, j) ==> j in cuts
    decreases |text| - i
  {
    if i == |text| then [|text|]
    else (if Boundary(text, i) then [i] else []) + CutsFrom(text, i + 1)
  }

  function Windows(text: string, cuts: seq<nat>): seq<string>
    requires cuts != [] && cuts[|cuts| - 1] <= |text|
    requires forall k :: 0 < k < |cuts| ==> cuts[k - 1] < cuts[k]
  {
    if |cuts| == 1 then []
    else
      CutsOrdered(cuts);
      [text[cuts[0]..cuts[1]]] + Windows(text, cuts[1..])
  }

  lemma {:induction false} CutsOrdered(cuts: seq<nat>)
    requires cuts != [] && forall k :: 0 < k < |cuts| ==> cuts[k - 1] < cuts[k]
    ensures forall k :: 0 <= k < |cuts| ==> cuts[k] <= cuts[|cuts| - 1]
    ensures forall j, k :: 0 <= j < k < |cuts| ==> cuts[j] < cuts[k]
  {
    if |cuts| > 1 {
      CutsOrdered(cuts[..|cuts| - 1]);
      assert forall k :: 0 < k < |cuts| - 1 ==> cuts[..|cuts| - 1][k] == cuts[k];
    }
  }

  function SplitIntoWords(text: string): seq<string> {
    if text == "" then [] else Windows(text, [0] + CutsFrom(text, 1))
  }

  predicate WindowAt(text: string, cuts: seq<nat>, words: seq<string>, k: nat) {
    && k < |words| && k + 1 < |cuts| && cuts[k] < cuts[k + 1] <= |text|
    && words[k] == text[cuts[k]..cuts[k + 1]]
  }

  lemma {:induction false} WindowsCover(text: string, cuts: seq<nat>)
    requires cuts != [] && cuts[|cuts| - 1] == |text|
    requires forall k :: 0 < k < |cuts| ==> cuts[k - 1] < cuts[k]
    ensures |Windows(text, cuts)| == |cuts| - 1
    ensures cuts[0] <= |text| && Concat(Windows(text, cuts)) == text[cuts[0]..]
    ensures forall k :: 0 <= k < |cuts| - 1 ==> WindowAt(text, cuts, Windows(text, cuts), k)
  {
    CutsOrdered(cuts);
    if |cuts| > 1 {
      WindowsCover(text, cuts[1..]);
      assert text[cuts[0]..] == text[cuts[0]..cuts[1]] + text[cuts[1]..];
      forall k | 0 <= k < |cuts| - 1 ensures WindowAt(text, cuts, Windows(text, cuts), k) {
        if k > 0 { assert WindowAt(text, cuts[1..], Windows(text, cuts[1..]), k - 1); }
      }
    }
  }

  /** All of one kind, whitespace or not. */
  predicate Uniform(word: string) {
    word != "" && forall i :: 0 <= i < |word| ==> IsWhitespace(word[i]) == IsWhitespace(word[0])
  }

  predicate OtherKind(words: seq<string>, k: nat)
    requires 0 < k < |words|
  {
    words[k - 1] != "" && words[k] != "" && IsWhitespace(words[k - 1][0]) != IsWhitespace(words[k][0])
  }

  lemma {:induction false} NoBoundaryMeansUniform(text: string, from: nat, to: nat)
    requires from < to <= |text|
    requires forall j :: from < j < to ==> !Boundary(text, j)
    ensures Uniform(text[from..to])
  {
    if from + 1 < to {
      NoBoundaryMeansUniform(text, from, to - 1);
      assert text[from..to] == text[from..to - 1] + [text[to - 1]];
      assert !Boundary(text, to - 1);
    }
  }

  lemma NoCutBetween(cuts: seq<nat>, k: nat, j: nat)
    requires forall j, k :: 0 <= j < k < |cuts| ==> cuts[j] < cuts[k]
    requires k + 1 < |cuts| && cuts[k] < j < cuts[k + 1]
    ensures j !in cuts
  {
    forall m | 0 <= m < |cuts| ensures cuts[m] != j {
      assert m <= k || m >= k + 1;
      assert m < k ==> cuts[m] < cuts[k];
      assert m > k + 1 ==> cuts[k + 1] < cuts[m];
    }
  }

  lemma WordIsUniform(text: string, cuts: seq<nat>, words: seq<string>, k: nat)
    requires forall j, k :: 0 <= j < k < |cuts| ==> cuts[j] < cuts[k]
    requires WindowAt(text, cuts, words, k)
    requires forall j :: 1 <= j < |text| && Boundary(text, j) ==> j in cuts
    ensures Uniform(words[k])
  {
    forall j | cuts[k] < j < cuts[k + 1] ensures !Boundary(text, j) { NoCutBetween(cuts, k, j); }
    NoBoundaryMeansUniform(text, cuts[k], cuts[k + 1]);
  }

  lemma NeighboursDiffer(text: string, cuts: seq<nat>, words: seq<string>, k: nat)
    requires k > 0 && WindowAt(text, cuts, words, k - 1) && WindowAt(text, cuts, words, k)
    requires Uniform(words[k - 1]) && Boundary(text, cuts[k])
    ensures OtherKind(words, k)
  {
    assert words[k - 1][|words[k - 1]| - 1] == text[cuts[k] - 1];
  }

  /** The words are the maximal runs of whitespace and of other characters, in order: they spell
      the text, each is of one kind, and neighbours are of different kinds. */
  lemma WordsAreMaximalRuns(text: string)
    ensures var words := SplitIntoWords(text);
      && Concat(words) == text
      && (forall k :: 0 <= k < |words| ==> Uniform(words[k]))
      && (forall k :: 0 < k < |words| ==> OtherKind(words, k))
  {
    if text != "" {
      var tail := CutsFrom(text, 1);
      var cuts := [0] + tail;
      assert forall k :: 0 < k < |cuts| ==> cuts[k] == tail[k - 1];
      WindowsCover(text, cuts);
      CutsOrdered(cuts);
      assert text[0..] == text;
      var words := SplitIntoWords(text);
      forall k | 0 <= k < |words| ensures Uniform(words[k]) { WordIsUniform(text, cuts, words, k); }
      forall k | 0 < k < |words| ensures OtherKind(words, k) {
        assert Uniform(words[k - 1]) && Boundary(text, tail[k - 1]);
        NeighboursDiffer(text, cuts, words, k);
      }
    }
  }

  // Segments --------------------------------------------------------------------------------------

  function CreateSegment(content: string, change: ChangeType, start: nat): Segment {
    Segment(content, change, start, start + |content|)
  }

  /** The segments of the old line and of the new line, as the script is walked. */
  function SegmentsOf(script: seq<Edit>, oldOffset: nat, newOffset: nat): (seq<Segment>, seq<Segment>) {
    if script == [] then ([], [])
    else
      var e, n := script[0], |script[0].value|;
      var inOld, inNew := e.tag != Insert, e.tag != Delete;
      var (old_, new_) := SegmentsOf(script[1..], if inOld then oldOffset + n else oldOffset,
                                                  if inNew then newOffset + n else newOffset);
      ((if inOld then [CreateSegment(e.value, e.tag, oldOffset)] else []) + old_,
       (if inNew then [CreateSegment(e.value, e.tag, newOffset)] else []) + new_)
  }

  /** What the equal parts and those of `side` spell. */
  function Spells(script: seq<Edit>, side: ChangeType): string {
    if script == [] then ""
    else (if script[0].tag in {Equal, side} then script[0].value else "") + Spells(script[1..], side)
  }

  /** Segments that cover `line` from `offset` to its end, one after the other. */
  predicate Tiles(segments: seq<Segment>, line: string, offset: nat) {
    if segments == [] then offset == |line|
    else
      var s := segments[0];
      s.start == offset && s.end == offset + |s.text| && s.end <= |line|
      && s.text == line[s.start..s.end] && Tiles(segments[1..], line, s.end)
  }

  predicate OneSided(segments: seq<Segment>, side: ChangeType) {
    forall i :: 0 <= i < |segments| ==> segments[i].change in {Equal, side}
  }

  /** The segments of one side. */
  function SideSegments(script: seq<Edit>, side: ChangeType, offset: nat): seq<Segment> {
    if script == [] then []
    else if script[0].tag in {Equal, side} then
      [CreateSegment(script[0].value, script[0].tag, offset)]
        + SideSegments(script[1..], side, offset + |script[0].value|)
    else SideSegments(script[1..], side, offset)
  }

  lemma {:induction false} SegmentsOfSides(script: seq<Edit>, oldOffset: nat, newOffset: nat)
    ensures SegmentsOf(script, oldOffset, newOffset)
         == (SideSegments(script, Delete, oldOffset), SideSegments(script, Insert, newOffset))
  {
    if script != [] {
      var e, n := script[0], |script[0].value|;
      var o := if e.tag != Insert then oldOffset + n else oldOffset;
      var w := if e.tag != Delete then newOffset + n else newOffset;
      SegmentsOfSides(script[1..], o, w);
      var (old_, new_) := SegmentsOf(script[1..], o, w);
      assert [] + old_ == old_ && [] + new_ == new_;
    }
  }

  lemma SplitLine(line: string, offset: nat, head: string, tail: string)
    requires offset <= |line| && line[offset..] == head + tail
    ensures var next := offset + |head|; next <= |line| && line[offset..next] == head && line[next..] == tail
  {
    var rest := line[offset..];
    assert rest[..|head|] == head && rest[|head|..] == tail;
    assert line[offset..offset + |head|] == rest[..|head|] && line[offset + |head|..] == rest[|head|..];
  }

  lemma {:induction false} SideTiles(script: seq<Edit>, side: ChangeType, line: string, offset: nat)
    requires offset <= |line| && line[offset..] == Spells(script, side)
    ensures Tiles(SideSegments(script, side, offset), line, offset)
    ensures OneSided(SideSegments(script, side, offset), side)
  {
    if script != [] {
      var e := script[0];
      if e.tag in {Equal, side} {
        SplitLine(line, offset, e.value, Spells(script[1..], side));
        SideTiles(script[1..], side, line, offset + |e.value|);
      } else {
        SideTiles(script[1..], side, line, offset);
      }
    }
  }

  // Consolidation -----------------------------------------------------------------------------------

  /** The ends that the scan yields from segment `k` on. It never stops: a segment that should end
      the run only clears `canContinue`. */
  function Ends(changes: seq<Segment>, target: ChangeType, k: nat, canContinue: bool): seq<nat>
    requires k <= |changes|
    decreases |changes| - k
  {
    if k == |changes| then []
    else if changes[k].change == target then [k + 1] + Ends(changes, target, k + 1, canContinue)
    else if changes[k].change == Equal && IsWhitespaceOnly(changes[k].text) && canContinue then
      if k + 1 < |changes| && changes[k + 1].change == target
      then [k + 1] + Ends(changes, target, k + 1, true)
      else Ends(changes, target, k + 1, false)
    else Ends(changes, target, k + 1, false)
  }

  function FindConsolidationEnd(changes: seq<Segment>, start: nat): nat
    requires start < |changes|
  {
    var ends := Ends(changes, changes[start].change, start, true);
    if ends == [] then start + 1 else ends[|ends| - 1]
  }

  /** The index after the last segment of the type, `k` if there is none from `k` on. */
  function AfterLast(changes: seq<Segment>, target: ChangeType, k: nat): (e: nat)
    requires k <= |changes|
    ensures k <= e <= |changes|
    ensures e > k ==> changes[e - 1].change == target
    ensures forall i :: e <= i < |changes| ==> changes[i].change != target
    decreases |changes| - k
  {
    if k == |changes| then k
    else
      var rest := AfterLast(changes, target, k + 1);
      if rest > k + 1 || changes[k].change == target then rest else k
  }

  lemma {:induction false} EndsEndAfterLast(changes: seq<Segment>, target: ChangeType, k: nat, canContinue: bool)
    requires k <= |changes|
    ensures var ends := Ends(changes, target, k, canContinue); var last := AfterLast(changes, target, k);
      if last == k then ends == [] else ends != [] && ends[|ends| - 1] == last
    decreases |changes| - k
  {
    if k < |changes| {
      var c := changes[k];
      var goesOn := c.change == Equal && IsWhitespaceOnly(c.text) && canContinue
                    && k + 1 < |changes| && changes[k + 1].change == target;
      var next := if c.change == target then canContinue else goesOn;
      EndsEndAfterLast(changes, target, k + 1, next);
      if c.change == target || goesOn {
        assert Ends(changes, target, k, canContinue) == [k + 1] + Ends(changes, target, k + 1, next);
      } else {
        assert Ends(changes, target, k, canContinue) == Ends(changes, target, k + 1, false);
      }
    }
  }

  /** A run of changes is extended to the last change of its type in the line, whatever lies in
      between. */
  lemma ConsolidationRunsToTheLast(changes: seq<Segment>, start: nat)
    requires start < |changes|
    ensures FindConsolidationEnd(changes, start) == AfterLast(changes, changes[start].change, start) > start
  {
    EndsEndAfterLast(changes, changes[start].change, start, true);
  }

  function Texts(segments: seq<Segment>): seq<string> {
    seq(|segments|, i requires 0 <= i < |segments| => segments[i].text)
  }

  function Merged(run: seq<Segment>): Segment
    requires run != []
  {
    CreateSegment(Concat(Texts(run)), run[0].change, run[0].start)
  }

  function ConsolidateFrom(changes: seq<Segment>, i: nat, skipUntil: nat): seq<Segment>
    requires i <= |changes|
    decreases |changes| - i
  {
    if i == |changes| then []
    else if i < skipUntil then ConsolidateFrom(changes, i + 1, skipUntil)
    else if changes[i].change != Equal then
      ConsolidationRunsToTheLast(changes, i);
      var end := FindConsolidationEnd(changes, i);
      [Merged(changes[i..end])] + ConsolidateFrom(changes, i + 1, end)
    else [changes[i]] + ConsolidateFrom(changes, i + 1, skipUntil)
  }

  function Consolidate(changes: seq<Segment>): seq<Segment> { ConsolidateFrom(changes, 0, 0) }

  lemma {:induction false} SkipAhead(changes: seq<Segment>, i: nat, end: nat)
    requires i <= end <= |changes|
    ensures ConsolidateFrom(changes, i, end) == ConsolidateFrom(changes, end, end)
    decreases end - i
  {
    if i < end { SkipAhead(changes, i + 1, end); }
  }

  /** A prefix of a tiling spells a stretch of the line, and the rest tiles the rest. */
  lemma {:induction false} TilesSplit(segments: seq<Segment>, line: string, offset: nat, n: nat)
    requires Tiles(segments, line, offset) && n <= |segments|
    ensures var text := Concat(Texts(segments[..n]));
      && offset + |text| <= |line| && text == line[offset..offset + |text|]
      && Tiles(segments[n..], line, offset + |text|)
  {
    if n > 0 {
      TilesSplit(segments[1..], line, segments[0].end, n - 1);
      assert Texts(segments[..n]) == [segments[0].text] + Texts(segments[1..][..n - 1]);
      assert segments[1..][n - 1..] == segments[n..];
    } else {
      assert segments[0..] == segments && Texts(segments[..0]) == [];
    }
  }

  lemma TilesCons(s: Segment, rest: seq<Segment>, line: string, offset: nat)
    requires s.start == offset && s.end == offset + |s.text| <= |line| && s.text == line[offset..s.end]
    requires Tiles(rest, line, s.end)
    ensures Tiles([s] + rest, line, offset)
  {
    assert ([s] + rest)[1..] == rest;
  }

  lemma RunSplits(changes: seq<Segment>, line: string, i: nat, end: nat, offset: nat)
    requires i <= end <= |changes| && Tiles(changes[i..], line, offset)
    ensures var text := Concat(Texts(changes[i..end]));
      && offset + |text| <= |line| && text == line[offset..offset + |text|]
      && Tiles(changes[end..], line, offset + |text|)
  {
    TilesSplit(changes[i..], line, offset, end - i);
    assert changes[i..][..end - i] == changes[i..end] && changes[i..][end - i..] == changes[end..];
  }

  lemma {:induction false} ConsolidateTiles(changes: seq<Segment>, line: string, i: nat, offset: nat, skipUntil: nat)
    requires skipUntil <= i <= |changes| && Tiles(changes[i..], line, offset)
    ensures Tiles(ConsolidateFrom(changes, i, skipUntil), line, offset)
    decreases |changes| - i
  {
    if i < |changes| {
      assert changes[i..][1..] == changes[i + 1..];
      if changes[i].change != Equal {
        ConsolidationRunsToTheLast(changes, i);
        var end := FindConsolidationEnd(changes, i);
        RunSplits(changes, line, i, end, offset);
        SkipAhead(changes, i + 1, end);
        ConsolidateTiles(changes, line, end, offset + |Concat(Texts(changes[i..end]))|, end);
        TilesCons(Merged(changes[i..end]), ConsolidateFrom(changes, end, end), line, offset);
      } else {
        ConsolidateTiles(changes, line, i + 1, changes[i].end, skipUntil);
      }
    }
  }

  /** The index of the first segment that is not Equal. */
  function FirstChange(changes: seq<Segment>, i: nat): (f: nat)
    requires i <= |changes|
    ensures i <= f <= |changes|
    ensures forall k :: i <= k < f ==> changes[k].change == Equal
    ensures f < |changes| ==> changes[f].change != Equal
    decreases |changes| - i
  {
    if i < |changes| && changes[i].change == Equal then FirstChange(changes, i + 1) else i
  }

  lemma {:induction false} EqualsAreKept(changes: seq<Segment>, i: nat, j: nat, skipUntil: nat)
    requires skipUntil <= i <= j <= |changes| && forall k :: i <= k < j ==> changes[k].change == Equal
    ensures ConsolidateFrom(changes, i, skipUntil) == changes[i..j] + ConsolidateFrom(changes, j, skipUntil)
    decreases j - i
  {
    var rest := ConsolidateFrom(changes, j, skipUntil);
    if i < j {
      EqualsAreKept(changes, i + 1, j, skipUntil);
      assert changes[i].change == Equal;
      assert changes[i..j] == [changes[i]] + changes[i + 1..j];
      assert [changes[i]] + (changes[i + 1..j] + rest) == changes[i..j] + rest;
    } else {
      assert changes[i..j] + rest == rest;
    }
  }

  /** On one side of a line all changes become one: what comes before the first change and after
      the last stays, and everything between, equal or not, is merged. */
  lemma ConsolidatedShape(changes: seq<Segment>, side: ChangeType)
    requires OneSided(changes, side) && side != Equal
    ensures var first := FirstChange(changes, 0);
      Consolidate(changes) ==
        if first == |changes| then changes
        else var end := AfterLast(changes, side, first);
          if end <= first then changes else changes[..first] + [Merged(changes[first..end])] + changes[end..]
    ensures FirstChange(changes, 0) < |changes| ==>
      AfterLast(changes, side, FirstChange(changes, 0)) > FirstChange(changes, 0)
  {
    var n, first := |changes|, FirstChange(changes, 0);
    EqualsAreKept(changes, 0, first, 0);
    assert changes[0..first] == changes[..first];
    if first == n {
      assert changes[..n] == changes && changes + [] == changes;
    } else {
      assert changes[first].change == side;
      MergedTail(changes, side, first);
      var end := AfterLast(changes, side, first);
      Assoc(changes[..first], [Merged(changes[first..end])], changes[end..]);
    }
  }

  lemma MergedTail(changes: seq<Segment>, side: ChangeType, first: nat)
    requires OneSided(changes, side) && first < |changes| && changes[first].change == side != Equal
    ensures var end := AfterLast(changes, side, first);
      end > first && ConsolidateFrom(changes, first, 0) == [Merged(changes[first..end])] + changes[end..]
  {
    ConsolidationRunsToTheLast(changes, first);
    var end := AfterLast(changes, side, first);
    SkipAhead(changes, first + 1, end);
    EqualsAreKept(changes, end, |changes|, end);
    assert changes[end..|changes|] + [] == changes[end..];
  }

  /** Segments of a tiling that have text start one after the other. */
  lemma {:induction false} StartsIncrease(segments: seq<Segment>, line: string, offset: nat, j: nat, k: nat)
    requires Tiles(segments, line, offset) && j < k < |segments|
    requires forall i :: 0 <= i < |segments| ==> segments[i].text != ""
    ensures offset <= segments[j].start < segments[k].start
  {
    var rest := segments[1..];
    if j > 0 {
      StartsIncrease(rest, line, segments[0].end, j - 1, k - 1);
      assert rest[j - 1] == segments[j] && rest[k - 1] == segments[k];
    } else if k > 1 {
      StartsIncrease(rest, line, segments[0].end, 0, k - 1);
      assert rest[k - 1] == segments[k];
    }
  }

  /** So an equal word does not always stay Equal, as it is documented to: it does exactly when it
      is not between the first change of its line and the last. */
  lemma EqualStaysExactlyOutside(changes: seq<Segment>, side: ChangeType, line: string, k: nat)
    requires OneSided(changes, side) && side != Equal && Tiles(changes, line, 0)
    requires forall i :: 0 <= i < |changes| ==> changes[i].text != ""
    requires k < |changes| && changes[k].change == Equal
    ensures changes[k] in Consolidate(changes)
       <==> k < FirstChange(changes, 0) || AfterLast(changes, side, FirstChange(changes, 0)) <= k
  {
    var first := FirstChange(changes, 0);
    ConsolidatedShape(changes, side);
    if first < |changes| {
      var end := AfterLast(changes, side, first);
      var kept := changes[..first] + [Merged(changes[first..end])] + changes[end..];
      if k < first {
        assert kept[k] == changes[k];
      } else if end <= k {
        assert kept[first + 1 + (k - end)] == changes[k];
      } else {
        forall i | 0 <= i < |kept| ensures kept[i] != changes[k] {
          if i < first {
            StartsIncrease(changes, line, 0, i, k);
          } else if i > first {
            StartsIncrease(changes, line, 0, k, end + (i - first - 1));
          } else {
            assert kept[i].change == side;
          }
        }
      }
    }
  }

  // The whole word diff -----------------------------------------------------------------------------

  /** `script` is what the word-level diff of the two lines gave. */
  function HighlightWordDiff(oldLine: string, newLine: string, maxLength: nat, script: seq<Edit>)
    : (seq<Segment>, seq<Segment>)
  {
    if ByteLength(oldLine) > maxLength || ByteLength(newLine) > maxLength then
      ([CreateSegment(oldLine, Equal, 0)], [CreateSegment(newLine, Equal, 0)])
    else
      var (old_, new_) := SegmentsOf(script, 0, 0);
      (Consolidate(old_), Consolidate(new_))
  }

  /** For any script whose parts spell the two lines, the word changes of each side tile its line,
      so no text is lost or repeated, and long lines are no exception. */
  lemma WordChangesTile(oldLine: string, newLine: string, maxLength: nat, script: seq<Edit>)
    requires Spells(script, Delete) == oldLine && Spells(script, Insert) == newLine
    ensures var (old_, new_) := HighlightWordDiff(oldLine, newLine, maxLength, script);
      Tiles(old_, oldLine, 0) && Tiles(new_, newLine, 0)
  {
    assert oldLine[0..] == oldLine && newLine[0..] == newLine;
    SegmentsOfSides(script, 0, 0);
    SideTiles(script, Delete, oldLine, 0);
    SideTiles(script, Insert, newLine, 0);
    var (old_, new_) := SegmentsOf(script, 0, 0);
    assert old_[0..] == old_ && new_[0..] == new_;
    ConsolidateTiles(old_, oldLine, 0, 0, 0);
    ConsolidateTiles(new_, newLine, 0, 0, 0);
  }

  /** The words of one side of a script, in order. */
  function WordsOf(script: seq<Edit>, side: ChangeType): seq<string> {
    if script == [] then []
    else if script[0].tag in {Equal, side} then [script[0].value] + WordsOf(script[1..], side)
    else WordsOf(script[1..], side)
  }

  lemma {:induction false} WordsSpell(script: seq<Edit>, side: ChangeType)
    ensures Concat(WordsOf(script, side)) == Spells(script, side)
  {
    if script != [] { WordsSpell(script[1..], side); }
  }

  lemma {:induction false} SegmentsAreWords(script: seq<Edit>, side: ChangeType, offset: nat)
    ensures var segments, words := SideSegments(script, side, offset), WordsOf(script, side);
      |segments| == |words| && forall i :: 0 <= i < |words| ==> segments[i].text == words[i]
  {
    if script != [] {
      var e := script[0];
      if e.tag in {Equal, side} {
        SegmentsAreWords(script[1..], side, offset + |e.value|);
        var segments, words := SideSegments(script, side, offset), WordsOf(script, side);
        assert segments[1..] == SideSegments(script[1..], side, offset + |e.value|);
        assert words[1..] == WordsOf(script[1..], side);
        forall i | 0 < i < |words| ensures segments[i].text == words[i] {
          assert segments[i] == segments[1..][i - 1] && words[i] == words[1..][i - 1];
        }
      } else {
        SegmentsAreWords(script[1..], side, offset);
      }
    }
  }

  /** Over the words of a line, the segments of its side are those words. */
  lemma SideOfWords(line: string, script: seq<Edit>, side: ChangeType)
    requires WordsOf(script, side) == SplitIntoWords(line) && side != Equal
    ensures var changes, words := SideSegments(script, side, 0), SplitIntoWords(line);
      && OneSided(changes, side) && Tiles(changes, line, 0) && |changes| == |words|
      && forall i :: 0 <= i < |changes| ==> changes[i].text == words[i] != ""
  {
    var changes, words := SideSegments(script, side, 0), SplitIntoWords(line);
    WordsAreMaximalRuns(line);
    WordsSpell(script, side);
    SegmentsAreWords(script, side, 0);
    assert line[0..] == line;
    SideTiles(script, side, line, 0);
    forall i | 0 <= i < |changes| ensures changes[i].text == words[i] != "" { assert Uniform(words[i]); }
  }

  /** The whole way from two lines: when the script is over their words, an equal word of a side is
      shown as Equal exactly when it is not between the first change of its line and the last. */
  lemma EqualWordStaysExactlyOutside(oldLine: string, newLine: string, maxLength: nat, script: seq<Edit>,
                                     side: ChangeType, k: nat)
    requires WordsOf(script, Delete) == SplitIntoWords(oldLine) && WordsOf(script, Insert) == SplitIntoWords(newLine)
    requires side != Equal && ByteLength(oldLine) <= maxLength && ByteLength(newLine) <= maxLength
    requires k < |SideSegments(script, side, 0)| && SideSegments(script, side, 0)[k].change == Equal
    ensures var line := if side == Delete then oldLine else newLine;
      k < |SplitIntoWords(line)| && SideSegments(script, side, 0)[k].text == SplitIntoWords(line)[k]
    ensures var changes := SideSegments(script, side, 0);
      var (old_, new_) := HighlightWordDiff(oldLine, newLine, maxLength, script);
      changes[k] in (if side == Delete then old_ else new_) <==>
        k < FirstChange(changes, 0) || AfterLast(changes, side, FirstChange(changes, 0)) <= k
  {
    SegmentsOfSides(script, 0, 0);
    var changes := SideSegments(script, side, 0);
    SideOfWords(if side == Delete then oldLine else newLine, script, side);
    EqualStaysExactlyOutside(changes, side, if side == Delete then oldLine else newLine, k);
  }

  // Character by character --------------------------------------------------------------------------

  /** The type of the segment that covers a character. */
  function ChangeAt(changes: seq<Segment>, i: nat): ChangeType {
    if changes == [] then Equal
    else if changes[0].start <= i < changes[0].end then changes[0].change
    else ChangeAt(changes[1..], i)
  }

  /** In a tiling each segment begins where the one before it ends. */
  lemma {:induction false} TileEnds(segments: seq<Segment>, line: string, offset: nat, k: nat)
    requires Tiles(segments, line, offset) && k < |segments|
    ensures offset <= segments[k].start <= segments[k].end <= |line|
    ensures k == 0 ==> segments[k].start == offset
    ensures segments[k].end == if k + 1 < |segments| then segments[k + 1].start else |line|
  {
    var rest := segments[1..];
    if k > 0 {
      TileEnds(rest, line, segments[0].end, k - 1);
      assert rest[k - 1] == segments[k] && (k + 1 < |segments| ==> rest[k] == segments[k + 1]);
    } else if |segments| > 1 {
      assert rest[0] == segments[1];
    }
  }

  lemma {:induction false} CoveredBy(segments: seq<Segment>, line: string, offset: nat, k: nat, i: nat)
    requires Tiles(segments, line, offset) && k < |segments| && segments[k].start <= i < segments[k].end
    ensures ChangeAt(segments, i) == segments[k].change
  {
    if k > 0 {
      assert segments[1..][k - 1] == segments[k];
      TileEnds(segments[1..], line, segments[0].end, k - 1);
      CoveredBy(segments[1..], line, segments[0].end, k - 1, i);
    }
  }

  lemma {:induction false} Covering(segments: seq<Segment>, line: string, offset: nat, i: nat) returns (k: nat)
    requires Tiles(segments, line, offset) && offset <= i < |line|
    ensures k < |segments| && segments[k].start <= i < segments[k].end
  {
    if i < segments[0].end {
      k := 0;
    } else {
      k := Covering(segments[1..], line, segments[0].end, i);
      k := k + 1;
    }
  }

  /** From the first change of a line to the end of the last. */
  predicate BetweenChanges(changes: seq<Segment>, side: ChangeType, i: nat) {
    var first := FirstChange(changes, 0);
    first < |changes| &&
    var end := AfterLast(changes, side, first);
    end > first && changes[first].start <= i < changes[end - 1].end
  }

  lemma {:induction false} StartsInOrder(segments: seq<Segment>, line: string, offset: nat, j: nat, k: nat)
    requires Tiles(segments, line, offset) && j < k < |segments|
    ensures segments[j].end <= segments[k].start
    decreases k
  {
    TileEnds(segments, line, offset, j);
    if j < k - 1 {
      StartsInOrder(segments, line, offset, j, k - 1);
      TileEnds(segments, line, offset, k - 1);
    }
  }

  /** What a side is shown as, one character at a time: changed between the first change and the last,
      and equal everywhere else. */
  lemma ConsolidatedAt(changes: seq<Segment>, side: ChangeType, line: string, i: nat)
    requires OneSided(changes, side) && side != Equal && Tiles(changes, line, 0) && i < |line|
    ensures ChangeAt(Consolidate(changes), i) == if BetweenChanges(changes, side, i) then side else Equal
  {
    var first := FirstChange(changes, 0);
    var k := Covering(changes, line, 0, i);
    ConsolidatedShape(changes, side);
    if first == |changes| {
      CoveredBy(changes, line, 0, k, i);
    } else {
      var end := AfterLast(changes, side, first);
      assert changes[0..] == changes;
      ConsolidateTiles(changes, line, 0, 0, 0);
      ShownAt(changes, side, line, first, end, k, i);
    }
  }

  function Shown(changes: seq<Segment>, first: nat, end: nat): seq<Segment>
    requires first < end <= |changes|
  {
    changes[..first] + [Merged(changes[first..end])] + changes[end..]
  }

  lemma ShownAt(changes: seq<Segment>, side: ChangeType, line: string, first: nat, end: nat, k: nat, i: nat)
    requires OneSided(changes, side) && side != Equal && Tiles(changes, line, 0)
    requires first == FirstChange(changes, 0) < end == AfterLast(changes, side, first) <= |changes|
    requires Tiles(Shown(changes, first, end), line, 0)
    requires k < |changes| && changes[k].start <= i < changes[k].end
    ensures ChangeAt(Shown(changes, first, end), i) == if BetweenChanges(changes, side, i) then side else Equal
  {
    if k < first {
      ShownBefore(changes, line, first, end, k, i);
    } else if end <= k {
      ShownAfter(changes, line, first, end, k, i);
    } else {
      ShownMerged(changes, line, first, end, k, i);
    }
  }

  lemma ShownBefore(changes: seq<Segment>, line: string, first: nat, end: nat, k: nat, i: nat)
    requires Tiles(changes, line, 0) && first < end <= |changes| && Tiles(Shown(changes, first, end), line, 0)
    requires k < first && changes[k].start <= i < changes[k].end
    ensures ChangeAt(Shown(changes, first, end), i) == changes[k].change && i < changes[first].start
  {
    assert Shown(changes, first, end)[k] == changes[k];
    CoveredBy(Shown(changes, first, end), line, 0, k, i);
    StartsInOrder(changes, line, 0, k, first);
  }

  lemma ShownAfter(changes: seq<Segment>, line: string, first: nat, end: nat, k: nat, i: nat)
    requires Tiles(changes, line, 0) && first < end <= |changes| && Tiles(Shown(changes, first, end), line, 0)
    requires end <= k < |changes| && changes[k].start <= i < changes[k].end
    ensures ChangeAt(Shown(changes, first, end), i) == changes[k].change && changes[end - 1].end <= i
  {
    assert Shown(changes, first, end)[first + 1 + (k - end)] == changes[k];
    CoveredBy(Shown(changes, first, end), line, 0, first + 1 + (k - end), i);
    StartsInOrder(changes, line, 0, end - 1, k);
  }

  lemma ShownMerged(changes: seq<Segment>, line: string, first: nat, end: nat, k: nat, i: nat)
    requires Tiles(changes, line, 0) && first < end <= |changes| && Tiles(Shown(changes, first, end), line, 0)
    requires first <= k < end && changes[k].start <= i < changes[k].end
    ensures ChangeAt(Shown(changes, first, end), i) == changes[first].change
    ensures changes[first].start <= i < changes[end - 1].end
  {
    var shown := Shown(changes, first, end);
    assert shown[first] == Merged(changes[first..end]);
    MergedEnd(changes, line, first, end);
    if first < k { StartsInOrder(changes, line, 0, first, k); }
    if k < end - 1 { StartsInOrder(changes, line, 0, k, end - 1); }
    TileEnds(changes, line, 0, first);
    TileEnds(changes, line, 0, end - 1);
    CoveredBy(shown, line, 0, first, i);
  }

  lemma MergedEnd(changes: seq<Segment>, line: string, first: nat, end: nat)
    requires Tiles(changes, line, 0) && first < end <= |changes|
    requires Tiles(Shown(changes, first, end), line, 0)
    ensures Merged(changes[first..end]).end == changes[end - 1].end
  {
    var shown := Shown(changes, first, end);
    assert shown[first] == Merged(changes[first..end]);
    TileEnds(shown, line, 0, first);
    TileEnds(changes, line, 0, end - 1);
    assert end < |changes| ==> shown[first + 1] == changes[end];
  }

  /** The whole way from two lines, when the script is over their words: a character of either line is
      shown as changed exactly when it is between the first and the last change of its line; so every
      character of a word that was deleted or inserted is. */
  lemma ChangedCharactersExactly(oldLine: string, newLine: string, maxLength: nat, script: seq<Edit>,
                                 side: ChangeType, i: nat)
    requires WordsOf(script, Delete) == SplitIntoWords(oldLine) && WordsOf(script, Insert) == SplitIntoWords(newLine)
    requires side != Equal && ByteLength(oldLine) <= maxLength && ByteLength(newLine) <= maxLength
    requires i < |if side == Delete then oldLine else newLine|
    ensures var changes := SideSegments(script, side, 0);
      var (old_, new_) := HighlightWordDiff(oldLine, newLine, maxLength, script);
      var shown := if side == Delete then old_ else new_;
      && ChangeAt(shown, i) == (if BetweenChanges(changes, side, i) then side else Equal)
      && (ChangeAt(changes, i) == side ==> ChangeAt(shown, i) == side)
  {
    var line, changes := if side == Delete then oldLine else newLine, SideSegments(script, side, 0);
    SegmentsOfSides(script, 0, 0);
    SideOfWords(line, script, side);
    ConsolidatedAt(changes, side, line, i);
    if ChangeAt(changes, i) == side {
      var k := Covering(changes, line, 0, i);
      CoveredBy(changes, line, 0, k, i);
      WithinChanges(changes, side, line, k, i);
    }
  }

  lemma WithinChanges(changes: seq<Segment>, side: ChangeType, line: string, k: nat, i: nat)
    requires Tiles(changes, line, 0) && OneSided(changes, side) && side != Equal
    requires k < |changes| && changes[k].change == side && changes[k].start <= i < changes[k].end
    ensures BetweenChanges(changes, side, i)
  {
    var first := FirstChange(changes, 0);
    assert first <= k;
    var end := AfterLast(changes, side, first);
    assert k < end;
    if first < k {
      StartsInOrder(changes, line, 0, first, k);
      TileEnds(changes, line, 0, first);
    }
    if k < end - 1 {
      StartsInOrder(changes, line, 0, k, end - 1);
      TileEnds(changes, line, 0, end - 1);
    }
  }
}
