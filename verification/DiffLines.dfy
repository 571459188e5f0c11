/** The lines of one file's diff: their numbers, their change blocks and word changes, and which
    context is hidden (apdiff-viewer/src/diff/mod.rs:559-610, apdiff-viewer/src/diff/compute.rs:243-345). */
module DiffLines {
  import opened Prelude
  import opened DiffWords
  import opened DiffMatching

  datatype LineType = AddLine | DeleteLine | ContextLine

  datatype DiffLine = DiffLine(
    lineType: LineType,
    raw: string,
    oldNumber: Option<int>,
    newNumber: Option<int>,
    wordChanges: Option<seq<Segment>>,
    collapsed: bool,
    collapseCount: Option<nat>)

  // Numbering ---------------------------------------------------------------------------------

  function TypeOf(tag: ChangeType): LineType {
    match tag
    case Equal => ContextLine
    case Delete => DeleteLine
    case Insert => AddLine
  }

  /** Without the line ending. */
  function TrimEnd(s: string): string {
    if s != "" && s[|s| - 1] in "\r\n" then TrimEnd(s[..|s| - 1]) else s
  }

  /** How many of the first `k` steps are on a side. */
  function CountSide(script: seq<Edit>, side: ChangeType, k: nat): (n: nat)
    requires k <= |script|
    ensures n <= k
  {
    if k == 0 then 0 else CountSide(script, side, k - 1) + if script[k - 1].tag in {Equal, side} then 1 else 0
  }

  function Numbered(script: seq<Edit>, k: nat): DiffLine
    requires k < |script|
  {
    var tag := script[k].tag;
    DiffLine(TypeOf(tag), TrimEnd(script[k].value),
             if tag != Insert then Some(1 + CountSide(script, Delete, k)) else None,
             if tag != Delete then Some(1 + CountSide(script, Insert, k)) else None,
             None, false, None)
  }

  method BuildDiffLines(script: seq<Edit>) returns (lines: seq<DiffLine>)
    ensures |lines| == |script| && forall k :: 0 <= k < |lines| ==> lines[k] == Numbered(script, k)
  {
    lines := [];
    var oldNum, newNum := 1, 1;
    for i := 0 to |script|
      invariant |lines| == i && forall k :: 0 <= k < i ==> lines[k] == Numbered(script, k)
      invariant oldNum == 1 + CountSide(script, Delete, i) && newNum == 1 + CountSide(script, Insert, i)
    {
      var content := TrimEnd(script[i].value);
      match script[i].tag {
        case Equal =>
          lines := lines + [DiffLine(ContextLine, content, Some(oldNum), Some(newNum), None, false, None)];
          oldNum, newNum := oldNum + 1, newNum + 1;
        case Delete =>
          lines := lines + [DiffLine(DeleteLine, content, Some(oldNum), None, None, false, None)];
          oldNum := oldNum + 1;
        case Insert =>
          lines := lines + [DiffLine(AddLine, content, None, Some(newNum), None, false, None)];
          newNum := newNum + 1;
      }
    }
  }

  /** `raw` is a line without its ending, and all of its ending. */
  predicate IsTrimmed(raw: string, line: string) {
    && raw <= line && (forall i :: |raw| <= i < |line| ==> line[i] in "\r\n")
    && (raw != "" ==> raw[|raw| - 1] !in "\r\n")
  }

  lemma {:induction false} TrimEndTrims(s: string, raw: string)
    ensures IsTrimmed(raw, s) <==> raw == TrimEnd(s)
  {
    if s != "" && s[|s| - 1] in "\r\n" {
      var t := s[..|s| - 1];
      TrimEndTrims(t, raw);
      if IsTrimmed(raw, s) { assert raw <= t; }
    }
  }

  /** The lines of one side of a script. */
  function SideLines(script: seq<Edit>, side: ChangeType, k: nat): (r: seq<string>)
    requires k <= |script|
    ensures |r| == CountSide(script, side, k)
  {
    if k == 0 then []
    else SideLines(script, side, k - 1) + if script[k - 1].tag in {Equal, side} then [script[k - 1].value] else []
  }

  lemma {:induction false} SideLineAt(script: seq<Edit>, side: ChangeType, k: nat, l: nat)
    requires k < l <= |script| && script[k].tag in {Equal, side}
    ensures CountSide(script, side, k) < CountSide(script, side, l)
    ensures SideLines(script, side, l)[CountSide(script, side, k)] == script[k].value
    decreases l
  {
    if k < l - 1 { SideLineAt(script, side, k, l - 1); }
  }

  /** A line of the diff with a number of a side shows that line of the side's text, trimmed, and is
      context exactly when it has a number of both sides, deleted when it has only an old one, and
      added when it has only a new one. */
  lemma NumberedLineShows(script: seq<Edit>, side: ChangeType, k: nat, n: nat)
    requires side != Equal && HasNumber(script, side, k, n)
    ensures 1 <= n <= |SideLines(script, side, |script|)|
    ensures IsTrimmed(Numbered(script, k).raw, SideLines(script, side, |script|)[n - 1])
    ensures var line := Numbered(script, k);
      && (line.lineType == ContextLine <==> line.oldNumber.Some? && line.newNumber.Some?)
      && (line.lineType == DeleteLine <==> line.newNumber.None?)
      && (line.lineType == AddLine <==> line.oldNumber.None?)
  {
    SideLineAt(script, side, k, |script|);
    TrimEndTrims(script[k].value, Numbered(script, k).raw);
  }

  lemma {:induction false} StepWithNumber(script: seq<Edit>, side: ChangeType, n: nat, l: nat) returns (k: nat)
    requires l <= |script| && 1 <= n <= CountSide(script, side, l)
    ensures k < l && script[k].tag in {Equal, side} && 1 + CountSide(script, side, k) == n
    decreases l
  {
    if script[l - 1].tag in {Equal, side} && n == CountSide(script, side, l) {
      k := l - 1;
    } else {
      k := StepWithNumber(script, side, n, l - 1);
    }
  }

  predicate HasNumber(script: seq<Edit>, side: ChangeType, k: nat, n: nat) {
    k < |script| && (if side == Delete then Numbered(script, k).oldNumber else Numbered(script, k).newNumber) == Some(n)
  }

  /** Every line of either text has its number on exactly one line of the diff. */
  lemma NumbersAreExact(script: seq<Edit>, side: ChangeType, n: nat)
    requires side != Equal
    ensures 1 <= n <= CountSide(script, side, |script|) <==> exists k :: HasNumber(script, side, k, n)
    ensures forall k, l :: HasNumber(script, side, k, n) && HasNumber(script, side, l, n) ==> k == l
  {
    if 1 <= n <= CountSide(script, side, |script|) {
      var k := StepWithNumber(script, side, n, |script|);
      assert HasNumber(script, side, k, n);
    }
    forall k, l | HasNumber(script, side, k, n) && HasNumber(script, side, l, n) ensures k == l {
      if k < l { SideLineAt(script, side, k, l); }
      if l < k { SideLineAt(script, side, l, k); }
    }
    forall k | HasNumber(script, side, k, n) ensures 1 <= n <= CountSide(script, side, |script|) {
      SideLineAt(script, side, k, |script|);
    }
  }

  // Change blocks -------------------------------------------------------------------------------

  /** Delete lines from `start` to `mid`, add lines from `mid` to `end`. */
  datatype Block = Block(start: nat, mid: nat, end: nat)

  ghost predicate BlockOk(lines: seq<LineType>, b: Block) {
    && b.start < b.mid <= b.end <= |lines|
    && (forall i :: b.start <= i < b.mid ==> lines[i] == DeleteLine)
    && (forall i :: b.mid <= i < b.end ==> lines[i] == AddLine)
    && (b.mid < |lines| ==> lines[b.mid] != DeleteLine)
    && (b.end < |lines| ==> lines[b.end] != AddLine)
    && (b.start > 0 ==> lines[b.start - 1] != DeleteLine)
  }

  ghost predicate BlocksOk(lines: seq<LineType>, blocks: seq<Block>, upTo: nat) {
    && (forall k :: 0 <= k < |blocks| ==> BlockOk(lines, blocks[k]) && blocks[k].end <= upTo)
    && (forall k, l :: 0 <= k < l < |blocks| ==> blocks[k].end <= blocks[l].start)
  }

  predicate InBlock(blocks: seq<Block>, i: nat) {
    exists k :: 0 <= k < |blocks| && blocks[k].start <= i < blocks[k].mid
  }

  ghost predicate AllCovered(lines: seq<LineType>, blocks: seq<Block>, upTo: nat)
    requires upTo <= |lines|
  {
    forall i: nat :: i < upTo && lines[i] == DeleteLine ==> InBlock(blocks, i)
  }

  lemma AddBlock(lines: seq<LineType>, blocks: seq<Block>, b: Block)
    requires BlocksOk(lines, blocks, b.start) && BlockOk(lines, b) && AllCovered(lines, blocks, b.start)
    ensures BlocksOk(lines, blocks + [b], b.end) && AllCovered(lines, blocks + [b], b.end)
  {
    var all := blocks + [b];
    forall i: nat | i < b.end && lines[i] == DeleteLine ensures InBlock(all, i) {
      if i < b.start {
        var k :| 0 <= k < |blocks| && blocks[k].start <= i < blocks[k].mid;
        assert all[k] == blocks[k];
      } else {
        assert all[|blocks|].start <= i < all[|blocks|].mid;
      }
    }
  }

  /** The blocks are maximal and apart, and every deleted line is in one. */
  method FindChangeBlocks(lines: seq<LineType>) returns (blocks: seq<Block>)
    ensures BlocksOk(lines, blocks, |lines|) && AllCovered(lines, blocks, |lines|)
  {
    blocks := [];
    var i := 0;
    while i < |lines|
      invariant i <= |lines| && BlocksOk(lines, blocks, i) && AllCovered(lines, blocks, i)
      invariant 0 < i < |lines| && lines[i] == DeleteLine ==> lines[i - 1] != DeleteLine
    {
      if lines[i] == DeleteLine {
        var start := i;
        while i < |lines| && lines[i] == DeleteLine
          invariant start <= i <= |lines| && forall j :: start <= j < i ==> lines[j] == DeleteLine
        {
          i := i + 1;
        }
        var mid := i;
        while i < |lines| && lines[i] == AddLine
          invariant mid <= i <= |lines| && forall j :: mid <= j < i ==> lines[j] == AddLine
        {
          i := i + 1;
        }
        AddBlock(lines, blocks, Block(start, mid, i));
        blocks := blocks + [Block(start, mid, i)];
      } else {
        i := i + 1;
      }
    }
  }

  // Word changes --------------------------------------------------------------------------------

  function Raws(lines: seq<DiffLine>, from: nat, to: nat): (r: seq<string>)
    requires from <= to <= |lines|
    ensures |r| == to - from
  {
    seq(to - from, i requires 0 <= i < to - from => lines[from + i].raw)
  }

  function Types(lines: seq<DiffLine>): (r: seq<LineType>)
    ensures |r| == |lines|
  {
    seq(|lines|, i requires 0 <= i < |lines| => lines[i].lineType)
  }

  const MAX_WORD_DIFF_LINE_LENGTH := 10000

  ghost predicate Spelling(script: (string, string) -> seq<Edit>) {
    forall a, b :: Spells(script(a, b), Delete) == a && Spells(script(a, b), Insert) == b
  }

  /** Whether a line is as it was, or has word changes that tile it. */
  ghost predicate LineOk(before: DiffLine, after: DiffLine, touched: bool) {
    if touched then
      && after.wordChanges.Some? && Tiles(after.wordChanges.value, after.raw, 0)
      && after == before.(wordChanges := after.wordChanges)
      && before.lineType != ContextLine
    else after == before
  }

  ghost predicate LinesOk(before: seq<DiffLine>, after: seq<DiffLine>, touched: set<nat>) {
    |before| == |after| && forall i: nat :: i < |before| ==> LineOk(before[i], after[i], i in touched)
  }

  /** The two lines of a match. */
  function Pair(m: Candidate, b: Block): set<nat> {
    {b.start + m.left, b.mid + m.right}
  }

  /** The lines that the first `k` matches of a block are about. */
  function Touched(matches: seq<Candidate>, b: Block, k: nat): set<nat>
    requires k <= |matches|
  {
    if k == 0 then {} else Touched(matches, b, k - 1) + Pair(matches[k - 1], b)
  }

  predicate Within(m: Candidate, b: Block) {
    b.start + m.left < b.mid && b.mid + m.right < b.end
  }

  predicate TouchedAt(matches: seq<Candidate>, b: Block, j: nat, i: nat) {
    j < |matches| && (i == b.start + matches[j].left || i == b.mid + matches[j].right)
  }

  lemma {:induction false} TouchedByMatches(matches: seq<Candidate>, b: Block, k: nat)
    requires k <= |matches|
    ensures forall i :: i in Touched(matches, b, k) ==> exists j: nat :: j < k && TouchedAt(matches, b, j, i)
  {
    if k > 0 {
      TouchedByMatches(matches, b, k - 1);
      forall i | i in Touched(matches, b, k) ensures exists j: nat :: j < k && TouchedAt(matches, b, j, i) {
        if i !in Touched(matches, b, k - 1) { assert TouchedAt(matches, b, k - 1, i); }
      }
    }
  }

  lemma NotTouchedYet(matches: seq<Candidate>, b: Block, k: nat)
    requires Injective(matches) && k < |matches| && forall m :: m in matches ==> Within(m, b)
    ensures b.start + matches[k].left !in Touched(matches, b, k) && b.mid + matches[k].right !in Touched(matches, b, k)
  {
    TouchedByMatches(matches, b, k);
    var del, add := b.start + matches[k].left, b.mid + matches[k].right;
    assert Within(matches[k], b);
    forall j: nat | j < k ensures !TouchedAt(matches, b, j, del) && !TouchedAt(matches, b, j, add) {
      assert matches[j] in matches;
      LinesApart(matches[j], matches[k], b);
    }
  }

  lemma LinesApart(m: Candidate, n: Candidate, b: Block)
    requires Within(m, b) && Within(n, b) && !SharesEndpoint(m, n)
    ensures Pair(m, b) !! Pair(n, b)
    ensures b.start + m.left !in {b.start + n.left, b.mid + n.right}
    ensures b.mid + m.right !in {b.start + n.left, b.mid + n.right}
  {
  }

  lemma SumOfDisjoint(a: set<nat>, b: set<nat>)
    requires a !! b
    ensures |a + b| == |a| + |b|
  {
  }

  lemma TwoLines(m: Candidate, b: Block)
    requires Within(m, b)
    ensures |Pair(m, b)| == 2
  {
    assert Pair(m, b) == {b.start + m.left} + {b.mid + m.right};
  }

  lemma {:induction false} TouchedTwiceAMatch(matches: seq<Candidate>, b: Block, k: nat)
    requires Injective(matches) && k <= |matches| && forall m :: m in matches ==> Within(m, b)
    ensures |Touched(matches, b, k)| == 2 * k
  {
    if k > 0 {
      TouchedTwiceAMatch(matches, b, k - 1);
      NotTouchedYet(matches, b, k - 1);
      var two := Pair(matches[k - 1], b);
      TwoLines(matches[k - 1], b);
      SumOfDisjoint(Touched(matches, b, k - 1), two);
    }
  }

  lemma TouchedInBlock(matches: seq<Candidate>, b: Block, k: nat)
    requires k <= |matches| && forall m :: m in matches ==> Within(m, b)
    ensures forall i :: i in Touched(matches, b, k) ==> b.start <= i < b.end
  {
    TouchedByMatches(matches, b, k);
    forall i | i in Touched(matches, b, k) ensures b.start <= i < b.end {
      var j: nat :| j < k && TouchedAt(matches, b, j, i);
      assert Within(matches[j], b);
    }
  }

  function BlockMatches(lines: seq<DiffLine>, b: Block, distance: (string, string) -> nat): seq<Candidate>
    requires b.start <= b.mid <= b.end <= |lines|
  {
    LineMatches(Raws(lines, b.start, b.mid), Raws(lines, b.mid, b.end), distance)
  }

  /** In a block, the matched lines and no others were given word changes, two lines for each match. */
  ghost predicate BlockDone(before: seq<DiffLine>, after: seq<DiffLine>, b: Block, touched: set<nat>,
                            distance: (string, string) -> nat, script: (string, string) -> seq<Edit>)
    requires b.start <= b.mid <= b.end <= |before|
  {
    var matches := BlockMatches(before, b, distance);
    && LinesOk(before, after, touched)
    && touched == Touched(matches, b, |matches|) && |touched| == 2 * |matches|
    && (forall i: nat :: i in touched ==> b.start <= i < b.end)
    && forall m :: m in matches ==> PairShown(before, after, m, b, script)
  }

  /** Gives word changes to the lines of a block that are matched, and to no other. */
  method HighlightBlock(lines: array<DiffLine>, b: Block, distance: (string, string) -> nat,
                        script: (string, string) -> seq<Edit>)
    returns (ghost touched: set<nat>)
    requires b.start <= b.mid <= b.end <= lines.Length && Spelling(script)
    requires forall i :: b.start <= i < b.end ==> lines[i].lineType != ContextLine
    modifies lines
    ensures BlockDone(old(lines[..]), lines[..], b, touched, distance, script)
  {
    var matches := BlockMatches(lines[..], b, distance);
    MatchesInRange(Raws(lines[..], b.start, b.mid), Raws(lines[..], b.mid, b.end), distance);
    assert forall m :: m in matches ==> Within(m, b);
    HighlightMatches(lines, b, matches, script);
    touched := Touched(matches, b, |matches|);
    TouchedTwiceAMatch(matches, b, |matches|);
    TouchedInBlock(matches, b, |matches|);
  }

  /** The matches are of lines of the block, each line in at most one. */
  ghost predicate MatchesOf(lines: seq<DiffLine>, b: Block, matches: seq<Candidate>) {
    && b.start <= b.mid <= b.end <= |lines|
    && (forall i :: b.start <= i < b.end ==> lines[i].lineType != ContextLine)
    && Injective(matches) && forall m :: m in matches ==> Within(m, b)
  }

  method HighlightMatches(lines: array<DiffLine>, b: Block, matches: seq<Candidate>,
                          script: (string, string) -> seq<Edit>)
    requires MatchesOf(lines[..], b, matches) && Spelling(script)
    modifies lines
    ensures MatchesShown(old(lines[..]), lines[..], matches, b, |matches|, script)
  {
    ghost var was := lines[..];
    NoneShownYet(was, matches, b, script);
    for k := 0 to |matches|
      invariant MatchesShown(was, lines[..], matches, b, k, script)
    {
      HighlightMatch(lines, b, matches, k, script, was);
    }
  }

  lemma NoneShownYet(was: seq<DiffLine>, matches: seq<Candidate>, b: Block, script: (string, string) -> seq<Edit>)
    ensures MatchesShown(was, was, matches, b, 0, script)
  {
  }

  method HighlightMatch(lines: array<DiffLine>, b: Block, matches: seq<Candidate>, k: nat,
                        script: (string, string) -> seq<Edit>, ghost was: seq<DiffLine>)
    requires MatchesOf(was, b, matches) && k < |matches| && |was| == lines.Length && Spelling(script)
    requires MatchesShown(was, lines[..], matches, b, k, script)
    modifies lines
    ensures MatchesShown(was, lines[..], matches, b, k + 1, script)
  {
    var del, add := b.start + matches[k].left, b.mid + matches[k].right;
    ghost var now := lines[..];
    MatchedLines(was, now, matches, b, k);
    HighlightPair(lines, del, add, script);
    NextPair(was, now, lines[..], matches, b, k, script);
  }

  /** Both lines of a match carry the word changes between the two. */
  ghost predicate PairShown(was: seq<DiffLine>, now: seq<DiffLine>, m: Candidate, b: Block,
                            script: (string, string) -> seq<Edit>)
  {
    var del, add := b.start + m.left, b.mid + m.right;
    && del < |was| && add < |was| && |was| == |now|
    && Shows(was[del].raw, was[add].raw, now[del], now[add], script)
  }

  ghost predicate Shows(oldLine: string, newLine: string, del: DiffLine, add: DiffLine,
                        script: (string, string) -> seq<Edit>)
  {
    var diff := HighlightWordDiff(oldLine, newLine, MAX_WORD_DIFF_LINE_LENGTH, script(oldLine, newLine));
    del.wordChanges == Some(diff.0) && add.wordChanges == Some(diff.1)
  }

  ghost predicate PairDone(before: seq<DiffLine>, after: seq<DiffLine>, del: nat, add: nat,
                           script: (string, string) -> seq<Edit>)
  {
    && |before| == |after| && del < |before| && add < |before|
    && (forall i: nat :: i < |before| ==> LineOk(before[i], after[i], i == del || i == add))
    && Shows(before[del].raw, before[add].raw, after[del], after[add], script)
  }

  ghost predicate MatchesShown(was: seq<DiffLine>, now: seq<DiffLine>, matches: seq<Candidate>, b: Block, k: nat,
                               script: (string, string) -> seq<Edit>)
    requires k <= |matches|
  {
    && LinesOk(was, now, Touched(matches, b, k))
    && forall j: nat :: j < k ==> PairShown(was, now, matches[j], b, script)
  }

  lemma NextPair(was: seq<DiffLine>, now: seq<DiffLine>, next: seq<DiffLine>, matches: seq<Candidate>, b: Block, k: nat,
                 script: (string, string) -> seq<Edit>)
    requires Injective(matches) && k < |matches| && forall m :: m in matches ==> Within(m, b)
    requires b.start <= b.mid <= b.end <= |was| && MatchesShown(was, now, matches, b, k, script)
    requires var del, add := b.start + matches[k].left, b.mid + matches[k].right;
      PairDone(now, next, del, add, script)
      && now[del].raw == was[del].raw && now[add].raw == was[add].raw
    ensures MatchesShown(was, next, matches, b, k + 1, script)
  {
    LinesStayOk(was, now, next, matches, b, k);
    PairsStay(was, now, next, matches, b, k, script);
  }

  lemma PairsStay(was: seq<DiffLine>, now: seq<DiffLine>, next: seq<DiffLine>, matches: seq<Candidate>, b: Block,
                  k: nat, script: (string, string) -> seq<Edit>)
    requires Injective(matches) && k < |matches| && forall m :: m in matches ==> Within(m, b)
    requires b.end <= |was| == |now| == |next|
    requires forall j: nat :: j < k ==> PairShown(was, now, matches[j], b, script)
    requires forall i: nat :: i < |was| ==>
      LineOk(now[i], next[i], i == b.start + matches[k].left || i == b.mid + matches[k].right)
    requires PairShown(was, next, matches[k], b, script)
    ensures forall j: nat :: j <= k ==> PairShown(was, next, matches[j], b, script)
  {
    assert Within(matches[k], b);
    forall j: nat | j < k ensures PairShown(was, next, matches[j], b, script) {
      assert Within(matches[j], b) && !SharesEndpoint(matches[j], matches[k]);
      assert PairShown(was, now, matches[j], b, script);
      var del, add := b.start + matches[j].left, b.mid + matches[j].right;
      assert LineOk(now[del], next[del], false) && LineOk(now[add], next[add], false);
    }
  }

  lemma MatchedLines(was: seq<DiffLine>, now: seq<DiffLine>, matches: seq<Candidate>, b: Block, k: nat)
    requires Injective(matches) && k < |matches| && forall m :: m in matches ==> Within(m, b)
    requires b.start <= b.mid <= b.end <= |was| && LinesOk(was, now, Touched(matches, b, k))
    requires forall i :: b.start <= i < b.end ==> was[i].lineType != ContextLine
    ensures var del, add := b.start + matches[k].left, b.mid + matches[k].right;
      && del < |now| && add < |now| && del != add
      && now[del].lineType != ContextLine && now[add].lineType != ContextLine
      && now[del].raw == was[del].raw && now[add].raw == was[add].raw
  {
    NotTouchedYet(matches, b, k);
    var del, add := b.start + matches[k].left, b.mid + matches[k].right;
    assert Within(matches[k], b);
    assert LineOk(was[del], now[del], false) && LineOk(was[add], now[add], false);
  }

  lemma LinesStayOk(was: seq<DiffLine>, now: seq<DiffLine>, next: seq<DiffLine>, matches: seq<Candidate>, b: Block,
                    k: nat)
    requires Injective(matches) && k < |matches| && forall m :: m in matches ==> Within(m, b)
    requires |now| == |next| && LinesOk(was, now, Touched(matches, b, k))
    requires forall i: nat :: i < |was| ==>
      LineOk(now[i], next[i], i == b.start + matches[k].left || i == b.mid + matches[k].right)
    ensures LinesOk(was, next, Touched(matches, b, k + 1))
  {
    NotTouchedYet(matches, b, k);
    forall i: nat | i < |was| ensures LineOk(was[i], next[i], i in Touched(matches, b, k + 1)) {
      assert LineOk(was[i], now[i], i in Touched(matches, b, k));
      assert LineOk(now[i], next[i], i == b.start + matches[k].left || i == b.mid + matches[k].right);
    }
  }

  method HighlightPair(lines: array<DiffLine>, del: nat, add: nat, script: (string, string) -> seq<Edit>)
    requires del < lines.Length && add < lines.Length && del != add && Spelling(script)
    requires lines[del].lineType != ContextLine && lines[add].lineType != ContextLine
    modifies lines
    ensures PairDone(old(lines[..]), lines[..], del, add, script)
  {
    var edits := script(lines[del].raw, lines[add].raw);
    var (olds, news) := HighlightWordDiff(lines[del].raw, lines[add].raw, MAX_WORD_DIFF_LINE_LENGTH, edits);
    WordChangesTile(lines[del].raw, lines[add].raw, MAX_WORD_DIFF_LINE_LENGTH, edits);
    lines[del] := lines[del].(wordChanges := Some(olds));
    lines[add] := lines[add].(wordChanges := Some(news));
  }

  lemma MatchesInRange(deletes: seq<string>, adds: seq<string>, distance: (string, string) -> nat)
    ensures var matches := LineMatches(deletes, adds, distance);
      && Injective(matches)
      && forall m :: m in matches ==> m.left < |deletes| && m.right < |adds|
  {
    var matches := LineMatches(deletes, adds, distance);
    var all := Candidates(deletes, adds, distance, 0);
    SortDownSorts(all);
    GreedyChooses(SortDown(all), LINE_SIMILARITY_THRESHOLD, {}, {});
    forall m | m in matches ensures m.left < |deletes| && m.right < |adds| {
      CandidatesAre(deletes, adds, distance, 0, m);
    }
  }

  function TouchedBy(lines: seq<DiffLine>, b: Block, distance: (string, string) -> nat): set<nat>
    requires b.start <= b.mid <= b.end <= |lines|
  {
    var matches := BlockMatches(lines, b, distance);
    Touched(matches, b, |matches|)
  }

  ghost predicate InLines(blocks: seq<Block>, n: nat) {
    forall k :: 0 <= k < |blocks| ==> blocks[k].start <= blocks[k].mid <= blocks[k].end <= n
  }

  function AllTouched(lines: seq<DiffLine>, blocks: seq<Block>, k: nat, distance: (string, string) -> nat): set<nat>
    requires k <= |blocks| && InLines(blocks, |lines|)
  {
    if k == 0 then {} else AllTouched(lines, blocks, k - 1, distance) + TouchedBy(lines, blocks[k - 1], distance)
  }

  function MatchCount(lines: seq<DiffLine>, blocks: seq<Block>, k: nat, distance: (string, string) -> nat): nat
    requires k <= |blocks| && InLines(blocks, |lines|)
  {
    if k == 0 then 0 else MatchCount(lines, blocks, k - 1, distance) + |BlockMatches(lines, blocks[k - 1], distance)|
  }

  ghost predicate BlockShown(was: seq<DiffLine>, now: seq<DiffLine>, b: Block, distance: (string, string) -> nat,
                             script: (string, string) -> seq<Edit>)
    requires b.start <= b.mid <= b.end <= |was|
  {
    forall m :: m in BlockMatches(was, b, distance) ==> PairShown(was, now, m, b, script)
  }

  lemma BlockStaysShown(was: seq<DiffLine>, now: seq<DiffLine>, next: seq<DiffLine>, b: Block, touched: set<nat>,
                        distance: (string, string) -> nat, script: (string, string) -> seq<Edit>)
    requires b.start <= b.mid <= b.end <= |was| && BlockShown(was, now, b, distance, script)
    requires LinesOk(now, next, touched) && forall i: nat :: b.start <= i < b.end ==> i !in touched
    ensures BlockShown(was, next, b, distance, script)
  {
    MatchesInRange(Raws(was, b.start, b.mid), Raws(was, b.mid, b.end), distance);
    forall m | m in BlockMatches(was, b, distance) ensures PairShown(was, next, m, b, script) {
      assert PairShown(was, now, m, b, script);
      var del, add := b.start + m.left, b.mid + m.right;
      assert LineOk(now[del], next[del], false) && LineOk(now[add], next[add], false);
    }
  }

  lemma LinesComposeOk(was: seq<DiffLine>, now: seq<DiffLine>, next: seq<DiffLine>, touched: set<nat>, more: set<nat>)
    requires LinesOk(was, now, touched) && LinesOk(now, next, more) && touched !! more
    ensures LinesOk(was, next, touched + more)
  {
    forall i: nat | i < |was| ensures LineOk(was[i], next[i], i in touched + more) {
      assert LineOk(was[i], now[i], i in touched) && LineOk(now[i], next[i], i in more);
    }
  }

  /** A block that nothing touched yet reads as it did at first. */
  lemma BlockUntouched(was: seq<DiffLine>, now: seq<DiffLine>, b: Block, touched: set<nat>)
    requires LinesOk(was, now, touched) && BlockOk(Types(was), b)
    requires forall i: nat :: i in touched ==> i < b.start
    ensures forall i: nat :: b.start <= i < b.end ==> now[i] == was[i] && now[i].lineType != ContextLine
    ensures Raws(now, b.start, b.mid) == Raws(was, b.start, b.mid) && Raws(now, b.mid, b.end) == Raws(was, b.mid, b.end)
  {
    forall i: nat | b.start <= i < b.end ensures now[i] == was[i] && now[i].lineType != ContextLine {
      assert LineOk(was[i], now[i], false);
      assert Types(was)[i] == was[i].lineType;
    }
  }

  lemma ShownFromUntouched(was: seq<DiffLine>, now: seq<DiffLine>, next: seq<DiffLine>, b: Block, touched: set<nat>,
                           distance: (string, string) -> nat, script: (string, string) -> seq<Edit>)
    requires LinesOk(was, now, touched) && BlockOk(Types(was), b)
    requires forall i: nat :: i in touched ==> i < b.start
    requires BlockShown(now, next, b, distance, script)
    ensures BlockShown(was, next, b, distance, script)
  {
    BlockUntouched(was, now, b, touched);
    forall m | m in BlockMatches(was, b, distance) ensures PairShown(was, next, m, b, script) {
      MatchesInRange(Raws(was, b.start, b.mid), Raws(was, b.mid, b.end), distance);
      assert PairShown(now, next, m, b, script);
    }
  }

  lemma NextShown(was: seq<DiffLine>, now: seq<DiffLine>, next: seq<DiffLine>, blocks: seq<Block>, k: nat,
                  touched: set<nat>, more: set<nat>, distance: (string, string) -> nat,
                  script: (string, string) -> seq<Edit>)
    requires k < |blocks| && BlocksOk(Types(was), blocks, |was|) && InLines(blocks, |was|)
    requires LinesOk(was, now, touched) && forall i: nat :: i in touched ==> i < blocks[k].start
    requires LinesOk(now, next, more) && forall i: nat :: i in more ==> blocks[k].start <= i < blocks[k].end
    requires forall j: nat :: j < k ==> BlockShown(was, now, blocks[j], distance, script)
    requires BlockShown(now, next, blocks[k], distance, script)
    ensures forall j: nat :: j <= k ==> BlockShown(was, next, blocks[j], distance, script)
  {
    assert BlockOk(Types(was), blocks[k]);
    ShownFromUntouched(was, now, next, blocks[k], touched, distance, script);
    forall j: nat | j < k ensures BlockShown(was, next, blocks[j], distance, script) {
      BlockStaysShown(was, now, next, blocks[j], more, distance, script);
    }
  }

  lemma SameMatches(was: seq<DiffLine>, now: seq<DiffLine>, b: Block, touched: set<nat>,
                    distance: (string, string) -> nat)
    requires LinesOk(was, now, touched) && BlockOk(Types(was), b)
    requires forall i: nat :: i in touched ==> i < b.start
    ensures BlockMatches(now, b, distance) == BlockMatches(was, b, distance)
  {
    BlockUntouched(was, now, b, touched);
  }

  /** No line of block `k` or of a later one is touched. */
  ghost predicate StillAhead(blocks: seq<Block>, k: nat, touched: set<nat>) {
    forall i: nat, j: nat :: i in touched && k <= j < |blocks| ==> i < blocks[j].start
  }

  /** The first `k` blocks show their word changes, and no other line changed. */
  ghost predicate BlocksShown(was: seq<DiffLine>, now: seq<DiffLine>, blocks: seq<Block>, k: nat, touched: set<nat>,
                              distance: (string, string) -> nat, script: (string, string) -> seq<Edit>)
    requires k <= |blocks| && InLines(blocks, |was|)
  {
    && LinesOk(was, now, touched)
    && touched == AllTouched(was, blocks, k, distance)
    && |touched| == 2 * MatchCount(was, blocks, k, distance)
    && forall j: nat :: j < k ==> BlockShown(was, now, blocks[j], distance, script)
  }

  ghost predicate OnTheWay(was: seq<DiffLine>, now: seq<DiffLine>, blocks: seq<Block>, k: nat, touched: set<nat>,
                           distance: (string, string) -> nat, script: (string, string) -> seq<Edit>)
    requires k <= |blocks| && InLines(blocks, |was|)
  {
    && BlocksOk(Types(was), blocks, |was|) && StillAhead(blocks, k, touched)
    && BlocksShown(was, now, blocks, k, touched, distance, script)
  }

  lemma BlockAhead(was: seq<DiffLine>, now: seq<DiffLine>, blocks: seq<Block>, k: nat, touched: set<nat>,
                   distance: (string, string) -> nat, script: (string, string) -> seq<Edit>)
    requires k < |blocks| && InLines(blocks, |was|) && OnTheWay(was, now, blocks, k, touched, distance, script)
    ensures var b := blocks[k];
      && b.start <= b.mid <= b.end <= |now| == |was|
      && forall i: nat :: b.start <= i < b.end ==> now[i].lineType != ContextLine
  {
    assert BlockOk(Types(was), blocks[k]);
    BlockUntouched(was, now, blocks[k], touched);
  }

  lemma NextBlock(was: seq<DiffLine>, now: seq<DiffLine>, next: seq<DiffLine>, blocks: seq<Block>, k: nat,
                  touched: set<nat>, more: set<nat>, distance: (string, string) -> nat,
                  script: (string, string) -> seq<Edit>)
    requires k < |blocks| && InLines(blocks, |was|) && |now| == |was|
    requires OnTheWay(was, now, blocks, k, touched, distance, script)
    requires BlockDone(now, next, blocks[k], more, distance, script)
    ensures OnTheWay(was, next, blocks, k + 1, touched + more, distance, script)
  {
    LinesComposeOk(was, now, next, touched, more);
    SameMatches(was, now, blocks[k], touched, distance);
    NextShown(was, now, next, blocks, k, touched, more, distance, script);
    SumOfDisjoint(touched, more);
  }

  /** Every change block on its own. Since blocks are apart and matches share no line, no line gets
      word changes twice: the lines touched are twice as many as the matches. */
  method ApplyWordHighlighting(lines: array<DiffLine>, distance: (string, string) -> nat,
                               script: (string, string) -> seq<Edit>)
    returns (ghost blocks: seq<Block>, ghost touched: set<nat>)
    requires Spelling(script)
    modifies lines
    ensures BlocksOk(Types(old(lines[..])), blocks, lines.Length)
    ensures AllCovered(Types(old(lines[..])), blocks, lines.Length)
    ensures InLines(blocks, lines.Length)
    ensures BlocksShown(old(lines[..]), lines[..], blocks, |blocks|, touched, distance, script)
  {
    var found := FindChangeBlocks(Types(lines[..]));
    blocks := found;
    BlocksInLines(Types(lines[..]), found);
    touched := HighlightBlocks(lines, found, distance, script);
  }

  lemma BlocksInLines(lines: seq<LineType>, blocks: seq<Block>)
    requires BlocksOk(lines, blocks, |lines|)
    ensures InLines(blocks, |lines|)
  {
  }

  /** The loop over the blocks. */
  method HighlightBlocks(lines: array<DiffLine>, blocks: seq<Block>, distance: (string, string) -> nat,
                         script: (string, string) -> seq<Edit>)
    returns (ghost touched: set<nat>)
    requires Spelling(script) && InLines(blocks, lines.Length) && BlocksOk(Types(lines[..]), blocks, lines.Length)
    modifies lines
    ensures BlocksShown(old(lines[..]), lines[..], blocks, |blocks|, touched, distance, script)
  {
    ghost var was := lines[..];
    touched := {};
    for k := 0 to |blocks|
      invariant OnTheWay(was, lines[..], blocks, k, touched, distance, script)
    {
      touched := HighlightNext(lines, blocks, k, distance, script, was, touched);
    }
  }

  method HighlightNext(lines: array<DiffLine>, blocks: seq<Block>, k: nat, distance: (string, string) -> nat,
                       script: (string, string) -> seq<Edit>, ghost was: seq<DiffLine>, ghost touched: set<nat>)
    returns (ghost touched': set<nat>)
    requires Spelling(script) && k < |blocks| && InLines(blocks, |was|) && |was| == lines.Length
    requires OnTheWay(was, lines[..], blocks, k, touched, distance, script)
    modifies lines
    ensures OnTheWay(was, lines[..], blocks, k + 1, touched', distance, script)
  {
    ghost var now := lines[..];
    BlockAhead(was, now, blocks, k, touched, distance, script);
    ghost var more := HighlightBlock(lines, blocks[k], distance, script);
    NextBlock(was, now, lines[..], blocks, k, touched, more, distance, script);
    touched' := touched + more;
  }

  // Hidden context ------------------------------------------------------------------------------

  const CONTEXT_COLLAPSE_THRESHOLD := 20
  const CONTEXT_VISIBLE_LINES := 3

  /** A context line, or none past either end. */
  predicate ContextAt(types: seq<LineType>, i: int) {
    0 <= i < |types| && types[i] == ContextLine
  }

  /** A longest stretch of context lines. */
  ghost predicate ContextRun(types: seq<LineType>, start: nat, end: nat) {
    && start < end <= |types|
    && (forall i :: start <= i < end ==> ContextAt(types, i))
    && !ContextAt(types, start - 1) && !ContextAt(types, end)
  }

  function RunStart(types: seq<LineType>, i: nat): (start: nat)
    requires ContextAt(types, i)
    ensures start <= i && !ContextAt(types, start - 1) && forall j :: start <= j <= i ==> ContextAt(types, j)
  {
    if ContextAt(types, i - 1) then RunStart(types, i - 1) else i
  }

  function RunEnd(types: seq<LineType>, i: nat): (end: nat)
    requires ContextAt(types, i)
    ensures i < end <= |types| && !ContextAt(types, end) && forall j :: i <= j < end ==> ContextAt(types, j)
    decreases |types| - i
  {
    if ContextAt(types, i + 1) then RunEnd(types, i + 1) else i + 1
  }

  predicate Hidden(types: seq<LineType>, i: nat) {
    && ContextAt(types, i)
    && RunEnd(types, i) - RunStart(types, i) > CONTEXT_COLLAPSE_THRESHOLD
    && RunStart(types, i) + CONTEXT_VISIBLE_LINES <= i < RunEnd(types, i) - CONTEXT_VISIBLE_LINES
  }

  /** The first line of a hidden stretch counts the stretch. */
  function HiddenHere(types: seq<LineType>, i: nat): nat {
    if Hidden(types, i) && i == RunStart(types, i) + CONTEXT_VISIBLE_LINES then
      RunEnd(types, i) - RunStart(types, i) - 2 * CONTEXT_VISIBLE_LINES
    else 0
  }

  function Collapsed(line: DiffLine, types: seq<LineType>, i: nat): DiffLine {
    if !Hidden(types, i) then line
    else if HiddenHere(types, i) > 0 then line.(collapsed := true, collapseCount := Some(HiddenHere(types, i)))
    else line.(collapsed := true)
  }

  lemma RunIs(types: seq<LineType>, start: nat, end: nat, i: nat)
    requires ContextRun(types, start, end) && start <= i < end
    ensures RunStart(types, i) == start && RunEnd(types, i) == end
  {
    assert !ContextAt(types, RunStart(types, i) - 1) && !ContextAt(types, RunEnd(types, i));
    assert RunStart(types, i) <= start - 1 <= i ==> ContextAt(types, start - 1);
    assert i <= end < RunEnd(types, i) ==> ContextAt(types, end);
  }

  /** The lines of one run are as they should be. */
  lemma RunCollapses(was: seq<DiffLine>, now: seq<DiffLine>, start: nat, end: nat)
    requires |was| == |now| && ContextRun(Types(was), start, end)
    requires
      var from, to := start + CONTEXT_VISIBLE_LINES, end - CONTEXT_VISIBLE_LINES;
      forall i: nat :: start <= i < end ==>
        now[i] ==
          if end - start > CONTEXT_COLLAPSE_THRESHOLD && from <= i < to
          then HiddenLine(was[i], i == from, to - from) else was[i]
    ensures forall i: nat :: start <= i < end ==> now[i] == Collapsed(was[i], Types(was), i)
  {
    forall i: nat | start <= i < end ensures now[i] == Collapsed(was[i], Types(was), i) {
      RunIs(Types(was), start, end, i);
    }
  }

  function HiddenLine(line: DiffLine, first: bool, count: nat): DiffLine {
    if first then line.(collapsed := true, collapseCount := Some(count)) else line.(collapsed := true)
  }

  method HideRange(lines: array<DiffLine>, from: nat, to: nat)
    requires from < to <= lines.Length
    modifies lines
    ensures forall i: nat :: i < lines.Length ==>
      lines[i] == if from <= i < to then HiddenLine(old(lines[i]), i == from, to - from) else old(lines[i])
  {
    for k := from to to
      invariant forall i: nat :: i < lines.Length ==>
        lines[i] == if from <= i < k then old(lines[i]).(collapsed := true) else old(lines[i])
    {
      lines[k] := lines[k].(collapsed := true);
    }
    lines[from] := lines[from].(collapseCount := Some(to - from));
  }

  ghost predicate CollapsedUpTo(was: seq<DiffLine>, now: seq<DiffLine>, n: nat) {
    && |was| == |now|
    && (forall i: nat :: i < n && i < |was| ==> now[i] == Collapsed(was[i], Types(was), i))
    && (forall i: nat :: n <= i < |was| ==> now[i] == was[i])
  }

  method CollapseContextRegions(lines: array<DiffLine>)
    modifies lines
    ensures CollapsedUpTo(old(lines[..]), lines[..], lines.Length)
  {
    ghost var was, types := lines[..], Types(lines[..]);
    var i := 0;
    while i < lines.Length
      invariant i <= lines.Length && !(ContextAt(types, i) && ContextAt(types, i - 1))
      invariant CollapsedUpTo(was, lines[..], i)
    {
      assert lines[..][i] == was[i];
      if lines[i].lineType != ContextLine {
        i := i + 1;
        continue;
      }
      ghost var now := lines[..];
      var start := i;
      while i < lines.Length && lines[i].lineType == ContextLine
        invariant start <= i <= lines.Length && forall j :: start <= j < i ==> ContextAt(types, j)
      {
        assert now[i] == was[i];
        i := i + 1;
      }
      assert i < lines.Length ==> now[i] == was[i];
      assert ContextRun(types, start, i);
      if i - start > CONTEXT_COLLAPSE_THRESHOLD {
        HideRange(lines, start + CONTEXT_VISIBLE_LINES, i - CONTEXT_VISIBLE_LINES);
      }
      RunCollapses(was, lines[..], start, i);
    }
  }

  /** A line is hidden exactly when its stretch is long and nothing but context is within three
      lines of it. */
  lemma HiddenIsFarFromChanges(types: seq<LineType>, i: nat)
    requires ContextAt(types, i)
    ensures Hidden(types, i) <==>
      RunEnd(types, i) - RunStart(types, i) > CONTEXT_COLLAPSE_THRESHOLD
      && forall j: int :: i - CONTEXT_VISIBLE_LINES <= j <= i + CONTEXT_VISIBLE_LINES ==> ContextAt(types, j)
  {
    assert !ContextAt(types, RunStart(types, i) - 1) && !ContextAt(types, RunEnd(types, i));
  }

  function HiddenBefore(types: seq<LineType>, n: nat): nat {
    if n == 0 then 0 else HiddenBefore(types, n - 1) + if Hidden(types, n - 1) then 1 else 0
  }

  function CountedBefore(types: seq<LineType>, n: nat): nat {
    if n == 0 then 0 else CountedBefore(types, n - 1) + HiddenHere(types, n - 1)
  }

  /** Inside a run: how much is hidden and how much is counted up to `n`. */
  lemma {:induction false} WithinRun(types: seq<LineType>, start: nat, end: nat, n: nat)
    requires ContextRun(types, start, end) && start <= n <= end && end - start > CONTEXT_COLLAPSE_THRESHOLD
    ensures var from, to := start + CONTEXT_VISIBLE_LINES, end - CONTEXT_VISIBLE_LINES;
      && HiddenBefore(types, n) - HiddenBefore(types, start) ==
        (if n <= from then 0 else if n <= to then n - from else to - from)
      && CountedBefore(types, n) - CountedBefore(types, start) == (if n <= from then 0 else to - from)
    decreases n
  {
    if n > start {
      WithinRun(types, start, end, n - 1);
      RunIs(types, start, end, n - 1);
    }
  }

  lemma {:induction false} ShortRun(types: seq<LineType>, start: nat, end: nat, n: nat)
    requires ContextRun(types, start, end) && start <= n <= end && end - start <= CONTEXT_COLLAPSE_THRESHOLD
    ensures HiddenBefore(types, n) == HiddenBefore(types, start)
    ensures CountedBefore(types, n) == CountedBefore(types, start)
    decreases n
  {
    if n > start {
      ShortRun(types, start, end, n - 1);
      RunIs(types, start, end, n - 1);
    }
  }

  /** Up to the end of any run the counts add up to the hidden lines, so no hidden line is
      uncounted and none is counted twice. */
  lemma {:induction false} CountsAddUp(types: seq<LineType>, n: nat)
    requires n <= |types| && !(ContextAt(types, n) && ContextAt(types, n - 1))
    ensures CountedBefore(types, n) == HiddenBefore(types, n)
    decreases n
  {
    if n > 0 {
      if ContextAt(types, n - 1) {
        var start := RunStart(types, n - 1);
        assert ContextRun(types, start, n);
        if n - start > CONTEXT_COLLAPSE_THRESHOLD {
          WithinRun(types, start, n, n);
        } else {
          ShortRun(types, start, n, n);
        }
        CountsAddUp(types, start);
      } else {
        CountsAddUp(types, n - 1);
      }
    }
  }
}
