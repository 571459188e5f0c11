/** Merging two tilings of a line, its syntax tokens and its word changes, into HTML
    (apdiff-viewer/src/diff/mod.rs:41-137). */
module DiffRender {
  import opened Prelude
  import opened DiffWords

  /** `css` is what the token's style comes to as attributes; it may be empty. */
  datatype Token = Token(text: string, css: string, start: nat, end: nat)

  predicate TokensTile(tokens: seq<Token>, line: string, offset: nat) {
    if tokens == [] then offset == |line|
    else
      var t := tokens[0];
      t.start == offset && t.end == offset + |t.text| && t.end <= |line|
      && t.text == line[t.start..t.end] && TokensTile(tokens[1..], line, t.end)
  }

  /** What is emitted at a time: a stretch of text, in one style, for one change. */
  datatype Piece = Piece(text: string, css: string)

  // Rendering ---------------------------------------------------------------------------------

  predicate Overlaps(t: Token, change: Segment) {
    t.end > change.start && t.start < change.end
  }

  function Overlapping(tokens: seq<Token>, change: Segment): seq<Token> {
    if tokens == [] then []
    else (if Overlaps(tokens[0], change) then [tokens[0]] else []) + Overlapping(tokens[1..], change)
  }

  function Max(a: nat, b: nat): nat { if a < b then b else a }

  function Min(a: nat, b: nat): nat { if a < b then a else b }

  predicate WellFormed(change: Segment) {
    change.end == change.start + |change.text|
  }

  /** The pieces of a change from `pos` on; the end of a change that no token covers has no style. */
  function MultiPieces(change: Segment, tokens: seq<Token>, pos: nat): seq<Piece>
    requires WellFormed(change) && change.start <= pos
    decreases tokens
  {
    if tokens == [] then
      if pos < change.end then [Piece(change.text[pos - change.start..], "")] else []
    else
      var from, to := Max(pos, tokens[0].start), Min(change.end, tokens[0].end);
      if from < to then
        [Piece(change.text[from - change.start..to - change.start], tokens[0].css)]
          + MultiPieces(change, tokens[1..], to)
      else MultiPieces(change, tokens[1..], pos)
  }

  function ChangePieces(change: Segment, tokens: seq<Token>): seq<Piece>
    requires WellFormed(change)
  {
    var overlapping := Overlapping(tokens, change);
    if |overlapping| == 0 then [Piece(change.text, "")]
    else if |overlapping| == 1 then [Piece(change.text, overlapping[0].css)]
    else MultiPieces(change, overlapping, change.start)
  }

  function EscapeChar(c: char): string {
    if c == '&' then "&amp;" else if c == '<' then "&lt;" else if c == '>' then "&gt;" else [c]
  }

  function Escape(text: string): string {
    if text == "" then "" else EscapeChar(text[0]) + Escape(text[1..])
  }

  function Span(p: Piece): string {
    if p.css == "" then Escape(p.text) else "<span " + p.css + ">" + Escape(p.text) + "</span>"
  }

  function Spans(pieces: seq<Piece>): string {
    if pieces == [] then "" else Span(pieces[0]) + Spans(pieces[1..])
  }

  function Wrap(content: string, change: ChangeType): string {
    match change
    case Insert => "<ins>" + content + "</ins>"
    case Delete => "<del>" + content + "</del>"
    case Equal => content
  }

  function RenderWordChange(change: Segment, tokens: seq<Token>): string
    requires WellFormed(change)
  {
    Wrap(Spans(ChangePieces(change, tokens)), change.change)
  }

  predicate AllWellFormed(changes: seq<Segment>) {
    forall i :: 0 <= i < |changes| ==> WellFormed(changes[i])
  }

  function Merge(tokens: seq<Token>, changes: seq<Segment>): string
    requires AllWellFormed(changes)
  {
    if changes == [] then "" else RenderWordChange(changes[0], tokens) + Merge(tokens, changes[1..])
  }

  lemma {:induction false} SpansAppend(a: seq<Piece>, b: seq<Piece>)
    ensures Spans(a + b) == Spans(a) + Spans(b)
  {
    if a == [] {
      assert a + b == b;
    } else {
      assert (a + b)[1..] == a[1..] + b;
      SpansAppend(a[1..], b);
    }
  }

  lemma SpansOne(piece: Piece)
    ensures Spans([piece]) == Span(piece)
  {
    var span := Span(piece);
    assert [piece][1..] == [] && span + "" == span;
  }

  lemma OnePieceMore(emitted: seq<Piece>, piece: Piece, rest: seq<Piece>)
    ensures Spans(emitted + [piece]) == Spans(emitted) + Span(piece)
    ensures emitted + ([piece] + rest) == emitted + [piece] + rest
  {
    SpansOne(piece);
    SpansAppend(emitted, [piece]);
    Assoc(emitted, [piece], rest);
  }

  /** `emitted` so far, at `pos` and before token `i`, is on the way to all the pieces. */
  predicate OnTheWay(change: Segment, tokens: seq<Token>, i: nat, pos: nat, emitted: seq<Piece>)
    requires WellFormed(change)
  {
    i <= |tokens| && change.start <= pos
    && MultiPieces(change, tokens, change.start) == emitted + MultiPieces(change, tokens[i..], pos)
  }

  function PieceOf(change: Segment, token: Token, pos: nat): (p: Piece)
    requires WellFormed(change) && change.start <= pos
    requires Max(pos, token.start) < Min(change.end, token.end)
  {
    Piece(change.text[Max(pos, token.start) - change.start..Min(change.end, token.end) - change.start], token.css)
  }

  lemma Unfold(change: Segment, tokens: seq<Token>, i: nat, pos: nat)
    requires WellFormed(change) && change.start <= pos && i < |tokens|
    ensures MultiPieces(change, tokens[i..], pos) ==
              if Max(pos, tokens[i].start) < Min(change.end, tokens[i].end)
              then [PieceOf(change, tokens[i], pos)]
                     + MultiPieces(change, tokens[i + 1..], Min(change.end, tokens[i].end))
              else MultiPieces(change, tokens[i + 1..], pos)
  {
    assert tokens[i..][1..] == tokens[i + 1..];
  }

  lemma NextToken(change: Segment, tokens: seq<Token>, i: nat, pos: nat, emitted: seq<Piece>)
    requires WellFormed(change) && OnTheWay(change, tokens, i, pos, emitted) && i < |tokens|
    ensures if Max(pos, tokens[i].start) < Min(change.end, tokens[i].end) then
              var to, piece := Min(change.end, tokens[i].end), PieceOf(change, tokens[i], pos);
              OnTheWay(change, tokens, i + 1, to, emitted + [piece])
              && Spans(emitted + [piece]) == Spans(emitted) + Span(piece)
            else OnTheWay(change, tokens, i + 1, pos, emitted)
  {
    Unfold(change, tokens, i, pos);
    if Max(pos, tokens[i].start) < Min(change.end, tokens[i].end) {
      OnePieceMore(emitted, PieceOf(change, tokens[i], pos),
                   MultiPieces(change, tokens[i + 1..], Min(change.end, tokens[i].end)));
    }
  }

  lemma LastPiece(change: Segment, tokens: seq<Token>, pos: nat, emitted: seq<Piece>)
    requires WellFormed(change) && OnTheWay(change, tokens, |tokens|, pos, emitted)
    ensures Spans(MultiPieces(change, tokens, change.start))
         == if pos < change.end then Spans(emitted) + Escape(change.text[pos - change.start..]) else Spans(emitted)
  {
    var rest := MultiPieces(change, tokens[|tokens|..], pos);
    if pos < change.end {
      var piece := Piece(change.text[pos - change.start..], "");
      assert rest == [piece] + [];
      OnePieceMore(emitted, piece, []);
    } else {
      assert rest == [] && emitted + [] == emitted;
    }
  }

  /** The loop over the tokens that overlap a change. */
  method RenderMultiTokenSegment(change: Segment, overlapping: seq<Token>) returns (result: string)
    requires WellFormed(change)
    ensures result == Spans(MultiPieces(change, overlapping, change.start))
  {
    result := "";
    var pos: nat := change.start;
    ghost var emitted: seq<Piece> := [];
    assert overlapping[0..] == overlapping;
    for i := 0 to |overlapping|
      invariant OnTheWay(change, overlapping, i, pos, emitted) && result == Spans(emitted)
    {
      var token := overlapping[i];
      var from, to := Max(pos, token.start), Min(change.end, token.end);
      NextToken(change, overlapping, i, pos, emitted);
      if from < to {
        var piece := PieceOf(change, token, pos);
        result := result + Span(piece);
        emitted := emitted + [piece];
        pos := to;
      }
    }
    LastPiece(change, overlapping, pos, emitted);
    if pos < change.end {
      result := result + Escape(change.text[pos - change.start..]);
    }
  }

  // What is emitted, character by character -----------------------------------------------------

  datatype Label = Label(c: char, css: string, change: ChangeType)

  function InStyle(text: string, css: string, change: ChangeType): seq<Label> {
    seq(|text|, i requires 0 <= i < |text| => Label(text[i], css, change))
  }

  function Labels(pieces: seq<Piece>, change: ChangeType): seq<Label> {
    if pieces == [] then [] else InStyle(pieces[0].text, pieces[0].css, change) + Labels(pieces[1..], change)
  }

  function AllLabels(tokens: seq<Token>, changes: seq<Segment>): seq<Label>
    requires AllWellFormed(changes)
  {
    if changes == [] then []
    else Labels(ChangePieces(changes[0], tokens), changes[0].change) + AllLabels(tokens, changes[1..])
  }

  /** The style of the token that covers a character. */
  function StyleAt(tokens: seq<Token>, i: nat): string {
    if tokens == [] then ""
    else if tokens[0].start <= i < tokens[0].end then tokens[0].css
    else StyleAt(tokens[1..], i)
  }

  /** The labels that the characters from `from` to `to` should have. */
  function Wanted(line: string, tokens: seq<Token>, change: ChangeType, from: nat, to: nat): seq<Label>
    requires from <= to <= |line|
  {
    seq(to - from, i requires 0 <= i < to - from => Label(line[from + i], StyleAt(tokens, from + i), change))
  }

  /** Tokens that do not overlap a change add nothing to it. */
  lemma {:induction false} OnlyOverlappingMatter(change: Segment, tokens: seq<Token>, pos: nat)
    requires WellFormed(change) && change.start <= pos
    ensures MultiPieces(change, Overlapping(tokens, change), pos) == MultiPieces(change, tokens, pos)
  {
    if tokens != [] {
      var from, to := Max(pos, tokens[0].start), Min(change.end, tokens[0].end);
      var rest := Overlapping(tokens[1..], change);
      if Overlaps(tokens[0], change) {
        assert ([tokens[0]] + rest)[1..] == rest;
      } else {
        assert [] + rest == rest;
      }
      OnlyOverlappingMatter(change, tokens[1..], if from < to then to else pos);
    }
  }

  lemma WantedSplit(line: string, tokens: seq<Token>, change: ChangeType, from: nat, mid: nat, to: nat)
    requires from <= mid <= to <= |line|
    ensures Wanted(line, tokens, change, from, to)
         == Wanted(line, tokens, change, from, mid) + Wanted(line, tokens, change, mid, to)
  {
  }

  lemma WantedFromTail(line: string, tokens: seq<Token>, change: ChangeType, from: nat, to: nat)
    requires from <= to <= |line| && tokens != [] && tokens[0].end <= from
    ensures Wanted(line, tokens, change, from, to) == Wanted(line, tokens[1..], change, from, to)
  {
    var a, b := Wanted(line, tokens, change, from, to), Wanted(line, tokens[1..], change, from, to);
    forall i | 0 <= i < to - from ensures a[i] == b[i] {
      assert StyleAt(tokens, from + i) == StyleAt(tokens[1..], from + i);
    }
  }

  lemma WantedInOneStyle(line: string, tokens: seq<Token>, change: ChangeType, from: nat, to: nat, text: string,
                         css: string)
    requires from <= to <= |line| && text == line[from..to]
    requires forall i: nat :: from <= i < to ==> StyleAt(tokens, i) == css
    ensures Labels([Piece(text, css)], change) == Wanted(line, tokens, change, from, to)
  {
    var piece := Piece(text, css);
    assert [piece][1..] == [] && Labels([], change) == [];
    var a, b := Labels([piece], change), Wanted(line, tokens, change, from, to);
    assert |a| == |b|;
    forall i | 0 <= i < to - from ensures a[i] == b[i] {
      assert StyleAt(tokens, from + i) == css;
    }
  }

  lemma WantedFromHead(line: string, tokens: seq<Token>, change: ChangeType, from: nat, to: nat, text: string)
    requires from <= to <= |line| && tokens != [] && tokens[0].start <= from && to <= tokens[0].end
    requires text == line[from..to]
    ensures Labels([Piece(text, tokens[0].css)], change) == Wanted(line, tokens, change, from, to)
  {
    WantedInOneStyle(line, tokens, change, from, to, text, tokens[0].css);
  }

  lemma SliceOfSlice(line: string, start: nat, end: nat, from: nat, to: nat)
    requires start <= from <= to <= end <= |line|
    ensures line[start..end][from - start..to - start] == line[from..to]
  {
    var a, b := line[start..end][from - start..to - start], line[from..to];
    forall k | 0 <= k < to - from ensures a[k] == b[k] {
      assert a[k] == line[start..end][from - start + k];
    }
  }

  lemma LabelsOfHead(piece: Piece, rest: seq<Piece>, change: ChangeType)
    ensures Labels([piece] + rest, change) == Labels([piece], change) + Labels(rest, change)
  {
    assert ([piece] + rest)[1..] == rest && [piece][1..] == [];
  }

  lemma {:induction false} MultiLabels(change: Segment, line: string, tokens: seq<Token>, offset: nat, pos: nat)
    requires WellFormed(change) && change.end <= |line| && change.text == line[change.start..change.end]
    requires TokensTile(tokens, line, offset) && change.start <= pos <= change.end
    requires pos == change.end || offset <= pos
    ensures Labels(MultiPieces(change, tokens, pos), change.change)
         == Wanted(line, tokens, change.change, pos, change.end)
    decreases tokens
  {
    if tokens != [] {
      var t := tokens[0];
      var from, to := Max(pos, t.start), Min(change.end, t.end);
      if from < to {
        var text := change.text[from - change.start..to - change.start];
        MultiLabels(change, line, tokens[1..], t.end, to);
        assert from == pos;
        SliceOfSlice(line, change.start, change.end, pos, to);
        WantedFromHead(line, tokens, change.change, pos, to, text);
        LabelsOfHead(Piece(text, t.css), MultiPieces(change, tokens[1..], to), change.change);
        WantedSplit(line, tokens, change.change, pos, to, change.end);
        if to < change.end { WantedFromTail(line, tokens, change.change, to, change.end); }
      } else {
        MultiLabels(change, line, tokens[1..], t.end, pos);
        if pos < change.end { WantedFromTail(line, tokens, change.change, pos, change.end); }
      }
    }
  }

  lemma {:induction false} TilesAfter(tokens: seq<Token>, line: string, offset: nat)
    requires TokensTile(tokens, line, offset)
    ensures offset <= |line|
    ensures forall k :: 0 <= k < |tokens| ==> offset <= tokens[k].start <= tokens[k].end <= |line|
  {
    if tokens != [] {
      TilesAfter(tokens[1..], line, tokens[0].end);
      assert forall k :: 0 < k < |tokens| ==> tokens[k] == tokens[1..][k - 1];
    }
  }

  /** The token that covers a character, when tokens tile the line. */
  lemma {:induction false} CoveringToken(tokens: seq<Token>, line: string, offset: nat, i: nat) returns (t: Token)
    requires TokensTile(tokens, line, offset) && offset <= i < |line|
    ensures t in tokens && t.start <= i < t.end && StyleAt(tokens, i) == t.css
  {
    if i < tokens[0].end {
      t := tokens[0];
    } else {
      t := CoveringToken(tokens[1..], line, tokens[0].end, i);
    }
  }

  lemma {:induction false} OverlappingHas(tokens: seq<Token>, change: Segment, t: Token)
    requires t in tokens && Overlaps(t, change)
    ensures t in Overlapping(tokens, change)
  {
    if tokens[0] != t { OverlappingHas(tokens[1..], change, t); }
  }

  /** A change is emitted with its own text, each character in the style of its token. */
  lemma ChangeLabels(change: Segment, line: string, tokens: seq<Token>)
    requires WellFormed(change) && change.end <= |line| && change.text == line[change.start..change.end]
    requires TokensTile(tokens, line, 0)
    ensures Labels(ChangePieces(change, tokens), change.change)
         == Wanted(line, tokens, change.change, change.start, change.end)
  {
    var overlapping := Overlapping(tokens, change);
    if |overlapping| <= 1 {
      var css := if overlapping == [] then "" else overlapping[0].css;
      forall i | change.start <= i < change.end ensures StyleAt(tokens, i) == css {
        var t := CoveringToken(tokens, line, 0, i);
        OverlappingHas(tokens, change, t);
      }
      assert ChangePieces(change, tokens) == [Piece(change.text, css)];
      WantedInOneStyle(line, tokens, change.change, change.start, change.end, change.text, css);
    } else {
      OnlyOverlappingMatter(change, tokens, change.start);
      MultiLabels(change, line, tokens, 0, change.start);
    }
  }

  lemma {:induction false} TilesAreWellFormed(changes: seq<Segment>, line: string, offset: nat)
    requires Tiles(changes, line, offset)
    ensures AllWellFormed(changes) && offset <= |line|
    ensures forall k :: 0 <= k < |changes| ==> offset <= changes[k].start <= changes[k].end
  {
    if changes != [] {
      TilesAreWellFormed(changes[1..], line, changes[0].end);
      assert forall k :: 0 < k < |changes| ==> changes[k] == changes[1..][k - 1];
    }
  }

  /** Merging loses nothing and mislabels nothing: when tokens and changes both tile the line, what
      is emitted is the line, every character in the style of the token that covers it and under
      the change that covers it. */
  lemma {:induction false} MergeLabelsEveryCharacter(line: string, tokens: seq<Token>, changes: seq<Segment>,
                                                     offset: nat)
    requires TokensTile(tokens, line, 0) && Tiles(changes, line, offset)
    ensures AllWellFormed(changes) && Labelled(AllLabels(tokens, changes), line, tokens, changes, offset)
  {
    TilesAreWellFormed(changes, line, offset);
    if changes != [] {
      var change := changes[0];
      ChangeLabels(change, line, tokens);
      MergeLabelsEveryCharacter(line, tokens, changes[1..], change.end);
      var head, rest := Wanted(line, tokens, change.change, offset, change.end), AllLabels(tokens, changes[1..]);
      assert AllLabels(tokens, changes) == head + rest;
      JoinedLabels(line, tokens, changes, offset, head, rest);
    }
  }

  /** Every character from `offset` on has its label. */
  ghost predicate Labelled(labels: seq<Label>, line: string, tokens: seq<Token>, changes: seq<Segment>, offset: nat) {
    && offset + |labels| == |line|
    && forall i :: offset <= i < |line| ==>
      labels[i - offset] == Label(line[i], StyleAt(tokens, i), ChangeAt(changes, i))
  }

  lemma JoinedLabels(line: string, tokens: seq<Token>, changes: seq<Segment>, offset: nat, head: seq<Label>,
                     rest: seq<Label>)
    requires changes != [] && changes[0].start == offset <= changes[0].end <= |line|
    requires head == Wanted(line, tokens, changes[0].change, offset, changes[0].end)
    requires Labelled(rest, line, tokens, changes[1..], changes[0].end)
    ensures Labelled(head + rest, line, tokens, changes, offset)
  {
    forall i | offset <= i < |line|
      ensures (head + rest)[i - offset] == Label(line[i], StyleAt(tokens, i), ChangeAt(changes, i))
    {
      if i < changes[0].end {
        assert (head + rest)[i - offset] == head[i - offset];
      } else {
        assert (head + rest)[i - offset] == rest[i - changes[0].end];
      }
    }
  }

  // Back from HTML ------------------------------------------------------------------------------

  /** What the text at some place is inside of: a span with attributes, an insertion or a deletion. */
  datatype Open = Open(css: string, change: ChangeType)

  function Inside(tag: string, open: Open): Open {
    if "span " <= tag then open.(css := tag[5..])
    else if tag == "/span" then open.(css := "")
    else if tag == "ins" then open.(change := Insert)
    else if tag == "del" then open.(change := Delete)
    else if tag == "/ins" || tag == "/del" then open.(change := Equal)
    else open
  }

  /** What a browser shows: tags take effect, entities are resolved. */
  function Read(html: string, open: Open): seq<Label>
    decreases |html|
  {
    if html == "" then []
    else if html[0] == '<' then ReadTag(html[1..], "", open)
    else if "&amp;" <= html then [Label('&', open.css, open.change)] + Read(html[5..], open)
    else if "&lt;" <= html then [Label('<', open.css, open.change)] + Read(html[4..], open)
    else if "&gt;" <= html then [Label('>', open.css, open.change)] + Read(html[4..], open)
    else [Label(html[0], open.css, open.change)] + Read(html[1..], open)
  }

  function ReadTag(html: string, tag: string, open: Open): seq<Label>
    decreases |html|
  {
    if html == "" then []
    else if html[0] == '>' then Read(html[1..], Inside(tag, open))
    else ReadTag(html[1..], tag + [html[0]], open)
  }

  function TextContent(html: string): string {
    var labels := Read(html, Open("", Equal));
    seq(|labels|, i requires 0 <= i < |labels| => labels[i].c)
  }

  lemma TagTakesEffect(tag: string, open: Open, rest: string)
    requires '>' !in tag
    ensures Read("<" + tag + ">" + rest, open) == Read(rest, Inside(tag, open))
  {
    var html := "<" + tag + ">" + rest;
    assert html[1..] == tag + ">" + rest;
    WithinTag("", tag, open, rest);
    assert "" + tag == tag;
  }

  lemma {:induction false} WithinTag(before: string, tag: string, open: Open, rest: string)
    requires '>' !in tag
    ensures ReadTag(tag + ">" + rest, before, open) == Read(rest, Inside(before + tag, open))
    decreases tag
  {
    var html := tag + ">" + rest;
    if tag == "" {
      assert html[1..] == rest && before + tag == before;
    } else {
      assert html[0] == tag[0] && html[1..] == tag[1..] + ">" + rest;
      WithinTag(before + [tag[0]], tag[1..], open, rest);
      assert before + [tag[0]] + tag[1..] == before + tag;
    }
  }

  lemma {:induction false} EscapeIsUndone(text: string, open: Open, rest: string)
    ensures Read(Escape(text) + rest, open) == InStyle(text, open.css, open.change) + Read(rest, open)
  {
    if text == "" {
      assert Escape(text) + rest == rest;
    } else {
      var tail := Escape(text[1..]) + rest;
      EscapeIsUndone(text[1..], open, rest);
      Assoc(EscapeChar(text[0]), Escape(text[1..]), rest);
      CharIsUndone(text[0], open, tail);
      var first, others := [Label(text[0], open.css, open.change)], InStyle(text[1..], open.css, open.change);
      Assoc(first, others, Read(rest, open));
      assert InStyle(text, open.css, open.change) == first + others;
    }
  }

  lemma CharIsUndone(c: char, open: Open, tail: string)
    ensures Read(EscapeChar(c) + tail, open) == [Label(c, open.css, open.change)] + Read(tail, open)
  {
    var html := EscapeChar(c) + tail;
    if c == '&' {
      assert html[5..] == tail && "&amp;" <= html;
    } else if c == '<' {
      assert html[4..] == tail && "&lt;" <= html && html[1] == 'l';
    } else if c == '>' {
      assert html[4..] == tail && "&gt;" <= html && html[1] == 'g';
    } else {
      assert html[0] == c && html[1..] == tail;
    }
  }

  predicate PlainCss(tokens: seq<Token>) {
    forall i :: 0 <= i < |tokens| ==> '>' !in tokens[i].css
  }

  /** Each piece is read in its style. */
  lemma {:induction false} SpansAreRead(pieces: seq<Piece>, change: ChangeType, rest: string)
    requires forall i :: 0 <= i < |pieces| ==> '>' !in pieces[i].css
    ensures Read(Spans(pieces) + rest, Open("", change)) == Labels(pieces, change) + Read(rest, Open("", change))
  {
    if pieces == [] {
      assert Spans(pieces) + rest == rest;
    } else {
      var p, tail := pieces[0], Spans(pieces[1..]) + rest;
      SpansAreRead(pieces[1..], change, rest);
      Assoc(Span(p), Spans(pieces[1..]), rest);
      SpanIsRead(p, change, tail);
      Assoc(InStyle(p.text, p.css, change), Labels(pieces[1..], change), Read(rest, Open("", change)));
    }
  }

  lemma SpanIs(opening: string, html: string, closing: string, tail: string)
    ensures opening + html + closing + tail == opening + (html + (closing + tail))
  {
  }

  lemma SpanIsRead(p: Piece, change: ChangeType, tail: string)
    requires '>' !in p.css
    ensures Read(Span(p) + tail, Open("", change)) == InStyle(p.text, p.css, change) + Read(tail, Open("", change))
  {
    if p.css == "" {
      EscapeIsUndone(p.text, Open("", change), tail);
    } else {
      var tag, styled := "span " + p.css, Open(p.css, change);
      SpanIs("<span " + p.css + ">", Escape(p.text), "</span>", tail);
      assert "<span " + p.css + ">" == "<" + tag + ">";
      assert "span " <= tag && tag[5..] == p.css;
      TagTakesEffect(tag, Open("", change), Escape(p.text) + ("</span>" + tail));
      EscapeIsUndone(p.text, styled, "</span>" + tail);
      assert "</span>" + tail == "<" + "/span" + ">" + tail;
      TagTakesEffect("/span", styled, tail);
    }
  }

  lemma {:induction false} PiecesKeepCss(change: Segment, tokens: seq<Token>, pos: nat)
    requires WellFormed(change) && change.start <= pos && PlainCss(tokens)
    ensures forall p :: p in MultiPieces(change, tokens, pos) ==> '>' !in p.css
    decreases tokens
  {
    if tokens != [] {
      var from, to := Max(pos, tokens[0].start), Min(change.end, tokens[0].end);
      PiecesKeepCss(change, tokens[1..], if from < to then to else pos);
    }
  }

  lemma {:induction false} OverlappingKeepsCss(tokens: seq<Token>, change: Segment)
    requires PlainCss(tokens)
    ensures PlainCss(Overlapping(tokens, change))
  {
    if tokens != [] { OverlappingKeepsCss(tokens[1..], change); }
  }

  lemma ChangeIsRead(change: Segment, tokens: seq<Token>, rest: string)
    requires WellFormed(change) && PlainCss(tokens)
    ensures Read(RenderWordChange(change, tokens) + rest, Open("", Equal))
         == Labels(ChangePieces(change, tokens), change.change) + Read(rest, Open("", Equal))
  {
    OverlappingKeepsCss(tokens, change);
    PiecesKeepCss(change, Overlapping(tokens, change), change.start);
    WrapIsRead(ChangePieces(change, tokens), change.change, rest);
  }

  lemma WrapIsRead(pieces: seq<Piece>, change: ChangeType, rest: string)
    requires forall i :: 0 <= i < |pieces| ==> '>' !in pieces[i].css
    ensures Read(Wrap(Spans(pieces), change) + rest, Open("", Equal))
         == Labels(pieces, change) + Read(rest, Open("", Equal))
  {
    if change == Equal {
      SpansAreRead(pieces, change, rest);
    } else {
      var name := if change == Insert then "ins" else "del";
      var html, tail := Spans(pieces), "<" + ("/" + name) + ">" + rest;
      WrapIs(html, change, rest);
      TagTakesEffect(name, Open("", Equal), html + tail);
      SpansAreRead(pieces, change, tail);
      TagTakesEffect("/" + name, Open("", change), rest);
    }
  }

  lemma WrapIs(html: string, change: ChangeType, rest: string)
    requires change != Equal
    ensures var name := if change == Insert then "ins" else "del";
      Wrap(html, change) + rest == "<" + name + ">" + (html + ("<" + ("/" + name) + ">" + rest))
  {
    var name := if change == Insert then "ins" else "del";
    var opening, closing := "<" + name + ">", "<" + ("/" + name) + ">";
    assert Wrap(html, change) == opening + html + closing;
    Assoc(opening, html, closing);
    Assoc(opening, html + closing, rest);
    Assoc(html, closing, rest);
  }

  /** A browser shows what was meant to be emitted. */
  lemma {:induction false} MergeIsRead(tokens: seq<Token>, changes: seq<Segment>)
    requires AllWellFormed(changes) && PlainCss(tokens)
    ensures Read(Merge(tokens, changes), Open("", Equal)) == AllLabels(tokens, changes)
  {
    if changes != [] {
      MergeIsRead(tokens, changes[1..]);
      ChangeIsRead(changes[0], tokens, Merge(tokens, changes[1..]));
    }
  }

  /** Shown in a browser, the rendered line reads as the line, and each character has the style of the
      token that covers it and is inserted, deleted or neither as the change that covers it says. */
  lemma MergeShowsLine(line: string, tokens: seq<Token>, changes: seq<Segment>, offset: nat)
    requires TokensTile(tokens, line, 0) && PlainCss(tokens) && Tiles(changes, line, offset)
    ensures AllWellFormed(changes) && offset <= |line|
    ensures TextContent(Merge(tokens, changes)) == line[offset..]
    ensures Labelled(Read(Merge(tokens, changes), Open("", Equal)), line, tokens, changes, offset)
  {
    MergeLabelsEveryCharacter(line, tokens, changes, offset);
    MergeIsRead(tokens, changes);
    var text, labels := TextContent(Merge(tokens, changes)), AllLabels(tokens, changes);
    forall i | 0 <= i < |labels| ensures text[i] == line[offset..][i] {
      assert labels[offset + i - offset].c == line[offset + i];
    }
  }

  /** The whole way: whatever edit script the word diff found, both lines are shown unchanged, in their
      tokens' styles. */
  lemma WordDiffShowsBothLines(oldLine: string, newLine: string, maxLength: nat, script: seq<Edit>,
                               oldTokens: seq<Token>, newTokens: seq<Token>)
    requires Spells(script, Delete) == oldLine && Spells(script, Insert) == newLine
    requires TokensTile(oldTokens, oldLine, 0) && PlainCss(oldTokens)
    requires TokensTile(newTokens, newLine, 0) && PlainCss(newTokens)
    ensures var (old_, new_) := HighlightWordDiff(oldLine, newLine, maxLength, script);
      && AllWellFormed(old_) && TextContent(Merge(oldTokens, old_)) == oldLine
      && AllWellFormed(new_) && TextContent(Merge(newTokens, new_)) == newLine
      && Labelled(Read(Merge(oldTokens, old_), Open("", Equal)), oldLine, oldTokens, old_, 0)
      && Labelled(Read(Merge(newTokens, new_), Open("", Equal)), newLine, newTokens, new_, 0)
  {
    WordChangesTile(oldLine, newLine, maxLength, script);
    var (old_, new_) := HighlightWordDiff(oldLine, newLine, maxLength, script);
    MergeShowsLine(oldLine, oldTokens, old_, 0);
    MergeShowsLine(newLine, newTokens, new_, 0);
  }

  /** When the script is over the words of the two lines, what a browser shows of either one is its
      characters in their tokens' styles, those between the first and the last change of the line as
      changed and the others as they are. */
  lemma HtmlMarksChangesExactly(oldLine: string, newLine: string, maxLength: nat, script: seq<Edit>,
                                side: ChangeType, tokens: seq<Token>, i: nat)
    requires WordsOf(script, Delete) == SplitIntoWords(oldLine) && WordsOf(script, Insert) == SplitIntoWords(newLine)
    requires side != Equal && ByteLength(oldLine) <= maxLength && ByteLength(newLine) <= maxLength
    requires TokensTile(tokens, if side == Delete then oldLine else newLine, 0) && PlainCss(tokens)
    requires i < |if side == Delete then oldLine else newLine|
    ensures var line := if side == Delete then oldLine else newLine;
      var (old_, new_) := HighlightWordDiff(oldLine, newLine, maxLength, script);
      var shown := if side == Delete then old_ else new_;
      && AllWellFormed(shown) && |Read(Merge(tokens, shown), Open("", Equal))| == |line|
      && Read(Merge(tokens, shown), Open("", Equal))[i] == Label(line[i], StyleAt(tokens, i),
           if BetweenChanges(SideSegments(script, side, 0), side, i) then side else Equal)
  {
    var line := if side == Delete then oldLine else newLine;
    var (old_, new_) := HighlightWordDiff(oldLine, newLine, maxLength, script);
    var shown := if side == Delete then old_ else new_;
    WordsSpell(script, Delete);
    WordsSpell(script, Insert);
    WordsAreMaximalRuns(oldLine);
    WordsAreMaximalRuns(newLine);
    WordChangesTile(oldLine, newLine, maxLength, script);
    MergeShowsLine(line, tokens, shown, 0);
    ChangedCharactersExactly(oldLine, newLine, maxLength, script, side, i);
    assert Read(Merge(tokens, shown), Open("", Equal))[i - 0]
        == Label(line[i], StyleAt(tokens, i), ChangeAt(shown, i));
  }
}
