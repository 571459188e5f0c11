/** Greedy matching by similarity, and how lines of a change block are paired with it
    (apdiff-viewer/src/diff/mod.rs:612-759). Similarities are taken as exact. */
module DiffMatching {
  import opened Prelude

  datatype Candidate = Candidate(left: nat, right: nat, similarity: real)

  // Sorting -----------------------------------------------------------------------------------

  predicate SortedDown(cs: seq<Candidate>) {
    forall i, j :: 0 <= i < j < |cs| ==> cs[i].similarity >= cs[j].similarity
  }

  /** Before the first candidate that is no better, so that equals keep their order. */
  function Insert(c: Candidate, cs: seq<Candidate>): seq<Candidate> {
    if cs == [] || c.similarity >= cs[0].similarity then [c] + cs
    else [cs[0]] + Insert(c, cs[1..])
  }

  function SortDown(cs: seq<Candidate>): seq<Candidate> {
    if cs == [] then [] else Insert(cs[0], SortDown(cs[1..]))
  }

  lemma {:induction false} InsertKeepsOrder(c: Candidate, cs: seq<Candidate>)
    requires SortedDown(cs)
    ensures SortedDown(Insert(c, cs))
    ensures forall d :: d in Insert(c, cs) <==> d == c || d in cs
  {
    if cs != [] && c.similarity < cs[0].similarity {
      InsertKeepsOrder(c, cs[1..]);
      var rest := Insert(c, cs[1..]);
      assert forall d :: d in rest ==> d.similarity <= cs[0].similarity;
      assert forall i :: 0 <= i < |rest| ==> rest[i] in rest;
    }
  }

  lemma {:induction false} SortDownSorts(cs: seq<Candidate>)
    ensures SortedDown(SortDown(cs))
    ensures forall d :: d in SortDown(cs) <==> d in cs
  {
    if cs != [] {
      SortDownSorts(cs[1..]);
      InsertKeepsOrder(cs[0], SortDown(cs[1..]));
    }
  }

  function WithSimilarity(cs: seq<Candidate>, v: real): seq<Candidate> {
    if cs == [] then []
    else if cs[0].similarity == v then [cs[0]] + WithSimilarity(cs[1..], v)
    else WithSimilarity(cs[1..], v)
  }

  lemma {:induction false} InsertIsStable(c: Candidate, cs: seq<Candidate>, v: real)
    ensures WithSimilarity(Insert(c, cs), v) == WithSimilarity([c] + cs, v)
    ensures multiset(Insert(c, cs)) == multiset([c] + cs)
  {
    if cs != [] && c.similarity < cs[0].similarity {
      var rest := Insert(c, cs[1..]);
      InsertIsStable(c, cs[1..], v);
      assert ([c] + cs[1..])[1..] == cs[1..] && ([c] + cs)[1..] == cs && ([cs[0]] + rest)[1..] == rest;
      assert cs == [cs[0]] + cs[1..];
    }
  }

  /** Nothing is lost or repeated, and candidates that are equally similar keep their order. */
  lemma {:induction false} SortDownIsStable(cs: seq<Candidate>, v: real)
    ensures WithSimilarity(SortDown(cs), v) == WithSimilarity(cs, v)
    ensures multiset(SortDown(cs)) == multiset(cs)
  {
    if cs != [] {
      SortDownIsStable(cs[1..], v);
      var rest := SortDown(cs[1..]);
      InsertIsStable(cs[0], rest, v);
      assert ([cs[0]] + rest)[1..] == rest && cs == [cs[0]] + cs[1..];
    }
  }

  // Greedy choice -------------------------------------------------------------------------------

  function Greedy(cs: seq<Candidate>, threshold: real, usedLeft: set<nat>, usedRight: set<nat>): seq<Candidate> {
    if cs == [] then []
    else
      var c := cs[0];
      if c.left !in usedLeft && c.right !in usedRight && c.similarity > threshold then
        [c] + Greedy(cs[1..], threshold, usedLeft + {c.left}, usedRight + {c.right})
      else Greedy(cs[1..], threshold, usedLeft, usedRight)
  }

  predicate SharesEndpoint(a: Candidate, c: Candidate) {
    a.left == c.left || a.right == c.right
  }

  /** No two chosen candidates share an endpoint. */
  predicate Injective(cs: seq<Candidate>) {
    forall i, j :: 0 <= i < j < |cs| ==> !SharesEndpoint(cs[i], cs[j])
  }

  ghost predicate Blocked(chosen: seq<Candidate>, c: Candidate) {
    exists a :: a in chosen && SharesEndpoint(a, c) && a.similarity >= c.similarity
  }

  lemma {:induction false} GreedyChooses(cs: seq<Candidate>, threshold: real, usedLeft: set<nat>, usedRight: set<nat>)
    requires SortedDown(cs)
    ensures var chosen := Greedy(cs, threshold, usedLeft, usedRight);
      && Injective(chosen)
      && (forall a :: a in chosen ==>
            a in cs && a.similarity > threshold && a.left !in usedLeft && a.right !in usedRight)
      && (forall c :: c in cs && c.similarity > threshold && c !in chosen ==>
            c.left in usedLeft || c.right in usedRight || Blocked(chosen, c))
  {
    if cs != [] {
      var c := cs[0];
      var takes := c.left !in usedLeft && c.right !in usedRight && c.similarity > threshold;
      var left := if takes then usedLeft + {c.left} else usedLeft;
      var right := if takes then usedRight + {c.right} else usedRight;
      GreedyChooses(cs[1..], threshold, left, right);
      var rest, chosen := Greedy(cs[1..], threshold, left, right), Greedy(cs, threshold, usedLeft, usedRight);
      assert takes ==> chosen == [c] + rest && c in chosen;
      assert forall a :: a in rest ==> a in chosen;
      forall d | d in cs && d.similarity > threshold && d !in chosen
        ensures d.left in usedLeft || d.right in usedRight || Blocked(chosen, d)
      {
        if d == c {
          assert !takes;
        } else {
          assert d in cs[1..] && c.similarity >= d.similarity;
          if Blocked(rest, d) {
            var a :| a in rest && SharesEndpoint(a, d) && a.similarity >= d.similarity;
            assert a in chosen;
          } else if takes && SharesEndpoint(c, d) {
            assert Blocked(chosen, d);
          }
        }
      }
    }
  }

  // Pairing lines -------------------------------------------------------------------------------

  const WINDOW_SIZE := 50
  const MAX_BLOCK_SIZE_FOR_MATCHING := 200
  const MAX_LINE_SIMILARITY_LENGTH := 1000
  const LINE_SIMILARITY_THRESHOLD := 0.25
  const LENGTH_SIMILARITY_RATIO := 0.5

  predicate AreLengthsSimilar(m: nat, n: nat) {
    if m == 0 && n == 0 then true
    else (if m < n then m else n) as real / (if m < n then n else m) as real >= LENGTH_SIMILARITY_RATIO
  }

  /** Neither line is more than twice as long as the other. */
  lemma SimilarLengths(m: nat, n: nat)
    ensures AreLengthsSimilar(m, n) <==> m <= 2 * n && n <= 2 * m
  {
    if m != 0 || n != 0 {
      var low, high := if m < n then m else n, if m < n then n else m;
      var l, h := low as real, high as real;
      assert l + l == (low + low) as real;
      HalfOrMore(l, h);
    }
  }

  lemma HalfOrMore(l: real, h: real)
    requires h > 0.0
    ensures l / h >= 0.5 <==> l + l >= h
  {
    var ratio := l / h;
    assert ratio * h == l;
    if ratio >= 0.5 {
      assert ratio * h >= 0.5 * h;
    } else {
      assert ratio * h < 0.5 * h;
    }
  }

  /** `distance` is the edit distance between two lines. Lengths are in bytes. */
  function LineSimilarity(a: string, b: string, distance: (string, string) -> nat): real {
    var m, n := ByteLength(a), ByteLength(b);
    if a == "" && b == "" then 1.0
    else if m > MAX_LINE_SIMILARITY_LENGTH || n > MAX_LINE_SIMILARITY_LENGTH then 0.0
    else 1.0 - distance(a, b) as real / (if m < n then n else m) as real
  }

  /** What is worth comparing: lines of similar length, and in large blocks only those at a
      similar place. */
  predicate Considered(deletes: seq<string>, adds: seq<string>, i: nat, j: nat)
    requires i < |deletes| && j < |adds|
  {
    && AreLengthsSimilar(ByteLength(deletes[i]), ByteLength(adds[j]))
    && (|deletes| > MAX_BLOCK_SIZE_FOR_MATCHING || |adds| > MAX_BLOCK_SIZE_FOR_MATCHING ==>
          i - WINDOW_SIZE <= j < i + WINDOW_SIZE)
  }

  /** The candidates for delete line `i`, from add line `j` on. */
  function CandidatesFor(deletes: seq<string>, adds: seq<string>, distance: (string, string) -> nat, i: nat, j: nat)
    : seq<Candidate>
    requires i < |deletes| && j <= |adds|
    decreases |adds| - j
  {
    if j == |adds| then []
    else
      var similarity := LineSimilarity(deletes[i], adds[j], distance);
      (if Considered(deletes, adds, i, j) && similarity >= LINE_SIMILARITY_THRESHOLD
       then [Candidate(i, j, similarity)] else [])
        + CandidatesFor(deletes, adds, distance, i, j + 1)
  }

  function Candidates(deletes: seq<string>, adds: seq<string>, distance: (string, string) -> nat, i: nat)
    : seq<Candidate>
    requires i <= |deletes|
    decreases |deletes| - i
  {
    if i == |deletes| then []
    else CandidatesFor(deletes, adds, distance, i, 0) + Candidates(deletes, adds, distance, i + 1)
  }

  ghost predicate IsCandidate(deletes: seq<string>, adds: seq<string>, distance: (string, string) -> nat,
                              c: Candidate)
  {
    && c.left < |deletes| && c.right < |adds| && Considered(deletes, adds, c.left, c.right)
    && c.similarity == LineSimilarity(deletes[c.left], adds[c.right], distance) >= LINE_SIMILARITY_THRESHOLD
  }

  lemma {:induction false} CandidatesForAre(deletes: seq<string>, adds: seq<string>, distance: (string, string) -> nat,
                                            i: nat, j: nat, c: Candidate)
    requires i < |deletes| && j <= |adds|
    ensures c in CandidatesFor(deletes, adds, distance, i, j)
       <==> IsCandidate(deletes, adds, distance, c) && c.left == i && c.right >= j
    decreases |adds| - j
  {
    if j < |adds| {
      CandidatesForAre(deletes, adds, distance, i, j + 1, c);
      var similarity := LineSimilarity(deletes[i], adds[j], distance);
      var here := Considered(deletes, adds, i, j) && similarity >= LINE_SIMILARITY_THRESHOLD;
      var rest := CandidatesFor(deletes, adds, distance, i, j + 1);
      assert CandidatesFor(deletes, adds, distance, i, j) ==
        (if here then [Candidate(i, j, similarity)] else []) + rest;
      if c.left == i && c.right == j {
        assert c !in rest;
        assert IsCandidate(deletes, adds, distance, c) <==> here && c.similarity == similarity;
      }
    }
  }

  lemma {:induction false} CandidatesAre(deletes: seq<string>, adds: seq<string>, distance: (string, string) -> nat,
                                         i: nat, c: Candidate)
    requires i <= |deletes|
    ensures c in Candidates(deletes, adds, distance, i) <==> IsCandidate(deletes, adds, distance, c) && c.left >= i
    decreases |deletes| - i
  {
    if i < |deletes| {
      CandidatesForAre(deletes, adds, distance, i, 0, c);
      CandidatesAre(deletes, adds, distance, i + 1, c);
    }
  }

  /** `find_best_line_matches`, or `find_windowed_matches` for a large block. */
  function LineMatches(deletes: seq<string>, adds: seq<string>, distance: (string, string) -> nat): seq<Candidate> {
    Greedy(SortDown(Candidates(deletes, adds, distance, 0)), LINE_SIMILARITY_THRESHOLD, {}, {})
  }

  /** No line is in two matches, every match is of lines that were compared and are similar enough,
      and a pair that is similar enough and was left out lost a line to a pair at least as similar. */
  lemma LineMatchesAreBlocking(deletes: seq<string>, adds: seq<string>, distance: (string, string) -> nat, i: nat,
                               j: nat)
    requires i < |deletes| && j < |adds|
    ensures var matches := LineMatches(deletes, adds, distance);
      var c := Candidate(i, j, LineSimilarity(deletes[i], adds[j], distance));
      && Injective(matches)
      && (forall a :: a in matches ==>
        IsCandidate(deletes, adds, distance, a) && a.similarity > LINE_SIMILARITY_THRESHOLD)
      && (Considered(deletes, adds, i, j) && c.similarity > LINE_SIMILARITY_THRESHOLD ==>
        c in matches || Blocked(matches, c))
  {
    var all := Candidates(deletes, adds, distance, 0);
    var sorted := SortDown(all);
    SortDownSorts(all);
    GreedyChooses(sorted, LINE_SIMILARITY_THRESHOLD, {}, {});
    forall a ensures a in sorted <==> IsCandidate(deletes, adds, distance, a) {
      CandidatesAre(deletes, adds, distance, 0, a);
    }
  }

  // What similarity means -----------------------------------------------------------------------

  /** What is used of the edit distance: it is 0 for equal lines only, and no more edits are needed
      than the longer line has characters. */
  ghost predicate IsDistance(distance: (string, string) -> nat) {
    forall a: string, b: string ::
      (distance(a, b) == 0 <==> a == b) && (distance(a, b) <= |a| || distance(a, b) <= |b|)
  }

  function Longer(a: string, b: string): nat {
    if ByteLength(a) < ByteLength(b) then ByteLength(b) else ByteLength(a)
  }

  /** Lines in bytes that are compared by their edits. */
  predicate Comparable(a: string, b: string) {
    0 < Longer(a, b) <= MAX_LINE_SIMILARITY_LENGTH
  }

  /** `v` is the part of `n` that is not among the `d`. */
  ghost predicate IsPart(v: real, d: nat, n: nat) { v * n as real == n as real - d as real }

  lemma Part(x: nat, y: nat)
    requires x <= y && y > 0
    ensures var v := 1.0 - x as real / y as real;
      0.0 <= v <= 1.0 && IsPart(v, x, y) && (v == 1.0 <==> x == 0)
  {
    PartOf(x as real, y as real);
  }

  lemma PartOf(d: real, n: real)
    requires 0.0 <= d <= n && n > 0.0
    ensures var v := 1.0 - d / n;
      0.0 <= v <= 1.0 && v * n == n - d && (v == 1.0 <==> d == 0.0)
  {
    var q := d / n;
    assert q * n == d;
    assert (1.0 - q) * n == n - q * n;
    assert q > 1.0 ==> q * n > n;
    assert q == 0.0 <==> d == 0.0;
  }

  lemma DistanceIs(a: string, b: string, distance: (string, string) -> nat)
    requires IsDistance(distance)
    ensures distance(a, b) == 0 <==> a == b
    ensures distance(a, b) <= Longer(a, b)
  {
    assert |a| <= ByteLength(a) && |b| <= ByteLength(b);
  }

  lemma Compared(a: string, b: string, distance: (string, string) -> nat)
    requires Comparable(a, b)
    ensures LineSimilarity(a, b, distance) == 1.0 - distance(a, b) as real / Longer(a, b) as real
  {
  }

  lemma NotCompared(a: string, b: string, distance: (string, string) -> nat)
    requires !Comparable(a, b)
    ensures LineSimilarity(a, b, distance) == if a == "" && b == "" then 1.0 else 0.0
  {
    assert |a| <= ByteLength(a) && |b| <= ByteLength(b);
  }

  /** Similarity is between 0 and 1. It is the part of the longer line that no edit touches, so it is 1
      for equal lines and for no others. Lines that are too long are not alike at all. */
  lemma SimilarityIs(a: string, b: string, distance: (string, string) -> nat)
    requires IsDistance(distance)
    ensures var v := LineSimilarity(a, b, distance);
      && 0.0 <= v <= 1.0
      && (Comparable(a, b) ==> IsPart(v, distance(a, b), Longer(a, b)))
      && (Longer(a, b) > MAX_LINE_SIMILARITY_LENGTH ==> v == 0.0)
      && (v == 1.0 <==> a == b && Longer(a, b) <= MAX_LINE_SIMILARITY_LENGTH)
  {
    if Comparable(a, b) {
      DistanceIs(a, b, distance);
      Compared(a, b, distance);
      Part(distance(a, b), Longer(a, b));
    } else {
      NotCompared(a, b, distance);
    }
  }

  /** At the same longer length, fewer edits make lines more alike. */
  lemma FewerEditsMoreAlike(a: string, b: string, c: string, d: string, distance: (string, string) -> nat)
    requires Comparable(a, b) && Longer(a, b) == Longer(c, d)
    ensures LineSimilarity(a, b, distance) > LineSimilarity(c, d, distance) <==> distance(a, b) < distance(c, d)
  {
    Compared(a, b, distance);
    Compared(c, d, distance);
    Fewer(distance(a, b) as real, distance(c, d) as real, Longer(a, b) as real);
  }

  lemma Fewer(x: real, y: real, n: real)
    requires n > 0.0
    ensures x / n < y / n <==> x < y
  {
    var p, q := x / n, y / n;
    assert p * n == x && q * n == y;
    assert (q - p) * n == y - x;
    assert q - p > 0.0 <==> (q - p) * n > 0.0;
  }

  /** A deleted line that is also among the added ones, and is compared with it, is matched to an equal
      line, or the added line is. */
  lemma EqualLinesAreMatched(deletes: seq<string>, adds: seq<string>, distance: (string, string) -> nat, i: nat, j: nat)
    requires IsDistance(distance) && i < |deletes| && j < |adds|
    requires deletes[i] == adds[j] && ByteLength(deletes[i]) <= MAX_LINE_SIMILARITY_LENGTH
    requires Considered(deletes, adds, i, j)
    ensures exists m :: m in LineMatches(deletes, adds, distance) && (m.left == i || m.right == j)
              && m.left < |deletes| && m.right < |adds| && deletes[m.left] == adds[m.right]
  {
    var matches := LineMatches(deletes, adds, distance);
    var c := Candidate(i, j, LineSimilarity(deletes[i], adds[j], distance));
    SimilarityIs(deletes[i], adds[j], distance);
    LineMatchesAreBlocking(deletes, adds, distance, i, j);
    if c !in matches {
      var m :| m in matches && SharesEndpoint(m, c) && m.similarity >= c.similarity;
      SimilarityIs(deletes[m.left], adds[m.right], distance);
    }
  }

  /** Which lines are matched, in edits: a pair of similar lines that was compared and left out lost one
      of the two to a pair that is no less alike. */
  lemma LeftOutForFewerEdits(deletes: seq<string>, adds: seq<string>, distance: (string, string) -> nat, i: nat, j: nat)
    requires IsDistance(distance) && i < |deletes| && j < |adds| && Comparable(deletes[i], adds[j])
    requires Considered(deletes, adds, i, j)
    requires 4 * (Longer(deletes[i], adds[j]) - distance(deletes[i], adds[j])) > Longer(deletes[i], adds[j])
    ensures exists m :: m in LineMatches(deletes, adds, distance) && (m.left == i || m.right == j)
              && m.left < |deletes| && m.right < |adds|
              && distance(deletes[m.left], adds[m.right]) * Longer(deletes[i], adds[j])
                 <= distance(deletes[i], adds[j]) * Longer(deletes[m.left], adds[m.right])
  {
    var matches := LineMatches(deletes, adds, distance);
    var a, b := deletes[i], adds[j];
    var c := Candidate(i, j, LineSimilarity(a, b, distance));
    SimilarityIs(a, b, distance);
    SimilarEnough(a, b, distance);
    LineMatchesAreBlocking(deletes, adds, distance, i, j);
    if c !in matches {
      var m :| m in matches && SharesEndpoint(m, c) && m.similarity >= c.similarity;
      NoMoreEdits(deletes[m.left], adds[m.right], a, b, distance);
    }
  }

  lemma SimilarEnough(a: string, b: string, distance: (string, string) -> nat)
    requires Comparable(a, b)
    ensures LineSimilarity(a, b, distance) > LINE_SIMILARITY_THRESHOLD
       <==> 4 * (Longer(a, b) - distance(a, b)) > Longer(a, b)
  {
    Compared(a, b, distance);
    var d: int, n: int := distance(a, b), Longer(a, b);
    Quarter(d as real, n as real);
    assert 4.0 * (n as real - d as real) == (4 * (n - d)) as real;
  }

  lemma Quarter(d: real, n: real)
    requires n > 0.0
    ensures 1.0 - d / n > 0.25 <==> 4.0 * (n - d) > n
  {
    var q := d / n;
    assert q * n == d;
    assert (0.75 - q) * n == 0.75 * n - d;
    assert 0.75 - q > 0.0 <==> (0.75 - q) * n > 0.0;
  }

  lemma NoMoreEdits(a: string, b: string, c: string, d: string, distance: (string, string) -> nat)
    requires IsDistance(distance) && Comparable(c, d)
    requires LineSimilarity(a, b, distance) >= LineSimilarity(c, d, distance) > 0.0
    ensures distance(a, b) * Longer(c, d) <= distance(c, d) * Longer(a, b)
  {
    DistanceIs(a, b, distance);
    Compared(c, d, distance);
    if Comparable(a, b) {
      Compared(a, b, distance);
      NoMore(distance(a, b), distance(c, d), Longer(a, b), Longer(c, d));
    } else {
      NotCompared(a, b, distance);
      assert distance(a, b) == 0;
    }
  }

  lemma NoMore(x: nat, y: nat, m: nat, n: nat)
    requires m > 0 && n > 0 && x as real / m as real <= y as real / n as real
    ensures x * n <= y * m
  {
    Cross(x as real, y as real, m as real, n as real);
    assert (x * n) as real == (x as real) * (n as real) && (y * m) as real == (y as real) * (m as real);
  }

  lemma Cross(x: real, y: real, m: real, n: real)
    requires m > 0.0 && n > 0.0 && x / m <= y / n
    ensures x * n <= y * m
  {
    var p, q := x / m, y / n;
    assert p * m == x && q * n == y;
    Scaled(p, q, m, n);
  }

  lemma Scaled(p: real, q: real, m: real, n: real)
    requires p <= q && m >= 0.0 && n >= 0.0
    ensures (p * m) * n <= (q * n) * m
  {
    var k := m * n;
    assert (q - p) * k >= 0.0;
    assert (q * n) * m == q * k && (p * m) * n == p * k;
  }
}
