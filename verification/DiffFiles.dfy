/** Which file of the old tree is shown against which file of the new one
    (apdiff-viewer/src/diff/compute.rs:19-160). */
module DiffFiles {
  import opened Prelude
  import opened DiffMatching

  type Path = string

  datatype FileContent = Text(text: string) | Binary(data: seq<bv8>)

  type FileTree = map<Path, FileContent>

  const RENAME_SIMILARITY_THRESHOLD := 0.5

  // Renames, as pairs of places in the lists of deleted and of added paths ------------------------

  type Pairs = seq<(nat, nat)>

  function Lefts(pairs: Pairs): set<nat> { set k | 0 <= k < |pairs| :: pairs[k].0 }

  function Rights(pairs: Pairs): set<nat> { set k | 0 <= k < |pairs| :: pairs[k].1 }

  /** No two pairs share a file. */
  ghost predicate Matching(pairs: Pairs, m: nat, n: nat) {
    && (forall k :: 0 <= k < |pairs| ==> pairs[k].0 < m && pairs[k].1 < n)
    && (forall k, l :: 0 <= k < l < |pairs| ==> pairs[k].0 != pairs[l].0 && pairs[k].1 != pairs[l].1)
  }

  ghost predicate Listed(tree: FileTree, paths: seq<Path>) {
    NoDup(paths) && forall i :: 0 <= i < |paths| ==> paths[i] in tree
  }

  predicate SameContent(oldTree: FileTree, newTree: FileTree, deleted: seq<Path>, added: seq<Path>, i: nat, j: nat)
    requires i < |deleted| && deleted[i] in oldTree && j < |added| && added[j] in newTree
  {
    oldTree[deleted[i]] == newTree[added[j]]
  }

  /** The first pass: each deleted file with the first added one of the same content that is left. */
  method ExactRenames(oldTree: FileTree, newTree: FileTree, deleted: seq<Path>, added: seq<Path>) returns (pairs: Pairs)
    requires Listed(oldTree, deleted) && Listed(newTree, added)
    ensures Matching(pairs, |deleted|, |added|)
    ensures forall k :: 0 <= k < |pairs| ==> SameContent(oldTree, newTree, deleted, added, pairs[k].0, pairs[k].1)
    ensures forall i: nat, j: nat ::
      i < |deleted| && j < |added| && SameContent(oldTree, newTree, deleted, added, i, j) ==>
        i in Lefts(pairs) || j in Rights(pairs)
  {
    pairs := [];
    for i := 0 to |deleted|
      invariant Matching(pairs, |deleted|, |added|)
      invariant forall k :: 0 <= k < |pairs| ==>
                  pairs[k].0 < i && SameContent(oldTree, newTree, deleted, added, pairs[k].0, pairs[k].1)
      invariant forall x: nat, j: nat :: x < i && j < |added| && SameContent(oldTree, newTree, deleted, added, x, j) ==>
                  x in Lefts(pairs) || j in Rights(pairs)
    {
      ghost var before := pairs;
      var j := 0;
      while j < |added|
        invariant 0 <= j <= |added| && pairs == before
        invariant forall y: nat :: y < j && SameContent(oldTree, newTree, deleted, added, i, y) ==> y in Rights(pairs)
      {
        if j !in Rights(pairs) && oldTree[deleted[i]] == newTree[added[j]] {
          pairs := pairs + [(i, j)];
          break;
        }
        j := j + 1;
      }
      assert before <= pairs;
      GrowingPairs(before, pairs);
      assert pairs != before ==> pairs[|pairs| - 1].0 == i;
    }
  }

  lemma GrowingPairs(before: Pairs, pairs: Pairs)
    requires before <= pairs
    ensures Lefts(before) <= Lefts(pairs) && Rights(before) <= Rights(pairs)
  {
    forall x | x in Lefts(before) ensures x in Lefts(pairs) {
      var k :| 0 <= k < |before| && before[k].0 == x;
      assert pairs[k].0 == x;
    }
    forall x | x in Rights(before) ensures x in Rights(pairs) {
      var k :| 0 <= k < |before| && before[k].1 == x;
      assert pairs[k].1 == x;
    }
  }

  ghost predicate Similar(oldTree: FileTree, newTree: FileTree, deleted: seq<Path>, added: seq<Path>,
                          ratio: (string, string) -> real, exact: Pairs, c: Candidate)
    requires Listed(oldTree, deleted) && Listed(newTree, added)
  {
    && c.left < |deleted| && c.right < |added| && c.left !in Lefts(exact) && c.right !in Rights(exact)
    && oldTree[deleted[c.left]].Text? && newTree[added[c.right]].Text?
    && c.similarity == ratio(oldTree[deleted[c.left]].text, newTree[added[c.right]].text) >= RENAME_SIMILARITY_THRESHOLD
  }

  /** The pairs of text files left over that are similar enough. */
  method SimilarPairs(oldTree: FileTree, newTree: FileTree, deleted: seq<Path>, added: seq<Path>,
                      ratio: (string, string) -> real, exact: Pairs) returns (cs: seq<Candidate>)
    requires Listed(oldTree, deleted) && Listed(newTree, added)
    ensures forall c :: c in cs <==> Similar(oldTree, newTree, deleted, added, ratio, exact, c)
  {
    cs := [];
    for i := 0 to |deleted|
      invariant forall c :: c in cs <==> c.left < i && Similar(oldTree, newTree, deleted, added, ratio, exact, c)
    {
      if i in Lefts(exact) || !oldTree[deleted[i]].Text? {
        continue;
      }
      for j := 0 to |added|
        invariant forall c :: c in cs <==> Similar(oldTree, newTree, deleted, added, ratio, exact, c)
                                           && (c.left < i || (c.left == i && c.right < j))
      {
        if j in Rights(exact) || !newTree[added[j]].Text? {
          continue;
        }
        var r := ratio(oldTree[deleted[i]].text, newTree[added[j]].text);
        if r >= RENAME_SIMILARITY_THRESHOLD {
          cs := cs + [Candidate(i, j, r)];
        }
      }
    }
  }

  /** The second pass over the sorted pairs. */
  method PickGreedily(cs: seq<Candidate>, exact: Pairs) returns (chosen: seq<Candidate>)
    requires forall c :: c in cs ==> c.similarity > 0.0
    ensures chosen == Greedy(cs, 0.0, Lefts(exact), Rights(exact))
  {
    chosen := [];
    var matchedOld, matchedNew := Lefts(exact), Rights(exact);
    assert cs[0..] == cs;
    for i := 0 to |cs|
      invariant chosen + Greedy(cs[i..], 0.0, matchedOld, matchedNew) == Greedy(cs, 0.0, Lefts(exact), Rights(exact))
    {
      assert cs[i..][1..] == cs[i + 1..];
      if cs[i].left in matchedOld || cs[i].right in matchedNew {
        continue;
      }
      Assoc(chosen, [cs[i]], Greedy(cs[i + 1..], 0.0, matchedOld + {cs[i].left}, matchedNew + {cs[i].right}));
      chosen := chosen + [cs[i]];
      matchedOld := matchedOld + {cs[i].left};
      matchedNew := matchedNew + {cs[i].right};
    }
    assert chosen + [] == chosen;
  }

  function PairOf(c: Candidate): (nat, nat) { (c.left, c.right) }

  /** `exact` renames come first and leave no two files of the same content unmatched; of the text
      files left, the similar ones are matched greedily; and no file is in two renames. */
  ghost predicate RenamesOk(oldTree: FileTree, newTree: FileTree, deleted: seq<Path>, added: seq<Path>,
                            ratio: (string, string) -> real, renames: Pairs, exact: Pairs, similar: seq<Candidate>)
    requires Listed(oldTree, deleted) && Listed(newTree, added)
  {
    && Matching(renames, |deleted|, |added|)
    && renames == exact + seq(|similar|, k requires 0 <= k < |similar| => PairOf(similar[k]))
    && (forall k :: 0 <= k < |exact| ==>
          && exact[k].0 < |deleted| && exact[k].1 < |added|
          && SameContent(oldTree, newTree, deleted, added, exact[k].0, exact[k].1))
    && (forall i: nat, j: nat :: i < |deleted| && j < |added| && SameContent(oldTree, newTree, deleted, added, i, j) ==>
          i in Lefts(exact) || j in Rights(exact))
    && (forall c :: c in similar ==> Similar(oldTree, newTree, deleted, added, ratio, exact, c))
    && (forall c :: Similar(oldTree, newTree, deleted, added, ratio, exact, c) && c !in similar ==> Blocked(similar, c))
  }

  method DetectRenames(oldTree: FileTree, newTree: FileTree, deleted: seq<Path>, added: seq<Path>,
                       ratio: (string, string) -> real)
    returns (renames: Pairs, exact: Pairs, similar: seq<Candidate>)
    requires Listed(oldTree, deleted) && Listed(newTree, added)
    ensures RenamesOk(oldTree, newTree, deleted, added, ratio, renames, exact, similar)
  {
    exact := ExactRenames(oldTree, newTree, deleted, added);
    var candidates := SimilarPairs(oldTree, newTree, deleted, added, ratio, exact);
    SortDownSorts(candidates);
    similar := PickGreedily(SortDown(candidates), exact);
    GreedyChooses(SortDown(candidates), 0.0, Lefts(exact), Rights(exact));
    renames := exact + seq(|similar|, k requires 0 <= k < |similar| => PairOf(similar[k]));
    JoinMatchings(exact, similar, |deleted|, |added|);
  }

  lemma JoinMatchings(exact: Pairs, similar: seq<Candidate>, m: nat, n: nat)
    requires Matching(exact, m, n) && Injective(similar)
    requires forall c :: c in similar ==>
      c.left < m && c.right < n && c.left !in Lefts(exact) && c.right !in Rights(exact)
    ensures Matching(exact + seq(|similar|, k requires 0 <= k < |similar| => PairOf(similar[k])), m, n)
  {
    var renames := exact + seq(|similar|, k requires 0 <= k < |similar| => PairOf(similar[k]));
    forall k, l | 0 <= k < l < |renames| ensures renames[k].0 != renames[l].0 && renames[k].1 != renames[l].1 {
      if k >= |exact| {
        assert !SharesEndpoint(similar[k - |exact|], similar[l - |exact|]);
      } else if l >= |exact| {
        assert exact[k].0 in Lefts(exact) && exact[k].1 in Rights(exact);
        assert similar[l - |exact|] in similar;
      }
    }
    forall k | 0 <= k < |renames| ensures renames[k].0 < m && renames[k].1 < n {
      if k >= |exact| { assert similar[k - |exact|] in similar; }
    }
  }

  // Pairing files -----------------------------------------------------------------------------------

  /** The paths of one tree that are in the other, or are not. */
  method Select(paths: seq<Path>, other: FileTree, inOther: bool) returns (r: seq<Path>)
    requires NoDup(paths)
    ensures NoDup(r) && forall p :: p in r <==> p in paths && (p in other) == inOther
  {
    r := [];
    for i := 0 to |paths|
      invariant NoDup(r) && forall p :: p in r <==> p in paths[..i] && (p in other) == inOther
    {
      assert paths[..i + 1] == paths[..i] + [paths[i]];
      if (paths[i] in other) == inOther {
        r := r + [paths[i]];
      }
    }
    assert paths[..|paths|] == paths;
  }

  function SelfPairs(paths: seq<Path>, skip: set<nat>, n: nat): seq<(Path, Path)>
    requires n <= |paths|
  {
    if n == 0 then []
    else SelfPairs(paths, skip, n - 1) + if n - 1 in skip then [] else [(paths[n - 1], paths[n - 1])]
  }

  function RenamePairs(deleted: seq<Path>, added: seq<Path>, renames: Pairs, n: nat): seq<(Path, Path)>
    requires Matching(renames, |deleted|, |added|) && n <= |renames|
  {
    if n == 0 then []
    else RenamePairs(deleted, added, renames, n - 1) + [(deleted[renames[n - 1].0], added[renames[n - 1].1])]
  }

  /** Files in both trees and files left over stand opposite their own path, renamed files opposite
      what they were renamed to. */
  function Chain(common: seq<Path>, deleted: seq<Path>, added: seq<Path>, renames: Pairs): seq<(Path, Path)>
    requires Matching(renames, |deleted|, |added|)
  {
    SelfPairs(common, {}, |common|) + SelfPairs(deleted, Lefts(renames), |deleted|)
      + SelfPairs(added, Rights(renames), |added|) + RenamePairs(deleted, added, renames, |renames|)
  }

  /** The pairs of files to compare. Every old path is on the old side of
      exactly one pair, and every new path on the new side of exactly one. */
  method FilePairs(oldTree: FileTree, newTree: FileTree, oldPaths: seq<Path>, newPaths: seq<Path>,
                   ratio: (string, string) -> real)
    returns (pairs: seq<(Path, Path)>, common: seq<Path>, deleted: seq<Path>, added: seq<Path>, renames: Pairs,
             exact: Pairs, similar: seq<Candidate>)
    requires NoDup(oldPaths) && (forall p :: p in oldPaths <==> p in oldTree)
    requires NoDup(newPaths) && (forall p :: p in newPaths <==> p in newTree)
    ensures Splits(oldTree, newTree, common, deleted, added) && Listed(oldTree, deleted) && Listed(newTree, added)
    ensures RenamesOk(oldTree, newTree, deleted, added, ratio, renames, exact, similar)
    ensures pairs == Chain(common, deleted, added, renames)
    ensures forall p :: p in oldTree ==> exists k :: Only(pairs, k, p, true)
    ensures forall p :: p in newTree ==> exists k :: Only(pairs, k, p, false)
  {
    common := Select(oldPaths, newTree, true);
    deleted := Select(oldPaths, newTree, false);
    added := Select(newPaths, oldTree, false);
    renames, exact, similar := DetectRenames(oldTree, newTree, deleted, added, ratio);
    pairs := ChainPairs(oldTree, newTree, common, deleted, added, renames);
  }

  ghost predicate Splits(oldTree: FileTree, newTree: FileTree, common: seq<Path>, deleted: seq<Path>,
                         added: seq<Path>)
  {
    && NoDup(common) && NoDup(deleted) && NoDup(added)
    && (forall p :: p in common <==> p in oldTree && p in newTree)
    && (forall p :: p in deleted <==> p in oldTree && p !in newTree)
    && (forall p :: p in added <==> p in newTree && p !in oldTree)
  }

  /** Pairs each of `paths` with itself, except those at the places in `skip`. */
  method AddSelfPairs(before: seq<(Path, Path)>, paths: seq<Path>, skip: set<nat>) returns (pairs: seq<(Path, Path)>)
    ensures pairs == before + SelfPairs(paths, skip, |paths|)
  {
    pairs := before;
    for i := 0 to |paths|
      invariant pairs == before + SelfPairs(paths, skip, i)
    {
      if i !in skip {
        Assoc(before, SelfPairs(paths, skip, i), [(paths[i], paths[i])]);
        pairs := pairs + [(paths[i], paths[i])];
      }
    }
  }

  /** The chain of the four kinds of pairs. */
  method ChainPairs(ghost oldTree: FileTree, ghost newTree: FileTree, common: seq<Path>, deleted: seq<Path>,
                    added: seq<Path>, renames: Pairs)
    returns (pairs: seq<(Path, Path)>)
    requires Splits(oldTree, newTree, common, deleted, added) && Matching(renames, |deleted|, |added|)
    ensures pairs == Chain(common, deleted, added, renames)
    ensures forall p :: p in oldTree ==> exists k :: Only(pairs, k, p, true)
    ensures forall p :: p in newTree ==> exists k :: Only(pairs, k, p, false)
  {
    pairs := AddSelfPairs([], common, {});
    assert pairs == SelfPairs(common, {}, |common|);
    pairs := AddSelfPairs(pairs, deleted, Lefts(renames));
    pairs := AddSelfPairs(pairs, added, Rights(renames));
    ghost var selfs := pairs;
    for i := 0 to |renames|
      invariant pairs == selfs + RenamePairs(deleted, added, renames, i)
    {
      ghost var before := RenamePairs(deleted, added, renames, i);
      Assoc(selfs, before, [(deleted[renames[i].0], added[renames[i].1])]);
      pairs := pairs + [(deleted[renames[i].0], added[renames[i].1])];
    }
    forall p | p in oldTree ensures exists k :: Only(pairs, k, p, true) {
      var k := ChainCovers(oldTree, newTree, common, deleted, added, renames, p, true);
    }
    forall p | p in newTree ensures exists k :: Only(pairs, k, p, false) {
      var k := ChainCovers(oldTree, newTree, common, deleted, added, renames, p, false);
    }
  }

  // Each path once ----------------------------------------------------------------------------------

  function Side(pair: (Path, Path), old_: bool): Path { if old_ then pair.0 else pair.1 }

  /** `p` is in pair `k`, on its old or new side, and in no other. */
  ghost predicate Only(pairs: seq<(Path, Path)>, k: nat, p: Path, old_: bool) {
    && k < |pairs| && Side(pairs[k], old_) == p
    && forall l :: 0 <= l < |pairs| && Side(pairs[l], old_) == p ==> l == k
  }

  /** How often `p` is on a side. */
  function Times(pairs: seq<(Path, Path)>, p: Path, old_: bool): nat {
    if pairs == [] then 0 else (if Side(pairs[0], old_) == p then 1 else 0) + Times(pairs[1..], p, old_)
  }

  lemma {:induction false} TimesAdd(a: seq<(Path, Path)>, b: seq<(Path, Path)>, p: Path, old_: bool)
    ensures Times(a + b, p, old_) == Times(a, p, old_) + Times(b, p, old_)
  {
    if a == [] {
      assert a + b == b;
    } else {
      assert (a + b)[1..] == a[1..] + b;
      TimesAdd(a[1..], b, p, old_);
    }
  }

  lemma {:induction false} NoTimes(pairs: seq<(Path, Path)>, p: Path, old_: bool)
    requires Times(pairs, p, old_) == 0
    ensures forall l :: 0 <= l < |pairs| ==> Side(pairs[l], old_) != p
  {
    if pairs != [] {
      NoTimes(pairs[1..], p, old_);
      assert forall l :: 0 < l < |pairs| ==> pairs[l] == pairs[1..][l - 1];
    }
  }

  lemma {:induction false} OnceMeansOnly(pairs: seq<(Path, Path)>, p: Path, old_: bool) returns (k: nat)
    requires Times(pairs, p, old_) == 1
    ensures Only(pairs, k, p, old_)
  {
    var rest := pairs[1..];
    assert forall l :: 0 < l < |pairs| ==> pairs[l] == rest[l - 1];
    if Side(pairs[0], old_) == p {
      NoTimes(rest, p, old_);
      k := 0;
    } else {
      k := OnceMeansOnly(rest, p, old_);
      k := k + 1;
      forall l | 0 <= l < |pairs| && Side(pairs[l], old_) == p ensures l == k { assert Side(rest[l - 1], old_) == p; }
    }
  }

  /** Paired with itself, and not at a place in `skip`. */
  predicate Selfed(paths: seq<Path>, skip: set<nat>, n: nat, p: Path)
    requires n <= |paths|
  {
    exists k: nat :: k < n && k !in skip && paths[k] == p
  }

  lemma {:induction false} TimesSelf(paths: seq<Path>, skip: set<nat>, n: nat, p: Path, old_: bool)
    requires NoDup(paths) && n <= |paths|
    ensures Times(SelfPairs(paths, skip, n), p, old_) == if Selfed(paths, skip, n, p) then 1 else 0
  {
    if n > 0 {
      TimesSelf(paths, skip, n - 1, p, old_);
      var pair := (paths[n - 1], paths[n - 1]);
      if n - 1 !in skip {
        TimesAdd(SelfPairs(paths, skip, n - 1), [pair], p, old_);
        assert Times([pair], p, old_) == if paths[n - 1] == p then 1 else 0;
      } else {
        assert SelfPairs(paths, skip, n - 1) + [] == SelfPairs(paths, skip, n - 1);
      }
      assert Selfed(paths, skip, n, p) <==> Selfed(paths, skip, n - 1, p) || (n - 1 !in skip && paths[n - 1] == p);
    }
  }

  /** The file that a rename is from, or to. */
  function EndOf(deleted: seq<Path>, added: seq<Path>, renames: Pairs, k: nat, old_: bool): Path
    requires Matching(renames, |deleted|, |added|) && k < |renames|
  {
    if old_ then deleted[renames[k].0] else added[renames[k].1]
  }

  predicate IsRenamed(deleted: seq<Path>, added: seq<Path>, renames: Pairs, n: nat, p: Path, old_: bool)
    requires Matching(renames, |deleted|, |added|) && n <= |renames|
  {
    exists k: nat :: k < n && EndOf(deleted, added, renames, k, old_) == p
  }

  lemma {:induction false} TimesRenamed(deleted: seq<Path>, added: seq<Path>, renames: Pairs, n: nat, p: Path,
                                        old_: bool)
    requires NoDup(deleted) && NoDup(added) && Matching(renames, |deleted|, |added|) && n <= |renames|
    ensures Times(RenamePairs(deleted, added, renames, n), p, old_)
         == if IsRenamed(deleted, added, renames, n, p, old_) then 1 else 0
  {
    if n > 0 {
      TimesRenamed(deleted, added, renames, n - 1, p, old_);
      var pair := (deleted[renames[n - 1].0], added[renames[n - 1].1]);
      TimesAdd(RenamePairs(deleted, added, renames, n - 1), [pair], p, old_);
      assert Times([pair], p, old_) == if EndOf(deleted, added, renames, n - 1, old_) == p then 1 else 0;
      RenamedOnce(deleted, added, renames, n - 1, p, old_);
    }
  }

  lemma RenamedOnce(deleted: seq<Path>, added: seq<Path>, renames: Pairs, n: nat, p: Path, old_: bool)
    requires NoDup(deleted) && NoDup(added) && Matching(renames, |deleted|, |added|) && n < |renames|
    ensures var here := EndOf(deleted, added, renames, n, old_) == p;
      && (IsRenamed(deleted, added, renames, n + 1, p, old_) <==>
        IsRenamed(deleted, added, renames, n, p, old_) || here)
      && !(IsRenamed(deleted, added, renames, n, p, old_) && here)
  {
    forall k: nat | k < n ensures EndOf(deleted, added, renames, k, old_) != EndOf(deleted, added, renames, n, old_) {
      assert renames[k].0 != renames[n].0 && renames[k].1 != renames[n].1;
    }
  }

  /** Every path of a tree is on its side once: as itself, or as the end of a rename. */
  lemma ChainCovers(oldTree: FileTree, newTree: FileTree, common: seq<Path>, deleted: seq<Path>, added: seq<Path>,
                    renames: Pairs, p: Path, old_: bool) returns (k: nat)
    requires Splits(oldTree, newTree, common, deleted, added) && Matching(renames, |deleted|, |added|)
    requires p in if old_ then oldTree else newTree
    ensures Only(Chain(common, deleted, added, renames), k, p, old_)
  {
    var left, right, n := Lefts(renames), Rights(renames), |renames|;
    var a, b, c, d := SelfPairs(common, {}, |common|), SelfPairs(deleted, left, |deleted|),
                      SelfPairs(added, right, |added|), RenamePairs(deleted, added, renames, n);
    TimesAdd(a, b, p, old_);
    TimesAdd(a + b, c, p, old_);
    TimesAdd(a + b + c, d, p, old_);
    TimesSelf(common, {}, |common|, p, old_);
    TimesSelf(deleted, left, |deleted|, p, old_);
    TimesSelf(added, right, |added|, p, old_);
    TimesRenamed(deleted, added, renames, n, p, old_);
    OneOfFour(oldTree, newTree, common, deleted, added, renames, p, old_);
    k := OnceMeansOnly(Chain(common, deleted, added, renames), p, old_);
  }

  lemma OneOfFour(oldTree: FileTree, newTree: FileTree, common: seq<Path>, deleted: seq<Path>, added: seq<Path>,
                  renames: Pairs, p: Path, old_: bool)
    requires Splits(oldTree, newTree, common, deleted, added) && Matching(renames, |deleted|, |added|)
    requires p in if old_ then oldTree else newTree
    ensures One(Selfed(common, {}, |common|, p)) + One(Selfed(deleted, Lefts(renames), |deleted|, p))
          + One(Selfed(added, Rights(renames), |added|, p))
          + One(IsRenamed(deleted, added, renames, |renames|, p, old_)) == 1
  {
    assert Selfed(common, {}, |common|, p) <==> p in common;
    assert !old_ ==> !Selfed(deleted, Lefts(renames), |deleted|, p);
    assert old_ ==> !Selfed(added, Rights(renames), |added|, p);
    if old_ {
      DeletedOrRenamed(deleted, added, renames, p);
    } else {
      AddedOrRenamed(deleted, added, renames, p);
    }
  }

  lemma DeletedOrRenamed(deleted: seq<Path>, added: seq<Path>, renames: Pairs, p: Path)
    requires NoDup(deleted) && Matching(renames, |deleted|, |added|)
    ensures One(Selfed(deleted, Lefts(renames), |deleted|, p)) +
      One(IsRenamed(deleted, added, renames, |renames|, p, true))
         == One(p in deleted)
  {
    if p in deleted {
      var k: nat :| k < |deleted| && deleted[k] == p;
      if k in Lefts(renames) {
        var i: nat :| i < |renames| && renames[i].0 == k;
        assert EndOf(deleted, added, renames, i, true) == p;
      } else {
        forall i: nat | i < |renames| ensures EndOf(deleted, added, renames, i, true) != p {
          assert renames[i].0 in Lefts(renames);
        }
      }
    }
  }

  lemma AddedOrRenamed(deleted: seq<Path>, added: seq<Path>, renames: Pairs, p: Path)
    requires NoDup(added) && Matching(renames, |deleted|, |added|)
    ensures One(Selfed(added, Rights(renames), |added|, p)) +
      One(IsRenamed(deleted, added, renames, |renames|, p, false))
         == One(p in added)
  {
    if p in added {
      var k: nat :| k < |added| && added[k] == p;
      if k in Rights(renames) {
        var i: nat :| i < |renames| && renames[i].1 == k;
        assert EndOf(deleted, added, renames, i, false) == p;
      } else {
        forall i: nat | i < |renames| ensures EndOf(deleted, added, renames, i, false) != p {
          assert renames[i].1 in Rights(renames);
        }
      }
    }
  }
}
