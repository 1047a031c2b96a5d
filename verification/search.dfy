/**
 The five-level clique search of `Graph::search_for_clique_non_recursive`
 (src/main.rs:87-150), its narrowing step `Graph::intersection_`
 (src/main.rs:152-155) and `Graph::words_to_set` (src/main.rs:215-217).

 The search is related to its meaning in three steps:
 - `Explore`/`Step` transcribe the loops as ghost functions, one union per
   bit position scanned;
 - `ExploreMembers` shows they collect exactly the word sets of the
   `Chain`s: index tuples whose every element is a neighbour of all earlier
   ones and which never go down;
 - `ChainOnBuiltGraph` shows that on a graph obeying the edge rule these are
   exactly the strictly increasing tuples of five pairwise compatible words.
 */
module CliqueSearch {
  import opened Words
  import opened CompatGraph

  /** Every vertex has a neighbour set, so `edges.get(..).unwrap()` cannot fail. */
  predicate KeysCover(g: Graph)
  {
    forall i: nat :: i < |g.words| ==> i in g.edges
  }

  /** The neighbours of `i`, or none when `i` has no entry. */
  function Nbrs(g: Graph, i: nat): set<nat>
  {
    if i in g.edges then g.edges[i] else {}
  }

  /**
   `intersection_`: keep the candidates that are neighbours of `w`. The
   `unwrap` panics when `w` has no neighbour set; that is the precondition.
   */
  function Intersect(g: Graph, neighbors: set<nat>, w: nat): (r: set<nat>)
    requires w in g.edges
    ensures r <= neighbors
    ensures forall x :: x in r <==> x in neighbors && x in g.edges[w]
  {
    neighbors * g.edges[w]
  }

  /** `words_to_set`: the set of the given words. */
  function WordsToSet(ws: seq<string>): (r: set<string>)
    ensures forall w :: w in r <==> w in ws
  {
    set w | w in ws
  }

  predicate Indices(words: seq<string>, q: seq<nat>)
  {
    forall k :: 0 <= k < |q| ==> q[k] < |words|
  }

  /** The words at the indices `q`, in order. */
  function WordsAt(words: seq<string>, q: seq<nat>): (r: seq<string>)
    requires Indices(words, q)
    ensures |r| == |q|
    ensures forall k :: 0 <= k < |q| ==> r[k] == words[q[k]]
  {
    seq(|q|, k requires 0 <= k < |q| => words[q[k]])
  }

  /** The word set reported for the index tuple `q`. */
  function WordSet(words: seq<string>, q: seq<nat>): set<string>
    requires Indices(words, q)
  {
    WordsToSet(WordsAt(words, q))
  }

  /**
   An index tuple the search can walk: every index is a vertex, each is a
   neighbour of all earlier ones, and the ordering guard never fired.
   */
  ghost predicate Chain(g: Graph, q: seq<nat>)
  {
    forall j :: 0 <= j < |q| ==>
      && q[j] < |g.words|
      && (j > 0 ==> q[j - 1] <= q[j])
      && forall i :: 0 <= i < j ==> q[j] in Nbrs(g, q[i])
  }

  /**
   The word sets found by the loop at depth |p| when the indices `p` have
   been chosen, `cand` is this depth's candidate bitset and the loop has
   scanned the bit positions below `hi`.
   */
  ghost function Explore(g: Graph, p: seq<nat>, cand: set<nat>, hi: nat): set<set<string>>
    requires |p| < 5 && hi <= |g.words| && Indices(g.words, p)
    decreases 5 - |p|, hi, 1
  {
    if hi == 0 then {}
    else Explore(g, p, cand, hi - 1) + Step(g, p, cand, hi - 1)
  }

  /** What the loop body at depth |p| adds for bit position `w`. */
  ghost function Step(g: Graph, p: seq<nat>, cand: set<nat>, w: nat): set<set<string>>
    requires |p| < 5 && w < |g.words| && Indices(g.words, p)
    decreases 5 - |p|, w + 1, 0
  {
    if w !in cand || (|p| > 0 && w < p[|p| - 1]) then {}
    else if |p| == 4 then {WordSet(g.words, p + [w])}
    else Explore(g, p + [w], cand * Nbrs(g, w), |g.words|)
  }

  /**
   The candidate set after choosing `p`: the vertices adjacent to every
   chosen index.
   */
  ghost predicate Frontier(g: Graph, p: seq<nat>, cand: set<nat>)
  {
    && Chain(g, p)
    && forall x: nat :: x in cand <==>
         x < |g.words| && forall i :: 0 <= i < |p| ==> x in Nbrs(g, p[i])
  }

  /** `s` completes the chosen prefix `p` to a five-index chain. */
  ghost predicate Completes(g: Graph, p: seq<nat>, s: seq<nat>)
  {
    |s| > 0 && |p| + |s| == 5 && Chain(g, p + s)
  }

  /** Choosing a candidate that passes the ordering guard extends the frontier. */
  lemma FrontierSnoc(g: Graph, p: seq<nat>, cand: set<nat>, w: nat)
    requires Frontier(g, p, cand)
    requires w in cand && (|p| == 0 || p[|p| - 1] <= w)
    ensures Frontier(g, p + [w], cand * Nbrs(g, w))
  {
    var p' := p + [w];
    assert forall i :: 0 <= i < |p| ==> p'[i] == p[i];
    assert p'[|p|] == w;
    assert Chain(g, p');
    forall y: nat
      ensures y in cand * Nbrs(g, w) <==>
                y < |g.words| && forall i :: 0 <= i < |p'| ==> y in Nbrs(g, p'[i])
    {
    }
  }

  /** The first index of a completion is a candidate that passes the ordering guard. */
  lemma CompletionHead(g: Graph, p: seq<nat>, cand: set<nat>, s: seq<nat>)
    requires Frontier(g, p, cand) && Completes(g, p, s)
    ensures s[0] in cand && (|p| == 0 || p[|p| - 1] <= s[0])
  {
    var q := p + s;
    assert q[|p|] == s[0];
    assert forall i :: 0 <= i < |p| ==> q[i] == p[i];
    if |p| > 0 {
      assert q[|p| - 1] <= q[|p|];
    }
  }

  lemma {:induction false} StepMembers(g: Graph, p: seq<nat>, cand: set<nat>, w: nat, x: set<string>)
    requires |p| < 5 && w < |g.words| && Frontier(g, p, cand)
    ensures x in Step(g, p, cand, w) <==>
              exists s :: Completes(g, p, s) && s[0] == w && x == WordSet(g.words, p + s)
    decreases 5 - |p|, w + 1, 1
  {
    if w in cand && (|p| == 0 || p[|p| - 1] <= w) {
      FrontierSnoc(g, p, cand, w);
      if |p| == 4 {
        StepLast(g, p, cand, w, x);
      } else {
        StepInner(g, p, cand, w, x);
      }
    } else {
      forall s | Completes(g, p, s) && s[0] == w
        ensures false
      {
        CompletionHead(g, p, cand, s);
      }
    }
  }

  lemma StepLast(g: Graph, p: seq<nat>, cand: set<nat>, w: nat, x: set<string>)
    requires |p| == 4 && w < |g.words| && Frontier(g, p, cand)
    requires w in cand && p[3] <= w && Chain(g, p + [w])
    ensures x in Step(g, p, cand, w) <==>
              exists s :: Completes(g, p, s) && s[0] == w && x == WordSet(g.words, p + s)
  {
    if x == WordSet(g.words, p + [w]) {
      assert Completes(g, p, [w]);
    }
    forall s | Completes(g, p, s) && s[0] == w
      ensures s == [w]
    {
    }
  }

  lemma {:induction false} StepInner(g: Graph, p: seq<nat>, cand: set<nat>, w: nat, x: set<string>)
    requires |p| < 4 && w < |g.words| && Frontier(g, p, cand)
    requires w in cand && (|p| == 0 || p[|p| - 1] <= w)
    requires Frontier(g, p + [w], cand * Nbrs(g, w))
    ensures x in Step(g, p, cand, w) <==>
              exists s :: Completes(g, p, s) && s[0] == w && x == WordSet(g.words, p + s)
    decreases 5 - |p|, w + 1, 0
  {
    var n := |g.words|;
    var p' := p + [w];
    var c' := cand * Nbrs(g, w);
    assert Step(g, p, cand, w) == Explore(g, p', c', n);
    ExploreMembers(g, p', c', n, x);
    if exists s': seq<nat> :: Completes(g, p', s') && s'[0] < n && x == WordSet(g.words, p' + s') {
      var s': seq<nat> :| Completes(g, p', s') && s'[0] < n && x == WordSet(g.words, p' + s');
      ConsCompletion(g, p, w, s');
    }
    if exists s :: Completes(g, p, s) && s[0] == w && x == WordSet(g.words, p + s) {
      var s :| Completes(g, p, s) && s[0] == w && x == WordSet(g.words, p + s);
      TailCompletion(g, p, w, s);
    }
  }

  lemma ConsCompletion(g: Graph, p: seq<nat>, w: nat, s': seq<nat>)
    requires Completes(g, p + [w], s')
    ensures Completes(g, p, [w] + s') && p + ([w] + s') == (p + [w]) + s'
  {
    assert p + ([w] + s') == (p + [w]) + s';
  }

  lemma TailCompletion(g: Graph, p: seq<nat>, w: nat, s: seq<nat>)
    requires |p| < 4 && Completes(g, p, s) && s[0] == w
    ensures Completes(g, p + [w], s[1..]) && (p + [w]) + s[1..] == p + s
    ensures s[1..][0] < |g.words|
  {
    assert (p + [w]) + s[1..] == p + s;
    assert (p + s)[|p| + 1] == s[1..][0];
  }

  /**
   The loop at depth |p|, run over the bit positions below `hi`, collects
   exactly the word sets of the chains extending `p` whose next index is
   below `hi`.
   */
  lemma {:induction false} ExploreMembers(g: Graph, p: seq<nat>, cand: set<nat>, hi: nat, x: set<string>)
    requires |p| < 5 && hi <= |g.words| && Frontier(g, p, cand)
    ensures x in Explore(g, p, cand, hi) <==>
              exists s :: Completes(g, p, s) && s[0] < hi && x == WordSet(g.words, p + s)
    decreases 5 - |p|, hi, 2
  {
    if hi > 0 {
      ExploreMembers(g, p, cand, hi - 1, x);
      StepMembers(g, p, cand, hi - 1, x);
      if exists s :: Completes(g, p, s) && s[0] < hi && x == WordSet(g.words, p + s) {
        var s :| Completes(g, p, s) && s[0] < hi && x == WordSet(g.words, p + s);
        if s[0] < hi - 1 {
          assert x in Explore(g, p, cand, hi - 1);
        } else {
          assert x in Step(g, p, cand, hi - 1);
        }
      }
    }
  }

  /** The ghost transcription of the whole search collects the word sets of the 5-chains. */
  lemma SearchMembers(g: Graph, x: set<string>)
    ensures x in Explore(g, [], Range(|g.words|), |g.words|) <==>
              exists s :: |s| == 5 && Chain(g, s) && x == WordSet(g.words, s)
  {
    var n := |g.words|;
    assert Frontier(g, [], Range(n));
    ExploreMembers(g, [], Range(n), n, x);
    if exists s :: |s| == 5 && Chain(g, s) && x == WordSet(g.words, s) {
      var s :| |s| == 5 && Chain(g, s) && x == WordSet(g.words, s);
      assert [] + s == s;
      assert Completes(g, [], s) && s[0] < n;
    }
    if exists s :: Completes(g, [], s) && s[0] < n && x == WordSet(g.words, [] + s) {
      var s :| Completes(g, [], s) && s[0] < n && x == WordSet(g.words, [] + s);
      assert [] + s == s;
    }
  }

  /** Scanning a bit position the guards skip adds nothing. */
  lemma ExploreSkip(g: Graph, p: seq<nat>, cand: set<nat>, w: nat)
    requires |p| < 5 && w < |g.words| && Indices(g.words, p)
    requires w !in cand || (|p| > 0 && w < p[|p| - 1])
    ensures Explore(g, p, cand, w + 1) == Explore(g, p, cand, w)
  {
  }

  /** Scanning a chosen position below depth four adds the next level's findings. */
  lemma ExploreDescend(g: Graph, p: seq<nat>, cand: set<nat>, w: nat, q: seq<nat>, next: set<nat>)
    requires |p| < 4 && w < |g.words| && Indices(g.words, p)
    requires w in cand && (|p| == 0 || p[|p| - 1] <= w)
    requires q == p + [w] && w in g.edges
    requires forall x :: x in next <==> x in cand && x in g.edges[w]
    ensures Indices(g.words, q)
    ensures Explore(g, p, cand, w + 1) == Explore(g, p, cand, w) + Explore(g, q, next, |g.words|)
  {
    assert next == cand * Nbrs(g, w);
  }

  /** Scanning a chosen position at depth four adds one word set. */
  lemma ExploreLeaf(g: Graph, p: seq<nat>, cand: set<nat>, w: nat, current: set<string>)
    requires |p| == 4 && w < |g.words| && Indices(g.words, p)
    requires w in cand && p[3] <= w
    requires current == WordsToSet([g.words[p[0]], g.words[p[1]], g.words[p[2]], g.words[p[3]], g.words[w]])
    ensures Explore(g, p, cand, w + 1) == Explore(g, p, cand, w) + {current}
  {
    assert WordsAt(g.words, p + [w]) == [g.words[p[0]], g.words[p[1]], g.words[p[2]], g.words[p[3]], g.words[w]];
  }

  /**
   `search_for_clique_non_recursive`. The depth-0 loop scans every index;
   each deeper loop is one of the `ScanDepth` methods below, which together
   form the five nested loops of the source. Each depth copies the previous
   candidate bitset (`clear` then `union_with`), narrows it with
   `intersection_`, and scans its bit positions in ascending order, skipping
   positions below the index chosen one level up. All findings go into the
   one `solutions` set.
   */
  method SearchForCliques(g: Graph) returns (solutions: set<set<string>>)
    requires KeysCover(g)
    ensures forall x :: x in solutions <==>
              exists s :: |s| == 5 && Chain(g, s) && x == WordSet(g.words, s)
  {
    var n := |g.words|;
    solutions := {};
    var n0 := Range(n);
    var n1: set<nat> := {};
    for w0 := 0 to n
      invariant solutions == Explore(g, [], n0, w0)
    {
      n1 := {};
      n1 := n1 + n0;
      n1 := Intersect(g, n1, w0);
      ExploreDescend(g, [], n0, w0, [w0], n1);
      solutions := ScanDepth1(g, w0, n1, solutions);
    }
    SearchMembersAll(g);
  }

  lemma SearchMembersAll(g: Graph)
    ensures forall x :: x in Explore(g, [], Range(|g.words|), |g.words|) <==>
              exists s :: |s| == 5 && Chain(g, s) && x == WordSet(g.words, s)
  {
    forall x
      ensures x in Explore(g, [], Range(|g.words|), |g.words|) <==>
                exists s :: |s| == 5 && Chain(g, s) && x == WordSet(g.words, s)
    {
      SearchMembers(g, x);
    }
  }

  /** The loop over `word_1`. */
  method ScanDepth1(g: Graph, w0: nat, n1: set<nat>, acc: set<set<string>>) returns (solutions: set<set<string>>)
    requires KeysCover(g) && w0 < |g.words|
    ensures solutions == acc + Explore(g, [w0], n1, |g.words|)
  {
    var n := |g.words|;
    solutions := acc;
    var n2: set<nat> := {};
    for w1 := 0 to n
      invariant solutions == acc + Explore(g, [w0], n1, w1)
    {
      if w1 !in n1 || w1 < w0 {
        ExploreSkip(g, [w0], n1, w1);
        continue;
      }
      n2 := {};
      n2 := n2 + n1;
      n2 := Intersect(g, n2, w1);
      ExploreDescend(g, [w0], n1, w1, [w0, w1], n2);
      solutions := ScanDepth2(g, w0, w1, n2, solutions);
    }
  }

  /** The loop over `word_2`. */
  method ScanDepth2(g: Graph, w0: nat, w1: nat, n2: set<nat>, acc: set<set<string>>)
    returns (solutions: set<set<string>>)
    requires KeysCover(g) && w0 < |g.words| && w1 < |g.words|
    ensures solutions == acc + Explore(g, [w0, w1], n2, |g.words|)
  {
    var n := |g.words|;
    solutions := acc;
    var n3: set<nat> := {};
    for w2 := 0 to n
      invariant solutions == acc + Explore(g, [w0, w1], n2, w2)
    {
      if w2 !in n2 || w2 < w1 {
        ExploreSkip(g, [w0, w1], n2, w2);
        continue;
      }
      n3 := {};
      n3 := n3 + n2;
      n3 := Intersect(g, n3, w2);
      ExploreDescend(g, [w0, w1], n2, w2, [w0, w1, w2], n3);
      solutions := ScanDepth3(g, w0, w1, w2, n3, solutions);
    }
  }

  /** The loop over `word_3`. */
  method ScanDepth3(g: Graph, w0: nat, w1: nat, w2: nat, n3: set<nat>, acc: set<set<string>>)
    returns (solutions: set<set<string>>)
    requires KeysCover(g) && w0 < |g.words| && w1 < |g.words| && w2 < |g.words|
    ensures solutions == acc + Explore(g, [w0, w1, w2], n3, |g.words|)
  {
    var n := |g.words|;
    solutions := acc;
    var n4: set<nat> := {};
    for w3 := 0 to n
      invariant solutions == acc + Explore(g, [w0, w1, w2], n3, w3)
    {
      if w3 !in n3 || w3 < w2 {
        ExploreSkip(g, [w0, w1, w2], n3, w3);
        continue;
      }
      n4 := {};
      n4 := n4 + n3;
      n4 := Intersect(g, n4, w3);
      ExploreDescend(g, [w0, w1, w2], n3, w3, [w0, w1, w2, w3], n4);
      solutions := ScanDepth4(g, w0, w1, w2, w3, n4, solutions);
    }
  }

  /** The loop over `word_4`: each surviving position completes a clique. */
  method ScanDepth4(g: Graph, w0: nat, w1: nat, w2: nat, w3: nat, n4: set<nat>, acc: set<set<string>>)
    returns (solutions: set<set<string>>)
    requires w0 < |g.words| && w1 < |g.words| && w2 < |g.words| && w3 < |g.words|
    ensures solutions == acc + Explore(g, [w0, w1, w2, w3], n4, |g.words|)
  {
    var n := |g.words|;
    solutions := acc;
    for w4 := 0 to n
      invariant solutions == acc + Explore(g, [w0, w1, w2, w3], n4, w4)
    {
      if w4 !in n4 || w4 < w3 {
        ExploreSkip(g, [w0, w1, w2, w3], n4, w4);
        continue;
      }
      var current := WordsToSet([g.words[w0], g.words[w1], g.words[w2], g.words[w3], g.words[w4]]);
      ExploreLeaf(g, [w0, w1, w2, w3], n4, w4, current);
      solutions := solutions + {current};
    }
  }
}
