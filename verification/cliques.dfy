/**
 What the search promises on the graph `build_from_words` produces
 (`main`, src/main.rs:23 and 31): the result holds exactly the word sets of
 the strictly increasing index 5-tuples whose words are pairwise compatible;
 each is five distinct words spelling 25 distinct letters, and every
 5-clique of the compatibility graph is reported.
 */
module Cliques {
  import opened Words
  import opened CompatGraph
  import opened CliqueSearch

  /** Five word indices, strictly increasing, pairwise compatible. */
  ghost predicate AscendingClique(entries: seq<Entry>, s: seq<nat>)
  {
    && |s| == 5
    && (forall k :: 0 <= k < |s| ==> s[k] < |entries|)
    && forall i, j :: 0 <= i < j < |s| ==> s[i] < s[j] && Compatible(entries, s[i], s[j])
  }

  lemma {:induction false} StrictFromConsecutive(s: seq<nat>)
    requires forall k :: 0 < k < |s| ==> s[k - 1] < s[k]
    ensures forall i, j :: 0 <= i < j < |s| ==> s[i] < s[j]
  {
    if |s| > 1 {
      var init := s[..|s| - 1];
      StrictFromConsecutive(init);
      forall i, j | 0 <= i < j < |s|
        ensures s[i] < s[j]
      {
        if j < |s| - 1 {
          assert s[i] == init[i] && s[j] == init[j];
        } else if i < j - 1 {
          assert s[i] == init[i] && s[j - 1] == init[j - 1];
        }
      }
    }
  }

  /**
   On a graph obeying the edge rule, the tuples the search walks are exactly
   the ascending cliques: the ordering guard only admits `<=`, and the edge
   rule turns it into `<` because no index is its own neighbour.
   */
  lemma ChainOnBuiltGraph(entries: seq<Entry>, g: Graph, s: seq<nat>)
    requires EdgeRule(entries, g)
    ensures (|s| == 5 && Chain(g, s)) <==> AscendingClique(entries, s)
  {
    if |s| == 5 && Chain(g, s) {
      forall i, j | 0 <= i < j < |s|
        ensures s[i] != s[j] && Compatible(entries, s[i], s[j])
      {
        assert s[i] in g.edges;
      }
      forall k | 0 < k < |s|
        ensures s[k - 1] < s[k]
      {
        assert s[k - 1] != s[k];
      }
      StrictFromConsecutive(s);
    }
    if AscendingClique(entries, s) {
      forall j | 0 <= j < |s|
        ensures s[j] < |g.words|
        ensures j > 0 ==> s[j - 1] <= s[j]
        ensures forall i :: 0 <= i < j ==> s[j] in Nbrs(g, s[i])
      {
        if j < 4 {
          assert s[j] < s[4];
        }
        forall i | 0 <= i < j
          ensures s[j] in Nbrs(g, s[i])
        {
          assert s[i] in g.edges;
        }
      }
    }
  }

  /**
   The program's core: build the graph from the entries, then search it.
   The result is exactly the word sets of the ascending cliques.
   */
  method FindCliques(entries: seq<Entry>) returns (cliques: set<set<string>>)
    ensures forall x :: x in cliques <==>
              exists s :: AscendingClique(entries, s) && x == WordSet(Texts(entries), s)
  {
    var g := BuildFromWords(entries);
    cliques := SearchForCliques(g);
    forall x
      ensures x in cliques <==> exists s :: AscendingClique(entries, s) && x == WordSet(Texts(entries), s)
    {
      if x in cliques {
        var s :| |s| == 5 && Chain(g, s) && x == WordSet(g.words, s);
        ChainOnBuiltGraph(entries, g, s);
      }
      if exists s :: AscendingClique(entries, s) && x == WordSet(Texts(entries), s) {
        var s :| AscendingClique(entries, s) && x == WordSet(Texts(entries), s);
        ChainOnBuiltGraph(entries, g, s);
      }
    }
  }

  /** `words_to_set` keeps every word of a list without repetitions. */
  lemma {:induction false} WordsToSetDistinct(ws: seq<string>)
    requires forall i, j :: 0 <= i < j < |ws| ==> ws[i] != ws[j]
    ensures |WordsToSet(ws)| == |ws|
  {
    if |ws| > 0 {
      var init := ws[..|ws| - 1];
      WordsToSetDistinct(init);
      assert WordsToSet(ws) == WordsToSet(init) + {ws[|ws| - 1]};
      assert ws[|ws| - 1] !in init;
    }
  }

  /** The letters spelled by the words at the indices `s`. */
  function LettersOf(entries: seq<Entry>, s: seq<nat>): (r: set<char>)
    requires forall k :: 0 <= k < |s| ==> s[k] < |entries|
    ensures forall c :: c in r <==> exists k :: 0 <= k < |s| && c in entries[s[k]].letters
  {
    if |s| == 0 then {}
    else LettersOf(entries, s[..|s| - 1]) + entries[s[|s| - 1]].letters
  }

  lemma {:induction false} DisjointLettersCount(entries: seq<Entry>, s: seq<nat>)
    requires WellFormed(entries)
    requires forall k :: 0 <= k < |s| ==> s[k] < |entries|
    requires forall i, j :: 0 <= i < j < |s| ==> entries[s[i]].letters !! entries[s[j]].letters
    ensures |LettersOf(entries, s)| == 5 * |s|
  {
    if |s| > 0 {
      var init := s[..|s| - 1];
      var last := entries[s[|s| - 1]].letters;
      DisjointLettersCount(entries, init);
      LettersOfInitDisjoint(entries, s);
      assert LettersOf(entries, s) == LettersOf(entries, init) + last;
      DisjointUnionSize(LettersOf(entries, init), last);
      assert |last| == 5;
    }
  }

  lemma DisjointUnionSize<T>(a: set<T>, b: set<T>)
    requires a !! b
    ensures |a + b| == |a| + |b|
  {
    assert a * b == {};
  }

  lemma LettersOfInitDisjoint(entries: seq<Entry>, s: seq<nat>)
    requires |s| > 0
    requires forall k :: 0 <= k < |s| ==> s[k] < |entries|
    requires forall i, j :: 0 <= i < j < |s| ==> entries[s[i]].letters !! entries[s[j]].letters
    ensures LettersOf(entries, s[..|s| - 1]) !! entries[s[|s| - 1]].letters
  {
    var init := s[..|s| - 1];
    forall c | c in LettersOf(entries, init)
      ensures c !in entries[s[|s| - 1]].letters
    {
      var k :| 0 <= k < |init| && c in entries[init[k]].letters;
      assert init[k] == s[k];
    }
  }

  /**
   Every reported clique is five different words whose letter sets are
   pairwise disjoint, so together they spell 25 distinct letters.
   */
  lemma CliqueWordsAndLetters(entries: seq<Entry>, s: seq<nat>)
    requires WellFormed(entries) && AscendingClique(entries, s)
    ensures |WordSet(Texts(entries), s)| == 5
    ensures forall i, j :: 0 <= i < j < 5 ==> entries[s[i]].letters !! entries[s[j]].letters
    ensures |LettersOf(entries, s)| == 25
  {
    var ws := WordsAt(Texts(entries), s);
    forall i, j | 0 <= i < j < |ws|
      ensures ws[i] != ws[j]
    {
      assert Compatible(entries, s[i], s[j]);
    }
    WordsToSetDistinct(ws);
    DisjointLettersCount(entries, s);
  }

  /**
   A clique needs five different indices, so an empty word list, or any list
   of fewer than five words, yields no clique.
   */
  lemma CliqueNeedsFiveWords(entries: seq<Entry>, s: seq<nat>)
    requires AscendingClique(entries, s)
    ensures |entries| >= 5
  {
    assert s[0] < s[1] < s[2] < s[3] < s[4] < |entries|;
  }

  /** Fewer than five entries, the empty list included, give an empty result. */
  lemma FewWordsNoCliques(entries: seq<Entry>, cliques: set<set<string>>)
    requires |entries| < 5
    requires forall x :: x in cliques <==>
               exists s :: AscendingClique(entries, s) && x == WordSet(Texts(entries), s)
    ensures cliques == {}
  {
    forall x | x in cliques
      ensures false
    {
      var s :| AscendingClique(entries, s) && x == WordSet(Texts(entries), s);
      CliqueNeedsFiveWords(entries, s);
    }
  }

  /** The least element of a non-empty set of indices. */
  ghost function Min(m: set<nat>): (r: nat)
    requires m != {}
    ensures r in m
    ensures forall z :: z in m ==> r <= z
  {
    var y :| y in m;
    if m == {y} then y
    else
      var r' := Min(m - {y});
      assert forall z :: z in m ==> z == y || z in m - {y};
      if y < r' then y else r'
  }

  /** `s` lists the elements of `m` in ascending order. */
  ghost predicate Lists(s: seq<nat>, m: set<nat>)
  {
    && |s| == |m|
    && (forall k :: 0 <= k < |s| ==> s[k] in m)
    && (forall x :: x in m ==> x in s)
    && (forall i, j :: 0 <= i < j < |s| ==> s[i] < s[j])
  }

  lemma ConsLists(x: nat, rest: seq<nat>, m: set<nat>)
    requires x in m && forall z :: z in m ==> x <= z
    requires Lists(rest, m - {x})
    ensures Lists([x] + rest, m)
  {
    var s := [x] + rest;
    assert forall k :: 1 <= k < |s| ==> s[k] == rest[k - 1];
    forall y | y in m
      ensures y in s
    {
      if y != x {
        assert y in m - {x};
        var k :| 0 <= k < |rest| && rest[k] == y;
        assert s[k + 1] == y;
      }
    }
  }

  /** The elements of `m` in ascending order. */
  ghost function Ascending(m: set<nat>): (s: seq<nat>)
    ensures Lists(s, m)
    decreases |m|
  {
    if m == {} then []
    else
      var x := Min(m);
      var rest := Ascending(m - {x});
      ConsLists(x, rest, m);
      [x] + rest
  }

  /**
   Completeness: any five pairwise compatible words are found, through the
   ascending order of their indices.
   */
  lemma EveryCliqueFound(entries: seq<Entry>, members: set<nat>)
    requires |members| == 5
    requires forall i :: i in members ==> i < |entries|
    requires forall i, j :: i in members && j in members && i != j ==> Compatible(entries, i, j)
    ensures exists s :: AscendingClique(entries, s) &&
              WordSet(Texts(entries), s) == set i | i in members :: entries[i].word
  {
    var s := Ascending(members);
    forall i, j | 0 <= i < j < |s|
      ensures s[i] < s[j] && Compatible(entries, s[i], s[j])
    {
    }
    assert AscendingClique(entries, s);
    var ws := set i | i in members :: entries[i].word;
    forall w
      ensures w in WordSet(Texts(entries), s) <==> w in ws
    {
      if w in ws {
        var i :| i in members && w == entries[i].word;
        var k :| 0 <= k < |s| && s[k] == i;
        assert WordsAt(Texts(entries), s)[k] == w;
      }
    }
  }

  /** Five words spelling 25 different letters; 'z' is unused. */
  function FiveWords(): seq<Entry>
  {
    [Entry("abcde", {'a', 'b', 'c', 'd', 'e'}), Entry("fghij", {'f', 'g', 'h', 'i', 'j'}),
     Entry("klmno", {'k', 'l', 'm', 'n', 'o'}), Entry("pqrst", {'p', 'q', 'r', 's', 't'}),
     Entry("uvwxy", {'u', 'v', 'w', 'x', 'y'})]
  }

  /** The letters of the k-th of the five words lie in a band of five letters of its own. */
  lemma FiveWordsBand(k: nat, c: char)
    requires k < 5 && c in FiveWords()[k].letters
    ensures 'a' as int + 5 * k <= c as int < 'a' as int + 5 * k + 5
  {
  }

  lemma FiveWordsPair(i: nat, j: nat)
    requires i < j < 5
    ensures Compatible(FiveWords(), i, j)
  {
    var e := FiveWords();
    forall c | c in e[i].letters
      ensures c !in e[j].letters
    {
      FiveWordsBand(i, c);
      if c in e[j].letters {
        FiveWordsBand(j, c);
      }
    }
    assert e[i].word[0] != e[j].word[0];
  }

  /** The five words form a clique through the ascending tuple of their indices. */
  lemma FiveWordsClique()
    ensures AscendingClique(FiveWords(), [0, 1, 2, 3, 4])
  {
    var s: seq<nat> := [0, 1, 2, 3, 4];
    forall i, j | 0 <= i < j < 5
      ensures s[i] < s[j] && Compatible(FiveWords(), s[i], s[j])
    {
      FiveWordsPair(i, j);
    }
  }

  /** It is the only one: no other index tuple is an ascending clique. */
  lemma FiveWordsOnlyClique(s: seq<nat>)
    requires AscendingClique(FiveWords(), s)
    ensures s == [0, 1, 2, 3, 4]
  {
    assert s[0] < s[1] < s[2] < s[3] < s[4] < 5;
  }

  /** Whatever `FindCliques` returns on the five words is the single set of all five. */
  lemma FiveWordsFound(cliques: set<set<string>>)
    requires forall x :: x in cliques <==>
               exists s :: AscendingClique(FiveWords(), s) && x == WordSet(Texts(FiveWords()), s)
    ensures cliques == {WordSet(Texts(FiveWords()), [0, 1, 2, 3, 4])}
  {
    var only := WordSet(Texts(FiveWords()), [0, 1, 2, 3, 4]);
    FiveWordsClique();
    forall x | x in cliques
      ensures x == only
    {
      var s :| AscendingClique(FiveWords(), s) && x == WordSet(Texts(FiveWords()), s);
      FiveWordsOnlyClique(s);
    }
  }

  /** Two words sharing a letter are not compatible, so no edge joins them. */
  lemma SharedLetterNoEdge()
    ensures !Compatible([Entry("abcde", {'a', 'b', 'c', 'd', 'e'}), Entry("abcxy", {'a', 'b', 'c', 'x', 'y'})], 0, 1)
  {
    assert 'a' in {'a', 'b', 'c', 'd', 'e'} * {'a', 'b', 'c', 'x', 'y'};
  }

  /** "abcde", "fghij" and the near-duplicate "aghij". */
  function ThreeWords(): seq<Entry>
  {
    [Entry("abcde", {'a', 'b', 'c', 'd', 'e'}), Entry("fghij", {'f', 'g', 'h', 'i', 'j'}),
     Entry("aghij", {'a', 'g', 'h', 'i', 'j'})]
  }

  /**
   Only the first two words are compatible: the built graph has the single
   edge between them, and the list has no clique.
   */
  lemma ThreeWordsOneEdge(g: Graph)
    requires EdgeRule(ThreeWords(), g)
    ensures g.edges[0] == {1} && g.edges[1] == {0} && g.edges[2] == {}
  {
    var e := ThreeWords();
    assert 'a' in e[0].letters * e[2].letters;
    assert 'g' in e[1].letters * e[2].letters;
    assert e[0].word[0] != e[1].word[0];
    forall c | c in e[0].letters
      ensures c !in e[1].letters
    {
    }
    assert 0 in g.edges && 1 in g.edges && 2 in g.edges;
    assert forall j: nat :: j in g.edges[0] <==> j == 1;
    assert forall j: nat :: j in g.edges[1] <==> j == 0;
    assert forall j: nat :: j !in g.edges[2];
  }
}
