/**
 The compatibility graph (`Graph` and `Graph::build_from_words`,
 src/main.rs:58-85): one vertex per entry of the word list, numbered by
 position, and an edge between two entries whose texts differ and whose
 letter sets are disjoint. The `BTreeMap<usize, BitSet>` of neighbour bitsets
 is a map from index to a set of indices.
 */
module CompatGraph {
  import opened Words

  datatype Graph = Graph(edges: map<nat, set<nat>>, words: seq<string>)

  /** The vertex indices 0..n-1. */
  function Range(n: nat): (r: set<nat>)
    ensures forall k: nat :: k in r <==> k < n
  {
    if n == 0 then {} else Range(n - 1) + {n - 1}
  }

  /** The edge test of the inner loop: different texts, no common letter. */
  predicate Compatible(entries: seq<Entry>, i: nat, j: nat)
    requires i < |entries| && j < |entries|
  {
    entries[i].word != entries[j].word && entries[i].letters !! entries[j].letters
  }

  /**
   What `build_from_words` produces: the i-th word is the i-th input text,
   every index has an entry, and the neighbours of i are exactly the
   indices compatible with it.
   */
  ghost predicate EdgeRule(entries: seq<Entry>, g: Graph)
  {
    && g.words == Texts(entries)
    && g.edges.Keys == Range(|entries|)
    && forall i :: i in g.edges ==>
         forall j: nat :: j in g.edges[i] <==> j < |entries| && Compatible(entries, i, j)
  }

  method BuildFromWords(entries: seq<Entry>) returns (g: Graph)
    ensures EdgeRule(entries, g)
  {
    var edges: map<nat, set<nat>> := map[];
    for i := 0 to |entries|
      invariant edges.Keys == Range(i)
      invariant forall k :: k in edges ==>
                  forall j: nat :: j in edges[k] <==> j < |entries| && Compatible(entries, k, j)
    {
      var neighbors: set<nat> := {};
      for j := 0 to |entries|
        invariant forall m: nat :: m in neighbors <==> m < j && Compatible(entries, i, m)
      {
        if entries[i].word == entries[j].word {
          continue;
        }
        if entries[i].letters * entries[j].letters == {} {
          assert forall c :: c in entries[i].letters ==> c !in entries[j].letters by {
            forall c | c in entries[i].letters ensures c !in entries[j].letters {
              assert c !in entries[i].letters * entries[j].letters;
            }
          }
          neighbors := neighbors + {j};
        } else {
          ghost var c :| c in entries[i].letters * entries[j].letters;
        }
      }
      edges := edges[i := neighbors];
    }
    g := Graph(edges, Texts(entries));
  }

  /** The edge relation is symmetric. */
  lemma EdgeRuleSymmetric(entries: seq<Entry>, g: Graph, i: nat, j: nat)
    requires EdgeRule(entries, g)
    requires i < |entries| && j < |entries|
    ensures j in g.edges[i] <==> i in g.edges[j]
  {
  }

  /** No vertex is its own neighbour: the builder skips equal texts. */
  lemma EdgeRuleIrreflexive(entries: seq<Entry>, g: Graph, i: nat)
    requires EdgeRule(entries, g)
    requires i < |entries|
    ensures i !in g.edges[i]
  {
  }

  /** Every neighbour set only holds vertex indices. */
  lemma EdgeRuleBounded(entries: seq<Entry>, g: Graph, i: nat, j: nat)
    requires EdgeRule(entries, g)
    requires i in g.edges && j in g.edges[i]
    ensures j < |g.words|
  {
  }

  /** The edge rule fixes the graph: the builder has exactly one correct output. */
  lemma EdgeRuleDeterminesGraph(entries: seq<Entry>, g: Graph, h: Graph)
    requires EdgeRule(entries, g) && EdgeRule(entries, h)
    ensures g == h
  {
    forall i | i in g.edges
      ensures g.edges[i] == h.edges[i]
    {
      assert forall j: nat :: j in g.edges[i] <==> j in h.edges[i];
    }
  }

  /**
   For filtered entries the text test only matters on the diagonal: two
   entries are compatible exactly when they are distinct indices with
   disjoint letter sets.
   */
  lemma CompatibleIsDisjoint(entries: seq<Entry>, i: nat, j: nat)
    requires WellFormed(entries)
    requires i < |entries| && j < |entries|
    ensures Compatible(entries, i, j) <==> i != j && entries[i].letters !! entries[j].letters
  {
    if entries[i].word == entries[j].word {
      var w := entries[i].word;
      assert w[0] in entries[i].letters && w[0] in entries[j].letters;
    }
  }
}
