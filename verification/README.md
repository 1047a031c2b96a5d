# Five words, twenty-five letters: a verified model

The program reads a word list and keeps the lines that are five characters long with five
distinct characters. It builds a *compatibility graph*: one vertex per word, and an edge
between two words whose texts differ and whose letter sets are disjoint. It then enumerates
every 5-clique of that graph with five nested loops. Each loop narrows a bitset of
candidates by intersecting it with the chosen word's neighbours. Each loop also skips
candidates whose index is below the one chosen one level up, so every clique is found
through its ascending index tuple. The cliques are collected as a set of word-sets: five
words that together spell 25 different letters. A diagnostic also counts, for each
letter, how many words contain it.

The model has five modules:

- `Words` (words.dfy): an entry of the list (text and letter set) and the per-line filter.
  The filter's `len()` counts UTF-8 bytes, and the model computes it over Unicode
  characters.
- `CompatGraph` (graph.dfy): `build_from_words` and its edge rule.
- `CliqueSearch` (search.dfy): `intersection_`, `words_to_set` and the five-level search.
  Bitsets are `set<nat>` and the `BTreeMap` of neighbour bitsets is `map<nat, set<nat>>`.
  Iterating a bitset is a scan over positions `0..N-1` that skips unset positions.
  - The search is related to a ghost transcription of the loops (`Explore`/`Step`).
  - That transcription is characterised as collecting the word sets of *chains*: index
    tuples that never go down and whose every element is a neighbour of all earlier ones.
- `Cliques` (cliques.dfy): on a graph built by `build_from_words`, chains are exactly the
  strictly increasing 5-tuples of pairwise compatible words. This module states soundness,
  completeness and the 25-letter property, with concrete scenarios.
- `Frequencies` (frequencies.dfy): `calculate_letter_frequencies`.

## Model

The headline rows are `CliqueSearch.SearchForCliques`, `Cliques.ChainOnBuiltGraph` and
`Cliques.FindCliques`. The rows for `ScanDepth1` to `ScanDepth4`, `ExploreSkip`,
`ExploreDescend` and `ExploreLeaf` relate the loops to the ghost transcription `Explore`;
they take their meaning from `CliqueSearch.ExploreMembers`, which characterises `Explore`.

| member | source | states |
|---|---|---|
| Words.KeptLineShape | src/main.rs:301-303 | a line passes the filter (5 bytes, 5 distinct characters) exactly when it is five distinct ASCII characters |
| Words.ReadWords | src/main.rs:299-306 | the kept entries are never more than the lines; each has a five-character text whose stored letter set is its character set, of size 5 |
| Words.ReadWordsMembers | src/main.rs:299-306 | a text is among the kept words exactly when it is an input line that passes the filter |
| Words.ReadWordsAppend | src/main.rs:299-306 | filtering keeps input order: the entries of two blocks of lines are the entries of the first followed by those of the second |
| Words.Utf8LenAtLeastLength | src/main.rs:301 | the byte length is at least the character count, with equality exactly for ASCII text |
| CompatGraph.BuildFromWords | src/main.rs:64-85 | the built graph's words are the input texts in order, every index 0..N-1 has a neighbour set, and j is a neighbour of i exactly when j < N, the texts differ and the letter sets are disjoint |
| CompatGraph.EdgeRuleSymmetric | src/main.rs:68-75 | j is a neighbour of i exactly when i is a neighbour of j |
| CompatGraph.EdgeRuleIrreflexive | src/main.rs:69-71 | no index is its own neighbour |
| CompatGraph.EdgeRuleBounded | src/main.rs:66-78 | every neighbour is a valid word index |
| CompatGraph.EdgeRuleDeterminesGraph | src/main.rs:64-85 | two graphs that both obey the edge rule for the same entries are equal |
| CompatGraph.CompatibleIsDisjoint | src/main.rs:69-75 | for filtered entries, two indices are compatible exactly when they differ and their letter sets are disjoint |
| CliqueSearch.FrontierSnoc | src/main.rs:101-103 | after choosing a candidate that passes the ordering guard, the set narrowed by `intersection_` is exactly the vertices adjacent to every chosen index |
| CliqueSearch.ExploreMembers | src/main.rs:100-147 | the loop at a given depth, run over the positions below a bound, finds exactly the word sets of the chains that extend the chosen prefix with a next index below the bound |
| CliqueSearch.SearchMembers | src/main.rs:87-149 | the whole loop nest finds exactly the word sets of the five-index chains |
| CliqueSearch.ExploreSkip | src/main.rs:104-107 | a position not in the candidate set, or below the previous index, adds nothing |
| CliqueSearch.ExploreDescend | src/main.rs:109-111 | choosing a position above depth four adds what the next loop finds with the copied and narrowed candidate set |
| CliqueSearch.ExploreLeaf | src/main.rs:133-142 | choosing a position at depth four inserts the word set of the five chosen words |
| CliqueSearch.SearchForCliques | src/main.rs:87-150 | the result holds exactly the word sets of the five-index chains of the graph |
| CliqueSearch.ScanDepth1 | src/main.rs:104-146 | the loop over `word_1` adds to the solutions exactly what the transcription finds below the chosen `word_0` |
| CliqueSearch.ScanDepth2 | src/main.rs:112-145 | the loop over `word_2` adds exactly what the transcription finds below the chosen pair |
| CliqueSearch.ScanDepth3 | src/main.rs:120-144 | the loop over `word_3` adds exactly what the transcription finds below the chosen triple |
| CliqueSearch.ScanDepth4 | src/main.rs:128-143 | the loop over `word_4` adds exactly what the transcription finds below the chosen four indices |
| Cliques.ChainOnBuiltGraph | src/main.rs:100-131 | on a graph obeying the edge rule, the five-index tuples the loops walk are exactly the strictly increasing tuples of pairwise compatible words |
| Cliques.FindCliques | src/main.rs:23-31 | building then searching yields exactly the word sets of the strictly increasing, pairwise compatible index 5-tuples |
| Cliques.CliqueWordsAndLetters | src/main.rs:133-142 | each reported clique of filtered words is five different words with pairwise disjoint letter sets, spelling 25 distinct letters |
| Cliques.WordsToSetDistinct | src/main.rs:215-217 | a list of distinct words gives a set of the same size |
| Cliques.DisjointLettersCount | src/main.rs:73-75 | the letters of n filtered words with pairwise disjoint letter sets number 5n |
| Cliques.EveryCliqueFound | src/main.rs:100-142 | every five pairwise compatible indices form an ascending clique whose word set is theirs, so the search reports it |
| Cliques.CliqueNeedsFiveWords | src/main.rs:100-142 | a clique needs at least five entries |
| Cliques.FewWordsNoCliques | src/main.rs:87-91 | fewer than five words, the empty list included, give an empty result |
| Cliques.FiveWordsClique | src/main.rs:100-142 | "abcde", "fghij", "klmno", "pqrst", "uvwxy" form a clique through the indices 0..4 |
| Cliques.FiveWordsOnlyClique | src/main.rs:100-142 | no other index tuple of those five words is a clique |
| Cliques.FiveWordsFound | src/main.rs:87-150 | on those five words the result is the one set of all five |
| Cliques.SharedLetterNoEdge | src/main.rs:73-75 | "abcde" and "abcxy" share letters, so they are not compatible |
| Cliques.ThreeWordsOneEdge | src/main.rs:64-85 | for "abcde", "fghij", "aghij" the graph has the single edge between the first two |
| Frequencies.CountLetters | src/main.rs:315-320 | counting one entry adds its letters as keys and adds one to exactly those letters' counts, inserting 1 for a new letter |
| Frequencies.LetterFrequencies | src/main.rs:312-324 | the keys are exactly the union of the letter sets; each count is the number of entries containing the letter and is at least 1; the counts add up to the total number of letters |
| Frequencies.OccurrencesPositive | src/main.rs:314-320 | a letter occurs in some entry exactly when it belongs to the union of the letter sets |
| Frequencies.MapSumIncrement | src/main.rs:316-319 | adding one to a count, or inserting a count of 1, raises the sum of the counts by one |
| Frequencies.BumpedSum | src/main.rs:315-320 | counting a set of letters once each raises the sum of the counts by its size |
| Frequencies.CountsSum | src/main.rs:314-321 | the exact counts add up to the sum of the letter-set sizes |

Behaviour of the code worth noting:

- Irreflexivity does not depend on letter sets being non-empty. The builder skips an index
  whose text equals its own (`word == word_2`) before testing disjointness.
- Duplicate words in the input are not removed. Two copies of a text get two vertices.
  There is no edge between them, because their texts are equal. Each copy is adjacent to
  the same words. So a clique through one copy and a clique through the other give the
  same word set, and the result set holds it once.
- The ordering guard skips only indices strictly below the previous one, so the loops walk
  non-decreasing tuples. The edge rule makes them strictly increasing
  (`Cliques.ChainOnBuiltGraph`).
- The filter tests the byte length, not the character count. Every kept line is still
  five ASCII characters (`Words.KeptLineShape`), because five distinct characters need at
  least five bytes.

## Left out

- `main` (src/main.rs:11-49): reading the hard-coded path, printing and the progress bars.
  These are I/O only. `Cliques.FindCliques` is the build-then-search part of `main`.
- File opening and line reading in `read_words_file` (src/main.rs:296-300, 309) are I/O. A
  line-read error ends the read with that error; the model takes the lines as a given
  sequence.
- The `println!` inside the search (src/main.rs:140) has no effect on the result.
- The commented-out code is dead and not modelled: the visited-set search
  (src/main.rs:157-213), `intersection` (src/main.rs:223-225) and the recursive search
  (src/main.rs:227-293). `word_ids_to_set` (src/main.rs:219-221) is only used by that dead
  code.
- The program has only the sequential exhaustive search; that is what is modelled.
- Invariance of the result under reordering of the input list is not proved. The result
  is characterised for every input, but relating two permuted inputs needs permutation
  reasoning the program does not do itself.
- `BitSet`, `BTreeMap` and `BTreeSet` internals and their iteration order are left out.
  Only their contents matter for the result.
- The search is five `for` loops split over one method per depth (`SearchForCliques`,
  `ScanDepth1` to `ScanDepth4`) rather than one function body.
- The scratch bitsets `neighbors_1..4` are written in the model as local sets, copied with
  `{}` and union and then narrowed. Their allocation with capacity N is not modelled.
- CliqueSearch.SearchForCliques: the `unwrap` in `intersection_` would panic on an index
  without a neighbour set. The model requires every index to have one (`KeysCover`), which
  `BuildFromWords` guarantees.
- Frequencies.LetterFrequencies: counts are unbounded integers rather than `i64`. A count
  never exceeds the number of words, so overflow cannot occur.
