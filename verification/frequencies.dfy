/**
 `calculate_letter_frequencies` (src/main.rs:312-324): for every letter, the
 number of word-list entries whose letter set contains it. A diagnostic the
 program prints before building the graph.
 */
module Frequencies {
  import opened Words

  /** How many entries have `c` in their letter set. */
  function Occurrences(entries: seq<Entry>, c: char): nat
  {
    if |entries| == 0 then 0
    else Occurrences(entries[..|entries| - 1], c) + (if c in entries[|entries| - 1].letters then 1 else 0)
  }

  /** The union of all letter sets. */
  function AllLetters(entries: seq<Entry>): (r: set<char>)
    ensures forall c :: c in r <==> exists k :: 0 <= k < |entries| && c in entries[k].letters
  {
    if |entries| == 0 then {}
    else AllLetters(entries[..|entries| - 1]) + entries[|entries| - 1].letters
  }

  /** The sum of the letter-set sizes. */
  function TotalLetters(entries: seq<Entry>): nat
  {
    if |entries| == 0 then 0
    else TotalLetters(entries[..|entries| - 1]) + |entries[|entries| - 1].letters|
  }

  /** Some element of a non-empty set. */
  ghost function Pick(ks: set<char>): (k: char)
    requires ks != {}
    ensures k in ks
  {
    var k :| k in ks; k
  }

  /** The sum of the values of `m` at the keys `ks`. */
  ghost function SumOver(m: map<char, int>, ks: set<char>): int
    requires ks <= m.Keys
    decreases ks
  {
    if ks == {} then 0
    else
      var k := Pick(ks);
      m[k] + SumOver(m, ks - {k})
  }

  /** Any key can be taken out first when summing. */
  lemma {:induction false} SumOverRemove(m: map<char, int>, ks: set<char>, k: char)
    requires ks <= m.Keys && k in ks
    ensures SumOver(m, ks) == m[k] + SumOver(m, ks - {k})
    decreases ks
  {
    var j := Pick(ks);
    if j != k {
      SumOverRemove(m, ks - {j}, k);
      SumOverRemove(m, ks - {k}, j);
      assert ks - {j} - {k} == ks - {k} - {j};
    }
  }

  lemma {:induction false} SumOverAgree(m: map<char, int>, m': map<char, int>, ks: set<char>)
    requires ks <= m.Keys && ks <= m'.Keys
    requires forall k :: k in ks ==> m[k] == m'[k]
    ensures SumOver(m, ks) == SumOver(m', ks)
    decreases ks
  {
    if ks != {} {
      SumOverAgree(m, m', ks - {Pick(ks)});
    }
  }

  /** The sum of all values of a map. */
  ghost function MapSum(m: map<char, int>): int
  {
    SumOver(m, m.Keys)
  }

  /** Counting one more occurrence adds one to the sum. */
  lemma MapSumIncrement(m: map<char, int>, c: char)
    ensures c in m ==> MapSum(m[c := m[c] + 1]) == MapSum(m) + 1
    ensures c !in m ==> MapSum(m[c := 1]) == MapSum(m) + 1
  {
    var m' := if c in m then m[c := m[c] + 1] else m[c := 1];
    SumOverRemove(m', m'.Keys, c);
    SumOverAgree(m, m', m.Keys - {c});
    if c in m {
      SumOverRemove(m, m.Keys, c);
      assert m'.Keys - {c} == m.Keys - {c};
    } else {
      assert m'.Keys - {c} == m.Keys;
      assert m.Keys - {c} == m.Keys;
    }
  }

  /**
   A letter is counted exactly when some entry contains it, so every count
   is at least one.
   */
  lemma {:induction false} OccurrencesPositive(entries: seq<Entry>, c: char)
    ensures Occurrences(entries, c) > 0 <==> c in AllLetters(entries)
  {
    if |entries| > 0 {
      OccurrencesPositive(entries[..|entries| - 1], c);
    }
  }

  /** `m` with one more occurrence of every letter in `letters`. */
  function Bumped(m: map<char, int>, letters: set<char>): (r: map<char, int>)
    ensures r.Keys == m.Keys + letters
  {
    map c | c in m.Keys + letters :: (if c in m then m[c] else 0) + (if c in letters then 1 else 0)
  }

  /** Counting a set of letters once each adds its size to the sum. */
  lemma {:induction false} BumpedSum(m: map<char, int>, letters: set<char>)
    ensures MapSum(Bumped(m, letters)) == MapSum(m) + |letters|
    decreases letters
  {
    if letters == {} {
      assert Bumped(m, letters) == m;
    } else {
      var c := Pick(letters);
      BumpedSum(m, letters - {c});
      BumpedStep(m, letters, c);
      SumStep(Bumped(m, letters), Bumped(m, letters - {c}), c);
    }
  }

  lemma SumStep(big: map<char, int>, smaller: map<char, int>, c: char)
    requires big == if c in smaller then smaller[c := smaller[c] + 1] else smaller[c := 1]
    ensures MapSum(big) == MapSum(smaller) + 1
  {
    MapSumIncrement(smaller, c);
  }

  lemma BumpedStep(m: map<char, int>, letters: set<char>, c: char)
    requires c in letters
    ensures var smaller := Bumped(m, letters - {c});
            Bumped(m, letters) == if c in smaller then smaller[c := smaller[c] + 1] else smaller[c := 1]
  {
  }

  /** The counts the program should print: letter to number of entries containing it. */
  function Counts(entries: seq<Entry>): (r: map<char, int>)
    ensures r.Keys == AllLetters(entries)
  {
    map c | c in AllLetters(entries) :: Occurrences(entries, c)
  }

  /** Adding an entry bumps the counts of its letters. */
  lemma CountsSnoc(entries: seq<Entry>)
    requires |entries| > 0
    ensures Counts(entries) == Bumped(Counts(entries[..|entries| - 1]), entries[|entries| - 1].letters)
  {
    var init := entries[..|entries| - 1];
    forall c | c in AllLetters(entries) && c !in AllLetters(init)
      ensures Occurrences(init, c) == 0
    {
      OccurrencesPositive(init, c);
    }
  }

  /** Each entry's letters are counted once: the counts add up to the letter total. */
  lemma {:induction false} CountsSum(entries: seq<Entry>)
    ensures MapSum(Counts(entries)) == TotalLetters(entries)
  {
    if |entries| == 0 {
      assert Counts(entries) == map[];
    } else {
      var init := entries[..|entries| - 1];
      CountsSum(init);
      CountsSnoc(entries);
      BumpedSum(Counts(init), entries[|entries| - 1].letters);
    }
  }

  lemma CountsStep(entries: seq<Entry>, i: nat, before: map<char, int>, after: map<char, int>)
    requires i < |entries| && before == Counts(entries[..i])
    requires after.Keys == before.Keys + entries[i].letters
    requires forall c :: c in after ==>
               after[c] == (if c in before then before[c] else 0) + (if c in entries[i].letters then 1 else 0)
    ensures after == Counts(entries[..i + 1])
  {
    assert entries[..i + 1][..i] == entries[..i];
    CountsSnoc(entries[..i + 1]);
    assert after == Bumped(before, entries[i].letters);
  }

  /**
   The inner loop: add one to the count of every letter of one entry,
   inserting 1 for a letter not yet seen (`and_modify` / `or_insert`). The
   source visits the letters in ascending order; the counts do not depend
   on the order.
   */
  method CountLetters(freq: map<char, int>, letters: set<char>) returns (freq': map<char, int>)
    ensures freq'.Keys == freq.Keys + letters
    ensures forall c :: c in freq' ==>
              freq'[c] == (if c in freq then freq[c] else 0) + (if c in letters then 1 else 0)
  {
    freq' := freq;
    var rest := letters;
    ghost var done: set<char> := {};
    while rest != {}
      invariant rest + done == letters && rest !! done
      invariant freq'.Keys == freq.Keys + done
      invariant forall c :: c in freq' ==>
                  freq'[c] == (if c in freq then freq[c] else 0) + (if c in done then 1 else 0)
      decreases rest
    {
      var c :| c in rest;
      if c in freq' {
        freq' := freq'[c := freq'[c] + 1];
      } else {
        freq' := freq'[c := 1];
      }
      rest := rest - {c};
      done := done + {c};
    }
  }

  /**
   The letter counts: the keys are exactly the letters of the entries, each
   value is the number of entries containing that letter (so at least one),
   and the values add up to the total number of letters over all entries.
   */
  method LetterFrequencies(entries: seq<Entry>) returns (freq: map<char, int>)
    ensures freq.Keys == AllLetters(entries)
    ensures forall c :: c in freq ==> freq[c] == Occurrences(entries, c) >= 1
    ensures MapSum(freq) == TotalLetters(entries)
  {
    freq := map[];
    for i := 0 to |entries|
      invariant freq == Counts(entries[..i])
    {
      ghost var before := freq;
      freq := CountLetters(freq, entries[i].letters);
      CountsStep(entries, i, before, freq);
    }
    assert entries[..|entries|] == entries;
    CountsSum(entries);
    forall c | c in freq
      ensures freq[c] >= 1
    {
      OccurrencesPositive(entries, c);
    }
  }
}
