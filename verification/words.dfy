/**
 Words and the per-line filter that decides which lines of the word list
 reach the graph builder (`read_words_file`, src/main.rs:296-310).

 A line is kept when its length in bytes is 5 and it has 5 distinct
 characters. Rust's `String::len` counts UTF-8 bytes, so the byte length is
 modelled explicitly over Dafny's Unicode characters.
 */
module Words {

  /** One entry of the word list: the text and its precomputed letter set. */
  datatype Entry = Entry(word: string, letters: set<char>)

  /** The set of characters occurring in `s`. */
  function CharSet(s: string): (r: set<char>)
    ensures forall c :: c in r <==> c in s
  {
    set c | c in s
  }

  /** Number of bytes the UTF-8 encoding of `c` takes. */
  function Utf8Width(c: char): (n: nat)
    ensures 1 <= n <= 4
    ensures n == 1 <==> (c as int) < 0x80
  {
    if (c as int) < 0x80 then 1
    else if (c as int) < 0x800 then 2
    else if (c as int) < 0x1_0000 then 3
    else 4
  }

  /** Byte length of the UTF-8 encoding of `s` (what `str::len` returns). */
  function Utf8Len(s: string): nat
  {
    if |s| == 0 then 0 else Utf8Len(s[..|s| - 1]) + Utf8Width(s[|s| - 1])
  }

  predicate IsAscii(s: string)
  {
    forall k :: 0 <= k < |s| ==> (s[k] as int) < 0x80
  }

  /** The filter of `read_words_file`: 5 bytes long and 5 distinct characters. */
  predicate KeepLine(line: string)
  {
    Utf8Len(line) == 5 && |CharSet(line)| == 5
  }

  /** An entry as the filter produces it. */
  predicate WellFormedEntry(e: Entry)
  {
    && |e.word| == 5
    && e.letters == CharSet(e.word)
    && |e.letters| == 5
  }

  predicate WellFormed(entries: seq<Entry>)
  {
    forall k :: 0 <= k < |entries| ==> WellFormedEntry(entries[k])
  }

  /** The texts of the entries, in order. */
  function Texts(entries: seq<Entry>): (r: seq<string>)
    ensures |r| == |entries|
    ensures forall k :: 0 <= k < |entries| ==> r[k] == entries[k].word
  {
    seq(|entries|, k requires 0 <= k < |entries| => entries[k].word)
  }

  /**
   The pure part of `read_words_file`: every line that passes the filter is
   pushed, with its letter set, in input order.
   */
  function ReadWords(lines: seq<string>): (r: seq<Entry>)
    ensures |r| <= |lines|
    ensures WellFormed(r)
  {
    if |lines| == 0 then []
    else
      var rest := ReadWords(lines[..|lines| - 1]);
      var line := lines[|lines| - 1];
      if KeepLine(line) then
        KeptLineShape(line);
        rest + [Entry(line, CharSet(line))]
      else rest
  }

  lemma {:induction false} Utf8LenAtLeastLength(s: string)
    ensures Utf8Len(s) >= |s|
    ensures Utf8Len(s) == |s| <==> IsAscii(s)
  {
    if |s| > 0 {
      var init := s[..|s| - 1];
      Utf8LenAtLeastLength(init);
      assert forall k :: 0 <= k < |init| ==> init[k] == s[k];
    }
  }

  lemma {:induction false} CharSetAtMostLength(s: string)
    ensures |CharSet(s)| <= |s|
  {
    if |s| > 0 {
      var init := s[..|s| - 1];
      CharSetAtMostLength(init);
      assert s == init + [s[|s| - 1]];
      assert CharSet(s) == CharSet(init) + {s[|s| - 1]};
    }
  }

  /**
   A line passes the filter exactly when it is five distinct ASCII
   characters: the byte-length test cannot admit a multi-byte character,
   because five distinct characters already need five bytes.
   */
  lemma KeptLineShape(line: string)
    ensures KeepLine(line) <==> |line| == 5 && IsAscii(line) && |CharSet(line)| == 5
  {
    Utf8LenAtLeastLength(line);
    CharSetAtMostLength(line);
  }

  /** The filter keeps input order: reading two blocks of lines one after the other. */
  lemma {:induction false} ReadWordsAppend(a: seq<string>, b: seq<string>)
    ensures ReadWords(a + b) == ReadWords(a) + ReadWords(b)
    decreases |b|
  {
    if |b| == 0 {
      assert a + b == a;
    } else {
      var b' := b[..|b| - 1];
      assert (a + b)[..|a + b| - 1] == a + b';
      assert (a + b)[|a + b| - 1] == b[|b| - 1];
      ReadWordsAppend(a, b');
    }
  }

  /** A text is among the kept words exactly when it is a line that passes the filter. */
  lemma {:induction false} ReadWordsMembers(lines: seq<string>, w: string)
    ensures w in Texts(ReadWords(lines)) <==> w in lines && KeepLine(w)
  {
    if |lines| > 0 {
      var init := lines[..|lines| - 1];
      var line := lines[|lines| - 1];
      ReadWordsMembers(init, w);
      assert lines == init + [line];
      var rest := ReadWords(init);
      if KeepLine(line) {
        assert Texts(ReadWords(lines)) == Texts(rest) + [line];
      } else {
        assert Texts(ReadWords(lines)) == Texts(rest);
      }
    }
  }
}
