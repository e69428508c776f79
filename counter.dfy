/** `WordCounter` of wordcount_tool/counter.py: a file path and a frequency
    mapping that lives as long as the object. Each successful `CountWords`
    adds the counts of the file's words to the mapping it already holds and
    returns that mapping; a missing file leaves it untouched and yields
    `None`. The file's contents are passed in: `None` stands for the
    `FileNotFoundError` that `open` raises. */
module Counter {
  import opened Wrappers
  import opened Text
  import opened Frequency

  class WordCounter {
    var filepath: string
    var wordCounts: map<string, nat>

    /** Every key is a counted word (non-empty, lower-case word characters)
        and every count is positive: the only way a key enters the mapping
        is by being counted once. */
    ghost predicate Valid()
      reads this
    {
      forall w :: w in wordCounts ==> IsCleanWord(w) && wordCounts[w] > 0
    }

    /** Stores the path without checking it, and starts from no counts. */
    constructor (filepath: string)
      ensures this.filepath == filepath
      ensures wordCounts == map[]
      ensures Valid()
    {
      this.filepath := filepath;
      wordCounts := map[];
    }

    /** `count_words()`, with `contents` the text read from `filepath`.
        Found: every word's count becomes its old count (0 when absent) plus
        its number of occurrences among the file's words, the total grows by
        the number of words, and the result is the instance's own mapping.
        Missing: the result is `None` and the mapping is unchanged. */
    method CountWords(contents: Option<string>) returns (r: Option<map<string, nat>>)
      requires Valid()
      modifies this`wordCounts
      ensures Valid()
      ensures contents.None? ==> r == None && wordCounts == old(wordCounts)
      ensures contents.Some? ==>
        && r == Some(wordCounts)
        && wordCounts == Tally(old(wordCounts), Words(contents.value))
      ensures contents.Some? ==>
        forall w :: Get(wordCounts, w) == Get(old(wordCounts), w) + multiset(Words(contents.value))[w]
      ensures contents.Some? ==>
        wordCounts.Keys == old(wordCounts).Keys + (set w | w in Words(contents.value))
      ensures contents.Some? ==>
        Total(wordCounts) == old(Total(wordCounts)) + |Words(contents.value)|
    {
      if contents.None? {
        return None;
      }
      var text := Lower(contents.value);
      text := Strip(text);
      var words := Tokens(text);
      WordsAreClean(contents.value);
      ghost var start := wordCounts;
      for i := 0 to |words|
        invariant wordCounts == Tally(start, words[..i])
        invariant Valid()
      {
        var word := words[i];
        assert words[..i + 1] == words[..i] + [word];
        TallySnoc(start, words[..i], word);
        assert IsCleanWord(word) by {
          assert word in words;
        }
        wordCounts := wordCounts[word := Get(wordCounts, word) + 1];
      }
      assert words[..|words|] == words;
      forall w | true
        ensures Get(wordCounts, w) == Get(start, w) + multiset(words)[w]
      {
        TallyCounts(start, words, w);
      }
      TallyKeys(start, words);
      TallyTotal(start, words);
      r := Some(wordCounts);
    }
  }

  /** The counting test: a fresh counter over "hello world hello" finds
      hello twice and world once, and nothing else. The text is a parameter
      pinned to the literal so that the verifier does not unroll `Strip`
      and `Tokens` on a literal argument, which is costly. */
  method CountHelloWorld(text: string) returns (counts: Option<map<string, nat>>)
    requires text == "hello world hello"
    ensures counts == Some(map["hello" := 2, "world" := 1])
  {
    var counter := new WordCounter("test_file.txt");
    HelloWorldWords(text);
    HelloWorldTally(map[]);
    counts := counter.CountWords(Some(text));
  }

  /** The missing-file test: a fresh counter over a file that does not
      exist yields `None`, not an empty mapping, and keeps no counts. */
  method CountMissingFile() returns (result: Option<map<string, nat>>, after: map<string, nat>)
    ensures result == None
    ensures after == map[]
  {
    var counter := new WordCounter("non_existent_file.txt");
    result := counter.CountWords(None);
    after := counter.wordCounts;
  }

  /** One counter, the same file counted twice: the second call adds to
      the counts of the first instead of starting afresh, so after it every
      count is twice what it was after the first call. (In Python both
      calls return the same dictionary object; here each result is the
      mapping as it stood when that call returned.) */
  method CountTwice(text: string) returns (first: Option<map<string, nat>>, second: Option<map<string, nat>>)
    ensures first.Some? && second.Some?
    ensures first.value.Keys == second.value.Keys
    ensures forall w :: Get(second.value, w) == 2 * Get(first.value, w)
  {
    var counter := new WordCounter("test_file.txt");
    var words := Words(text);
    first := counter.CountWords(Some(text));
    var once := counter.wordCounts;
    second := counter.CountWords(Some(text));
    TallyKeys(map[], words);
    TallyKeys(once, words);
  }

  /** The words of "hello world hello" (the literal is passed in, as in
      `CountHelloWorld`, to keep `Strip` and `Tokens` from being unrolled on
      it). */
  lemma HelloWorldWords(text: string)
    requires text == "hello world hello"
    ensures Words(text) == ["hello", "world", "hello"]
  {
    var ws := ["hello", "world", "hello"];
    assert IsCleanWord("hello") && IsCleanWord("world");
    assert text == Unwords(ws);
    WordsOfUnwords(ws);
  }

  /** Counting hello, world, hello adds two to hello and one to world. */
  lemma HelloWorldTally(counts: map<string, nat>)
    ensures Tally(counts, ["hello", "world", "hello"])
         == counts["hello" := Get(counts, "hello") + 2]["world" := Get(counts, "world") + 1]
  {
    assert "hello" != "world" by {
      assert "hello"[0] != "world"[0];
    }
    TallyABA(counts, "hello", "world");
  }

  /** Counting a, b, a for two different words a and b. */
  lemma TallyABA(counts: map<string, nat>, a: string, b: string)
    requires a != b
    ensures Tally(counts, [a, b, a]) == counts[a := Get(counts, a) + 2][b := Get(counts, b) + 1]
  {
    assert [a] == [] + [a];
    assert [a, b] == [a] + [b];
    assert [a, b, a] == [a, b] + [a];
    TallySnoc(counts, [], a);
    var t1 := Tally(counts, [a]);
    assert t1 == counts[a := Get(counts, a) + 1];
    TallySnoc(counts, [a], b);
    var t2 := Tally(counts, [a, b]);
    assert t2 == t1[b := Get(counts, b) + 1];
    TallySnoc(counts, [a, b], a);
    assert Get(t2, a) == Get(counts, a) + 1;
  }
}
