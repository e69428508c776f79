# Word counter, modelled in Dafny

This project models the word-frequency routine of the `wordcount_tool`
package: the `WordCounter` class, which holds a file path and a dictionary of
word counts, and its `count_words` method, which reads the file, lower-cases
the text, deletes every character that is neither a word character nor
whitespace, splits the result on runs of whitespace and adds one to the count
of every word it finds.

The model follows the code's structure:

- `wrappers.dfy` — `Option`, whose `None` is the `None` that `count_words`
  returns for a missing file.
- `text.dfy` (module `Text`) — the normalisation pipeline as pure functions:
  `Lower` (`text.lower()`), `Strip` (`re.sub(r'[^\w\s]', '', text)`),
  `Tokens` (`text.split()`) and `Words`, their composition. Lemmas state what
  each step keeps, deletes and splits.
- `frequency.dfy` (module `Frequency`) — the counting specification: `Get`
  (`dict.get(word, 0)`), `Tally` (the effect of the counting loop, one
  increment per word), and `Total` (the sum of all counts).
- `counter.dfy` (module `Counter`) — `class WordCounter` with the fields
  `filepath` and `wordCounts`. `CountWords` changes `wordCounts` in place in
  a `for` loop, proved against `Tally`. The class invariant `Valid` says that
  every key is a non-empty word of lower-case word characters and every count
  is positive. Three client methods replay the repository's tests and the
  effect of counting the same file twice.

The file is not opened: `CountWords` takes the contents that `open(...).read()`
would return, as `Some(text)`, or `None` when the file does not exist
(`FileNotFoundError`).

The counts accumulate across calls. The dictionary is created once, in the
constructor, and every successful `count_words` call adds to it and returns
it, so two calls on the same file do not return equal mappings.
`CountWords` ensures the new mapping is `Tally(old mapping, words)`, and
`CountTwice` proves that a second call on the same text doubles every count.

Characters have their ASCII meaning:

- `Lower` maps `A`–`Z` to `a`–`z` and leaves every other character alone.
- A word character (`\w`) is an ASCII letter, digit or underscore.
- Whitespace is the ASCII part of Python's whitespace class: code points
  9–13, 28–31 and the space. `re`'s `\s` and `str.split()` both use this
  class, so the model uses one predicate, `IsSpace`, for both.

## Model

| member | source | states |
|---|---|---|
| `Text.IsWordChar` | wordcount_tool/counter.py:23 | `\w` restricted to ASCII: letters, digits and the underscore |
| `Text.IsSpace` | wordcount_tool/counter.py:23-26 | whitespace for both `\s` and `split()`, restricted to ASCII: code points 9-13, 28-31 and the space |
| `Text.Kept` | wordcount_tool/counter.py:23 | the characters `[^\w\s]` does not match, which the substitution keeps |
| `Text.LowerChar` | wordcount_tool/counter.py:21 | lowering one character turns a capital into the letter 32 code points above it, leaves every other character alone, leaves no capital, and never changes whether a character is a word character or whitespace |
| `Text.Lower` | wordcount_tool/counter.py:21 | `text.lower()` keeps the length, lowers each character in place and leaves no capital letter in the text |
| `Text.LowerKeepsLower` | wordcount_tool/counter.py:21 | text with no capital letter is unchanged by lowering |
| `Text.Strip` | wordcount_tool/counter.py:23 | every character left after `re.sub(r'[^\w\s]', '', text)` is a word character or whitespace |
| `Text.StripCounts` | wordcount_tool/counter.py:23 | a kept character occurs in the stripped text exactly as often as in the text, and a deleted one not at all |
| `Text.StripIsSubsequence` | wordcount_tool/counter.py:23 | the stripped text is a subsequence of the text: its characters keep their order |
| `Text.StripAppend` | wordcount_tool/counter.py:23 | stripping a concatenation is the concatenation of the stripped parts |
| `Text.PunctuationJoins` | wordcount_tool/counter.py:23 | a deleted character between two pieces of text joins them; it is not turned into a separator |
| `Text.StripKeepsClean` | wordcount_tool/counter.py:23 | text made only of word characters and whitespace is unchanged by stripping |
| `Text.Tokens` | wordcount_tool/counter.py:26 | every token of `text.split()` is non-empty, holds no whitespace, and takes its characters from the text |
| `Text.TokensSkipSpace` | wordcount_tool/counter.py:26 | leading whitespace, of any length, yields no token |
| `Text.TokensSeparated` | wordcount_tool/counter.py:26 | any non-empty run of whitespace between two texts splits exactly between their tokens, so one space, several spaces, tabs or newlines give the same tokens |
| `Text.TokensOfToken` | wordcount_tool/counter.py:26 | a token on its own splits into itself |
| `Text.TokensUnwords` | wordcount_tool/counter.py:26 | splitting undoes joining tokens with single spaces |
| `Text.TokensCover` | wordcount_tool/counter.py:26 | the tokens, concatenated, are exactly the non-whitespace characters of the text, in order |
| `Text.Words` | wordcount_tool/counter.py:21-26 | the words counted for a text: lowered, stripped, then split (its properties are the `Words…` lemmas) |
| `Text.WordsAreClean` | wordcount_tool/counter.py:21-26 | every word counted is non-empty and made of lower-case word characters only |
| `Text.WordsOfUnwords` | wordcount_tool/counter.py:21-26 | lower-case words joined by single spaces are counted as exactly those words, in order |
| `Text.WordsIgnoreCase` | wordcount_tool/counter.py:21-26 | a text and its lower-case form give the same words |
| `Text.WordsSameUpToCase` | wordcount_tool/counter.py:21-26 | two texts that differ only in the case of their letters ("Hello HELLO hello" and "hello hello hello") give the same words |
| `Text.ContractionJoins` | wordcount_tool/counter.py:21-26 | two lower-case words with a deleted character between them (as in "don't") are counted as one word, their concatenation |
| `Frequency.TallyCounts` | wordcount_tool/counter.py:29-30 | after the loop, each word's count is its old count (0 when absent) plus its number of occurrences among the words |
| `Frequency.TallyKeys` | wordcount_tool/counter.py:29-30 | the loop adds exactly the counted words as keys and removes none |
| `Frequency.Get` | wordcount_tool/counter.py:30 | `counts.get(word, 0)`: the count of a present key, 0 for an absent one |
| `Frequency.Tally` | wordcount_tool/counter.py:29-30 | the counts after the loop: one `counts[word] = counts.get(word, 0) + 1` step per word, in order (its meaning is stated by `TallyCounts`, `TallyKeys` and `TallyTotal`) |
| `Frequency.TotalRemove` | wordcount_tool/counter.py:29-30 | the total of all counts is the same whichever key is taken first |
| `Frequency.TotalBump` | wordcount_tool/counter.py:30 | one increment adds exactly one to the total of all counts |
| `Frequency.TallyTotal` | wordcount_tool/counter.py:29-30 | the loop adds exactly the number of words to the total of all counts |
| `Counter.WordCounter.Valid` | wordcount_tool/counter.py:10-30 | the invariant of the counts: every key is a non-empty word of lower-case word characters and every count is positive, since keys enter only by being counted |
| `Counter.WordCounter.constructor` | wordcount_tool/counter.py:7-10 | the path is stored unchecked and the counts start empty |
| `Counter.WordCounter.CountWords` | wordcount_tool/counter.py:13-37 | missing file: `None`, counts unchanged; otherwise the counts become `Tally` of the old counts over the file's words (per word: old count plus occurrences; keys: old keys plus the words; total: old total plus the number of words), the class invariant holds, and the result is the instance's own mapping |
| `Counter.CountHelloWorld` | tests/test_counter.py:7-22 | a fresh counter over "hello world hello" returns exactly hello → 2, world → 1 |
| `Counter.CountMissingFile` | tests/test_counter.py:28-39 | a fresh counter over a missing file returns `None` and keeps no counts |
| `Counter.CountTwice` | wordcount_tool/counter.py:10-33 | counting the same text twice with one counter keeps the same keys and doubles every count |
| `Counter.HelloWorldWords` | tests/test_counter.py:14-22 | the words of "hello world hello" are hello, world, hello |
| `Counter.HelloWorldTally` | tests/test_counter.py:18-22 | counting hello, world, hello adds two to hello and one to world |

## Left out

- Opening and reading the file (`open(...).read()`): the contents are a parameter, and `None` stands for `FileNotFoundError`.
- Other I/O and decoding errors: the code does not catch them, so they propagate to the caller; the model has no such case.
- The `print` calls: they have no effect on the result or the state.
- Unicode: lowering and the character classes are restricted to ASCII. The model treats every non-ASCII character as neither a word character nor whitespace, so it deletes it. Python keeps non-ASCII letters and digits, splits on non-ASCII whitespace, and its `lower()` can change the length of a text.
- Text.Lower: states per-character ASCII lowering, not Python's full Unicode case mapping.
- Counter.WordCounter.CountWords: returns the value of the mapping when the call ends. In Python the caller gets a reference to the instance's dictionary, so a result kept across a later call also shows the later counts. This aliasing is not modelled. The caller can also write to that dictionary and then call `count_words()` again; the model assumes nothing outside the class changes the counts, which is why `CountWords` requires the class invariant `Valid`.
- `filepath` is stored but not used by the model, since the file's contents are passed in.
- `main.py`: it writes a sample file and prints the result.
- The tests' creation and removal of temporary files.
