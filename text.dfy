/** Text normalisation and tokenisation of `WordCounter.count_words`:
    `text.lower()`, then `re.sub(r'[^\w\s]', '', text)`, then `text.split()`.

    Characters are given their ASCII meaning: lowering maps 'A'..'Z' only,
    a word character (`\w`) is an ASCII letter, digit or underscore, and
    whitespace is the ASCII part of Python's whitespace class, which `\s`
    and `str.split()` share. */
module Text {

  /** An ASCII capital letter, the only characters `LowerChar` changes. */
  predicate IsUpper(c: char) {
    'A' <= c <= 'Z'
  }

  /** `\w` restricted to ASCII: letters, digits and the underscore. */
  predicate IsWordChar(c: char) {
    'a' <= c <= 'z' || 'A' <= c <= 'Z' || '0' <= c <= '9' || c == '_'
  }

  /** Python's whitespace restricted to ASCII: tab, line feed, vertical tab,
      form feed, carriage return (9-13), the four separators 28-31 and space. */
  predicate IsSpace(c: char) {
    9 <= c as int <= 13 || 28 <= c as int <= 31 || c == ' '
  }

  /** The characters `re.sub(r'[^\w\s]', '', ...)` keeps. */
  predicate Kept(c: char) {
    IsWordChar(c) || IsSpace(c)
  }

  /** `str.lower()` on one character. Lowering never changes whether a
      character is a word character or whitespace. */
  function LowerChar(c: char): (d: char)
    ensures !IsUpper(d)
    ensures d == c || IsUpper(c)
    ensures IsUpper(c) ==> d as int == c as int + 32
    ensures IsWordChar(d) <==> IsWordChar(c)
    ensures IsSpace(d) <==> IsSpace(c)
  {
    if IsUpper(c) then (c as int - 'A' as int + 'a' as int) as char else c
  }

  /** `text.lower()`: the same text, character for character, with no
      capital letter left. */
  function Lower(s: string): (r: string)
    ensures |r| == |s|
    ensures forall i :: 0 <= i < |s| ==> r[i] == LowerChar(s[i])
    ensures forall c :: c in r ==> !IsUpper(c)
  {
    seq(|s|, i requires 0 <= i < |s| => LowerChar(s[i]))
  }

  /** `t` can be obtained from `s` by deleting characters. */
  ghost predicate Subsequence(t: string, s: string)
    decreases |s|
  {
    if t == [] then true
    else if s == [] then false
    else (t[0] == s[0] && Subsequence(t[1..], s[1..])) || Subsequence(t, s[1..])
  }

  /** `re.sub(r'[^\w\s]', '', text)`: deletes every character that is
      neither a word character nor whitespace. The result holds only kept
      characters; it holds every kept character of `s` as often as `s` does
      (`StripCounts`) and keeps their order (`StripIsSubsequence`). */
  function Strip(s: string): (r: string)
    ensures forall c :: c in r ==> Kept(c)
  {
    if s == [] then []
    else if Kept(s[0]) then [s[0]] + Strip(s[1..])
    else Strip(s[1..])
  }

  /** Nothing but the deleted characters is lost: each kept character
      occurs in the stripped text exactly as often as in the text. */
  lemma {:induction false} StripCounts(s: string, c: char)
    ensures multiset(Strip(s))[c] == if Kept(c) then multiset(s)[c] else 0
    decreases |s|
  {
    if s != [] {
      assert s == [s[0]] + s[1..];
      StripCounts(s[1..], c);
    }
  }

  /** Deleting characters keeps the order of the rest: the stripped text is
      a subsequence of the text. */
  lemma {:induction false} StripIsSubsequence(s: string)
    ensures Subsequence(Strip(s), s)
    decreases |s|
  {
    if s != [] {
      StripIsSubsequence(s[1..]);
      if Kept(s[0]) {
        assert Strip(s)[1..] == Strip(s[1..]);
      }
    }
  }

  /** A token as `str.split()` yields it: non-empty, without whitespace. */
  predicate IsToken(w: string) {
    w != [] && forall c :: c in w ==> !IsSpace(c)
  }

  /** The length of the run of non-whitespace characters that starts `s`. */
  function WordLen(s: string): (k: nat)
    ensures k <= |s|
    ensures forall i :: 0 <= i < k ==> !IsSpace(s[i])
    ensures k < |s| ==> IsSpace(s[k])
  {
    if s == [] || IsSpace(s[0]) then 0 else 1 + WordLen(s[1..])
  }

  /** `text.split()`: the maximal runs of non-whitespace characters of `s`,
      in order. Every token is non-empty, holds no whitespace and takes its
      characters from `s`. */
  function Tokens(s: string): (r: seq<string>)
    ensures forall w :: w in r ==> IsToken(w)
    ensures forall w, c :: w in r && c in w ==> c in s
    decreases |s|
  {
    if s == [] then []
    else if IsSpace(s[0]) then Tokens(s[1..])
    else
      var k := WordLen(s);
      [s[..k]] + Tokens(s[k..])
  }

  /** The words `count_words` counts for the file contents `text`. */
  function Words(text: string): seq<string> {
    Tokens(Strip(Lower(text)))
  }

  /** A key `count_words` can add: a token made of lower-case word characters. */
  predicate IsCleanWord(w: string) {
    w != [] && forall c :: c in w ==> IsWordChar(c) && !IsUpper(c)
  }

  /** Every word counted is non-empty and consists of lower-case word
      characters only: punctuation and whitespace never reach a key. */
  lemma WordsAreClean(text: string)
    ensures forall w :: w in Words(text) ==> IsCleanWord(w)
  {
    var low := Lower(text);
    var stripped := Strip(low);
    forall w, c | w in Tokens(stripped) && c in w
      ensures IsWordChar(c) && !IsUpper(c)
    {
      assert c in stripped && !IsSpace(c);
      assert multiset(stripped)[c] > 0;
      StripCounts(low, c);
      assert c in low;
    }
  }

  /** Deleting characters distributes over concatenation. */
  lemma {:induction false} StripAppend(a: string, b: string)
    ensures Strip(a + b) == Strip(a) + Strip(b)
    decreases |a|
  {
    if a == [] {
      assert a + b == b;
    } else {
      assert (a + b)[1..] == a[1..] + b;
      StripAppend(a[1..], b);
    }
  }

  /** A deleted punctuation character does not split a word: the text on
      both sides is joined (so "don't" becomes "dont"). */
  lemma PunctuationJoins(a: string, p: char, b: string)
    requires !Kept(p)
    ensures Strip(a + [p] + b) == Strip(a) + Strip(b)
  {
    assert Strip([p]) == [] by {
      assert [p][1..] == [];
    }
    StripAppend(a, [p]);
    assert Strip(a + [p]) == Strip(a);
    StripAppend(a + [p], b);
  }

  /** Text with only kept characters is left as it is by `Strip`. */
  lemma {:induction false} StripKeepsClean(s: string)
    requires forall c :: c in s ==> Kept(c)
    ensures Strip(s) == s
    decreases |s|
  {
    if s != [] {
      assert s[0] in s;
      StripKeepsClean(s[1..]);
    }
  }

  /** Text without capital letters is left as it is by `Lower`. */
  lemma LowerKeepsLower(s: string)
    requires forall c :: c in s ==> !IsUpper(c)
    ensures Lower(s) == s
  {
    forall i | 0 <= i < |s|
      ensures Lower(s)[i] == s[i]
    {
      assert s[i] in s;
    }
  }

  /** A run of whitespace, however long, before the text yields no token. */
  lemma {:induction false} TokensSkipSpace(sp: string, s: string)
    requires forall c :: c in sp ==> IsSpace(c)
    ensures Tokens(sp + s) == Tokens(s)
    decreases |sp|
  {
    if sp != [] {
      assert sp[0] in sp;
      assert (sp + s)[0] == sp[0];
      assert (sp + s)[1..] == sp[1..] + s;
      assert forall c :: c in sp[1..] ==> c in sp;
      TokensSkipSpace(sp[1..], s);
    } else {
      assert sp + s == s;
    }
  }

  /** Whitespace robustness: any non-empty run of whitespace between two
      texts separates their tokens and yields nothing else, so one space,
      several spaces, tabs or newlines give the same tokens. */
  lemma {:induction false} TokensSeparated(a: string, sep: string, b: string)
    requires sep != [] && forall c :: c in sep ==> IsSpace(c)
    ensures Tokens(a + sep + b) == Tokens(a) + Tokens(b)
    decreases |a|
  {
    var s := a + sep + b;
    if a == [] {
      assert s == sep + b;
      TokensSkipSpace(sep, b);
    } else if IsSpace(a[0]) {
      assert s[1..] == a[1..] + sep + b;
      TokensSeparated(a[1..], sep, b);
    } else {
      var j := WordLen(a);
      WordLenBeforeSpace(a, sep + b);
      assert s == a + (sep + b);
      assert s[0] == a[0];
      assert s[..j] == a[..j];
      assert s[j..] == a[j..] + sep + b;
      assert Tokens(s) == [a[..j]] + Tokens(a[j..] + sep + b);
      assert Tokens(a) == [a[..j]] + Tokens(a[j..]);
      TokensSeparated(a[j..], sep, b);
    }
  }

  /** A word that starts `a` ends no later than `a` when whitespace follows. */
  lemma WordLenBeforeSpace(a: string, rest: string)
    requires rest != [] && IsSpace(rest[0])
    ensures WordLen(a + rest) == WordLen(a)
  {
    var s := a + rest;
    var k, j := WordLen(s), WordLen(a);
    assert forall i :: 0 <= i < |a| ==> s[i] == a[i];
    assert IsSpace(s[j]) by {
      if j < |a| { assert s[j] == a[j]; } else { assert s[j] == rest[0]; }
    }
  }

  /** Words joined by single spaces, as `" ".join(words)` builds them. */
  function Unwords(ws: seq<string>): string
    decreases |ws|
  {
    if ws == [] then []
    else if |ws| == 1 then ws[0]
    else ws[0] + " " + Unwords(ws[1..])
  }

  /** A single token is split into itself. */
  lemma TokensOfToken(w: string)
    requires IsToken(w)
    ensures Tokens(w) == [w]
  {
    var k := WordLen(w);
    assert w[0] in w;
    assert k == |w|;
    assert w[..k] == w && w[k..] == [];
  }

  /** Splitting undoes joining: the tokens of space-joined tokens are
      those tokens, in order. */
  lemma {:induction false} TokensUnwords(ws: seq<string>)
    requires forall w :: w in ws ==> IsToken(w)
    ensures Tokens(Unwords(ws)) == ws
    decreases |ws|
  {
    if ws == [] {
    } else if |ws| == 1 {
      assert ws[0] in ws;
      TokensOfToken(ws[0]);
    } else {
      assert ws[0] in ws;
      assert forall w :: w in ws[1..] ==> w in ws;
      TokensUnwords(ws[1..]);
      TokensOfToken(ws[0]);
      assert forall c :: c in " " ==> IsSpace(c);
      TokensSeparated(ws[0], " ", Unwords(ws[1..]));
    }
  }

  /** Every character of space-joined words is a space or comes from one
      of the words. */
  lemma {:induction false} UnwordsChars(ws: seq<string>, c: char)
    requires c in Unwords(ws)
    ensures c == ' ' || exists w :: w in ws && c in w
    decreases |ws|
  {
    if |ws| > 1 {
      if c !in ws[0] && c != ' ' {
        assert c in Unwords(ws[1..]);
        UnwordsChars(ws[1..], c);
        var w :| w in ws[1..] && c in w;
        assert w in ws;
      }
    }
  }

  /** Lower-case words joined by single spaces are counted as exactly those
      words, in order: normalisation leaves such text as it is. */
  lemma WordsOfUnwords(ws: seq<string>)
    requires forall w :: w in ws ==> IsCleanWord(w)
    ensures Words(Unwords(ws)) == ws
  {
    var text := Unwords(ws);
    forall c | c in text
      ensures Kept(c) && !IsUpper(c)
    {
      UnwordsChars(ws, c);
    }
    LowerKeepsLower(text);
    StripKeepsClean(text);
    assert forall w :: w in ws ==> IsToken(w);
    TokensUnwords(ws);
  }

  /** Case does not matter: a text and its lower-case form have the same
      words. */
  lemma WordsIgnoreCase(text: string)
    ensures Words(Lower(text)) == Words(text)
  {
    LowerKeepsLower(Lower(text));
  }

  /** Two characters that are equal, or a capital letter and its
      lower-case letter (32 code points apart in ASCII), in either order. */
  predicate SameUpToCase(c: char, d: char) {
    c == d
    || (IsUpper(c) && d as int == c as int + 32)
    || (IsUpper(d) && c as int == d as int + 32)
  }

  /** Case insensitivity: texts that differ only in the case of their
      letters ("Hello HELLO hello") have the same words. */
  lemma WordsSameUpToCase(a: string, b: string)
    requires |a| == |b|
    requires forall i :: 0 <= i < |a| ==> SameUpToCase(a[i], b[i])
    ensures Words(a) == Words(b)
  {
    assert Lower(a) == Lower(b);
  }

  /** An apostrophe (or any other deleted character) between two lower-case
      words makes one word of them, as "don't" is counted as "dont". */
  lemma ContractionJoins(a: string, p: char, b: string)
    requires IsCleanWord(a) && IsCleanWord(b) && !Kept(p)
    ensures Words(a + [p] + b) == [a + b]
  {
    var text := a + [p] + b;
    assert Lower(text) == text by {
      forall c | c in text
        ensures !IsUpper(c)
      {
        assert c in a || c == p || c in b;
      }
      LowerKeepsLower(text);
    }
    assert Strip(text) == a + b by {
      PunctuationJoins(a, p, b);
      StripKeepsClean(a);
      StripKeepsClean(b);
    }
    assert IsToken(a + b) by {
      forall c | c in a + b
        ensures !IsSpace(c)
      {
        assert c in a || c in b;
      }
    }
    TokensOfToken(a + b);
  }

  /** The characters of `s` other than whitespace, in order. */
  function NonSpace(s: string): string
    decreases |s|
  {
    if s == [] then [] else (if IsSpace(s[0]) then [] else [s[0]]) + NonSpace(s[1..])
  }

  /** Concatenation of a sequence of strings. */
  function Concat(ws: seq<string>): string
    decreases |ws|
  {
    if ws == [] then [] else ws[0] + Concat(ws[1..])
  }

  /** Dropping whitespace distributes over concatenation. */
  lemma {:induction false} NonSpaceAppend(a: string, b: string)
    ensures NonSpace(a + b) == NonSpace(a) + NonSpace(b)
    decreases |a|
  {
    if a == [] {
      assert a + b == b;
    } else {
      assert (a + b)[1..] == a[1..] + b;
      NonSpaceAppend(a[1..], b);
    }
  }

  /** Text without whitespace loses nothing when whitespace is dropped. */
  lemma {:induction false} NonSpaceOfToken(w: string)
    requires forall c :: c in w ==> !IsSpace(c)
    ensures NonSpace(w) == w
    decreases |w|
  {
    if w != [] {
      assert w[0] in w;
      NonSpaceOfToken(w[1..]);
    }
  }

  /** Splitting loses nothing but whitespace: the tokens, put back together,
      are exactly the non-whitespace characters of the text, in order. */
  lemma {:induction false} TokensCover(s: string)
    ensures Concat(Tokens(s)) == NonSpace(s)
    decreases |s|
  {
    if s == [] {
    } else if IsSpace(s[0]) {
      TokensCover(s[1..]);
    } else {
      var k := WordLen(s);
      TokensCover(s[k..]);
      assert s == s[..k] + s[k..];
      NonSpaceAppend(s[..k], s[k..]);
      NonSpaceOfToken(s[..k]);
      assert ([s[..k]] + Tokens(s[k..]))[1..] == Tokens(s[k..]);
    }
  }
}
