/**
 * The JavaScript string operations the scraper and the sheets client rely on:
 * the `\s` character class and `trim()`, `replace(/\s+/g, c)`, `includes`,
 * `Array.prototype.join`, `substring(0, n)`, ASCII `toLowerCase` and the
 * decimal rendering of a count inside a template literal.
 */
module Text {

  /** ECMAScript WhiteSpace and LineTerminator code points: what `\s` matches and `trim()` removes. */
  predicate IsWhitespace(c: char) {
    c == '\t' || c == '\n' || c == '\U{000B}' || c == '\U{000C}' || c == '\r' || c == ' ' ||
    c == '\U{00A0}' || c == '\U{1680}' || ('\U{2000}' <= c <= '\U{200A}') ||
    c == '\U{2028}' || c == '\U{2029}' || c == '\U{202F}' || c == '\U{205F}' ||
    c == '\U{3000}' || c == '\U{FEFF}'
  }

  /** The characters of `s` that are not whitespace, in order. */
  function NonWhitespace(s: string): string {
    if s == [] then []
    else (if IsWhitespace(s[0]) then [] else [s[0]]) + NonWhitespace(s[1..])
  }

  lemma {:induction false} NonWhitespaceAppend(a: string, b: string)
    ensures NonWhitespace(a + b) == NonWhitespace(a) + NonWhitespace(b)
  {
    if a != [] {
      assert (a + b)[0] == a[0] && (a + b)[1..] == a[1..] + b;
      NonWhitespaceAppend(a[1..], b);
    } else {
      assert a + b == b;
    }
  }

  /** Every character of `s` is whitespace. */
  predicate IsBlank(s: string) {
    forall i | 0 <= i < |s| :: IsWhitespace(s[i])
  }

  lemma {:induction false} NonWhitespaceOfBlank(s: string)
    requires IsBlank(s)
    ensures NonWhitespace(s) == []
  {
    if s != [] {
      assert forall i | 0 <= i < |s| - 1 :: s[1..][i] == s[i + 1];
      NonWhitespaceOfBlank(s[1..]);
    }
  }

  /** `trimStart()`: drops the leading whitespace. */
  function TrimStart(s: string): (r: string)
    ensures |r| <= |s| && r == s[|s| - |r|..]
    ensures r == [] || !IsWhitespace(r[0])
    ensures IsBlank(s[..|s| - |r|])
  {
    if s != [] && IsWhitespace(s[0]) then TrimStart(s[1..]) else s
  }

  /** `trimEnd()`: drops the trailing whitespace. */
  function TrimEnd(s: string): (r: string)
    ensures |r| <= |s| && r == s[..|r|]
    ensures r == [] || !IsWhitespace(r[|r| - 1])
    ensures IsBlank(s[|r|..])
  {
    if s != [] && IsWhitespace(s[|s| - 1]) then TrimEnd(s[..|s| - 1]) else s
  }

  /** `trim()`: a slice of `s` with neither leading nor trailing whitespace. */
  function Trim(s: string): (r: string)
  {
    TrimEnd(TrimStart(s))
  }

  /** No whitespace at either end. */
  predicate IsTrimmed(s: string) {
    s == [] || (!IsWhitespace(s[0]) && !IsWhitespace(s[|s| - 1]))
  }

  /** Where `trim()`'s result starts inside its input. */
  function TrimOffset(s: string): nat
    requires |TrimStart(s)| <= |s|
  {
    |s| - |TrimStart(s)|
  }

  /** `trim()` leaves no whitespace at either end. */
  lemma TrimIsTrimmed(s: string)
    ensures IsTrimmed(Trim(s))
  {
    var t := TrimStart(s);
    var r := TrimEnd(t);
    TrimEndKeepsFirst(t);
    if r != [] {
      assert r[0] == t[0] && !IsWhitespace(t[0]);
      assert !IsWhitespace(r[|r| - 1]);
    }
  }

  /** What `trimEnd()` keeps starts where its input starts. */
  lemma TrimEndKeepsFirst(t: string)
    ensures TrimEnd(t) == [] || TrimEnd(t)[0] == t[0]
  {
    var r := TrimEnd(t);
    if r != [] {
      assert r == t[..|r|];
    }
  }

  /** `trim()` returns the slice of its input that starts where the leading whitespace ends. */
  lemma {:induction false} TrimIsSlice(s: string)
    ensures TrimOffset(s) + |Trim(s)| <= |s| && Trim(s) == s[TrimOffset(s)..TrimOffset(s) + |Trim(s)|]
  {
    var t := TrimStart(s);
    var r := TrimEnd(t);
    var k := |s| - |t|;
    assert t == s[k..];
    assert r == t[..|r|];
    assert r == s[k..k + |r|];
  }

  /** `trim()` leaves no whitespace at either end and returns a contiguous slice of its input. */
  lemma TrimIsTrimmedSlice(s: string)
    ensures IsTrimmed(Trim(s))
    ensures TrimOffset(s) + |Trim(s)| <= |s| && Trim(s) == s[TrimOffset(s)..TrimOffset(s) + |Trim(s)|]
  {
    TrimIsTrimmed(s);
    TrimIsSlice(s);
  }

  /** `trimStart()` removes whitespace only. */
  lemma {:induction false} TrimStartKeepsText(s: string)
    ensures NonWhitespace(TrimStart(s)) == NonWhitespace(s)
  {
    if s != [] && IsWhitespace(s[0]) {
      TrimStartKeepsText(s[1..]);
    }
  }

  /** `trimEnd()` removes whitespace only. */
  lemma {:induction false} TrimEndKeepsText(s: string)
    ensures NonWhitespace(TrimEnd(s)) == NonWhitespace(s)
  {
    if s != [] && IsWhitespace(s[|s| - 1]) {
      var init := s[..|s| - 1];
      TrimEndKeepsText(init);
      assert s == init + [s[|s| - 1]];
      NonWhitespaceAppend(init, [s[|s| - 1]]);
    }
  }

  /** `trim()` removes whitespace only: the other characters survive, in order. */
  lemma TrimKeepsText(s: string)
    ensures NonWhitespace(Trim(s)) == NonWhitespace(s)
  {
    TrimStartKeepsText(s);
    TrimEndKeepsText(TrimStart(s));
  }

  /** `replace(/\s+/g, c)`: every maximal run of whitespace becomes the single character `c`. */
  function ReplaceWhitespaceRuns(s: string, c: char): (r: string)
    ensures forall i | 0 <= i < |r| :: IsWhitespace(r[i]) ==> r[i] == c
    ensures forall i | 0 <= i < |r| - 1 :: IsWhitespace(r[i]) ==> !IsWhitespace(r[i + 1])
    ensures r != [] && IsWhitespace(r[0]) ==> s != [] && IsWhitespace(s[0])
    ensures r != [] && IsWhitespace(r[|r| - 1]) ==> s != [] && IsWhitespace(s[|s| - 1])
    decreases |s|
  {
    if s == [] then []
    else if IsWhitespace(s[0]) then
      var rest := TrimStart(s);
      [c] + ReplaceWhitespaceRuns(rest, c)
    else [s[0]] + ReplaceWhitespaceRuns(s[1..], c)
  }

  /** Collapsing whitespace runs into a whitespace character keeps every other character, in order. */
  lemma {:induction false} ReplaceWhitespaceRunsKeepsText(s: string, c: char)
    requires IsWhitespace(c)
    ensures NonWhitespace(ReplaceWhitespaceRuns(s, c)) == NonWhitespace(s)
    decreases |s|
  {
    if s == [] {
    } else if IsWhitespace(s[0]) {
      var rest := TrimStart(s);
      var k := |s| - |rest|;
      assert s == s[..k] + rest;
      NonWhitespaceOfBlank(s[..k]);
      NonWhitespaceAppend(s[..k], rest);
      ReplaceWhitespaceRunsKeepsText(rest, c);
      NonWhitespaceAppend([c], ReplaceWhitespaceRuns(rest, c));
    } else {
      assert s == [s[0]] + s[1..];
      ReplaceWhitespaceRunsKeepsText(s[1..], c);
      NonWhitespaceAppend([s[0]], ReplaceWhitespaceRuns(s[1..], c));
    }
  }

  /** A string that is already collapsed is left alone: every whitespace character is `c` and none is followed by another. */
  lemma {:induction false} ReplaceWhitespaceRunsFixpoint(s: string, c: char)
    requires forall i | 0 <= i < |s| :: IsWhitespace(s[i]) ==> s[i] == c
    requires forall i | 0 <= i < |s| - 1 :: IsWhitespace(s[i]) ==> !IsWhitespace(s[i + 1])
    ensures ReplaceWhitespaceRuns(s, c) == s
    decreases |s|
  {
    if s == [] {
    } else if IsWhitespace(s[0]) {
      var rest := TrimStart(s);
      assert |s| > 1 ==> !IsWhitespace(s[1]);
      assert rest == s[1..];
      ReplaceWhitespaceRunsFixpoint(s[1..], c);
    } else {
      ReplaceWhitespaceRunsFixpoint(s[1..], c);
    }
  }

  /** `s` begins with a whitespace character. */
  predicate StartsWithWhitespace(s: string) {
    s != [] && IsWhitespace(s[0])
  }

  /** `s` ends with a whitespace character. */
  predicate EndsWithWhitespace(s: string) {
    s != [] && IsWhitespace(s[|s| - 1])
  }

  /** The longest prefix of `s` that holds no whitespace. */
  function LeadingWord(s: string): (w: string)
    ensures w <= s
    ensures |w| < |s| ==> IsWhitespace(s[|w|])
    decreases |s|
  {
    if s == [] || IsWhitespace(s[0]) then [] else [s[0]] + LeadingWord(s[1..])
  }

  /** The leading word holds no whitespace, and is non-empty when `s` starts with something else. */
  lemma {:induction false} LeadingWordIsWord(s: string)
    requires s != [] && !IsWhitespace(s[0])
    ensures IsWord(LeadingWord(s))
    decreases |s|
  {
    var w := LeadingWord(s);
    if |s| > 1 && !IsWhitespace(s[1]) {
      LeadingWordIsWord(s[1..]);
      var v := LeadingWord(s[1..]);
      assert w == [s[0]] + v;
      forall j | 0 <= j < |w|
        ensures !IsWhitespace(w[j])
      {
        if j > 0 {
          assert w[j] == v[j - 1];
        }
      }
    } else {
      assert LeadingWord(s[1..]) == [];
      assert w == [s[0]];
    }
  }

  /** A word: a non-empty run of characters none of which is whitespace. */
  predicate IsWord(w: string) {
    w != [] && forall j | 0 <= j < |w| :: !IsWhitespace(w[j])
  }

  /** The words of `s`: its maximal runs of non-whitespace characters, in order. */
  function Words(s: string): seq<string>
    decreases |s|
  {
    if s == [] then []
    else if IsWhitespace(s[0]) then Words(s[1..])
    else
      var w := LeadingWord(s);
      [w] + Words(s[|w|..])
  }

  /** Every word of `s` is a word: non-empty and free of whitespace. */
  lemma {:induction false} WordsAreWords(s: string)
    ensures forall i | 0 <= i < |Words(s)| :: IsWord(Words(s)[i])
    decreases |s|
  {
    if s == [] {
    } else if IsWhitespace(s[0]) {
      WordsAreWords(s[1..]);
    } else {
      var w := LeadingWord(s);
      LeadingWordIsWord(s);
      WordsAreWords(s[|w|..]);
      assert Words(s) == [w] + Words(s[|w|..]);
    }
  }

  /** Leading whitespace does not change the words. */
  lemma {:induction false} WordsOfBlankStart(s: string)
    ensures Words(s) == Words(TrimStart(s))
    decreases |s|
  {
    if s != [] && IsWhitespace(s[0]) {
      WordsOfBlankStart(s[1..]);
    }
  }

  /** Non-empty text without words ends with whitespace. */
  lemma {:induction false} NoWordsEndsBlank(s: string)
    requires s != [] && Words(s) == []
    ensures EndsWithWhitespace(s)
    decreases |s|
  {
    if |s| > 1 {
      NoWordsEndsBlank(s[1..]);
      assert s[1..][|s| - 2] == s[|s| - 1];
    }
  }

  /** Before its first whitespace, `replace(/\s+/g, c)` copies `s` unchanged. */
  lemma {:induction false} ReplaceWhitespaceRunsLeadingWord(s: string, c: char)
    ensures ReplaceWhitespaceRuns(s, c) == LeadingWord(s) + ReplaceWhitespaceRuns(s[|LeadingWord(s)|..], c)
    decreases |s|
  {
    if s != [] && !IsWhitespace(s[0]) {
      var w := LeadingWord(s[1..]);
      var after := ReplaceWhitespaceRuns(s[|w| + 1..], c);
      ReplaceWhitespaceRunsLeadingWord(s[1..], c);
      assert s[1..][|w|..] == s[|w| + 1..];
      assert ReplaceWhitespaceRuns(s, c) == [s[0]] + (w + after);
      assert LeadingWord(s) == [s[0]] + w;
      AppendAssociative([s[0]], w, after);
    } else {
      assert s[0..] == s;
    }
  }

  /** Joining words with a separator yields text that is empty exactly when there are no words, and that has no whitespace at either end. */
  lemma {:induction false} JoinWordsEnds(words: seq<string>, sep: string)
    requires forall i | 0 <= i < |words| :: IsWord(words[i])
    ensures var r := Join(words, sep);
            (r == [] <==> words == []) &&
            (r != [] ==> !IsWhitespace(r[0]) && !IsWhitespace(r[|r| - 1]))
  {
    if |words| == 1 {
      assert IsWord(words[0]);
    } else if |words| > 1 {
      assert IsWord(words[0]);
      JoinWordsEnds(words[1..], sep);
      var rest := Join(words[1..], sep);
      var r := words[0] + sep + rest;
      assert r[0] == words[0][0];
      assert r[|r| - 1] == rest[|rest| - 1];
    }
  }

  /** Joining a first word and further words puts the separator between them. */
  lemma JoinCons(w: string, words: seq<string>, sep: string)
    requires words != []
    ensures Join([w] + words, sep) == w + sep + Join(words, sep)
  {
    assert ([w] + words)[1..] == words;
  }

  /** Concatenation is associative. */
  lemma AppendAssociative<T>(a: seq<T>, b: seq<T>, c: seq<T>)
    ensures a + b + c == a + (b + c)
  {
  }

  /** Words joined by `c`, with one more `c` in front when `lead` and one more at the back when `trail`. */
  function Pad(lead: bool, words: seq<string>, trail: bool, c: char): string {
    (if lead then [c] else []) + Join(words, [c]) + (if trail then [c] else [])
  }

  /**
   * The words of `s` joined by `c`, with one more `c` in front when `s` starts with whitespace and
   * one more at the back when it ends with whitespace after a word: what `replace(/\s+/g, c)` yields.
   */
  function Padded(s: string, c: char): string {
    Pad(StartsWithWhitespace(s), Words(s), EndsWithWhitespace(s) && Words(s) != [], c)
  }

  /** A leading `c` can be taken off the front. */
  lemma PadLead(words: seq<string>, trail: bool, c: char)
    ensures Pad(true, words, trail, c) == [c] + Pad(false, words, trail, c)
  {
    var j := Join(words, [c]);
    var t: string := if trail then [c] else [];
    assert [] + j + t == j + t;
    assert [c] + j + t == [c] + (j + t);
  }

  /** Taking off the first word leaves its separator in front of the rest. */
  lemma PadCons(w: string, words: seq<string>, trail: bool, c: char)
    requires words != []
    ensures Pad(false, [w] + words, trail, c) == w + Pad(true, words, trail, c)
  {
    var j := Join(words, [c]);
    var t: string := if trail then [c] else [];
    JoinCons(w, words, [c]);
    assert [] + (w + [c] + j) + t == w + ([c] + j + t);
  }

  /** One word, then at most one `c`. */
  lemma PadSingle(w: string, trail: bool, c: char)
    ensures Pad(false, [w], trail, c) == w + Pad(trail, [], false, c)
  {
    var t: string := if trail then [c] else [];
    assert [] + w + t == w + (t + [] + []);
  }

  /** The case of `ReplaceWhitespaceRunsWords` where `s` starts with whitespace. */
  lemma BlankStartPadded(s: string, c: char)
    requires StartsWithWhitespace(s)
    requires ReplaceWhitespaceRuns(TrimStart(s), c) == Padded(TrimStart(s), c)
    ensures ReplaceWhitespaceRuns(s, c) == Padded(s, c)
  {
    var t := TrimStart(s);
    WordsOfBlankStart(s);
    assert ReplaceWhitespaceRuns(s, c) == [c] + ReplaceWhitespaceRuns(t, c);
    var trail := EndsWithWhitespace(s) && Words(s) != [];
    assert (EndsWithWhitespace(t) && Words(t) != []) == trail by {
      if t != [] {
        SuffixEnds(s, |s| - |t|);
      }
    }
    assert !StartsWithWhitespace(t);
    assert Padded(t, c) == Pad(false, Words(t), trail, c);
    assert Padded(s, c) == Pad(true, Words(t), trail, c);
    PadLead(Words(t), trail, c);
  }

  /** The case of `ReplaceWhitespaceRunsWords` where `s` is one word and nothing else. */
  lemma SingleWordPadded(s: string, c: char)
    requires s != [] && !IsWhitespace(s[0]) && LeadingWord(s) == s
    ensures ReplaceWhitespaceRuns(s, c) == Padded(s, c)
  {
    ReplaceWhitespaceRunsLeadingWord(s, c);
    assert s[|s|..] == [];
    assert Words(s) == [s] + Words([]);
    assert !EndsWithWhitespace(s) by {
      assert s[|s| - 1] == LeadingWord(s)[|s| - 1];
    }
    assert Padded(s, c) == Pad(false, [s], false, c);
    PadSingle(s, false, c);
    assert ReplaceWhitespaceRuns(s, c) == s + [];
  }

  /** A non-empty suffix of `s` ends where `s` ends. */
  lemma SuffixEnds(s: string, k: nat)
    requires k < |s|
    ensures EndsWithWhitespace(s[k..]) == EndsWithWhitespace(s)
  {
    assert s[k..][|s| - k - 1] == s[|s| - 1];
  }

  /** What follows the leading word of `s` starts with whitespace, ends where `s` ends and holds the rest of its words. */
  lemma WordStartFacts(s: string, w: string, rest: string)
    requires s != [] && !IsWhitespace(s[0]) && w == LeadingWord(s) && |w| < |s| && rest == s[|w|..]
    ensures Words(s) == [w] + Words(rest)
    ensures !StartsWithWhitespace(s) && StartsWithWhitespace(rest)
    ensures EndsWithWhitespace(rest) == EndsWithWhitespace(s)
  {
    SuffixEnds(s, |w|);
  }

  /** The case of `ReplaceWhitespaceRunsWords` where a word of `s` is followed by whitespace only. */
  lemma WordThenBlankPadded(s: string, c: char, w: string, rest: string)
    requires s != [] && !IsWhitespace(s[0]) && w == LeadingWord(s) && |w| < |s| && rest == s[|w|..]
    requires Words(rest) == []
    requires ReplaceWhitespaceRuns(s, c) == w + Padded(rest, c)
    ensures ReplaceWhitespaceRuns(s, c) == Padded(s, c)
  {
    WordStartFacts(s, w, rest);
    NoWordsEndsBlank(rest);
    assert Padded(s, c) == Pad(false, [w], true, c);
    assert Padded(rest, c) == Pad(true, [], false, c);
    PadSingle(w, true, c);
  }

  /** The case of `ReplaceWhitespaceRunsWords` where a word of `s` is followed by whitespace and more words. */
  lemma WordThenWordsPadded(s: string, c: char, w: string, rest: string)
    requires s != [] && !IsWhitespace(s[0]) && w == LeadingWord(s) && |w| < |s| && rest == s[|w|..]
    requires Words(rest) != []
    requires ReplaceWhitespaceRuns(s, c) == w + Padded(rest, c)
    ensures ReplaceWhitespaceRuns(s, c) == Padded(s, c)
  {
    WordStartFacts(s, w, rest);
    var trail := EndsWithWhitespace(s);
    assert Padded(s, c) == Pad(false, [w] + Words(rest), trail, c);
    assert Padded(rest, c) == Pad(true, Words(rest), trail, c);
    PadCons(w, Words(rest), trail, c);
  }

  /** The case of `ReplaceWhitespaceRunsWords` where a word of `s` is followed by more text. */
  lemma WordThenMorePadded(s: string, c: char)
    requires s != [] && !IsWhitespace(s[0]) && |LeadingWord(s)| < |s|
    requires var rest := s[|LeadingWord(s)|..]; ReplaceWhitespaceRuns(rest, c) == Padded(rest, c)
    ensures ReplaceWhitespaceRuns(s, c) == Padded(s, c)
  {
    var w := LeadingWord(s);
    var rest := s[|w|..];
    ReplaceWhitespaceRunsLeadingWord(s, c);
    if Words(rest) == [] {
      WordThenBlankPadded(s, c, w, rest);
    } else {
      WordThenWordsPadded(s, c, w, rest);
    }
  }

  /**
   * `replace(/\s+/g, c)` is the words of `s` joined by `c`, with one more `c` in front when `s`
   * starts with whitespace and one more at the back when it ends with whitespace after a word.
   */
  lemma {:induction false} ReplaceWhitespaceRunsWords(s: string, c: char)
    ensures ReplaceWhitespaceRuns(s, c) == Padded(s, c)
    ensures ReplaceWhitespaceRuns(s, c) ==
            (if StartsWithWhitespace(s) then [c] else []) + Join(Words(s), [c]) +
            (if EndsWithWhitespace(s) && Words(s) != [] then [c] else [])
    decreases |s|
  {
    if s == [] {
      assert Words(s) == [];
    } else if IsWhitespace(s[0]) {
      ReplaceWhitespaceRunsWords(TrimStart(s), c);
      BlankStartPadded(s, c);
    } else if |LeadingWord(s)| == |s| {
      assert LeadingWord(s) == s;
      SingleWordPadded(s, c);
    } else {
      ReplaceWhitespaceRunsWords(s[|LeadingWord(s)|..], c);
      WordThenMorePadded(s, c);
    }
  }

  /** Trimming the start of one space before text that starts with no whitespace gives that text. */
  lemma TrimStartOfPadded(x: string, lead: bool)
    requires x == [] || !IsWhitespace(x[0])
    ensures TrimStart((if lead then " " else "") + x) == x
  {
    assert TrimStart(x) == x;
    if lead {
      var y := [' '] + x;
      assert y[0] == ' ' && IsWhitespace(y[0]);
      assert y[1..] == x;
      assert TrimStart(y) == TrimStart(y[1..]);
    } else {
      assert "" + x == x;
    }
  }

  /** Trimming the end of text with no trailing whitespace, followed by one space, gives that text. */
  lemma TrimEndOfPadded(j: string, trail: bool)
    requires j == [] || !IsWhitespace(j[|j| - 1])
    ensures TrimEnd(j + (if trail then " " else "")) == j
  {
    if trail {
      assert (j + " ")[..|j|] == j;
    } else {
      assert j + "" == j;
    }
  }

  /** Trimming words joined without outer whitespace, padded by at most one space at each end, gives the joined words back. */
  lemma TrimOfPadded(j: string, lead: bool, trail: bool)
    requires j == [] || (!IsWhitespace(j[0]) && !IsWhitespace(j[|j| - 1]))
    requires j == [] ==> !trail
    ensures Trim((if lead then " " else "") + j + (if trail then " " else "")) == j
  {
    var x := j + (if trail then " " else "");
    assert (if lead then " " else "") + j + (if trail then " " else "") == (if lead then " " else "") + x;
    assert x == [] || x[0] == j[0];
    TrimStartOfPadded(x, lead);
    TrimEndOfPadded(j, trail);
  }

  /** `s.replace(/\s+/g, ' ').trim()` is the words of `s` joined by single spaces. */
  lemma CollapseTrimIsJoinedWords(s: string)
    ensures Trim(ReplaceWhitespaceRuns(s, ' ')) == Join(Words(s), " ")
  {
    var j := Join(Words(s), " ");
    ReplaceWhitespaceRunsWords(s, ' ');
    WordsAreWords(s);
    JoinWordsEnds(Words(s), " ");
    TrimOfPadded(j, StartsWithWhitespace(s), EndsWithWhitespace(s) && Words(s) != []);
  }

  /** Lowercases the ASCII letters only. */
  function ToLowerAscii(s: string): (r: string)
    ensures |r| == |s|
    ensures forall i | 0 <= i < |r| :: !('A' <= r[i] <= 'Z')
    ensures forall i | 0 <= i < |r| :: r[i] == s[i] || ('A' <= s[i] <= 'Z' && r[i] as int == s[i] as int + 32)
  {
    seq(|s|, i requires 0 <= i < |s| => if 'A' <= s[i] <= 'Z' then (s[i] as int + 32) as char else s[i])
  }

  /** `s.includes(sub)`. */
  predicate Contains(s: string, sub: string)
    decreases |s|
  {
    sub <= s || (s != [] && Contains(s[1..], sub))
  }

  /** `sub` occurs in `s` starting at position `k`. */
  predicate OccursAt(s: string, sub: string, k: nat) {
    k + |sub| <= |s| && s[k..k + |sub|] == sub
  }

  /** `includes` holds exactly when `sub` occurs at some position of `s`. */
  lemma {:induction false} ContainsIff(s: string, sub: string)
    ensures Contains(s, sub) <==> exists k: nat :: OccursAt(s, sub, k)
    decreases |s|
  {
    if s != [] {
      ContainsIff(s[1..], sub);
      if sub <= s {
        assert OccursAt(s, sub, 0);
      } else if Contains(s[1..], sub) {
        var k: nat :| OccursAt(s[1..], sub, k);
        assert s[1..][k..k + |sub|] == s[k + 1..k + 1 + |sub|];
        assert OccursAt(s, sub, k + 1);
      }
      if exists k: nat :: OccursAt(s, sub, k) {
        var k: nat :| OccursAt(s, sub, k);
        if k > 0 {
          assert s[1..][k - 1..k - 1 + |sub|] == s[k..k + |sub|];
          assert OccursAt(s[1..], sub, k - 1);
        }
      }
    } else {
      if exists k: nat :: OccursAt(s, sub, k) {
        assert sub == [];
      }
      if sub == [] {
        assert OccursAt(s, sub, 0);
      }
    }
  }

  /** A string in which the first two characters of `sub` never stand side by side does not contain `sub`. */
  lemma {:induction false} NotContainsWithoutOpeningPair(s: string, sub: string)
    requires |sub| >= 2
    requires forall k | 0 <= k < |s| - 1 :: s[k] != sub[0] || s[k + 1] != sub[1]
    ensures !Contains(s, sub)
    decreases |s|
  {
    if s != [] {
      assert |s| >= 2 ==> s[0] != sub[0] || s[1] != sub[1];
      assert !(sub <= s);
      forall k | 0 <= k < |s[1..]| - 1
        ensures s[1..][k] != sub[0] || s[1..][k + 1] != sub[1]
      {
        assert s[1..][k] == s[k + 1] && s[1..][k + 1] == s[k + 2];
      }
      NotContainsWithoutOpeningPair(s[1..], sub);
    }
  }

  /** `parts.join(sep)`. */
  function Join(parts: seq<string>, sep: string): string {
    if |parts| == 0 then ""
    else if |parts| == 1 then parts[0]
    else parts[0] + sep + Join(parts[1..], sep)
  }

  /** `s.substring(0, n)` for a non-negative `n`. */
  function Prefix(s: string, n: nat): (r: string)
    ensures r <= s && |r| == if |s| <= n then |s| else n
  {
    if |s| <= n then s else s[..n]
  }

  /** The value of a decimal digit. */
  function DigitValue(d: char): nat {
    if '0' <= d <= '9' then d as nat - '0' as nat else 0
  }

  /** The number a string of decimal digits denotes, most significant digit first. */
  function DecimalValue(s: string): nat
    decreases |s|
  {
    if s == [] then 0 else DecimalValue(s[..|s| - 1]) * 10 + DigitValue(s[|s| - 1])
  }

  /** The decimal rendering of a natural number, as a template literal prints it: its digits, without leading zeros. */
  function NatToString(n: nat): (r: string)
    ensures r != [] && forall i | 0 <= i < |r| :: '0' <= r[i] <= '9'
    ensures DecimalValue(r) == n
    ensures r[0] == '0' <==> n == 0
    ensures n == 0 ==> |r| == 1
  {
    var d := [(48 + n % 10) as char];
    if n < 10 then d
    else
      var r := NatToString(n / 10) + d;
      assert r[..|r| - 1] == NatToString(n / 10);
      r
  }
}
