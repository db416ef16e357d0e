/** The tokeniser emulation registered as SQL functions for debugging
    (`server/sqlite_debug.py`): `tokenise` lower-cases a value, turns every
    ASCII character other than a letter or digit into a space, puts a space
    in front of every character outside ASCII, and joins the words with
    single spaces; `tokenise_and_extract_suffixes` lists the proper suffixes
    of every word. Values that are not strings pass through unchanged. */
module DebugTokeniser {
  import opened Strings
  import Tokenisers

  /** An SQLite value: a string, or any other value, which is not looked at. */
  datatype Value = Text(s: string) | Other(id: int)

  /** `replace_non_alphanumeric_chars` on one character, with letters and
      digits, which the pattern does not match, kept. */
  function ReplaceChar(c: char): (r: string)
  {
    if IsAsciiAlnum(c) then [c] else if IsAscii(c) then " " else [' ', c]
  }

  /** `re.sub(r"[^a-zA-Z0-9]", replace_non_alphanumeric_chars, value)` */
  function Replace(s: string): string
  {
    if s == [] then [] else ReplaceChar(s[0]) + Replace(s[1..])
  }

  /** The text part of `tokenise`. */
  function TokeniseText(s: string): string
  {
    Join(" ", Words(Replace(LowerStr(s))))
  }

  /** `tokenise(value)` */
  function Tokenise(v: Value): (r: Value)
    ensures v.Other? ==> r == v
  {
    match v
    case Text(s) => Text(TokeniseText(s))
    case Other(_) => v
  }

  // ---------------------------------------------------------------------------
  // The shape of the output
  // ---------------------------------------------------------------------------

  /** A character the replacement can leave: not an upper-case letter and,
      in ASCII, a letter, a digit or the space. */
  predicate OutChar(c: char)
  {
    !IsUpperAscii(c) && (IsAscii(c) ==> IsAsciiAlnum(c) || c == ' ')
  }

  predicate AllOut(t: string)
  {
    forall k :: 0 <= k < |t| ==> OutChar(t[k])
  }

  /** What the replacement leaves: output characters only, with a space
      before every character outside ASCII except at the very front. */
  predicate Clean(t: string)
  {
    AllOut(t) && forall k :: 0 < k < |t| && !IsAscii(t[k]) ==> t[k - 1] == ' '
  }

  /** A word of the output: output characters, of which only the first may
      lie outside ASCII. */
  predicate CleanWord(w: string)
  {
    IsWord(w) && AllOut(w) && AllAlnum(w[1..])
  }

  predicate CleanWords(ws: seq<string>)
  {
    forall k :: 0 <= k < |ws| ==> CleanWord(ws[k])
  }

  /** The replacement of lower-case text is clean and starts, if at all,
      with an ASCII character. */
  lemma {:induction false} ReplaceClean(s: string)
    requires IsLowerCase(s)
    ensures Clean(Replace(s)) && (Replace(s) == [] || IsAscii(Replace(s)[0]))
    decreases |s|
  {
    if s != [] {
      assert IsLowerCase(s[1..]) by {
        assert forall k :: 0 <= k < |s| - 1 ==> s[1..][k] == s[k + 1];
      }
      ReplaceClean(s[1..]);
      assert !IsUpperAscii(s[0]);
      ConcatClean(ReplaceChar(s[0]), Replace(s[1..]));
    }
  }

  lemma ConcatClean(a: string, b: string)
    requires Clean(a) && Clean(b) && (b == [] || IsAscii(b[0]))
    requires a == [] || IsAscii(a[0])
    ensures Clean(a + b) && (a + b == [] || IsAscii((a + b)[0]))
  {
    ConcatAllOut(a, b);
    ConcatSpaced(a, b);
    assert a + b == [] || (a + b)[0] == (if a == [] then b[0] else a[0]);
  }

  lemma ConcatAllOut(a: string, b: string)
    requires AllOut(a) && AllOut(b)
    ensures AllOut(a + b)
  {
    var t := a + b;
    forall k | 0 <= k < |t| ensures OutChar(t[k]) {
      if k >= |a| {
        assert t[k] == b[k - |a|];
      } else {
        assert t[k] == a[k];
      }
    }
  }

  lemma ConcatSpaced(a: string, b: string)
    requires forall k :: 0 < k < |a| && !IsAscii(a[k]) ==> a[k - 1] == ' '
    requires forall k :: 0 < k < |b| && !IsAscii(b[k]) ==> b[k - 1] == ' '
    requires b == [] || IsAscii(b[0])
    ensures var t := a + b; forall k :: 0 < k < |t| && !IsAscii(t[k]) ==> t[k - 1] == ' '
  {
    var t := a + b;
    forall k | 0 < k < |t| && !IsAscii(t[k]) ensures t[k - 1] == ' ' {
      if k > |a| {
        assert t[k] == b[k - |a|] && t[k - 1] == b[k - 1 - |a|];
      } else if k < |a| {
        assert t[k] == a[k] && t[k - 1] == a[k - 1];
      }
    }
  }

  /** A suffix of clean text is clean. */
  lemma CleanDrop(t: string, i: nat)
    requires Clean(t) && i <= |t|
    ensures Clean(t[i..])
  {
    var u := t[i..];
    forall k | 0 <= k < |u| ensures OutChar(u[k]) {
      assert u[k] == t[i + k];
    }
    forall k | 0 < k < |u| && !IsAscii(u[k]) ensures u[k - 1] == ' ' {
      assert u[k] == t[i + k] && u[k - 1] == t[i + k - 1];
    }
  }

  /** The first word of clean text that starts with a word character is a
      clean word: a character outside ASCII inside it would need a space in
      front of it. */
  lemma FirstWordClean(l: string)
    requires Clean(l) && l != [] && !IsSpace(l[0])
    ensures CleanWord(l[..WordEnd(l, 0)])
  {
    var n := WordEnd(l, 0);
    var w := l[..n];
    WordEndSpec(l, 0);
    forall k | 0 <= k < |w| ensures OutChar(w[k]) {
      assert w[k] == l[k];
    }
    forall k | 0 <= k < |w| - 1 ensures IsAsciiAlnum(w[1..][k]) {
      assert w[1..][k] == l[k + 1] && l[k] == w[k];
      assert !IsSpace(l[k]) && !IsSpace(l[k + 1]);
    }
  }

  /** The words of clean text are clean words. */
  lemma {:induction false} WordsClean(t: string)
    requires Clean(t)
    ensures CleanWords(Words(t))
    decreases |t|
  {
    var l := LStrip(t);
    LStripSpec(t);
    if l != [] {
      CleanDrop(t, |t| - |l|);
      var n := WordEnd(l, 0);
      FirstWordClean(l);
      CleanDrop(l, n);
      WordsClean(l[n..]);
      WordsCons(t);
      CleanWordsCons(l[..n], Words(l[n..]));
    }
  }

  /** One step of `split()`. */
  lemma WordsCons(t: string)
    requires LStrip(t) != []
    ensures var l := LStrip(t); var n := WordEnd(l, 0);
      Words(t) == [l[..n]] + Words(l[n..])
  {
  }

  lemma CleanWordsCons(w: string, ws: seq<string>)
    requires CleanWord(w) && CleanWords(ws)
    ensures CleanWords([w] + ws)
  {
    forall k | 0 <= k < |[w] + ws| ensures CleanWord(([w] + ws)[k]) {
      if k > 0 {
        assert ([w] + ws)[k] == ws[k - 1];
      }
    }
  }

  /** The words that `tokenise` joins. */
  lemma TokenWords(s: string)
    ensures CleanWords(Words(Replace(LowerStr(s))))
  {
    LowerStrIdempotent(s);
    ReplaceClean(LowerStr(s));
    WordsClean(Replace(LowerStr(s)));
  }

  /** Every character of `" ".join(words)` is a space or a character of one
      of the words. */
  lemma {:induction false} JoinChars(ws: seq<string>)
    requires CleanWords(ws)
    ensures AllOut(Join(" ", ws))
    decreases |ws|
  {
    if |ws| > 1 {
      JoinChars(ws[1..]);
      var w, rest := ws[0], Join(" ", ws[1..]);
      var r := Join(" ", ws);
      assert r == w + " " + rest;
      assert CleanWord(w);
      forall k | 0 <= k < |r| ensures OutChar(r[k]) {
        if k > |w| {
          assert r[k] == rest[k - |w| - 1];
        } else if k < |w| {
          assert r[k] == w[k];
        } else {
          assert r[k] == ' ';
        }
      }
    } else if |ws| == 1 {
      assert CleanWord(ws[0]);
    }
  }

  lemma CleanWordsAreWords(ws: seq<string>)
    requires CleanWords(ws)
    ensures AllWords(ws)
  {
    forall k | 0 <= k < |ws| ensures IsWord(ws[k]) {
      assert CleanWord(ws[k]);
    }
  }

  /** `tokenise` leaves no upper-case letter and no ASCII character but
      letters, digits and the space. */
  lemma TokeniseChars(s: string)
    ensures AllOut(TokeniseText(s))
  {
    TokenWords(s);
    JoinChars(Words(Replace(LowerStr(s))));
  }

  /** In the output of `tokenise` every whitespace character is one space
      between two words. */
  lemma TokeniseSpacing(s: string)
    ensures SingleSpaced(TokeniseText(s))
  {
    TokenWords(s);
    CleanWordsAreWords(Words(Replace(LowerStr(s))));
    JoinSpacing(Words(Replace(LowerStr(s))));
  }

  /** Splitting the output of `tokenise` gives back the words it joined. */
  lemma TokeniseWords(s: string)
    ensures Words(TokeniseText(s)) == Words(Replace(LowerStr(s)))
  {
    TokenWords(s);
    CleanWordsAreWords(Words(Replace(LowerStr(s))));
    WordsJoin(Words(Replace(LowerStr(s))));
  }

  // ---------------------------------------------------------------------------
  // Idempotence
  // ---------------------------------------------------------------------------

  /** The replacement maps concatenations piecewise. */
  lemma {:induction false} ReplaceConcat(a: string, b: string)
    ensures Replace(a + b) == Replace(a) + Replace(b)
    decreases |a|
  {
    if a != [] {
      ReplaceConcat(a[1..], b);
      assert (a + b)[1..] == a[1..] + b;
      Associative(ReplaceChar(a[0]), Replace(a[1..]), Replace(b));
    } else {
      assert a + b == b;
    }
  }

  lemma {:induction false} ReplaceAlnum(s: string)
    requires AllAlnum(s)
    ensures Replace(s) == s
    decreases |s|
  {
    if s != [] {
      assert AllAlnum(s[1..]) by {
        assert forall k :: 0 <= k < |s| - 1 ==> s[1..][k] == s[k + 1];
      }
      ReplaceAlnum(s[1..]);
      assert s == [s[0]] + s[1..];
    }
  }

  /** A clean word comes back from the replacement as it is, with a space
      in front when it starts outside ASCII. */
  lemma ReplaceCleanWord(w: string)
    requires CleanWord(w)
    ensures Replace(w) == (if IsAscii(w[0]) then [] else [' ']) + w
  {
    var c, rest := w[0], w[1..];
    assert w == [c] + rest;
    ReplaceCons(c, rest);
    ReplaceAlnum(rest);
    assert OutChar(c) && !IsSpace(c);
    if IsAscii(c) {
      assert ReplaceChar(c) == [c];
      EmptyLeft(w);
    } else {
      assert ReplaceChar(c) == [' '] + [c];
      Associative([' '], [c], rest);
    }
  }

  lemma ReplaceCons(c: char, rest: string)
    ensures Replace([c] + rest) == ReplaceChar(c) + Replace(rest)
  {
    assert ([c] + rest)[1..] == rest;
  }

  /** A replaced clean word in front of whitespace or nothing splits off
      as the word itself. */
  lemma FrontWord(w: string, tail: string)
    requires CleanWord(w) && (tail == [] || IsSpace(tail[0]))
    ensures Words(Replace(w) + tail) == [w] + Words(tail)
  {
    var r := Replace(w);
    assert IsWord(w) && (r == w || r == [' '] + w) by {
      ReplaceCleanWord(w);
      if IsAscii(w[0]) {
        EmptyLeft(w);
      }
    }
    if r == w {
      assert Words(r + tail) == [w] + Words(tail) by {
        WordsFront(w, tail);
      }
    } else {
      assert Words(r + tail) == [w] + Words(tail) by {
        WordsFront(w, tail);
        SpacedFront(w, tail);
      }
    }
  }

  lemma SpacedFront(w: string, tail: string)
    requires Words(w + tail) == [w] + Words(tail)
    ensures Words([' '] + w + tail) == [w] + Words(tail)
  {
    Associative([' '], w, tail);
    WordsAfterSpace(' ', w + tail);
  }

  /** The words of the replaced `" ".join(words)` are the words again. */
  lemma {:induction false} WordsOfReplacedJoin(ws: seq<string>)
    requires CleanWords(ws)
    ensures Words(Replace(Join(" ", ws))) == ws
    decreases |ws|
  {
    if |ws| == 1 {
      assert CleanWord(ws[0]);
      FrontWord(ws[0], []);
      assert Replace(ws[0]) + [] == Replace(ws[0]);
    } else if |ws| > 1 {
      assert CleanWord(ws[0]);
      assert CleanWords(ws[1..]) by {
        assert forall k :: 0 <= k < |ws| - 1 ==> ws[1..][k] == ws[k + 1];
      }
      WordsOfReplacedJoin(ws[1..]);
      ReplacedJoinStep(ws);
    }
  }

  lemma ReplacedJoinStep(ws: seq<string>)
    requires |ws| > 1 && CleanWord(ws[0])
    requires Words(Replace(Join(" ", ws[1..]))) == ws[1..]
    ensures Words(Replace(Join(" ", ws))) == ws
  {
    var w, rest := ws[0], Join(" ", ws[1..]);
    var sp := [' '];
    var t := Replace(w) + (sp + Replace(rest));
    assert Replace(Join(" ", ws)) == t by {
      assert Join(" ", ws) == w + (sp + rest) by {
        Associative(w, sp, rest);
      }
      ReplaceConcat(w, sp + rest);
      ReplaceConcat(sp, rest);
      ReplaceCons(' ', []);
    }
    assert Words(t) == [w] + ws[1..] by {
      FrontWord(w, sp + Replace(rest));
      WordsAfterSpace(' ', Replace(rest));
    }
    assert ws == [w] + ws[1..];
  }

  /** Tokenising twice gives what tokenising once gives. */
  lemma TokeniseIdempotent(s: string)
    ensures TokeniseText(TokeniseText(s)) == TokeniseText(s)
  {
    var ws := Words(Replace(LowerStr(s)));
    var r := TokeniseText(s);
    TokenWords(s);
    JoinChars(ws);
    assert IsLowerCase(r) by {
      forall k | 0 <= k < |r| ensures !IsUpperAscii(r[k]) {
        assert OutChar(r[k]);
      }
    }
    LowerStrOfLower(r);
    WordsOfReplacedJoin(ws);
  }

  /** `tokenise` on any value is idempotent. */
  lemma TokeniseValueIdempotent(v: Value)
    ensures Tokenise(Tokenise(v)) == Tokenise(v)
  {
    if v.Text? {
      TokeniseIdempotent(v.s);
    }
  }

  /** Unlike the tokeniser of the full-text index, which makes a character
      outside ASCII a token of its own, this emulation keeps it attached to
      the letters and digits that follow it. */
  lemma NonAsciiStaysAttached(c: char, w: string)
    requires !IsAscii(c) && !IsSpace(c)
    requires |w| > 0 && AllAlnum(w) && IsLowerCase(w)
    ensures TokeniseText([c] + w) == [c] + w
    ensures |Tokenisers.TokensFrom([c] + w, 0)| == 2
  {
    var t := [c] + w;
    NonAsciiWord(c, w);
    LowerStrOfLower(t);
    FrontWord(t, []);
    assert Replace(t) + [] == Replace(t);
    assert Words(Replace(t)) == [t];
    NonAsciiTokens(c, w);
  }

  lemma NonAsciiWord(c: char, w: string)
    requires !IsAscii(c) && !IsSpace(c)
    requires |w| > 0 && AllAlnum(w) && IsLowerCase(w)
    ensures CleanWord([c] + w) && IsLowerCase([c] + w)
  {
    var t := [c] + w;
    assert t[1..] == w;
    forall k | 0 <= k < |t| ensures OutChar(t[k]) && !IsSpace(t[k]) && !IsUpperAscii(t[k]) {
      if k > 0 {
        assert t[k] == w[k - 1];
      }
    }
  }

  lemma NonAsciiTokens(c: char, w: string)
    requires !IsAscii(c)
    requires |w| > 0 && AllAlnum(w)
    ensures |Tokenisers.TokensFrom([c] + w, 0)| == 2
  {
    var t := [c] + w;
    assert t[1..] == w;
    Tokenisers.AlnumEndShift(t, 1, w);
    AlnumRunAll(w);
    var e := AlnumEnd(t, 1);
    assert e == |t|;
    assert Tokenisers.TokensFrom(t, 0) == [Tokenisers.YieldToken(t, 0, 1)] + Tokenisers.TokensFrom(t, 1);
    assert Tokenisers.TokensFrom(t, 1) == [Tokenisers.YieldToken(t, 1, e)] + Tokenisers.TokensFrom(t, e);
  }

  lemma AlnumRunAll(w: string)
    requires AllAlnum(w)
    ensures AlnumEnd(w, 0) == |w|
  {
    Tokenisers.AlnumRun(w, []);
    assert w + [] == w;
  }

  // ---------------------------------------------------------------------------
  // Suffixes
  // ---------------------------------------------------------------------------

  /** `word[start_pos:]` for `start_pos` from 1 up to the word's length. */
  function WordSuffixes(w: string): (r: seq<string>)
    ensures |r| == if |w| <= 1 then 0 else |w| - 1
    ensures forall k :: 0 <= k < |r| ==> r[k] == w[k + 1..]
  {
    if |w| <= 1 then [] else seq(|w| - 1, k requires 0 <= k < |w| - 1 => w[k + 1..])
  }

  /** The suffixes of every word, in order. */
  function AllWordSuffixes(ws: seq<string>): seq<string>
  {
    if ws == [] then [] else AllWordSuffixes(ws[..|ws| - 1]) + WordSuffixes(ws[|ws| - 1])
  }

  /** `tokenise_and_extract_suffixes(value)` */
  function ExtractSuffixes(v: Value): (r: Value)
    ensures v.Other? ==> r == v
  {
    match v
    case Text(s) => Text(Join(" ", AllWordSuffixes(Words(TokeniseText(s)))))
    case Other(_) => v
  }

  /** `tokenise_and_extract_suffixes`: the loop over the words. */
  method TokeniseAndExtractSuffixes(v: Value) returns (r: Value)
    ensures r == ExtractSuffixes(v)
  {
    if v.Other? {
      return v;
    }
    var value := TokeniseText(v.s);
    var words := Words(value);
    var suffixes := SuffixesOfWords(words);
    r := Text(Join(" ", suffixes));
  }

  method SuffixesOfWords(words: seq<string>) returns (suffixes: seq<string>)
    ensures suffixes == AllWordSuffixes(words)
  {
    suffixes := [];
    for i := 0 to |words|
      invariant suffixes == AllWordSuffixes(words[..i])
    {
      assert words[..i + 1][..i] == words[..i];
      var word := words[i];
      var endPos := |word|;
      if endPos == 1 {
        continue;
      }
      suffixes := AppendWordSuffixes(suffixes, word);
    }
    assert words[..|words|] == words;
  }

  /** The loop over the start positions of one word. */
  method AppendWordSuffixes(before: seq<string>, word: string) returns (suffixes: seq<string>)
    ensures suffixes == before + WordSuffixes(word)
  {
    suffixes := before;
    var endPos := |word|;
    if endPos == 0 {
      return;
    }
    for startPos := 1 to endPos
      invariant suffixes == before + WordSuffixes(word)[..startPos - 1]
    {
      assert word[startPos..endPos] == word[startPos..] == WordSuffixes(word)[startPos - 1];
      assert WordSuffixes(word)[..startPos] == WordSuffixes(word)[..startPos - 1] + [word[startPos..endPos]];
      suffixes := suffixes + [word[startPos..endPos]];
    }
    assert WordSuffixes(word)[..endPos - 1] == WordSuffixes(word);
  }

  /** A word of n characters gives n - 1 suffixes. */
  function SuffixTotal(ws: seq<string>): int
  {
    if ws == [] then 0 else SuffixTotal(ws[..|ws| - 1]) + |ws[|ws| - 1]| - 1
  }

  lemma {:induction false} AllWordSuffixesCount(ws: seq<string>)
    requires AllWords(ws)
    ensures |AllWordSuffixes(ws)| == SuffixTotal(ws)
  {
    if ws != [] {
      assert AllWords(ws[..|ws| - 1]) by {
        assert forall k :: 0 <= k < |ws| - 1 ==> ws[..|ws| - 1][k] == ws[k];
      }
      AllWordSuffixesCount(ws[..|ws| - 1]);
      assert IsWord(ws[|ws| - 1]);
    }
  }

  /** The suffixes come from the words of the replaced text; a word of n
      characters contributes n - 1 of them. */
  lemma ExtractSuffixesCount(s: string)
    ensures |AllWordSuffixes(Words(TokeniseText(s)))| == SuffixTotal(Words(Replace(LowerStr(s))))
  {
    TokeniseWords(s);
    WordsAreWords(Replace(LowerStr(s)));
    AllWordSuffixesCount(Words(TokeniseText(s)));
  }

  /** Every suffix listed is a non-empty proper suffix of a word of the
      tokenised text. */
  lemma {:induction false} AllWordSuffixesProper(ws: seq<string>)
    requires AllWords(ws)
    ensures forall x :: x in AllWordSuffixes(ws) ==>
      exists k, j :: 0 <= k < |ws| && 1 <= j < |ws[k]| && x == ws[k][j..]
  {
    if ws != [] {
      var init := ws[..|ws| - 1];
      assert AllWords(init) by {
        assert forall k :: 0 <= k < |ws| - 1 ==> init[k] == ws[k];
      }
      AllWordSuffixesProper(init);
      var last := ws[|ws| - 1];
      forall x | x in AllWordSuffixes(ws)
        ensures exists k, j :: 0 <= k < |ws| && 1 <= j < |ws[k]| && x == ws[k][j..]
      {
        if x in AllWordSuffixes(init) {
          var k, j :| 0 <= k < |init| && 1 <= j < |init[k]| && x == init[k][j..];
          assert ws[k] == init[k];
        } else {
          assert x in WordSuffixes(last);
          var i :| 0 <= i < |WordSuffixes(last)| && WordSuffixes(last)[i] == x;
          assert x == ws[|ws| - 1][i + 1..];
        }
      }
    }
  }
}
