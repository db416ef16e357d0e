/** The full-text tokeniser and the suffix tokeniser registered with SQLite
    (`oce/providers/sqlite/tokenisers.py`).

    The tokeniser folds the text to lower case, then splits it into maximal
    runs of ASCII letters and digits, with every character outside ASCII a
    token of its own; the other ASCII characters only separate tokens. The
    suffix tokeniser feeds the suffix table: each token of two or more
    characters gives all of its proper suffixes, unless it is in search mode,
    where it gives the plain tokens. A token is its text with its start and
    end position in the (lower-cased) text. */
module Tokenisers {
  import opened Strings

  datatype Token = Token(text: string, start: nat, end: nat)

  /** `yield_token(text, start, end)` */
  function YieldToken(text: string, start: nat, end: nat): (t: Token)
    requires start <= end <= |text|
    ensures t.start == start && t.end == end && |t.text| == end - start
  {
    Token(text[start..end], start, end)
  }

  // ---------------------------------------------------------------------------
  // The tokeniser
  // ---------------------------------------------------------------------------

  /** The tokens of `text` from position `i` on, read one token at a time:
      a run of ASCII letters and digits, a skipped ASCII separator, or one
      character outside ASCII. */
  function TokensFrom(text: string, i: nat): seq<Token>
    requires i <= |text|
    decreases |text| - i
  {
    if i == |text| then []
    else if IsAsciiAlnum(text[i]) then
      var e := AlnumEnd(text, i);
      [YieldToken(text, i, e)] + TokensFrom(text, e)
    else if IsAscii(text[i]) then TokensFrom(text, i + 1)
    else [YieldToken(text, i, i + 1)] + TokensFrom(text, i + 1)
  }

  /** `OCETokeniser.tokenise_as_list(text)`: the cursor loop. `start` and
      `end` bound the open token; with no token open they are equal and
      count the characters read. */
  method TokeniseAsList(text: string) returns (tokens: seq<Token>)
    ensures tokens == TokensFrom(text, 0)
  {
    tokens := [];
    var open := false;
    var start, end := 0, 0;
    for i := 0 to |text|
      invariant end == i && start <= end
      invariant !open ==> start == end
      invariant open ==> start < end && IsAsciiAlnum(text[start]) && AlnumEnd(text, start) == AlnumEnd(text, end)
      invariant tokens + TokensFrom(text, start) == TokensFrom(text, 0)
    {
      var c := text[i];
      if !IsAsciiAlnum(c) {
        if IsAscii(c) {
          if open {
            open := false;
            CloseToken(text, tokens, start, end);
            tokens := tokens + [YieldToken(text, start, end)];
            end := end + 1;
            start := end;
          } else {
            end := end + 1;
            start := start + 1;
          }
        } else {
          if open {
            open := false;
            CloseToken(text, tokens, start, end);
            tokens := tokens + [YieldToken(text, start, end)];
            start := end;
          }
          end := end + 1;
          Associative(tokens, [YieldToken(text, start, end)], TokensFrom(text, end));
          tokens := tokens + [YieldToken(text, start, end)];
          start := end;
        }
      } else {
        if !open {
          assert AlnumEnd(text, start) == AlnumEnd(text, end + 1);
        }
        open := true;
        end := end + 1;
      }
    }
    if open {
      CloseToken(text, tokens, start, end);
      tokens := tokens + [YieldToken(text, start, end)];
      assert tokens + [] == tokens;
    }
  }

  /** Closing the open token at a separator or at the end of the text
      keeps the loop invariant. */
  lemma CloseToken(text: string, tokens: seq<Token>, start: nat, end: nat)
    requires start < end <= |text| && IsAsciiAlnum(text[start])
    requires AlnumEnd(text, start) == AlnumEnd(text, end)
    requires end == |text| || !IsAsciiAlnum(text[end])
    requires tokens + TokensFrom(text, start) == TokensFrom(text, 0)
    ensures (tokens + [YieldToken(text, start, end)]) + TokensFrom(text, end) == TokensFrom(text, 0)
  {
    Associative(tokens, [YieldToken(text, start, end)], TokensFrom(text, end));
  }

  /** `OCETokeniser.tokenize(text)`: the tokens of the lower-cased text. */
  method Tokenize(text: string) returns (tokens: seq<Token>)
    ensures tokens == TokensFrom(LowerStr(text), 0)
  {
    tokens := TokeniseAsList(LowerStr(text));
  }

  // ---------------------------------------------------------------------------
  // What the tokens are
  // ---------------------------------------------------------------------------

  /** Position `i` is not inside a run of letters and digits. */
  predicate Boundary(text: string, i: nat)
    requires i <= |text|
  {
    i == 0 || i == |text| || !IsAsciiAlnum(text[i - 1]) || !IsAsciiAlnum(text[i])
  }

  /** A token is the text between its positions, and either a maximal run
      of ASCII letters and digits or one character outside ASCII. */
  predicate IsToken(text: string, t: Token)
  {
    t.start < t.end <= |text| && t.text == text[t.start..t.end] &&
    ((AllAlnum(t.text) && (t.start == 0 || !IsAsciiAlnum(text[t.start - 1])) &&
      (t.end == |text| || !IsAsciiAlnum(text[t.end]))) ||
     (t.end == t.start + 1 && !IsAscii(text[t.start])))
  }

  /** The spans run left to right without overlapping. */
  predicate Ordered(ts: seq<Token>)
  {
    forall k :: 0 <= k < |ts| - 1 ==> ts[k].end <= ts[k + 1].start
  }

  /** Every token is a run or a non-ASCII character, the spans lie within
      the text after `i` and follow each other in order. */
  lemma {:induction false} TokensShape(text: string, i: nat)
    requires i <= |text| && Boundary(text, i)
    ensures var ts := TokensFrom(text, i);
      (forall k :: 0 <= k < |ts| ==> IsToken(text, ts[k]) && i <= ts[k].start) && Ordered(ts)
    decreases |text| - i
  {
    if i < |text| {
      if IsAsciiAlnum(text[i]) {
        var e := AlnumEnd(text, i);
        TokensShape(text, e);
        ShapeCons(text, YieldToken(text, i, e), TokensFrom(text, e), i, e);
      } else if IsAscii(text[i]) {
        TokensShape(text, i + 1);
      } else {
        TokensShape(text, i + 1);
        ShapeCons(text, YieldToken(text, i, i + 1), TokensFrom(text, i + 1), i, i + 1);
      }
    }
  }

  /** A token followed by well-shaped tokens after its end is well shaped. */
  lemma ShapeCons(text: string, t: Token, rest: seq<Token>, i: nat, j: nat)
    requires IsToken(text, t) && i <= t.start && t.end <= j
    requires (forall k :: 0 <= k < |rest| ==> IsToken(text, rest[k]) && j <= rest[k].start) && Ordered(rest)
    ensures var ts := [t] + rest;
      (forall k :: 0 <= k < |ts| ==> IsToken(text, ts[k]) && i <= ts[k].start) && Ordered(ts)
  {
  }

  /** No token holds an ASCII character other than a letter or a digit. */
  lemma NoSeparatorInTokens(text: string, k: nat, j: nat)
    requires k < |TokensFrom(text, 0)|
    requires j < |TokensFrom(text, 0)[k].text|
    ensures var c := TokensFrom(text, 0)[k].text[j];
      IsAsciiAlnum(c) || !IsAscii(c)
  {
    TokensShape(text, 0);
    var t := TokensFrom(text, 0)[k];
    if !AllAlnum(t.text) {
      assert t.text[j] == text[t.start];
    }
  }

  /** Every letter, digit or non-ASCII character of the text after `i` lies
      inside some token: together with `TokensShape`, the tokens are exactly
      the runs and the non-ASCII characters. */
  lemma {:induction false} TokensCover(text: string, i: nat, p: nat)
    requires i <= p < |text| && (IsAsciiAlnum(text[p]) || !IsAscii(text[p]))
    ensures exists k :: (0 <= k < |TokensFrom(text, i)| &&
      TokensFrom(text, i)[k].start <= p < TokensFrom(text, i)[k].end)
    decreases |text| - i
  {
    var ts := TokensFrom(text, i);
    if IsAsciiAlnum(text[i]) {
      var e := AlnumEnd(text, i);
      if p < e {
        assert ts[0].start <= p < ts[0].end;
      } else {
        TokensCover(text, e, p);
        var k :| 0 <= k < |TokensFrom(text, e)| && TokensFrom(text, e)[k].start <= p < TokensFrom(text, e)[k].end;
        assert ts[k + 1] == TokensFrom(text, e)[k];
      }
    } else if IsAscii(text[i]) {
      assert p != i;
      TokensCover(text, i + 1, p);
    } else if p == i {
      assert ts[0].start <= p < ts[0].end;
    } else {
      TokensCover(text, i + 1, p);
      var k :| 0 <= k < |TokensFrom(text, i + 1)| && TokensFrom(text, i + 1)[k].start <= p < TokensFrom(text, i + 1)[k].end;
      assert ts[k + 1] == TokensFrom(text, i + 1)[k];
    }
  }

  /** The tokens of the folded text hold no upper-case ASCII letter. */
  lemma TokensLowerCase(text: string, k: nat)
    requires k < |TokensFrom(LowerStr(text), 0)|
    ensures IsLowerCase(TokensFrom(LowerStr(text), 0)[k].text)
  {
    var l := LowerStr(text);
    TokensShape(l, 0);
    var t := TokensFrom(l, 0)[k];
    assert forall j :: 0 <= j < |t.text| ==> t.text[j] == l[t.start + j];
  }

  // ---------------------------------------------------------------------------
  // The suffix tokeniser
  // ---------------------------------------------------------------------------

  const TcoPrefix := "http://t.co/"

  /** `re.sub(r'http://t[.]co/[a-zA-Z0-9]+', 'http://t.co/', text)`: left to
      right, each `http://t.co/` followed by letters or digits loses them. */
  function Preprocess(text: string): (r: string)
    ensures |r| <= |text|
    decreases |text|
  {
    if |text| > |TcoPrefix| && TcoPrefix <= text && IsAsciiAlnum(text[|TcoPrefix|]) then
      var e := AlnumEnd(text, |TcoPrefix|);
      TcoPrefix + Preprocess(text[e..])
    else if text == [] then []
    else [text[0]] + Preprocess(text[1..])
  }

  /** A shortened link with its id starts at `i`. */
  predicate TcoAt(text: string, i: nat)
  {
    i + |TcoPrefix| < |text| && text[i..i + |TcoPrefix|] == TcoPrefix && IsAsciiAlnum(text[i + |TcoPrefix|])
  }

  /** Text without a shortened link is left as it is. */
  lemma {:induction false} PreprocessNoLink(text: string)
    requires forall i :: 0 <= i < |text| ==> !TcoAt(text, i)
    ensures Preprocess(text) == text
    decreases |text|
  {
    if text != [] {
      NoLinkFront(text);
      NoLinkTail(text);
      PreprocessNoLink(text[1..]);
    }
  }

  /** Text without a shortened link does not start with one. */
  lemma NoLinkFront(text: string)
    requires forall i :: 0 <= i < |text| ==> !TcoAt(text, i)
    ensures !(|text| > |TcoPrefix| && TcoPrefix <= text && IsAsciiAlnum(text[|TcoPrefix|]))
  {
    if |text| > |TcoPrefix| && TcoPrefix <= text {
      assert !TcoAt(text, 0);
      assert text[0..|TcoPrefix|] == TcoPrefix;
    }
  }

  /** Text without a shortened link has none after its first character. */
  lemma NoLinkTail(text: string)
    requires text != [] && forall i :: 0 <= i < |text| ==> !TcoAt(text, i)
    ensures forall i :: 0 <= i < |text| - 1 ==> !TcoAt(text[1..], i)
  {
    forall i | 0 <= i < |text| - 1 ensures !TcoAt(text[1..], i) {
      assert !TcoAt(text, i + 1);
      if i + |TcoPrefix| < |text| - 1 {
        assert text[1..][i..i + |TcoPrefix|] == text[i + 1..i + 1 + |TcoPrefix|];
      }
    }
  }

  /** A link at the front keeps `http://t.co/` and loses its whole id; the
      rest is processed in turn. */
  lemma PreprocessLink(id: string, rest: string)
    requires |id| > 0 && AllAlnum(id)
    requires rest == [] || !IsAsciiAlnum(rest[0])
    ensures Preprocess(TcoPrefix + id + rest) == TcoPrefix + Preprocess(rest)
  {
    var text := TcoPrefix + id + rest;
    var n := |TcoPrefix|;
    LinkParts(TcoPrefix, id, rest);
    AlnumRun(id, rest);
    assert AlnumEnd(text, n) == n + |id| by {
      AlnumEndShift(text, n, id + rest);
    }
  }

  /** How `p + id + rest` splits after `p` and after `id`. */
  lemma LinkParts(p: string, id: string, rest: string)
    requires |id| > 0 && IsAsciiAlnum(id[0])
    ensures var t := p + id + rest;
      |t| > |p| && p <= t && IsAsciiAlnum(t[|p|]) && t[|p|..] == id + rest && t[|p| + |id|..] == rest
  {
    var t := p + id + rest;
    assert t[..|p|] == p;
    assert t[|p|] == id[0];
    assert t[|p|..] == id + rest;
    assert t[|p| + |id|..] == rest;
  }

  /** The run of letters and digits at the front of `id + rest`. */
  lemma {:induction false} AlnumRun(id: string, rest: string)
    requires AllAlnum(id)
    requires rest == [] || !IsAsciiAlnum(rest[0])
    ensures AlnumEnd(id + rest, 0) == |id|
    decreases |id|
  {
    if id != [] {
      AlnumRun(id[1..], rest);
      AlnumEndShift(id + rest, 1, id[1..] + rest);
      assert (id + rest)[1..] == id[1..] + rest;
    } else {
      assert id + rest == rest;
    }
  }

  /** `AlnumEnd` only looks at what follows its start. */
  lemma {:induction false} AlnumEndShift(text: string, i: nat, tail: string)
    requires i <= |text| && text[i..] == tail
    ensures AlnumEnd(text, i) == i + AlnumEnd(tail, 0)
    decreases |text| - i
  {
    if i < |text| {
      assert tail[0] == text[i];
      if IsAsciiAlnum(text[i]) {
        AlnumEndShift(text, i + 1, tail[1..]);
        AlnumEndShift(tail, 1, tail[1..]);
      }
    }
  }

  /** The suffixes of one token, from the second character on: each ends
      where the token ends. */
  function TokenSuffixes(text: string, start: nat, end: nat): (r: seq<Token>)
    requires start <= end <= |text|
    ensures |r| == end - start
    ensures forall k :: 0 <= k < |r| ==> r[k] == YieldToken(text, start + k, end)
    decreases end - start
  {
    if start == end then [] else [YieldToken(text, start, end)] + TokenSuffixes(text, start + 1, end)
  }

  /** The contribution of one token: nothing for a one-character token,
      otherwise the suffixes that start after its first character. */
  function SuffixesOfToken(text: string, t: Token): seq<Token>
    requires 1 <= |t.text| && t.start + |t.text| <= |text|
  {
    if |t.text| == 1 then [] else TokenSuffixes(text, t.start + 1, t.start + |t.text|)
  }

  /** Every token of the list lies within the text. */
  predicate Within(text: string, ts: seq<Token>)
  {
    forall k :: 0 <= k < |ts| ==> 1 <= |ts[k].text| && ts[k].start + |ts[k].text| <= |text|
  }

  /** The suffixes of every token, in order. */
  function AllSuffixes(text: string, ts: seq<Token>): seq<Token>
    requires Within(text, ts)
  {
    if ts == [] then [] else AllSuffixes(text, ts[..|ts| - 1]) + SuffixesOfToken(text, ts[|ts| - 1])
  }

  /** What `suffixes_as_list(text, search_mode)` returns. */
  function SuffixList(text: string, searchMode: bool): seq<Token>
  {
    var t := Preprocess(text);
    TokensWithin(t);
    if searchMode then TokensFrom(t, 0) else AllSuffixes(t, TokensFrom(t, 0))
  }

  lemma TokensWithin(text: string)
    ensures Within(text, TokensFrom(text, 0))
  {
    TokensShape(text, 0);
  }

  /** `OCESuffixes.suffixes_as_list(text, search_mode)`. */
  method SuffixesAsList(text: string, searchMode: bool) returns (list: seq<Token>)
    ensures list == SuffixList(text, searchMode)
  {
    var t := Preprocess(text);
    var main := TokeniseAsList(t);
    if searchMode {
      return main;
    }
    TokensWithin(t);
    list := ExpandTokens(t, main);
  }

  /** The outer loop of `suffixes_as_list`: the suffixes of every token
      longer than one character. */
  method ExpandTokens(t: string, main: seq<Token>) returns (list: seq<Token>)
    requires Within(t, main)
    ensures list == AllSuffixes(t, main)
  {
    list := [];
    for i := 0 to |main|
      invariant Within(t, main[..i])
      invariant list == AllSuffixes(t, main[..i])
    {
      SuffixesStep(t, main, i);
      list := AppendToken(t, list, main[i]);
    }
    assert main[..|main|] == main;
  }

  /** The body of the outer loop: the suffixes of one token, if it is
      longer than one character. */
  method AppendToken(t: string, list: seq<Token>, token: Token) returns (list': seq<Token>)
    requires 1 <= |token.text| && token.start + |token.text| <= |t|
    ensures list' == list + SuffixesOfToken(t, token)
  {
    if |token.text| != 1 {
      list' := AppendSuffixes(t, list, token.start + 1, token.start + |token.text|);
    } else {
      list' := list;
    }
  }

  lemma SuffixesStep(t: string, main: seq<Token>, i: nat)
    requires Within(t, main) && i < |main|
    ensures Within(t, main[..i]) && Within(t, main[..i + 1])
    ensures AllSuffixes(t, main[..i + 1]) == AllSuffixes(t, main[..i]) + SuffixesOfToken(t, main[i])
  {
    assert main[..i + 1][..i] == main[..i];
  }

  /** The inner loop of `suffixes_as_list`: one suffix for every start
      position from `cStart` up to `cEnd`. */
  method AppendSuffixes(t: string, list: seq<Token>, cStart: nat, cEnd: nat) returns (list': seq<Token>)
    requires cStart <= cEnd <= |t|
    ensures list' == list + TokenSuffixes(t, cStart, cEnd)
  {
    list' := list;
    for s := cStart to cEnd
      invariant list' == list + TokenSuffixes(t, cStart, cEnd)[..s - cStart]
    {
      assert TokenSuffixes(t, cStart, cEnd)[..s + 1 - cStart] ==
        TokenSuffixes(t, cStart, cEnd)[..s - cStart] + [YieldToken(t, s, cEnd)];
      list' := list' + [YieldToken(t, s, cEnd)];
    }
    assert TokenSuffixes(t, cStart, cEnd)[..cEnd - cStart] == TokenSuffixes(t, cStart, cEnd);
  }

  /** The suffixer of the suffix table, with its mode. */
  class Suffixer {
    var searchMode: bool

    /** A new suffixer expands to suffixes. */
    constructor ()
      ensures !searchMode
    {
      searchMode := false;
    }

    /** `OCESuffixes.tokenize(text)` */
    method Tokenize(text: string) returns (list: seq<Token>)
      ensures list == SuffixList(LowerStr(text), searchMode)
    {
      list := SuffixesAsList(LowerStr(text), searchMode);
    }
  }

  // ---------------------------------------------------------------------------
  // What the suffixes are
  // ---------------------------------------------------------------------------

  /** A token of n characters gives exactly n - 1 suffixes: all end where
      the token ends, and none is the whole token. */
  lemma SuffixesOfTokenShape(text: string, t: Token)
    requires IsToken(text, t)
    ensures var r := SuffixesOfToken(text, t);
      |r| == |t.text| - 1 &&
      forall k :: 0 <= k < |r| ==>
        r[k].end == t.end && t.start < r[k].start < t.end && r[k].text == t.text[k + 1..]
  {
    var r := SuffixesOfToken(text, t);
    forall k | 0 <= k < |r| ensures r[k].text == t.text[k + 1..] {
      assert r[k].text == text[t.start + 1 + k..t.end];
    }
  }

  /** The total number of suffixes: the token lengths less one each. */
  function SuffixCount(ts: seq<Token>): int
  {
    if ts == [] then 0 else SuffixCount(ts[..|ts| - 1]) + |ts[|ts| - 1].text| - 1
  }

  lemma {:induction false} AllSuffixesCount(text: string, ts: seq<Token>)
    requires Within(text, ts) && forall k :: 0 <= k < |ts| ==> IsToken(text, ts[k])
    ensures |AllSuffixes(text, ts)| == SuffixCount(ts)
  {
    if ts != [] {
      AllSuffixesCount(text, ts[..|ts| - 1]);
      SuffixesOfTokenShape(text, ts[|ts| - 1]);
    }
  }

  /** Outside search mode the suffix list has one entry less than the
      token length for every token of the preprocessed text. */
  lemma SuffixListCount(text: string)
    ensures |SuffixList(text, false)| == SuffixCount(TokensFrom(Preprocess(text), 0))
  {
    var t := Preprocess(text);
    TokensShape(t, 0);
    AllSuffixesCount(t, TokensFrom(t, 0));
  }
}
