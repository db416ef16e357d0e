/** The features of `oce/langid/features.py` that the language identifier
    is trained on: whether a sentence holds Chinese characters (`has_zh`),
    whether a word looks like Mandarin pinyin (`check_pinyin`,
    `has_pinyin`), and the `has_en_and_zh` combination. The spell-checking
    dictionaries are parameters: a check is a function from a token to a
    boolean. */
module Features {
  import opened Wrappers
  import opened Strings
  import opened PinyinTable

  // ---------------------------------------------------------------------------
  // has_zh
  // ---------------------------------------------------------------------------

  /** `lo <= c <= hi`, with `c` a one-character string. */
  predicate Between(lo: string, c: char, hi: string)
  {
    Le(lo, [c]) && Le([c], hi)
  }

  /** The six comparisons of `has_zh` as written. In the last four, each
      bound is a four-digit escape followed by one more character, so it is
      a string of two characters. */
  predicate IsZhChar(c: char)
  {
    Between("\U{4E00}", c, "\U{9FFF}") ||
    Between("\U{3400}", c, "\U{4DBF}") ||
    Between("\U{2000}0", c, "\U{2A6D}F") ||
    Between("\U{2A70}0", c, "\U{2B73}F") ||
    Between("\U{2B74}0", c, "\U{2B81}F") ||
    Between("\U{2B82}0", c, "\U{2CEA}F")
  }

  /** The comparisons as evidently intended: each bound is the single code
      point that begins or ends a block of CJK ideographs. */
  predicate IsZhCharIntended(c: char)
  {
    Between("\U{4E00}", c, "\U{9FFF}") ||
    Between("\U{3400}", c, "\U{4DBF}") ||
    Between("\U{20000}", c, "\U{2A6DF}") ||
    Between("\U{2A700}", c, "\U{2B73F}") ||
    Between("\U{2B740}", c, "\U{2B81F}") ||
    Between("\U{2B820}", c, "\U{2CEAF}")
  }

  /** Two one-character strings compare as their characters. */
  lemma LeChars(a: char, b: char)
    ensures Le([a], [b]) <==> a <= b
  {
    assert [a][1..] == [] && [b][1..] == [];
  }

  /** A two-character bound is at most `c` exactly when its first
      character is below `c`. */
  lemma LePairChar(lo: string, c: char)
    requires |lo| == 2
    ensures Le(lo, [c]) <==> lo[0] < c
  {
    assert [c][1..] == [];
  }

  /** `c` is at most a two-character bound exactly when it is at most the
      bound's first character. */
  lemma LeCharPair(c: char, hi: string)
    requires |hi| == 2
    ensures Le([c], hi) <==> c <= hi[0]
  {
    assert [c][1..] == [];
  }

  /** One comparison written with single-character bounds. */
  lemma BetweenChars(lo: char, c: char, hi: char)
    ensures Between([lo], c, [hi]) <==> lo <= c <= hi
  {
    LeChars(lo, c);
    LeChars(c, hi);
  }

  /** One comparison written with two-character bounds: the lower end is
      excluded and the upper end is the bound's first character. */
  lemma BetweenPairs(lo: string, c: char, hi: string)
    requires |lo| == 2 && |hi| == 2
    ensures Between(lo, c, hi) <==> lo[0] < c <= hi[0]
  {
    LePairChar(lo, c);
    LeCharPair(c, hi);
  }

  /** The characters `has_zh` counts as written: the two blocks of the
      Basic Multilingual Plane, and four ranges of punctuation and symbols
      below U+2CEB in place of the supplementary blocks. */
  lemma ZhCharRanges(c: char)
    ensures var n := c as int;
      IsZhChar(c) <==>
        (0x4E00 <= n <= 0x9FFF || 0x3400 <= n <= 0x4DBF || 0x2000 < n <= 0x2A6D ||
         0x2A70 < n <= 0x2B73 || 0x2B74 < n <= 0x2B81 || 0x2B82 < n <= 0x2CEA)
  {
    BetweenChars('\U{4E00}', c, '\U{9FFF}');
    BetweenChars('\U{3400}', c, '\U{4DBF}');
    BetweenPairs("\U{2000}0", c, "\U{2A6D}F");
    BetweenPairs("\U{2A70}0", c, "\U{2B73}F");
    BetweenPairs("\U{2B74}0", c, "\U{2B81}F");
    BetweenPairs("\U{2B82}0", c, "\U{2CEA}F");
  }

  /** The characters counted as intended: the six blocks of CJK unified
      ideographs up to Extension E. */
  lemma ZhCharIntendedRanges(c: char)
    ensures var n := c as int;
      IsZhCharIntended(c) <==>
        (0x4E00 <= n <= 0x9FFF || 0x3400 <= n <= 0x4DBF || 0x20000 <= n <= 0x2A6DF ||
         0x2A700 <= n <= 0x2B73F || 0x2B740 <= n <= 0x2B81F || 0x2B820 <= n <= 0x2CEAF)
  {
    BetweenChars('\U{4E00}', c, '\U{9FFF}');
    BetweenChars('\U{3400}', c, '\U{4DBF}');
    BetweenChars('\U{20000}', c, '\U{2A6DF}');
    BetweenChars('\U{2A700}', c, '\U{2B73F}');
    BetweenChars('\U{2B740}', c, '\U{2B81F}');
    BetweenChars('\U{2B820}', c, '\U{2CEAF}');
  }

  /** `has_zh(str)` as written: true at the first character that passes
      one of the comparisons. */
  function HasZh(s: string): (r: bool)
    ensures r <==> exists k :: 0 <= k < |s| && IsZhChar(s[k])
    decreases |s|
  {
    if s == [] then false
    else if IsZhChar(s[0]) then true
    else
      var r := HasZh(s[1..]);
      assert forall k :: 1 <= k < |s| ==> s[k] == s[1..][k - 1];
      r
  }

  /** `has_zh` with the bounds as intended. */
  function HasZhIntended(s: string): (r: bool)
    ensures r <==> exists k :: 0 <= k < |s| && IsZhCharIntended(s[k])
    decreases |s|
  {
    if s == [] then false
    else if IsZhCharIntended(s[0]) then true
    else
      var r := HasZhIntended(s[1..]);
      assert forall k :: 1 <= k < |s| ==> s[k] == s[1..][k - 1];
      r
  }

  /** As written, the horizontal ellipsis U+2026 is taken for Chinese. */
  lemma EllipsisIsZh()
    ensures HasZh("\U{2026}") && !HasZhIntended("\U{2026}")
  {
    ZhCharRanges('\U{2026}');
    ZhCharIntendedRanges('\U{2026}');
    assert "\U{2026}"[0] == '\U{2026}';
  }

  /** As written, the first ideograph of Extension B, U+20000, is not. */
  lemma ExtensionBIsNotZh()
    ensures !HasZh("\U{20000}") && HasZhIntended("\U{20000}")
  {
    ZhCharRanges('\U{20000}');
    ZhCharIntendedRanges('\U{20000}');
    assert "\U{20000}"[0] == '\U{20000}';
  }

  /** Both versions agree on the two blocks of the Basic Multilingual
      Plane. */
  lemma ZhBasicBlocks(c: char)
    requires 0x3400 <= c as int <= 0x4DBF || 0x4E00 <= c as int <= 0x9FFF
    ensures IsZhChar(c) && IsZhCharIntended(c)
  {
    ZhCharRanges(c);
    ZhCharIntendedRanges(c);
  }

  // ---------------------------------------------------------------------------
  // check_pinyin, step 0: syllables without an initial
  // ---------------------------------------------------------------------------

  /** The eleven syllables without an initial that step 0 lists. */
  predicate IsBareSyllable(s: string)
  {
    s in {"a", "ai", "ao", "an", "ang", "o", "ou", "e", "ei", "en", "eng"}
  }

  /** `n` followed by an optional `g` at the start of `t`, or nothing. */
  function NgLength(t: string): (n: nat)
    ensures n <= |t|
  {
    if |t| > 0 && t[0] == 'n' then (if |t| > 1 && t[1] == 'g' then 2 else 1) else 0
  }

  /** `re.match(r"a([io]|ng?)?|ou?|e(i|ng?)?", word)`: the length of the
      text matched at the start of `word`, if any. The alternatives are
      tried in the order written and each optional group before it is
      skipped. */
  function BareMatch(word: string): (r: Option<nat>)
    ensures r.Some? <==> |word| > 0 && word[0] in "aoe"
    ensures r.Some? ==> r.value <= |word| && IsBareSyllable(word[..r.value])
  {
    if |word| == 0 then None
    else
      var rest := word[1..];
      var n :=
        if word[0] == 'a' then (if |rest| > 0 && rest[0] in "io" then 1 else NgLength(rest))
        else if word[0] == 'o' then (if |rest| > 0 && rest[0] == 'u' then 1 else 0)
        else if word[0] == 'e' then (if |rest| > 0 && rest[0] == 'i' then 1 else NgLength(rest))
        else 0;
      if word[0] in "aoe" then
        BareSpelled(word, n);
        Some(1 + n)
      else None
  }

  /** The text matched is a bare syllable. */
  lemma BareSpelled(word: string, n: nat)
    requires |word| > 0 && word[0] in "aoe"
    requires var rest := word[1..];
      n == (if word[0] == 'a' then (if |rest| > 0 && rest[0] in "io" then 1 else NgLength(rest))
            else if word[0] == 'o' then (if |rest| > 0 && rest[0] == 'u' then 1 else 0)
            else if word[0] == 'e' then (if |rest| > 0 && rest[0] == 'i' then 1 else NgLength(rest))
            else 0)
    ensures 1 + n <= |word| && IsBareSyllable(word[..1 + n])
  {
    var p := word[..1 + n];
    assert |p| == 1 + n && forall k :: 0 <= k < |p| ==> p[k] == word[k];
    if n == 0 {
      assert p == [word[0]];
    } else if n == 1 {
      assert p == [word[0], word[1]];
    } else {
      assert p == [word[0], word[1], word[2]];
    }
  }

  /** The pattern matches the whole of each bare syllable. */
  lemma BareSyllableMatches(s: string)
    requires IsBareSyllable(s)
    ensures BareMatch(s) == Some(|s|)
  {
  }

  // ---------------------------------------------------------------------------
  // check_pinyin, step 1: the initial
  // ---------------------------------------------------------------------------

  /** `[bpmfdtnlgkhrjqxwy]`: the one-letter initials other than z, c and
      s. */
  function Consonant(c: char): Option<Initial>
  {
    if c == 'b' then Some(B) else if c == 'p' then Some(P) else if c == 'm' then Some(M)
    else if c == 'f' then Some(F) else if c == 'd' then Some(D) else if c == 't' then Some(T)
    else if c == 'n' then Some(N) else if c == 'l' then Some(L) else if c == 'g' then Some(G)
    else if c == 'k' then Some(K) else if c == 'h' then Some(H) else if c == 'r' then Some(R)
    else if c == 'j' then Some(J) else if c == 'q' then Some(Q) else if c == 'x' then Some(X)
    else if c == 'w' then Some(W) else if c == 'y' then Some(Y)
    else None
  }

  /** `[zcs]h?`: the initial without and with the `h`. */
  function Sibilant(c: char): Option<(Initial, Initial)>
  {
    if c == 'z' then Some((Z, Zh)) else if c == 'c' then Some((C, Ch)) else if c == 's' then Some((S, Sh))
    else None
  }

  /** The letter a consonant is read from is its name, and no vowel. */
  lemma ConsonantName(c: char)
    requires Consonant(c).Some?
    ensures InitialName(Consonant(c).value) == [c] && c !in "aoe"
  {
  }

  /** The letter a sibilant is read from begins both names, and is no
      vowel. */
  lemma SibilantName(c: char)
    requires Sibilant(c).Some?
    ensures InitialName(Sibilant(c).value.0) == [c] && InitialName(Sibilant(c).value.1) == [c, 'h']
    ensures Consonant(c).None? && c !in "aoe"
  {
  }

  /** Each initial is read back from the first letter of its name. */
  lemma InitialLetter(i: Initial)
    ensures var c := InitialName(i)[0];
      (i !in {Z, C, S, Zh, Ch, Sh} ==> Consonant(c) == Some(i)) &&
      (i in {Z, C, S} ==> Consonant(c).None? && Sibilant(c).Some? && Sibilant(c).value.0 == i) &&
      (i in {Zh, Ch, Sh} ==> Consonant(c).None? && Sibilant(c).Some? && Sibilant(c).value.1 == i)
  {
  }

  /** `.*`: the text up to the first newline, which `.` does not match. */
  function UpToNewline(s: string): (r: string)
    ensures r <= s && '\n' !in r
    ensures |r| < |s| ==> s[|r|] == '\n'
    decreases |s|
  {
    if s == [] || s[0] == '\n' then []
    else [s[0]] + UpToNewline(s[1..])
  }

  /** `re.match(r"([bpmfdtnlgkhrjqxwy]|[zcs]h?)(.*)", word)`: the initial
      (group 1, a key of the table) and the text after it (group 2). `zh`,
      `ch` and `sh` are taken whole, the `h` being tried before it is
      skipped. */
  function SplitInitial(word: string): (r: Option<(Initial, string)>)
    ensures r.Some? ==>
      var n := |InitialName(r.value.0)|;
      n <= |word| && word[..n] == InitialName(r.value.0) && r.value.1 == UpToNewline(word[n..])
    ensures r.None? <==> |word| == 0 || (Consonant(word[0]).None? && Sibilant(word[0]).None?)
  {
    if |word| == 0 then None
    else if Consonant(word[0]).Some? then
      ConsonantName(word[0]);
      assert word[..1] == [word[0]];
      Some((Consonant(word[0]).value, UpToNewline(word[1..])))
    else if Sibilant(word[0]).Some? then
      SibilantName(word[0]);
      if |word| > 1 && word[1] == 'h' then
        assert word[..2] == [word[0], word[1]];
        Some((Sibilant(word[0]).value.1, UpToNewline(word[2..])))
      else
        assert word[..1] == [word[0]];
        Some((Sibilant(word[0]).value.0, UpToNewline(word[1..])))
    else None
  }

  /** A word spelled with an initial splits back into that initial and the
      rest, unless a lone `z`, `c` or `s` is followed by `h`. */
  lemma SplitInitialName(i: Initial, s: string)
    requires i in {Z, C, S} ==> !(|s| > 0 && s[0] == 'h')
    ensures SplitInitial(InitialName(i) + s) == Some((i, UpToNewline(s)))
  {
    var w := InitialName(i) + s;
    InitialLetter(i);
    assert w[0] == InitialName(i)[0];
    if |InitialName(i)| == 2 {
      assert w[1] == 'h' && w[2..] == s;
    } else {
      assert w[1..] == s;
    }
  }

  // ---------------------------------------------------------------------------
  // check_pinyin, step 2: the final
  // ---------------------------------------------------------------------------

  /** `final.rstrip("012345")`: the tone numbers at the end removed. */
  function StripTones(s: string): (r: string)
    ensures r <= s && (r == [] || r[|r| - 1] !in "012345")
    ensures forall k :: |r| <= k < |s| ==> s[k] in "012345"
    decreases |s|
  {
    if s != [] && s[|s| - 1] in "012345" then StripTones(s[..|s| - 1]) else s
  }

  /** Tone numbers after a text that does not end in one are exactly
      what is stripped. */
  lemma {:induction false} StripTonesAfter(x: string, tones: string)
    requires x != [] && x[|x| - 1] !in "012345"
    requires forall k :: 0 <= k < |tones| ==> tones[k] in "012345"
    ensures StripTones(x + tones) == x
    decreases |tones|
  {
    if tones == [] {
      assert x + tones == x;
    } else {
      var t := tones[..|tones| - 1];
      assert (x + tones)[..|x + tones| - 1] == x + t;
      StripTonesAfter(x, t);
    }
  }

  /** The `startswith` chain: the first letter that selects the pattern
      the final is matched against, or None when no branch applies. */
  function Lead(final: string): (r: Option<char>)
    ensures r.Some? <==> |final| > 0 && final[0] in "aoeuiv"
    ensures r.Some? ==> r.value == final[0]
  {
    if |final| > 0 && final[0] == 'a' then Some('a')
    else if |final| > 0 && final[0] == 'o' then Some('o')
    else if |final| > 0 && final[0] == 'e' then Some('e')
    else if |final| > 0 && final[0] == 'u' then Some('u')
    else if |final| > 0 && final[0] == 'i' then Some('i')
    else if |final| > 0 && final[0] == 'v' then Some('v')
    else None
  }

  /** `re.match(pattern, final)` for the pattern chosen by `lead`. Each of
      the six patterns is its lead letter followed only by an optional
      group, so it matches exactly when the final starts with that
      letter. */
  predicate LeadMatches(lead: char, final: string)
  {
    |final| > 0 && final[0] == lead
  }

  /** The names of a list of finals: `valid_pinyin[initial]` as strings. */
  function Names(fs: seq<Final>): (r: seq<string>)
    ensures |r| == |fs| && forall k :: 0 <= k < |fs| ==> r[k] == FinalName(fs[k])
  {
    seq(|fs|, k requires 0 <= k < |fs| => FinalName(fs[k]))
  }

  /** A string is among the names of a list exactly when it spells a final
      of the list. */
  lemma NamesHas(fs: seq<Final>, s: string)
    ensures s in Names(fs) <==> exists f :: f in fs && FinalName(f) == s
  {
    if s in Names(fs) {
      var k :| 0 <= k < |fs| && Names(fs)[k] == s;
      assert fs[k] in fs;
    }
  }

  // ---------------------------------------------------------------------------
  // check_pinyin
  // ---------------------------------------------------------------------------

  /** Steps 2 and 3 of `check_pinyin`, once the initial is split off:
      strip the tones from the final, select the final's pattern by its
      first letter and match it, and look the final up in `fs`, the
      initial's list. */
  function Accepts(fs: seq<Final>, rest: string): (r: bool)
  {
    var final := StripTones(rest);
    var lead := Lead(final);
    if lead.None? then false
    else if !LeadMatches(lead.value, final) then false
    else final in Names(fs)
  }

  /** Steps 1 to 3 of `check_pinyin`: a word without an initial is
      rejected. */
  function WithInitial(word: string): (r: bool)
  {
    match SplitInitial(word)
    case None => false
    case Some((i, rest)) => Accepts(FinalsOf(i), rest)
  }

  /** `check_pinyin(word)` as written: step 0 accepts any word the bare
      pattern matches at its start, and so every word beginning with `a`,
      `o` or `e`. */
  function CheckPinyin(word: string): (r: bool)
    ensures |word| > 0 && word[0] in "aoe" ==> r
  {
    if BareMatch(word).Some? then true else WithInitial(word)
  }

  /** `check_pinyin` with step 0 as evidently intended: only a word that
      is wholly one of the listed syllables, with tone numbers after it
      allowed as in step 2, is accepted there. */
  function CheckPinyinIntended(word: string): (r: bool)
  {
    var bare := StripTones(word);
    if BareMatch(bare) == Some(|bare|) then true else WithInitial(word)
  }

  /** Steps 2 and 3 accept exactly the name of a final in the initial's
      list, tone numbers and anything after a newline aside: the pattern
      selection never rejects a final the lookup would accept. */
  lemma AcceptsSpec(fs: seq<Final>, rest: string)
    ensures Accepts(fs, rest) <==> exists f :: f in fs && FinalName(f) == StripTones(rest)
  {
    var final := StripTones(rest);
    NamesHas(fs, final);
    if exists f :: f in fs && FinalName(f) == final {
      var f :| f in fs && FinalName(f) == final;
      assert final[0] in "aoeuiv";
    }
  }

  /** A syllable spelled from the table, with any tone numbers after it,
      is accepted exactly when the table lists its final for its initial;
      both versions agree on it. */
  lemma SyllableAgreement(i: Initial, f: Final, tones: string)
    requires forall k :: 0 <= k < |tones| ==> tones[k] in "012345"
    ensures var w := InitialName(i) + FinalName(f) + tones;
      (CheckPinyin(w) <==> f in FinalsOf(i)) && (CheckPinyinIntended(w) <==> f in FinalsOf(i))
  {
    var rest := FinalName(f) + tones;
    var w := InitialName(i) + FinalName(f) + tones;
    SyllableSplit(i, f, tones);
    var fs := FinalsOf(i);
    assert Accepts(fs, rest) <==> f in fs by {
      AcceptsName(fs, f, tones);
    }
    assert WithInitial(w) == Accepts(fs, rest);
  }

  /** Such a word starts with a consonant, so step 0 does not match it, and
      step 1 takes its initial off and leaves the final and the tones. */
  lemma SyllableSplit(i: Initial, f: Final, tones: string)
    requires forall k :: 0 <= k < |tones| ==> tones[k] in "012345"
    ensures var w := InitialName(i) + FinalName(f) + tones;
      BareMatch(w).None? && SplitInitial(w) == Some((i, FinalName(f) + tones))
  {
    var rest := FinalName(f) + tones;
    var w := InitialName(i) + rest;
    assert w == InitialName(i) + FinalName(f) + tones;
    assert SplitInitial(w) == Some((i, rest)) by {
      assert rest[0] == FinalName(f)[0];
      NoNewline(FinalName(f), tones);
      SplitInitialName(i, rest);
    }
    assert BareMatch(w).None? by {
      InitialVowelFree(i);
      assert w[0] == InitialName(i)[0];
    }
  }

  /** Steps 2 and 3 accept a final's name with tone numbers after it
      exactly when the list holds the final. */
  lemma AcceptsName(fs: seq<Final>, f: Final, tones: string)
    requires forall k :: 0 <= k < |tones| ==> tones[k] in "012345"
    ensures Accepts(fs, FinalName(f) + tones) <==> f in fs
  {
    var name := FinalName(f);
    assert StripTones(name + tones) == name by {
      StripTonesAfter(name, tones);
    }
    assert Lead(name) == Some(name[0]);
    assert name in Names(fs) <==> f in fs by {
      NameListed(fs, f);
    }
  }

  /** A final's name is among the names of a list exactly when the list
      holds the final. */
  lemma NameListed(fs: seq<Final>, f: Final)
    ensures FinalName(f) in Names(fs) <==> f in fs
  {
    if FinalName(f) in Names(fs) {
      var k :| 0 <= k < |fs| && Names(fs)[k] == FinalName(f);
      FinalNameInjective(fs[k], f);
    }
    if f in fs {
      var k :| 0 <= k < |fs| && fs[k] == f;
      assert Names(fs)[k] == FinalName(f);
    }
  }

  /** No initial begins with a vowel of step 0. */
  lemma InitialVowelFree(i: Initial)
    ensures InitialName(i)[0] !in "aoe"
  {
    InitialLetter(i);
    var c := InitialName(i)[0];
    if Consonant(c).Some? {
      ConsonantName(c);
    } else {
      SibilantName(c);
    }
  }

  /** A final spelled in letters and tone numbers has no newline, so `.*`
      takes all of it. */
  lemma NoNewline(name: string, tones: string)
    requires forall k :: 0 <= k < |name| ==> 'a' <= name[k] <= 'z'
    requires forall k :: 0 <= k < |tones| ==> tones[k] in "012345"
    ensures UpToNewline(name + tones) == name + tones
  {
    var s := name + tones;
    assert forall k :: 0 <= k < |s| ==> s[k] != '\n' by {
      forall k | 0 <= k < |s|
        ensures s[k] != '\n'
      {
        if k < |name| {
          assert s[k] == name[k];
        } else {
          assert s[k] == tones[k - |name|];
        }
      }
    }
  }

  /** A word that neither begins with `a`, `o` or `e` nor with an initial
      is rejected. */
  lemma NoInitialRejected(word: string)
    requires !(|word| > 0 && word[0] in "aoe") && SplitInitial(word).None?
    ensures !CheckPinyin(word) && !CheckPinyinIntended(word)
  {
  }

  /** Step 0 as intended accepts exactly the listed syllables, each with
      or without tone numbers after it. */
  lemma IntendedBare(word: string)
    ensures var bare := StripTones(word);
            BareMatch(bare) == Some(|bare|) <==> IsBareSyllable(bare)
  {
    var bare := StripTones(word);
    if IsBareSyllable(bare) {
      BareSyllableMatches(bare);
    }
    if BareMatch(bare) == Some(|bare|) {
      assert bare[..|bare|] == bare;
    }
  }

  /** Corrected, a listed syllable followed by tone numbers is pinyin, as
      it is as written. */
  lemma TonedBareAccepted(s: string, tones: string)
    requires IsBareSyllable(s)
    requires forall k :: 0 <= k < |tones| ==> tones[k] in "012345"
    ensures CheckPinyinIntended(s + tones) && CheckPinyin(s + tones)
  {
    assert s != [] && s[|s| - 1] !in "012345";
    StripTonesAfter(s, tones);
    BareSyllableMatches(s);
    assert (s + tones)[0] == s[0];
  }

  /** `ai4` is pinyin, as written and corrected. */
  lemma Ai4IsPinyin()
    ensures CheckPinyinIntended("ai4") && CheckPinyin("ai4")
  {
    assert "ai4" == "ai" + "4";
    TonedBareAccepted("ai", "4");
  }

  /** The intended check accepts no more than the check as written, and
      both agree on every word that does not begin with `a`, `o` or `e`. */
  lemma IntendedStricter(word: string)
    ensures CheckPinyinIntended(word) ==> CheckPinyin(word)
    ensures !(|word| > 0 && word[0] in "aoe") ==> (CheckPinyin(word) <==> CheckPinyinIntended(word))
  {
  }

  /** As written, `apple` is taken for pinyin; as intended it is not, as
      it is no listed syllable and `a` is no initial. */
  lemma AppleIsPinyin()
    ensures CheckPinyin("apple") && !CheckPinyinIntended("apple")
  {
    var w := "apple";
    assert |w| == 5 && w[0] == 'a' && w[4] == 'e';
    LongAWord(w);
  }

  /** A word of more than three letters beginning with `a` and not ending
      in a tone number is pinyin as written, and not as intended. */
  lemma LongAWord(w: string)
    requires |w| > 3 && w[0] == 'a' && w[|w| - 1] !in "012345"
    ensures CheckPinyin(w) && !CheckPinyinIntended(w)
  {
    LongNotBare(w);
    assert SplitInitial(w).None?;
  }

  /** A word of more than three letters, not ending in a tone number, is
      not taken by step 0 as intended. */
  lemma LongNotBare(w: string)
    requires |w| > 3 && w[|w| - 1] !in "012345"
    ensures var bare := StripTones(w); BareMatch(bare) != Some(|bare|)
  {
    StripTonesAfter(w, []);
    assert w + [] == w;
    IntendedBare(w);
    assert !IsBareSyllable(w);
  }

  // ---------------------------------------------------------------------------
  // has_pinyin, has_en_US, has_en_GB, has_sge_words, has_en_and_zh
  // ---------------------------------------------------------------------------

  /** `has_pinyin(tokenised)`: true at the first token that looks like
      pinyin, with the check as intended. */
  function HasPinyin(tokens: seq<string>): (r: bool)
    ensures r <==> exists k :: 0 <= k < |tokens| && CheckPinyinIntended(tokens[k])
    decreases |tokens|
  {
    if tokens == [] then false
    else if CheckPinyinIntended(tokens[0]) then true
    else
      var r := HasPinyin(tokens[1..]);
      assert forall k :: 1 <= k < |tokens| ==> tokens[k] == tokens[1..][k - 1];
      r
  }

  /** `has_en_US` and `has_en_GB`: true at the first token the dictionary
      knows. */
  function HasWord(check: string -> bool, tokens: seq<string>): (r: bool)
    ensures r <==> exists k :: 0 <= k < |tokens| && check(tokens[k])
    decreases |tokens|
  {
    if tokens == [] then false
    else if check(tokens[0]) then true
    else
      var r := HasWord(check, tokens[1..]);
      assert forall k :: 1 <= k < |tokens| ==> tokens[k] == tokens[1..][k - 1];
      r
  }

  /** The inner loop of `has_sge_words`: some word list knows the token. */
  function Known(lists: seq<string -> bool>, token: string): (r: bool)
    ensures r <==> exists l :: 0 <= l < |lists| && lists[l](token)
    decreases |lists|
  {
    if lists == [] then false
    else if lists[0](token) then true
    else
      var r := Known(lists[1..], token);
      assert forall l :: 1 <= l < |lists| ==> lists[l] == lists[1..][l - 1];
      r
  }

  /** `has_sge_words(tokenised)`: true at the first token some Singapore
      English word list knows. */
  function HasSgeWords(lists: seq<string -> bool>, tokens: seq<string>): (r: bool)
    ensures r <==> exists k, l :: 0 <= k < |tokens| && 0 <= l < |lists| && lists[l](tokens[k])
    decreases |tokens|
  {
    if tokens == [] then false
    else if Known(lists, tokens[0]) then true
    else
      var r := HasSgeWords(lists, tokens[1..]);
      assert forall k :: 1 <= k < |tokens| ==> tokens[k] == tokens[1..][k - 1];
      r
  }

  /** The `has_en_and_zh` feature: the sentence has Chinese (as intended)
      and some token is an English word by one of the three dictionaries. */
  function HasEnAndZh(sentence: string, tokens: seq<string>, enUS: string -> bool, enGB: string -> bool,
                      sge: seq<string -> bool>): (r: bool)
  {
    HasZhIntended(sentence) && (HasWord(enUS, tokens) || HasWord(enGB, tokens) || HasSgeWords(sge, tokens))
  }

  /** The combination holds exactly when some character is a CJK ideograph
      and some token is known to one of the dictionaries. */
  lemma EnAndZhSpec(sentence: string, tokens: seq<string>, enUS: string -> bool, enGB: string -> bool,
                    sge: seq<string -> bool>)
    ensures HasEnAndZh(sentence, tokens, enUS, enGB, sge) <==>
      (exists c :: 0 <= c < |sentence| && IsZhCharIntended(sentence[c])) &&
      (exists k :: 0 <= k < |tokens| && (enUS(tokens[k]) || enGB(tokens[k]) || Known(sge, tokens[k])))
  {
    if exists k :: 0 <= k < |tokens| && Known(sge, tokens[k]) {
      var k :| 0 <= k < |tokens| && Known(sge, tokens[k]);
      var l :| 0 <= l < |sge| && sge[l](tokens[k]);
    }
  }
  /** The boolean entries of the dictionary `extract_features` returns;
      the two `portion_*` entries are fractions and are not part of this
      model. */
  datatype LanguageFeatures = LanguageFeatures(
    hasZh: bool, hasPinyin: bool, hasEnUS: bool, hasEnGB: bool, hasSgeWords: bool, hasEnAndZh: bool)

  /** `extract_features(sentence)`, given the sentence's tokens and the
      three dictionaries: the primary features, then `has_en_and_zh`
      combined from them. The character and pinyin checks are the
      corrected ones. `portion_en_US` and `portion_en_GB` divide by the
      number of tokens, so a sentence without tokens raises
      `ZeroDivisionError` instead. */
  function ExtractFeatures(sentence: string, tokens: seq<string>, enUS: string -> bool, enGB: string -> bool,
                           sge: seq<string -> bool>): (r: Result<LanguageFeatures>)
    ensures r.Err? <==> tokens == []
    ensures r.Err? ==> r.error == ZeroDivisionError
    ensures r.Ok? ==> (r.value.hasZh <==> exists c :: 0 <= c < |sentence| && IsZhCharIntended(sentence[c]))
    ensures r.Ok? ==> (r.value.hasPinyin <==> exists k :: 0 <= k < |tokens| && CheckPinyinIntended(tokens[k]))
    ensures r.Ok? ==> (r.value.hasEnUS <==> exists k :: 0 <= k < |tokens| && enUS(tokens[k]))
    ensures r.Ok? ==> (r.value.hasEnGB <==> exists k :: 0 <= k < |tokens| && enGB(tokens[k]))
    ensures r.Ok? ==> (r.value.hasSgeWords <==>
              exists k, l :: 0 <= k < |tokens| && 0 <= l < |sge| && sge[l](tokens[k]))
    ensures r.Ok? ==> (r.value.hasEnAndZh <==> r.value.hasZh && (r.value.hasEnUS || r.value.hasEnGB || r.value.hasSgeWords))
    ensures r.Ok? ==> r.value.hasEnAndZh == HasEnAndZh(sentence, tokens, enUS, enGB, sge)
  {
    if tokens == [] then Err(ZeroDivisionError)
    else
      var zh := HasZhIntended(sentence);
      var us := HasWord(enUS, tokens);
      var gb := HasWord(enGB, tokens);
      var sg := HasSgeWords(sge, tokens);
      Ok(LanguageFeatures(zh, HasPinyin(tokens), us, gb, sg, zh && (us || gb || sg)))
  }

  /** The exception of `yes / (yes + no)` when both counts are 0. */
  const ZeroDivisionError := "ZeroDivisionError"
}
