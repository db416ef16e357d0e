/** Python string primitives used throughout the corpus editor, stated on
    `seq<char>`: whitespace (`str.isspace`), `strip`, `split(sep)`, `split()`,
    `join`, ASCII case mapping, code-point ordering and `list.sort`. */
module Strings {

  // ---------------------------------------------------------------------------
  // Character classes
  // ---------------------------------------------------------------------------

  /** `c.isspace()`: Python's whitespace set. */
  predicate IsSpace(c: char)
  {
    c == ' ' || ('\t' <= c <= '\r') || ('\U{1c}' <= c <= '\U{1f}')
    || c == '\U{85}' || c == '\U{a0}' || c == '\U{1680}'
    || ('\U{2000}' <= c <= '\U{200a}') || c == '\U{2028}' || c == '\U{2029}'
    || c == '\U{202f}' || c == '\U{205f}' || c == '\U{3000}'
  }

  /** The regular-expression class `[a-zA-Z0-9]`. */
  predicate IsAsciiAlnum(c: char)
  {
    ('a' <= c <= 'z') || ('A' <= c <= 'Z') || ('0' <= c <= '9')
  }

  /** `ord(c) <= 127` */
  predicate IsAscii(c: char)
  {
    c as int <= 127
  }

  predicate AllAlnum(s: string)
  {
    forall k :: 0 <= k < |s| ==> IsAsciiAlnum(s[k])
  }

  /** End of the run of `[a-zA-Z0-9]` characters that starts at `i`. */
  function AlnumEnd(w: string, i: nat): (n: nat)
    requires i <= |w|
    ensures i <= n <= |w|
    ensures AllAlnum(w[i..n])
    ensures n == |w| || !IsAsciiAlnum(w[n])
    decreases |w| - i
  {
    if i == |w| || !IsAsciiAlnum(w[i]) then i
    else
      var n := AlnumEnd(w, i + 1);
      assert w[i..n] == [w[i]] + w[i + 1..n];
      n
  }

  predicate IsUpperAscii(c: char)
  {
    'A' <= c <= 'Z'
  }

  /** `c.lower()` on the ASCII range; every other character is left as it is. */
  function Lower(c: char): (d: char)
    ensures !IsUpperAscii(d)
    ensures IsAsciiAlnum(d) == IsAsciiAlnum(c) && IsSpace(d) == IsSpace(c) && IsAscii(d) == IsAscii(c)
    ensures !IsUpperAscii(c) ==> d == c
  {
    if IsUpperAscii(c) then (c as int + 32) as char else c
  }

  /** `c.upper()` on the ASCII range; every other character is left as it is. */
  function Upper(c: char): (d: char)
    ensures !('a' <= d <= 'z')
    ensures IsAsciiAlnum(d) == IsAsciiAlnum(c) && IsSpace(d) == IsSpace(c) && IsAscii(d) == IsAscii(c)
    ensures !('a' <= c <= 'z') ==> d == c
  {
    if 'a' <= c <= 'z' then (c as int - 32) as char else c
  }

  /** `s.lower()` */
  function LowerStr(s: string): (r: string)
    ensures |r| == |s|
    ensures forall i :: 0 <= i < |s| ==> r[i] == Lower(s[i])
  {
    seq(|s|, i requires 0 <= i < |s| => Lower(s[i]))
  }

  /** No upper-case ASCII letter occurs in `s`. */
  predicate IsLowerCase(s: string)
  {
    forall i :: 0 <= i < |s| ==> !IsUpperAscii(s[i])
  }

  lemma LowerStrIdempotent(s: string)
    ensures IsLowerCase(LowerStr(s)) && LowerStr(LowerStr(s)) == LowerStr(s)
  {
  }

  lemma LowerStrOfLower(s: string)
    requires IsLowerCase(s)
    ensures LowerStr(s) == s
  {
  }

  lemma LowerStrConcat(a: string, b: string)
    ensures LowerStr(a + b) == LowerStr(a) + LowerStr(b)
  {
  }

  // ---------------------------------------------------------------------------
  // Whitespace: strip
  // ---------------------------------------------------------------------------

  predicate IsBlank(s: string)
  {
    forall i :: 0 <= i < |s| ==> IsSpace(s[i])
  }

  /** Neither end of `s` is whitespace: `s.strip() == s`. */
  predicate IsStripped(s: string)
  {
    s == [] || (!IsSpace(s[0]) && !IsSpace(s[|s| - 1]))
  }

  /** `s.lstrip()` */
  function LStrip(s: string): (r: string)
    ensures |r| <= |s|
  {
    if |s| > 0 && IsSpace(s[0]) then LStrip(s[1..]) else s
  }

  /** `lstrip` removes exactly the leading whitespace: what is left is a
      suffix that is empty or starts with a non-space, and everything
      removed is whitespace. */
  lemma {:induction false} LStripSpec(s: string)
    ensures var r := LStrip(s);
            r == s[|s| - |r|..] && (r == [] || !IsSpace(r[0])) &&
            forall i :: 0 <= i < |s| - |r| ==> IsSpace(s[i])
    decreases |s|
  {
    if |s| > 0 && IsSpace(s[0]) {
      LStripSpec(s[1..]);
    }
  }

  /** `s.rstrip()` */
  function RStrip(s: string): (r: string)
    ensures |r| <= |s| && r == s[..|r|]
    ensures r == [] || !IsSpace(r[|r| - 1])
    ensures forall i :: |r| <= i < |s| ==> IsSpace(s[i])
  {
    if |s| > 0 && IsSpace(s[|s| - 1]) then RStrip(s[..|s| - 1]) else s
  }

  /** `s.strip()`: the result is `s` without its leading and trailing whitespace,
      and it is empty exactly when `s` is blank. */
  function Strip(s: string): (r: string)
    ensures IsStripped(r)
    ensures r == [] <==> IsBlank(s)
  {
    LStripSpec(s);
    var l := LStrip(s);
    var r := RStrip(l);
    assert l != [] ==> r != [] by {
      if l != [] { assert !IsSpace(l[0]); }
    }
    assert r != [] ==> !IsBlank(s) by {
      if r != [] { assert s[|s| - |l|] == r[0]; }
    }
    assert r != [] ==> !IsSpace(r[0]) by {
      if r != [] { assert r[0] == l[0]; }
    }
    r
  }

  lemma StripStripped(s: string)
    requires IsStripped(s)
    ensures Strip(s) == s
  {
  }

  /** A stripped non-empty string keeps its value when a space is put in front
      and stripped again (what `x.strip()` sees after `", ".join`). */
  lemma StripAfterSpace(s: string)
    requires IsStripped(s) && s != []
    ensures Strip([' '] + s) == s
  {
    assert LStrip([' '] + s) == LStrip(([' '] + s)[1..]);
    assert ([' '] + s)[1..] == s;
  }

  /** Text that does not start with whitespace only loses trailing
      whitespace: its stripped form is a prefix of it. */
  lemma StripNoLeadingSpace(s: string)
    requires s == [] || !IsSpace(s[0])
    ensures Strip(s) <= s
  {
    assert LStrip(s) == s;
  }

  /** A word at the start of a text is still at the start after stripping. */
  lemma StripKeepsFirstWord(w: string, s: string)
    requires IsWord(w)
    ensures w <= Strip(w + s)
  {
    var t := w + s;
    assert t[0] == w[0];
    assert LStrip(t) == t;
    var r := RStrip(t);
    assert !IsSpace(t[|w| - 1]) by {
      assert t[|w| - 1] == w[|w| - 1];
    }
    assert |r| >= |w|;
    assert r[..|w|] == t[..|w|] == w;
  }

  /** `strip` removes the space after a word. */
  lemma StripWordSpace(w: string)
    requires IsWord(w)
    ensures Strip(w + " ") == w
  {
    var t := w + " ";
    assert t[0] == w[0];
    assert LStrip(t) == t;
    assert t[..|t| - 1] == w;
    assert RStrip(w) == w;
  }

  /** `strip` keeps two words and the space between them. */
  lemma StripWordPair(a: string, b: string)
    requires IsWord(a) && IsWord(b)
    ensures Strip(a + " " + b) == a + " " + b
  {
    var t := a + " " + b;
    assert t[0] == a[0] && t[|t| - 1] == b[|b| - 1];
    StripStripped(t);
  }

  /** A word at the end of a text is still at the end after stripping. */
  lemma StripKeepsLastWord(s: string, w: string)
    requires IsWord(w)
    ensures |w| <= |Strip(s + w)| && Strip(s + w)[|Strip(s + w)| - |w|..] == w
  {
    var t := s + w;
    var l := LStrip(t);
    LStripSpec(t);
    assert !IsSpace(t[|t| - |w|]) by {
      assert t[|t| - |w|] == w[0];
    }
    assert |l| >= |w|;
    assert l[|l| - |w|..] == w;
    assert l[|l| - 1] == w[|w| - 1];
    assert RStrip(l) == l;
  }

  lemma Associative<T>(a: seq<T>, b: seq<T>, c: seq<T>)
    ensures (a + b) + c == a + (b + c)
  {
  }

  lemma EmptyLeft<T>(s: seq<T>)
    ensures [] + s == s
  {
  }

  // ---------------------------------------------------------------------------
  // split(sep) and join
  // ---------------------------------------------------------------------------

  /** `sep.join(parts)` */
  function Join(sep: string, parts: seq<string>): string
    decreases |parts|
  {
    if |parts| == 0 then []
    else if |parts| == 1 then parts[0]
    else parts[0] + sep + Join(sep, parts[1..])
  }

  /** `s.split(d)` for a one-character separator: never empty, and no piece
      holds the separator. */
  function Split(s: string, d: char): (parts: seq<string>)
    ensures |parts| >= 1
    ensures forall k :: 0 <= k < |parts| ==> d !in parts[k]
    decreases |s|
  {
    if |s| == 0 then [[]]
    else
      var rest := Split(s[1..], d);
      if s[0] == d then [[]] + rest
      else
        assert d !in rest[0];
        [[s[0]] + rest[0]] + rest[1..]
  }

  /** Joining the pieces of a split with the separator gives back the input. */
  lemma {:induction false} JoinSplit(s: string, d: char)
    ensures Join([d], Split(s, d)) == s
    decreases |s|
  {
    if |s| > 0 {
      var rest := Split(s[1..], d);
      JoinSplit(s[1..], d);
      if s[0] == d {
        assert Split(s, d) == [[]] + rest;
        assert Join([d], [[]] + rest) == [] + [d] + Join([d], rest);
      } else {
        var parts := [[s[0]] + rest[0]] + rest[1..];
        if |rest| == 1 {
          assert Join([d], parts) == [s[0]] + rest[0];
        } else {
          assert Join([d], rest) == rest[0] + [d] + Join([d], rest[1..]);
          assert parts[1..] == rest[1..];
          assert Join([d], parts) == [s[0]] + rest[0] + [d] + Join([d], rest[1..]);
        }
      }
    }
  }

  /** Splitting a join of separator-free pieces gives back the pieces. */
  lemma {:induction false} SplitJoin(parts: seq<string>, d: char)
    requires |parts| >= 1
    requires forall k :: 0 <= k < |parts| ==> d !in parts[k]
    ensures Split(Join([d], parts), d) == parts
    decreases |parts|, |parts[0]|
  {
    var p := parts[0];
    if |p| == 0 {
      if |parts| == 1 {
      } else {
        SplitJoin(parts[1..], d);
        assert Join([d], parts) == [d] + Join([d], parts[1..]);
        assert ([d] + Join([d], parts[1..]))[1..] == Join([d], parts[1..]);
      }
    } else {
      var tail := [p[1..]] + parts[1..];
      assert d !in p[1..] by {
        assert forall c :: c in p[1..] ==> c in p;
      }
      SplitJoin(tail, d);
      if |parts| == 1 {
        assert Join([d], parts) == p;
        assert Join([d], tail) == p[1..];
      } else {
        assert Join([d], parts) == p + [d] + Join([d], parts[1..]);
        assert tail[1..] == parts[1..];
        assert Join([d], tail) == p[1..] + [d] + Join([d], parts[1..]);
      }
      var s := Join([d], parts);
      assert s[0] == p[0] && s[0] != d;
      assert s[1..] == Join([d], tail);
      assert [p[0]] + p[1..] == p;
    }
  }

  /** Joining with `", "` is joining with `","` after a space is put in front of
      every piece but the first. */
  lemma {:induction false} JoinCommaSpace(parts: seq<string>)
    requires |parts| >= 1
    ensures Join(", ", parts) == Join([','], [parts[0]] + SpaceEach(parts[1..]))
    decreases |parts|
  {
    if |parts| > 1 {
      var a, rest := parts[0], parts[1..];
      JoinCommaSpace(rest);
      var tail := Join([','], [rest[0]] + SpaceEach(rest[1..]));
      assert Join(", ", parts) == a + ", " + tail;
      assert SpaceEach(rest) == [[' '] + rest[0]] + SpaceEach(rest[1..]);
      JoinSpaceFront([','], rest[0], SpaceEach(rest[1..]));
      var r := [a] + SpaceEach(rest);
      assert r[1..] == SpaceEach(rest);
      assert Join([','], r) == a + [','] + ([' '] + tail);
      assert a + ", " + tail == a + [','] + ([' '] + tail);
    }
  }

  /** A space in front of the first piece is a space in front of the
      joined text. */
  lemma JoinSpaceFront(sep: string, x: string, ys: seq<string>)
    ensures Join(sep, [[' '] + x] + ys) == [' '] + Join(sep, [x] + ys)
  {
    if ys != [] {
      assert ([[' '] + x] + ys)[1..] == ys;
      assert ([x] + ys)[1..] == ys;
    }
  }

  /** Every piece with a space put in front. */
  function SpaceEach(parts: seq<string>): (r: seq<string>)
    ensures |r| == |parts| && forall k :: 0 <= k < |r| ==> r[k] == [' '] + parts[k]
  {
    seq(|parts|, k requires 0 <= k < |parts| => [' '] + parts[k])
  }

  /** Each piece followed by a space: the shape of a query string built by
      `query += word + ' '` in a loop. */
  function Terminated(parts: seq<string>): string
  {
    if parts == [] then [] else Terminated(parts[..|parts| - 1]) + (parts[|parts| - 1] + " ")
  }

  lemma {:induction false} JoinSnoc(sep: string, parts: seq<string>, t: string)
    requires |parts| >= 1
    ensures Join(sep, parts + [t]) == Join(sep, parts) + sep + t
    decreases |parts|
  {
    if |parts| == 1 {
      assert parts + [t] == [parts[0], t];
    } else {
      assert (parts + [t])[1..] == parts[1..] + [t];
      JoinSnoc(sep, parts[1..], t);
    }
  }

  /** A string built by appending `word + ' '` is the space-join of the words
      with one space after it. */
  lemma {:induction false} TerminatedJoin(parts: seq<string>)
    requires |parts| >= 1
    ensures Terminated(parts) == Join(" ", parts) + " "
    decreases |parts|
  {
    if |parts| > 1 {
      var init := parts[..|parts| - 1];
      TerminatedJoin(init);
      JoinSnoc(" ", init, parts[|parts| - 1]);
      assert init + [parts[|parts| - 1]] == parts;
    }
  }

  lemma JoinHead(sep: string, parts: seq<string>)
    requires |parts| >= 1 && |parts[0]| > 0
    ensures |Join(sep, parts)| > 0 && Join(sep, parts)[0] == parts[0][0]
  {
  }

  /** The space-join of words starts with the first word followed by a space
      (or ends there). */
  lemma JoinFirstWord(parts: seq<string>)
    requires |parts| >= 1
    ensures parts[0] <= Join(" ", parts)
    ensures |parts| > 1 ==> Join(" ", parts)[|parts[0]|] == ' '
    ensures |parts| == 1 ==> Join(" ", parts) == parts[0]
  {
  }

  lemma {:induction false} JoinLast(sep: string, parts: seq<string>)
    requires |parts| >= 1 && |parts[|parts| - 1]| > 0
    ensures |Join(sep, parts)| > 0
    ensures Join(sep, parts)[|Join(sep, parts)| - 1] == parts[|parts| - 1][|parts[|parts| - 1]| - 1]
    decreases |parts|
  {
    if |parts| > 1 {
      JoinLast(sep, parts[1..]);
    }
  }

  /** The space-join of a non-empty list of words has no surrounding
      whitespace, so `strip` leaves it, and removes one trailing space. */
  lemma StripJoinWords(parts: seq<string>)
    requires |parts| >= 1 && forall k :: 0 <= k < |parts| ==> IsWord(parts[k])
    ensures IsStripped(Join(" ", parts))
    ensures Strip(Join(" ", parts)) == Join(" ", parts)
    ensures Strip(Join(" ", parts) + " ") == Join(" ", parts)
  {
    JoinHead(" ", parts);
    JoinLast(" ", parts);
    EndsOfWords(Join(" ", parts), parts[0], parts[|parts| - 1]);
  }

  /** A string that begins as one word does and ends as another does has
      no surrounding whitespace, and `strip` removes one space after it. */
  lemma EndsOfWords(j: string, first: string, last: string)
    requires IsWord(first) && IsWord(last)
    requires |j| > 0 && j[0] == first[0] && j[|j| - 1] == last[|last| - 1]
    ensures IsStripped(j) && Strip(j) == j && Strip(j + " ") == j
  {
    StripStripped(j);
    StripBeforeSpace(j);
  }

  /** One trailing space on a stripped non-empty string is removed by
      `strip`. */
  lemma StripBeforeSpace(s: string)
    requires IsStripped(s) && s != []
    ensures Strip(s + " ") == s
  {
    var t := s + " ";
    assert LStrip(t) == t;
    assert t[..|t| - 1] == s;
    assert RStrip(t) == RStrip(s);
  }

  // ---------------------------------------------------------------------------
  // split() on whitespace
  // ---------------------------------------------------------------------------

  /** A piece produced by `str.split()`: non-empty, without whitespace. */
  predicate IsWord(w: string)
  {
    |w| > 0 && forall i :: 0 <= i < |w| ==> !IsSpace(w[i])
  }

  /** Index of the first whitespace at or after `i`, or `|t|`. */
  function WordEnd(t: string, i: nat): (n: nat)
    requires i <= |t|
    ensures i <= n <= |t|
    decreases |t| - i
  {
    if i == |t| || IsSpace(t[i]) then i else WordEnd(t, i + 1)
  }

  /** The run from `i` to `WordEnd(t, i)` holds no whitespace and ends at
      whitespace or at the end of `t`. */
  lemma {:induction false} WordEndSpec(t: string, i: nat)
    requires i <= |t|
    ensures var n := WordEnd(t, i);
            (forall k :: i <= k < n ==> !IsSpace(t[k])) && (n == |t| || IsSpace(t[n]))
    decreases |t| - i
  {
    if i < |t| && !IsSpace(t[i]) {
      WordEndSpec(t, i + 1);
    }
  }

  /** `s.split()`: the maximal runs of non-whitespace characters, in order. */
  function Words(s: string): seq<string>
    decreases |s|
  {
    var t := LStrip(s);
    if t == [] then []
    else
      LStripSpec(s);
      var n := WordEnd(t, 0);
      assert n > 0;
      [t[..n]] + Words(t[n..])
  }

  /** Every piece of `split()` is a word. */
  lemma {:induction false} WordsAreWords(s: string)
    ensures forall k :: 0 <= k < |Words(s)| ==> IsWord(Words(s)[k])
    decreases |s|
  {
    var t := LStrip(s);
    if t != [] {
      var n := WordEnd(t, 0);
      var w := t[..n];
      var rest := Words(t[n..]);
      LStripSpec(s);
      WordEndSpec(t, 0);
      WordsAreWords(t[n..]);
      assert Words(s) == [w] + rest;
      forall k | 0 <= k < |Words(s)| ensures IsWord(Words(s)[k]) {
        if k > 0 {
          assert Words(s)[k] == rest[k - 1];
        }
      }
    }
  }

  /** The first piece of `split()` is where the string starts once its
      leading whitespace is stripped. */
  lemma WordsHead(s: string)
    requires Words(s) != []
    ensures Words(s)[0] <= LStrip(s)
  {
    var t := LStrip(s);
    assert Words(s)[0] == t[..WordEnd(t, 0)];
  }

  /** A single word splits into itself. */
  lemma SingleWord(w: string)
    requires IsWord(w)
    ensures Words(w) == [w]
  {
    assert LStrip(w) == w;
    var n := WordEnd(w, 0);
    WordEndSpec(w, 0);
    assert n == |w|;
    assert w[..n] == w && w[n..] == [];
    assert LStrip([]) == [];
  }

  /** A list of `split()` pieces. */
  predicate AllWords(ss: seq<string>)
  {
    forall k :: 0 <= k < |ss| ==> IsWord(ss[k])
  }

  /** `split()` skips leading whitespace. */
  lemma WordsAfterSpace(c: char, s: string)
    requires IsSpace(c)
    ensures Words([c] + s) == Words(s)
  {
    assert ([c] + s)[1..] == s;
  }

  /** The word at the front of `w + s`, when `s` is empty or starts with
      whitespace, is `w`. */
  lemma WordsFront(w: string, s: string)
    requires IsWord(w) && (s == [] || IsSpace(s[0]))
    ensures Words(w + s) == [w] + Words(s)
  {
    var t := w + s;
    assert t[0] == w[0];
    assert LStrip(t) == t;
    WordEndOf(w, s, 0);
    assert t[..|w|] == w && t[|w|..] == s;
  }

  lemma {:induction false} WordEndOf(w: string, s: string, i: nat)
    requires IsWord(w) && (s == [] || IsSpace(s[0])) && i <= |w|
    ensures WordEnd(w + s, i) == |w|
    decreases |w| - i
  {
    var t := w + s;
    if i < |w| {
      assert t[i] == w[i];
      WordEndOf(w, s, i + 1);
    } else if s != [] {
      assert t[i] == s[0];
    }
  }

  /** `" ".join(words).split()` gives back the words. */
  lemma {:induction false} WordsJoin(ws: seq<string>)
    requires AllWords(ws)
    ensures Words(Join(" ", ws)) == ws
    decreases |ws|
  {
    if |ws| == 1 {
      SingleWord(ws[0]);
    } else if |ws| > 1 {
      WordsJoin(ws[1..]);
      WordsJoinStep(ws);
    }
  }

  lemma WordsJoinStep(ws: seq<string>)
    requires |ws| > 1 && IsWord(ws[0])
    requires Words(Join(" ", ws[1..])) == ws[1..]
    ensures Words(Join(" ", ws)) == ws
  {
    var rest := Join(" ", ws[1..]);
    var tail := [' '] + rest;
    Associative(ws[0], [' '], rest);
    assert Join(" ", ws) == ws[0] + tail;
    WordsFront(ws[0], tail);
    WordsAfterSpace(' ', rest);
    assert ws == [ws[0]] + ws[1..];
  }

  /** Every whitespace character is a single space between two non-space
      characters: none at either end and never two in a row. */
  predicate SingleSpaced(r: string)
  {
    forall k :: 0 <= k < |r| && IsSpace(r[k]) ==>
      r[k] == ' ' && 0 < k < |r| - 1 && !IsSpace(r[k - 1]) && !IsSpace(r[k + 1])
  }

  /** In `" ".join(words)` every whitespace character is a single space
      between two words: none at either end and never two in a row. */
  lemma {:induction false} JoinSpacing(ws: seq<string>)
    requires AllWords(ws)
    ensures SingleSpaced(Join(" ", ws))
    decreases |ws|
  {
    if |ws| > 1 {
      var w := ws[0];
      var rest := Join(" ", ws[1..]);
      var r := Join(" ", ws);
      JoinSpacing(ws[1..]);
      JoinHead(" ", ws[1..]);
      assert r == w + [' '] + rest;
      forall k | 0 <= k < |r| && IsSpace(r[k])
        ensures r[k] == ' ' && 0 < k < |r| - 1 && !IsSpace(r[k - 1]) && !IsSpace(r[k + 1])
      {
        if k > |w| {
          assert r[k] == rest[k - |w| - 1];
          assert k - 1 > |w| ==> r[k - 1] == rest[k - 1 - |w| - 1];
          assert r[k + 1] == rest[k + 1 - |w| - 1];
        } else {
          assert k == |w|;
          assert r[k - 1] == w[|w| - 1] && r[k + 1] == rest[0];
        }
      }
    }
  }

  lemma WordsOfEmpty()
    ensures Words([]) == []
  {
  }

  // ---------------------------------------------------------------------------
  // Code-point order on strings and list.sort()
  // ---------------------------------------------------------------------------

  /** Python's `a <= b` on strings: lexicographic on code points, a proper
      prefix comes first. */
  predicate Le(a: string, b: string)
    decreases |a|
  {
    |a| == 0 || (|b| > 0 && (a[0] < b[0] || (a[0] == b[0] && Le(a[1..], b[1..]))))
  }

  lemma {:induction false} LeRefl(a: string)
    ensures Le(a, a)
    decreases |a|
  {
    if |a| > 0 {
      LeRefl(a[1..]);
    }
  }

  lemma {:induction false} LeTotal(a: string, b: string)
    ensures Le(a, b) || Le(b, a)
    decreases |a|
  {
    if |a| > 0 && |b| > 0 && a[0] == b[0] {
      LeTotal(a[1..], b[1..]);
    }
  }

  lemma {:induction false} LeTrans(a: string, b: string, c: string)
    requires Le(a, b) && Le(b, c)
    ensures Le(a, c)
    decreases |a|
  {
    if |a| > 0 && a[0] == b[0] && b[0] == c[0] {
      LeTrans(a[1..], b[1..], c[1..]);
    }
  }

  lemma {:induction false} LeAntisym(a: string, b: string)
    requires Le(a, b) && Le(b, a)
    ensures a == b
    decreases |a|
  {
    if |a| > 0 {
      LeAntisym(a[1..], b[1..]);
      assert a == [a[0]] + a[1..] && b == [b[0]] + b[1..];
    }
  }

  predicate Sorted(s: seq<string>)
  {
    forall i, j :: 0 <= i < j < |s| ==> Le(s[i], s[j])
  }

  /** Each element is in order with the next one. */
  predicate Chained(s: seq<string>)
    decreases |s|
  {
    |s| < 2 || (Le(s[0], s[1]) && Chained(s[1..]))
  }

  /** A list whose neighbours are in order is sorted. */
  lemma {:induction false} ChainedSorted(s: seq<string>)
    requires Chained(s)
    ensures Sorted(s)
    decreases |s|
  {
    if |s| > 1 {
      ChainedSorted(s[1..]);
      forall i, j | 0 <= i < j < |s| ensures Le(s[i], s[j]) {
        if i > 0 {
          assert Le(s[1..][i - 1], s[1..][j - 1]);
        } else if j > 1 {
          assert Le(s[1..][0], s[1..][j - 1]);
          LeTrans(s[0], s[1], s[j]);
        }
      }
    }
  }

  function Insert(x: string, s: seq<string>): (r: seq<string>)
    requires Sorted(s)
    ensures Sorted(r) && multiset(r) == multiset(s) + multiset{x}
    ensures |r| == |s| + 1
    decreases |s|
  {
    if s == [] then [x]
    else if Le(x, s[0]) then
      InsertFront(x, s);
      [x] + s
    else
      LeTotal(x, s[0]);
      var t := Insert(x, s[1..]);
      InsertBehind(x, s, t);
      [s[0]] + t
  }

  /** An element below the head of a sorted list goes in front of it. */
  lemma InsertFront(x: string, s: seq<string>)
    requires Sorted(s) && s != [] && Le(x, s[0])
    ensures Sorted([x] + s)
  {
    forall j | 0 < j < |s| ensures Le(x, s[j]) { LeTrans(x, s[0], s[j]); }
  }

  /** An element above the head of a sorted list goes into its tail. */
  lemma InsertBehind(x: string, s: seq<string>, t: seq<string>)
    requires Sorted(s) && s != [] && Le(s[0], x)
    requires Sorted(t) && multiset(t) == multiset(s[1..]) + multiset{x}
    ensures Sorted([s[0]] + t) && multiset([s[0]] + t) == multiset(s) + multiset{x}
  {
    forall k | 0 <= k < |t| ensures Le(s[0], t[k]) {
      assert t[k] in multiset(t);
      if t[k] != x {
        assert t[k] in multiset(s[1..]);
        var j :| 0 <= j < |s[1..]| && s[1..][j] == t[k];
        assert s[j + 1] == t[k];
      }
    }
    assert s == [s[0]] + s[1..];
  }

  /** `list.sort()` on strings: a sorted permutation of the input. */
  function Sort(s: seq<string>): (r: seq<string>)
    ensures Sorted(r) && multiset(r) == multiset(s) && |r| == |s|
  {
    if s == [] then []
    else
      assert s == [s[0]] + s[1..];
      Insert(s[0], Sort(s[1..]))
  }

  /** The first element of a sorted non-empty list is below all of its elements. */
  lemma SortedHeadLeast(a: seq<string>, x: string)
    requires Sorted(a) && x in a
    ensures Le(a[0], x)
  {
    var i :| 0 <= i < |a| && a[i] == x;
    if i == 0 {
      LeRefl(x);
    }
  }

  /** There is only one sorted permutation of a list of strings, so `Sort`
      agrees with any correct sorting algorithm. */
  lemma {:induction false} SortedPermutationUnique(a: seq<string>, b: seq<string>)
    requires Sorted(a) && Sorted(b) && multiset(a) == multiset(b)
    ensures a == b
    decreases |a|
  {
    assert |a| == |multiset(a)| == |multiset(b)| == |b|;
    if |a| > 0 {
      assert a[0] in multiset(b) && b[0] in multiset(a);
      SortedHeadLeast(a, b[0]);
      SortedHeadLeast(b, a[0]);
      LeAntisym(a[0], b[0]);
      MultisetTails(a, b);
      SortedPermutationUnique(a[1..], b[1..]);
    }
  }

  lemma MultisetTails(a: seq<string>, b: seq<string>)
    requires |a| > 0 && |b| > 0 && a[0] == b[0] && multiset(a) == multiset(b)
    ensures multiset(a[1..]) == multiset(b[1..])
  {
    assert a == [a[0]] + a[1..] && b == [b[0]] + b[1..];
    calc {
      multiset(a[1..]);
      multiset(a) - multiset{a[0]};
      multiset(b) - multiset{b[0]};
      multiset(b[1..]);
    }
  }

  lemma SortSorted(s: seq<string>)
    requires Sorted(s)
    ensures Sort(s) == s
  {
    SortedPermutationUnique(Sort(s), s);
  }
}
