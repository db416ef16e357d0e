/** Search-query rewriting of the newer SQLite back end
    (`SQLiteProvider._process_query` in `oce/providers/sqlite/sqlite.py`).

    The raw query is sanitised (an unbalanced `"` is dropped, `**` becomes
    `*`) and split into words. Each word adds to up to four query strings:
    the canonical query shown back to the user, the full-text (FTS) query,
    the query against the suffixes table, and the suffix query with full
    terms. Words of the form `[field:][-]*abc[*]` go to the suffix queries
    only. A word `NOT`, or a leading `-`, negates the next term. Finally
    the `fullscan:1` rule of the query syntax in use is applied.

    Two steps of the source are corrected here (see `Variant`): a negated
    plain term in standard syntax keeps its `-`, and a negated suffix term
    ends its full-terms piece with a space like every other piece. */
module SearchQuery {
  import opened Strings
  import opened Wrappers
  import QueryText

  /** `enhanced_query_syntax` of the SQLite module: `NOT` versus `-`. */
  datatype Mode = Standard | Enhanced

  /** The word step as the source has it, or with the two corrections. */
  datatype Variant = AsWritten | Corrected

  /** The loop variables: the four query strings, the three found-positive
      flags and `prev_was_not`. */
  datatype State = State(ret: string, fts: string, suf: string, full: string,
                         ftsPos: bool, sufPos: bool, fullPos: bool, prevNot: bool)

  const Start := State("", "", "", "", false, false, false, false)

  /** The four stripped results, in the order the source returns them. */
  datatype Output = Output(ret: string, fts: string, suf: string, full: string)

  /** The groups of a regular-expression match: the optional field with its
      colon, the optional `-`, and the term. */
  datatype Parsed = Parsed(field: string, neg: bool, term: string)

  const Fullscan := "fullscan:1"

  // ---------------------------------------------------------------------------
  // Words
  // ---------------------------------------------------------------------------

  /** The word starts with one of the operators `OR`, `AND`, `NOT`, `NEAR`
      (a prefix test, so `ORANGE` counts). */
  predicate StartsWithOperator(w: string)
  {
    "OR" <= w || "AND" <= w || "NOT" <= w || "NEAR" <= w
  }

  /** The word as the loop sees it: lower-cased unless it starts with an
      operator. */
  function Normal(raw: string): (w: string)
    ensures |w| == |raw|
    ensures !StartsWithOperator(raw) ==> IsLowerCase(w)
    ensures StartsWithOperator(raw) ==> w == raw
    ensures forall k :: 0 <= k < |raw| ==> IsSpace(w[k]) == IsSpace(raw[k])
  {
    if StartsWithOperator(raw) then raw
    else
      LowerStrIdempotent(raw);
      LowerStr(raw)
  }

  /** Length of a leading `[a-zA-Z0-9]+:` group, colon included, or 0. */
  function FieldLen(w: string): (n: nat)
    ensures n <= |w|
    ensures n > 0 ==> n >= 2 && w[n - 1] == ':' && AllAlnum(w[..n - 1])
  {
    var a := AlnumEnd(w, 0);
    if 0 < a < |w| && w[a] == ':' then a + 1 else 0
  }

  /** `[*][a-zA-Z0-9]+[*]?` */
  predicate IsStarTerm(t: string)
  {
    |t| >= 2 && t[0] == '*' &&
    (AllAlnum(t[1..]) || (|t| >= 3 && t[|t| - 1] == '*' && AllAlnum(t[1..|t| - 1])))
  }

  /** `re.findall(r'^([a-zA-Z0-9]+[:])?(-)?([*][a-zA-Z0-9]+[*]?)$', word)`:
      the match when there is one. A field cannot be skipped to make the
      rest match, since the rest must then start with `-` or `*`. */
  function SuffixParse(w: string): (p: Option<Parsed>)
    ensures p.Some? ==> p.value.field + (if p.value.neg then "-" else "") + p.value.term == w
    ensures p.Some? ==> IsStarTerm(p.value.term)
  {
    var f := FieldLen(w);
    var r := w[f..];
    var neg := |r| > 0 && r[0] == '-';
    var t := if neg then r[1..] else r;
    if IsStarTerm(t) then
      var m := if neg then "-" else "";
      assert r == m + t by {
        if neg {
          assert r == [r[0]] + r[1..];
        }
      }
      assert w == w[..f] + r;
      Associative(w[..f], m, t);
      Some(Parsed(w[..f], neg, t))
    else None
  }

  /** `re.findall(r'^([a-zA-Z0-9]+:)?(-)?(.+)$', word)[0]` on a word (no
      line break in it): the field is taken only when something follows it,
      and the `-` only when something follows it. */
  function PartsParse(w: string): (p: Parsed)
    ensures p.field + (if p.neg then "-" else "") + p.term == w
    ensures |w| > 0 ==> |p.term| > 0
  {
    var a := AlnumEnd(w, 0);
    var f := if 0 < a && a + 1 < |w| && w[a] == ':' then a + 1 else 0;
    var r := w[f..];
    var neg := |r| >= 2 && r[0] == '-';
    assert w == w[..f] + r;
    assert neg ==> r == "-" + r[1..];
    Parsed(w[..f], neg, if neg then r[1..] else r)
  }

  // ---------------------------------------------------------------------------
  // One word
  // ---------------------------------------------------------------------------

  /** The keyword branches: the pieces added to the canonical and the FTS
      query, with `standard_not` put after the field. */
  function KeywordPieces(word: string, sn: string): (k: Option<(string, string)>)
  {
    if word == "is:commented" || word == "has:comment" then Some(("has:" + sn + "comment ", "comment:" + sn + "cmt "))
    else if word == "is:flagged" || word == "has:flag" then Some(("is:" + sn + "flagged ", "flag:" + sn + "1 "))
    else if word == "is:tagged" || word == "has:tag" then Some(("has:" + sn + "tag ", "tag:" + sn + "tags "))
    else if word == "has:language" || word == "has:lang" then Some(("has:" + sn + "language ", "language:" + sn + "lang "))
    else None
  }

  /** The piece a plain (non-keyword) word adds to the canonical and the FTS
      query. As written the word goes in without `standard_not`, so in
      standard syntax a negated term loses its `-`. */
  function PlainPiece(v: Variant, word: string, p: Parsed, sn: string): string
  {
    if v == AsWritten then word + " " else p.field + sn + p.term + " "
  }

  /** A word matching the suffix form: the canonical query gets the term,
      the suffix queries get it without its leading `*`, the FTS query
      nothing. As written a negated term's full-terms piece has no space
      after it. */
  function SuffixStep(v: Variant, mode: Mode, st: State, p: Parsed): (st': State)
    requires |p.term| > 0
  {
    var t1 := p.term[1..];
    if p.neg || st.prevNot then
      var lead := if mode == Enhanced then "NOT " + p.field else p.field + "-";
      var sep := if v == AsWritten then "" else " ";
      st.(ret := st.ret + (lead + p.term + " "), suf := st.suf + (lead + t1 + " "),
          full := st.full + (lead + t1 + sep), prevNot := false)
    else
      st.(ret := st.ret + (p.field + p.term + " "), suf := st.suf + (p.field + t1 + " "),
          full := st.full + (p.field + t1 + " "), sufPos := true, fullPos := true, prevNot := false)
  }

  /** Any other word: the negation goes in front (`NOT `) or after the
      field (`-`), and a word that is not negated sets the FTS flag. */
  function PlainStep(v: Variant, mode: Mode, st: State, w: string, p: Parsed): (st': State)
  {
    var negated := p.neg || st.prevNot;
    var sn := if negated && mode == Standard then "-" else "";
    var word := if negated then p.field + p.term else w;
    var s1 := if negated && mode == Enhanced then st.(ret := st.ret + "NOT ", fts := st.fts + "NOT ")
              else st.(ftsPos := st.ftsPos || !negated);
    Emit(v, s1, word, p, sn)
  }

  /** The keyword, `lang:`, `&` and plain branches, with `standard_not`
      `sn`. `&` skips the `prev_was_not` reset. */
  function Emit(v: Variant, st: State, word: string, p: Parsed, sn: string): (st': State)
  {
    var k := KeywordPieces(word, sn);
    if k.Some? then
      st.(ret := st.ret + k.value.0, fts := st.fts + k.value.1, prevNot := false)
    else if "lang:" <= word then
      var piece := "language:" + sn + word[5..] + " ";
      st.(ret := st.ret + piece, fts := st.fts + piece, prevNot := false)
    else if word == "&" then st
    else
      var piece := PlainPiece(v, word, p, sn);
      st.(ret := st.ret + piece, fts := st.fts + piece, prevNot := false)
  }

  /** The body of the word loop. */
  function Step(v: Variant, mode: Mode, st: State, raw: string): State
  {
    var w := Normal(raw);
    if w == "NOT" then st.(prevNot := true)
    else
      var sp := SuffixParse(w);
      if sp.Some? then SuffixStep(v, mode, st, sp.value)
      else PlainStep(v, mode, st, w, PartsParse(w))
  }

  /** The loop over the words, from `Start`. */
  function Fold(v: Variant, mode: Mode, words: seq<string>): State
  {
    if words == [] then Start
    else Step(v, mode, Fold(v, mode, words[..|words| - 1]), words[|words| - 1])
  }

  /** The `fullscan:1` rule for one FTS or suffix query, then `strip`:
      in enhanced syntax a query starting with `NOT ` gets it in front, in
      standard syntax a query without a positive term gets it at the end. */
  function Fullscanned(mode: Mode, x: string, positive: bool): string
  {
    if mode == Enhanced then Strip(if "NOT " <= x then "fullscan:1 " + x else x)
    else Strip(if positive then x else x + Fullscan)
  }

  /** The end of `_process_query`: the rule for the three MATCH queries,
      `strip` for all four. */
  function Finish(mode: Mode, st: State): Output
  {
    Output(Strip(st.ret), Fullscanned(mode, st.fts, st.ftsPos),
           Fullscanned(mode, st.suf, st.sufPos), Fullscanned(mode, st.full, st.fullPos))
  }

  /** The query after the clean-up, before `split()`. */
  function Sanitise(query: string): string
  {
    QueryText.CollapseStars(QueryText.DropUnbalancedQuote(query))
  }

  /** `_process_query(query)` */
  function Process(v: Variant, mode: Mode, query: string): Output
  {
    Finish(mode, Fold(v, mode, Words(Sanitise(query))))
  }

  // ---------------------------------------------------------------------------
  // The loop
  // ---------------------------------------------------------------------------

  /** The word loop of `_process_query`, as written or with both
      corrections. */
  method Scan(v: Variant, mode: Mode, words: seq<string>) returns (st: State)
    ensures st == Fold(v, mode, words)
  {
    st := Start;
    var i := 0;
    while i < |words|
      invariant i <= |words|
      invariant st == Fold(v, mode, words[..i])
    {
      FoldNext(v, mode, words, i);
      st := ScanWord(v, mode, st, words[i]);
      i := i + 1;
    }
    assert words[..i] == words;
  }

  /** The fold over one more word is one more step. */
  lemma FoldNext(v: Variant, mode: Mode, words: seq<string>, i: nat)
    requires i < |words|
    ensures Fold(v, mode, words[..i + 1]) == Step(v, mode, Fold(v, mode, words[..i]), words[i])
  {
    assert words[..i + 1][..i] == words[..i];
  }

  /** The loop body: `NOT` is remembered, a word in suffix form goes to
      the suffix queries, any other word to the FTS query. */
  method ScanWord(v: Variant, mode: Mode, st: State, raw: string) returns (st': State)
    ensures st' == Step(v, mode, st, raw)
  {
    var word := Normal(raw);
    if word == "NOT" {
      st' := st.(prevNot := true);
    } else {
      var sp := SuffixParse(word);
      if sp.Some? {
        st' := SuffixWord(v, mode, st, sp.value);
      } else {
        st' := PlainWord(v, mode, st, word, PartsParse(word));
      }
    }
  }

  /** The loop body for a word in suffix form. */
  method SuffixWord(v: Variant, mode: Mode, st: State, p: Parsed) returns (st': State)
    requires |p.term| > 0
    ensures st' == SuffixStep(v, mode, st, p)
  {
    var ret, suf, full := st.ret, st.suf, st.full;
    var sufPos, fullPos := st.sufPos, st.fullPos;
    var field, term := p.field, p.term;
    if p.neg || st.prevNot {
      var sep := if v == AsWritten then "" else " ";
      if mode == Enhanced {
        ret := ret + ("NOT " + field + term + " ");
        suf := suf + ("NOT " + field + term[1..] + " ");
        full := full + ("NOT " + field + term[1..] + sep);
      } else {
        ret := ret + (field + "-" + term + " ");
        suf := suf + (field + "-" + term[1..] + " ");
        full := full + (field + "-" + term[1..] + sep);
      }
    } else {
      ret := ret + (field + term + " ");
      suf := suf + (field + term[1..] + " ");
      sufPos := true;
      full := full + (field + term[1..] + " ");
      fullPos := true;
    }
    st' := st.(ret := ret, suf := suf, full := full, sufPos := sufPos, fullPos := fullPos, prevNot := false);
  }

  /** The loop body for any other word (`word` already normalised). */
  method PlainWord(v: Variant, mode: Mode, st: State, word: string, p: Parsed) returns (st': State)
    ensures st' == PlainStep(v, mode, st, word, p)
  {
    var ret, fts, ftsPos := st.ret, st.fts, st.ftsPos;
    var word := word;
    var standardNot := "";
    if p.neg || st.prevNot {
      if mode == Enhanced {
        ret := ret + "NOT ";
        fts := fts + "NOT ";
      } else {
        standardNot := "-";
      }
      word := p.field + p.term;
    } else {
      ftsPos := true;
    }
    st' := EmitWord(v, st.(ret := ret, fts := fts, ftsPos := ftsPos), word, p, standardNot);
  }

  /** The keyword, `lang:`, `&` and plain branches of the loop body. */
  method EmitWord(v: Variant, st: State, word: string, p: Parsed, standardNot: string) returns (st': State)
    ensures st' == Emit(v, st, word, p, standardNot)
  {
    var ret, fts, prevNot := st.ret, st.fts, st.prevNot;
    if word == "is:commented" || word == "has:comment" {
      ret := ret + ("has:" + standardNot + "comment ");
      fts := fts + ("comment:" + standardNot + "cmt ");
      prevNot := false;
    } else if word == "is:flagged" || word == "has:flag" {
      ret := ret + ("is:" + standardNot + "flagged ");
      fts := fts + ("flag:" + standardNot + "1 ");
      prevNot := false;
    } else if word == "is:tagged" || word == "has:tag" {
      ret := ret + ("has:" + standardNot + "tag ");
      fts := fts + ("tag:" + standardNot + "tags ");
      prevNot := false;
    } else if word == "has:language" || word == "has:lang" {
      ret := ret + ("has:" + standardNot + "language ");
      fts := fts + ("language:" + standardNot + "lang ");
      prevNot := false;
    } else if "lang:" <= word {
      var language := word[5..];
      ret := ret + ("language:" + standardNot + language + " ");
      fts := fts + ("language:" + standardNot + language + " ");
      prevNot := false;
    } else if word != "&" {
      var piece := if v == AsWritten then word + " " else p.field + standardNot + p.term + " ";
      ret := ret + piece;
      fts := fts + piece;
      prevNot := false;
    }
    st' := st.(ret := ret, fts := fts, prevNot := prevNot);
  }

  /** `_process_query`: clean-up, `split()`, the word loop and the
      `fullscan:1` rule, as written or with both corrections. */
  method ProcessQuery(v: Variant, mode: Mode, query: string) returns (out: Output)
    ensures out == Process(v, mode, query)
  {
    var words := Words(Sanitise(query));
    var st := Scan(v, mode, words);
    out := FinishQuery(mode, st);
  }

  /** The `fullscan:1` rule and the final `strip` of the four queries. */
  method FinishQuery(mode: Mode, st: State) returns (out: Output)
    ensures out == Finish(mode, st)
  {
    var ret, fts, suf, full := st.ret, st.fts, st.suf, st.full;
    if mode == Enhanced {
      if "NOT " <= fts {
        fts := "fullscan:1 " + fts;
      }
      if "NOT " <= suf {
        suf := "fullscan:1 " + suf;
      }
      if "NOT " <= full {
        full := "fullscan:1 " + full;
      }
    } else {
      if !st.ftsPos {
        fts := fts + Fullscan;
      }
      if !st.sufPos {
        suf := suf + Fullscan;
      }
      if !st.fullPos {
        full := full + Fullscan;
      }
    }
    assert Strip(fts) == Fullscanned(mode, st.fts, st.ftsPos);
    assert Strip(suf) == Fullscanned(mode, st.suf, st.sufPos);
    assert Strip(full) == Fullscanned(mode, st.full, st.fullPos);
    out := Output(Strip(ret), Strip(fts), Strip(suf), Strip(full));
  }

  // ---------------------------------------------------------------------------
  // Properties of the word step
  // ---------------------------------------------------------------------------

  predicate NoSpace(s: string)
  {
    forall k :: 0 <= k < |s| ==> !IsSpace(s[k])
  }

  /** Empty, or starting with a character that is not whitespace. */
  predicate Lead(s: string)
  {
    s == [] || !IsSpace(s[0])
  }

  /** Empty, or ending with a space, so that the next piece stays a word
      of its own. */
  predicate Spaced(s: string)
  {
    s == [] || s[|s| - 1] == ' '
  }

  predicate Heads(st: State)
  {
    Lead(st.ret) && Lead(st.fts) && Lead(st.suf) && Lead(st.full)
  }

  predicate Ends(st: State)
  {
    Spaced(st.ret) && Spaced(st.fts) && Spaced(st.suf) && Spaced(st.full)
  }

  /** `b` continues `a`: every query string only grew and no flag was
      cleared. */
  predicate Extends(a: State, b: State)
  {
    a.ret <= b.ret && a.fts <= b.fts && a.suf <= b.suf && a.full <= b.full &&
    (a.ftsPos ==> b.ftsPos) && (a.sufPos ==> b.sufPos) && (a.fullPos ==> b.fullPos)
  }

  /** The groups of a word have no whitespace in them. */
  lemma GroupsOfWord(w: string, p: Parsed)
    requires NoSpace(w) && p.field + (if p.neg then "-" else "") + p.term == w
    ensures NoSpace(p.field) && NoSpace(p.term)
  {
    var m := if p.neg then "-" else "";
    forall k | 0 <= k < |p.field| ensures !IsSpace(p.field[k]) {
      assert p.field[k] == w[k];
    }
    forall k | 0 <= k < |p.term| ensures !IsSpace(p.term[k]) {
      assert p.term[k] == w[|p.field| + |m| + k];
    }
  }

  /** Appending a piece that does not start with whitespace. */
  lemma Append(s: string, x: string)
    requires Lead(x)
    ensures s <= s + x
    ensures Lead(s) ==> Lead(s + x)
    ensures Spaced(s) && Spaced(x) ==> Spaced(s + x)
  {
    if s == [] {
      assert s + x == x;
    }
  }

  /** A suffix-form word extends the canonical and the two suffix queries
      by pieces that start with no whitespace and (corrected) end with a
      space, sets the suffix flags when it is not negated, and leaves the
      FTS query alone. */
  lemma SuffixStepShape(v: Variant, mode: Mode, st: State, p: Parsed)
    requires NoSpace(p.field) && NoSpace(p.term) && |p.term| >= 2
    ensures Extends(st, SuffixStep(v, mode, st, p))
    ensures Heads(st) ==> Heads(SuffixStep(v, mode, st, p))
    ensures v == Corrected && Ends(st) ==> Ends(SuffixStep(v, mode, st, p))
    ensures SuffixStep(v, mode, st, p).fts == st.fts
    ensures SuffixStep(v, mode, st, p).ftsPos == st.ftsPos
  {
    var t1 := p.term[1..];
    assert !IsSpace(t1[0]);
    var st' := SuffixStep(v, mode, st, p);
    if p.neg || st.prevNot {
      var lead := if mode == Enhanced then "NOT " + p.field else p.field + "-";
      var sep := if v == AsWritten then "" else " ";
      assert Lead(lead) by {
        if mode == Standard && p.field != [] {
          assert lead[0] == p.field[0];
        }
      }
      Append(st.ret, lead + p.term + " ");
      Append(st.suf, lead + t1 + " ");
      Append(st.full, lead + t1 + sep);
    } else {
      assert Lead(p.field + p.term + " ") by {
        if p.field != [] {
          assert (p.field + p.term + " ")[0] == p.field[0];
        }
      }
      assert Lead(p.field + t1 + " ") by {
        if p.field != [] {
          assert (p.field + t1 + " ")[0] == p.field[0];
        }
      }
      Append(st.ret, p.field + p.term + " ");
      Append(st.suf, p.field + t1 + " ");
      Append(st.full, p.field + t1 + " ");
    }
  }

  /** The keyword, `lang:`, `&` and plain branches extend the canonical and
      the FTS query by one piece each, starting with no whitespace and
      (corrected) ending with a space, and change no flag. */
  lemma EmitShape(v: Variant, st: State, word: string, p: Parsed, sn: string)
    requires NoSpace(word) && |word| > 0
    requires NoSpace(p.field) && NoSpace(p.term) && |p.term| > 0
    requires sn == "" || sn == "-"
    ensures Extends(st, Emit(v, st, word, p, sn))
    ensures Heads(st) ==> Heads(Emit(v, st, word, p, sn))
    ensures Ends(st) ==> Ends(Emit(v, st, word, p, sn))
  {
    EmitKeeps(v, st, word, p, sn);
    var a, b := EmitPieces(v, st, word, p, sn);
    Append(st.ret, a);
    Append(st.fts, b);
  }

  /** What one keyword, `lang:`, `&` or plain word appends to the canonical
      and to the FTS query. */
  lemma EmitPieces(v: Variant, st: State, word: string, p: Parsed, sn: string) returns (a: string, b: string)
    requires NoSpace(word) && |word| > 0
    requires NoSpace(p.field) && NoSpace(p.term) && |p.term| > 0
    requires sn == "" || sn == "-"
    ensures Emit(v, st, word, p, sn).ret == st.ret + a
    ensures Emit(v, st, word, p, sn).fts == st.fts + b
    ensures Lead(a) && Lead(b) && Spaced(a) && Spaced(b)
  {
    var k := KeywordPieces(word, sn);
    if k.Some? {
      KeywordPiecesShape(word, sn);
      a, b := k.value.0, k.value.1;
    } else if "lang:" <= word {
      a := "language:" + sn + word[5..] + " ";
      SpaceLast("language:" + sn + word[5..]);
      b := a;
    } else if word == "&" {
      a, b := [], [];
      assert st.ret + a == st.ret && st.fts + b == st.fts;
    } else {
      a := PlainPiece(v, word, p, sn);
      PlainPieceShape(v, word, p, sn);
      b := a;
    }
  }

  /** A plain word's piece starts with no whitespace and ends with a space. */
  lemma PlainPieceShape(v: Variant, word: string, p: Parsed, sn: string)
    requires NoSpace(word) && |word| > 0
    requires NoSpace(p.field) && NoSpace(p.term) && |p.term| > 0
    requires sn == "" || sn == "-"
    ensures Lead(PlainPiece(v, word, p, sn)) && Spaced(PlainPiece(v, word, p, sn))
  {
    var piece := PlainPiece(v, word, p, sn);
    if v == AsWritten {
      assert piece[0] == word[0];
    } else if p.field != [] {
      assert piece[0] == p.field[0];
    } else if sn == [] {
      assert piece[0] == p.term[0];
    }
    SpaceLast(if v == AsWritten then word else p.field + sn + p.term);
  }

  lemma SpaceLast(a: string)
    ensures Spaced(a + " ")
  {
  }

  /** The keyword pieces start with a letter and end with a space. */
  lemma KeywordPiecesShape(word: string, sn: string)
    ensures KeywordPieces(word, sn).Some? ==>
      var k := KeywordPieces(word, sn).value;
      Lead(k.0) && Lead(k.1) && Spaced(k.0) && Spaced(k.1)
  {
    var k := KeywordPieces(word, sn);
    if k.Some? {
      var a, b := k.value.0, k.value.1;
      assert a[|a| - 1] == ' ' && b[|b| - 1] == ' ';
    }
  }

  /** The keyword, `lang:`, `&` and plain branches touch neither the suffix
      queries nor a flag, and use up a pending `NOT` unless the word is `&`. */
  lemma EmitKeeps(v: Variant, st: State, word: string, p: Parsed, sn: string)
    ensures var st' := Emit(v, st, word, p, sn);
      st'.suf == st.suf && st'.full == st.full &&
      st'.ftsPos == st.ftsPos && st'.sufPos == st.sufPos && st'.fullPos == st.fullPos &&
      (st'.prevNot <==> st.prevNot && word == "&")
  {
    if word == "&" {
      assert KeywordPieces(word, sn).None?;
      assert !("lang:" <= word);
    }
  }

  /** The same for a word outside the suffix form, after the negation is
      taken into account: a leading `NOT ` piece in enhanced syntax. */
  lemma PlainStepShape(v: Variant, mode: Mode, st: State, w: string)
    requires IsWord(w)
    ensures Extends(st, PlainStep(v, mode, st, w, PartsParse(w)))
    ensures Heads(st) ==> Heads(PlainStep(v, mode, st, w, PartsParse(w)))
    ensures Ends(st) ==> Ends(PlainStep(v, mode, st, w, PartsParse(w)))
    ensures PlainStep(v, mode, st, w, PartsParse(w)).suf == st.suf
    ensures PlainStep(v, mode, st, w, PartsParse(w)).full == st.full
  {
    var p := PartsParse(w);
    GroupsOfWord(w, p);
    var negated := p.neg || st.prevNot;
    var sn := if negated && mode == Standard then "-" else "";
    var word := if negated then p.field + p.term else w;
    assert NoSpace(word) && |word| > 0;
    var s1 := if negated && mode == Enhanced then st.(ret := st.ret + "NOT ", fts := st.fts + "NOT ")
              else st.(ftsPos := st.ftsPos || !negated);
    assert PlainStep(v, mode, st, w, p) == Emit(v, s1, word, p, sn);
    EmitShape(v, s1, word, p, sn);
    EmitKeeps(v, s1, word, p, sn);
    var s2 := Emit(v, s1, word, p, sn);
    if negated && mode == Enhanced {
      Append(st.ret, "NOT ");
      Append(st.fts, "NOT ");
      assert Heads(st) ==> Heads(s1);
      assert Ends(st) ==> Ends(s1);
      PrefixTrans(st.ret, s1.ret, s2.ret);
      PrefixTrans(st.fts, s1.fts, s2.fts);
    }
  }

  lemma PrefixTrans(a: string, b: string, c: string)
    requires a <= b && b <= c
    ensures a <= c
  {
    assert a == c[..|b|][..|a|];
  }

  /** One word extends the state; the query strings never start with
      whitespace; with the corrections every one of them ends with a space. */
  lemma StepShape(v: Variant, mode: Mode, st: State, raw: string)
    requires IsWord(raw)
    ensures Extends(st, Step(v, mode, st, raw))
    ensures Heads(st) ==> Heads(Step(v, mode, st, raw))
    ensures v == Corrected && Ends(st) ==> Ends(Step(v, mode, st, raw))
  {
    var w := Normal(raw);
    if w != "NOT" {
      var sp := SuffixParse(w);
      if sp.Some? {
        GroupsOfWord(w, sp.value);
        SuffixStepShape(v, mode, st, sp.value);
      } else {
        PlainStepShape(v, mode, st, w);
      }
    }
  }

  /** Suffix-form words go to the suffix queries only, every other word to
      the FTS query only; each flag is set exactly by a word of its kind
      that is not negated. */
  lemma StepRoutes(v: Variant, mode: Mode, st: State, raw: string)
    ensures var w := Normal(raw); var st' := Step(v, mode, st, raw);
      var positive := w != "NOT" && !st.prevNot;
      (SuffixParse(w).Some? ==> st'.fts == st.fts && st'.ftsPos == st.ftsPos) &&
      (SuffixParse(w).None? ==> st'.suf == st.suf && st'.full == st.full) &&
      (st'.ftsPos <==> st.ftsPos || (positive && SuffixParse(w).None? && !PartsParse(w).neg)) &&
      (st'.sufPos <==> st.sufPos || (positive && SuffixParse(w).Some? && !SuffixParse(w).value.neg)) &&
      (st'.fullPos <==> st.fullPos || (positive && SuffixParse(w).Some? && !SuffixParse(w).value.neg))
  {
    var w := Normal(raw);
    if w != "NOT" && SuffixParse(w).None? {
      PlainKeeps(v, mode, st, w);
    }
  }

  /** What a word outside the suffix form does to the flags and to a
      pending `NOT`. */
  lemma PlainKeeps(v: Variant, mode: Mode, st: State, w: string)
    ensures var p := PartsParse(w); var st' := PlainStep(v, mode, st, w, p);
      var negated := p.neg || st.prevNot;
      st'.suf == st.suf && st'.full == st.full && st'.sufPos == st.sufPos && st'.fullPos == st.fullPos &&
      (st'.ftsPos <==> st.ftsPos || !negated) &&
      (st'.prevNot <==> st.prevNot && p.field + p.term == "&")
  {
    var p := PartsParse(w);
    var negated := p.neg || st.prevNot;
    var sn := if negated && mode == Standard then "-" else "";
    var word := if negated then p.field + p.term else w;
    var s1 := if negated && mode == Enhanced then st.(ret := st.ret + "NOT ", fts := st.fts + "NOT ")
              else st.(ftsPos := st.ftsPos || !negated);
    EmitKeeps(v, s1, word, p, sn);
    if !negated {
      assert w == p.field + p.term;
    }
  }

  /** A word `NOT` negates the next word; `&` (also `-&`, `field:&`) passes
      a pending `NOT` on; any other word uses it up. */
  lemma NotCarries(v: Variant, mode: Mode, st: State, raw: string)
    ensures var w := Normal(raw); var p := PartsParse(w);
      Step(v, mode, st, raw).prevNot <==>
        w == "NOT" || (st.prevNot && SuffixParse(w).None? && p.field + p.term == "&")
  {
    var w := Normal(raw);
    if w != "NOT" && SuffixParse(w).None? {
      PlainKeeps(v, mode, st, w);
    }
  }

  // ---------------------------------------------------------------------------
  // Properties of the whole query
  // ---------------------------------------------------------------------------

  lemma ExtendsTrans(a: State, b: State, c: State)
    requires Extends(a, b) && Extends(b, c)
    ensures Extends(a, c)
  {
    PrefixTrans(a.ret, b.ret, c.ret);
    PrefixTrans(a.fts, b.fts, c.fts);
    PrefixTrans(a.suf, b.suf, c.suf);
    PrefixTrans(a.full, b.full, c.full);
  }

  /** Over a list of words the query strings never start with whitespace,
      and with the corrections each is empty or ends with a space. */
  lemma {:induction false} FoldShape(v: Variant, mode: Mode, words: seq<string>)
    requires forall k :: 0 <= k < |words| ==> IsWord(words[k])
    ensures Heads(Fold(v, mode, words))
    ensures v == Corrected ==> Ends(Fold(v, mode, words))
  {
    if words != [] {
      var init := words[..|words| - 1];
      assert forall k :: 0 <= k < |init| ==> init[k] == words[k];
      FoldShape(v, mode, init);
      StepShape(v, mode, Fold(v, mode, init), words[|words| - 1]);
    }
  }

  /** What the first `i` words produced is kept by the words after them:
      the loop only appends, and never clears a flag. */
  lemma {:induction false} FoldExtends(v: Variant, mode: Mode, words: seq<string>, i: nat)
    requires i <= |words|
    requires forall k :: 0 <= k < |words| ==> IsWord(words[k])
    ensures Extends(Fold(v, mode, words[..i]), Fold(v, mode, words))
    decreases |words|
  {
    if i == |words| {
      assert words[..i] == words;
    } else {
      var init := words[..|words| - 1];
      assert init[..i] == words[..i];
      assert forall k :: 0 <= k < |init| ==> init[k] == words[k];
      FoldExtends(v, mode, init, i);
      StepShape(v, mode, Fold(v, mode, init), words[|words| - 1]);
      ExtendsTrans(Fold(v, mode, words[..i]), Fold(v, mode, init), Fold(v, mode, words));
    }
  }

  /** The enhanced-syntax rule for one query string: the result never
      starts with `NOT `, and one that did gets `fullscan:1` in front. */
  lemma FullscanFront(x: string, positive: bool)
    requires Lead(x)
    ensures !("NOT " <= Fullscanned(Enhanced, x, positive))
    ensures "NOT " <= x ==> Fullscan <= Fullscanned(Enhanced, x, positive)
  {
    if "NOT " <= x {
      assert "fullscan:1 " + x == Fullscan + (" " + x);
      assert IsWord(Fullscan);
      StripKeepsFirstWord(Fullscan, " " + x);
      assert Strip("fullscan:1 " + x)[0] == 'f';
    } else {
      StripNoLeadingSpace(x);
      var r := Strip(x);
      if |r| >= 4 {
        assert r[..4] == x[..4];
      }
    }
  }

  /** In enhanced syntax none of the FTS and suffix queries starts with
      `NOT `: SQLite's full-text search cannot run a MATCH whose first term
      is negative, so such a query gets `fullscan:1` in front. */
  lemma EnhancedNeverStartsWithNot(v: Variant, query: string)
    ensures var out := Process(v, Enhanced, query);
      !("NOT " <= out.fts) && !("NOT " <= out.suf) && !("NOT " <= out.full)
  {
    var words := Words(Sanitise(query));
    WordsAreWords(Sanitise(query));
    FoldShape(v, Enhanced, words);
    var st := Fold(v, Enhanced, words);
    FullscanFront(st.fts, st.ftsPos);
    FullscanFront(st.suf, st.sufPos);
    FullscanFront(st.full, st.fullPos);
  }

  predicate EndsWith(s: string, t: string)
  {
    |t| <= |s| && s[|s| - |t|..] == t
  }

  /** The standard-syntax rule for one query string: without a positive
      term it ends with `fullscan:1`, which `strip` keeps. */
  lemma FullscanBack(x: string)
    ensures EndsWith(Fullscanned(Standard, x, false), Fullscan)
  {
    assert IsWord(Fullscan);
    StripKeepsLastWord(x, Fullscan);
  }

  /** In standard syntax a query string whose loop found no positive term
      of its kind ends with `fullscan:1` (`StepRoutes` says which words set
      each flag). */
  lemma StandardFullscanBack(v: Variant, query: string)
    ensures var st := Fold(v, Standard, Words(Sanitise(query)));
      var out := Process(v, Standard, query);
      (!st.ftsPos ==> EndsWith(out.fts, Fullscan)) &&
      (!st.sufPos ==> EndsWith(out.suf, Fullscan)) &&
      (!st.fullPos ==> EndsWith(out.full, Fullscan))
  {
    var st := Fold(v, Standard, Words(Sanitise(query)));
    FullscanBack(st.fts);
    FullscanBack(st.suf);
    FullscanBack(st.full);
  }

  /** With the correction, a negated word outside the suffix form adds to
      the FTS query either nothing or a piece that carries its negation:
      a `-` in standard syntax, a leading `NOT ` in enhanced syntax. */
  lemma NegatedPiecesMarked(mode: Mode, st: State, raw: string)
    ensures var w := Normal(raw); var st' := Step(Corrected, mode, st, raw);
      w != "NOT" && SuffixParse(w).None? && (PartsParse(w).neg || st.prevNot) ==>
        st.fts <= st'.fts &&
        var piece := st'.fts[|st.fts|..];
        piece == [] || ((mode == Standard ==> '-' in piece) && (mode == Enhanced ==> "NOT " <= piece))
  {
    var w := Normal(raw);
    if w != "NOT" && SuffixParse(w).None? && (PartsParse(w).neg || st.prevNot) {
      var p := PartsParse(w);
      var word := p.field + p.term;
      if mode == Standard {
        assert Step(Corrected, mode, st, raw) == Emit(Corrected, st, word, p, "-");
        MarkedStandard(st, word, p);
      } else {
        var s1 := st.(ret := st.ret + "NOT ", fts := st.fts + "NOT ");
        var e := Emit(Corrected, s1, word, p, "").fts;
        assert Step(Corrected, mode, st, raw).fts == e;
        EmitPrefix(Corrected, s1, word, p, "");
        PrefixAfter(st.fts, "NOT ", e);
      }
    }
  }

  /** What follows `a` in a string that starts with `a + b` starts with `b`. */
  lemma PrefixAfter(a: string, b: string, e: string)
    requires a + b <= e
    ensures a <= e && b <= e[|a|..]
  {
    assert e[|a|..][..|b|] == e[..|a| + |b|][|a|..] == (a + b)[|a|..] == b;
  }

  /** `Emit` only appends to the FTS query. */
  lemma EmitPrefix(v: Variant, st: State, word: string, p: Parsed, sn: string)
    ensures st.fts <= Emit(v, st, word, p, sn).fts
  {
    var k := KeywordPieces(word, sn);
    if k.None? && !("lang:" <= word) && word != "&" {
      var piece := PlainPiece(v, word, p, sn);
      assert Emit(v, st, word, p, sn).fts == st.fts + piece;
    }
  }

  /** A keyword's FTS piece in standard syntax with `standard_not` set
      holds a `-`. */
  lemma KeywordDash(word: string)
    ensures KeywordPieces(word, "-").Some? ==> '-' in KeywordPieces(word, "-").value.1
  {
    var k := KeywordPieces(word, "-");
    if k.Some? {
      var b := k.value.1;
      assert b[|b| - 7] == '-' || b[|b| - 5] == '-' || b[|b| - 3] == '-' || b[|b| - 6] == '-';
    }
  }

  /** In standard syntax every non-empty piece of `Emit` with
      `standard_not` set contains a `-`. */
  lemma MarkedStandard(st: State, word: string, p: Parsed)
    ensures var added := Emit(Corrected, st, word, p, "-").fts[|st.fts|..];
      st.fts <= Emit(Corrected, st, word, p, "-").fts && (added == [] || '-' in added)
  {
    var st' := Emit(Corrected, st, word, p, "-");
    var k := KeywordPieces(word, "-");
    if k.Some? {
      assert st'.fts[|st.fts|..] == k.value.1;
      KeywordDash(word);
    } else if "lang:" <= word {
      var piece := "language:" + "-" + word[5..] + " ";
      assert st'.fts[|st.fts|..] == piece && piece[9] == '-';
    } else if word != "&" {
      var piece := p.field + "-" + p.term + " ";
      assert st'.fts[|st.fts|..] == piece && piece[|p.field|] == '-';
    }
  }

  // ---------------------------------------------------------------------------
  // The two corrections
  // ---------------------------------------------------------------------------

  /** As written, the standard-syntax query `-foo` drops the `-`: the FTS
      query is `foo fullscan:1`, which asks for records containing `foo`,
      the opposite of what was typed, and the canonical query shows `foo`. */
  lemma NegatedTermLosesDash(q: string)
    requires q == "-foo"
    ensures Process(AsWritten, Standard, q).fts == q[1..] + " " + Fullscan
    ensures Process(AsWritten, Standard, q).ret == q[1..]
  {
    var st := NegatedFoo(AsWritten, q);
    FooResult(st, q[1..]);
  }

  /** With the correction the same query keeps its `-`: the FTS query is
      `-foo fullscan:1`. */
  lemma NegatedTermKeepsDash(q: string)
    requires q == "-foo"
    ensures Process(Corrected, Standard, q).fts == q + " " + Fullscan
    ensures Process(Corrected, Standard, q).ret == q
  {
    var st := NegatedFoo(Corrected, q);
    FooResult(st, q);
  }

  /** The end of the query for a state holding the one word `w`. */
  lemma FooResult(st: State, w: string)
    requires IsWord(w) && st.ret == st.fts == w + " " && !st.ftsPos
    ensures Finish(Standard, st).fts == w + " " + Fullscan
    ensures Finish(Standard, st).ret == w
  {
    assert IsWord(Fullscan);
    StripWordPair(w, Fullscan);
    StripWordSpace(w);
  }

  /** The loop on the query `-foo` in standard syntax. */
  lemma NegatedFoo(v: Variant, q: string) returns (st: State)
    requires q == "-foo"
    ensures st == Fold(v, Standard, Words(Sanitise(q))) && !st.ftsPos
    ensures Process(v, Standard, q) == Finish(Standard, st)
    ensures IsWord(q) && IsWord(q[1..])
    ensures st.ret == st.fts == (if v == AsWritten then q[1..] else q) + " "
  {
    Example(q);
    var p := FooParse(q);
    var word := p.field + p.term;
    EmptyLeft(p.term);
    KeywordLength(word, "-");
    assert |word| == 3;
    assert !("lang:" <= word) && word != "&";
    NegatedPlainStep(v, Start, q);
    assert [q][..0] == [];
    st := Step(v, Standard, Start, q);
    assert Fold(v, Standard, [q]) == st;
    var piece := (if v == AsWritten then p.field + p.term else p.field + "-" + p.term) + " ";
    EmptyLeft(piece);
    if v == Corrected {
      EmptyLeft("-");
      assert p.field + "-" == "-";
      assert "-" + p.term == q;
    }
  }

  /** A negated plain term in standard syntax leaves the FTS flag alone and
      adds the term to the canonical and the FTS query: as written without
      its `-`, corrected with the `-` after the field. */
  lemma NegatedPlainStep(v: Variant, st: State, raw: string)
    requires var w := Normal(raw); w != "NOT" && SuffixParse(w).None? && (PartsParse(w).neg || st.prevNot)
    requires var p := PartsParse(Normal(raw)); var word := p.field + p.term;
      KeywordPieces(word, "-").None? && !("lang:" <= word) && word != "&"
    ensures var p := PartsParse(Normal(raw)); var st' := Step(v, Standard, st, raw);
      var piece := (if v == AsWritten then p.field + p.term else p.field + "-" + p.term) + " ";
      st'.ftsPos == st.ftsPos && st'.fts == st.fts + piece && st'.ret == st.ret + piece
  {
    var w := Normal(raw);
    var p := PartsParse(w);
    assert st.(ftsPos := st.ftsPos || !true) == st;
    assert Step(v, Standard, st, raw) == Emit(v, st, p.field + p.term, p, "-");
  }

  /** How the word `-foo` is read: no operator, nothing upper-case, not in
      suffix form, a negated term `foo` without a field. */
  lemma FooParse(q: string) returns (p: Parsed)
    requires q == "-foo"
    ensures Normal(q) == q && SuffixParse(q).None?
    ensures p == PartsParse(q) && p.field == [] && p.neg && p.term == q[1..] && |p.term| == 3
    ensures IsWord(q) && IsWord(q[1..])
  {
    FooNormal(q);
    FooNotSuffix(q);
    p := FooParts(q);
  }

  lemma FooNormal(q: string)
    requires q == "-foo"
    ensures Normal(q) == q && IsWord(q) && IsWord(q[1..])
  {
    assert q[0] == '-' && q[1] == 'f' && q[2] == 'o' && q[3] == 'o';
    assert IsLowerCase(q);
    NoOperator(q);
    LowerStrOfLower(q);
  }

  lemma FooNotSuffix(q: string)
    requires q == "-foo"
    ensures SuffixParse(q).None?
  {
    assert q[0] == '-' && q[1] == 'f';
    assert AlnumEnd(q, 0) == 0;
  }

  lemma FooParts(q: string) returns (p: Parsed)
    requires q == "-foo"
    ensures p == PartsParse(q) && p.field == [] && p.neg && p.term == q[1..] && |p.term| == 3
  {
    assert q[0] == '-';
    assert AlnumEnd(q, 0) == 0;
    p := PartsParse(q);
  }

  /** A word whose first letter is not that of an operator. */
  lemma NoOperator(w: string)
    requires |w| > 0 && w[0] != 'O' && w[0] != 'A' && w[0] != 'N'
    ensures !StartsWithOperator(w)
  {
  }

  /** Only words of at least seven characters are keywords. */
  lemma KeywordLength(word: string, sn: string)
    ensures KeywordPieces(word, sn).Some? ==> |word| >= 7
  {
  }

  /** As written, a negated suffix term's full-terms piece has no space
      after it, so `-*ab *cd` asks for the single term `-abcd` in the
      full-terms suffix query: the terms fuse. */
  lemma FullTermsFuse(x: string, y: string)
    requires |x| > 0 && AllAlnum(x) && IsLowerCase(x)
    requires |y| > 0 && AllAlnum(y) && IsLowerCase(y)
    ensures Fold(AsWritten, Standard, ["-*" + x, "*" + y]).full == "-" + x + y + " "
  {
    var st := StarPair(AsWritten, x, y);
  }

  /** With the correction the two terms stay apart. */
  lemma FullTermsSeparate(x: string, y: string)
    requires |x| > 0 && AllAlnum(x) && IsLowerCase(x)
    requires |y| > 0 && AllAlnum(y) && IsLowerCase(y)
    ensures Fold(Corrected, Standard, ["-*" + x, "*" + y]).full == "-" + x + " " + y + " "
  {
    var st := StarPair(Corrected, x, y);
  }

  /** The loop on the words `-*x *y` in standard syntax. */
  lemma StarPair(v: Variant, x: string, y: string) returns (st: State)
    requires |x| > 0 && AllAlnum(x) && IsLowerCase(x)
    requires |y| > 0 && AllAlnum(y) && IsLowerCase(y)
    ensures st == Fold(v, Standard, ["-*" + x, "*" + y])
    ensures v == AsWritten ==> st.full == "-" + x + y + " "
    ensures v == Corrected ==> st.full == "-" + x + " " + y + " "
  {
    var a, b := "-*" + x, "*" + y;
    var st1 := StarFirst(v, x);
    assert [a, b][..1] == [a];
    st := Step(v, Standard, st1, b);
    StarSecond(v, st1, y);
    Associative(st1.full, y, " ");
  }

  /** The first word `-*x`: a negated suffix term, alone in the full-terms
      query. */
  lemma StarFirst(v: Variant, x: string) returns (st1: State)
    requires |x| > 0 && AllAlnum(x) && IsLowerCase(x)
    ensures st1 == Fold(v, Standard, ["-*" + x])
    ensures v == AsWritten ==> st1.full == "-" + x
    ensures v == Corrected ==> st1.full == "-" + x + " "
    ensures !st1.prevNot
  {
    var a := "-*" + x;
    StarNormal(a, true, x);
    StarSuffix(a, true, x);
    assert [a][..0] == [];
    st1 := SuffixStep(v, Standard, Start, Parsed("", true, "*" + x));
    assert ("*" + x)[1..] == x;
    var sep := if v == AsWritten then "" else " ";
    EmptyLeft("-");
    EmptyLeft("-" + x + sep);
  }

  /** A second word `*y` after a state with no pending `NOT`: `y` and a
      space are added to the full-terms query. */
  lemma StarSecond(v: Variant, st: State, y: string)
    requires |y| > 0 && AllAlnum(y) && IsLowerCase(y)
    requires !st.prevNot
    ensures Step(v, Standard, st, "*" + y).full == st.full + (y + " ")
  {
    var b := "*" + y;
    StarNormal(b, false, y);
    StarSuffix(b, false, y);
    StepSuffix(v, Standard, st, b, Parsed("", false, b));
    assert b[1..] == y;
    EmptyLeft(y);
  }

  /** A word in suffix form takes the suffix branch of the loop body. */
  lemma StepSuffix(v: Variant, mode: Mode, st: State, raw: string, p: Parsed)
    requires Normal(raw) != "NOT" && SuffixParse(Normal(raw)) == Some(p)
    ensures |p.term| > 0 && Step(v, mode, st, raw) == SuffixStep(v, mode, st, p)
  {
  }

  /** A lower-case word `*x` or `-*x` with `x` alphanumeric is left alone
      by the normalisation. */
  lemma StarNormal(q: string, neg: bool, x: string)
    requires q == (if neg then "-*" else "*") + x
    requires |x| > 0 && AllAlnum(x) && IsLowerCase(x)
    ensures Normal(q) == q
  {
    var m := if neg then "-" else "";
    assert q == m + "*" + x;
    assert q[0] == (if neg then '-' else '*');
    NoOperator(q);
    assert IsLowerCase(q) by {
      forall k | 0 <= k < |q| ensures !IsUpperAscii(q[k]) {
        if k >= |m| + 1 {
          assert q[k] == x[k - |m| - 1];
        }
      }
    }
    LowerStrOfLower(q);
  }

  /** A word `*x` or `-*x` with `x` alphanumeric is in suffix form, with
      no field. */
  lemma StarSuffix(q: string, neg: bool, x: string)
    requires q == (if neg then "-*" else "*") + x
    requires |x| > 0 && AllAlnum(x)
    ensures SuffixParse(q) == Some(Parsed("", neg, "*" + x))
  {
    var m := if neg then "-" else "";
    assert q == m + "*" + x;
    assert q[0] == (if neg then '-' else '*');
    assert AlnumEnd(q, 0) == 0;
    var t := "*" + x;
    assert q[FieldLen(q)..] == m + t;
    assert neg ==> (m + t)[1..] == t;
    assert t[1..] == x;
  }

  /** A word without quotes and without a doubled asterisk is the whole
      query after the clean-up and `split()`. */
  lemma OneWordQuery(q: string)
    requires IsWord(q) && '"' !in q
    requires forall k :: 0 <= k < |q| - 1 ==> !(q[k] == '*' && q[k + 1] == '*')
    ensures Words(Sanitise(q)) == [q]
  {
    assert QueryText.QuoteCount(q) == 0 by {
      assert '"' !in multiset(q);
    }
    assert QueryText.DropUnbalancedQuote(q) == q;
    QueryText.CollapseNoPairs(q);
    SingleWord(q);
  }

  /** The query `-foo` is one word after the clean-up. */
  lemma Example(q: string)
    requires q == "-foo"
    ensures Words(Sanitise(q)) == [q]
  {
    OneWordQuery(q);
  }
}
