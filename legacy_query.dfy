/** Search-query rewriting of the older back ends: `process_query` in
    `oce/db.py` and `SQLiteProvider._process_query` in
    `oce/providers/sqlite.py` (the two bodies are the same). The raw query is
    split into words; each word becomes a full-text term and a canonical term
    shown back to the user; `&` is dropped; a query without any positive term
    gets `fullscan:1`. Also the paging of search results. */
module LegacyQuery {
  import opened Strings
  import opened Wrappers

  /** What one query word contributes: its full-text term, its canonical
      form, and whether it counts as a positive search term. */
  datatype Term = Term(fts: string, canonical: string, positive: bool)

  const Fullscan := "fullscan:1"

  /** Matches of `(^-|:-)`: the word starts with `-` or contains `:-`. */
  predicate IsNegative(w: string)
  {
    (|w| > 0 && w[0] == '-') || exists k :: 0 <= k < |w| - 1 && w[k] == ':' && w[k + 1] == '-'
  }

  /** The words kept in upper case: the query operators. */
  predicate IsOperator(w: string)
  {
    w == "OR" || w == "AND" || w == "NOT"
  }

  /** The search keywords, two spellings each, and what each becomes: the
      full-text term that selects records with the field set, and the
      keyword as shown back. */
  function Keyword(w: string): (t: Option<Term>)
  {
    if w == "is:commented" || w == "has:comment" then Some(Term("comment:cmt", "has:comment", true))
    else if w == "is:flagged" || w == "has:flag" then Some(Term("flag:1", "is:flagged", true))
    else if w == "is:tagged" || w == "has:tag" then Some(Term("tag:tags", "has:tag", true))
    else if w == "has:language" || w == "has:lang" then Some(Term("language:lang", "has:language", true))
    else None
  }

  /** The word as compared: lower-cased unless it is an operator. */
  function Normal(raw: string): (w: string)
    ensures |w| == |raw|
  {
    if IsOperator(raw) then raw else LowerStr(raw)
  }

  /** The body of the word loop for one word; `None` for `&`, which is
      skipped. */
  function Translate(raw: string): (t: Option<Term>)
  {
    var w := Normal(raw);
    if Keyword(w).Some? then Keyword(w)
    else if "lang:" <= w then Some(Term("language:" + w[5..], "language:" + w[5..], true))
    else if w == "&" then None
    else Some(Term(w, w, !IsNegative(w)))
  }

  /** The term of an entry, if there is one. */
  function Opt(o: Option<Term>): (ts: seq<Term>)
    ensures |ts| <= 1
  {
    if o.Some? then [o.value] else []
  }

  /** The terms that `f` gives for the words, in order; a word for which it
      gives `None` contributes nothing. */
  function Filter(f: string -> Option<Term>, words: seq<string>): (ts: seq<Term>)
    ensures |ts| <= |words|
  {
    if words == [] then []
    else Filter(f, words[..|words| - 1]) + Opt(f(words[|words| - 1]))
  }

  /** The terms of a word list, in order, `&` left out. */
  function Terms(words: seq<string>): (ts: seq<Term>)
  {
    Filter(Translate, words)
  }

  function FtsTerms(ts: seq<Term>): (r: seq<string>)
    ensures |r| == |ts| && forall k :: 0 <= k < |ts| ==> r[k] == ts[k].fts
  {
    seq(|ts|, k requires 0 <= k < |ts| => ts[k].fts)
  }

  function CanonicalTerms(ts: seq<Term>): (r: seq<string>)
    ensures |r| == |ts| && forall k :: 0 <= k < |ts| ==> r[k] == ts[k].canonical
  {
    seq(|ts|, k requires 0 <= k < |ts| => ts[k].canonical)
  }

  predicate AnyPositive(ts: seq<Term>)
  {
    exists k :: 0 <= k < |ts| && ts[k].positive
  }

  /** The full-text terms followed by `fullscan:1` when none is positive. */
  function Body(ts: seq<Term>): (body: seq<string>)
    ensures |body| >= 1
  {
    if AnyPositive(ts) then
      assert |ts| > 0;
      FtsTerms(ts)
    else FtsTerms(ts) + [Fullscan]
  }

  /** The rewritten query as word lists: the full-text terms, then
      `fullscan:1` if none is positive, with a second `fullscan:1` in front
      when the first term is the operator `NOT`; and the canonical terms. */
  function RewriteSpec(query: string): (r: (string, string))
  {
    var ts := Terms(Words(query));
    var body := Body(ts);
    var fts := if body[0] == "NOT" then [Fullscan] + body else body;
    (Join(" ", fts), Join(" ", CanonicalTerms(ts)))
  }

  /** `process_query(query)`: the word loop, then the two `fullscan:1`
      rules and `strip`. */
  method ProcessQuery(query: string) returns (fts: string, canonical: string)
    ensures (fts, canonical) == RewriteSpec(query)
  {
    var words := Words(query);
    var q, r, foundPositive := Accumulate(words);
    if !foundPositive {
      q := q + Fullscan;
    }
    if "NOT " <= q {
      q := "fullscan:1 " + q;
    }
    WordsAreWords(query);
    TermsAreWords(words);
    NotTermsPositive(words);
    FinishSpec(Terms(words), q);
    fts := Strip(q);
    canonical := Strip(r);
    CanonicalStripped(Terms(words));
  }

  /** The word loop of `process_query`: each word's full-text and canonical
      terms are appended with a space after each, and the positive flag is
      raised by the first positive term. */
  method Accumulate(words: seq<string>) returns (q: string, r: string, foundPositive: bool)
    ensures q == Terminated(FtsTerms(Terms(words)))
    ensures r == Terminated(CanonicalTerms(Terms(words)))
    ensures foundPositive == AnyPositive(Terms(words))
  {
    q, r, foundPositive := "", "", false;
    ghost var ts: seq<Term> := [];
    var i := 0;
    while i < |words|
      invariant 0 <= i <= |words|
      invariant ts == Terms(words[..i])
      invariant q == Terminated(FtsTerms(ts))
      invariant r == Terminated(CanonicalTerms(ts))
      invariant foundPositive == AnyPositive(ts)
    {
      // the keyword, `lang:`, `&` and plain-word branches
      var t := Translate(words[i]);
      FilterStep(Translate, words, i);
      if t.Some? {
        q := q + (t.value.fts + " ");
        r := r + (t.value.canonical + " ");
        if t.value.positive {
          foundPositive := true;
        }
        AppendTerm(ts, t.value);
        ts := ts + [t.value];
        assert ts == Terms(words[..i + 1]);
      } else {
        assert ts + [] == ts;
        assert ts == Terms(words[..i + 1]);
      }
      i := i + 1;
      assert ts == Terms(words[..i]);
    }
    assert words[..i] == words;
  }

  // ---------------------------------------------------------------------------
  // Proof of the loop
  // ---------------------------------------------------------------------------

  /** Appending one term to the accumulated strings and the flag. */
  lemma AppendTerm(ts: seq<Term>, t: Term)
    ensures Terminated(FtsTerms(ts + [t])) == Terminated(FtsTerms(ts)) + (t.fts + " ")
    ensures Terminated(CanonicalTerms(ts + [t])) == Terminated(CanonicalTerms(ts)) + (t.canonical + " ")
    ensures AnyPositive(ts + [t]) <==> AnyPositive(ts) || t.positive
  {
    assert FtsTerms(ts + [t])[..|ts|] == FtsTerms(ts);
    assert CanonicalTerms(ts + [t])[..|ts|] == CanonicalTerms(ts);
    if AnyPositive(ts) {
      var k :| 0 <= k < |ts| && ts[k].positive;
      assert (ts + [t])[k] == ts[k];
    }
    if t.positive {
      assert (ts + [t])[|ts|] == t;
    }
  }

  /** A translated word is still a word. */
  lemma TranslateWord(raw: string)
    requires IsWord(raw)
    ensures Translate(raw).Some? ==> IsWord(Translate(raw).value.fts) && IsWord(Translate(raw).value.canonical)
  {
    var w := Normal(raw);
    assert IsWord(w);
    if Keyword(w).Some? {
      KeywordTermsAreWords(w);
    } else if "lang:" <= w {
      LangFilterWord(w);
    }
  }

  lemma KeywordTermsAreWords(w: string)
    requires Keyword(w).Some?
    ensures IsWord(Keyword(w).value.fts) && IsWord(Keyword(w).value.canonical)
  {
    FieldTermsAreWords();
    CanonicalKeywordsAreWords();
  }

  lemma FieldTermsAreWords()
    ensures IsWord("comment:cmt") && IsWord("flag:1") && IsWord("tag:tags") && IsWord("language:lang")
  {
  }

  lemma CanonicalKeywordsAreWords()
    ensures IsWord("has:comment") && IsWord("is:flagged") && IsWord("has:tag") && IsWord("has:language")
  {
  }

  /** The `lang:` filter of a word is a word. */
  lemma LangFilterWord(w: string)
    requires IsWord(w) && "lang:" <= w
    ensures IsWord("language:" + w[5..])
  {
    var l := "language:" + w[5..];
    forall k | 0 <= k < |l| ensures !IsSpace(l[k]) {
      if k < 9 {
        assert l[k] == "language:"[k];
      } else {
        assert l[k] == w[k - 4];
      }
    }
  }

  /** One more word adds its term, if it has one. */
  lemma FilterStep(f: string -> Option<Term>, words: seq<string>, i: nat)
    requires i < |words|
    ensures Filter(f, words[..i + 1]) == Filter(f, words[..i]) + Opt(f(words[i]))
  {
    assert words[..i + 1][..i] == words[..i];
  }

  /** Every term of a query is a word: non-empty, without whitespace. */
  lemma TermsAreWords(words: seq<string>)
    requires AllWords(words)
    ensures AllWords(FtsTerms(Terms(words))) && AllWords(CanonicalTerms(Terms(words)))
  {
    forall k | 0 <= k < |words| && Translate(words[k]).Some?
      ensures IsWord(Translate(words[k]).value.fts) && IsWord(Translate(words[k]).value.canonical)
    {
      TranslateWord(words[k]);
    }
    FilterWords(Translate, words);
  }

  lemma {:induction false} FilterWords(f: string -> Option<Term>, words: seq<string>)
    requires forall k :: 0 <= k < |words| && f(words[k]).Some? ==>
      IsWord(f(words[k]).value.fts) && IsWord(f(words[k]).value.canonical)
    ensures AllWords(FtsTerms(Filter(f, words))) && AllWords(CanonicalTerms(Filter(f, words)))
  {
    if words != [] {
      var init := words[..|words| - 1];
      FilterWords(f, init);
      var ts := Filter(f, words);
      forall k | 0 <= k < |ts| ensures IsWord(ts[k].fts) && IsWord(ts[k].canonical) {
        if k < |Filter(f, init)| {
          assert ts[k] == Filter(f, init)[k];
          assert FtsTerms(Filter(f, init))[k] == ts[k].fts;
          assert CanonicalTerms(Filter(f, init))[k] == ts[k].canonical;
        }
      }
    }
  }

  lemma CanonicalStripped(ts: seq<Term>)
    requires AllWords(CanonicalTerms(ts))
    ensures Strip(Terminated(CanonicalTerms(ts))) == Join(" ", CanonicalTerms(ts))
  {
    if ts != [] {
      TerminatedJoin(CanonicalTerms(ts));
      StripJoinWords(CanonicalTerms(ts));
    }
  }

  /** The string test `query.startswith("NOT ")` on the accumulated query is
      the word test "the first term is NOT". */
  lemma NotPrefix(body: seq<string>, trailing: bool)
    requires |body| >= 1 && AllWords(body)
    requires body[0] == "NOT" && |body| == 1 ==> trailing
    ensures var q := Join(" ", body) + (if trailing then " " else "");
      "NOT " <= q <==> body[0] == "NOT"
  {
    var q := Join(" ", body) + (if trailing then " " else "");
    var w := body[0];
    JoinFirstWord(body);
    assert w <= q;
    assert |q| > |w| ==> q[|w|] == ' ';
    assert IsWord(w);
    if w == "NOT" {
      assert q[..4] == "NOT ";
    } else if |q| >= 4 {
      if |w| >= 4 {
        assert q[3] == w[3] != ' ';
      } else if |w| == 3 {
        assert q[..3] == w != "NOT";
      } else {
        assert q[|w|] == ' ' != "NOT "[|w|];
      }
    }
  }

  /** The accumulated full-text string before the `NOT` test is the
      space-join of `Body`, with one trailing space when a term is
      positive. */
  lemma BodyText(ts: seq<Term>)
    requires AllWords(FtsTerms(ts))
    ensures Terminated(FtsTerms(ts)) + (if AnyPositive(ts) then "" else Fullscan) ==
      Join(" ", Body(ts)) + (if AnyPositive(ts) then " " else "")
    ensures AllWords(Body(ts))
  {
    assert IsWord(Fullscan);
    if AnyPositive(ts) {
      TerminatedJoin(FtsTerms(ts));
    } else if ts != [] {
      TerminatedJoin(FtsTerms(ts));
      JoinSnoc(" ", FtsTerms(ts), Fullscan);
    }
  }

  /** A term whose full-text form contains no `-` is positive: only a
      plain word can be negative, and then it contains a `-`. */
  lemma TranslateNoDash(raw: string)
    requires Translate(raw).Some? && '-' !in Translate(raw).value.fts
    ensures Translate(raw).value.positive
  {
    var w := Normal(raw);
    if Keyword(w).Some? {
    } else if !("lang:" <= w) && IsNegative(w) {
      NegativeHasDash(w);
    }
  }

  lemma NegativeHasDash(w: string)
    requires IsNegative(w)
    ensures '-' in w
  {
    if |w| > 0 && w[0] == '-' {
      assert w[0] in w;
    } else {
      var k :| 0 <= k < |w| - 1 && w[k] == ':' && w[k + 1] == '-';
      assert w[k + 1] in w;
    }
  }

  /** Every term comes from some word. */
  lemma {:induction false} FilterFrom(f: string -> Option<Term>, words: seq<string>, k: nat)
    requires k < |Filter(f, words)|
    ensures exists j :: 0 <= j < |words| && f(words[j]) == Some(Filter(f, words)[k])
  {
    var init := words[..|words| - 1];
    if k < |Filter(f, init)| {
      FilterFrom(f, init, k);
      var j :| 0 <= j < |init| && f(init[j]) == Some(Filter(f, init)[k]);
      assert words[j] == init[j];
    } else {
      assert f(words[|words| - 1]) == Some(Filter(f, words)[k]);
    }
  }

  /** A term whose full-text form contains no `-`, such as the operator
      `NOT`, is positive. */
  lemma NoDashPositive(words: seq<string>, k: nat)
    requires k < |Terms(words)| && '-' !in Terms(words)[k].fts
    ensures Terms(words)[k].positive
  {
    FilterFrom(Translate, words, k);
    var j :| 0 <= j < |words| && Translate(words[j]) == Some(Terms(words)[k]);
    TranslateNoDash(words[j]);
  }

  lemma NotTermsPositive(words: seq<string>)
    ensures forall k :: 0 <= k < |Terms(words)| && Terms(words)[k].fts == "NOT" ==> Terms(words)[k].positive
  {
    forall k | 0 <= k < |Terms(words)| && Terms(words)[k].fts == "NOT" {
      NoDashPositive(words, k);
    }
  }

  /** The tail of the method: the two fullscan rules and `strip` give the
      word-list form of the specification. */
  lemma FinishSpec(ts: seq<Term>, q: string)
    requires AllWords(FtsTerms(ts))
    requires forall k :: 0 <= k < |ts| && ts[k].fts == "NOT" ==> ts[k].positive
    requires var q0 := Terminated(FtsTerms(ts)) + (if AnyPositive(ts) then "" else Fullscan);
      q == (if "NOT " <= q0 then "fullscan:1 " + q0 else q0)
    ensures var body := Body(ts);
      Strip(q) == Join(" ", if body[0] == "NOT" then [Fullscan] + body else body)
  {
    var body := Body(ts);
    var tail := if AnyPositive(ts) then " " else "";
    BodyText(ts);
    assert body[0] == "NOT" && |body| == 1 ==> AnyPositive(ts) by {
      if body[0] == "NOT" && |body| == 1 {
        assert ts[0].fts == "NOT";
      }
    }
    FinishBody(body, AnyPositive(ts), q);
  }

  /** `FinishSpec` on the word list of the query. */
  lemma FinishBody(body: seq<string>, trailing: bool, q: string)
    requires |body| >= 1 && AllWords(body)
    requires body[0] == "NOT" && |body| == 1 ==> trailing
    requires var q0 := Join(" ", body) + (if trailing then " " else "");
      q == (if "NOT " <= q0 then "fullscan:1 " + q0 else q0)
    ensures Strip(q) == Join(" ", if body[0] == "NOT" then [Fullscan] + body else body)
  {
    var tail := if trailing then " " else "";
    NotPrefix(body, trailing);
    if body[0] == "NOT" {
      PrependFullscan(body, tail);
      assert IsWord(Fullscan);
      StripTail([Fullscan] + body, tail);
    } else {
      StripTail(body, tail);
    }
  }

  /** `'fullscan:1 {0}'.format(query)` is one more word in front. */
  lemma PrependFullscan(body: seq<string>, tail: string)
    requires |body| >= 1
    ensures "fullscan:1 " + (Join(" ", body) + tail) == Join(" ", [Fullscan] + body) + tail
  {
    var j := Join(" ", body);
    var head := "fullscan:1 ";
    assert ([Fullscan] + body)[1..] == body;
    assert Fullscan + " " == head;
    calc {
      Join(" ", [Fullscan] + body) + tail;
      (head + j) + tail;
      { Associative(head, j, tail); }
      head + (j + tail);
    }
  }

  lemma StripTail(words: seq<string>, tail: string)
    requires |words| >= 1 && AllWords(words)
    requires tail == "" || tail == " "
    ensures Strip(Join(" ", words) + tail) == Join(" ", words)
  {
    StripJoinWords(words);
    if tail == "" {
      assert Join(" ", words) + tail == Join(" ", words);
    }
  }

  // ---------------------------------------------------------------------------
  // Properties of the rewriting
  // ---------------------------------------------------------------------------

  lemma {:induction false} FilterConcat(f: string -> Option<Term>, a: seq<string>, b: seq<string>)
    ensures Filter(f, a + b) == Filter(f, a) + Filter(f, b)
    decreases |b|
  {
    if b == [] {
      assert a + b == a;
    } else {
      var b0 := b[..|b| - 1];
      var x := b[|b| - 1];
      FilterConcat(f, a, b0);
      assert (a + b)[..|a + b| - 1] == a + b0 && (a + b)[|a + b| - 1] == x;
      calc {
        Filter(f, a + b);
        Filter(f, a + b0) + Opt(f(x));
        (Filter(f, a) + Filter(f, b0)) + Opt(f(x));
        { Associative(Filter(f, a), Filter(f, b0), Opt(f(x))); }
        Filter(f, a) + (Filter(f, b0) + Opt(f(x)));
        Filter(f, a) + Filter(f, b);
      }
    }
  }

  /** A positive term exists in the output exactly when some word of the
      query, other than `&`, translates to a positive term. */
  lemma PositiveIff(words: seq<string>)
    ensures AnyPositive(Terms(words)) <==>
      exists k :: 0 <= k < |words| && Translate(words[k]).Some? && Translate(words[k]).value.positive
  {
    FilterPositive(Translate, words);
  }

  lemma {:induction false} FilterPositive(f: string -> Option<Term>, words: seq<string>)
    ensures AnyPositive(Filter(f, words)) <==>
      exists k :: 0 <= k < |words| && f(words[k]).Some? && f(words[k]).value.positive
  {
    if words != [] {
      var init := words[..|words| - 1];
      FilterPositive(f, init);
      var ts := Filter(f, words);
      var head := Filter(f, init);
      if AnyPositive(ts) {
        var k :| 0 <= k < |ts| && ts[k].positive;
        if k < |head| {
          assert ts[k] == head[k];
          var j :| 0 <= j < |init| && f(init[j]).Some? && f(init[j]).value.positive;
          assert words[j] == init[j];
        } else {
          assert f(words[|words| - 1]) == Some(ts[k]);
        }
      }
      if exists k :: 0 <= k < |words| && f(words[k]).Some? && f(words[k]).value.positive {
        var k :| 0 <= k < |words| && f(words[k]).Some? && f(words[k]).value.positive;
        if k < |init| {
          assert init[k] == words[k];
          var j :| 0 <= j < |head| && head[j].positive;
          assert ts[j] == head[j];
        } else {
          assert ts[|ts| - 1] == f(words[k]).value;
        }
      }
    }
  }

  /** The full-text query always holds a positive term or ends in
      `fullscan:1`. The operator `NOT` is a positive term, so a query whose
      first term is `NOT` gets the leading `fullscan:1` and never the
      trailing one. */
  lemma FullscanRules(query: string)
    ensures var ts := Terms(Words(query));
      AnyPositive(ts) || Body(ts)[|Body(ts)| - 1] == Fullscan
    ensures var ts := Terms(Words(query));
      |ts| > 0 && ts[0].fts == "NOT" ==> AnyPositive(ts) && Body(ts) == FtsTerms(ts)
  {
    var ts := Terms(Words(query));
    if |ts| > 0 && ts[0].fts == "NOT" {
      NotTermsPositive(Words(query));
    }
  }

  /** `&` anywhere in the query is ignored. */
  lemma AmpersandIgnored(a: seq<string>, b: seq<string>)
    ensures Terms(a + ["&"] + b) == Terms(a + b)
  {
    TranslateAmpersand();
    FilterSkips(Translate, a, "&", b);
  }

  /** A word without a term leaves the terms as they are. */
  lemma FilterSkips(f: string -> Option<Term>, a: seq<string>, x: string, b: seq<string>)
    requires f(x).None?
    ensures Filter(f, a + [x] + b) == Filter(f, a + b)
  {
    FilterStep(f, a + [x], |a|);
    assert (a + [x])[..|a|] == a && (a + [x])[..|a| + 1] == a + [x];
    assert Filter(f, a + [x]) == Filter(f, a) + [];
    FilterConcat(f, a + [x], b);
    FilterConcat(f, a, b);
  }

  lemma TranslateAmpersand()
    ensures Translate("&") == None
  {
    assert LowerStr("&") == "&";
    KeywordShape("&");
  }

  /** A plain word (no keyword, no `lang:` filter) is positive exactly when
      it neither starts with `-` nor contains `:-`; it is passed on lower-cased
      unless it is an operator. */
  lemma PlainWord(raw: string)
    requires Keyword(Normal(raw)).None? && !("lang:" <= Normal(raw)) && Normal(raw) != "&"
    ensures Translate(raw) == Some(Term(Normal(raw), Normal(raw), !IsNegative(Normal(raw))))
    ensures !IsOperator(raw) ==> IsLowerCase(Translate(raw).value.fts)
  {
    if !IsOperator(raw) {
      LowerStrIdempotent(raw);
    }
  }

  /** The keywords are recognised in any letter case and rewritten to their
      canonical pair, as positive terms; so is a `lang:` filter. */
  lemma KeywordPairs(raw: string)
    ensures Keyword(LowerStr(raw)).Some? ==> Translate(raw) == Keyword(LowerStr(raw)) && Translate(raw).value.positive
    ensures "lang:" <= LowerStr(raw) ==>
      Translate(raw) == Some(Term("language:" + LowerStr(raw)[5..], "language:" + LowerStr(raw)[5..], true))
  {
    var w := LowerStr(raw);
    KeywordShape(w);
    if "lang:" <= w {
      assert w[0] == 'l';
    }
  }

  /** Every keyword is longer than the operators and starts with `i` or
      `h`, and its term is positive. */
  lemma KeywordShape(w: string)
    ensures Keyword(w).Some? ==> |w| >= 6 && (w[0] == 'i' || w[0] == 'h') && Keyword(w).value.positive
  {
  }

  // ---------------------------------------------------------------------------
  // Paging of search results
  // ---------------------------------------------------------------------------

  /** `db.DB.fetch_search_results`: with `limit > 0` the rows
      `[offset, offset + limit)`, otherwise every row. */
  function DbPage<T>(results: seq<T>, offset: nat, limit: int): (r: seq<T>)
    ensures limit <= 0 ==> r == results
    ensures limit > 0 ==> |r| <= limit && (forall k :: 0 <= k < |r| ==> offset + k < |results| && r[k] == results[offset + k])
    ensures limit > 0 ==> |r| == Clamp(|results| - offset, limit)
  {
    if limit > 0 then
      var lo := if offset <= |results| then offset else |results|;
      var hi := if offset + limit <= |results| then offset + limit else |results|;
      results[lo..hi]
    else results
  }

  function Clamp(n: int, limit: int): int
  {
    if n < 0 then 0 else if n < limit then n else limit
  }

  /** The older provider: `OFFSET` only when `offset > 0`, `LIMIT` only when
      `limit > 0`. */
  function ProviderPage<T>(results: seq<T>, offset: int, limit: int): (r: seq<T>)
    ensures var skip := if offset <= 0 then 0 else offset;
      |r| == Clamp(|results| - skip, if limit > 0 then limit else |results|) &&
      forall k :: 0 <= k < |r| ==> skip + k < |results| && r[k] == results[skip + k]
  {
    var skipped := if offset <= 0 then results else if offset <= |results| then results[offset..] else [];
    if limit > 0 && limit < |skipped| then skipped[..limit] else skipped
  }

  /** Pages `1..n` of size `perpage`, as the controller asks for them
      (`offset = (page - 1) * perpage`), put together are the first
      `n * perpage` results. */
  lemma {:induction false} PagesCover<T>(results: seq<T>, perpage: nat, n: nat)
    requires perpage > 0
    ensures Pages(results, perpage, n) == Upto(results, n * perpage)
  {
    if n > 0 {
      PagesCover(results, perpage, n - 1);
      PageExtends(results, (n - 1) * perpage, perpage);
      assert (n - 1) * perpage + perpage == n * perpage;
    }
  }

  /** The first `m` results, or all of them when there are fewer. */
  function Upto<T>(results: seq<T>, m: nat): (r: seq<T>)
    ensures r <= results && |r| == if m <= |results| then m else |results|
  {
    results[..if m <= |results| then m else |results|]
  }

  /** The page at `lo` continues the results before `lo`. */
  lemma PageExtends<T>(results: seq<T>, lo: nat, perpage: nat)
    requires perpage > 0
    ensures Upto(results, lo) + DbPage(results, lo, perpage) == Upto(results, lo + perpage)
  {
    var page := DbPage(results, lo, perpage);
    var hi := lo + perpage;
    if hi <= |results| {
      assert page == results[lo..hi];
      assert results[..lo] + results[lo..hi] == results[..hi];
    } else if lo <= |results| {
      assert page == results[lo..];
      assert results[..lo] + results[lo..] == results;
    } else {
      assert page == [];
    }
  }

  function Pages<T>(results: seq<T>, perpage: nat, n: nat): seq<T>
  {
    if n == 0 then [] else Pages(results, perpage, n - 1) + DbPage(results, (n - 1) * perpage, perpage)
  }
}
