/** Clean-up applied to a raw search query before it is split into words:
    an unbalanced double quote is dropped, and (in the newer provider)
    doubled asterisks are collapsed. */
module QueryText {

  /** Number of `"` characters, `len(re.findall('"', query))`. */
  function QuoteCount(q: string): nat
  {
    multiset(q)['"']
  }

  /** Index of the last `"` in `q`, or `|q|` when there is none. */
  function LastQuote(q: string): (j: nat)
    ensures j <= |q|
    ensures j < |q| ==> q[j] == '"' && '"' !in q[j + 1..]
    ensures j == |q| ==> '"' !in q
  {
    if |q| == 0 then 0
    else if q[|q| - 1] == '"' then |q| - 1
    else
      var j := LastQuote(q[..|q| - 1]);
      if j == |q| - 1 then |q|
      else
        assert q[j + 1..] == q[..|q| - 1][j + 1..] + [q[|q| - 1]];
        j
  }

  /** `''.join(query.rsplit('"', 1))` when the number of quotes is odd: the
      last quote is removed; otherwise the query is kept. */
  function DropUnbalancedQuote(q: string): (r: string)
  {
    if QuoteCount(q) % 2 == 1 then
      var j := LastQuote(q);
      q[..j] + q[j + 1..]
    else q
  }

  /** After the clean-up the number of quotes is even; an odd count loses
      exactly its last quote (see `LastQuote`) and nothing else. */
  lemma DropUnbalancedQuoteSpec(q: string)
    ensures QuoteCount(DropUnbalancedQuote(q)) % 2 == 0
    ensures QuoteCount(q) % 2 == 0 ==> DropUnbalancedQuote(q) == q
    ensures QuoteCount(q) % 2 == 1 ==> LastQuote(q) < |q|
  {
    if QuoteCount(q) % 2 == 1 {
      OddCount(q);
    }
  }

  lemma OddCount(q: string)
    requires QuoteCount(q) % 2 == 1
    ensures LastQuote(q) < |q| && QuoteCount(DropUnbalancedQuote(q)) % 2 == 0
  {
    assert multiset(q)['"'] > 0;
    assert '"' in multiset(q);
    var j := LastQuote(q);
    var r := DropUnbalancedQuote(q);
    assert j < |q| && q[j] == '"';
    CountWithout(q, j);
    assert QuoteCount(r) + 1 == QuoteCount(q);
    Parity(QuoteCount(r));
  }

  lemma Parity(m: nat)
    requires (m + 1) % 2 == 1
    ensures m % 2 == 0
  {
  }

  /** Removing the character at `j` lowers its count by one. */
  lemma CountWithout(q: string, j: nat)
    requires j < |q|
    ensures multiset(q[..j] + q[j + 1..])[q[j]] + 1 == multiset(q)[q[j]]
  {
    assert q == q[..j] + [q[j]] + q[j + 1..];
  }

  /** `re.sub(r'[*][*]', '*', query)`: non-overlapping pairs of asterisks,
      found left to right, become one asterisk. */
  function CollapseStars(q: string): (r: string)
    ensures |r| <= |q|
  {
    if |q| >= 2 && q[0] == '*' && q[1] == '*' then ['*'] + CollapseStars(q[2..])
    else if |q| == 0 then []
    else [q[0]] + CollapseStars(q[1..])
  }

  function Stars(n: nat): (r: string)
    ensures |r| == n && forall k :: 0 <= k < n ==> r[k] == '*'
  {
    if n == 0 then [] else ['*'] + Stars(n - 1)
  }

  /** A run of `n` asterisks becomes a run of `ceil(n / 2)`: `***` gives `**`,
      so the clean-up may leave a doubled asterisk behind. */
  lemma {:induction false} CollapseRun(n: nat)
    ensures CollapseStars(Stars(n)) == Stars((n + 1) / 2)
  {
    if n >= 2 {
      var s := Stars(n);
      assert s[0] == '*' && s[1] == '*';
      assert s[2..] == Stars(n - 2);
      CollapseRun(n - 2);
      assert CollapseStars(s) == ['*'] + Stars((n - 1) / 2);
      assert (n + 1) / 2 == (n - 1) / 2 + 1;
    } else if n == 1 {
      assert Stars(1)[1..] == [];
    }
  }

  /** Characters other than `*` are kept, in order. */
  lemma {:induction false} CollapseKeepsOthers(q: string)
    ensures NonStars(CollapseStars(q)) == NonStars(q)
  {
    if |q| >= 2 && q[0] == '*' && q[1] == '*' {
      CollapseKeepsOthers(q[2..]);
      NonStarsCons('*', CollapseStars(q[2..]));
      NonStarsCons('*', q[1..]);
      NonStarsCons('*', q[2..]);
      assert q == ['*'] + q[1..] && q[1..] == ['*'] + q[2..];
    } else if |q| > 0 {
      CollapseKeepsOthers(q[1..]);
      NonStarsCons(q[0], CollapseStars(q[1..]));
      NonStarsCons(q[0], q[1..]);
      assert q == [q[0]] + q[1..];
    }
  }

  /** A query without a doubled asterisk is left unchanged. */
  lemma {:induction false} CollapseNoPairs(q: string)
    requires forall k :: 0 <= k < |q| - 1 ==> !(q[k] == '*' && q[k + 1] == '*')
    ensures CollapseStars(q) == q
  {
    if |q| > 0 {
      CollapseNoPairs(q[1..]);
      assert q == [q[0]] + q[1..];
    }
  }

  function NonStars(q: string): string
  {
    if |q| == 0 then [] else (if q[0] == '*' then [] else [q[0]]) + NonStars(q[1..])
  }

  lemma NonStarsCons(c: char, q: string)
    ensures NonStars([c] + q) == (if c == '*' then [] else [c]) + NonStars(q)
  {
    assert ([c] + q)[1..] == q;
  }
}
