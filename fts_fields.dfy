/** Field tagging for full-text search and language-label normalisation
    (`oce/providers/util.py`, with the older copies in `oce/db.py`).

    A non-blank comment, tag list or language list is stored with a short
    prefix (`cmt: `, `tags: `, `lang: `) so that a full-text MATCH on the
    prefix word finds every record that has such a field. */
module FtsFields {
  import opened Strings
  import opened Wrappers

  /** The `fts_tags` table: field name to prefix. */
  const FtsTags: map<string, string> := map["comment" := "cmt: ", "tag" := "tags: ", "language" := "lang: "]

  const IndexError := "IndexError: string index out of range"

  /** `fts_tag(field, content)`: the prefix is added to non-blank content of a
      tagged field; anything else is stored as given. */
  function FtsTag(field: string, content: string): (r: string)
    ensures field in FtsTags && !IsBlank(content) ==> r == FtsTags[field] + content
    ensures field !in FtsTags || IsBlank(content) ==> r == content
  {
    if field in FtsTags && Strip(content) != [] then FtsTags[field] + content else content
  }

  /** `fts_detag(field, content)`: a missing value (`None`) reads as the empty
      string; content starting with the field's prefix loses exactly that
      prefix; anything else is returned as it is. */
  function FtsDetag(field: string, content: Option<string>): (r: string)
    ensures content == None ==> r == []
    ensures content.Some? && field in FtsTags && FtsTags[field] <= content.value ==>
      content.value == FtsTags[field] + r
    ensures content.Some? && !(field in FtsTags && FtsTags[field] <= content.value) ==> r == content.value
  {
    if content.None? then []
    else
      var c := content.value;
      // `c.split(prefix, 1)[1]`: the first occurrence of the prefix is at 0
      if field in FtsTags && FtsTags[field] <= c then c[|FtsTags[field]|..] else c
  }

  /** Every prefix starts with a letter, so blank content never starts with
      one. */
  lemma BlankHasNoPrefix(field: string, content: string)
    requires field in FtsTags && IsBlank(content)
    ensures !(FtsTags[field] <= content)
  {
    var p := FtsTags[field];
    assert |p| > 0 && !IsSpace(p[0]);
    assert content == [] || IsSpace(content[0]);
  }

  /** Removing the tag undoes adding it, for every field and every content. */
  lemma DetagTag(field: string, content: string)
    ensures FtsDetag(field, Some(FtsTag(field, content))) == content
  {
    if field in FtsTags && IsBlank(content) {
      BlankHasNoPrefix(field, content);
    }
  }

  // ---------------------------------------------------------------------------
  // The older copies in db.py
  // ---------------------------------------------------------------------------

  /** `ftsaddtag`: one test per field instead of a table lookup. */
  function DbAddTag(field: string, content: string): (r: string)
  {
    if field == "comment" && Strip(content) != [] then "cmt: " + content
    else if field == "tag" && Strip(content) != [] then "tags: " + content
    else if field == "language" && Strip(content) != [] then "lang: " + content
    else content
  }

  /** `ftsdetag`: `None` becomes the empty string before the prefix tests. */
  function DbDetag(field: string, content: Option<string>): (r: string)
  {
    var c := if content.None? then [] else content.value;
    if field == "comment" && "cmt: " <= c then c[5..]
    else if field == "tag" && "tags: " <= c then c[6..]
    else if field == "language" && "lang: " <= c then c[6..]
    else c
  }

  /** The db.py tagging helper computes exactly what `fts_tag` computes. */
  lemma DbAddTagAgrees(field: string, content: string)
    ensures DbAddTag(field, content) == FtsTag(field, content)
  {
    if field == "comment" {
      assert FtsTags[field] == "cmt: ";
    } else if field == "tag" {
      assert FtsTags[field] == "tags: ";
    } else if field == "language" {
      assert FtsTags[field] == "lang: ";
    } else {
      assert field !in FtsTags;
    }
  }

  /** The db.py detagging helper computes exactly what `fts_detag` computes,
      so it undoes `ftsaddtag` too. */
  lemma DbDetagAgrees(field: string, stored: Option<string>)
    ensures DbDetag(field, stored) == FtsDetag(field, stored)
  {
  }

  // ---------------------------------------------------------------------------
  // Language labels
  // ---------------------------------------------------------------------------

  /** `y[0].upper() + y[1:].lower()` */
  function Capitalise(y: string): (r: string)
    requires |y| > 0
    ensures |r| == |y| && IsStripped(r) == IsStripped(y)
  {
    [Upper(y[0])] + LowerStr(y[1..])
  }

  /** Labels of a comma-separated list, each stripped. */
  function StripEach(labels: seq<string>): (r: seq<string>)
    ensures |r| == |labels| && forall k :: 0 <= k < |r| ==> r[k] == Strip(labels[k])
  {
    seq(|labels|, k requires 0 <= k < |labels| => Strip(labels[k]))
  }

  function CapitaliseEach(labels: seq<string>): (r: seq<string>)
    requires forall k :: 0 <= k < |labels| ==> |labels[k]| > 0
    ensures |r| == |labels| && forall k :: 0 <= k < |r| ==> r[k] == Capitalise(labels[k])
  {
    seq(|labels|, k requires 0 <= k < |labels| => Capitalise(labels[k]))
  }

  predicate NoEmptyLabel(labels: seq<string>)
  {
    forall k :: 0 <= k < |labels| ==> |labels[k]| > 0
  }

  /** `normalise_language`: split on commas, strip and capitalise every label,
      sort, join with `", "`. A label that is empty after stripping makes
      `y[0]` raise. */
  function NormaliseLabels(languages: string): (r: Result<string>)
  {
    var labels := StripEach(Split(languages, ','));
    if !NoEmptyLabel(labels) then Err(IndexError)
    else Ok(Join(", ", Sort(CapitaliseEach(labels))))
  }

  /** `langid_normalise_language`: blank input gives the empty string. */
  function NormaliseLanguage(languages: string): (r: Result<string>)
    ensures IsBlank(languages) ==> r == Ok([])
  {
    if Strip(languages) == [] then Ok([]) else NormaliseLabels(languages)
  }

  /** `pre_update_language` in db.py: the same blank test in front of its own
      copy of the normaliser. */
  function DbPreUpdateLanguage(languages: string): (r: Result<string>)
  {
    if Strip(languages) == [] then Ok([]) else NormaliseLabels(languages)
  }

  lemma DbPreUpdateLanguageAgrees(languages: string)
    ensures DbPreUpdateLanguage(languages) == NormaliseLanguage(languages)
  {
  }

  /** A label of the normalised output: non-empty, no surrounding whitespace,
      no comma, capitalised. */
  predicate IsNormalLabel(y: string)
  {
    |y| > 0 && IsStripped(y) && ',' !in y && Capitalise(y) == y
  }

  lemma CapitaliseNormal(y: string)
    requires |y| > 0 && IsStripped(y) && ',' !in y
    ensures IsNormalLabel(Capitalise(y))
  {
    var r := Capitalise(y);
    assert ',' !in r by {
      forall k | 0 <= k < |r| ensures r[k] != ',' {
        assert k == 0 || r[k] == Lower(y[k]);
        assert y[k] in y;
      }
    }
    LowerStrIdempotent(y[1..]);
    assert r[1..] == LowerStr(y[1..]);
  }

  /** The non-blank path succeeds exactly when no label is blank, and then
      yields the labels stripped, capitalised and sorted, joined by `", "`:
      as many labels as went in, each in normal form. */
  lemma NormaliseLanguageShape(languages: string)
    requires !IsBlank(languages)
    ensures var labels := StripEach(Split(languages, ','));
      NormaliseLanguage(languages).Ok? <==> NoEmptyLabel(labels)
    ensures var labels := StripEach(Split(languages, ','));
      NormaliseLanguage(languages).Ok? ==>
        exists out: seq<string> ::
          NormaliseLanguage(languages).value == Join(", ", out) && Sorted(out) &&
          multiset(out) == multiset(CapitaliseEach(labels)) &&
          |out| == |Split(languages, ',')| &&
          (forall k :: 0 <= k < |out| ==> IsNormalLabel(out[k]))
  {
    var labels := StripEach(Split(languages, ','));
    if NoEmptyLabel(labels) {
      var out := Sort(CapitaliseEach(labels));
      NormalLabelsSorted(Split(languages, ','), out);
    }
  }

  /** The labels sorted by the normaliser are all in normal form. */
  lemma NormalLabelsSorted(parts: seq<string>, out: seq<string>)
    requires forall k :: 0 <= k < |parts| ==> ',' !in parts[k]
    requires NoEmptyLabel(StripEach(parts))
    requires multiset(out) == multiset(CapitaliseEach(StripEach(parts)))
    ensures forall k :: 0 <= k < |out| ==> IsNormalLabel(out[k])
  {
    var caps := CapitaliseEach(StripEach(parts));
    forall k | 0 <= k < |out| ensures IsNormalLabel(out[k]) {
      assert out[k] in multiset(caps);
      var j :| 0 <= j < |caps| && caps[j] == out[k];
      var y := Strip(parts[j]);
      assert ',' !in y by {
        StripSubstring(parts[j]);
      }
      CapitaliseNormal(y);
    }
  }

  /** Stripping keeps only characters of the input. */
  lemma StripSubstring(s: string)
    ensures forall c :: c in Strip(s) ==> c in s
  {
    var l := LStrip(s);
    LStripSpec(s);
    assert forall c :: c in RStrip(l) ==> c in l;
    assert forall c :: c in l ==> c in s;
  }

  /** Splitting a `", "`-joined list of normal labels gives back the labels,
      each but the first with its space, and stripping removes the space. */
  lemma {:induction false} SplitNormalJoin(out: seq<string>)
    requires |out| >= 1 && forall k :: 0 <= k < |out| ==> IsNormalLabel(out[k])
    ensures StripEach(Split(Join(", ", out), ',')) == out
  {
    JoinCommaSpace(out);
    var parts := [out[0]] + SpaceEach(out[1..]);
    forall k | 0 <= k < |parts| ensures ',' !in parts[k] {
      if k > 0 {
        assert parts[k] == [' '] + out[k];
      }
    }
    SplitJoin(parts, ',');
    forall k | 0 <= k < |parts| ensures Strip(parts[k]) == out[k] {
      if k == 0 {
        StripStripped(out[0]);
      } else {
        StripAfterSpace(out[k]);
      }
    }
  }

  /** Labels in normal form survive a round through `", "`.join, split,
      strip and capitalise. */
  lemma NormalLabelsRecovered(out: seq<string>)
    requires |out| >= 1 && forall k :: 0 <= k < |out| ==> IsNormalLabel(out[k])
    ensures NoEmptyLabel(StripEach(Split(Join(", ", out), ',')))
    ensures CapitaliseEach(StripEach(Split(Join(", ", out), ','))) == out
  {
    SplitNormalJoin(out);
  }

  /** A sorted `", "`-joined list of labels in normal form is left as it is
      by the normaliser. */
  lemma NormaliseFixpoint(out: seq<string>)
    requires |out| >= 1 && Sorted(out) && forall k :: 0 <= k < |out| ==> IsNormalLabel(out[k])
    ensures NormaliseLanguage(Join(", ", out)) == Ok(Join(", ", out))
  {
    var r := Join(", ", out);
    NormalLabelsRecovered(out);
    SortSorted(out);
    assert NormaliseLabels(r) == Ok(r);
    JoinHead(", ", out);
    assert Strip(r) != [];
  }

  /** Normalisation is idempotent on its own non-blank output. */
  lemma NormaliseIdempotent(languages: string)
    requires NormaliseLanguage(languages).Ok? && NormaliseLanguage(languages).value != []
    ensures NormaliseLanguage(NormaliseLanguage(languages).value) == NormaliseLanguage(languages)
  {
    NormaliseLanguageShape(languages);
    var out :| NormaliseLanguage(languages).value == Join(", ", out) && Sorted(out) &&
      |out| == |Split(languages, ',')| && (forall k :: 0 <= k < |out| ==> IsNormalLabel(out[k]));
    NormaliseFixpoint(out);
  }

}
