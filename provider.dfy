/** The administration and modification side of the SQLite provider
    (`oce/providers/sqlite/sqlite.py`, with the older `update_record` of
    `oce/providers/sqlite.py`): switching the suffix tokeniser between its
    two modes, updating one field of a record, renaming a tag on every
    record that has it, and choosing the statements that drop or recreate
    the full-text structures.

    The Records table is a map from row id to row; a row maps each column
    name to its stored text or to `None` for NULL. The RecordTags table is
    the tag-count table of `TagTable`. */
module SqliteProvider {
  import opened Strings
  import opened Wrappers
  import FtsFields
  import TagTable
  import Tokenisers

  type Row = map<string, Option<string>>

  /** The Records table and the RecordTags table. */
  datatype Store = Store(records: map<int, Row>, counts: map<string, int>)

  // ---------------------------------------------------------------------------
  // set_config
  // ---------------------------------------------------------------------------

  const SuffixSearch := "suffix_search"
  const TrueWord := "true"
  const FalseWord := "false"
  const InvalidValue := "invalid_value"
  const InvalidOption := "invalid_option"

  /** The reply to `set_config`: the option and its new value, or the option
      and the reason it was refused. */
  datatype ConfigReply = Set(option: string, value: bool) | Rejected(option: string, reason: string)

  /** What `set_config(option, value)` answers. */
  function ConfigAnswer(option: string, value: string): (r: ConfigReply)
    ensures r.option == option
    ensures r.Set? <==> option == SuffixSearch && (LowerStr(value) == TrueWord || LowerStr(value) == FalseWord)
    ensures r.Set? ==> (r.value <==> LowerStr(value) == TrueWord)
    ensures r.Rejected? ==> r.reason == if option == SuffixSearch then InvalidValue else InvalidOption
  {
    if option == SuffixSearch then
      if LowerStr(value) == FalseWord then Set(option, false)
      else if LowerStr(value) == TrueWord then Set(option, true)
      else Rejected(option, InvalidValue)
    else Rejected(option, InvalidOption)
  }

  // ---------------------------------------------------------------------------
  // update_record
  // ---------------------------------------------------------------------------

  const TagField := "tag"
  const LanguageField := "language"
  const AttributeError := "AttributeError"
  const ValueError := "ValueError"

  /** The replies of `update_record` that are not an exception. */
  datatype UpdateReply = Success | InvalidField

  datatype Outcome<R> = Outcome(reply: Result<R>, store: Store)

  /** The value that is stored: a language list normalised first, then the
      full-text prefix of the field added. */
  function StoredValue(field: string, value: string): (r: Result<string>)
    ensures field != LanguageField ==> r == Ok(FtsFields.FtsTag(field, value))
    ensures field == LanguageField ==>
      (r.Err? <==> FtsFields.NormaliseLanguage(value).Err?)
  {
    if field == LanguageField then
      match FtsFields.NormaliseLanguage(value)
      case Ok(v) => Ok(FtsFields.FtsTag(field, v))
      case Err(e) => Err(e)
    else Ok(FtsFields.FtsTag(field, value))
  }

  /** What `update_record(row_id, field, value)` answers and leaves behind.
      A missing row is no error: the loop over the matching rows does not
      run. */
  function Update(st: Store, rowId: int, field: string, value: string): (o: Outcome<UpdateReply>)
    ensures rowId !in st.records ==> o == Outcome(Ok(Success), st)
    ensures rowId in st.records && field !in st.records[rowId] ==> o == Outcome(Ok(InvalidField), st)
    ensures o.reply.Err? ==> field == LanguageField && o.store == st
    ensures field != TagField || o.reply.Err? ==> o.store.counts == st.counts
    ensures rowId in st.records && field == TagField && field in st.records[rowId] ==>
      o.reply == Ok(Success) &&
      o.store.counts == TagTable.Update(st.counts, value, FtsFields.FtsDetag(TagField, st.records[rowId][TagField]))
  {
    if rowId !in st.records then Outcome(Ok(Success), st)
    else
      var row := st.records[rowId];
      if field !in row then Outcome(Ok(InvalidField), st)
      else
        match StoredValue(field, value)
        case Err(e) => Outcome(Err(e), st)
        case Ok(v) =>
          var counts :=
            if field == TagField then TagTable.Update(st.counts, value, FtsFields.FtsDetag(TagField, row[TagField]))
            else st.counts;
          Outcome(Ok(Success), Store(st.records[rowId := row[field := Some(v)]], counts))
  }

  /** The older `update_record` has no check of the field name: an unknown
      field reaches `getattr` and raises. */
  function UpdateOlder(st: Store, rowId: int, field: string, value: string): (o: Outcome<UpdateReply>)
    ensures rowId !in st.records || field in st.records[rowId] ==> o == Update(st, rowId, field, value)
    ensures rowId in st.records && field !in st.records[rowId] ==>
      o == Outcome(Err(AttributeError), st) && Update(st, rowId, field, value) == Outcome(Ok(InvalidField), st)
  {
    if rowId in st.records && field !in st.records[rowId] then Outcome(Err(AttributeError), st)
    else Update(st, rowId, field, value)
  }

  // ---------------------------------------------------------------------------
  // execute_retag
  // ---------------------------------------------------------------------------

  /** The index of the first occurrence, as `list.index`. */
  function FirstIndex(ts: seq<string>, t: string): (i: nat)
    requires t in ts
    ensures i < |ts| && ts[i] == t && t !in ts[..i]
  {
    if ts[0] == t then 0 else FirstIndex(ts[1..], t) + 1
  }

  /** The new tag list of one record: its first `old_tag` replaced by
      `new_tag`, joined with commas. */
  function RetagTags(tags: string, oldTag: string, newTag: string): string
    requires oldTag in Split(tags, ',')
  {
    var ts := Split(tags, ',');
    Join([','], ts[FirstIndex(ts, oldTag) := newTag])
  }

  datatype RetagReply = RetagSuccess | RetagError

  /** The loop of `execute_retag` over the records the search found, each a
      row id with its tag list as read back. A record whose list does not
      hold `old_tag` makes `index` raise; the records before it stay
      updated. */
  function RetagFrom(st: Store, oldTag: string, newTag: string, found: seq<(int, string)>): (o: Outcome<RetagReply>)
    decreases |found|
  {
    if found == [] then Outcome(Ok(RetagSuccess), st)
    else
      var (rowId, tags) := found[0];
      if oldTag !in Split(tags, ',') then Outcome(Err(ValueError), st)
      else RetagFrom(Update(st, rowId, TagField, RetagTags(tags, oldTag, newTag)).store, oldTag, newTag, found[1..])
  }

  /** `execute_retag(old_tag, new_tag)`: a comma in either tag is refused
      before anything changes. */
  function Retag(st: Store, oldTag: string, newTag: string, found: seq<(int, string)>): (o: Outcome<RetagReply>)
  {
    if ',' in oldTag + newTag then Outcome(Ok(RetagError), st)
    else RetagFrom(st, oldTag, newTag, found)
  }

  // ---------------------------------------------------------------------------
  // The provider
  // ---------------------------------------------------------------------------

  class Provider {
    var records: map<int, Row>
    const tags: TagTable.TagCounts
    const suffixer: Tokenisers.Suffixer

    /** The RecordTags table holds positive counts only. */
    predicate Valid()
      reads this, tags
    {
      tags.Valid()
    }

    function State(): Store
      reads this, tags
    {
      Store(records, tags.counts)
    }

    constructor (initial: map<int, Row>, counts: map<string, int>)
      requires TagTable.Positive(counts)
      ensures records == initial && tags.counts == counts && !suffixer.searchMode
      ensures fresh(tags) && fresh(suffixer)
      ensures Valid()
    {
      records := initial;
      tags := new TagTable.TagCounts(counts);
      suffixer := new Tokenisers.Suffixer();
    }

    /** `set_config(option, value)`: only `suffix_search` is settable, to
        `true` or `false` in any case. */
    method SetConfig(option: string, value: string) returns (reply: ConfigReply)
      modifies suffixer
      ensures reply == ConfigAnswer(option, value)
      ensures suffixer.searchMode == if reply.Set? then reply.value else old(suffixer.searchMode)
    {
      if option == SuffixSearch {
        var v := LowerStr(value);
        if v == FalseWord {
          suffixer.searchMode := false;
          return Set(option, false);
        } else if v == TrueWord {
          suffixer.searchMode := true;
          return Set(option, true);
        } else {
          return Rejected(option, InvalidValue);
        }
      } else {
        return Rejected(option, InvalidOption);
      }
    }

    /** `update_record(row_id, field, value)` */
    method UpdateRecord(rowId: int, field: string, value: string) returns (r: Result<UpdateReply>)
      modifies this, tags
      ensures Outcome(r, State()) == Update(old(State()), rowId, field, value)
      ensures old(Valid()) ==> Valid()
    {
      if rowId !in records {
        return Ok(Success);
      }
      var row := records[rowId];
      if field !in row {
        return Ok(InvalidField);
      }
      var v := value;
      if field == TagField {
        var oldTags := FtsFields.FtsDetag(TagField, row[TagField]);
        tags.UpdateTags(value, oldTags);
      } else if field == LanguageField {
        var normalised := FtsFields.NormaliseLanguage(value);
        if normalised.Err? {
          return Err(normalised.error);
        }
        v := normalised.value;
      }
      v := FtsFields.FtsTag(field, v);
      records := records[rowId := row[field := Some(v)]];
      r := Ok(Success);
    }

    /** `execute_retag(old_tag, new_tag)`, with the records found by the
        search `tag:old_tag` given. */
    method ExecuteRetag(oldTag: string, newTag: string, found: seq<(int, string)>) returns (r: Result<RetagReply>)
      modifies this, tags
      ensures Outcome(r, State()) == Retag(old(State()), oldTag, newTag, found)
      ensures old(Valid()) ==> Valid()
    {
      if ',' in oldTag + newTag {
        return Ok(RetagError);
      }
      for i := 0 to |found|
        invariant RetagFrom(State(), oldTag, newTag, found[i..]) == RetagFrom(old(State()), oldTag, newTag, found)
        invariant old(Valid()) ==> Valid()
      {
        var (rowId, tag) := found[i];
        var newTags := Split(tag, ',');
        if oldTag !in newTags {
          return Err(ValueError);
        }
        newTags := newTags[FirstIndex(newTags, oldTag) := newTag];
        var joined := Join([','], newTags);
        assert found[i..][1..] == found[i + 1..];
        var _ := UpdateRecord(rowId, TagField, joined);
      }
      r := Ok(RetagSuccess);
    }
  }

  // ---------------------------------------------------------------------------
  // What an update does
  // ---------------------------------------------------------------------------

  /** Reading the field back through the row dictionary, which removes the
      full-text prefix, gives the value written (the normalised list for a
      language); every other field and every other row is unchanged. */
  lemma UpdateReadBack(st: Store, rowId: int, field: string, value: string)
    requires rowId in st.records && field in st.records[rowId]
    requires Update(st, rowId, field, value).reply.Ok?
    ensures var st' := Update(st, rowId, field, value).store;
      rowId in st'.records && field in st'.records[rowId] &&
      FtsFields.FtsDetag(field, st'.records[rowId][field]) ==
        (if field == LanguageField then FtsFields.NormaliseLanguage(value).value else value)
    ensures var st' := Update(st, rowId, field, value).store;
      st'.records.Keys == st.records.Keys && st'.records[rowId].Keys == st.records[rowId].Keys &&
      (forall id :: id in st.records && id != rowId ==> st'.records[id] == st.records[id]) &&
      (forall f :: f in st.records[rowId] && f != field ==> st'.records[rowId][f] == st.records[rowId][f])
  {
    if field == LanguageField {
      FtsFields.DetagTag(field, FtsFields.NormaliseLanguage(value).value);
    } else {
      FtsFields.DetagTag(field, value);
    }
  }

  /** A stored language list reads back in normal form: normalising it
      again changes nothing. */
  lemma UpdateLanguageNormal(st: Store, rowId: int, value: string)
    requires rowId in st.records && LanguageField in st.records[rowId]
    requires Update(st, rowId, LanguageField, value).reply.Ok?
    ensures var st' := Update(st, rowId, LanguageField, value).store;
      var back := FtsFields.FtsDetag(LanguageField, st'.records[rowId][LanguageField]);
      FtsFields.NormaliseLanguage(back) == Ok(back)
  {
    var st' := Update(st, rowId, LanguageField, value).store;
    var back := FtsFields.FtsDetag(LanguageField, st'.records[rowId][LanguageField]);
    var n := FtsFields.NormaliseLanguage(value).value;
    assert back == n by {
      UpdateReadBack(st, rowId, LanguageField, value);
    }
    if n == [] {
      assert IsBlank(n);
    } else {
      FtsFields.NormaliseIdempotent(value);
    }
  }

  /** The table keeps only positive counts. */
  lemma UpdateKeepsPositive(st: Store, rowId: int, field: string, value: string)
    requires TagTable.Positive(st.counts)
    ensures TagTable.Positive(Update(st, rowId, field, value).store.counts)
  {
    if rowId in st.records && field == TagField && field in st.records[rowId] {
      TagTable.UpdatePositive(st.counts, value, FtsFields.FtsDetag(TagField, st.records[rowId][TagField]));
    }
  }

  // ---------------------------------------------------------------------------
  // What a retag does
  // ---------------------------------------------------------------------------

  /** The new list of one record: the same length, `new_tag` where the
      first `old_tag` was and every other tag in place; since neither tag
      holds a comma, splitting the stored string gives that list back. */
  lemma RetagTagsShape(tags: string, oldTag: string, newTag: string)
    requires oldTag in Split(tags, ',') && ',' !in newTag
    ensures var ts, i := Split(tags, ','), FirstIndex(Split(tags, ','), oldTag);
      var ns := Split(RetagTags(tags, oldTag, newTag), ',');
      |ns| == |ts| && ns[i] == newTag && oldTag !in ns[..i] &&
      (forall k :: 0 <= k < |ts| && k != i ==> ns[k] == ts[k])
  {
    var ts := Split(tags, ',');
    var ns := ts[FirstIndex(ts, oldTag) := newTag];
    SplitJoin(ns, ',');
  }

  /** One occurrence of `old_tag` is traded for `new_tag`: the multiset of
      tags loses one `old_tag` and gains one `new_tag`. */
  lemma RetagTagsMultiset(tags: string, oldTag: string, newTag: string)
    requires oldTag in Split(tags, ',') && ',' !in newTag
    ensures multiset(Split(RetagTags(tags, oldTag, newTag), ',')) ==
      multiset(Split(tags, ',')) - multiset{oldTag} + multiset{newTag}
  {
    var ts := Split(tags, ',');
    var i := FirstIndex(ts, oldTag);
    assert Split(RetagTags(tags, oldTag, newTag), ',') == ts[i := newTag] by {
      SplitJoin(ts[i := newTag], ',');
    }
    MultisetOfUpdate(ts, i, newTag);
  }

  /** Overwriting one element trades it for the new one in the multiset. */
  lemma MultisetOfUpdate(ts: seq<string>, i: nat, y: string)
    requires i < |ts|
    ensures multiset(ts[i := y]) == multiset(ts) - multiset{ts[i]} + multiset{y}
  {
    assert ts == ts[..i] + [ts[i]] + ts[i + 1..];
    assert ts[i := y] == ts[..i] + [y] + ts[i + 1..];
  }

  /** A comma in either tag changes nothing; otherwise every record the
      search found, up to the first whose list lacks `old_tag`, is written
      in turn. */
  lemma RetagRefusesComma(st: Store, oldTag: string, newTag: string, found: seq<(int, string)>)
    requires ',' in oldTag || ',' in newTag
    ensures Retag(st, oldTag, newTag, found) == Outcome(Ok(RetagError), st)
  {
    assert ',' in oldTag + newTag by {
      if ',' in oldTag {
        var k :| 0 <= k < |oldTag| && oldTag[k] == ',';
        assert (oldTag + newTag)[k] == ',';
      } else {
        var k :| 0 <= k < |newTag| && newTag[k] == ',';
        assert (oldTag + newTag)[|oldTag| + k] == ',';
      }
    }
  }

  /** When every found record holds `old_tag`, the retag succeeds. */
  lemma {:induction false} RetagSucceeds(st: Store, oldTag: string, newTag: string, found: seq<(int, string)>)
    requires forall k :: 0 <= k < |found| ==> oldTag in Split(found[k].1, ',')
    ensures RetagFrom(st, oldTag, newTag, found).reply == Ok(RetagSuccess)
    decreases |found|
  {
    if found != [] {
      var (rowId, tags) := found[0];
      RetagSucceeds(Update(st, rowId, TagField, RetagTags(tags, oldTag, newTag)).store, oldTag, newTag, found[1..]);
    }
  }

  /** The retag loop keeps the tag table positive. */
  lemma {:induction false} RetagKeepsPositive(st: Store, oldTag: string, newTag: string, found: seq<(int, string)>)
    requires TagTable.Positive(st.counts)
    ensures TagTable.Positive(RetagFrom(st, oldTag, newTag, found).store.counts)
    decreases |found|
  {
    if found != [] {
      var (rowId, tags) := found[0];
      if oldTag in Split(tags, ',') {
        var st' := Update(st, rowId, TagField, RetagTags(tags, oldTag, newTag)).store;
        UpdateKeepsPositive(st, rowId, TagField, RetagTags(tags, oldTag, newTag));
        RetagKeepsPositive(st', oldTag, newTag, found[1..]);
      }
    }
  }

  // ---------------------------------------------------------------------------
  // execute_drop and execute_recreate
  // ---------------------------------------------------------------------------

  /** The statement lists of the schema module, taken as given. */
  datatype Schema = Schema(
    dropFts: seq<string>, createFts: seq<string>,
    dropSuffixes: seq<string>, createSuffixes: seq<string>,
    dropTriggers: seq<string>, createTriggers: seq<string>)

  const Fts := "fts"
  const Suffixes := "suffixes"
  const Triggers := "triggers"
  const All := "all"

  predicate IsTarget(target: string)
  {
    target == Fts || target == Suffixes || target == Triggers || target == All
  }

  /** The message of the error raised for an unknown target. */
  function TargetError(target: string): (m: string)
    ensures "'" + target <= m
  {
    "'" + target + "' was not recognised as a valid target.\r\nOptions are:\r\nfts suffixes triggers all"
  }

  /** The statements `execute_drop(target)` runs. */
  function DropStatements(db: Schema, target: string): (r: Result<seq<string>>)
    ensures r.Ok? <==> IsTarget(target)
    ensures r.Err? ==> r.error == TargetError(target)
  {
    if target == Fts then Ok(db.dropFts)
    else if target == Suffixes then Ok(db.dropSuffixes)
    else if target == Triggers then Ok(db.dropTriggers)
    else if target == All then Ok(db.dropFts + db.dropSuffixes + db.dropTriggers)
    else Err(TargetError(target))
  }

  /** The statements `execute_recreate(target)` runs. */
  function RecreateStatements(db: Schema, target: string): (r: Result<seq<string>>)
    ensures r.Ok? <==> IsTarget(target)
    ensures r.Err? ==> r.error == TargetError(target)
    ensures target == Fts ==> r.value == DropStatements(db, target).value + db.createFts
    ensures target == Suffixes ==> r.value == DropStatements(db, target).value + db.createSuffixes
    ensures target == Triggers ==> r.value == DropStatements(db, target).value + db.createTriggers
  {
    if target == Fts then Ok(db.dropFts + db.createFts)
    else if target == Suffixes then Ok(db.dropSuffixes + db.createSuffixes)
    else if target == Triggers then Ok(db.dropTriggers + db.createTriggers)
    else if target == All then
      Ok(db.dropFts + db.createFts + db.dropSuffixes + db.createSuffixes + db.dropTriggers + db.createTriggers)
    else Err(TargetError(target))
  }

  /** `all` is the three single targets in the order fts, suffixes,
      triggers, for dropping and for recreating alike. */
  lemma AllInOrder(db: Schema)
    ensures DropStatements(db, All).value ==
      DropStatements(db, Fts).value + DropStatements(db, Suffixes).value + DropStatements(db, Triggers).value
    ensures RecreateStatements(db, All).value ==
      RecreateStatements(db, Fts).value + RecreateStatements(db, Suffixes).value + RecreateStatements(db, Triggers).value
  {
    var a, b, c := db.dropFts + db.createFts, db.dropSuffixes + db.createSuffixes, db.dropTriggers + db.createTriggers;
    assert a + b + c == db.dropFts + db.createFts + db.dropSuffixes + db.createSuffixes + db.dropTriggers + db.createTriggers;
  }
}
