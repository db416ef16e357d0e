/** The tag-count table kept beside the records (`_update_tags`, written
    three times over in `oce/providers/sqlite/sqlite.py`,
    `oce/providers/sqlite.py` and `oce/db.py`, with the same code).

    A record's tags are a comma-separated string. When it changes, the tags
    that are new get their row created with count 1 or counted up, and the
    tags that went away are counted down, their row deleted when the count
    reaches 0. The RecordTags table is a map from tag to count. */
module TagTable {
  import opened Strings

  /** The tags of a record: none for the empty string, the pieces of
      `split(',')` otherwise. */
  function TagList(tags: string): (r: seq<string>)
    ensures tags == [] <==> r == []
    ensures tags != [] ==> Join([','], r) == tags
    ensures forall k :: 0 <= k < |r| ==> ',' !in r[k]
  {
    if tags == [] then []
    else
      JoinSplit(tags, ',');
      Split(tags, ',')
  }

  /** `[x for x in a if x not in b]`: every occurrence in `a` of a tag not
      in `b`, and nothing else. */
  function Minus(a: seq<string>, b: seq<string>): (r: seq<string>)
    ensures forall t :: multiset(r)[t] == if t in b then 0 else multiset(a)[t]
  {
    if a == [] then []
    else
      var rest := Minus(a[1..], b);
      assert a == [a[0]] + a[1..];
      if a[0] in b then rest else [a[0]] + rest
  }

  /** The count of a tag; a tag without a row counts 0. */
  function Count(m: map<string, int>, t: string): int
  {
    if t in m then m[t] else 0
  }

  /** Every row of the table holds a positive count. */
  predicate Positive(m: map<string, int>)
  {
    forall t :: t in m ==> m[t] > 0
  }

  /** One added tag: a new row with count 1, or the row counted up. */
  function AddTag(m: map<string, int>, t: string): (r: map<string, int>)
    ensures r == m[t := Count(m, t) + 1]
  {
    if t !in m then m[t := 1] else m[t := m[t] + 1]
  }

  /** One removed tag: a tag without a row is ignored; otherwise the row is
      counted down and deleted when the count reaches 0. */
  function RemoveTag(m: map<string, int>, t: string): (r: map<string, int>)
    ensures t !in m ==> r == m
    ensures t in m && m[t] == 1 ==> r == m - {t}
    ensures t in m && m[t] != 1 ==> r == m[t := m[t] - 1]
  {
    if t !in m then m
    else
      var c := m[t] - 1;
      if c == 0 then m - {t} else m[t := c]
  }

  /** The loop over the added tags. */
  function AddAll(m: map<string, int>, ts: seq<string>): map<string, int>
  {
    if ts == [] then m else AddTag(AddAll(m, ts[..|ts| - 1]), ts[|ts| - 1])
  }

  /** The loop over the removed tags. */
  function RemoveAll(m: map<string, int>, ts: seq<string>): map<string, int>
  {
    if ts == [] then m else RemoveTag(RemoveAll(m, ts[..|ts| - 1]), ts[|ts| - 1])
  }

  /** The tags of the new list that the old one lacks. */
  function Added(newTags: string, oldTags: string): seq<string>
  {
    Minus(TagList(newTags), TagList(oldTags))
  }

  /** The tags of the old list that the new one lacks. */
  function Removed(newTags: string, oldTags: string): seq<string>
  {
    Minus(TagList(oldTags), TagList(newTags))
  }

  /** The table after `_update_tags(new_tags, old_tags)`. */
  function Update(m: map<string, int>, newTags: string, oldTags: string): map<string, int>
  {
    RemoveAll(AddAll(m, Added(newTags, oldTags)), Removed(newTags, oldTags))
  }

  class TagCounts {
    /** The RecordTags table. */
    var counts: map<string, int>

    predicate Valid()
      reads this
    {
      Positive(counts)
    }

    constructor (initial: map<string, int>)
      ensures counts == initial
      ensures Positive(initial) ==> Valid()
    {
      counts := initial;
    }

    /** `_update_tags(new_tags, old_tags)` */
    method UpdateTags(newTags: string, oldTags: string)
      modifies this
      ensures counts == Update(old(counts), newTags, oldTags)
      ensures old(Valid()) ==> Valid()
    {
      AddTags(Added(newTags, oldTags));
      RemoveTags(Removed(newTags, oldTags));
      if old(Valid()) {
        UpdatePositive(old(counts), newTags, oldTags);
      }
    }

    /** The loop over the added tags. */
    method AddTags(added: seq<string>)
      modifies this
      ensures counts == AddAll(old(counts), added)
    {
      var i := 0;
      while i < |added|
        invariant 0 <= i <= |added|
        invariant counts == AddAll(old(counts), added[..i])
      {
        var tag := added[i];
        if tag !in counts {
          counts := counts[tag := 1];
        } else {
          counts := counts[tag := counts[tag] + 1];
        }
        assert added[..i + 1][..i] == added[..i];
        i := i + 1;
      }
      assert added[..i] == added;
    }

    /** The loop over the removed tags. */
    method RemoveTags(removed: seq<string>)
      modifies this
      ensures counts == RemoveAll(old(counts), removed)
    {
      var j := 0;
      while j < |removed|
        invariant 0 <= j <= |removed|
        invariant counts == RemoveAll(old(counts), removed[..j])
      {
        var tag := removed[j];
        if tag in counts {
          var c := counts[tag] - 1;
          if c == 0 {
            counts := counts - {tag};
          } else {
            counts := counts[tag := c];
          }
        }
        assert removed[..j + 1][..j] == removed[..j];
        j := j + 1;
      }
      assert removed[..j] == removed;
    }
  }

  // ---------------------------------------------------------------------------
  // What the update does to each count
  // ---------------------------------------------------------------------------

  /** Adding tags counts each one up by its number of occurrences, and
      creates a row for each one that had none. */
  lemma {:induction false} CountAddAll(m: map<string, int>, ts: seq<string>, t: string)
    ensures Count(AddAll(m, ts), t) == Count(m, t) + multiset(ts)[t]
    ensures t in AddAll(m, ts) <==> t in m || t in ts
    decreases |ts|
  {
    if ts != [] {
      var init := ts[..|ts| - 1];
      CountAddAll(m, init, t);
      assert ts == init + [ts[|ts| - 1]];
    }
  }

  /** Removing tags from a table of positive counts counts each one down by
      its number of occurrences, stopping at 0, where the row is gone. */
  lemma {:induction false} CountRemoveAll(m: map<string, int>, ts: seq<string>, t: string)
    requires Positive(m)
    ensures Positive(RemoveAll(m, ts))
    ensures Count(RemoveAll(m, ts), t) == if Count(m, t) >= multiset(ts)[t] then Count(m, t) - multiset(ts)[t] else 0
    decreases |ts|
  {
    if ts != [] {
      var init := ts[..|ts| - 1];
      CountRemoveAll(m, init, t);
      assert ts == init + [ts[|ts| - 1]];
    }
  }

  /** The rows of a table of positive counts are the tags with a positive
      count. */
  lemma PositiveRows(m: map<string, int>, t: string)
    requires Positive(m)
    ensures t in m <==> Count(m, t) > 0
  {
  }

  /** Adding keeps every count positive. */
  lemma {:induction false} PositiveAddAll(m: map<string, int>, ts: seq<string>)
    requires Positive(m)
    ensures Positive(AddAll(m, ts))
    decreases |ts|
  {
    if ts != [] {
      PositiveAddAll(m, ts[..|ts| - 1]);
    }
  }

  /** The update keeps every count positive: a row is deleted when it would
      reach 0. */
  lemma UpdatePositive(m: map<string, int>, newTags: string, oldTags: string)
    requires Positive(m)
    ensures Positive(Update(m, newTags, oldTags))
  {
    var a := AddAll(m, Added(newTags, oldTags));
    PositiveAddAll(m, Added(newTags, oldTags));
    CountRemoveAll(a, Removed(newTags, oldTags), "");
  }

  /** A tag in neither difference keeps its row and its count exactly as
      they were, whatever the table holds. */
  lemma {:induction false} AddAllUntouched(m: map<string, int>, ts: seq<string>, t: string)
    requires t !in ts
    ensures t in AddAll(m, ts) <==> t in m
    ensures t in m ==> AddAll(m, ts)[t] == m[t]
    decreases |ts|
  {
    if ts != [] {
      var init := ts[..|ts| - 1];
      assert t !in init by {
        assert forall x :: x in init ==> x in ts;
      }
      AddAllUntouched(m, init, t);
    }
  }

  lemma {:induction false} RemoveAllUntouched(m: map<string, int>, ts: seq<string>, t: string)
    requires t !in ts
    ensures t in RemoveAll(m, ts) <==> t in m
    ensures t in m ==> RemoveAll(m, ts)[t] == m[t]
    decreases |ts|
  {
    if ts != [] {
      var init := ts[..|ts| - 1];
      assert t !in init by {
        assert forall x :: x in init ==> x in ts;
      }
      RemoveAllUntouched(m, init, t);
    }
  }

  /** The update touches only the two differences: a tag on both lists, or
      on neither, keeps its row and its count. */
  lemma UpdateUntouched(m: map<string, int>, newTags: string, oldTags: string, t: string)
    requires t in TagList(newTags) <==> t in TagList(oldTags)
    ensures t in Update(m, newTags, oldTags) <==> t in m
    ensures t in m ==> Update(m, newTags, oldTags)[t] == m[t]
  {
    var added, removed := Added(newTags, oldTags), Removed(newTags, oldTags);
    assert multiset(added)[t] == 0 && multiset(removed)[t] == 0;
    AddAllUntouched(m, added, t);
    RemoveAllUntouched(AddAll(m, added), removed, t);
  }

  /** A tag only on the new list is counted up once per occurrence there
      (its row created if it had none); a tag only on the old list is
      counted down once per occurrence there, and its row is gone once the
      count reaches 0. */
  lemma UpdateCounts(m: map<string, int>, newTags: string, oldTags: string, t: string)
    requires Positive(m)
    ensures var nt, ot := TagList(newTags), TagList(oldTags);
      t in nt && t !in ot ==>
        Count(Update(m, newTags, oldTags), t) == Count(m, t) + multiset(nt)[t]
    ensures var nt, ot := TagList(newTags), TagList(oldTags);
      t in ot && t !in nt ==>
        Count(Update(m, newTags, oldTags), t) ==
          if Count(m, t) >= multiset(ot)[t] then Count(m, t) - multiset(ot)[t] else 0
    ensures t in Update(m, newTags, oldTags) <==> Count(Update(m, newTags, oldTags), t) > 0
  {
    var added, removed := Added(newTags, oldTags), Removed(newTags, oldTags);
    var a := AddAll(m, added);
    CountAddAll(m, added, t);
    PositiveAddAll(m, added);
    CountRemoveAll(a, removed, t);
    PositiveRows(Update(m, newTags, oldTags), t);
  }

  /** Two tables of positive counts that agree on every count are the same
      table. */
  lemma SameCounts(m1: map<string, int>, m2: map<string, int>)
    requires Positive(m1) && Positive(m2)
    requires forall t :: Count(m1, t) == Count(m2, t)
    ensures m1 == m2
  {
    assert forall t :: t in m1 <==> t in m2 by {
      forall t ensures t in m1 <==> t in m2 {
        PositiveRows(m1, t);
        PositiveRows(m2, t);
      }
    }
    assert forall t :: t in m1 ==> m1[t] == m2[t] by {
      forall t | t in m1 ensures m1[t] == m2[t] {
        assert Count(m1, t) == Count(m2, t);
      }
    }
  }

  /** Changing a record's tags and changing them back restores the table,
      provided the table counted every occurrence of the tags that the first
      change removed. */
  lemma UpdateUndo(m: map<string, int>, newTags: string, oldTags: string)
    requires Positive(m)
    requires forall t :: Count(m, t) >= multiset(Removed(newTags, oldTags))[t]
    ensures Update(Update(m, newTags, oldTags), oldTags, newTags) == m
  {
    var m1 := Update(m, newTags, oldTags);
    var m2 := Update(m1, oldTags, newTags);
    UpdatePositive(m, newTags, oldTags);
    UpdatePositive(m1, oldTags, newTags);
    forall t ensures Count(m2, t) == Count(m, t) {
      UndoCount(m, newTags, oldTags, t);
    }
    SameCounts(m2, m);
  }

  /** `UpdateUndo` for one tag. */
  lemma UndoCount(m: map<string, int>, newTags: string, oldTags: string, t: string)
    requires Positive(m)
    requires Count(m, t) >= multiset(Removed(newTags, oldTags))[t]
    ensures Count(Update(Update(m, newTags, oldTags), oldTags, newTags), t) == Count(m, t)
  {
    var m1 := Update(m, newTags, oldTags);
    UpdatePositive(m, newTags, oldTags);
    var nt, ot := TagList(newTags), TagList(oldTags);
    UpdateCounts(m, newTags, oldTags, t);
    UpdateCounts(m1, oldTags, newTags, t);
    if t in nt <==> t in ot {
      UpdateUntouched(m, newTags, oldTags, t);
      UpdateUntouched(m1, oldTags, newTags, t);
    }
  }
}
