/**
 The alias display's aggregation: the loop that folds the enabled rows into
 one text per source (`Fold`, as the code writes it), the same grouping kept
 as lists of destinations (`Aggregate`), and the facts that tie both to the
 reference descriptions of the table.
 */
module Aggregation {
  import opened AliasTable
  import opened Destinations

  /** One pass of the display loop: a source seen for the first time gets its
      destination bare; a source seen before gets a separator and the new
      destination appended to its text. */
  function Step(aliases: map<string, string>, row: Row): (r: map<string, string>)
    ensures r.Keys == aliases.Keys + {row.source}
    ensures forall s | s in aliases && s != row.source :: r[s] == aliases[s]
    ensures row.source in aliases ==>
              |r[row.source]| == |aliases[row.source]| + |Separator| + |row.destination|
              && r[row.source][..|aliases[row.source]|] == aliases[row.source]
  {
    if row.source in aliases then
      aliases[row.source := aliases[row.source] + Separator + row.destination]
    else
      aliases[row.source := row.destination]
  }

  /** The display loop over the query result, in the order the rows come. */
  function Fold(result: seq<Row>): (aliases: map<string, string>)
    ensures aliases.Keys == set x | x in result :: x.source
  {
    if |result| == 0 then map[]
    else
      var last := result[|result| - 1];
      assert result == result[..|result| - 1] + [last];
      Step(Fold(result[..|result| - 1]), last)
  }

  /** The grouping counterpart of `Step`: an enabled row's destination goes
      at the end of its source's list; a disabled row changes nothing. */
  function Group(groups: map<string, seq<string>>, row: Row): map<string, seq<string>>
  {
    if !row.enabled then groups
    else if row.source in groups then
      groups[row.source := groups[row.source] + [row.destination]]
    else
      groups[row.source := [row.destination]]
  }

  /** The enabled rows grouped by source, each source with its destinations
      in the order the rows come; disabled rows are skipped. */
  function Aggregate(rows: seq<Row>): (groups: map<string, seq<string>>)
    ensures groups.Keys == EnabledSources(rows)
    ensures forall s | s in groups :: |groups[s]| > 0
  {
    if |rows| == 0 then map[]
    else
      var last := rows[|rows| - 1];
      assert rows == rows[..|rows| - 1] + [last];
      Group(Aggregate(rows[..|rows| - 1]), last)
  }

  /** `texts` holds, for every source of `groups` and no other, the join of
      that source's list. */
  ghost predicate JoinedBy(texts: map<string, string>, groups: map<string, seq<string>>)
  {
    && texts.Keys == groups.Keys
    && forall s | s in groups :: texts[s] == Join(groups[s])
  }

  /** Unfolding the filter at one appended row. */
  lemma EnabledSnoc(rows: seq<Row>, x: Row)
    ensures Enabled(rows + [x]) == if x.enabled then Enabled(rows) + [x] else Enabled(rows)
  {
    assert (rows + [x])[..|rows|] == rows;
  }

  /** Unfolding the loop at one appended row. */
  lemma FoldSnoc(result: seq<Row>, x: Row)
    ensures Fold(result + [x]) == Step(Fold(result), x)
  {
    assert (result + [x])[..|result|] == result;
  }

  /** Unfolding the grouping at one appended row. */
  lemma AggregateSnoc(rows: seq<Row>, x: Row)
    ensures Aggregate(rows + [x]) == Group(Aggregate(rows), x)
  {
    assert (rows + [x])[..|rows|] == rows;
  }

  /** Each source's list is exactly the destinations of its enabled rows, in
      store order, one per row. */
  lemma {:induction false} AggregateIsGrouping(rows: seq<Row>)
    ensures forall s | s in Aggregate(rows) ::
              Aggregate(rows)[s] == DestinationsOf(rows, s)
              && |Aggregate(rows)[s]| == |Matching(rows, s)|
  {
    if |rows| > 0 {
      var init, last := rows[..|rows| - 1], rows[|rows| - 1];
      assert rows == init + [last];
      AggregateIsGrouping(init);
      forall s | s in Aggregate(rows)
        ensures Aggregate(rows)[s] == DestinationsOf(rows, s)
      {
        DestinationsOfSnoc(init, last, s);
        if last.enabled && last.source == s && s !in Aggregate(init) {
          assert |Matching(init, s)| == 0;
        }
      }
    }
  }

  /** Filtering the disabled rows out first changes nothing: only enabled
      rows contribute. */
  lemma {:induction false} AggregateIgnoresDisabled(rows: seq<Row>)
    ensures Aggregate(Enabled(rows)) == Aggregate(rows)
  {
    if |rows| > 0 {
      var init, last := rows[..|rows| - 1], rows[|rows| - 1];
      assert rows == init + [last];
      AggregateIgnoresDisabled(init);
      IgnoresDisabledSnoc(init, last);
    } else {
      assert Enabled(rows) == [];
    }
  }

  /** One appended row keeps the grouping of the filtered rows equal to the
      grouping of all rows. */
  lemma IgnoresDisabledSnoc(rows: seq<Row>, x: Row)
    requires Aggregate(Enabled(rows)) == Aggregate(rows)
    ensures Aggregate(Enabled(rows + [x])) == Aggregate(rows + [x])
  {
    EnabledSnoc(rows, x);
    AggregateSnoc(rows, x);
    if x.enabled {
      AggregateSnoc(Enabled(rows), x);
    }
  }

  /** One enabled row keeps the loop's texts and the grouped lists in step:
      appending a separator and a destination to the text is appending the
      destination to the list. */
  lemma {:induction false} StepKeepsJoined(texts: map<string, string>, groups: map<string, seq<string>>, x: Row)
    requires JoinedBy(texts, groups)
    requires forall s | s in groups :: |groups[s]| > 0
    requires x.enabled
    ensures JoinedBy(Step(texts, x), Group(groups, x))
  {
    if x.source in groups {
      JoinAppend(groups[x.source], x.destination);
    }
  }

  /** The text the loop builds for each source is the join of that source's
      list: the loop keeps exactly the enabled sources, and its repeated
      appending is the same as joining the grouped destinations. */
  lemma {:induction false} FoldIsJoinedAggregate(rows: seq<Row>)
    ensures JoinedBy(Fold(Enabled(rows)), Aggregate(rows))
  {
    if |rows| > 0 {
      var init, last := rows[..|rows| - 1], rows[|rows| - 1];
      assert rows == init + [last];
      FoldIsJoinedAggregate(init);
      EnabledSnoc(init, last);
      AggregateSnoc(init, last);
      if last.enabled {
        FoldSnoc(Enabled(init), last);
        StepKeepsJoined(Fold(Enabled(init)), Aggregate(init), last);
      }
    }
  }

  /** What the display shows for a source, stated without the loop: the join
      of the destinations of that source's enabled rows, in store order. */
  lemma {:induction false} DisplayedText(rows: seq<Row>)
    ensures Fold(Enabled(rows)).Keys == EnabledSources(rows)
    ensures forall s | s in Fold(Enabled(rows)) ::
              Fold(Enabled(rows))[s] == Join(DestinationsOf(rows, s))
  {
    FoldIsJoinedAggregate(rows);
    AggregateIsGrouping(rows);
  }

  /** The first destination seen for a source is stored bare, so the text
      starts with it; a source with a single enabled row shows just that
      destination. */
  lemma {:induction false} FirstDestinationBare(rows: seq<Row>, s: string)
    requires s in EnabledSources(rows)
    ensures var text, first := Fold(Enabled(rows))[s], DestinationsOf(rows, s)[0];
            |first| <= |text| && text[..|first|] == first
    ensures |Matching(rows, s)| == 1 ==> Fold(Enabled(rows))[s] == DestinationsOf(rows, s)[0]
  {
    DisplayedText(rows);
    JoinStartsWithFirst(DestinationsOf(rows, s));
  }
}
