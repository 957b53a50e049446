/**
 The rows of the `virtual_aliases` table as the alias display reads them, and
 the reference descriptions of what the display should show: which sources are
 live, and which destinations belong to each of them, in store order.
 */
module AliasTable {

  /** One alias row. The display also selects `created` and `description`
      but never uses them, so they are not part of the model. */
  datatype Row = Row(source: string, destination: string, enabled: bool)

  /** The query's `WHERE enabled` filter: the enabled rows, in the order the
      store returned them, each kept as often as it occurs. */
  function Enabled(rows: seq<Row>): (r: seq<Row>)
    ensures forall x :: x in r <==> x in rows && x.enabled
    ensures forall x: Row | x.enabled :: multiset(r)[x] == multiset(rows)[x]
    ensures |r| <= |rows|
  {
    if |rows| == 0 then []
    else
      var last := rows[|rows| - 1];
      assert rows == rows[..|rows| - 1] + [last];
      if last.enabled then Enabled(rows[..|rows| - 1]) + [last]
      else Enabled(rows[..|rows| - 1])
  }

  /** The sources that have at least one enabled row. */
  function EnabledSources(rows: seq<Row>): set<string>
  {
    set x | x in rows && x.enabled :: x.source
  }

  /** The enabled rows of source `s`, in store order. */
  function Matching(rows: seq<Row>, s: string): (r: seq<Row>)
    ensures forall x :: x in r ==> x.enabled && x.source == s
    ensures |r| == 0 <==> s !in EnabledSources(rows)
  {
    if |rows| == 0 then []
    else
      var last := rows[|rows| - 1];
      assert rows == rows[..|rows| - 1] + [last];
      if last.enabled && last.source == s then Matching(rows[..|rows| - 1], s) + [last]
      else Matching(rows[..|rows| - 1], s)
  }

  /** The destinations of the enabled rows of source `s`, in store order:
      what the display should list for `s`. */
  function DestinationsOf(rows: seq<Row>, s: string): (r: seq<string>)
    ensures |r| == |Matching(rows, s)|
  {
    if |rows| == 0 then []
    else
      var last := rows[|rows| - 1];
      if last.enabled && last.source == s then DestinationsOf(rows[..|rows| - 1], s) + [last.destination]
      else DestinationsOf(rows[..|rows| - 1], s)
  }

  /** The i-th listed destination is that of the i-th enabled row of `s`. */
  lemma {:induction false} DestinationsOfMatching(rows: seq<Row>, s: string)
    ensures forall i | 0 <= i < |DestinationsOf(rows, s)| ::
              Matching(rows, s)[i] == Row(s, DestinationsOf(rows, s)[i], true)
  {
    if |rows| > 0 {
      DestinationsOfMatching(rows[..|rows| - 1], s);
    }
  }

  /** Every enabled row of `s` is kept, as often as the table holds it. */
  lemma {:induction false} MatchingCounts(rows: seq<Row>, s: string)
    ensures forall x: Row | x.enabled && x.source == s ::
              multiset(Matching(rows, s))[x] == multiset(rows)[x]
  {
    if |rows| > 0 {
      var init, last := rows[..|rows| - 1], rows[|rows| - 1];
      assert rows == init + [last];
      MatchingCounts(init, s);
    }
  }

  /** A destination is listed for `s` exactly when the table holds an enabled
      row from `s` to it. */
  lemma {:induction false} DestinationsOfMembers(rows: seq<Row>, s: string)
    ensures forall d :: d in DestinationsOf(rows, s) <==> Row(s, d, true) in rows
  {
    var m, r := Matching(rows, s), DestinationsOf(rows, s);
    MatchingCounts(rows, s);
    DestinationsOfMatching(rows, s);
    forall d | Row(s, d, true) in rows ensures d in r {
      assert multiset(m)[Row(s, d, true)] > 0;
      var i :| 0 <= i < |m| && m[i] == Row(s, d, true);
      assert r[i] == d;
    }
    forall d | d in r ensures Row(s, d, true) in rows {
      var i :| 0 <= i < |r| && r[i] == d;
      assert m[i] in multiset(m);
    }
  }

  /** A row appended to the table adds its destination at the end of its own
      source's list when it is enabled, and changes no other list. */
  lemma DestinationsOfSnoc(rows: seq<Row>, x: Row, s: string)
    ensures DestinationsOf(rows + [x], s)
         == if x.enabled && x.source == s then DestinationsOf(rows, s) + [x.destination]
            else DestinationsOf(rows, s)
  {
    assert (rows + [x])[..|rows|] == rows;
  }
}
