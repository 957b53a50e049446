/**
 The `show` command of the mail control tool: for `aliases` it prints one
 `source -> destinations` line per source that has an enabled alias row; for
 the other objects it prints nothing. The printed lines are the result.
 */
module Display {
  import opened AliasTable
  import opened Destinations
  import opened Aggregation

  /** Placed between a source and its destinations on a printed line. */
  const Arrow: string := " -> "

  /** The one object `show` has output for. */
  const AliasesObject: string := "aliases"

  /** One printed line: the source, the arrow, then the text. */
  function Line(source: string, text: string): string
  {
    source + Arrow + text
  }

  /** A printed line splits back, by position, into its source, the arrow and
      its text. */
  lemma LineSplits(source: string, text: string)
    ensures var l := Line(source, text);
            && |l| == |source| + |Arrow| + |text|
            && l[..|source|] == source
            && l[|source|..|source| + |Arrow|] == Arrow
            && l[|source| + |Arrow|..] == text
  {
  }

  /** `order` names every element of `keys` exactly once. The order in which
      the tool visits its map of sources is the runtime's own, so the model
      accepts any such enumeration. */
  predicate IsEnumeration(order: seq<string>, keys: set<string>)
  {
    && (forall i | 0 <= i < |order| :: order[i] in keys)
    && (forall k | k in keys :: k in order)
    && (forall i, j | 0 <= i < j < |order| :: order[i] != order[j])
  }

  /** An enumeration has one entry per element. */
  lemma {:induction false} EnumerationSize(order: seq<string>, keys: set<string>)
    requires IsEnumeration(order, keys)
    ensures |order| == |keys|
  {
    if |order| > 0 {
      var init, last := order[..|order| - 1], order[|order| - 1];
      assert order == init + [last];
      var rest := keys - {last};
      forall k | k in rest ensures k in init {
        var i :| 0 <= i < |order| && order[i] == k;
      }
      EnumerationSize(init, rest);
    }
  }

  /** The printing loop: one line per visited source, with its text. */
  function Print(aliases: map<string, string>, order: seq<string>): seq<string>
    requires forall s | s in order :: s in aliases
  {
    seq(|order|, i requires 0 <= i < |order| => Line(order[i], aliases[order[i]]))
  }

  /** What `show` prints for `objects`, given the table's rows and the order
      in which the runtime visits the aggregated sources. */
  function Show(objects: string, rows: seq<Row>, order: seq<string>): (lines: seq<string>)
    requires objects == AliasesObject ==> IsEnumeration(order, EnabledSources(rows))
    ensures objects != AliasesObject ==> lines == []
    ensures objects == AliasesObject ==> |lines| == |order| == |EnabledSources(rows)|
    ensures objects == AliasesObject ==>
              forall i | 0 <= i < |lines| ::
                lines[i] == Line(order[i], Join(DestinationsOf(rows, order[i])))
  {
    if objects == AliasesObject then
      DisplayedText(rows);
      EnumerationSize(order, EnabledSources(rows));
      Print(Fold(Enabled(rows)), order)
    else
      []
  }

  /** Printing a map in any enumeration of its keys yields the same set of
      lines: one per key, the key followed by its text. */
  lemma {:induction false} PrintLineSet(aliases: map<string, string>, order: seq<string>)
    requires IsEnumeration(order, aliases.Keys)
    ensures var lines := Print(aliases, order);
            (set i | 0 <= i < |lines| :: lines[i]) == (set s | s in aliases :: Line(s, aliases[s]))
  {
    var lines := Print(aliases, order);
    var printed := set i | 0 <= i < |lines| :: lines[i];
    var expected := set s | s in aliases :: Line(s, aliases[s]);
    forall l | l in expected ensures l in printed {
      var s :| s in aliases && l == Line(s, aliases[s]);
      var i :| 0 <= i < |order| && order[i] == s;
      assert lines[i] == l;
    }
    forall l | l in printed ensures l in expected {
      var i :| 0 <= i < |lines| && lines[i] == l;
      assert order[i] in aliases;
    }
  }

  /** Printing two runs of sources one after the other prints the lines of
      each run one after the other. */
  lemma PrintConcat(aliases: map<string, string>, p: seq<string>, q: seq<string>)
    requires forall s | s in p + q :: s in aliases
    ensures Print(aliases, p + q) == Print(aliases, p) + Print(aliases, q)
  {
    var pq := p + q;
    forall i | 0 <= i < |pq| ensures Print(aliases, pq)[i] == (Print(aliases, p) + Print(aliases, q))[i] {
      if i >= |p| {
        assert pq[i] == q[i - |p|];
      }
    }
  }

  /** Printing a permutation of the sources prints a permutation of the
      lines: each line as often as before. */
  lemma {:induction false} PrintPermutation(aliases: map<string, string>, o1: seq<string>, o2: seq<string>)
    requires forall s | s in o1 :: s in aliases
    requires multiset(o1) == multiset(o2)
    ensures forall s | s in o2 :: s in aliases
    ensures multiset(Print(aliases, o1)) == multiset(Print(aliases, o2))
    decreases |o1|
  {
    forall s | s in o2 ensures s in aliases {
      assert s in multiset(o2);
    }
    if |o1| == 0 {
      assert |multiset(o2)| == 0;
    } else {
      var init, last := o1[..|o1| - 1], o1[|o1| - 1];
      assert o1 == init + [last];
      assert last in multiset(o2);
      var j :| 0 <= j < |o2| && o2[j] == last;
      var before, after := o2[..j], o2[j + 1..];
      assert o2 == before + [last] + after;
      assert o1 == init + [last] + [];
      RemoveOne(init, last, before, after);
      PrintPermutation(aliases, init, before + after);
      PrintSplit(aliases, init, last, []);
      assert init + [] == init;
      PrintSplit(aliases, before, last, after);
    }
  }

  /** Taking the same element out of two permutations leaves permutations. */
  lemma RemoveOne(init: seq<string>, x: string, before: seq<string>, after: seq<string>)
    requires multiset(init + [x]) == multiset(before + [x] + after)
    ensures multiset(init) == multiset(before + after)
  {
    forall y ensures multiset(init)[y] == multiset(before + after)[y] {
      assert multiset(init + [x])[y] == multiset(init)[y] + multiset{x}[y];
      assert multiset(before + [x] + after)[y] == multiset(before)[y] + multiset{x}[y] + multiset(after)[y];
    }
  }

  /** The lines printed around one source are the lines printed without it,
      plus that source's own line. */
  lemma PrintSplit(aliases: map<string, string>, before: seq<string>, x: string, after: seq<string>)
    requires forall s | s in before + [x] + after :: s in aliases
    ensures multiset(Print(aliases, before + [x] + after))
            == multiset(Print(aliases, before + after)) + multiset{Line(x, aliases[x])}
  {
    PrintConcat(aliases, before, [x]);
    PrintConcat(aliases, before + [x], after);
    PrintConcat(aliases, before, after);
  }

  /** A duplicate-free enumeration holds each element of its set once and
      nothing else. */
  lemma {:induction false} EnumerationCounts(order: seq<string>, keys: set<string>)
    requires IsEnumeration(order, keys)
    ensures forall x :: multiset(order)[x] == if x in keys then 1 else 0
  {
    if |order| == 0 {
      assert keys == {};
    } else {
      var init, last := order[..|order| - 1], order[|order| - 1];
      assert order == init + [last];
      var rest := keys - {last};
      forall k | k in rest ensures k in init {
        var i :| 0 <= i < |order| && order[i] == k;
      }
      EnumerationCounts(init, rest);
    }
  }

  /** Whatever order the runtime visits the sources in, the same lines are
      printed, each as often: only their order can differ. */
  lemma {:induction false} ShowOrderIndependent(rows: seq<Row>, o1: seq<string>, o2: seq<string>)
    requires IsEnumeration(o1, EnabledSources(rows))
    requires IsEnumeration(o2, EnabledSources(rows))
    ensures multiset(Show(AliasesObject, rows, o1)) == multiset(Show(AliasesObject, rows, o2))
  {
    var aliases := Fold(Enabled(rows));
    DisplayedText(rows);
    EnumerationCounts(o1, EnabledSources(rows));
    EnumerationCounts(o2, EnabledSources(rows));
    assert multiset(o1) == multiset(o2);
    PrintPermutation(aliases, o1, o2);
    assert Show(AliasesObject, rows, o1) == Print(aliases, o1);
    assert Show(AliasesObject, rows, o2) == Print(aliases, o2);
  }

  /** Whatever order the runtime visits the sources in, the printed lines
      are the same: one line per enabled source, that source followed by its
      joined destinations. */
  lemma {:induction false} ShowLinesPerSource(rows: seq<Row>, order: seq<string>)
    requires IsEnumeration(order, EnabledSources(rows))
    ensures var lines := Show(AliasesObject, rows, order);
            (set i | 0 <= i < |lines| :: lines[i])
            == (set s | s in EnabledSources(rows) :: Line(s, Join(DestinationsOf(rows, s))))
  {
    var aliases := Fold(Enabled(rows));
    DisplayedText(rows);
    PrintLineSet(aliases, order);
    LoopLinesAreRowLines(rows);
  }

  /** The lines the loop's map yields are the lines the reference
      definitions describe. */
  lemma LoopLinesAreRowLines(rows: seq<Row>)
    ensures var aliases := Fold(Enabled(rows));
            (set s | s in aliases :: Line(s, aliases[s]))
            == (set s | s in EnabledSources(rows) :: Line(s, Join(DestinationsOf(rows, s))))
  {
    LoopLinesInRowLines(rows);
    RowLinesInLoopLines(rows);
  }

  /** Every line of the loop's map is a reference line. */
  lemma LoopLinesInRowLines(rows: seq<Row>)
    ensures var aliases := Fold(Enabled(rows));
            (set s | s in aliases :: Line(s, aliases[s]))
            <= (set s | s in EnabledSources(rows) :: Line(s, Join(DestinationsOf(rows, s))))
  {
    var aliases := Fold(Enabled(rows));
    DisplayedText(rows);
    forall s | s in aliases
      ensures Line(s, aliases[s])
              in (set s | s in EnabledSources(rows) :: Line(s, Join(DestinationsOf(rows, s))))
    {
      assert s in EnabledSources(rows);
    }
  }

  /** Every reference line is a line of the loop's map. */
  lemma RowLinesInLoopLines(rows: seq<Row>)
    ensures var aliases := Fold(Enabled(rows));
            (set s | s in EnabledSources(rows) :: Line(s, Join(DestinationsOf(rows, s))))
            <= (set s | s in aliases :: Line(s, aliases[s]))
  {
    var aliases := Fold(Enabled(rows));
    DisplayedText(rows);
    forall s | s in EnabledSources(rows)
      ensures Line(s, Join(DestinationsOf(rows, s))) in (set s | s in aliases :: Line(s, aliases[s]))
    {
      assert s in aliases;
    }
  }

  /** A table with a single enabled source prints exactly one line. */
  lemma {:induction false} SingleSourceOneLine(rows: seq<Row>, s: string)
    requires EnabledSources(rows) == {s}
    ensures Show(AliasesObject, rows, [s]) == [Line(s, Join(DestinationsOf(rows, s)))]
  {
    assert IsEnumeration([s], {s});
  }

  /** The reference view of three rows of one source, the middle one
      disabled: only the outer two are listed, in row order. */
  lemma {:induction false} SharedSourceRows(s: string, a: string, b: string, c: string)
    ensures DestinationsOf([Row(s, a, true), Row(s, c, false), Row(s, b, true)], s) == [a, b]
  {
    var rows := [Row(s, a, true), Row(s, c, false), Row(s, b, true)];
    assert rows[..2][..1] == rows[..1] && rows[..1][..0] == [];
    assert DestinationsOf(rows[..1], s) == [a];
    assert DestinationsOf(rows[..2], s) == [a];
  }

  /** Two enabled rows sharing one source print as a single line that lists
      both destinations in row order; a disabled row of the same source in
      between adds nothing. */
  lemma {:induction false} TwoDestinationsOneLine(s: string, a: string, b: string, c: string)
    ensures Show(AliasesObject, [Row(s, a, true), Row(s, c, false), Row(s, b, true)], [s])
            == [Line(s, a + Separator + b)]
  {
    var rows := [Row(s, a, true), Row(s, c, false), Row(s, b, true)];
    SharedSourceRows(s, a, b, c);
    assert EnabledSources(rows) == {s};
    assert [a, b] == [a] + [b];
    JoinAppend([a], b);
    SingleSourceOneLine(rows, s);
  }
}
