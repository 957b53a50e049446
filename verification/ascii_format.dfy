/**
 The alias display as the interpreter actually runs it. The store hands the
 addresses back as Unicode text, while both templates (`'{}, {}'` and
 `'{} -> {}'`) are byte strings; formatting Unicode text into a byte-string
 template encodes it as ASCII, and that raises as soon as a character lies
 outside ASCII. The display then stops with whatever lines it has already
 printed. `Display.Show` is the behaviour the display evidently means to have.
 */
module AsciiFormat {
  import opened AliasTable
  import opened Destinations
  import opened Aggregation
  import opened Display

  /** Text that the implicit ASCII encoding accepts. */
  predicate IsAscii(t: string)
  {
    forall i | 0 <= i < |t| :: t[i] as int < 128
  }

  /** Concatenated text is ASCII exactly when both parts are. */
  lemma IsAsciiConcat(a: string, b: string)
    ensures IsAscii(a + b) <==> IsAscii(a) && IsAscii(b)
  {
    if IsAscii(a + b) {
      forall i | 0 <= i < |a| ensures a[i] as int < 128 {
        assert a[i] == (a + b)[i];
      }
      forall i | 0 <= i < |b| ensures b[i] as int < 128 {
        assert b[i] == (a + b)[|a| + i];
      }
    }
    if IsAscii(a) && IsAscii(b) {
      forall i | 0 <= i < |a + b| ensures (a + b)[i] as int < 128 {
        if i >= |a| {
          assert (a + b)[i] == b[i - |a|];
        }
      }
    }
  }

  /** The result of formatting into a byte-string template. */
  datatype Formatted = Text(text: string) | EncodeError

  /** `'{}<sep>{}'.format(left, right)` with a byte-string template: the
      joined text, or an encoding error when either argument is not ASCII. */
  function FormatPair(left: string, sep: string, right: string): Formatted
  {
    if IsAscii(left) && IsAscii(right) then Text(left + sep + right) else EncodeError
  }

  /** How a run of the display ends: with every line printed, or raised
      after printing `lines`. */
  datatype Outcome = Completed(lines: seq<string>) | Raised(lines: seq<string>)

  /** The state of the aggregation loop as it runs: the texts so far, or
      aborted once a later row's formatting has raised. */
  datatype Aliases = Built(texts: map<string, string>) | Aborted

  /** One pass of the loop as it runs: a later row of a known source formats
      the stored text and the new destination, which can raise. */
  function StepAsWritten(acc: Aliases, row: Row): (r: Aliases)
    ensures acc.Aborted? ==> r.Aborted?
    ensures acc.Built? ==>
              (r.Built? <==> row.source !in acc.texts
                             || (IsAscii(acc.texts[row.source]) && IsAscii(row.destination)))
    ensures r.Built? ==> r.texts == Step(acc.texts, row)
  {
    match acc
    case Aborted => Aborted
    case Built(texts) =>
      if row.source in texts then
        match FormatPair(texts[row.source], Separator, row.destination)
        case Text(t) => Built(texts[row.source := t])
        case EncodeError => Aborted
      else
        Built(texts[row.source := row.destination])
  }

  /** The loop as it runs: whenever it finishes, it has built what the
      intended loop builds. */
  function FoldAsWritten(result: seq<Row>): (r: Aliases)
    ensures r.Built? ==> r.texts == Fold(result)
  {
    if |result| == 0 then Built(map[])
    else
      var init, last := result[..|result| - 1], result[|result| - 1];
      assert result == init + [last];
      StepAsWritten(FoldAsWritten(init), last)
  }

  /** When every destination is ASCII, the loop as it runs always finishes. */
  lemma {:induction false} FoldAsWrittenCompletes(result: seq<Row>)
    requires forall x | x in result :: IsAscii(x.destination)
    ensures FoldAsWritten(result) == Built(Fold(result))
  {
    if |result| > 0 {
      var init, last := result[..|result| - 1], result[|result| - 1];
      assert result == init + [last];
      FoldAsWrittenCompletes(init);
      FoldAsciiTexts(init);
    }
  }

  /** With ASCII destinations, every text the loop builds is ASCII: the
      separator is. */
  lemma {:induction false} FoldAsciiTexts(result: seq<Row>)
    requires forall x | x in result :: IsAscii(x.destination)
    ensures forall s | s in Fold(result) :: IsAscii(Fold(result)[s])
  {
    if |result| > 0 {
      var init, last := result[..|result| - 1], result[|result| - 1];
      assert result == init + [last];
      FoldAsciiTexts(init);
      FoldSnoc(init, last);
      StepAsciiTexts(Fold(init), last);
    }
  }

  /** One loop pass over an ASCII destination keeps every text ASCII. */
  lemma StepAsciiTexts(texts: map<string, string>, row: Row)
    requires forall s | s in texts :: IsAscii(texts[s])
    requires IsAscii(row.destination)
    ensures forall s | s in Step(texts, row) :: IsAscii(Step(texts, row)[s])
  {
    if row.source in texts {
      var t := texts[row.source];
      IsAsciiConcat(Separator, row.destination);
      IsAsciiConcat(t, Separator + row.destination);
      assert t + Separator + row.destination == t + (Separator + row.destination);
    }
  }

  /** The printing loop as it runs, over the sources in the runtime's order:
      it stops at the first line whose formatting raises. */
  function PrintAsWritten(aliases: map<string, string>, order: seq<string>): (r: Outcome)
    requires forall i | 0 <= i < |order| :: order[i] in aliases
    ensures |r.lines| <= |order|
    ensures forall i | 0 <= i < |r.lines| :: r.lines[i] == Line(order[i], aliases[order[i]])
    ensures r.Completed? <==>
              forall i | 0 <= i < |order| :: IsAscii(order[i]) && IsAscii(aliases[order[i]])
    ensures r.Completed? ==> |r.lines| == |order|
    ensures r.Raised? ==>
              && |r.lines| < |order|
              && (forall i | 0 <= i < |r.lines| :: IsAscii(order[i]) && IsAscii(aliases[order[i]]))
              && !(IsAscii(order[|r.lines|]) && IsAscii(aliases[order[|r.lines|]]))
  {
    if |order| == 0 then Completed([])
    else
      var init, last := order[..|order| - 1], order[|order| - 1];
      match PrintAsWritten(aliases, init)
      case Raised(lines) => Raised(lines)
      case Completed(lines) =>
        match FormatPair(last, Arrow, aliases[last])
        case Text(t) => Completed(lines + [t])
        case EncodeError => Raised(lines)
  }

  /** `show` as it runs. */
  function ShowAsWritten(objects: string, rows: seq<Row>, order: seq<string>): (r: Outcome)
    requires objects == AliasesObject ==> IsEnumeration(order, EnabledSources(rows))
    ensures objects != AliasesObject ==> r == Completed([])
    ensures objects == AliasesObject && FoldAsWritten(Enabled(rows)).Aborted? ==> r == Raised([])
    ensures |r.lines| <= |order|
    ensures objects == AliasesObject && r.Completed? ==>
              |r.lines| == |order| && forall i | 0 <= i < |order| :: IsAscii(order[i])
  {
    if objects == AliasesObject then
      match FoldAsWritten(Enabled(rows))
      case Aborted => Raised([])
      case Built(aliases) =>
        DisplayedText(rows);
        PrintAsWritten(aliases, order)
    else
      Completed([])
  }

  /** Whatever the display prints as it runs, before raising or not, is a
      prefix of the intended lines. */
  lemma {:induction false} ShowAsWrittenPrefix(objects: string, rows: seq<Row>, order: seq<string>)
    requires objects == AliasesObject ==> IsEnumeration(order, EnabledSources(rows))
    ensures var intended, run := Show(objects, rows, order), ShowAsWritten(objects, rows, order);
            |run.lines| <= |intended| && run.lines == intended[..|run.lines|]
  {
    if objects == AliasesObject && FoldAsWritten(Enabled(rows)).Built? {
      DisplayedText(rows);
      var aliases := Fold(Enabled(rows));
      var intended, run := Show(objects, rows, order), PrintAsWritten(aliases, order);
      assert ShowAsWritten(objects, rows, order) == run;
      forall i | 0 <= i < |run.lines| ensures run.lines[i] == intended[i] {
        assert aliases[order[i]] == Join(DestinationsOf(rows, order[i]));
      }
    } else {
      assert ShowAsWritten(objects, rows, order).lines == [];
    }
  }

  /** Every enabled row is ASCII. */
  ghost predicate AsciiTable(rows: seq<Row>)
  {
    forall x | x in rows && x.enabled :: IsAscii(x.source) && IsAscii(x.destination)
  }

  /** On an ASCII table the aggregation loop as it runs finishes, with ASCII
      texts for exactly the enabled sources. */
  lemma {:induction false} AsciiTableFolds(rows: seq<Row>)
    requires AsciiTable(rows)
    ensures FoldAsWritten(Enabled(rows)) == Built(Fold(Enabled(rows)))
    ensures Fold(Enabled(rows)).Keys == EnabledSources(rows)
    ensures forall s | s in Fold(Enabled(rows)) :: IsAscii(s) && IsAscii(Fold(Enabled(rows))[s])
  {
    var result := Enabled(rows);
    assert forall x | x in result :: IsAscii(x.destination);
    FoldAsWrittenCompletes(result);
    FoldAsciiTexts(result);
    DisplayedText(rows);
    forall s | s in EnabledSources(rows) ensures IsAscii(s) {
      var x :| x in rows && x.enabled && x.source == s;
    }
  }

  /** On an ASCII table the display as it runs completes. */
  lemma {:induction false} AsciiRunCompletes(rows: seq<Row>, order: seq<string>)
    requires IsEnumeration(order, EnabledSources(rows))
    requires AsciiTable(rows)
    ensures ShowAsWritten(AliasesObject, rows, order).Completed?
  {
    AsciiTableFolds(rows);
    var aliases := Fold(Enabled(rows));
    assert ShowAsWritten(AliasesObject, rows, order) == PrintAsWritten(aliases, order);
    forall i | 0 <= i < |order| ensures IsAscii(order[i]) && IsAscii(aliases[order[i]]) {
      assert order[i] in aliases;
    }
  }

  /** On an ASCII table the display as it runs completes and prints exactly
      the intended lines. */
  lemma {:induction false} ShowAsWrittenAgreesOnAscii(objects: string, rows: seq<Row>, order: seq<string>)
    requires objects == AliasesObject ==> IsEnumeration(order, EnabledSources(rows))
    requires AsciiTable(rows)
    ensures ShowAsWritten(objects, rows, order) == Completed(Show(objects, rows, order))
  {
    if objects == AliasesObject {
      var run, intended := ShowAsWritten(objects, rows, order), Show(objects, rows, order);
      AsciiRunCompletes(rows, order);
      ShowAsWrittenPrefix(objects, rows, order);
      assert |run.lines| == |intended|;
      assert intended[..|intended|] == intended;
    } else {
      assert ShowAsWritten(objects, rows, order) == Completed([]);
    }
  }

  /** A joined text is ASCII only when every destination in it is. */
  lemma {:induction false} JoinAsciiParts(ds: seq<string>)
    requires IsAscii(Join(ds))
    ensures forall i | 0 <= i < |ds| :: IsAscii(ds[i])
  {
    if |ds| > 1 {
      var init, last := ds[..|ds| - 1], ds[|ds| - 1];
      IsAsciiConcat(Join(init) + Separator, last);
      IsAsciiConcat(Join(init), Separator);
      JoinAsciiParts(init);
      forall i | 0 <= i < |ds| ensures IsAscii(ds[i]) {
        if i < |ds| - 1 {
          assert ds[i] == init[i];
        }
      }
    }
  }

  /** The display as it runs completes exactly on an ASCII table: one enabled
      row with a non-ASCII source or destination makes it raise, whatever
      the order in which the sources are visited. */
  lemma {:induction false} ShowAsWrittenCompletesIff(rows: seq<Row>, order: seq<string>)
    requires IsEnumeration(order, EnabledSources(rows))
    ensures ShowAsWritten(AliasesObject, rows, order).Completed? <==> AsciiTable(rows)
  {
    if AsciiTable(rows) {
      ShowAsWrittenAgreesOnAscii(AliasesObject, rows, order);
    } else {
      var x :| x in rows && x.enabled && !(IsAscii(x.source) && IsAscii(x.destination));
      if FoldAsWritten(Enabled(rows)).Built? {
        DisplayedText(rows);
        var aliases := Fold(Enabled(rows));
        assert ShowAsWritten(AliasesObject, rows, order) == PrintAsWritten(aliases, order);
        var ds := DestinationsOf(rows, x.source);
        var k :| 0 <= k < |order| && order[k] == x.source;
        DestinationsOfMembers(rows, x.source);
        assert Row(x.source, x.destination, true) == x;
        assert x.destination in ds;
        if IsAscii(aliases[x.source]) {
          JoinAsciiParts(ds);
        }
      }
    }
  }

  /** A table of one enabled alias: the intended display prints its line;
      the display as it runs prints the same line when source and destination
      are ASCII, and otherwise raises before printing anything. */
  lemma {:induction false} OneAliasLines(s: string, d: string)
    ensures Show(AliasesObject, [Row(s, d, true)], [s]) == [Line(s, d)]
    ensures ShowAsWritten(AliasesObject, [Row(s, d, true)], [s])
            == if IsAscii(s) && IsAscii(d) then Completed([Line(s, d)]) else Raised([])
  {
    var rows := [Row(s, d, true)];
    OneAliasTable(s, d);
    SingleSourceOneLine(rows, s);
    assert ShowAsWritten(AliasesObject, rows, [s]) == PrintAsWritten(map[s := d], [s]);
  }

  /** The loop over a table of one enabled alias, as written and as run. */
  lemma {:induction false} OneAliasTable(s: string, d: string)
    ensures EnabledSources([Row(s, d, true)]) == {s}
    ensures DestinationsOf([Row(s, d, true)], s) == [d] && Join([d]) == d
    ensures FoldAsWritten(Enabled([Row(s, d, true)])) == Built(map[s := d])
  {
    var rows := [Row(s, d, true)];
    assert rows == [] + [rows[0]];
    DestinationsOfSnoc([], rows[0], s);
    EnabledSnoc([], rows[0]);
    assert FoldAsWritten(rows) == StepAsWritten(FoldAsWritten([]), rows[0]);
  }

  /** The discrepancy: a single enabled alias whose source carries a
      non-ASCII letter. The intended display prints its line; the display as
      it runs raises before printing anything. */
  lemma NonAsciiSourceRaises()
    ensures var rows := [Row("josé@example.com", "jose@example.com", true)];
            && ShowAsWritten(AliasesObject, rows, ["josé@example.com"]) == Raised([])
            && Show(AliasesObject, rows, ["josé@example.com"])
               == [Line("josé@example.com", "jose@example.com")]
  {
    var s := "josé@example.com";
    assert !IsAscii(s) by { assert s[3] as int == 0xe9; }
    OneAliasLines(s, "jose@example.com");
  }
}
