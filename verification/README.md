# mailctl alias display, modelled in Dafny

`mailctl.py` is a small administration script for a Postfix mail setup whose
virtual domains, users and aliases live in an SQLite database. The script's
only command with behaviour of its own is `show aliases`. It reads the enabled
rows of the `virtual_aliases` table and folds them into one entry per source
address. The first destination of a source is stored bare. Each later
destination is appended after `", "`. The command then prints one line
`source -> destinations` per source.

This project models that command as pure functions over an immutable sequence
of rows, and proves what it prints:

- `alias_table.dfy` (module `AliasTable`) holds the row type, the `WHERE enabled`
  filter, and reference definitions of what should be shown. These are the
  enabled sources, and for each source its enabled rows and their destinations
  in store order.
- `destinations.dfy` (module `Destinations`) holds `Join`, the comma-joined
  destination text, and its algebra.
- `aggregation.dfy` (module `Aggregation`) holds the display loop as written
  (`Step`, `Fold`, on texts), the same grouping kept as lists
  (`Group`, `Aggregate`), and the lemmas that tie both to the reference
  definitions.
- `display.dfy` (module `Display`) holds the printed lines (`Show`) and
  their properties.
- `ascii_format.dfy` (module `AsciiFormat`) holds the command as the
  Python 2 interpreter actually runs it, including the encoding failure
  described under Findings.

The iteration order of a Python 2 dict is not specified, so `Show` takes the
order in which the runtime visits the sources as a parameter. The parameter
must list every enabled source exactly once (`Display.IsEnumeration`). The
result is a sequence of lines rather than a set, because two different
sources can print identical line text (source `a` with destination `x -> y`,
and source `a -> x` with destination `y`). `Display.ShowOrderIndependent`
proves that every order prints the same multiset of lines.

`mailctl.py` has no commands to add, delete, enable or disable entries. Its
`show` implements only the `aliases` branch; `users` and `domains` print
nothing. It prints the aliases in dict order without sorting, and the model
keeps that order as a free parameter.

## Model

| member | source | states |
|---|---|---|
| `AliasTable.Enabled` | mailctl.py:41-43 | The query result holds exactly the enabled rows. Each is kept as often as the table holds it, and no row is invented. |
| `AliasTable.Matching` | mailctl.py:45-51 | A source's matching rows are all enabled rows of that source. There are none exactly when the source has no enabled row. |
| `AliasTable.DestinationsOf` | mailctl.py:45-51 | A source lists one destination per enabled row of that source. |
| `AliasTable.DestinationsOfMatching` | mailctl.py:46-51 | The i-th listed destination belongs to the i-th enabled row of the source, so the listing keeps row order. |
| `AliasTable.MatchingCounts` | mailctl.py:41-48 | Every enabled row of a source is picked up, as many times as the table holds it. |
| `AliasTable.DestinationsOfMembers` | mailctl.py:45-51 | A destination is listed for a source if and only if the table has an enabled row from that source to it. |
| `Destinations.JoinConcat` | mailctl.py:48-49 | Joining two non-empty runs is joining each run with one separator between them. |
| `Destinations.JoinStartsWithFirst` | mailctl.py:50-51 | The joined text begins with the first destination itself, stored bare. Unless that destination is empty, no separator leads. |
| `Destinations.Join` | mailctl.py:48-51 | The joined text's length is the total length of the destinations plus two characters per neighbouring pair. Its contents are stated by `Destinations.JoinConcat` and `Destinations.JoinStartsWithFirst`. |
| `Aggregation.Step` | mailctl.py:48-51 | One loop pass adds the row's source to the keys and keeps every other source's text. A known source's text keeps its old text as a prefix and grows by the length of the separator plus the destination. `Aggregation.StepKeepsJoined` states the appended contents and the bare first store. |
| `Aggregation.Fold` | mailctl.py:44-51 | The loop's map has one key for each distinct source in the query result and no other key. |
| `Aggregation.Aggregate` | mailctl.py:41-51 | The grouped map's keys are exactly the sources with an enabled row, and every list is non-empty. |
| `Aggregation.AggregateIsGrouping` | mailctl.py:45-51 | Each source's list equals the destinations of its enabled rows, in row order, one per row. |
| `Aggregation.AggregateIgnoresDisabled` | mailctl.py:41-42 | Removing the disabled rows first changes nothing, so disabled rows never contribute. |
| `Aggregation.StepKeepsJoined` | mailctl.py:48-51 | One loop pass keeps each source's text equal to the join of its list: a new source stores the bare destination, and a known one appends separator and destination. |
| `Aggregation.FoldIsJoinedAggregate` | mailctl.py:44-51 | After the loop, each source's text is the join of its grouped destinations, and both maps have the same keys. |
| `Aggregation.DisplayedText` | mailctl.py:41-51 | The texts cover exactly the enabled sources. Each text is the join of that source's enabled destinations in store order. |
| `Aggregation.FirstDestinationBare` | mailctl.py:50-51 | A source's text starts with its first enabled destination. With a single enabled row the text is exactly that destination. |
| `Display.LineSplits` | mailctl.py:53 | A printed line splits back, by position, into the source, `" -> "` and the text, so neither part is altered. |
| `Display.EnumerationSize` | mailctl.py:52 | An iteration order that visits each source once has one entry per source. |
| `Display.PrintLineSet` | mailctl.py:52-53 | Printing a map in any order that visits each key once yields the same set of lines: one per key. |
| `Display.Show` | mailctl.py:40-53 | `users` and `domains` print nothing. `aliases` prints one line per enabled source: the source, `" -> "`, then the join of its enabled destinations. This is the intended behaviour; see Findings. |
| `Display.PrintPermutation` | mailctl.py:52-53 | Visiting the same sources in a permuted order prints the same lines, each as often as before. |
| `Display.EnumerationCounts` | mailctl.py:52 | An order that visits each source once holds every source exactly once and nothing else. |
| `Display.ShowOrderIndependent` | mailctl.py:52-53 | For any two visiting orders, the printed lines are the same multiset: only their order can differ, even when two sources print identical text. |
| `Display.ShowLinesPerSource` | mailctl.py:52-53 | Whatever the iteration order, the printed lines form the same set: one `source -> destinations` line per enabled source. |
| `Display.LoopLinesAreRowLines` | mailctl.py:41-53 | The lines built from the loop's map are exactly the lines described by the enabled rows. |
| `Display.SingleSourceOneLine` | mailctl.py:52-53 | A table whose only enabled source is `s` prints exactly one line, for `s`. |
| `Display.TwoDestinationsOneLine` | mailctl.py:40-53 | Two enabled rows sharing a source print as the single line `s -> a, b`, and a disabled row of that source adds nothing. |
| `AsciiFormat.JoinAsciiParts` | mailctl.py:48-49 | A joined text is ASCII only when every destination in it is, so any non-ASCII destination makes its source's text non-ASCII. |
| `AsciiFormat.StepAsWritten` | mailctl.py:48-51 | A loop pass as run fails exactly when a known source's text or the new destination is not ASCII. Once failed it stays failed, and when it succeeds it matches the intended pass. |
| `AsciiFormat.FoldAsWritten` | mailctl.py:44-51 | Whenever the loop as run finishes, it has built the same map as the intended loop. |
| `AsciiFormat.FoldAsciiTexts` | mailctl.py:48-51 | With ASCII destinations every text the loop builds is ASCII. |
| `AsciiFormat.FoldAsWrittenCompletes` | mailctl.py:44-51 | With ASCII destinations the loop as run always finishes. |
| `AsciiFormat.PrintAsWritten` | mailctl.py:52-53 | The printing loop as run emits the intended lines in order. It completes exactly when every source and text is ASCII, and then prints every line. When it raises, every printed line is ASCII and the next source or its text is not. |
| `AsciiFormat.ShowAsWritten` | mailctl.py:40-53 | As run, `users` and `domains` print nothing. For `aliases`, a raise in the aggregation loop (line 49) happens before any line is printed. It prints at most one line per source, and when it completes every source is ASCII and every line is printed. |
| `AsciiFormat.ShowAsWrittenPrefix` | mailctl.py:40-53 | Whatever the command prints as run, before raising or not, is a prefix of the intended lines. |
| `AsciiFormat.AsciiTableFolds` | mailctl.py:44-51 | On an all-ASCII table the loop as run finishes, with ASCII texts for exactly the enabled sources. |
| `AsciiFormat.AsciiRunCompletes` | mailctl.py:40-53 | On a table whose enabled rows are all ASCII, the command as run completes. |
| `AsciiFormat.ShowAsWrittenAgreesOnAscii` | mailctl.py:40-53 | On an all-ASCII table the command as run completes and prints exactly the intended lines. |
| `AsciiFormat.ShowAsWrittenCompletesIff` | mailctl.py:40-53 | Whatever the visiting order, the command as run completes if and only if every enabled row's source and destination are ASCII. |
| `AsciiFormat.OneAliasLines` | mailctl.py:40-53 | With one enabled alias, the intended display prints its line. The command as run prints the same line when both addresses are ASCII, and otherwise raises before printing. |
| `AsciiFormat.NonAsciiSourceRaises` | mailctl.py:52-53 | For one enabled alias with source `josé@example.com`, the command as run raises before printing. The intended display prints its line. |

## Left out

- The `Database` class (mailctl.py:16-29): the SQLite connection, the foreign-key pragma, the cursor and the commits are I/O. The model takes the table as a sequence of rows.
- The SQL text (mailctl.py:41-42): `WHERE enabled` is modelled as a boolean filter, not as SQLite's integer truthiness. A NULL `source` or `destination` is not modelled either, since the rows carry plain strings.
- The `created` and `description` columns (mailctl.py:41): they are selected but never used.
- The order of lines across sources (mailctl.py:52): it comes from Python 2 dict iteration and is unspecified. It is a parameter, and `Display.ShowOrderIndependent` shows that the multiset of lines does not depend on it.
- `main`, the argument parser, the database-file existence check and `sys.exit` (mailctl.py:56-86): command-line and filesystem plumbing.
- `print` (mailctl.py:53): the printed lines are returned as a value.
- Encodings other than the default ASCII codec for byte-string formatting: `AsciiFormat` assumes the interpreter's default encoding is ASCII, as it is for Python 2.

## Findings

| source | as written | input that shows it | evidently intended | confidence | as-written member | corrected member |
|---|---|---|---|---|---|---|
| mailctl.py:49-53 | Both templates are byte strings, while SQLite returns text columns as Unicode. `'{} -> {}'.format(...)` and `'{}, {}'.format(...)` encode their arguments as ASCII, so a non-ASCII text or later destination of a source raises `UnicodeEncodeError` at line 49, before any line is printed. Otherwise the first non-ASCII source or text raises at line 53 and ends the listing there. | One enabled alias with source `josé@example.com` and destination `jose@example.com`. | Print `josé@example.com -> jose@example.com`, like any other alias. | medium; not executed | `AsciiFormat.ShowAsWritten`, shown by `AsciiFormat.NonAsciiSourceRaises` and `AsciiFormat.ShowAsWrittenCompletesIff` | `Display.Show`, proved by `Display.ShowLinesPerSource` and `AsciiFormat.ShowAsWrittenAgreesOnAscii` |
