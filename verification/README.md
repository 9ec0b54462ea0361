# Worthline, modelled and proved

A Dafny model of the parts of worthline that parse, count, keep state between
events or must agree with one another, one module per source file. Where the
source changes things step by step the model is a loop or a class proved
against a specification function; where the source is made of expressions the
model is functions. The results are about every input, every run or every
reachable state.

| module | models |
|---|---|
| `Text`, `Sorting`, `Calendar`, `DateKeys` | what the source takes from its language: `split`, `trim`, `padStart`, decimal numerals, the stable `sort`, the Gregorian calendar with `Date.UTC`, and the `YYYY-MM-DD` keys with their string order |
| `Delimited`, `SheetDates`, `SheetCells`, `XmlText` | `spreadsheet-grid.ts` and `spreadsheet-text.ts`: the delimited printer and parser, delimiter detection, serial dates and real days, column letters and gap fill, XML unescaping |
| `ShellLine`, `GateRunnerGuard` | `shell-line.ts` and `gate-runner-guard.ts`: the one-pass lexer, the command behind its prefixes, operands, the files perl edits in place, the paths a line touches |
| `ChipLedgerView`, `ChipLedger`, `Highlight` | `chip-ledger-view.ts` and `chip-ledger.tsx`: groups, reducer, view, basket, the handlers as steps over boxes and state, the marked match |
| `DashboardMatrix`, `CompositionPanel`, `CompositionChart`, `DashboardCells`, `PanelOfPage` | the cross, keys and query of the composition matrix; the panel's cache with requests in flight; range cutoffs and the series builder; the page's bounded read against the route's full one, and the panel run on the page's own cells |
| `ProposalStore`, `CoinRefresh`, `Billing`, `BillingDeliveries`, `ScrollRestore` | protocols as steps: proposals under concurrent callers, a coin pass that may die at any write, billing events, the webhook deliveries and re-syncs that interleave on a row, the scroll-restore loop |
| `HeroBreakdown`, `Movers`, `Ownership` | the weekly base and band weights, the movers' aggregation and columns, the exact split of ownership |

## What turned out not to hold

Each of these is a lemma with the exact condition under which the code does keep
its promise, or one beside it, and usually a concrete input.

* Delimiter detection takes the reading with the widest first row, so one cell
  holding commas can turn a `;` file into another table, and a table of blank cells
  in several columns, which has nothing to read, is read as a cell of semicolons
  (`Delimited.DetectionRoundTrip`, `Delimited.PlainTableDetected`, with
  `Delimited.DetectionCanSplitCells` and `Delimited.BlanksReadAsSemicolon`).
* A Spanish date of a year from 0100 to 0999 is accepted and printed with its year
  unpadded (`SheetDates.IsoShapeOfResult`, `SheetDates.UnpaddedYears`); years 0 to 99 are never real days
  (`SheetDates.RealDays`); serials of the 1900 system below 61 are a day off Excel's
  (`SheetDates.ExcelAgreement`).
* `&#38;amp;` is read twice, as one ampersand (`XmlText.UnescapeRoundTrip`,
  `XmlText.NumericAmpersandReadTwice`). Standard escaping never meets this
  (`XmlText.StandardRoundTrip`).
* Shifting a key of a year from 0000 to 0099 misses (`HeroBreakdown.ShiftLands`).
* A link to a range that is not on offer can make the page ship cells that differ
  from the route's (`DashboardCells.DeepLink`, with a chart that lacks a close in
  `DashboardCells.FiveYearsOfTwo` and `DashboardCells.OneYearOfOne`). The panel never
  asks for a shipped cell again, so it keeps the wrong one
  (`PanelOfPage.CachedAreTheRoutesExactly`).
* With a history of more than one and up to three years, opened without naming a
  range, the page reads one year back while the movers' yearly base lies before
  that, so every holding passes for a new one (`Movers.YearBaseIsUnread`,
  `Movers.UnreadBaseMakesAllNew`, an instance in `Movers.YearOfOneHolding`). A
  holding moves as it should exactly when the base is read or the holding was
  worth nothing that day (`Movers.ImpactReadExactly`).
* A re-sync repeated with the same answer changes nothing exactly when the state is
  not past due, the grant is indefinite or the window outlasts the new grace;
  otherwise it opens the seven days of grace anew (`Billing.ResyncExactly`).
* Recording, reading and writing a billing row are separate statements: of two
  deliveries that both read before either writes, one is lost
  (`BillingDeliveries.LostUpdate`). A row is the run of its events exactly when no
  other write of it falls between a caller's read and its write
  (`BillingDeliveries.RowsAreRunsExactly`). A lifetime purchase can be lost so too
  (`BillingDeliveries.LifetimeOverwritten`); an indefinite row stays so exactly when
  no caller that had read it dated writes it
  (`BillingDeliveries.IndefiniteSurvivesExactly`).
* A redirection glued to a word of digits takes the word for its descriptor even
  when it is quoted, so `rm "2">log` does not report the file `2`
  (`ShellLine.ShellRoundTrip`, `GateRunnerGuard.DigitsTakenForDescriptor`).
* An offset saved while an older restore loop still runs is dropped when that loop
  stops (`ScrollRestore.SavedReachesArrival`,
  `ScrollRestore.SavedBesideALoopIsLost`); one saved more than 2 px above the top is
  written at every frame of the window (`ScrollRestore.ReachableIsRestored`,
  `ScrollRestore.OverscrolledWrittenAgain`). A page on target down is never written,
  so a saved offset across is lost on it (`ScrollRestore.BothRestoredExactly`,
  `ScrollRestore.AcrossIsLost`).

## Model

| member | source | states |
|---|---|---|
| Delimited.ParseDelimited | apps/web/app/spreadsheet-grid.ts:45-85 | The loop over `index`, `quoted`, `cell`, `row` and `rows` computes `Parsed`, a structural recursion on the remaining text; what it means, for every delimiter, are the round trip and the rules beside it below |
| Delimited.KeepVisible | apps/web/app/spreadsheet-grid.ts:84-84 | Keeps exactly the rows with some cell that is not blank, in order |
| Delimited.RoundTrip | apps/web/app/spreadsheet-grid.ts:45-85 | For every delimiter, every table of arbitrary strings, and LF and CRLF alike, parsing with a delimiter the rows printed with it gives back exactly the rows with some non-blank cell, cell for cell, in order |
| Delimited.ScanCell | apps/web/app/spreadsheet-text.ts:310-312 | Whatever a cell holds and whatever the delimiter, its printed form is read back as that cell and leaves the parser outside quotes |
| Delimited.VisibleOne | apps/web/app/spreadsheet-grid.ts:84-84 | A row counts as read exactly when some cell has a character that is not blank |
| Delimited.LooseText | apps/web/app/spreadsheet-grid.ts:45-82 | Text the printer never writes: a quote inside a cell is itself, what follows a closing quote goes on in the cell, a lone carriage return outside quotes is nothing |
| Delimited.OpenQuoteTakesAll | apps/web/app/spreadsheet-grid.ts:56-66 | A quote left open takes the rest of the text into its cell, line ends and delimiters too |
| Delimited.CsvToRows | apps/web/app/spreadsheet-grid.ts:87-102 | The running best over `;`, `,` and tab is the first widest reading; a failed decoding or no visible row gives nothing; what each reading holds is `Delimited.DetectedWith` |
| Delimited.WidestIsFirstWidest | apps/web/app/spreadsheet-grid.ts:94-101 | The reading kept is the earliest among those with the widest first row, and empty only if all are |
| Delimited.NothingDetected | apps/web/app/spreadsheet-grid.ts:94-101 | Nothing is detected exactly when no delimiter reads a row with visible text |
| Delimited.DetectionRoundTrip | apps/web/app/spreadsheet-grid.ts:94-101 | Any printed table comes back through detection, or as nothing when it has no visible row, if and only if neither the comma nor the tab reads a first row wider than the table's own |
| Delimited.DetectedWith | apps/web/app/spreadsheet-grid.ts:94-101 | A table printed with any of the three delimiters: that reading is its visible rows, they are what comes out when it is the first widest, and they are not when another is wider |
| Delimited.ColumnsDetected | apps/web/app/spreadsheet-grid.ts:94-101 | A table of two columns or more, printed with one of the delimiters and free of the other two, always comes back |
| Delimited.PlainTableDetected | apps/web/app/spreadsheet-grid.ts:94-101 | A printed text with no comma and no tab is detected right if and only if its table has a visible row or the text no `;` |
| Delimited.BlanksReadAsSemicolon | apps/web/app/spreadsheet-grid.ts:94-101 | A row of two blank cells, which has nothing visible, is detected as the one cell `;` |
| Delimited.DetectionCanSplitCells | apps/web/app/spreadsheet-grid.ts:94-101 | The one-cell table `a,b` is not read back as itself |
| Calendar.DaysOfDateOf | apps/web/app/spreadsheet-grid.ts:126-133 | Day number to civil date and back is the identity on every integer |
| Calendar.DateOfDaysOf | apps/web/app/spreadsheet-grid.ts:126-133 | Civil date to day number and back is the identity on every valid Gregorian date |
| Calendar.LaterNumber | apps/web/app/spreadsheet-text.ts:300-308 | Adding n to a day number is walking the calendar n days, one by one |
| Calendar.MonthsAre | apps/web/app/spreadsheet-grid.ts:126-133 | The lengths of the months, one by one |
| Calendar.FebruaryIs | apps/web/app/spreadsheet-grid.ts:126-133 | February has a 29th in the years four divides, but for those of a century four hundred does not |
| Calendar.UtcDays | apps/web/app/spreadsheet-grid.ts:126-133 | `Date.UTC` counts from 1970 and reads the years 0 to 99 as 1900 to 1999 |
| DateKeys.KeyOrder | apps/web/app/hero-breakdown-data.ts:164-166 | On four-digit years string order of `YYYY-MM-DD` keys is chronological order, ties included |
| Text.TrimIs | apps/web/app/spreadsheet-grid.ts:114-114 | `trim` takes blanks off both ends and nothing else |
| SheetDates.RealDays | apps/web/app/spreadsheet-grid.ts:126-133 | `isRealDay` holds exactly for the Gregorian dates whose year is not from 0 to 99 |
| SheetDates.SerialRoundTrip | apps/web/app/spreadsheet-text.ts:300-308 | For every serial, fractional or negative too, in both date systems: the printed cell reads back as the key of the serial's day if its year runs from 1000 to 9999, and as no date otherwise |
| SheetDates.RoundsToNearest | apps/web/app/spreadsheet-text.ts:304-304 | A fractional serial goes to the nearest day, halves up |
| SheetDates.SerialCountsDays | apps/web/app/spreadsheet-text.ts:300-308 | The day of a rounded serial is that many calendar days after the system's day zero |
| SheetDates.ExcelAgreement | apps/web/app/spreadsheet-text.ts:300-308 | Against Excel's own 1900 numbering the code is right if and only if the serial is at least 61 |
| SheetDates.IsoShapeOfResult | apps/web/app/spreadsheet-grid.ts:113-124 | An accepted value comes out as `YYYY-MM-DD` if and only if it was not a Spanish date of a year below 1000 |
| SheetDates.IsoRead | apps/web/app/spreadsheet-grid.ts:113-116 | An ISO date, between blanks or not, is itself when it is a real day of a year from 100 on, and no date otherwise |
| SheetDates.SpanishRead | apps/web/app/spreadsheet-grid.ts:117-124 | A Spanish date, its day and month of one digit or two, is the ISO text of its day when that is real, and no date otherwise |
| SheetDates.UnpaddedYears | apps/web/app/spreadsheet-grid.ts:117-123 | Every Spanish date of a year from 0100 to 0999 is accepted and comes out with a three-digit year |
| SheetDates.FirstOfJanuary500 | apps/web/app/spreadsheet-grid.ts:117-123 | `01/01/0500` comes out as `500-01-01` |
| SheetCells.NumberOfName | apps/web/app/spreadsheet-text.ts:266-272 | Numbering the letters of a column gives the column back |
| SheetCells.NameOfNumber | apps/web/app/spreadsheet-text.ts:266-272 | No two runs of letters share a number: naming the number gives the letters back |
| SheetCells.ColumnOfName | apps/web/app/spreadsheet-text.ts:266-272 | Columns count from zero: the first is `A`, the twenty-seventh `AA`, and a cell without a reference is in the first |
| SheetCells.ColumnIndexOf | apps/web/app/spreadsheet-text.ts:266-272 | The accumulating loop computes the zero-based column of the reference, zero without one |
| SheetCells.SheetRow | apps/web/app/spreadsheet-text.ts:146-158 | The row reaches its farthest listed column, gaps are empty, and the last cell listed for a column wins |
| SheetCells.RowSurvives | apps/web/app/spreadsheet-text.ts:146-158 | However the cells of a row are listed, in any order and with empty ones written or not, the row comes back, lacking at most empty cells at its end |
| XmlText.UnescapeOfWritten | apps/web/app/spreadsheet-text.ts:314-325 | What the seven global replacements do to any text written with raw characters, the five entities and numeric references, computed token by token |
| XmlText.UnescapeRoundTrip | apps/web/app/spreadsheet-text.ts:314-325 | However a text is written, its characters come back if and only if no ampersand written as a numeric reference is read a second time |
| XmlText.StandardRoundTrip | apps/web/app/spreadsheet-text.ts:314-325 | Standard escaping of the five characters is inverted for every string, one that looks like entities or references included |
| XmlText.ReferenceMeans | apps/web/app/spreadsheet-text.ts:320-323 | However the number of a character is written, in decimal or in hexadecimal of either case, the reference is that character |
| XmlText.NoSuchCharacter | apps/web/app/spreadsheet-text.ts:320-323 | Exactly the numbers past the last character, or of half of one, have no character |
| XmlText.FiveEntities | apps/web/app/spreadsheet-text.ts:315-324 | Each of the five entities is its character |
| XmlText.NumericAmpersandReadTwice | apps/web/app/spreadsheet-text.ts:314-325 | `&#38;amp;` does not come back as `&amp;` |
| ShellLine.ParseShellLine | scripts/agents/shell-line.ts:22-108 | The whole loop computes `Parsed`; what `Parsed` means are the round trip and the rules beside it below |
| ShellLine.Step | scripts/agents/shell-line.ts:50-105 | One turn consumes at least one character and leaves what the rest will be read as unchanged; an unquoted `$` goes only before a quote |
| ShellLine.StepOperator | scripts/agents/shell-line.ts:78-98 | An operator ends or claims the word before it, gives the next word its role, and is consumed whole |
| ShellLine.LexPiece | scripts/agents/shell-line.ts:50-73 | A stretch is read as its text whatever follows: bare, with any `$` that stands before no quote; in single or double quotes, with their escapes, after a `$` or not; backslashed; or a continued line, which is nothing |
| ShellLine.ShellRoundTrip | scripts/agents/shell-line.ts:22-108 | For every script of commands, each stretch of each word bare, `$` and `#` included, or quoted in any of the styles, with output, append, input and duplicating redirections, spaced or glued, descriptors, separators, continued lines and comments: the reader gives back exactly the words and the output files, in order, if and only if no redirection is glued to a word of digits that counts; otherwise exactly those words are lost |
| ShellLine.EveryTextIsAWord | scripts/agents/shell-line.ts:50-73 | The printer covers every string: any text in double quotes, after a `$` or not, any without `'` in single quotes, any non-empty one without a newline backslashed; and a text of plain characters, `$` and `#` that does not start with `#` as it is |
| ShellLine.PrintsAs | scripts/agents/shell-line.ts:22-108 | A line that is one stretch, in whatever style, is one word, its text |
| ShellLine.DollarIsKept | scripts/agents/shell-line.ts:65-65 | `$x` is read as `$x`, and `$'x'` as `x` |
| ShellLine.BackslashInDouble | scripts/agents/shell-line.ts:51-63 | Between double quotes a backslash escapes `$`, a backquote, `"` and itself, and stays before any other character |
| ShellLine.NothingInSingle | scripts/agents/shell-line.ts:51-63 | Between single quotes nothing is special |
| ShellLine.LeftOpen | scripts/agents/shell-line.ts:50-108 | A quote left open runs to the end, and a lone backslash there is dropped |
| ShellLine.SeparatorEnds | scripts/agents/shell-line.ts:78-100 | Every separator ends the command, but an `&` that opens a redirection |
| ShellLine.TabIsSpace | scripts/agents/shell-line.ts:99-105 | A tab ends a word as a space does |
| ShellLine.ProcessSubstitution | scripts/agents/shell-line.ts:78-98 | `>(` and `<(` open a command and redirect nothing |
| ShellLine.DescriptorsAre | scripts/agents/shell-line.ts:19-20 | A descriptor is `-`, or digits with or without a `-` after them |
| GateRunnerGuard.Invocation | scripts/agents/shell-line.ts:132-145 | The loop over `at` computes the command name and its arguments |
| GateRunnerGuard.InvocationIsFirst | scripts/agents/shell-line.ts:111-145 | The command is the first word that is no assignment, no prefix and no option of a prefix |
| GateRunnerGuard.BasenameIs | scripts/agents/shell-line.ts:144-144 | Whatever directories lead to a name and whatever slashes follow it, the command is the name |
| GateRunnerGuard.NoName | scripts/agents/shell-line.ts:144-144 | Only slashes name nothing |
| GateRunnerGuard.OperandsHold | scripts/agents/shell-line.ts:148-153 | A word is kept if and only if it stands after `--`, or before it and is no option |
| GateRunnerGuard.NamedDirectoriesHold | scripts/agents/gate-runner-guard.ts:116-124 | A directory is named if and only if `--target-directory=` and it is an argument |
| GateRunnerGuard.PerlInPlaceFiles | scripts/agents/gate-runner-guard.ts:88-114 | The nested loops that move `i` and the flags compute the recursive reading of the switches |
| GateRunnerGuard.PerlRoundTrip | scripts/agents/gate-runner-guard.ts:88-114 | Whatever switches a perl call carries, in whatever clusters, exactly its files are found, and only under `-i`; the script is one of them only when code is given inline |
| GateRunnerGuard.NothingTouchedIsMissed | scripts/agents/gate-runner-guard.ts:127-146 | On every printed script each output file, and each operand, target directory or edited file of each `rm`, `mv`, `cp`, `tee` or `perl -i` behind whatever prefixes and by whatever path, is reported, of every command the reader loses no word of, and of what it keeps of any other |
| GateRunnerGuard.TouchedExactly | scripts/agents/gate-runner-guard.ts:136-146 | What is reported of a printed script is exactly that and nothing else |
| GateRunnerGuard.PerlFilesTouched | scripts/agents/gate-runner-guard.ts:127-146 | Of a printed perl call exactly its files are reported, and only under `-i` |
| GateRunnerGuard.DigitsTakenForDescriptor | scripts/agents/shell-line.ts:78-84 | `rm "2">log` has the operand `2`, and only `log` is reported |
| Highlight.IndexOf | apps/web/app/chip-ledger-view.ts:371-372 | The first occurrence of the needle, or none exactly when it does not occur |
| Highlight.FoldSpans | apps/web/app/chip-ledger-view.ts:359-370 | The folded text and, for each of its units, the character it came from |
| Highlight.Highlighted | apps/web/app/chip-ledger-view.ts:350-381 | For any per-character fold: no mark when the needle is empty or absent, otherwise exactly the smallest run of whole characters whose fold covers its first occurrence |
| Highlight.CutSpellsText | apps/web/app/chip-ledger-view.ts:375-381 | The segments spell the whole text, at most one is marked and none is empty |
| Highlight.MarkKept | apps/web/app/chip-ledger-view.ts:375-381 | A run of non-empty characters is never dropped: the mark is there |
| ChipLedgerView.RungHoldsItsOptions | apps/web/app/chip-ledger-view.ts:50-83 | A group holds every option of its rung exactly as often as the catalogue does, largest value first |
| ChipLedgerView.GroupsOfRungs | apps/web/app/chip-ledger-view.ts:50-83 | Groups are of different rungs, none is empty, and every rung with options has one |
| ChipLedgerView.LadderOrder | apps/web/app/chip-ledger-view.ts:57-82 | The groups climb the ladder: cash, market, locked terms, illiquid, housing |
| ChipLedgerView.EveryOptionGrouped | apps/web/app/chip-ledger-view.ts:50-83 | Every option is a row of exactly one group, its own rung's, checked exactly if it was selected |
| ChipLedgerView.NothingHidesUnannounced | apps/web/app/chip-ledger-view.ts:271-337 | The view lists every row once, in order; at rest, rows shown plus the number under «Ver N más» count the group, a group offers to show less exactly when it is lifted and longer than five, and one that does not announce hidden rows shows all |
| ChipLedgerView.SearchShows | apps/web/app/chip-ledger-view.ts:271-337 | A query that folds to a needle between blanks shows exactly the rows whose text holds the needle, opens every group, counts the matches and puts aside the groups without one; a query that folds to blanks searches for nothing |
| ChipLedgerView.FoldJoins | apps/web/app/chip-choice-view.ts:22-35 | A folded text is its characters folded one after another |
| ChipLedgerView.FoldOpens | apps/web/app/chip-ledger-view.ts:177-178 | Folding a rung changes nothing but whether its own group is open, at rest, and only of illiquid and housing |
| ChipLedgerView.StartsFolded | apps/web/app/chip-ledger-view.ts:87-123 | At the start a group is open exactly when it is neither illiquid nor housing |
| ChipLedgerView.WindowShows | apps/web/app/chip-ledger-view.ts:179-180 | Lifting a window at rest shows every row of its rung, closing it the first five, the marked and the touched; no other group changes |
| ChipLedgerView.VisibleAre | apps/web/app/chip-ledger-view.ts:298-298 | The visible rows are counted one by one |
| ChipLedgerView.MatchesAdd | apps/web/app/chip-ledger-view.ts:328-333 | The match count is the visible rows of all groups together |
| ChipLedgerView.ChosenAre | apps/web/app/chip-ledger-view.ts:314-314 | A group counts as chosen exactly its rows the state has chosen |
| ChipLedgerView.TargetIsFirst | apps/web/app/chip-ledger-view.ts:276-284 | What Enter would add is the first unchosen match in ledger order, and nothing exactly when there is none |
| ChipLedgerView.RestVisibleGrows | apps/web/app/chip-ledger-view.ts:156-202 | Every action but the group's own window control keeps in sight at rest what was in sight |
| ChipLedgerView.AddedRowShows | apps/web/app/chip-ledger-view.ts:156-202 | A row added by Enter is chosen and visible, in an open group, with the search cleared |
| ChipLedgerView.BasketInOrder | apps/web/app/chip-ledger-view.ts:204-210 | The basket lists the chosen ids one for one in their order |
| ChipLedgerView.OpensAsMarked | apps/web/app/chip-ledger-view.ts:109-123 | The state opens with nothing searched, touched, unfolded or lifted, and chosen exactly the marked rows, in the document's order |
| ChipLedgerView.DocumentOrder | apps/web/app/chip-ledger-view.ts:116-120 | The rows of the document are those of the groups, group after group |
| ChipLedger.Island.OnChange | apps/web/app/chip-ledger.tsx:234-241 | A click flips one box and dispatches its mark, nothing else |
| ChipLedger.Island.OnEnter | apps/web/app/chip-ledger.tsx:85-95 | Enter checks the target's box and dispatches the addition; without a target nothing changes |
| ChipLedger.Island.RemoveFromBasket | apps/web/app/chip-ledger.tsx:107-120 | Removing unchecks the box and dispatches its mark |
| ChipLedger.Island.OnEscape | apps/web/app/chip-ledger.tsx:95-98 | Escape clears the search, if there is one, and touches no box |
| ChipLedger.Island.OnReset | apps/web/app/chip-ledger.tsx:59-75 | A reset puts the boxes back to their defaults and leaves a sync due |
| ChipLedger.Island.OnTimer | apps/web/app/chip-ledger.tsx:59-75 | The deferred sync reads the live boxes |
| ChipLedger.SyncMirrors | apps/web/app/chip-ledger-view.ts:181-201 | A sync leaves the chosen ids exactly the checked boxes, whatever they were |
| ChipLedger.StepKeeps | apps/web/app/chip-ledger.tsx:59-120 | Every handler but a reset keeps the mirror; a due sync restores it |
| ChipLedger.MirrorOverRuns | apps/web/app/chip-ledger.tsx:59-120 | Over every run, from any boxes the browser restored, whenever no sync is due the basket lists exactly the checked boxes, which is what the form posts |
| ChipLedger.BasketOrder | apps/web/app/chip-ledger-view.ts:145-201 | Every handler only appends at the basket's foot or takes rows out in place; only a sync that finds a difference rebuilds the order, as the document's |
| ChipLedger.TargetIsABox | apps/web/app/chip-ledger.tsx:77-105 | The row Enter would add always has its box |
| ChipLedger.NothingChosenHides | apps/web/app/chip-ledger-view.ts:109-197 | In every reachable page a chosen row is in sight at rest, and while nothing is searched its row of the view is visible |
| DashboardMatrix.CrossOf | apps/web/app/dashboard-matrix.ts:59-85 | The cross is each cell of the same range or of the same mode on an offered range, once, column first |
| DashboardMatrix.NoMoreThanTheMatrix | apps/web/app/dashboard-matrix.ts:88-96 | No list of different cells, so no cross, exceeds the route's limit |
| DashboardMatrix.ParseCellsParam | apps/web/app/dashboard-matrix.ts:113-143 | The loop computes `ParsedCells`, refusals and their messages included |
| DashboardMatrix.KeyNamesCell | apps/web/app/dashboard-matrix.ts:40-42 | A cell key is parsed as exactly its cell |
| DashboardMatrix.QueryRoundTrip | apps/web/app/dashboard-matrix.ts:113-143 | The route reads back exactly the cells the panel printed, each once |
| DashboardMatrix.AcceptedCells | apps/web/app/dashboard-matrix.ts:113-143 | What is accepted is exactly the cells the tokens name, none twice; what is refused holds a token that names none |
| DashboardMatrix.TokensAre | apps/web/app/dashboard-matrix.ts:113-125 | The tokens are the parts between commas that are not blank, trimmed, in order |
| DashboardMatrix.TokenNames | apps/web/app/dashboard-matrix.ts:128-137 | A token names a cell exactly when it is that cell's key |
| DashboardMatrix.RefusedFor | apps/web/app/dashboard-matrix.ts:126-143 | The list is accepted exactly when every token names a cell; otherwise the first that names none is refused by name |
| DashboardMatrix.ListRefused | apps/web/app/dashboard-matrix.ts:118-126 | A list of no tokens and one of more than twenty are refused as such |
| CompositionPanel.Island.FetchCells | apps/web/app/composition-panel.tsx:120-150 | Only cells the mirror lacks are asked for, and no request is made for none |
| CompositionPanel.Island.GoTo | apps/web/app/composition-panel.tsx:204-229 | A move changes the current cell and prefetches its cross |
| CompositionPanel.Island.CommitCache | apps/web/app/composition-panel.tsx:113-118 | The mirror catches up with the cache, and nothing else changes |
| CompositionPanel.Island.OnMiss | apps/web/app/composition-panel.tsx:190-201 | A current cell that is not cached is asked for alone |
| CompositionPanel.Island.OnAnswer | apps/web/app/composition-panel.tsx:126-147 | An answer is merged over the cache held by then; a failure changes no cell |
| CompositionPanel.RouteAnswers | apps/web/app/composition-panel.tsx:120-150 | The route's answer to a prefetch is exactly its cells, each as the builder draws it |
| CompositionPanel.StepKeeps | apps/web/app/composition-panel.tsx:112-162 | Every event keeps the cache built, its mirror behind it, requests within the limit, and every cell of the current cross cached, in flight or failed |
| CompositionPanel.CacheOverRuns | apps/web/app/composition-panel.tsx:112-162 | Over every interleaving each cached payload is the builder's for its key, and the route accepts every request as printed |
| CompositionPanel.EagerExactly | apps/web/app/composition-panel.tsx:153-162 | The ranges asked for ahead are the offered ones, all of them only when the page opened on `all` |
| CompositionPanel.NothingCachedIsLost | apps/web/app/composition-panel.tsx:141-143 | A cached cell stays cached with the same payload, whatever follows |
| CompositionPanel.OneClickAway | apps/web/app/composition-panel.tsx:153-162 | Once every request is answered, each cell one move away over the eager ranges is cached or its answer failed, however stale the mirror was |
| CompositionPanel.AlwaysOneClickAway | apps/web/app/composition-panel.tsx:153-162 | Without a failure each of those cells is cached with its builder's payload |
| CompositionPanel.ShippedStays | apps/web/app/composition-panel.tsx:112-162 | Over every run a shipped payload, right or wrong, stays, every other cached one is the builder's, and so the whole cache is the builder's if and only if what was shipped was |
| PanelOfPage.RouteIsBuilder | apps/web/app/dashboard-cells.ts:88-98 | The route's answer to any request is its cells each as asked for alone |
| PanelOfPage.CachedAreTheRoutesExactly | apps/web/app/composition-panel.tsx:112-162 | Over every run of the panel on the page's own cells, all that is cached is the route's if and only if every shipped cell was |
| PanelOfPage.OfferedCacheIsTheRoutes | apps/web/app/load-dashboard.ts:383-422 | With an active range on offer, or none asked for, it always is |
| CompositionChart.WindowByKeys | packages/domain/src/composition-chart.ts:190-196 | Both string tests against a range's cutoff, on the month part and on the whole key from the first day, are the window test on months |
| CompositionChart.LongerRangeKeepsMore | packages/domain/src/composition-chart.ts:163-196 | A longer range keeps whatever a shorter one keeps |
| CompositionChart.RangeHoldsItsMonths | packages/domain/src/composition-chart.ts:163-196 | A bounded range holds exactly the last twelve, thirty-six or sixty months, today's included; `all` holds every day |
| CompositionChart.OfferedExactly | packages/domain/src/composition-chart.ts:210-221 | A bounded range is on offer exactly when the history spans more months than it holds, and `all` always |
| CompositionChart.SpanIsWidest | packages/domain/src/composition-chart.ts:310-317 | The span is the widest distance in months between two snapshots |
| CompositionChart.DensityBySpan | packages/domain/src/composition-chart.ts:198-208 | Up to three years a point per month, up to seven per quarter, beyond per year |
| CompositionChart.PeriodKeysOrder | packages/domain/src/composition-chart.ts:223-231 | Period keys order as the months, quarters and years they stand for |
| CompositionChart.LastWins | packages/domain/src/composition-chart.ts:247-253 | Of the snapshots of one period the last by date stays, one for each period |
| CompositionChart.BasePointsAreCloses | packages/domain/src/composition-chart.ts:240-261 | Each base point is the latest kept snapshot of its period, and each period kept has exactly one |
| CompositionChart.BasePointsAscend | packages/domain/src/composition-chart.ts:255-256 | The points come in period order |
| CompositionChart.OpenExactly | packages/domain/src/composition-chart.ts:257-260 | A point is open exactly when its period is today's or a later one |
| CompositionChart.TodayIsPoint | packages/domain/src/composition-chart.ts:240-261 | With no snapshot after today, today's is the point of its period |
| CompositionChart.SeriesReadsItsWindow | packages/domain/src/composition-chart.ts:292-332 | The series depends only on the rows of days inside its range's window |
| CompositionChart.SeriesExactly | packages/domain/src/composition-chart.ts:292-332 | Two row sets give the same series, rows shown, if and only if they agree on every day the range may plot |
| DashboardCells.BuildMatrixCells | apps/web/app/dashboard-cells.ts:88-98 | Exactly the asked cells, each under its key |
| DashboardCells.ShippedCells | apps/web/app/load-dashboard.ts:509-516 | The page ships the cells one click away and the whole chart row over the eager ranges |
| DashboardCells.WindowsAgree | apps/web/app/load-dashboard.ts:387-409 | A range keeps the same rows from the bounded read as from the full one if and only if no stored row is inside the range and before the start of the read |
| DashboardCells.SeriesOfWindow | packages/domain/src/composition-chart.ts:292-332 | Row sets with the same window give the same series |
| DashboardCells.ActiveSeriesIsItsCell | apps/web/app/load-dashboard.ts:411-451 | The page's own chart, built from the windowed rows, is the one its cell is built from |
| DashboardCells.CellsAgree | apps/web/app/dashboard-cells.ts:56-86 | With nothing between, the page's cell is the route's, chart or drilldown |
| DashboardCells.OfferedReadsEnough | apps/web/app/load-dashboard.ts:383-395 | With an active range on offer, no shipped range shows a row the page did not read |
| DashboardCells.PageEqualsRoute | apps/web/app/load-dashboard.ts:383-422 | With an active range on offer, or none asked for, every shipped cell equals the route's, today's point included |
| DashboardCells.TodayOnce | apps/web/app/dashboard-cells.ts:133-152 | Today's point is added only to a history without today, so no day is plotted twice, and nothing stored goes |
| DashboardCells.TodayRowsAre | apps/web/app/dashboard-cells.ts:133-152 | Today's rows are the capture's holdings one for one, same ids and values, in order, dated today; with today stored or nothing captured nothing is added, and the snapshots stay as they were |
| DashboardCells.TodayRead | apps/web/app/load-dashboard.ts:238-256 | Of today, the page's read and the route's hold the stored rows and then the capture's |
| DashboardCells.TodayPlotted | apps/web/app/dashboard-cells.ts:133-152 | While today is not stored, the chart of any range, on the page and on the route, has an open point at today with exactly the capture's rows |
| DashboardCells.TodayInEveryWindow | apps/web/app/dashboard-cells.ts:143-152 | Today's synthesized rows are inside every range |
| DashboardCells.DrillCellIs | apps/web/app/dashboard-cells.ts:56-86 | A drilldown cell of the route is built from all stored ids and every row of its window, today's too |
| DashboardCells.ActiveIs | apps/web/app/load-dashboard.ts:383-395 | The page opens on the range asked for, else on the shortest on offer |
| DashboardCells.OfferedBySnapshots | apps/web/app/load-dashboard.ts:376-386 | A bounded range is on offer exactly when some snapshot, today's included, is more months back than it holds |
| DashboardCells.CellAgreesExactly | apps/web/app/dashboard-cells.ts:56-86 | A page cell is the route's, whatever draws it, if and only if no stored row of its range is before the read, for a drilldown, or on a plotted day before the read, for a chart |
| DashboardCells.DeepLink | apps/web/app/load-dashboard.ts:386-395 | With a range not on offer, every shipped cell is the route's, whatever draws it, if and only if no stored row lies between what is read and what is shipped, or, with a chart and only `all` on offer, none on a plotted day |
| DashboardCells.FiveYearsOfTwo | apps/web/app/load-dashboard.ts:386-395 | Asked for five years of a two-year history, the page ships a five-year chart cell unequal to the route's |
| DashboardCells.OneYearOfOne | apps/web/app/load-dashboard.ts:386-395 | Asked for the last year of a history of exactly a year, the page ships an `all` chart cell unequal to the route's |
| DashboardCells.CloseLost | apps/web/app/load-dashboard.ts:395-409 | For a lone close inside the range and before the read, the route's chart plots it with its row and the page's plots nothing |
| DashboardCells.PageCells | apps/web/app/load-dashboard.ts:509-525 | The page's first cells are the shipped ones built from the bounded read and today's rows, which `DashboardCells.TodayRowsAre` gives |
| DashboardCells.RouteCells | apps/web/app/dashboard-cells.ts:189-209 | The route's cells are the asked ones built from the whole history and today's rows, which `DashboardCells.TodayRowsAre` gives |
| ProposalStore.StoredKindsAreRead | packages/db/src/assistant-proposal-store.ts:259-343 | Whatever fact is handed in, the stored kind is one the reader knows; a known tag is kept |
| ProposalStore.FactKeeps | packages/db/src/assistant-proposal-store.ts:259-357 | Six kinds keep exactly the row handed in; of any other a field is stored if and only if it was given and is one of the kind's own, with its value unchanged; the typed identifier pair is stored if and only if its value classifies as the kind it declares; a fact of a tag the store does not know is a statement operation that keeps its tag alone |
| ProposalStore.NormalizeIdempotent | packages/db/src/assistant-proposal-store.ts:259-357 | A stored fact handed in again is stored unchanged |
| ProposalStore.Store.CreateProposal | packages/db/src/assistant-proposal-store.ts:226-257 | Adds one draft and nothing else, or nothing at all |
| ProposalStore.Store.AppendDocument | packages/db/src/assistant-proposal-store.ts:369-418 | In one transaction adds the document with the next sequence and its normalized facts in order, only to a draft; what a normalized fact keeps is `ProposalStore.FactKeeps` |
| ProposalStore.LegalDocumentExactly | packages/db/src/assistant-proposal-store.ts:359-367 | A document is taken exactly when its name has a visible character, its hash is 64 hexadecimal digits and its provenance one of two |
| ProposalStore.LowerHexIs | packages/db/src/assistant-proposal-store.ts:396-396 | The stored hash is the one handed in with its letters lower |
| ProposalStore.Store.ResolveProposal | packages/db/src/assistant-proposal-store.ts:544-566 | The guarded update applies to a draft and to nothing else |
| ProposalStore.Store.ReadProposal | packages/db/src/assistant-proposal-store.ts:420-542 | Reads the head, the documents by sequence and each one's facts in order |
| ProposalStore.RunStands | packages/db/src/assistant-proposal-store.ts:226-566 | Over every interleaving the tables stand for an abstract book of proposals, each a status and a list of documents with their facts |
| ProposalStore.SequencesOverRuns | packages/db/src/assistant-proposal-store.ts:384-397 | Sequences are exactly 0, 1, … in append order |
| ProposalStore.TornRead | packages/db/src/assistant-proposal-store.ts:420-542 | A read whose statements are interleaved with other callers still returns the documents as of its document query, each with all its facts, in append order |
| ProposalStore.AppendedIsRead | packages/db/src/assistant-proposal-store.ts:369-542 | A document appended at any point of any run is in its place in every later read, torn or not, with every fact of it, field by field, as handed in |
| ProposalStore.TimesOverRuns | packages/db/src/assistant-proposal-store.ts:226-566 | A proposal's times are those of its creation, of the last operation that took effect on it, and of its resolution |
| ProposalStore.ResolvedForGood | packages/db/src/assistant-proposal-store.ts:544-574 | Once resolved, neither status nor documents change again |
| ProposalStore.ResolvedReadIsFinal | packages/db/src/assistant-proposal-store.ts:420-542 | A read that saw the proposal resolved saw its final documents |
| ProposalStore.OneResolutionWins | packages/db/src/assistant-proposal-store.ts:544-566 | Of any callers racing to resolve a draft exactly one succeeds, and it stays a draft exactly if none tries |
| ProposalStore.FirstResolutionStays | packages/db/src/assistant-proposal-store.ts:544-566 | The status that stays is the first resolution's |
| CoinRefresh.RefreshStaleCoinValuations | apps/web/app/refresh-coin-valuations.ts:115-187 | The loop over sources, with its tranches, closing writes and errors, leaves the store as `Pass` says and reports `PassErrors`; what those are, the rows below say |
| CoinRefresh.Revalue | apps/web/app/refresh-coin-valuations.ts:128-160 | The checkpoint callback writes each tranche as it comes |
| CoinRefresh.TranchesLeaveRows | apps/web/app/refresh-coin-valuations.ts:128-145 | A mid-pass tranche never touches a freshness row |
| CoinRefresh.TrancheKept | apps/web/app/refresh-coin-valuations.ts:128-145 | A coin of a tranche the store kept is stored after the pass's tranches with the stamp of the last kept tranche that had it |
| CoinRefresh.VisitOutcome | apps/web/app/refresh-coin-valuations.ts:120-187 | Wherever the process dies in a visit: other rows stay, its own is untouched, stale, or fresh after a clean end with every coin stored, and no coin goes |
| CoinRefresh.FreshOnlyAfterCleanEnd | apps/web/app/refresh-coin-valuations.ts:115-187 | For every pattern of checkpoints, failures and deaths, a row is stamped fresh only by a pass that ended without an error, and then all it resolved is stored |
| CoinRefresh.EveryDueSourceVisited | apps/web/app/refresh-coin-valuations.ts:115-187 | In a process that lives every due source ends as its own visit left it, whatever became of the others |
| CoinRefresh.RowsAfterPass | apps/web/app/refresh-coin-valuations.ts:161-187 | A due source whose stale row the store takes ends fresh and dated now exactly after a clean end, and otherwise stale under the date it had, or now if it had none |
| CoinRefresh.ToldInOrder | apps/web/app/refresh-coin-valuations.ts:115-187 | The report holds, source after source, what stopped each due one, its own message, its throw or the failed write, and then a failed stale write |
| CoinRefresh.SilentExactly | apps/web/app/refresh-coin-valuations.ts:115-187 | Nothing is reported exactly when every due source ended clean |
| CoinRefresh.NoCoinLost | apps/web/app/refresh-coin-valuations.ts:115-187 | Over any passes, each dying where it may, no stored coin is lost, and each coin's stamp is that of the last write the store kept for it |
| CoinRefresh.DueUntilCleanEnd | apps/web/app/refresh-coin-valuations.ts:115-187 | A due source stays due over any passes until one of its own ends cleanly |
| CoinRefresh.DueExactly | packages/domain/src/prices.ts:217-221 | A row is due when it is missing or says stale, and otherwise a day after it was fetched, unless it was entered by hand |
| HeroBreakdown.ShiftLands | apps/web/app/hero-breakdown-data.ts:89-93 | Shifting a key lands exactly n days away if and only if its year is at least 100, landings in four-digit years given |
| HeroBreakdown.WeeklyBase | apps/web/app/hero-breakdown-data.ts:151-167 | The base is the newest snapshot at least seven days before the latest, and is missing exactly when none is that old |
| HeroBreakdown.WeeklyReadExactly | apps/web/app/hero-breakdown-data.ts:162-173 | From the page's bounded read the weekly window is shown if and only if it exists, both its days have stored rows and its base is inside the read; it is the window of all rows if and only if the base is inside or a day had no rows anyway |
| HeroBreakdown.WeighBands | apps/web/app/hero-breakdown-data.ts:109-119 | Each band keeps its amount and sign and weighs exactly its part of the whole movement; together they weigh one if anything moved and zero otherwise |
| HeroBreakdown.ToHeroBands | apps/web/app/hero-breakdown-data.ts:100-120 | Market, then payouts only when there are any, then savings, each weighing its part of the three magnitudes added up |
| Billing.EventIdempotent | packages/db/src/billing.ts:119-176 | Applying an event again changes nothing on the whole row |
| Billing.IndefiniteStays | packages/db/src/billing.ts:96-152 | An indefinite grant, or one bought on the way, stays indefinite under every sequence of events, and premium at every instant |
| Billing.AccessOnlyGrows | packages/db/src/billing.ts:119-176 | Without a cancellation neither the window nor the effective plan at any instant ever shrinks |
| Billing.CancellationCloses | packages/db/src/billing.ts:166-171 | A cancelled dated row is premium exactly until the end it paid for, else the stored window, else the event |
| Billing.WindowIsFurthest | packages/db/src/billing.ts:100-176 | For activations and payment failures the final window is the maximum of the start, every `paidUntil` and every `occurredAt` plus seven days |
| Billing.PlanOverRuns | packages/db/src/entitlements.ts:75-92 | After activations and failures the plan at an instant is premium if and only if the stored window or some event reaches past it; once all have lapsed it is the trial if one still runs, and free otherwise |
| Billing.OrderDoesNotMatter | packages/db/src/billing.ts:100-176 | Such events reordered or repeated at will end in the same window and the same plan at every instant |
| Billing.ReferencesOverRuns | packages/db/src/billing.ts:123-148 | Provider and status are the last event's, the customer the last one any event named, the subscription the last one an event belonged to, which a lifetime purchase keeps |
| Billing.AccessIsCovered | packages/db/src/entitlements.ts:75-92 | Premium at an instant traces back to an event, or a starting row, that reaches past it |
| Billing.ResyncExactly | packages/db/src/billing.ts:185-218 | A re-sync that finds what an event announced writes that event's whole row, and keeps the window of an active subscription without an end; repeated later it changes nothing if and only if it is not past due, the grant is indefinite or the window outlasts the new grace |
| Billing.ResyncWrites | packages/db/src/billing.ts:185-218 | The row of a re-sync: the subscription asked about and the answer's status, its customer or else the stored one, and a window that an active subscription only lengthens, a cancelled one closes and a failed payment extends by seven days |
| BillingDeliveries.ControlPlane.RecordBillingWebhookEvent | apps/web/app/billing/process-billing-event.ts:41-52 | The insert and the check of the workspace: a delivery goes on exactly when its key is new and its workspace known |
| BillingDeliveries.ControlPlane.ReadWorkspaceEntitlement | apps/web/app/billing/process-billing-event.ts:54-54 | The delivery reads its row, and others may write before it does |
| BillingDeliveries.ControlPlane.ReadForResyncing | apps/web/app/admin/entitlement-actions.ts:86-97 | The re-sync goes on only from a row that knows a subscription of the configured provider, and a provider that knows it |
| BillingDeliveries.ControlPlane.UpdateWorkspaceBilling | packages/db/src/control-plane/entitlement-directory.ts:240-277 | The upsert, from the row its caller read: it asserts premium, writes the billing fields and leaves the stored trial |
| BillingDeliveries.ControlPlane.ProcessBillingEvent | apps/web/app/billing/process-billing-event.ts:36-61 | A delivery nobody interrupts is its three statements in order, applied exactly when its key is new and its workspace known |
| BillingDeliveries.DeliveredAlone | apps/web/app/billing/process-billing-event.ts:36-61 | A delivery nobody interrupts applies an event of a new key and a known workspace to that workspace's row and changes no other; any other event changes no row; a key is a provider and its name for the event |
| BillingDeliveries.ResyncedAlone | apps/web/app/admin/entitlement-actions.ts:62-107 | A re-sync nobody interrupts writes the row of a workspace with a subscription whose provider is the one configured and answers; otherwise it says which of these failed first and changes no row |
| BillingDeliveries.RowsAreChains | apps/web/app/billing/process-billing-event.ts:36-61 | Over every interleaving of deliveries and re-syncs, deaths included, a row is the run of exactly the writes it descends from, each made from the row its caller had read |
| BillingDeliveries.RowsAreRunsExactly | apps/web/app/billing/process-billing-event.ts:36-61 | A row is the run of its events in write order, whatever customers they name, if and only if no other write of that row falls between a caller's read and its write |
| BillingDeliveries.UndisturbedRows | apps/web/app/billing/process-billing-event.ts:36-61 | In such a run the row itself is that run |
| BillingDeliveries.ChainIsAllWrites | packages/db/src/control-plane/entitlement-directory.ts:250-259 | The unguarded upsert keeps never more than the writes made, and all of them, in order, if and only if no read was overtaken |
| BillingDeliveries.LostUpdate | apps/web/app/billing/process-billing-event.ts:54-58 | An activation to day 100 and a payment failure that both read before either writes leave the seven days only, which neither order of the two does |
| BillingDeliveries.IndefiniteSurvivesExactly | packages/db/src/billing.ts:115-117 | From where a row is indefinite, whatever callers follow, it stays indefinite throughout if and only if no caller that had read it dated writes it, but with a lifetime purchase of its own |
| BillingDeliveries.LifetimeOverwritten | apps/web/app/billing/process-billing-event.ts:54-58 | A lifetime purchase written between a payment failure's read and its write ends as a window of seven days |
| BillingDeliveries.RedeliveryChangesNothing | apps/web/app/billing/process-billing-event.ts:41-44 | Once an event was recorded, delivering it again at any later point of any run reads and writes nothing |
| BillingDeliveries.LostRenewalIsRepaired | apps/web/app/admin/entitlement-actions.ts:62-107 | A renewal whose caller died after recording it is never taken again, and a re-sync nobody interrupts writes the row it would have written |
| ScrollRestore.Keeper.OnFrame | apps/web/app/form-submit-scroll-keeper.tsx:158-186 | A frame opens the window once, then stops, waits or writes as decided, and drops the record on stopping |
| ScrollRestore.Keeper.OnNavigate | apps/web/app/form-submit-scroll-keeper.tsx:103-125 | An arrival tears the old loop down, drops a record that is stale or of another page, and otherwise starts a loop |
| ScrollRestore.Keeper.OnInterrupt | apps/web/app/form-submit-scroll-keeper.tsx:127-129 | A wheel or a touch marks a running loop interrupted, and nothing else |
| ScrollRestore.Keeper.OnKeyDown | apps/web/app/form-submit-scroll-keeper.tsx:130-144 | A scrolling key outside an editable target does the same |
| ScrollRestore.Keeper.OnSubmit | apps/web/app/form-submit-scroll-keeper.tsx:70-93 | A submit worth saving replaces the record, loop or no loop |
| ScrollRestore.FrameWritesExactly | apps/web/app/form-submit-scroll.ts:205-231 | Over every run a frame writes, and then the saved offset, if and only if nothing interrupted, the document can hold it within 2 px now, under 1000 ms passed since it first could, and the page is off target |
| ScrollRestore.FrameStopsExactly | apps/web/app/form-submit-scroll.ts:205-231 | Over every run a frame stops the loop if and only if something interrupted it, the document cannot hold the offset 8000 ms after the start, or it can and first could 1000 ms ago or more; stopping drops the record and writes nothing |
| ScrollRestore.InterruptedWritesNothing | apps/web/app/form-submit-scroll.ts:218-218 | After an interruption nothing is written and the next frame ends the loop |
| ScrollRestore.StopsInTime | apps/web/app/form-submit-scroll-keeper.tsx:158-188 | With frames at most g apart and arbitrary geometry, a loop inside its budget stops before 9000 + 2g ms, and has stopped once the frames pass 9000 + g |
| ScrollRestore.ArrivalStopsInTime | apps/web/app/form-submit-scroll-keeper.tsx:103-188 | The same for the loop of every arrival |
| ScrollRestore.RecordOutlivesLoop | apps/web/app/form-submit-scroll-keeper.tsx:103-195 | In every run there is a record as long as a loop runs |
| ScrollRestore.RecordCleared | apps/web/app/form-submit-scroll-keeper.tsx:103-195 | The record goes exactly when a frame stops the loop or an arrival finds it elsewhere or stale |
| ScrollRestore.MountedTwice | apps/web/app/form-submit-scroll-keeper.tsx:190-195 | Mounting, tearing down and mounting again is mounting once |
| ScrollRestore.WrittenAtMostOnce | apps/web/app/form-submit-scroll-keeper.tsx:158-186 | A document that moves only when written to is written at most once, for any offset saved at most 2 px above the top |
| ScrollRestore.ReachableIsRestored | apps/web/app/form-submit-scroll.ts:205-231 | The first frame that can hold the offset leaves the page on target if and only if it was there already or the offset is at most 2 px above the top |
| ScrollRestore.OverscrolledWrittenAgain | apps/web/app/form-submit-scroll.ts:205-231 | Any other offset is written again at the next frame of the window, though the document moves only when written to |
| ScrollRestore.BothRestoredExactly | apps/web/app/form-submit-scroll.ts:218-231 | An undisturbed page ends at both saved coordinates if and only if the first frame that can hold the offset found it off target down, and it is then written once, or already in place across |
| ScrollRestore.AcrossIsLost | apps/web/app/form-submit-scroll.ts:227-229 | An offset saved 300 px across at the top is saved and never written |
| ScrollRestore.SavedReachesArrival | apps/web/app/form-submit-scroll-keeper.tsx:70-195 | A saved offset starts a loop at the arrival that follows if and only if no frame stopped an older loop in between, the page is the same and the record is from 0 to 10000 ms old |
| ScrollRestore.SavedExactly | apps/web/app/form-submit-scroll.ts:150-162 | A submit is saved unless it closes a dialog, lands by its own means or leaves from the very top |
| ScrollRestore.KeysThatScroll | apps/web/app/form-submit-scroll.ts:105-130 | A key counts as scrolling exactly when it is one of the ten that move the viewport and is not typed into a field |
| ScrollRestore.SavedBesideALoopIsLost | apps/web/app/form-submit-scroll-keeper.tsx:177-181 | Saved before the frame that stops an older loop, an offset is gone at its own arrival |
| Movers.BaseIsNewest | apps/web/app/movers-data.ts:74-88 | The base is the newest snapshot at least one, or twelve, months before the latest, and is missing exactly when there is none |
| Movers.Aggregate | apps/web/app/movers-data.ts:160-185 | The loop over the map of entries computes `Aggregated`, characterised by the next two rows |
| Movers.AggregatedHolds | apps/web/app/movers-data.ts:160-185 | Each holding with rows on the two days has one entry: both sums, the last caption, and tier and security from its last row of the latest day, else of the base day |
| Movers.ListedAsMet | apps/web/app/movers-data.ts:160-185 | Holdings are listed in the order their first rows came |
| Movers.KeyNamesHolding | apps/web/app/movers-data.ts:163-163 | A map key stands for one holding of one kind |
| Movers.ImpactsAddUp | apps/web/app/movers-data.ts:160-190 | The impacts of all entries add up to the signed rows of the latest day less those of the base day |
| Movers.SumIsNet | apps/web/app/movers-data.ts:110-112 | A day's signed rows are what is owned less what is owed |
| Movers.MoversAddUp | apps/web/app/movers-data.ts:187-199 | The same for the movers of the total framing, those that did not move left out |
| Movers.ListedExactly | apps/web/app/movers-data.ts:100-108 | The movers are, in order, those of exactly the holdings that changed and that the framing takes, liquid ones being cash and market assets and debts that secure no home and are of no tier or a liquid one |
| Movers.MoverTells | apps/web/app/movers-data.ts:192-198 | A mover says its change, that change in per cent of the base unless there was none, new exactly without a base, sold exactly when what there was is gone |
| Movers.ColumnsAreExtremes | apps/web/app/movers-data.ts:220-233 | Each column lists, in order, the most extreme movers of its sign, four or as many as there are, and none left out beats one kept |
| Movers.TiesKeepOrder | apps/web/app/movers-data.ts:220-220 | In the sort, and so in the winning column, movers of equal impact keep the order their holdings came in |
| Movers.LosingTiesReverse | apps/web/app/movers-data.ts:229-232 | In the losing column, reversed after the sort, they come in the opposite order |
| Movers.BuildMoversData | apps/web/app/movers-data.ts:127-235 | The whole builder computes the columns of the aggregated rows, or none without a base |
| Movers.SelectedRowsSuffice | apps/web/app/movers-data.ts:90-98 | Running on the selected rows gives what running on all rows gives |
| Movers.BuildMoversByPeriod | apps/web/app/movers-data.ts:237-254 | Both periods, each on its own selection, equal those built from all rows; nothing exactly without snapshots |
| Movers.BaseReadSuffices | apps/web/app/load-dashboard.ts:395-409 | A base inside the page's bounded read leaves the movers as on all rows |
| Movers.DaysReadExactly | apps/web/app/load-dashboard.ts:395-409 | The bounded read keeps the rows of the two days if and only if it holds the base, or the base had none |
| Movers.EntriesAreFigures | apps/web/app/movers-data.ts:160-185 | An entry's two figures are the sums of its holding's rows of either day |
| Movers.ImpactReadExactly | apps/web/app/load-dashboard.ts:395-409 | A holding's figures, and its impact, are those of all rows if and only if the base is inside the read or the holding's rows of that day add up to zero |
| Movers.YearOfOneHolding | apps/web/app/load-dashboard.ts:383-409 | One holding worth 100 eighteen months ago and 150 now: all rows give a gain of 50, the page's read a new holding of 150 |
| Movers.UnreadBaseMakesAllNew | apps/web/app/load-dashboard.ts:395-409 | A base before the read makes every mover a new holding without a percentage |
| Movers.YearBaseIsUnread | apps/web/app/load-dashboard.ts:383-409 | On a history of 13 to 36 months opened without a range, the year's base always lies before the read |
| Ownership.DistributeRemainder | apps/web/app/intake-primitives.ts:221-233 | Each of the entries, in place, gets its part of the amount |
| Ownership.CompleteShortfall | apps/web/app/intake-primitives.ts:198-204 | Topping up the unset entries through their aliases leaves the listed entries completed, or untouched when the split is not to be completed |
| Ownership.ResolveOwnershipSplit | apps/web/app/intake-primitives.ts:159-207 | The whole resolution, every preset and shortcut, computes `Resolved`, which the rows below give in the numbers of the form |
| Ownership.PartsAddUp | apps/web/app/intake-primitives.ts:209-233 | The parts add up to the amount and differ by at most one |
| Ownership.CompletedAddsUp | apps/web/app/intake-primitives.ts:198-204 | A completed split sums to 10000, leaves entered shares as they were, and its completed shares differ by at most one |
| Ownership.SplitTotal | apps/web/app/intake-primitives.ts:159-207 | Any non-empty member list: the split sums to 10000 for `even`, for `scope`, for nothing entered and for a completed shortfall, and to the entered total otherwise |
| Ownership.EnteredIsNearest | apps/web/app/intake-primitives.ts:188-191 | The share taken is the nearest whole number of basis points to the one entered, halves up and negatives as zero; a whole one is itself |
| Ownership.CustomSplitIs | apps/web/app/intake-primitives.ts:187-207 | A custom split in the form's own numbers: its total, every entered share listed with its own member, and, when nothing is topped up, those and no others in the members' order |
| Ownership.TwoShares | apps/web/app/intake-primitives.ts:187-207 | 6000 and 4000 entered for two members come out as 6000 and 4000 |
| Ownership.PresetsAre | apps/web/app/intake-primitives.ts:168-196 | The scope preset, and a custom split of nothing, give it all to the scope's member if it is one of the members, else to the first; the even one gives each a share, in order, the earlier at most one more |
| Ownership.ScopeMemberIs | apps/web/app/intake-primitives.ts:172-173 | Who owns it all when nobody is said to: the scope's member if it is one, else the first |
| Ownership.HeldArePositive | apps/web/app/intake-primitives.ts:206-206 | Only positive shares of members are listed, one for each member not at zero |
| Ownership.UnsetExactly | apps/web/app/intake-primitives.ts:188-191 | A share is unset exactly when less than half a basis point was entered |

## Left out

- Finding XML elements and attributes by regular expression, zip containers and UTF-8 decoding: cells, references and decoded text are inputs.
- Strings are sequences of Unicode scalar values, not UTF-16 units; a character reference to a surrogate has no result in `XmlText`.
- `localeCompare` on ISO keys is taken as code-unit order, which is what it is on digits and hyphens.
- `normalizeForSearch` is an abstract fold, one character at a time in `Highlight`; Unicode normalisation is not part of this model.
- Here-documents, the git rules and the repository test of `gate-runner-guard.ts`; `2&>f` loses its digit as the code does.
- The bands of a chart point, the drilldown builder, `classifySecurityId`, the coin valuation itself and `computeDeltaBreakdownWindow` are abstract functions of what they read.
- `JSON.stringify` and `JSON.parse` are taken as inverse on stored rows, and `encodeURIComponent` as harmless on cell keys.
- Single statements and transactions of the stores are atomic steps; `readPositions` does not throw.
- Snapshot ids are distinct in `HeroBreakdown.WeeklyReadExactly`, as the store's are.
- The server's data is constant while a composition panel is open; `DashboardCells` compares page and route on the same stored rows and the same day.
- `Recent` asks for a today from the year 1005 on, so that every range starts in a four-digit year, and `Modern` for snapshots from 1001 on; earlier years print unpadded month keys.
- Instants in `Billing` are numbers: two spellings of one instant are one value. The onboarding timestamps no event touches are not fields, and the other writers of the row (manual grants, revocations, the start of a trial) take no part in `BillingDeliveries`.
- `ScrollRestore` takes offsets and times as real numbers; a browser without session storage is not modelled.
- NaN and infinite shares in a custom ownership split.
- Money formatting, labels, hints, announcements, focus and everything drawn.
- `store-resolver.ts` picks the store a session opens, `auth-gate.ts` decides whether a request goes to the login page, `freshness.ts` words the age of the data and flags it past sixteen hours, `chunk.ts` cuts a list into pieces: each is one decision on its arguments, with no state kept between calls.
- `sync-queue.ts` hands jobs to a worker whose protocol lives in a job store that is not part of this model.
