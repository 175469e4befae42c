# hotel-adjustment-compare, modelled in Dafny

This project models the in-memory logic of a hotel's settlement tools and proves properties of it.
The tools download OTA settlement statements (Agoda, Expedia, Booking.com), keep a summary
workbook of them, and reconcile the hotel's sales ledger against Agoda's remittance files.

- **Agoda reconciliation pass** (`compare_sales.py`): `sales_cells.dfy`, `sales_ledger.dfy`,
  `sales_remit.dfy`, `sales_match.dfy` and `sales_run.dfy`.
  - The ledger's Agoda rows are grouped by guest name.
  - The remittance files are stacked, with a file map of offsets.
  - The amounts listed per name are collected.
  - Each group is matched by its sum (Stage A) or row by row with a per-name credit (Stage B).
  - The class `SalesRun.ResultBook` holds the ledger rows' styles (yellow fill, red font) and the
    comparison-log sheet that the pass writes. `Reconcile` is proved to paint every ledger row
    with the mark the specification functions give it, and to append the log rows in group order.
- **Embedded-JSON object scanner** (`payload.dfy`). This is the brace counter of
  `get_statement_list` and `extract_payload`, proved equal to a forward scan function. That
  function is proved to close exactly at the end of a balanced object.
- **Download bookkeeping of the three downloaders** (`agoda.dfy`, `expedia.dfy`, `booking.dfy`).
  - It uses the shared `date_amount` keys in `keys.dfy` and the worksheet class in `sheet.dfy`.
  - It covers the row filters, date filters, selection of what still has to be downloaded, and
    saved file names.
  - It covers the summary-sheet update: append when the id is new, then a stable descending sort
    on column A.
- **Booking payout-row parsing** (`booking.dfy`, with the Korean date and period matchers in
  `dates.dfy`).
- **PDF-text line scanners** (`pdf_lines.dfy`, `pdf_flexible.dfy`).
- **Python built-ins the code relies on**, each stated once:
  - `text.dfy`: `strip`, `find`, `replace`, `split`, `lower`, string order;
  - `numbers.dfy`: `str(int)`, `f"{n:,}"`, `float()` on decimal text, `int()` of a float;
  - `dates.dfy`: `strptime`, `strftime`;
  - `lists.dfy`: filtering comprehensions.

Conventions:
- Amounts are exact `real`s. In the reconciliation an `Amount` is `Finite(real)` or `NaN`.
  `'nan'` is what an empty pandas cell reads as, and NaN equals nothing.
- Text is `seq<char>`.
- A worksheet row is a `seq<Option<string>>`, where `None` is an empty cell.
- Browser, clock and file-system inputs are parameters: the table rows read from a page, the
  date bounds, the summary sheet's rows, and the names of the saved files.

## Model

| member | source | states |
|---|---|---|
| SalesCells.KeepOnly | compare_sales.py:24 | the regex substitution leaves only `[a-zA-Z0-9가-힣]` characters and never lengthens the text |
| SalesCells.Normalize | compare_sales.py:21-24 | `normalize(None)` is `''`; otherwise every character of the result is a lower-case letter, a digit or a Hangul syllable |
| SalesCells.NormalizeSteps | compare_sales.py:24 | on text the substitution kept, `.replace('.0','')` and `.strip()` change nothing |
| SalesCells.NormalizeIgnoresDotZero | compare_sales.py:24 | `normalize(s)` is the lower-cased kept characters: the `.0` removal is dead, so `12.0` becomes `120` |
| SalesCells.NormalizeIdempotent | compare_sales.py:21-24 | normalizing a normalized value gives it back |
| SalesCells.KeepOnlyKept | compare_sales.py:24 | text made only of kept characters passes the substitution unchanged |
| SalesCells.FirstContaining | compare_sales.py:90-94 | `find_col`: the first column whose label contains the keyword, and `None` exactly when no label does |
| SalesCells.FindCol | compare_sales.py:65-69 | the first-match loop returns exactly `FirstContaining` |
| SalesCells.FirstIsUnique | compare_sales.py:90-94 | a position with no match before it and a match at it (or the end) is `find_col`'s answer |
| SalesCells.ExactCol | compare_sales.py:147 | `row.get('거래처')` finds a column carrying exactly that label, and `None` only when no column is so labelled |
| SalesCells.PriceIndices | compare_sales.py:110 | the positions whose label has `금액` or `Amount`, is `G` or `H`, or starts with `Unnamed`, each exactly once and in order |
| SalesCells.PriceColumns | compare_sales.py:110-113 | the price-labelled columns when some exist, else columns 7 and 8; an error exactly when there are neither and fewer than 8 columns |
| SalesCells.ParseAmount | compare_sales.py:170-174 | `float` of a cell text: NaN exactly for a `nan` spelling, otherwise the decimal value, and `None` (the exception) otherwise |
| SalesCells.Sum | compare_sales.py:179 | the group sum is NaN exactly when some price is NaN |
| SalesLedger.GroupPrice | compare_sales.py:153-163 | a row's group price is the total when it parses and is non-zero, else the room charge, with an unparseable price counting as 0.0 |
| SalesLedger.UsePrice | compare_sales.py:204-213 | the logged price is the total when it parses and is non-zero, else the room charge, with an unparseable price staying `None` |
| SalesLedger.UsePriceAgrees | compare_sales.py:204-213 | when both prices parse, the logged price is the group price |
| SalesLedger.NamesOfExact | compare_sales.py:145-163 | a guest name is a key of `grouped_rows` exactly when some Agoda row (stripped `거래처` equal to `아고다`) carries it |
| SalesLedger.NamesOfDistinct | compare_sales.py:145-163 | the keys are distinct |
| SalesLedger.MembersOfExact | compare_sales.py:145-163 | `grouped_rows[name]` holds exactly the Agoda rows of that guest, each with its own group price, in increasing row order |
| SalesLedger.MembersOfAbsent | compare_sales.py:145-163 | a name no Agoda row carries has an empty group |
| SalesLedger.OneGroupPerRow | compare_sales.py:145-163 | each Agoda row occurs exactly once in the group of its own name |
| SalesLedger.Entries | compare_sales.py:146-152 | one entry per ledger row, read by the labels `거래처`, `고객`, `객실` and `합계` |
| SalesLedger.BuildGroups | compare_sales.py:145-163 | the grouping loop yields the keys in first-seen order and `grouped_rows[name]` as `MembersOf` gives it, for every name |
| SalesRemit.Spans | compare_sales.py:125-133 | the file map has one entry per file: its name, row count and offset |
| SalesRemit.StackedLength | compare_sales.py:128-133 | the stacked table of the first files has as many rows as their offset sum |
| SalesRemit.StackedAt | compare_sales.py:128-133 | row `j` of file `k` sits at absolute row `offset(k) + j` of the stacked table |
| SalesRemit.BuildFileMap | compare_sales.py:125-133 | the file-map loop returns exactly the file map and the stacked rows |
| SalesRemit.OffsetsApart | compare_sales.py:125-133 | the row ranges of two different files do not overlap |
| SalesRemit.LocateFrom | compare_sales.py:232-236 | the first file whose range holds the absolute row, and `None` exactly when none does |
| SalesRemit.Locate | compare_sales.py:232-236 | the file-location loop returns exactly `LocateFrom` |
| SalesRemit.LocateExact | compare_sales.py:232-234 | every absolute row of the stacked table lies in exactly one file, which is the one found, and the reported row is the row inside that file |
| SalesRemit.LocateCover | compare_sales.py:232-234 | the file found for an absolute row is the only one covering it |
| SalesRemit.LocateFirst | compare_sales.py:232-234 | a file covering the row with none before it is the file found |
| SalesRemit.OffsetCover | compare_sales.py:125-133 | every row of the stacked table lies in the range of some file |
| SalesRemit.LineOf | compare_sales.py:167-174 | a remittance row gives its stripped column-4 name and one parsed cell per price column |
| SalesRemit.MatchRowsExact | compare_sales.py:215 | the rows matched by name are exactly the rows carrying that stripped name, in increasing order |
| SalesRemit.LineCandidatesExact | compare_sales.py:169-174 | a row's parseable prices are exactly its price cells that parse, in column order |
| SalesRemit.CandidatesExact | compare_sales.py:219-224 | the parseable prices scanned for a name are exactly those of the rows carrying the name |
| SalesRemit.CandidatesAtExact | compare_sales.py:219-224 | a candidate comes from the listed rows exactly when it is a parseable price of one of them |
| SalesRemit.CandidatesStep | compare_sales.py:166-174 | one more row extends the candidates of its own name and leaves every other name's alone |
| SalesRemit.AmountsStep | compare_sales.py:166-174 | the amounts listed for a name after one more row are the old ones plus that row's parseable prices when it carries the name |
| SalesRemit.ListedStep | compare_sales.py:166-174 | one turn of the outer loop keeps every name's list equal to the prices of the rows read so far |
| SalesRemit.AmountsOfAppend | compare_sales.py:169-174 | the amounts of two runs of candidates are the amounts of the first followed by those of the second |
| SalesRemit.AddLine | compare_sales.py:169-174 | the inner loop appends a row's parseable prices to its own name and changes no other name |
| SalesRemit.CollectAmounts | compare_sales.py:166-174 | `otas_by_name.get(name, [])` is, for every name, the parseable prices of that name's rows in row and column order |
| SalesMatch.FirstSame | compare_sales.py:182-187 | the first listed amount equal to the group sum, and `None` exactly when none is equal |
| SalesMatch.StageAIff | compare_sales.py:177-188 | Stage A matches exactly when some amount listed for the name equals the group sum |
| SalesMatch.RunMarks | compare_sales.py:195-253 | Stage B gives each member exactly one mark: yellow exactly on a hit, nothing when the name has no remittance row, red only on a miss, and red exactly when no credit is left |
| SalesMatch.RunLogs | compare_sales.py:247-253 | one log row per red row; a red row appends the recorded pair or the fallback `[name, idx+2, use_price, '-', '-', '불일치', '-']` |
| SalesMatch.RunCredit | compare_sales.py:225-246 | the credit equals the yellow rows minus the misses it spared, so it never goes negative |
| SalesMatch.StepBShape | compare_sales.py:225-253 | one member adds one mark; a hit adds a credit, a spared miss spends one, and a red row adds one log row |
| SalesMatch.RunNoRemit | compare_sales.py:216 | with no remittance row for any member, Stage B marks and logs nothing |
| SalesMatch.HitIff | compare_sales.py:215-229 | a Stage B hit is exactly a remittance row of the same name with a parseable price equal to the row's room charge or total |
| SalesMatch.HitOnly | compare_sales.py:215-229 | a hit comes from a row of the same name whose parseable price equals the room charge or the total |
| SalesMatch.HitIf | compare_sales.py:215-229 | a row of the same name with a parseable price equal to the room charge or the total gives a hit |
| SalesMatch.NoMatchRows | compare_sales.py:215 | with no row of that name among the first rows, none is matched |
| SalesMatch.AbsentNameUnmarked | compare_sales.py:254 | a guest with no remittance row is left unmarked and logs nothing |
| SalesMatch.GroupShape | compare_sales.py:178-253 | every member of a group gets exactly one mark |
| SalesMatch.GroupRows | compare_sales.py:178-195 | a ledger row has a place in a group exactly when it is an Agoda row of that guest, and its mark is the group's mark at that place |
| SalesRun.ProbeRow | compare_sales.py:215-238 | the scan over the matching rows and their price columns is exactly `ProbeOf`: no row, a hit, or a miss with the first recorded pair |
| SalesRun.ScanLine | compare_sales.py:220-236 | the column loop reports a hit exactly when some parseable price matches, and otherwise keeps the earlier log row or records the first one |
| SalesRun.RecordLog | compare_sales.py:232-236 | the log row names the file holding the absolute row and the row `abs - offset + 2` inside it |
| SalesRun.ScanStep | compare_sales.py:220-236 | one more non-matching column keeps the scan unmatched and the first log row first |
| SalesRun.LineHit | compare_sales.py:225-229 | a matching parseable price in a row makes the row's scan a hit |
| SalesRun.SeenStep | compare_sales.py:230-236 | a non-matching candidate keeps the scan unmatched and leaves the first recorded log row in place |
| SalesRun.HitFound | compare_sales.py:225-229 | a matching price in any row carrying the name is a hit of the whole scan |
| SalesRun.ConcatStep | compare_sales.py:219-238 | scanning two runs of candidates without a match keeps the first log row of the first run |
| SalesRun.FindUnused | compare_sales.py:182-187 | the search returns the first index whose amount equals the sum and is unused, or reports that there is none |
| SalesRun.UnusedIsFirst | compare_sales.py:177-187 | while no index of the name is used, the search finds exactly the first equal amount, so `used_ota_idx` never changes the outcome |
| SalesRun.ResultBook.FillGroup | compare_sales.py:188-192 | a Stage A match fills every member row yellow and changes no other row and no log |
| SalesRun.ResultBook.VisitMember | compare_sales.py:239-253 | one member paints its row with the new mark, appends its log row if red, and updates only this name's credit |
| SalesRun.ResultBook.StageBStep | compare_sales.py:195-253 | one turn of Stage B keeps the loop invariant: styles, log and credit are those of the first `t+1` members |
| SalesRun.ResultBook.StageBGroup | compare_sales.py:193-253 | Stage B over a group paints each member with its `StageB` mark, appends its log rows, and leaves the other names' credits unchanged |
| SalesRun.ResultBook.ReconcileGroup | compare_sales.py:178-253 | one group paints its members with the `GroupOutcome` marks and appends its log rows |
| SalesRun.ResultBook.RunGroups | compare_sales.py:176-254 | the matching loop paints the rows of every guest and appends the log rows group by group |
| SalesRun.ResultBook.Reconcile | compare_sales.py:108-254 | the whole pass fails before writing anything exactly when there is no column 4 or no price column; otherwise it paints every ledger row with its `RowMark` and writes the log header and then all log rows |
| SalesRun.GroupStep | compare_sales.py:178 | reconciling group `g` extends the painted rows by that group's guest |
| SalesRun.LogStep | compare_sales.py:178 | reconciling group `g` appends its log rows after the earlier groups' rows |
| SalesRun.EveryGroupPainted | compare_sales.py:145-163 | every Agoda row's guest is a key, so painting each key's rows paints every ledger row with its mark |
| Payload.Step | test_payload_extraction.py:55-74 | one character stops the scan exactly when it is an unescaped `}` outside a string at depth 1 |
| Payload.Run | test_payload_extraction.py:52-74 | the scan closes only at a position inside the text |
| Payload.RunAppend | test_payload_extraction.py:52-74 | scanning `a + b` is scanning `a`, then `b` from where `a` left off |
| Payload.ObjectEnd | test_payload_extraction.py:50-76 | the end index lies between the start and the text's length |
| Payload.ScanObjectEnd | test_payload_extraction.py:47-74 | the brace-counting loop with its early `break` returns exactly `ObjectEnd` |
| Payload.PayloadText | test_payload_extraction.py:38-44 | a missing marker gives `None` |
| Payload.ExtractPayload | test_payload_extraction.py:36-80 | `extract_payload`, up to the JSON decoding, returns exactly `PayloadText` |
| Payload.QuotedNeutral | test_payload_extraction.py:59-66 | a string body, escapes included, never changes the depth and leaves the scanner inside the string |
| Payload.PieceNeutral | test_payload_extraction.py:55-74 | a well-formed piece inside an object leaves the depth as it found it |
| Payload.ItemsNeutral | test_payload_extraction.py:55-74 | a sequence of well-formed pieces leaves the depth as it found it |
| Payload.ObjectCloses | test_payload_extraction.py:67-74 | a balanced object closes exactly at its final `}`, whatever follows |
| Payload.PayloadIsObject | test_payload_extraction.py:52-76 | a balanced object after the marker, followed by any text, is exactly the payload |
| Payload.UnclosedIsNone | test_payload_extraction.py:76-80 | when the depth never returns to zero the slice is empty and there is no payload |
| Expedia.PaidOnly | expedia_downloader.py:564 | keeps exactly the statements with a truthy `datePaid` |
| Expedia.PaidOnlyAppend | expedia_downloader.py:564 | the paid filter keeps the original order |
| Expedia.FilterByDate | expedia_downloader.py:975-979 | the date-filter loop returns exactly `InRange` |
| Expedia.InRangeIff | expedia_downloader.py:976-979 | a statement is kept exactly when its `datePaid` is non-empty and lies between the bounds, both included, as strings |
| Expedia.ByIds | expedia_downloader.py:984-985 | no id list keeps everything; otherwise exactly the statements whose id is listed |
| Expedia.Take | expedia_downloader.py:1039-1040 | `xs[:limit]` is the first `min(limit, len)` elements |
| Expedia.SelectDownloads | expedia_downloader.py:1018-1040 | the selection loop is `Selected`, cut to `limit` when one is given |
| Expedia.SelectedIff | expedia_downloader.py:1023-1034 | the selection fails exactly when an amount is not a number; otherwise it takes exactly the statements whose key is not among the saved files |
| Expedia.SelectStep | expedia_downloader.py:1023-1034 | one turn of the selection loop takes a statement with a key exactly when the key is not among the saved files |
| Expedia.SelectedStuck | expedia_downloader.py:1025 | once `int()` raises, the selection fails |
| Expedia.SavedName | expedia_downloader.py:815-822 | a statement gets a file name exactly when its `datePaid` without dashes is non-empty |
| Expedia.TargetExtSuffix | expedia_downloader.py:881-882 | the saved extension is always a proper suffix |
| Expedia.SavedNameRecognised | expedia_downloader.py:1008-1015 | the key read back from a saved file's name is the statement's own key |
| Expedia.RowForTextKey | expedia_downloader.py:1025-1027 | a string amount that `int()` accepts is saved under its value but written to the sheet as 0 (lines 1136-1138), so the row reads back with the key of the statement exactly when that amount is 0 |
| Expedia.RowForKey | expedia_downloader.py:998-1002 | a row the update writes for a numeric amount reads back, in the Excel filter, with the statement's own key |
| Expedia.CollectIds | expedia_downloader.py:1116-1119 | the loop collects exactly the stripped column-B ids of the data rows that have one |
| Expedia.NewRowsFresh | expedia_downloader.py:1125-1143 | every appended row has a non-empty id that was not present, and no id is appended twice |
| Expedia.NewRowsFrom | expedia_downloader.py:1125-1143 | every appended row is the row of one of the statements |
| Expedia.NewRowsComplete | expedia_downloader.py:1125-1143 | every statement with a non-empty id not yet present gets a row with that id |
| Expedia.UpdateStatements | expedia_downloader.py:1115-1161 | the header stays, and the data rows become the stable descending sort of the old rows plus the new ones |
| Expedia.UpdateSortedPermutation | expedia_downloader.py:1148-1161 | after the update the data rows are sorted latest first and are the old rows and the new ones, each once |
| Expedia.DownloadStatements | expedia_downloader.py:968-1059 | an empty listing changes nothing; a non-empty invoice-only listing selects nothing but still re-sorts the sheet; otherwise the selection of the filtered statements is returned, and the sheet is updated from all filtered statements unless `int()` raised |
| Keys.CollectRecordKeys | expedia_downloader.py:998-1002 | the loop collects exactly the keys of the data rows whose date and amount cells are set |
| Keys.IntStrClean | agoda_downloader.py:330-331 | `str(int)` is non-empty, with no `.`, `_`, `,` or surrounding blank |
| Keys.ThousandsReadBack | agoda_downloader.py:472-474 | an amount written as `f"{i:,}"` reads back, with `,` and `.0` removed and stripped, as `str(i)` |
| Keys.LastDot | expedia_downloader.py:1012 | the position of the last `.`, and `None` exactly when there is none |
| Keys.CollectFileKeys | expedia_downloader.py:1009-1015 | the loop collects exactly the keys of the saved names that split into at least three parts |
| Keys.StemOf | expedia_downloader.py:1012 | a dot-free base followed by a proper suffix has that base as its stem |
| Keys.ThreeParts | expedia_downloader.py:1012 | three `_`-free parts joined by `_` split back into the same three |
| Keys.NameKey | agoda_downloader.py:479-482 | a name `{prefix}_{date}_{amount}{ext}` yields the key `{date}_{amount}` |
| Agoda.ListRemittances | agoda_downloader.py:265-307 | the row loop returns exactly the rows `ReadRow` accepts, in order |
| Agoda.RemittancesIff | agoda_downloader.py:268-300 | a statement is listed exactly when some row reads as it, and its id is never empty, `cardInfo` or `trAdditional` |
| Agoda.ReadRowOf | agoda_downloader.py:268-300 | a row with a statement id, at least 9 trimmed cells and an amount such as `15,123,015.00` reads back as the statement it shows |
| Agoda.AmountCell | agoda_downloader.py:281-287 | an amount as the table shows it reads back as its value |
| Agoda.IsoDate | agoda_downloader.py:449 | a parsed date converts to ten characters, `YYYY-MM-DD` |
| Agoda.FilterByDate | agoda_downloader.py:445-457 | the date-filter loop returns exactly `InRange` |
| Agoda.FilterDated | agoda_downloader.py:445-457 | the filter loop keeps, in order, the elements whose date is within the range |
| Agoda.DatedIff | agoda_downloader.py:445-457 | an element is kept exactly when its date parses and is within the range |
| Agoda.InRangeIff | agoda_downloader.py:445-457 | a remittance is kept exactly when it is within the range |
| Agoda.WithinBounds | agoda_downloader.py:449-454 | with an end date, within the range means the date parses and `start <= d <= end` |
| Agoda.InRangeParsed | agoda_downloader.py:456-457 | an unparseable date is dropped |
| Agoda.CompactClean | agoda_downloader.py:325-326 | the `%Y%m%d` date holds no `_` and no `.` |
| Agoda.TargetNameRecognised | agoda_downloader.py:324-331 | the key read back from `아고다_{YYYYMMDD}_{int(amount)}.csv` is the remittance's own key |
| Agoda.RawTargetName | agoda_downloader.py:327-328 | an unparseable date is used without its dashes, and the name still reads back as that date and amount |
| Agoda.ExcelFilter | agoda_downloader.py:462-499 | the Excel-based filter returns exactly `Downloads` |
| Agoda.NarrowAll | agoda_downloader.py:488-496 | the narrowing loop keeps the elements whose key is missing, and is abandoned when a key cannot be built |
| Agoda.NarrowedStep | agoda_downloader.py:489-495 | narrowing one more element |
| Agoda.NarrowedStuck | agoda_downloader.py:490 | once `strptime` raises, the narrowing is abandoned |
| Agoda.NarrowedNone | agoda_downloader.py:489-492 | once the narrowing is abandoned, reading more elements does not resume it |
| Agoda.NarrowedIff | agoda_downloader.py:488-496 | when every key can be built, the narrowing keeps exactly the elements whose key is missing |
| Agoda.KeysOfInRange | agoda_downloader.py:445-457 | every date-filtered remittance has a key |
| Agoda.TargetsIff | agoda_downloader.py:485-497 | on date-filtered remittances the list is unchanged when no key is missing, and otherwise holds exactly those whose key is missing, none of them saved |
| Agoda.ReturnedListOmits | agoda_downloader.py:485-506 | as written, once a key is missing, an in-range remittance whose key is not missing is absent from the returned list |
| Agoda.FixedHeaderSound | agoda_downloader.py:537-540 | the check leaves `요청날짜` in A1, rewrites A1:C1 exactly when A1 was not `요청날짜` (a header already starting with it is left unchanged), keeps every later column, and a second check changes nothing |
| Agoda.FixHeader | agoda_downloader.py:536-540 | the header row becomes `FixedHeader` of the old one, and the data rows stay |
| Agoda.RowForKey | agoda_downloader.py:555-573 | a row the update writes reads back, in the Excel filter, with the remittance's own key |
| Agoda.CollectIds | agoda_downloader.py:543-547 | the loop collects exactly the column-C ids of the data rows that have one |
| Agoda.AddedAppend | agoda_downloader.py:553-576 | appending is done element by element against the same set of ids |
| Agoda.NewRowsTwice | agoda_downloader.py:553-554 | because the ids are never updated, a batch holding every remittance twice appends every new row twice |
| Agoda.AddedIff | agoda_downloader.py:553-576 | a row is appended exactly when it is the row of an element whose id was not present |
| Agoda.NewRowsIff | agoda_downloader.py:553-576 | a row is appended exactly when it is the row of a remittance whose payout id was not present |
| Agoda.AppendNew | agoda_downloader.py:551-576 | the append loop adds a row for each element whose id is not present, in order, under the same header |
| Agoda.UpdateRemittances | agoda_downloader.py:536-594 | the header is fixed, and the data rows become the stable descending sort of the old rows plus the new ones |
| Agoda.UpdateRecordsAll | agoda_downloader.py:543-594 | after the update every remittance with a payout id has a row with that id |
| Agoda.AddedNone | agoda_downloader.py:553-554 | nothing is appended when every id is already present |
| Agoda.UpdateIdempotent | agoda_downloader.py:543-594 | a second update with the same remittances appends nothing |
| Agoda.LeapDayRaises | agoda_downloader.py:419-421 | as written, the default start date raises exactly when today is 29 February |
| Agoda.YearEarlier | agoda_downloader.py:419-421 | the intended default start: always a calendar date of the previous year, equal to the source's date whenever that one exists and to 28 February otherwise |
| Agoda.DownloadRemittances | agoda_downloader.py:419-506 | resolves an empty start to a year before today and an empty end to today, keeps the remittances in that range, and selects the download targets from them |
| Agoda.Run | agoda_downloader.py:612-630 | returns the download targets, and updates the sheet from every remittance in the resolved range, leaving it alone when there is none |
| Booking.DigitsAndPointsChars | booking_downloader.py:392 | only digits and points are left, and every digit and point of the text is |
| Booking.DigitsAndPointsAppend | booking_downloader.py:392 | the substitution works character by character |
| Booking.DigitsKept | booking_downloader.py:392 | text made only of digits is kept whole |
| Booking.DigitsOfGrouped | booking_downloader.py:392 | keeping the digits of `54,895,500` gives `54895500` |
| Booking.AmountNotNegative | booking_downloader.py:390-395 | a parsed amount is never negative |
| Booking.WonAmount | booking_downloader.py:390-395 | `₩54,895,500`-style text reads as its value |
| Booking.AmountCell | booking_downloader.py:363 | the stripped amount cell reads as its value |
| Booking.ParseRowIff | booking_downloader.py:346-406 | a row is read exactly when it has at least 7 cells, a valid payout date and a non-empty id; the payout then carries those, the period and the last cell's amount |
| Booking.DateCell | booking_downloader.py:366-371 | a payout-date cell `2026년 1월 1일` reads as `2026-01-01` |
| Booking.PeriodCell | booking_downloader.py:380-386 | a period cell `12월 1일 ~ 12월 31일` reads as `12-01` and `12-31` |
| Booking.ParseRowOfTable | booking_downloader.py:346-406 | a row as the payouts table shows it reads as the payout it shows |
| Booking.ParsePayouts | booking_downloader.py:344-406 | the row loop returns exactly the rows `ParseRow` accepts, in order |
| Booking.PayoutsIff | booking_downloader.py:397-406 | a payout is listed exactly when some row reads as it, and then its id and date are non-empty |
| Booking.CollectIds | booking_downloader.py:521-524 | the loop collects exactly the stripped column-A ids of the data rows that have one |
| Booking.NewRowsFresh | booking_downloader.py:530-544 | every appended row has a non-empty new id, none appended twice |
| Booking.NewRowsComplete | booking_downloader.py:530-544 | every payout whose id is not yet present gets a row with that id |
| Booking.NewRowsFrom | booking_downloader.py:530-544 | every appended row is the row of one of the payouts |
| Booking.NewRowsAppend | booking_downloader.py:530-544 | the second part of a batch sees the ids of the first |
| Booking.NewRowsNone | booking_downloader.py:530-532 | nothing is appended when every id is already present |
| Booking.NewRowsTwice | booking_downloader.py:543 | because each appended id joins the seen set, a batch holding every payout twice appends each new row once |
| Booking.UpdatePayouts | booking_downloader.py:520-562 | the header stays, and the data rows become the stable descending sort of the old rows plus the new ones |
| Dates.Iso | booking_downloader.py:371 | `%Y-%m-%d` is ten characters whose three digit fields read back as year, month and day |
| Dates.Compact | agoda_downloader.py:325-326 | `%Y%m%d` is eight digits whose three fields read back as year, month and day |
| Dates.IsoWithoutDashes | agoda_downloader.py:472 | the `%Y-%m-%d` date without dashes is the `%Y%m%d` date |
| Dates.DigitsThen | booking_downloader.py:367 | one or two digits followed by the unit character, with their value and the position after the unit |
| Dates.KoreanDateMatch | booking_downloader.py:367 | a match gives a four-digit year and a month and day of at most two digits |
| Dates.PayoutDate | booking_downloader.py:366-375 | a date is given exactly when the pattern matches and is a calendar date, and then it is that date as `YYYY-MM-DD` |
| Dates.PayoutDateRoundTrip | booking_downloader.py:366-375 | `YYYY년 M월 D일` followed by any text reads as the zero-padded date |
| Dates.FindAllPeriods | booking_downloader.py:381 | every `M월 D일` occurrence has a month and day below 100 |
| Dates.PeriodRoundTrip | booking_downloader.py:378-388 | `M월 D일 ~ M월 D일` followed by any text gives the two ends as `MM-DD` |
| Dates.DigitsBound | booking_downloader.py:385 | a digit string of length `k` reads as less than `10^k` |
| Dates.MonthNamesDistinct | agoda_downloader.py:449 | the twelve `%b` month names are distinct |
| Dates.MonthOfName | agoda_downloader.py:449 | `%b` recognises each month name, in any case |
| Dates.ParseDayMonYear | agoda_downloader.py:449 | `strptime(date, '%d-%b-%Y')` only gives calendar dates |
| Dates.ParseDayMonYearRoundTrip | agoda_downloader.py:279 | a date written `07-Jan-2026` reads back as that date |
| Sheets.InsertSorted | agoda_downloader.py:587 | inserting a row into a descending sequence keeps it descending |
| Sheets.SortDescSorted | agoda_downloader.py:587 | the sort puts every row after the rows with a later column-A key (`None` as `''`) |
| Sheets.SortDescPermutes | agoda_downloader.py:587 | the sort neither loses nor invents a row |
| Sheets.InsertElements | agoda_downloader.py:587 | inserting a row adds exactly that row |
| Sheets.SortDescStable | agoda_downloader.py:587 | the sort is stable: rows sharing a key keep their order |
| Sheets.Sheet.Append | agoda_downloader.py:593-594 | `ws.append` adds one row at the end |
| Sheets.Sheet.SetHeaderCell | agoda_downloader.py:538 | writing a header cell sets it, pads the row when needed, and changes no other cell or row |
| Sheets.Sheet.SortByColumnA | agoda_downloader.py:581-594 | the header stays and the data rows are replaced by their descending sort |
| PdfLines.PreprocessClean | test_booking_extract_lines.py:12 | every preprocessed line is non-empty, has no line break and no surrounding blank, and is the strip of some line of the text |
| PdfLines.FindBookingEntries | test_booking_extract_lines.py:15-28 | the window loop returns exactly the entries of the matching windows among the first `len - 7` |
| PdfLines.EntriesIndexed | test_booking_extract_lines.py:16-28 | each entry is the entry of a matching window, in increasing window order |
| PdfLines.EntriesComplete | test_booking_extract_lines.py:19-27 | every matching window gives an entry |
| PdfLines.EntriesCount | test_booking_extract_lines.py:17 | there are never more entries than windows |
| PdfLines.EntryShape | test_booking_extract_lines.py:20-26 | every entry's reference starts with ten digits and its amount holds no `,` |
| PdfFlexible.KrwIsName | test_booking_extract_flexible.py:22 | the line `KRW` itself matches the name pattern |
| PdfFlexible.LookFrom | test_booking_extract_flexible.py:21-26 | the lookahead stops at the first `KRW` line that has a next line, or finds none before the stop |
| PdfFlexible.LookName | test_booking_extract_flexible.py:22-26 | whenever the lookahead finds `KRW`, the name is `KRW` |
| PdfFlexible.Stop | test_booking_extract_flexible.py:21 | the lookahead ends within the lines |
| PdfFlexible.Next | test_booking_extract_flexible.py:29 | after a trigger the scan moves on by at least two lines |
| PdfFlexible.ScanBookings | test_booking_extract_flexible.py:14-31 | the `while` loop returns exactly `Scan` from line 0 |
| PdfFlexible.LookAhead | test_booking_extract_flexible.py:20-26 | the inner loop ends with `LookFrom`'s name and hit, and the amount is the line after `KRW` without commas |
| PdfFlexible.ScanStep | test_booking_extract_flexible.py:17-29 | the state the inner loop ends in determines the entry and where the scan goes on |
| PdfFlexible.ScanEntries | test_booking_extract_flexible.py:17-28 | every entry comes from a trigger, is named `KRW`, and has a non-empty amount without `,` |
| PdfFlexible.TriggerFound | test_booking_extract_flexible.py:17-29 | a trigger whose lookahead finds `KRW` and a non-empty amount gives that entry, and the scan continues two lines past `KRW` |
| Lists.CollectAll | agoda_downloader.py:265-300 | the filtering loop returns exactly `Collect` |
| Lists.CollectIff | agoda_downloader.py:265-300 | a value is collected exactly when some element gives it |
| Lists.CollectLength | agoda_downloader.py:265-300 | never more values than elements |
| Numbers.Trunc | agoda_downloader.py:330 | `int()` of a float truncates toward zero |
| Numbers.ParseFloatIntStr | agoda_downloader.py:287 | `float(str(i))` is `i` |
| Numbers.ParseThousands | agoda_downloader.py:287 | `f"{i:,}"` without commas parses back as `i` |
| Numbers.ThousandsWithoutCommas | agoda_downloader.py:564 | `f"{i:,}"` without commas is `str(i)` |
| Numbers.ParseCents | agoda_downloader.py:281-287 | `NNN.00` parses as `NNN` |
| Numbers.ParseFloatUnsigned | booking_downloader.py:393 | unsigned decimal text parses to its non-negative value |
| Text.Strip | compare_sales.py:147 | `strip()` removes exactly the leading and trailing whitespace |
| Text.StripIdempotent | compare_sales.py:168 | stripping twice is stripping once |
| Text.Find | test_payload_extraction.py:39 | `find` gives the first occurrence, and `None` exactly when there is none |
| Text.FindFrom | test_payload_extraction.py:39 | the first occurrence at or after a position, and `None` exactly when there is none |
| Text.ContainsIffOccurs | compare_sales.py:92 | `keyword in label` holds exactly when the keyword occurs at some position |
| Text.Lower | compare_sales.py:24 | ASCII `lower()`: keeps the length, lower-cases `A`-`Z` and leaves every other character alone |
| Text.LowerIdempotent | compare_sales.py:24 | lower-cased text holds no ASCII capital, and lower-casing it again changes nothing |
| Text.SplitJoin | expedia_downloader.py:1012 | splitting `_`-joined parts that hold no `_` gives the parts back |
| Text.Split | expedia_downloader.py:1012 | `split` yields at least one part, and no part holds the separator |
| Text.JoinSplit | expedia_downloader.py:1012 | joining the parts of a split gives the text back |
| Text.LexLessTotal | agoda_downloader.py:451-454 | Python's string order is total |
| Text.LexLessTransitive | expedia_downloader.py:978 | Python's string order is transitive |
| Text.LexLessAsymmetric | expedia_downloader.py:978 | a string never sorts both before and after another |

## Left out

- Browser automation is not modelled: login, navigation, clicks, waits, page-size handling,
  cookies and HTTP downloads. Its inputs become parameters: the table rows read from a page, and
  the page source handed to the scanner.
- File-system and workbook I/O are not modelled. This covers listing `Remittances*.xlsx`
  (compare_sales.py:77), the result-file bootstrap, reading and saving workbooks, and renaming
  and deleting files. Sheets are given as rows, and saved files as their names.
  - In `Agoda.Run` and `Expedia.DownloadStatements`, the summary sheet being updated and the
    rows read for the Excel filter are separate parameters. The code reads the same workbook
    file twice.
- JSON decoding (`json.loads`) is not modelled. `Payload.ExtractPayload` returns the text that
  would be decoded, and `None` where decoding an empty slice fails. The payload's statement list
  is given as `Expedia.Statement` values.
- Floating point is not modelled. Amounts are exact decimal `real`s rather than integers,
  because values such as `12.5` matter to equality.
  - `float()` (`Numbers.ParseFloat`) is modelled for optional sign, digits and one point. Only
    `SalesCells.ParseAmount` also accepts the `nan` spellings.
  - Left out: exponents, `inf`, underscores, Unicode digits and binary rounding.
  - `int()` of a float is truncation toward zero.
- Text.Lower: lower-cases ASCII capitals only. Python also lowers non-ASCII capitals (`Ä`), and
  `'İ'.lower()` is two characters long. The model applies it only to ASCII month names, file
  extensions and the characters the `normalize` filter keeps.
- Agoda.ReadRow: a table amount cell that Python's `float()` accepts but `Numbers.ParseFloat`
  does not (`nan`, `inf`, an exponent) makes the model drop the row. Python keeps it, with a NaN,
  infinite or exponent-valued amount.
- The clock is a parameter. `Agoda.DownloadRemittances` and `Agoda.Run` take the clock's date
  `today`, and an empty `start` or `end` is resolved as `download_remittances` does:
  - an empty `end` is `today`;
  - an empty `start` is a year before `today`.

  The source's default start date raises on 29 February (see "## Findings"), and the model uses
  the corrected `Agoda.YearEarlier`. Both members require `today` to be a calendar date after
  year 1, since a clock gives nothing else. Expedia's default range (`timedelta(days=365)`,
  expedia_downloader.py:960-963) is not resolved: `Expedia.DownloadStatements` takes `from` and
  `to` as given.
- Only string cell values are modelled. A date or number stored natively in a sheet cell, and
  its `str()`, is not.
- Logging, printing, the pauses between downloads, and the diagnostic helpers of
  compare_sales.py (lines 7-18 and 25-36) are not modelled. Nor is the downloaded-file count
  that `download_statements` returns, since it depends on download success.
- The `OTA` column rewrite (compare_sales.py:72-74 and 100) is not modelled. Nothing the
  matching reads depends on it.
- `normalize` (compare_sales.py:21-24) is modelled and proved, but the reconciliation never
  calls it. The grouping uses `str(...).strip()`.
- SalesRun.ResultBook.ReconcileGroup keeps `used_ota_idx` and is proved equal to the plain
  "first equal amount" rule. Group names are distinct, so the used-index check never fires
  (`SalesRun.UnusedIsFirst`).
- SalesCells.ParseAmount: the Stage B `nan` amount is NaN, and NaN never equals anything. No
  other float special case is modelled.
- The remittance files are assumed to share one header, since pandas aligns different headers
  by label. `SalesRemit.Columns` takes the first file's header.
- The CSV column classifier `parse_booking_csv` (booking_downloader.py:705-721) is not modelled.
  It is defined inside the `__main__` block and never bound to the class, so nothing can call it.
- Dates.ParseDayMonYear accepts ASCII digits only, with one or two day digits and four year
  digits. `strptime`'s wider spellings are not modelled.
- Dates.DigitsThen, Dates.KoreanDateMatch, Dates.PayoutDate, Dates.FindAllPeriods,
  Booking.DigitsAndPoints, Booking.ParseRowIff, PdfLines.FindBookingEntries and
  PdfFlexible.ScanBookings: every regular-expression `\d` and every digit test is ASCII `0`-`9`
  only.
  - On a Python `str`, `\d` matches every Unicode decimal digit, and `int()` and `float()`
    accept those digits.
  - Example: a full-width `２０２６년 1월 1일` parses in Python but gives `None` in the model.
- Expedia's `invoices` fallback (expedia_downloader.py:569-584) is modelled only by its length
  (`Expedia.Listing`). Invoices have no `datePaid`, so the date filter drops them all. A
  non-empty invoice list therefore selects nothing but still re-sorts the summary sheet. The
  fields of an invoice are not modelled.
  - Expedia.DownloadStatements: the source also creates the `익스피디아` sheet when it is
    missing. The model is given an existing sheet.

## Findings

| source | as written | input that shows it | evidently intended | confidence | as-written member | corrected member |
|---|---|---|---|---|---|---|
| agoda_downloader.py:419-421 | the default start date is `datetime.now().replace(year=datetime.now().year - 1)`, which raises `ValueError` when today is 29 February; the handler at lines 507-509 re-raises it | `download_remittances()` without a start date, called on 2028-02-29 | the same day a year earlier, with 29 February stepping back to 28 February | high, not executed | Agoda.LeapDayRaises | Agoda.YearEarlier |
| agoda_downloader.py:485-506 | `download_remittances` returns the list narrowed to the missing keys, although its comment at line 505 says it returns every queried statement for the Excel update; `run` (lines 624-628) updates the summary sheet only from that list | a summary sheet with one statement whose CSV file is missing, and a new in-range remittance whose key is not in the sheet: the new remittance is neither downloaded nor written to the sheet | return (and write to the sheet) every date-filtered remittance | medium, not executed | Agoda.ReturnedListOmits | Agoda.Run |
