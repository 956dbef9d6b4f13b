# Velocity granule preparation, modelled in Dafny

This project models `data_sets/velocities/prepare_velocities.py`. The script
prepares NSIDC-0481 TerraSAR-X ice-velocity granules for one glacier. The
modules are:

- **Codec** (`NSIDC_0418`, `parse_nsidc_0418`). The granule file name
  `TSX_W69.10N_03Jul09_14Jul09_09-48-07_vx_v02.0.tif` is matched by the
  module's regular expression (**Grammar**). Its dates are read with
  `strptime('%d%b%y')` (**Dates**). The result is a record: a `dict` from key
  to string, date, `(h, m, s)` tuple or nothing. `format` renders a record,
  with overrides merged in by `merge_dicts` (**Dicts**), back into a name
  through a `str.format` template (**Templates**).
- **Catalogue** (`list_pfiles`). It lists a directory, keeps the names that
  parse and carry the requested attributes, and sorts them by the key
  (source, grid, startdate, enddate, parameter, nominal_time, version, ext).
  **Ordering** holds Python's tuple and string order.
- **Blacklist** (`get_blackset`, `remove_blacklist`). The thirty granule
  templates are filled for one parameter and extension. Records whose file
  name is in the resulting set are dropped.
- **Staleness** (`up_to_date`). It decides whether the outputs exist and are
  newer than the inputs.
- **Pipeline**. This covers `tiff_to_netcdf`, `cdo_merge` and `merge_glacier`,
  written as functions over a modelled disk:
  - The disk holds the modification time of every file, a clock and the log
    of the GDAL/CDO runs made so far.
  - An oracle decides whether each tool run succeeds and, when it fails,
    whether it left its output behind.
- **Runner**. The class `Workspace` holds the same disk as mutable fields.
  Its methods run the steps in the order the script runs them (loops,
  early exits, the `finally` that removes the intermediate file). Each
  method is proved to reach exactly the state and the result that the
  matching Pipeline function gives.
- **Checksums** (`np_cartesian_product`, `domain_checksum1`,
  `domain_checksum2`). This is the grid arithmetic, computed on an integer
  grid with a fill value.

`merge_glacier` is modelled twice:

- **As written.** The `ofnames.append` sits after the parameter loop, and the
  final loop runs one `merge` per converted record of the last parameter.
- **As intended.** Every component is merged once, into the file that the
  pattern names.

The Findings section below explains the difference.

`up_to_date` multiplies the present time by 1000 ("ms since the epoch"), but
`os.path.getmtime` returns seconds. The model keeps this: `Fresh` starts the
oldest-output scan at `now * 1000`, and `FreshMeansNewer` states what that
means. For any real output time, the cap never takes effect.

## Model

| member | source | states |
|---|---|---|
| Values.DaysInMonth | data_sets/velocities/prepare_velocities.py:129-130 | the month lengths `strptime` checks against: 28 to 31 days, and 29 exactly for February of a leap year |
| Values.Digits | data_sets/velocities/prepare_velocities.py:100 | `str(n)` of a natural number is a non-empty run of digits, a single digit exactly below 10 and then its value |
| Values.ZeroFill | data_sets/velocities/prepare_velocities.py:100 | zero padding to a width gives exactly that width, or the text's own length when it is longer |
| Values.TwoDigitValue | data_sets/velocities/prepare_velocities.py:131 | `int()` of a two-digit group lies in 0..99 |
| Values.PadTwoDigits | data_sets/velocities/prepare_velocities.py:100 | `'{:02d}'` of the number read from a two-digit group gives back that group |
| Values.TwoDigitsOfPad | data_sets/velocities/prepare_velocities.py:100 | `'{:02d}'` of a number below 100 is two digits that read back as the number |
| Values.Join | data_sets/velocities/prepare_velocities.py:182-188 | `os.path.join`: an absolute second part replaces the first; otherwise the second part is appended to the first, directly or after a `/` |
| Values.JoinSeparates | data_sets/velocities/prepare_velocities.py:187-188 | two different names that start with the same character join to two different paths in one directory |
| Dates.MonthNumber | data_sets/velocities/prepare_velocities.py:109-110 | the `imonth` table: each abbreviation maps to the number 1..12 of its position |
| Dates.PivotYear | data_sets/velocities/prepare_velocities.py:129-130 | `%y` maps two digits to a year in 1969..2068 with those last two digits |
| Dates.StrpDate | data_sets/velocities/prepare_velocities.py:129-130 | `strptime('%d%b%y')` succeeds exactly when the day is between 1 and the length of the month in the pivoted year |
| Dates.StrfOfStrp | data_sets/velocities/prepare_velocities.py:98-130 | rendering a date that was read from a name gives back the name's date text |
| Dates.StrfFields | data_sets/velocities/prepare_velocities.py:98-99 | `strftime('%d%b%y')` has the grammar's date shape, and its day, month and two-digit year read back |
| Dates.MonthNumberOf | data_sets/velocities/prepare_velocities.py:109-110 | the `imonth` lookup inverts the month abbreviation table |
| Dates.StrpOfStrfShifts | data_sets/velocities/prepare_velocities.py:98-130 | reading back a rendered date gives the same day and month, with the year moved into the pivot century |
| Dates.StrpOfStrf | data_sets/velocities/prepare_velocities.py:98-130 | a date in 1969..2068, rendered and read back, is the same date |
| Dates.PivotLosesCentury | data_sets/velocities/prepare_velocities.py:98-130 | outside the pivot century the year changes: 1950-06-01 reads back as 2050-06-01 |
| Dates.ImpossibleDateRejected | data_sets/velocities/prepare_velocities.py:129 | a name the expression matches can still fail in `strptime` (`31Feb09`) |
| Dates.MonthStep | data_sets/velocities/prepare_velocities.py:204 | consecutive months: the days before month m plus the length of m are the days before m+1 |
| Dates.MonthsBefore | data_sets/velocities/prepare_velocities.py:204 | the days before a month and that month's length come to no more than the days before any later month |
| Dates.MonthWithinYear | data_sets/velocities/prepare_velocities.py:204 | every month ends within its year |
| Dates.DivStep | data_sets/velocities/prepare_velocities.py:204 | the leap-year count of the Gregorian calendar increases by one exactly at multiples of 4, 100 and 400 |
| Dates.YearStep | data_sets/velocities/prepare_velocities.py:204 | the days before the next year are the days before this year plus its length |
| Dates.YearsBefore | data_sets/velocities/prepare_velocities.py:204 | a year ends no later than any later year begins |
| Dates.ChronologicalOrder | data_sets/velocities/prepare_velocities.py:166 | the field-by-field date order that the sort key uses is exactly the order of the day ordinals |
| Dates.LessHasSmallerOrdinal | data_sets/velocities/prepare_velocities.py:204 | an earlier date has a smaller ordinal |
| Dates.MidpointHalfway | data_sets/velocities/prepare_velocities.py:203-204 | the nominal date lies exactly half-way between start and end, and between them when the end is not earlier |
| Templates.FillFailsAtFirstMissing | data_sets/velocities/prepare_velocities.py:107 | `str.format(**kw)` fails exactly when some field has no argument, and then with `KeyError` for the first such field |
| Templates.PositionalFillFails | data_sets/velocities/prepare_velocities.py:321 | `str.format(*args)` on a template whose first field is named raises `KeyError` for that field name |
| Templates.FillConcat | data_sets/velocities/prepare_velocities.py:103-107 | filling a concatenated template gives the concatenation of the fills |
| Templates.FillReadsOnlyFields | data_sets/velocities/prepare_velocities.py:103-107 | only the template's own fields affect the result: arguments that agree on them give the same fill |
| Dicts.MergeDicts | data_sets/velocities/prepare_velocities.py:86-90 | the copy-then-update loop computes the left-to-right merge of the dictionaries |
| Dicts.MergedLastWins | data_sets/velocities/prepare_velocities.py:86-90 | a key is in the merge exactly when some dictionary has it, and it takes its value from the last dictionary that has it |
| Grammar.RunFrom | data_sets/velocities/prepare_velocities.py:113 | `[0-9.]+` takes the maximal run of digits and dots |
| Grammar.LineFrom | data_sets/velocities/prepare_velocities.py:113 | `.+` takes the maximal run of characters up to a newline |
| Grammar.RunFromIs | data_sets/velocities/prepare_velocities.py:113 | a maximal run of digits and dots is the one `RunFrom` measures |
| Grammar.LineFromIs | data_sets/velocities/prepare_velocities.py:113 | a maximal newline-free run is the one `LineFrom` measures |
| Grammar.TakeSource | data_sets/velocities/prepare_velocities.py:113 | group 1 is `TSX` or `TDX`, followed by `_` |
| Grammar.TakeGrid | data_sets/velocities/prepare_velocities.py:113 | group 2 has the shape `[EWS][0-9.]+[NS]`, followed by `_` |
| Grammar.TakeDate | data_sets/velocities/prepare_velocities.py:113 | groups 3 and 5 have the shape `\d\dMon\d\d`, followed by `_` |
| Grammar.TakeTime | data_sets/velocities/prepare_velocities.py:113 | groups 7 to 9 are two digits each, separated by `-` |
| Grammar.TakeParameter | data_sets/velocities/prepare_velocities.py:113 | the parameter segment gives a known parameter or none, and spells exactly what it consumed up to `_v` |
| Grammar.LastSplit | data_sets/velocities/prepare_velocities.py:113 | backtracking out of the greedy version leaves the longest version that a `.`-started extension can follow |
| Grammar.TakeVersionExt | data_sets/velocities/prepare_velocities.py:113 | group 12 is a non-empty run of `[0-9.]` and group 13 is `.` plus at least one character, free of newlines, ending at the end of the text or at a newline |
| Grammar.Match | data_sets/velocities/prepare_velocities.py:113-119 | `re.match`: the groups conform to the expression, and they spell the matched prefix of the text |
| Grammar.Spelled | data_sets/velocities/prepare_velocities.py:113 | the pieces the match steps take, put back together, are the matched text |
| Grammar.SourceOf | data_sets/velocities/prepare_velocities.py:113 | the source step reads back any source it is given |
| Grammar.GridOf | data_sets/velocities/prepare_velocities.py:113 | the grid step reads back any grid of the grammar's shape |
| Grammar.DateOf | data_sets/velocities/prepare_velocities.py:113 | the date step reads back any date text |
| Grammar.TimeOf | data_sets/velocities/prepare_velocities.py:113 | the time step reads back any three two-digit groups |
| Grammar.ParameterOf | data_sets/velocities/prepare_velocities.py:113 | the parameter step reads back the segment it spells |
| Grammar.VersionExtOf | data_sets/velocities/prepare_velocities.py:113 | the version and extension steps read back a version followed by an extension that cannot continue the version |
| Grammar.MatchAssemble | data_sets/velocities/prepare_velocities.py:113 | every name the grammar spells from conforming groups is matched back to the same groups |
| Grammar.ParameterlessNotMatched | data_sets/velocities/prepare_velocities.py:113 | a name with no parameter segment (`..._09-48-07_v02.0.tif`) is not matched by the expression as written |
| Grammar.BareVersionMarkNotMatched | data_sets/velocities/prepare_velocities.py:113 | as written, a bare `_v` right after the time cannot be read as a parameter segment |
| Codec.FieldsFrom | data_sets/velocities/prepare_velocities.py:94-107 | the typed fields that `format` reads are all present in the record |
| Codec.FieldsOfRecord | data_sets/velocities/prepare_velocities.py:125-134 | the record built for a name reads back as the fields it was built from, and it is named after the file |
| Codec.FieldsWithOther | data_sets/velocities/prepare_velocities.py:151-152 | setting a key that `format` does not read (`dir`, `path`) leaves the fields alone |
| Codec.FieldsWithExt | data_sets/velocities/prepare_velocities.py:185 | setting `ext` changes exactly the extension field |
| Codec.Parse | data_sets/velocities/prepare_velocities.py:115-139 | `None` exactly when the expression does not match; the only error is a `ValueError` from `strptime`; a match with valid dates gives the record of its groups, with a missing parameter stored as `''` |
| Codec.DateEntry | data_sets/velocities/prepare_velocities.py:98-99 | `strftime` of a record's date entry: `KeyError` when the key is missing, `TypeError` when it is not a date, otherwise the date text |
| Codec.ClockEntry | data_sets/velocities/prepare_velocities.py:100 | `'{:02d}-{:02d}-{:02d}'` of the nominal time: `KeyError` when it is missing; a string unpacks into characters, so `ValueError` when it is non-empty and `IndexError` when it is empty; `TypeError` for a date or `None`; a result exactly for a triple |
| Codec.MergedPair | data_sets/velocities/prepare_velocities.py:96 | `merge_dicts(self, overrides)` is the override union of the two records |
| Codec.FillStep | data_sets/velocities/prepare_velocities.py:107 | a template with one more piece in front fills to that piece's text followed by the rest |
| Codec.FillHeadEnd | data_sets/velocities/prepare_velocities.py:103-105 | the end date and time part of both name templates renders from the record |
| Codec.FillHeadMid | data_sets/velocities/prepare_velocities.py:103-105 | the grid, dates and time part of both name templates renders from the record |
| Codec.FillHead | data_sets/velocities/prepare_velocities.py:103-105 | the shared head of both name templates renders source, grid, dates and time separated by `_` |
| Codec.FillVersionTail | data_sets/velocities/prepare_velocities.py:103-105 | the shared tail renders `_v`, the version and the extension |
| Codec.FillParameterTemplate | data_sets/velocities/prepare_velocities.py:105 | the template with a parameter renders every field in order |
| Codec.FillNoParameterTemplate | data_sets/velocities/prepare_velocities.py:103 | the parameter-less template renders every field except the parameter |
| Codec.FormatSpells | data_sets/velocities/prepare_velocities.py:94-107 | `format` with overrides renders the name the grammar spells for the merged record's fields, and the empty parameter selects the parameter-less form |
| Codec.FormatOverride | data_sets/velocities/prepare_velocities.py:96 | overrides win: formatting with overrides is formatting the merged record |
| Codec.GroupsOfRenderable | data_sets/velocities/prepare_velocities.py:98-113 | fields the grammar can spell render to conforming groups whose dates read back and which give back the same fields |
| Codec.ParseFormat | data_sets/velocities/prepare_velocities.py:94-139 | round trip, decode after encode: parsing the name that `format` renders gives back the record's fields, named after that name; in the intended dialect this holds for parameter-less records too |
| Codec.ParsedFields | data_sets/velocities/prepare_velocities.py:125-134 | a parsed record is named after its file and holds all its fields |
| Codec.GroupsOfFieldsOf | data_sets/velocities/prepare_velocities.py:98-134 | rendering the fields read from matched groups gives back the groups |
| Codec.FormatParse | data_sets/velocities/prepare_velocities.py:94-139 | round trip, encode after decode: `format` of a parsed whole name gives back the name |
| Codec.ParameterlessNameNotMatched | data_sets/velocities/prepare_velocities.py:102-137 | a record with parameter `''` is formatted to a name that the parser as written rejects (`None`) but the intended expression accepts |
| Ordering.Codes | data_sets/velocities/prepare_velocities.py:166 | strings compare by their code points, one per character |
| Ordering.CodesInjective | data_sets/velocities/prepare_velocities.py:166 | different strings have different code sequences |
| Ordering.LexIrreflexive | data_sets/velocities/prepare_velocities.py:166 | lexicographic order is irreflexive |
| Ordering.LexTransitive | data_sets/velocities/prepare_velocities.py:166 | lexicographic order is transitive |
| Ordering.LexTotal | data_sets/velocities/prepare_velocities.py:166 | any two different sequences are ordered one way or the other |
| Ordering.LexAsymmetric | data_sets/velocities/prepare_velocities.py:166 | lexicographic order is asymmetric |
| Ordering.KeyIrreflexive | data_sets/velocities/prepare_velocities.py:166 | the tuple order on sort keys is irreflexive |
| Ordering.KeyTransitive | data_sets/velocities/prepare_velocities.py:166 | the tuple order on sort keys is transitive |
| Ordering.KeyTotal | data_sets/velocities/prepare_velocities.py:166 | the tuple order on sort keys is total |
| Ordering.KeyAsymmetric | data_sets/velocities/prepare_velocities.py:166 | the tuple order on sort keys is asymmetric |
| Catalogue.Insert | data_sets/velocities/prepare_velocities.py:166 | inserting a record adds exactly that record |
| Catalogue.SortByKey | data_sets/velocities/prepare_velocities.py:166 | the sort is a permutation of its input |
| Catalogue.KeyLeqTransitive | data_sets/velocities/prepare_velocities.py:166 | "not after" on records is transitive |
| Catalogue.InsertFront | data_sets/velocities/prepare_velocities.py:166 | a record smaller than the head of a sorted list can go in front |
| Catalogue.InsertBehind | data_sets/velocities/prepare_velocities.py:166 | a head not larger than the inserted record stays in front of a sorted rest |
| Catalogue.InsertSorted | data_sets/velocities/prepare_velocities.py:166 | insertion keeps a list sorted |
| Catalogue.SortByKeySorted | data_sets/velocities/prepare_velocities.py:166 | `sort(key=...)` gives a list in key order that is a permutation of its input |
| Catalogue.AttrsMatch | data_sets/velocities/prepare_velocities.py:155-159 | the attribute loop is true exactly when every attribute is present and equal; it raises `KeyError` only for a missing attribute key |
| Catalogue.Locate | data_sets/velocities/prepare_velocities.py:151-152 | the listed record gains `dir` and `path`, the directory joined with the record's own `fname`, and keeps every other entry; `KeyError('fname')` when it has no `fname`, `TypeError` when that is not a string |
| Catalogue.LocateKeepsFields | data_sets/velocities/prepare_velocities.py:151-152 | adding `dir` and `path` leaves the granule fields alone |
| Catalogue.ParseParsesGranules | data_sets/velocities/prepare_velocities.py:125-134 | `parse_nsidc_0418` names each record after its file and fills all its fields |
| Catalogue.CollectErrorSticks | data_sets/velocities/prepare_velocities.py:147-164 | once an entry raises, the listing is that error whatever entries follow |
| Catalogue.CollectFails | data_sets/velocities/prepare_velocities.py:147-164 | the listing fails exactly when some entry raises, and then with the error of the first one |
| Catalogue.CollectMembers | data_sets/velocities/prepare_velocities.py:147-164 | the listing holds exactly the records of the entries that produced one |
| Catalogue.Outcomes | data_sets/velocities/prepare_velocities.py:147 | one outcome per directory entry |
| Catalogue.ListEntry | data_sets/velocities/prepare_velocities.py:148-164 | one pass of the listing loop gives exactly what that entry contributes: its record, nothing where the loop continues, or the error it raises |
| Catalogue.ListPfiles | data_sets/velocities/prepare_velocities.py:142-168 | the loop over the listing, with its `continue`s and the attribute loop's `break`, returns the sorted catalogue or the first error, the sort key's `KeyError` included |
| Catalogue.MissingField | data_sets/velocities/prepare_velocities.py:166 | the first key a record lacks, with every earlier key present; none exactly when it has them all |
| Catalogue.Unkeyed | data_sets/velocities/prepare_velocities.py:166 | the sort raises `KeyError` for the first missing key of the first record that lacks a key entry, and nothing exactly when every record has all eight |
| Catalogue.FieldsKeyed | data_sets/velocities/prepare_velocities.py:166 | a record with all its granule fields has every entry of the sort key |
| Catalogue.GranulesKeyed | data_sets/velocities/prepare_velocities.py:142-168 | with `parse_nsidc_0418`'s kind of parser the sort never raises: the catalogue is the sorted scan whenever the scan succeeds |
| Catalogue.ListedRecord | data_sets/velocities/prepare_velocities.py:148-164 | a listed record is the parsed record of its entry with `dir` and `path` added, and it has every attribute asked for |
| Catalogue.CatalogueSorted | data_sets/velocities/prepare_velocities.py:142-168 | `list_pfiles` returns its records in key order, none lost and none added |
| Catalogue.CatalogueMembers | data_sets/velocities/prepare_velocities.py:142-168 | the catalogue holds exactly the records of the entries that parse and match |
| Catalogue.CatalogueRecords | data_sets/velocities/prepare_velocities.py:142-168 | every catalogue record carries its directory, all its fields and every attribute asked for |
| Catalogue.ListedCarries | data_sets/velocities/prepare_velocities.py:148-164 | every listed record carries its directory, its fields and the attributes |
| Catalogue.DateLessIsLex | data_sets/velocities/prepare_velocities.py:166 | comparing `datetime`s is comparing (year, month, day) lexicographically |
| Catalogue.KeyLessOnThird | data_sets/velocities/prepare_velocities.py:166 | with source and grid equal, the start date decides the key order |
| Catalogue.SameTileChronological | data_sets/velocities/prepare_velocities.py:166 | within one source and grid the catalogue is in order of start date |
| Catalogue.KeyDeterminesFields | data_sets/velocities/prepare_velocities.py:166 | two records with the same sort key hold the same fields |
| Catalogue.KeyIdentifiesName | data_sets/velocities/prepare_velocities.py:113-166 | the sort key identifies the granule: two whole names with equal keys are the same name |
| Blacklist.AcquisitionTextLength | data_sets/velocities/prepare_velocities.py:21-50 | the dates and time of a blacklist entry take 24 characters |
| Blacklist.FillBlackTemplate | data_sets/velocities/prepare_velocities.py:53 | one entry fills to its name, or raises `KeyError` for `parameter`, then for `ext` |
| Blacklist.FillAllFails | data_sets/velocities/prepare_velocities.py:53 | filling the list raises `KeyError` for the first of `parameter` and `ext` that is missing |
| Blacklist.FillAllStep | data_sets/velocities/prepare_velocities.py:53 | filling a non-empty list adds its first entry's name to the names of the rest |
| Blacklist.FillAllContents | data_sets/velocities/prepare_velocities.py:53 | with both keys, the set holds exactly the names of the entries |
| Blacklist.GetBlacksetContents | data_sets/velocities/prepare_velocities.py:52-53 | `get_blackset` raises `KeyError` for a missing `parameter`, then `ext`; otherwise it is exactly the thirty names filled in |
| Blacklist.Verdicts | data_sets/velocities/prepare_velocities.py:58-62 | one verdict per record |
| Blacklist.RemoveBlacklist | data_sets/velocities/prepare_velocities.py:55-63 | builds the set, then keeps the records its loop keeps, or raises |
| Blacklist.KeepUnlisted | data_sets/velocities/prepare_velocities.py:57-63 | the filtering loop keeps the records whose name is not in the set, in order, or raises `KeyError` for the first without a name |
| Blacklist.UnlistedMembers | data_sets/velocities/prepare_velocities.py:57-63 | a record survives exactly when it was given and its name is not blacklisted |
| Blacklist.CollectVerdicts | data_sets/velocities/prepare_velocities.py:57-63 | when every record has a name, the loop keeps exactly the unlisted ones |
| Blacklist.RemovedFilters | data_sets/velocities/prepare_velocities.py:55-63 | with a set built and every record named, `remove_blacklist` is the order-keeping filter |
| Blacklist.RemovedFails | data_sets/velocities/prepare_velocities.py:55-63 | `remove_blacklist` fails exactly when the set cannot be built or some record has no `fname`, and then with `KeyError('fname')` |
| Blacklist.TileShape | data_sets/velocities/prepare_velocities.py:21-50 | the tile `TSX_W69.10N_` ends at index 11, and its grid holds no underscore |
| Blacklist.SegmentAt | data_sets/velocities/prepare_velocities.py:113 | the parameter segment of a matched name begins at position 29 plus the grid's length, and the grid is the first underscore-free run from position 4 |
| Blacklist.SegmentParameter | data_sets/velocities/prepare_velocities.py:20-53 | a `_<p>_v02.0<e>` segment read as a parameter segment names `p` |
| Blacklist.BlackNameParameter | data_sets/velocities/prepare_velocities.py:20-53 | a blacklist-shaped name read as a parameter segment names its own parameter |
| Blacklist.RootShape | data_sets/velocities/prepare_velocities.py:21-50 | every entry's root is 36 characters, with the grid ending at index 11 |
| Blacklist.BlackNameMatched | data_sets/velocities/prepare_velocities.py:20-53 | the expression reads the parameter of a blacklist-shaped name as the parameter it was filled with |
| Blacklist.BlacksetName | data_sets/velocities/prepare_velocities.py:52-53 | every blacklisted name is some entry's root filled with the parameter and extension |
| Blacklist.ParsedParameter | data_sets/velocities/prepare_velocities.py:132-137 | a parsed record's parameter is the matched parameter group, or `''` |
| Blacklist.BlacklistSparesOtherParameters | data_sets/velocities/prepare_velocities.py:52-63 | a blacklisted name, parsed, carries exactly the parameter the set was built for, so the blacklist of one parameter never drops another parameter's granule |
| Staleness.FirstMissing | data_sets/velocities/prepare_velocities.py:79-81 | the first missing path: in the list, not on disk, with every earlier path present |
| Staleness.UpToDate | data_sets/velocities/prepare_velocities.py:66-83 | the loops of `up_to_date` return or raise exactly what `Fresh` gives |
| Staleness.MissingAfterPrefix | data_sets/velocities/prepare_velocities.py:79-81 | the first missing path is the first one the loop meets |
| Staleness.OldestIsMinimum | data_sets/velocities/prepare_velocities.py:72-76 | the oldest-output loop computes the minimum of the start value and the outputs' times |
| Staleness.NewestIsMaximum | data_sets/velocities/prepare_velocities.py:79-81 | the newest-input loop computes the maximum of the inputs' times |
| Staleness.FreshMeansNewer | data_sets/velocities/prepare_velocities.py:66-83 | `up_to_date` is true exactly when all outputs exist, the inputs are non-empty and exist, every output is newer than every input, and no input is later than `now * 1000` |
| Staleness.NoOutputsUpToDate | data_sets/velocities/prepare_velocities.py:72-83 | with no outputs, `up_to_date` is true as soon as the inputs exist and none is later than `now * 1000` |
| Staleness.InputErrors | data_sets/velocities/prepare_velocities.py:79-81 | with the outputs present, no inputs raise `IndexError`, and a missing input raises `FileNotFoundError` for the first missing one |
| Pipeline.Run | data_sets/velocities/prepare_velocities.py:199-200 | a tool run is logged and takes one tick; on success its target is written at the present time; a failure raises for that tool and target |
| Pipeline.Remove | data_sets/velocities/prepare_velocities.py:220-224 | `os.remove` with `FileNotFoundError` ignored: the path is gone and every other file, the clock and the log are unchanged |
| Pipeline.Convert | data_sets/velocities/prepare_velocities.py:170-224 | a successful `tiff_to_netcdf` returns the output record that the naming step plans |
| Pipeline.PlanNames | data_sets/velocities/prepare_velocities.py:182-188 | for a record with all fields and a path, the output name is the granule's name with the new extension in `odir`, the temporary name has the `.tiff_to_netcdf_0.nc` extension, and the output record holds the fields with the new extension |
| Pipeline.RenamedFormat | data_sets/velocities/prepare_velocities.py:183-186 | the output record formats to the granule name with the new extension, and its fields are the input's with that extension |
| Pipeline.TempFormat | data_sets/velocities/prepare_velocities.py:188 | `format(ext='.tiff_to_netcdf_0.nc')` renames only the extension |
| Pipeline.PlanReadsBack | data_sets/velocities/prepare_velocities.py:182-188 | the parser reads the output file's name back as the output record's fields |
| Pipeline.RenamedReadsBack | data_sets/velocities/prepare_velocities.py:186 | the parser reads a renamed granule back with the new extension |
| Pipeline.OutputFields | data_sets/velocities/prepare_velocities.py:183-186 | the output record's fields are the input's with the new extension |
| Pipeline.AssembleExt | data_sets/velocities/prepare_velocities.py:103-107 | a name is a non-empty stem followed by the extension |
| Pipeline.RenamedSplits | data_sets/velocities/prepare_velocities.py:186-188 | a granule name is the same non-empty stem followed by its extension, whatever the extension |
| Pipeline.RenamedApart | data_sets/velocities/prepare_velocities.py:187-188 | two extensions give two different paths in the same directory |
| Pipeline.TempApart | data_sets/velocities/prepare_velocities.py:187-188 | the intermediate file is never the output file, unless the output extension is the intermediate one |
| Pipeline.RunSettled | data_sets/velocities/prepare_velocities.py:194-217 | a tool run never stamps a file later than the present |
| Pipeline.ConvertSettled | data_sets/velocities/prepare_velocities.py:170-224 | a conversion never stamps a file later than the present |
| Pipeline.AttemptRuns | data_sets/velocities/prepare_velocities.py:194-219 | the `try` body runs `Translate` into the intermediate file and then `settaxis` into the output; on success the log holds exactly those two calls and the output is written; no other file changes |
| Pipeline.ConvertRuns | data_sets/velocities/prepare_velocities.py:191-224 | a conversion that is not up to date runs the `try` body and leaves no intermediate file; on success the output exists and the log holds exactly the two calls; every other file is as it was |
| Pipeline.CurrentConvert | data_sets/velocities/prepare_velocities.py:191-192 | an up-to-date output is returned with nothing run and the disk unchanged |
| Pipeline.RunLeavesCurrent | data_sets/velocities/prepare_velocities.py:191-224 | a conversion that runs and succeeds leaves its output up to date |
| Pipeline.OutputNewer | data_sets/velocities/prepare_velocities.py:66-83 | one input older than its one output is up to date |
| Pipeline.ConvertIdempotent | data_sets/velocities/prepare_velocities.py:170-224 | converting twice: the second call runs nothing and returns the same record |
| Pipeline.SingleMerges | data_sets/velocities/prepare_velocities.py:264-269 | the calls of `cdo_merge`: one `merge` of each single input into the output |
| Pipeline.MergeEachCalls | data_sets/velocities/prepare_velocities.py:264-269 | a successful `cdo_merge` has run one single-input `merge` per input, in order, all into the same output, and that output exists |
| Pipeline.KeysOf | data_sets/velocities/prepare_velocities.py:321 | `*attrs` passes the keys of the keyword arguments, in order |
| Pipeline.ConvertsRenames | data_sets/velocities/prepare_velocities.py:292 | every record the conversion step returns is its planned output record |
| Pipeline.ConvertFromRecords | data_sets/velocities/prepare_velocities.py:288-292 | a successful conversion loop yields one output record per input, in order, each the planned rename of its input |
| Pipeline.PathsOf | data_sets/velocities/prepare_velocities.py:311 | the input paths of `mergetime`: one `os.path.join(dir, fname)` per record, in order, and an error exactly when some record has no such path |
| Pipeline.PlannedPath | data_sets/velocities/prepare_velocities.py:182-187 | the record `tiff_to_netcdf` returns joins to the output path it wrote |
| Pipeline.ConvertedPaths | data_sets/velocities/prepare_velocities.py:288-311 | after the conversion loop the `mergetime` inputs are the planned output paths of the listed granules, in listing order |
| Pipeline.MergeComponent | data_sets/velocities/prepare_velocities.py:307-313 | the component is named `'{source}_{grid}_{parameter}_merged.nc'` in `odir`, holds the converted records, and the pass ends by logging `mergetime` of the converted records' paths into it |
| Pipeline.BuildComponent | data_sets/velocities/prepare_velocities.py:280-313 | a pass of the parameter loop names its merged file after its parameter |
| Pipeline.BuildMergesPlanned | data_sets/velocities/prepare_velocities.py:280-313 | a successful pass ends with `mergetime` of the planned output paths of the listed granules, in listing order, into the component's file |
| Pipeline.BuildsNamesComponents | data_sets/velocities/prepare_velocities.py:280-313 | every pass of the parameter loop names its merged file after its parameter |
| Pipeline.AsRecordKeys | data_sets/velocities/prepare_velocities.py:282-309 | a key is in the keyword dict exactly when some item has it |
| Pipeline.SetItemRecord | data_sets/velocities/prepare_velocities.py:283-284 | `atrs[k] = v` keeps the keys distinct and updates exactly the entry `k` of the dict |
| Pipeline.SetItemHere | data_sets/velocities/prepare_velocities.py:283-284 | setting the first key replaces it in place |
| Pipeline.HeadStaysApart | data_sets/velocities/prepare_velocities.py:283-284 | setting a later key keeps the first key distinct from the rest |
| Pipeline.ComponentAttrsRecord | data_sets/velocities/prepare_velocities.py:282-284 | the per-component attributes are the caller's, with `parameter` and `ext = '.tif'` set |
| Pipeline.ComponentsFromLast | data_sets/velocities/prepare_velocities.py:280-313 | as written, the parameter loop remembers only the last component, named after the last parameter; with no parameters it remembers nothing |
| Pipeline.FinalMergesCalls | data_sets/velocities/prepare_velocities.py:317-322 | a successful final loop runs one identical `merge` of `ofnames` into `ofpattern.format(*attrs)` per record of the last component |
| Pipeline.NoParametersUnbound | data_sets/velocities/prepare_velocities.py:279-315 | as written, no parameters raise `UnboundLocalError` for `ofname` with the disk untouched |
| Pipeline.MergeGlacierMergesLastOnly | data_sets/velocities/prepare_velocities.py:271-322 | as written, a successful run had parameters, and every final `merge` has the single input named after the last parameter |
| Pipeline.NamedPatternFails | data_sets/velocities/prepare_velocities.py:317-322 | as written, a pattern whose first field is named makes the first final `merge` raise `KeyError` for it, with nothing run |
| Pipeline.GlacierPatternFails | data_sets/velocities/prepare_velocities.py:317-329 | with the script's own pattern `'{source}_{grid}_2008_2020.nc'` the final loop raises `KeyError('source')` |
| Pipeline.ComponentsAllNames | data_sets/velocities/prepare_velocities.py:279-315 | intended, the parameter loop keeps one merged file per parameter, in order, each named after its parameter |
| Pipeline.IntendedMergesEveryComponent | data_sets/velocities/prepare_velocities.py:271-322 | intended, `merge_glacier` ends with one `merge` whose inputs are the merged files of all parameters, in order, into the pattern filled from the keyword arguments |
| Runner.Workspace.constructor | data_sets/velocities/prepare_velocities.py:2-5 | the workspace starts in the given disk state with the given tools |
| Runner.Workspace.RunTool | data_sets/velocities/prepare_velocities.py:199-200 | one tool call changes the workspace as `Run` says and returns its outcome |
| Runner.Workspace.RemoveFile | data_sets/velocities/prepare_velocities.py:220-224 | the workspace becomes `Remove` of the old one |
| Runner.Workspace.TiffToNetcdf | data_sets/velocities/prepare_velocities.py:170-224 | the early return, the `try` and the `finally` leave the workspace and the result exactly as `Convert` says |
| Runner.Workspace.CdoMerge | data_sets/velocities/prepare_velocities.py:264-269 | the loop leaves the workspace and the result exactly as `MergeEach` says |
| Runner.Workspace.ConvertAll | data_sets/velocities/prepare_velocities.py:288-292 | the conversion loop leaves the workspace and `pfiles_nc` exactly as `ConvertFrom` says |
| Runner.Workspace.BuildComponent | data_sets/velocities/prepare_velocities.py:282-313 | one pass of the parameter loop gives exactly `BuildComponent` |
| Runner.Workspace.MergeGlacier | data_sets/velocities/prepare_velocities.py:271-322 | the script's loops, the unbound `ofname` included, give exactly `MergeGlacier` |
| Runner.Workspace.MergeGlacierIntended | data_sets/velocities/prepare_velocities.py:271-322 | the corrected loops give exactly `MergeGlacierIntended` |
| Checksums.CartesianSum | data_sets/velocities/prepare_velocities.py:228-233 | `np_cartesian_product(x, y)` is the `len(x)` by `len(y)` grid with entry `x[i] + y[j]` |
| Checksums.SumWeightedRow | data_sets/velocities/prepare_velocities.py:241-246 | summing a weighted mask row gives the row's weight |
| Checksums.SumWeightedGrid | data_sets/velocities/prepare_velocities.py:241-246 | summing the weighted mask gives the grid's weight |
| Checksums.Checksum1IsWeight | data_sets/velocities/prepare_velocities.py:235-246 | `domain_checksum1` is the sum of row index plus column index over the pixels that are not fill |
| Checksums.FullRowWeight | data_sets/velocities/prepare_velocities.py:241-246 | a row with no fill weighs its index per pixel plus 0 + 1 + ... + (n - 1) |
| Checksums.FullWeight | data_sets/velocities/prepare_velocities.py:235-246 | with no fill, twice the checksum is rows * cols * (rows + cols - 2) |
| Checksums.EmptyRowWeight | data_sets/velocities/prepare_velocities.py:244-246 | a row of fill weighs nothing |
| Checksums.EmptyWeight | data_sets/velocities/prepare_velocities.py:235-246 | an all-fill grid has checksum 1 equal to 0 |
| Checksums.DomainChecksum2 | data_sets/velocities/prepare_velocities.py:248-261 | the mask over rows 373..412 and columns 387..438, clipped to the grid, counts exactly the pixels in that window that are not fill |
| Checksums.RowCountBound | data_sets/velocities/prepare_velocities.py:257-261 | a row counts at most the 52 window columns, none when it is too short to reach them, and at most the part it reaches |
| Checksums.WindowCountBound | data_sets/velocities/prepare_velocities.py:257-261 | checksum 2 lies between 0 and 40 * 52, is 0 for a grid too short to reach the window, and is bounded by the rows it reaches |
| Checksums.RowCountZero | data_sets/velocities/prepare_velocities.py:257-261 | a row counts nothing exactly when its window columns are all fill |
| Checksums.WindowCountZero | data_sets/velocities/prepare_velocities.py:248-261 | checksum 2 is 0 exactly when every window pixel inside the grid is fill, which is what a blacklist entry means |

## Left out

- The regular expression's `\d` matches ASCII digits only; Python's `\d` also matches other Unicode decimal digits.
- `os.listdir` is an input (`entries`), in the order it returns the names; the directory is assumed not to change during a run.
- What GDAL and CDO compute is not modelled. A tool run is an oracle outcome (success, or a failure that may leave its output behind), and each run takes one tick of the clock.
- `os.makedirs(odir, exist_ok=True)` is not modelled; directories always exist.
- `print` calls are not modelled.
- The `settaxis` date is the midpoint in whole seconds on the ordinal scale; its `isoformat()` text is not modelled.
- netCDF reads, masked arrays and floating point are not modelled. The checksums take the first time step as an integer grid together with its fill value, so they are exact sums.
- The blacklist is held as structured acquisition data (tile, dates, time), rendered into the thirty template strings; no text of a template is parsed.
- `str.format` templates are held already split into literal text and named fields, so brace parsing, format specs and positional `{}` fields are not modelled. `FillPositional` raises `KeyError` at the first named field, which is all the script's patterns need.
- Record values are strings, dates, `(h, m, s)` triples or nothing; other Python types are not modelled.
- `create_jib_ocean_forcing.py` and `erai/erai.py` are not part of this model.
- The module-level call at lines 328-330 is modelled only through `Pipeline.GlacierPatternFails` (its pattern), not as a run.
- Pipeline.Convert: its contract states only the returned record. What it does to the disk is stated by `ConvertRuns`, `CurrentConvert` and `ConvertIdempotent`.
- Pipeline.BuildComponent: its contract states only the merged file's name. Its last tool run is stated by `BuildMergesPlanned`, and the exact state it leaves is what `Runner.Workspace.BuildComponent` is proved against.
- Catalogue.Key: records whose eight sort entries are all present but of the wrong kind (a string where a date belongs, say) are sorted as if their key were the smallest; Python would compare the values as they are and could raise `TypeError`. `parse_nsidc_0418` never builds such a record (`GranulesKeyed`).

## Findings

| source | as written | input that shows it | evidently intended | confidence | as-written member | corrected member |
|---|---|---|---|---|---|---|
| data_sets/velocities/prepare_velocities.py:113 | the parameter-less branch of the expression is `(_(...)?)_v`, so a name without a parameter must have `__v`; `format` (lines 102-103) writes `_v`, and the `None` handling at lines 136-137 can only ever see `__v` names | `TSX_W69.10N_03Jul09_14Jul09_09-48-07_v02.0.tif`: `format` of the record with parameter `''` gives this name, and `parse_nsidc_0418` returns `None` for it | names without a parameter parse, `(_(vv\|vx\|vy\|ex\|ey))?_v`, so that the round trip holds for them | high for the mismatch; medium that such names occur in the data; not executed | Codec.ParameterlessNameNotMatched | Codec.ParseFormat |
| data_sets/velocities/prepare_velocities.py:315-322 | `ofnames.append(ofname)` is outside the parameter loop, so only the last component is merged; the final `merge` sits in a loop over the last component's records, so it runs once per record; with no parameters `ofname` is unbound | `parameters = ('vx', 'vy', 'vv')`: only the `vv` component reaches the final merge, once per granule; `parameters = ()` raises `UnboundLocalError` | append each component inside the loop, then merge all components once | high; not executed | Pipeline.MergeGlacierMergesLastOnly | Pipeline.IntendedMergesEveryComponent |
| data_sets/velocities/prepare_velocities.py:321 | `ofpattern.format(*attrs)` passes the keys of `attrs` positionally, so `'{source}_{grid}_2008_2020.nc'` raises `KeyError('source')` | the script's own call at lines 328-329, with at least one granule listed | `ofpattern.format(**attrs)`, giving `TSX_W69.10N_2008_2020.nc` | high; not executed | Pipeline.GlacierPatternFails | Pipeline.IntendedMergesEveryComponent |
