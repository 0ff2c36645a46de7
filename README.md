# GoTools table engine in Dafny

This project models the in-memory table engine of the Go repository GoTools.
It also models the two helper files of its `data` package that the engine and
its users call.

- **Elements** (`pandas/series/element.go`). One cell of a column, of kind
  text, int, float64 or bool. It has a coercion table (`Set`), four readers
  (`Records`, `Int`, `Float`, `Bool`), the missing-value test and `update`. The
  typed element lists are the class `ElementList`, whose methods append,
  insert and drop in place.
- **SeriesOps** (`series/series.go`). A Series is a name, a slice of elements,
  a type name and a slice of row labels (`indexes`). `Column` is its value.
  The class `Series` carries the operations that change a Series in place:
  InitIndex, Append, Concat, Format and SetType. It also carries the
  loops that build new Series: NewSeries, LoadRecords, Copy, SubSet, Drop,
  Filter and SortIndex. Each method is proved equal to a function on
  `Column`, and the properties are lemmas about those functions.
- **DataFrames** (`dataFrame/dataframe.go`). A DataFrame is a list of Series
  values with a column count and a row count. `Frame` is its value. Its
  invariant `Aligned` says that `cols` counts the columns and that every
  column holds `rows` elements. The class `DataFrame` carries LoadRecord,
  Records, Size, Columns, Rows, Cell, Copy, Set, AddRows, AddCol, Concat,
  DropCols, Rename, Arrange, SubSet and Filter, each proved equal to its
  specification function.
- **Slices** (`data/slice.go`). Contains, Insert and Pop with an index that may
  count from the end, Equal and IsEmpty.
- **Numerals** (`data/data_cov.go`). Spreadsheet column letters (Int2AAA,
  AAA2Int) and Chinese numerals (Cn2an, An2cn).
- **Library** and **Strconv**. These give evident definitions to the
  functions the engine calls whose own source is not part of this model:
  Reverse, Range, Filter and Overlap of the data package; sort.Ints,
  slices.SortFunc, slices.Compact, slices.Delete and slices.Max;
  strconv.Itoa and strconv.Atoi.

Modelling choices:

- A Go panic is the result `None` or `Err(Panic)`. A returned error is
  `Err(Error)`.
- Go's `int` is the 64-bit subset type `Int64`.
- `float64` is `NaN | Num(n)`, which covers the integral values and NaN.
  Converting an int to float64 rounds to the nearest float64, ties to even
  (`Library.RoundToDouble`), so integers above 2^53 in magnitude lose their
  low bits as they do in Go.
- A float64 renders as the decimal text with the fewest significant digits
  that reads back as it, padded with zeros (`Library.Shortest`), so 2^63
  renders as "9223372036854776000".
- Go's `any` is the datatype `Any`. It covers the four scalars, an Element,
  the typed slices, `[]any`, any other type and the untyped `nil`.
- Where the code and its documentation disagree, the model follows the code:
  - `Rename` only copies each column, so it never changes the table.
  - `Concat` with `isColumn` hands a Series value to AddCol, which accepts only
    `*series.Series`, so it always fails. Row-wise it does nothing.
  - For the Cn2an example in `data/example_test.go`, the code gives 21
    (`Numerals.Cn2anExample`), not the printed 1000006002400.
  - An2cn of a negative number spells the minus sign as "零" followed by a
    unit, and trimming leaves the unit: An2cn(-5) is "十五"
    (`Numerals.An2cnMinusFive`), which Cn2an reads as 15.

Where the code is evidently wrong, the model keeps two members. One states the
code as written and exhibits the discrepancy. The other holds the corrected
definition, which the rest of the model uses. Both are listed under
"## Findings".

## Model

| member | source | states |
|---|---|---|
| Slices.Contains | data/slice.go:8-15 | true exactly when some element equals x |
| Slices.Normalise | data/slice.go:18-37 | the index rule of Insert and Pop: an index past the end becomes the length, one at or below minus the length becomes 0, another negative one counts back from the end, and an index in range is kept |
| Slices.Insert | data/slice.go:18-37 | the result has the length of both inputs together |
| Slices.InsertLayout | data/slice.go:18-37 | the prefix before the normalised index stays, the inserted elements follow in order, and the rest moves up by their count |
| Slices.InsertPermutes | data/slice.go:18-37 | the result is a permutation of the slice plus the inserted elements |
| Slices.Pop | data/slice.go:40-57 | it panics exactly when the normalised index is the length; otherwise it returns the element there and the slice without it, with the others in order |
| Slices.PopPermutes | data/slice.go:40-57 | Pop removes exactly the element it returns |
| Slices.PopAfterInsert | data/slice.go:18-57 | popping at the position just inserted at gives back the slice and the element |
| Slices.ContainsAfterInsert | data/slice.go:8-37 | after Insert, x is contained exactly when it was in the slice or among the inserted elements |
| Slices.Equal | data/slice.go:60-70 | true exactly when the two slices are equal |
| Slices.IsEmpty | data/slice.go:72-79 | true exactly when every string is blank |
| Strconv.Itoa | pandas/series/element.go:104-105 | non-empty decimal text, with a minus sign exactly for negatives and no leading zero |
| Strconv.Atoi | pandas/series/element.go:120-125 | accepted text starts with a sign or a digit, and the sign gives the sign of the value |
| Strconv.AtoiItoa | pandas/series/element.go:188-193 | Atoi reads back every 64-bit int that Itoa renders |
| Library.ReverseAt | pandas/series/element.go:537-542 | position i of data.Reverse holds position n-1-i |
| Library.ReversePermutes | pandas/series/element.go:537-542 | data.Reverse is a permutation |
| Library.Range | series/series.go:72-77 | the positions 0 .. n-1 in order |
| Library.Sort | pandas/series/element.go:538 | sort.Ints gives an ascending sequence |
| Library.SortPermutes | pandas/series/element.go:538 | sort.Ints gives a permutation of its input |
| Library.InsertAscending | pandas/series/element.go:538 | inserting into an ascending list keeps it ascending and adds one element |
| Library.InsertAscendingPermutes | pandas/series/element.go:538 | inserting adds exactly that element to the multiset |
| Library.SortDescending | series/series.go:116-118 | slices.SortFunc with the reversed comparison gives a descending permutation |
| Library.Compact | series/series.go:116 | slices.Compact keeps exactly the members, leaves no two adjacent equal and keeps the last element |
| Library.CompactDescending | series/series.go:116-118 | Compact keeps a descending list descending |
| Library.CompactDescendingDistinct | series/series.go:116-118 | a descending list compacted has no repeats at all |
| Library.CompactAscending | dataFrame/dataframe.go:465 | Compact keeps an ascending list ascending |
| Library.CompactAscendingDistinct | dataFrame/dataframe.go:465 | an ascending list compacted has no repeats at all |
| Library.AscendingUnique | dataFrame/dataframe.go:465-467 | two strictly ascending lists with the same members are equal |
| Library.Union | dataFrame/dataframe.go:465 | the corrected OR join: exactly the members of either list, strictly ascending |
| Library.SortMembers | dataFrame/dataframe.go:465 | sorting keeps exactly the members |
| Library.Max | series/series.go:145 | slices.Max panics exactly on an empty slice; otherwise it returns a member no smaller than any other |
| Library.Positions | series/series.go:384-436 | data.Filter's positions: ascending, each passes the test, and every passing position is listed |
| Library.PositionsUnique | series/series.go:384-436 | any strictly ascending list of exactly the passing positions is Positions itself |
| Library.Overlap | dataFrame/dataframe.go:467 | data.Overlap keeps exactly the members of the first list that are also in the second |
| Library.OverlapAscending | dataFrame/dataframe.go:467 | Overlap keeps a strictly ascending list strictly ascending |
| Library.KeepLength | series/series.go:115-124 | removing distinct in-range positions shrinks the slice by their count |
| Library.Delete | series/series.go:121 | slices.Delete of one position succeeds exactly for an in-range position and shrinks the slice by one |
| Library.DeleteDescending | series/series.go:120-122 | deleting distinct in-range positions highest first removes exactly those positions |
| Library.DeleteEachFails | series/series.go:120-122 | deleting highest first panics when a position is out of range |
| Library.DescendingDistinct | series/series.go:116-118 | a descending permutation of a list without repeats has no repeats |
| Elements.Zero | series/series.go:446-463 | `new(...)` of a kind gives an element of that kind |
| Elements.SliceItems | series/series.go:81-87 | a slice has as many items as its length |
| Elements.ParseFloat | pandas/series/element.go:142-147 | "nan" in any case parses as NaN |
| Elements.ParseFloatOfDigits | pandas/series/element.go:143 | an optional minus sign before decimal digits parses as their value rounded to the nearest float64, negated after the minus |
| Elements.ParseFloatOfItoa | pandas/series/element.go:143 | the decimal text of an integer parses as that integer rounded to the nearest float64 |
| Elements.Records | pandas/series/element.go:185-205 | a text element gives its text; an int that is not the sentinel gives text Atoi reads back as the int; a float64 gives text ParseFloat reads back as the float64; a bool gives a false text exactly when false |
| Elements.FormatShortestRoundTrip | pandas/series/element.go:194-199 | the text of every float64, NaN included, parses back as the same float64 |
| Elements.FormatShortestExact | pandas/series/element.go:198 | up to 2^53 in magnitude a float64 renders as its own decimal text |
| Elements.FormatShortestAboveExactRange | pandas/series/element.go:198 | 2^63 renders as 9223372036854776000, -2^63 as -9223372036854776000 and 2^60 as 1152921504606847000 |
| Elements.RecordsOfLargestInt | pandas/series/element.go:148-149 | the largest int set into a float element becomes 2^63 and renders as 9223372036854776000 |
| Elements.SetFloatMeaning | pandas/series/element.go:140-160 | a float element makes unparsable text and "nan" NaN, reads an int's decimal text as the same float64 as the int itself, and stores true/false as 1/0 |
| Elements.FloatTextRoundTrip | pandas/series/element.go:372-375 | a float64 copied into a text element reads back as the same float64, NaN included |
| Elements.Set | pandas/series/element.go:96-181 | Set keeps the receiver's kind, and only a bool receiver given a non-scalar panics |
| Elements.Value | pandas/series/element.go:390-404 | Value is one of the four Go scalars |
| Elements.Update | pandas/series/element.go:372-386 | update keeps the receiver's kind |
| Elements.SetText | pandas/series/element.go:96-103 | a text element is missing exactly for the null spellings and otherwise keeps the text |
| Elements.SetTextFromScalars | pandas/series/element.go:104-113 | a text element stores an int as its decimal text, which reads back as the int, and a bool as text that reads back as the bool |
| Elements.SetIntMeaning | pandas/series/element.go:118-139 | an int element makes unparsable text the sentinel, reads decimal text back exactly, and stores true/false as 1/0 |
| Elements.SetBoolMeaning | pandas/series/element.go:162-181 | a bool element is false exactly for the four false texts, int 0 and float64 0 |
| Elements.SetBoolAgreement | pandas/series/element.go:170-175 | the table as written and the corrected one differ only at float64 0, which as written sets true |
| Elements.IsNaNRecords | pandas/series/element.go:331-351 | isNaN holds exactly when the element renders as "NaN" |
| Elements.IntTextRoundTrip | pandas/series/element.go:372-376 | an int copied into a text element reads back as the same int |
| Elements.IntFloatRoundTrip | pandas/series/element.go:224-252 | an int copied into a float element reads back as the same int up to 2^53 in magnitude; 2^53 + 1 comes back as 2^53, and the largest int comes back as the smallest |
| Elements.BoolThroughText | pandas/series/element.go:266-279 | an int reads as true only when positive, but its text reads as true whenever it is nonzero |
| Elements.BoolCaseFolding | pandas/series/element.go:266-272 | the text reader lower-cases, so "FALSE" reads false, while Set(bool) of "FALSE" gives true |
| Elements.UpdateSelf | pandas/series/element.go:372-386 | updating a well-formed element from itself changes nothing |
| Elements.ScalarPrefix | pandas/series/element.go:480-533 | the longest run of scalars at the front, and the value that stops it |
| Elements.InsertedAll | pandas/series/element.go:480-533 | inserting the values one by one adds exactly their count |
| Elements.ElementList.constructor | pandas/series/element.go:72-90 | an empty list of the given kind |
| Elements.ElementList.Append | pandas/series/element.go:408-476 | a scalar or slice of the list's own type is appended, coerced, in order; anything else is an error that changes nothing |
| Elements.ElementList.AppendScalars | pandas/series/element.go:415-419 | the loop over a slice appends each scalar coerced to the list's kind, in order, and keeps the list well formed |
| Elements.ElementList.Insert | pandas/series/element.go:480-533 | value k lands at index + k; the first non-scalar stops with an error and the values before it stay inserted |
| Elements.ElementList.Drop | pandas/series/element.go:537-560 | the sorted indexes are popped highest first; a pop past the end panics and the pops before it stay applied |
| Elements.ElementList.Index | pandas/series/element.go:564-579 | the element at an in-range position; otherwise a panic |
| Elements.ElementList.Len | pandas/series/element.go:614-625 | the number of elements |
| Elements.ElementList.RecordsAll | pandas/series/element.go:629-656 | Records of every element, in order |
| Elements.ElementList.IntAll | pandas/series/element.go:660-687 | Int of every element, in order |
| Elements.ElementList.FloatAll | pandas/series/element.go:691-718 | Float of every element, in order |
| Elements.ElementList.BoolAll | pandas/series/element.go:722-749 | Bool of every element, in order |
| Elements.InsertedAllKind | pandas/series/element.go:480-533 | inserting coerced values keeps the list of one kind |
| Elements.InsertKeepsKind | pandas/series/element.go:487 | data.Insert of an element of the list's kind keeps the list of one kind |
| Elements.PopKeepsKind | pandas/series/element.go:540 | data.Pop keeps the list of one kind |
| Elements.InsertContiguous | pandas/series/element.go:480-533 | with an index inside the list, the inserted values land together, in order, before the old element at the index |
| Elements.PopEachIsDeleteEach | pandas/series/element.go:537-560 | with non-negative indexes, popping is slices.Delete |
| Elements.DropDistinct | pandas/series/element.go:537-560 | dropping distinct in-range indexes removes exactly those positions and keeps the others in order |
| Elements.ReadersAgree | pandas/series/element.go:629-749 | the four list readers have the list's length, and an element renders "NaN" exactly when it is missing |
| Numerals.RuneText | data/data_cov.go:18 | `string(rune(v))` is one character, equal to v below the surrogates |
| Numerals.Int2AAA | data/data_cov.go:16-40 | 1 .. 26 become one letter; every positive number becomes upper-case letters |
| Numerals.AAA2Int | data/data_cov.go:43-49 | the loop computes NameValue: each character c weighs (c - 64) * 26^(len - 1 - i), with the length and the offset i counted in UTF-8 bytes |
| Numerals.NameValueOfUpper | data/data_cov.go:43-49 | on an upper-case name the byte length is the letter count, and AAA2Int gives the bijective base-26 value of the name |
| Numerals.ColumnNumberOfInt2AAA | data/data_cov.go:16-49 | AAA2Int(Int2AAA(n)) == n for every n from 1 to 2^53 |
| Numerals.Int2AAAOfColumnNumber | data/data_cov.go:16-49 | Int2AAA(AAA2Int(name)) == name for every non-empty upper-case name whose number is at most 2^53 |
| Library.RoundExact | data/data_cov.go:21 | float64(n) is n for every n up to 2^53 in magnitude |
| Library.RoundAboveBound | data/data_cov.go:21 | float64(2^53 + 1) is 2^53: the tie goes to the even neighbour |
| Library.RoundBound | pandas/series/element.go:148-149 | float64(n) is at most 2n + 1, so no int overflows the float64 range |
| Library.RoundOfTwoToThe63MinusOne | pandas/series/element.go:148-149 | float64(2^63 - 1) is 2^63 |
| Library.AdmittedRounds | pandas/series/element.go:198 | every integer within the rounding interval of a float64 m rounds to m |
| Library.ShortestMeaning | pandas/series/element.go:198 | the shortest text of a float64 rounds back to it; no value that reads back has fewer significant digits; among those with as many, none is nearer |
| Library.ShortestRoundsBack | pandas/series/element.go:198 | the shortest text of a float64 rounds back to it, and is positive when the float64 is |
| Library.ShortestExact | pandas/series/element.go:198 | up to 2^53 the shortest text of m is m itself |
| Library.ShortestOfTwoToThe63 | pandas/series/element.go:198 | the shortest text of 2^63 is 9223372036854776000 |
| Library.ShortestOfTwoToThe60 | pandas/series/element.go:198 | the shortest text of 2^60 is 1152921504606847000 |
| Numerals.ColumnExample | data/data_cov.go:16-49 | column 703 is "AAA" and back |
| Numerals.Step | data/data_cov.go:101-116 | one character of the scan is accepted exactly when it is a digit or a unit, and a unit sets the "after a unit" flag |
| Numerals.ReadOutcome | data/data_cov.go:99-117 | the scan succeeds exactly when every character is in a table, and otherwise it names the first one that is not |
| Numerals.ReadPush | data/data_cov.go:101-116 | a digit adds digit times weight and moves the weight up a place; a unit sets the weight, or multiplies it after another unit |
| Numerals.Cn2an | data/data_cov.go:90-120 | the method computes Cn2anOf: the text reversed, then scanned |
| Numerals.Cn2anErrors | data/data_cov.go:90-120 | Cn2an fails exactly when a character is in neither table, and names the last such character |
| Numerals.Cn2anOfDigits | data/data_cov.go:90-120 | digit characters alone read as positional decimal |
| Numerals.Cn2anTens | data/data_cov.go:90-120 | digit, "十", digit reads as tens and units |
| Numerals.Cn2anExample | data/data_cov.go:90-120 | "二十一" reads as 21 |
| Numerals.Cn2anOneUnits | data/data_cov.go:90-120 | "一" followed by units reads as the product of the units |
| Numerals.ReadUnits | data/data_cov.go:76-85 | a run of units scans to the product of their weights |
| Numerals.DigitOf | data/data_cov.go:133 | `strconv.Atoi(string(a))` with the error dropped: a digit's value, or 0 |
| Numerals.CollapseZerosShape | data/data_cov.go:140-141 | collapsing leaves no run of "零" and keeps the first character |
| Numerals.TrimZerosShape | data/data_cov.go:141 | trimming leaves no "零" at either end and keeps a run-free text run-free |
| Numerals.SpelledRaw | data/data_cov.go:127-138 | for a decimal text the unit table reaches, the loop never fails and appends each digit's piece (its name and unit, or "零" for 0) in order |
| Numerals.CanonOf | data/data_cov.go:139-141 | collapsing the runs of "零" and trimming the ends turns those pieces into the canonical spelling: each nonzero digit with its unit, one "零" for each gap of zeros, nothing for zeros at the right end |
| Numerals.An2cnCanon | data/data_cov.go:122-144 | for 0 < n < 10^14, An2cn succeeds with the canonical spelling of n's digits |
| Numerals.ReadCanon | data/data_cov.go:90-120 | Cn2an reads a canonical spelling back as the value of its digits, for any tables whose pieces scan as digit times unit |
| Numerals.An2cnRoundTrip | data/data_cov.go:90-144 | for every n from 0 to 10^14 - 1, An2cn succeeds and Cn2an reads its text back as n |
| Numerals.An2cnDropsSign | data/data_cov.go:122-144 | for 0 < m < 10^13, An2cn(-m) is the unit of m's length followed by An2cn(m), and Cn2an reads it as m: the sign is lost |
| Numerals.An2cnExample | data/example_test.go:25-29 | 1000006002400 is spelled "一万亿零六百万零二千四百", which Cn2an reads back as 1000006002400 |
| Numerals.An2cn | data/data_cov.go:122-144 | the method computes An2cnWith over the corrected unit table, and its text has no run of "零" and none at either end |
| Numerals.Spell | data/data_cov.go:127-138 | the loop computes Spelled: each character's digit and unit in turn |
| Numerals.SpelledFails | data/data_cov.go:127-138 | spelling fails exactly when a nonzero digit sits at a position the unit table does not reach |
| Numerals.An2cnTooLarge | data/data_cov.go:122-144 | An2cn fails exactly when the decimal text has 15 or more characters, for both tables |
| Numerals.An2cnPower | data/data_cov.go:122-144 | a power of ten is spelled "一" followed by its unit |
| Numerals.UnitTableWeight | data/data_cov.go:87 | each entry p of the corrected unit table is made of units whose product is 10^p |
| Numerals.PowerRoundTrip | data/data_cov.go:76-144 | An2cn then Cn2an gives back every power of ten An2cn can spell |
| Numerals.AsWrittenPowerMisread | data/data_cov.go:87 | with the table as written, 10^13 is spelled "一亿亿", which reads back as 10^16 |
| SeriesOps.KindNamed | series/series.go:22-27 | a kind exactly for the four type names, and the kind's name is the name |
| SeriesOps.NewElements | series/series.go:446-463 | l zero elements of the named kind; for an unknown name the elements are nil, which is None once l > 0 |
| SeriesOps.RecordsOf | series/series.go:287-293 | Records of every element, in order |
| SeriesOps.IntsOf | series/series.go:305-311 | Int of every element, in order |
| SeriesOps.FloatsOf | series/series.go:296-302 | Float of every element, in order |
| SeriesOps.BoolsOf | series/series.go:314-320 | Bool of every element, in order |
| SeriesOps.AnysOf | series/series.go:322-328 | Value of every element, in order |
| SeriesOps.Appended | series/series.go:89-107 | an element exactly for a scalar or an Element, and an Element is stored as given |
| SeriesOps.Flatten | series/series.go:81-87 | Append reaches no slice: nested slices are flattened |
| SeriesOps.FirstFailure | series/series.go:80-111 | a run of Append calls fails exactly when some value it reaches is unsupported; the first such value decides: nil panics, any other type is an error |
| SeriesOps.AppendReachesNil | series/series.go:80-88 | a []any whose first unsupported item is nil panics there, keeping the elements appended before it |
| SeriesOps.AppendMeaning | series/series.go:80-112 | Append fails exactly as FirstFailure says, panicking at nil; it keeps the name, type and old elements; on success the new elements follow in order and the indexes are 0 .. n-1 |
| SeriesOps.AppendItemsMeaning | series/series.go:83-87 | the same for the items of a slice appended one by one, stopping at the first failure |
| SeriesOps.AppendsChain | series/series.go:83-87 | a successful run followed by a second run is one run over both |
| SeriesOps.AppendsStop | series/series.go:83-87 | a failed run stops: later values change nothing |
| SeriesOps.NewSeriesMeaning | series/series.go:34-51 | NewSeries succeeds exactly for nil or a slice of the requested type, and then holds one element of that type per value, with indexes 0 .. n-1 |
| SeriesOps.MadeTyped | series/series.go:43-48 | the elements Append makes from a typed slice have the slice's type |
| SeriesOps.LoadRecordsOf | series/series.go:58-69 | LoadRecords panics exactly for an unknown type with some texts |
| SeriesOps.LoadRecordsMeaning | series/series.go:58-69 | with a known type, one element of that type per text, set from the text, with indexes 0 .. n-1 |
| SeriesOps.Readings | series/series.go:195-204 | the slice SetType appends is of the new type and holds each element's reading |
| SeriesOps.Converted | series/series.go:183-216 | every element re-made as the new kind |
| SeriesOps.ReadBack | series/series.go:183-216 | reading, re-making and reading again gives the same reading |
| SeriesOps.UpdateIsCoerce | series/series.go:272-284 | Copy's update and SetType's Append make the same element |
| SeriesOps.SetTypeMeaning | series/series.go:183-216 | SetType to another known type keeps name and length, sets the type, converts every element and resets the indexes |
| SeriesOps.SetTypeKeepsReadings | series/series.go:183-216 | after SetType the elements read as the new type exactly as before |
| SeriesOps.ConcatMeaning | series/series.go:127-141 | Concat fails exactly when the types differ and the receiver's is unknown; otherwise the other elements, converted, follow and the indexes are 0 .. n-1 |
| SeriesOps.CopyOf | series/series.go:272-284 | Copy panics exactly for an unknown type with elements |
| SeriesOps.CopyMeaning | series/series.go:272-284 | Copy of a known type re-makes every element from its reading |
| SeriesOps.CopyKeepsValues | series/series.go:272-284 | Copy of a Series built by Set is the same Series |
| SeriesOps.SubSetOf | series/series.go:144-161 | SubSet succeeds exactly for a non-empty in-range request, and holds the requested elements in order with the request as indexes; an index past the end is an error |
| SeriesOps.DropOrder | series/series.go:115-124 | the corrected deletion order: strictly descending, with exactly the requested positions |
| SeriesOps.DropRemovesExactly | series/series.go:115-124 | Drop with in-range positions removes exactly those positions and shrinks by their count |
| SeriesOps.DropOutOfRange | series/series.go:115-124 | Drop panics when a position is out of range |
| SeriesOps.DropAsWrittenLosesElement | series/series.go:116-121 | as written, dropping [1, 1] from three elements deletes two; corrected, it deletes one |
| SeriesOps.BeforeTransitive | series/series.go:222-236 | SortIndex's comparison is transitive |
| SeriesOps.BeforeIrreflexive | series/series.go:222-236 | SortIndex's comparison is irreflexive |
| SeriesOps.SortKeys | series/series.go:219 | one key per element |
| SeriesOps.MinAt | series/series.go:222-238 | slices.MinFunc then slices.Index picks a position in the range |
| SeriesOps.MinAtIsMinimal | series/series.go:222-238 | no key in the range sorts before the one picked |
| SeriesOps.SelectFrom | series/series.go:221-241 | the selection sort keeps both lengths |
| SeriesOps.SortIndexOf | series/series.go:218-244 | SortIndex panics exactly when indexes are fewer than elements, the type is unknown, or a bool Series has two elements; otherwise it returns as many indexes |
| SeriesOps.SelectFromSorts | series/series.go:221-241 | the selection sort leaves the keys sorted |
| SeriesOps.SelectFromPermutes | series/series.go:221-241 | the selection sort permutes the indexes and keeps each key with its index |
| SeriesOps.SelectFromTracks | series/series.go:221-241 | each key stays the key of the row its index names |
| SeriesOps.SortIndexSorts | series/series.go:218-244 | SortIndex returns a permutation of the indexes under which the keys are sorted, highest first when reversed |
| SeriesOps.SortIndexOfPositions | series/series.go:218-244 | after InitIndex, SortIndex returns a permutation of 0 .. n-1 in key order |
| SeriesOps.TestPanics | series/series.go:384-436 | the predicate panics exactly for an ordering against a non-number and for a text operator against a non-string |
| SeriesOps.Matches | series/series.go:384-436 | the passing positions, strictly ascending, each passing and none missed |
| SeriesOps.PassingStep | series/series.go:384-436 | one more element adds its position exactly when it passes |
| SeriesOps.PassingIs | series/series.go:384-436 | the passing positions are the one strictly ascending list of exactly the positions that pass |
| SeriesOps.FilterOf | series/series.go:351-382 | nil panics in reflect.TypeOf(nil).String(); otherwise a failed type, operator or slice check is an error |
| SeriesOps.FilterCases | series/series.go:351-443 | Filter is a panic for nil, a failed check, a panicking element, or SubSet of the passing positions |
| SeriesOps.FilterSelects | series/series.go:351-443 | Filter succeeds exactly when the checks pass, no element panics and some element passes; it then holds exactly the passing elements, in order, under their positions |
| SeriesOps.FilterNothingPanics | series/series.go:438-439 | when nothing passes, SubSet of no positions panics |
| SeriesOps.MissingIsNaN | series/series.go:390-393 | a missing element reads as NaN |
| SeriesOps.FilterOrderingSkipsMissing | series/series.go:390-393 | an ordering never selects a missing element |
| SeriesOps.FilterEqualSplits | series/series.go:386-389 | every element lands in exactly one of the == and != results |
| SeriesOps.Series.constructor | series/series.go:13-18 | a Series with the given fields |
| SeriesOps.Series.NewSeries | series/series.go:34-51 | agrees with NewSeriesOf |
| SeriesOps.Series.LoadRecords | series/series.go:58-69 | agrees with LoadRecordsOf |
| SeriesOps.Series.InitIndex | series/series.go:72-77 | indexes become 0 .. n-1 and nothing else changes |
| SeriesOps.Series.Append | series/series.go:80-112 | the new state and result are AppendOf's |
| SeriesOps.Series.AppendEach | series/series.go:81-87 | the slice loop: appending the items one at a time gives AppendItems' state and result, stopping at the first failure |
| SeriesOps.Series.Concat | series/series.go:127-141 | agrees with ConcatOf; a failure changes nothing |
| SeriesOps.Series.Format | series/series.go:176-180 | every element updated from f at its position |
| SeriesOps.Series.SetType | series/series.go:183-216 | agrees with SetTypeOf; a failure changes nothing |
| SeriesOps.Series.MinIndex | series/series.go:222-238 | the loop finds MinAt |
| SeriesOps.Series.SortIndex | series/series.go:218-244 | agrees with SortIndexOf |
| SeriesOps.Series.SelectionSort | series/series.go:221-241 | the in-place loop over arrays gives SelectFrom's indexes; it fails where Go reads past the index array |
| SeriesOps.Series.HasNaN | series/series.go:262-269 | true exactly when some element is missing |
| SeriesOps.Series.Copy | series/series.go:272-284 | agrees with CopyOf, in a fresh object |
| SeriesOps.Series.SubSet | series/series.go:144-161 | agrees with SubSetOf, in a fresh object |
| SeriesOps.Series.Drop | series/series.go:115-124 | agrees with the corrected DropOf, in a fresh object |
| SeriesOps.Series.DeleteInTurn | series/series.go:120-122 | the loop deletes each position in turn and stops at the first out of range |
| SeriesOps.Series.Filter | series/series.go:351-443 | agrees with FilterOf, in a fresh object |
| SeriesOps.Series.Scan | series/series.go:384-436 | None exactly when some element panics; otherwise the passing positions |
| SeriesOps.Series.ScanWith | series/series.go:384-436 | data.Filter's loop for any test: None exactly when the test panics on some element; otherwise a strictly ascending list of exactly the positions that pass |
| SeriesOps.Series.Records | series/series.go:287-293 | RecordsOf the Series |
| SeriesOps.Series.Int | series/series.go:305-311 | IntsOf the Series |
| SeriesOps.Series.Float | series/series.go:296-302 | FloatsOf the Series |
| SeriesOps.Series.Bool | series/series.go:314-320 | BoolsOf the Series |
| SeriesOps.Series.Any | series/series.go:322-328 | AnysOf the Series |
| DataFrames.SizeAligns | dataFrame/dataframe.go:224-232 | Size makes the table aligned exactly when the columns share one length, and changes nothing in an aligned table with a column |
| DataFrames.IndexOfName | dataFrame/dataframe.go:300 | slices.IndexFunc by name: the first column with the name, or -1 |
| DataFrames.NamesOf | dataFrame/dataframe.go:160-166 | the column names in order |
| DataFrames.TypesOf | dataFrame/dataframe.go:169-175 | the column types in order |
| DataFrames.ColumnNamed | dataFrame/dataframe.go:243-250 | a column with the name if there is one, else the zero Series |
| DataFrames.CellOf | dataFrame/dataframe.go:265-268 | a cell exactly when the column exists and the row is in range, and then that column's element |
| DataFrames.CellAligned | dataFrame/dataframe.go:265-268 | in an aligned table every row of a present column has a cell |
| DataFrames.RowMapKeys | dataFrame/dataframe.go:253-262 | the row map has one key per column name |
| DataFrames.RowMapValues | dataFrame/dataframe.go:253-262 | each name maps to the cell of the last column with that name |
| DataFrames.RowsAligned | dataFrame/dataframe.go:253-262 | in an aligned table, Rows of a row inside it is that row's map |
| DataFrames.RecordsTable | dataFrame/dataframe.go:132-157 | Records panics exactly when read row by row and a column is shorter than the row count |
| DataFrames.RecordsTranspose | dataFrame/dataframe.go:132-157 | in an aligned table the row-by-row text is the transpose of the column-by-column text |
| DataFrames.UniformMeaning | dataFrame/dataframe.go:507-539 | equalLength with a base: every length is the base; with base 0, every length after a nonzero one equals it |
| DataFrames.ColumnOfRows | dataFrame/dataframe.go:91-100 | column j of the data is cell j of every row, in row order |
| DataFrames.LoadRecordMeaning | dataFrame/dataframe.go:64-106 | the corrected LoadRecord succeeds exactly for non-nil rectangular rows with one cell per type, fitting names and known types; the table is then aligned and column j is LoadRecords of cell j of every data row |
| DataFrames.LoadRecordAsWrittenRejects | dataFrame/dataframe.go:70-71 | as written, two-column data of three rows is rejected; corrected, it loads |
| DataFrames.SetPositionalMeaning | dataFrame/dataframe.go:285-297 | the positional loop succeeds exactly when every column's change does, and then each column holds its change |
| DataFrames.SetNamedMeaning | dataFrame/dataframe.go:298-311 | with distinct keys, the map form succeeds exactly when every key names a column whose change succeeds, and then each named column holds its entry's change and the others are unchanged |
| DataFrames.NamedStep | dataFrame/dataframe.go:298-311 | one map entry changes only the first column of that name, and leaves the other entries' changes as they were |
| DataFrames.SetRowMeaning | dataFrame/dataframe.go:283-317 | a whole row set into an aligned table appends a row at or past the end, or sets the row's cells inside it; the table stays aligned |
| DataFrames.SetNamedUnknown | dataFrame/dataframe.go:298-303 | a map naming a missing column fails |
| DataFrames.AddEachMeaning | dataFrame/dataframe.go:320-330 | AddRows of full rows keeps the table aligned, adds one row per row, and appends value j of each row to column j |
| DataFrames.AddRowsRejects | dataFrame/dataframe.go:321-323 | a row of the wrong length is an error that changes nothing |
| DataFrames.NewColumnLength | dataFrame/dataframe.go:339-375 | AddCol's column has `rows` elements for a *Series or []bool, and at least `rows` for the other slices, which are never cut |
| DataFrames.AddColMeaning | dataFrame/dataframe.go:337-386 | a column of `rows` elements replaces the first column of its name or ends the list, and the table stays aligned |
| DataFrames.ConcatChangesNothing | dataFrame/dataframe.go:391-407 | Concat never changes the table and fails exactly on mismatched counts or a column to add |
| DataFrames.Without | dataFrame/dataframe.go:410-412 | DropCols never adds columns |
| DataFrames.WithoutMembers | dataFrame/dataframe.go:410-412 | DropCols keeps exactly the columns whose name is not listed |
| DataFrames.WithoutConcat | dataFrame/dataframe.go:410-412 | DropCols keeps order: it filters each part of a concatenation |
| DataFrames.Unmatched | dataFrame/dataframe.go:415-423 | at most one reported name per column |
| DataFrames.UnmatchedMembers | dataFrame/dataframe.go:415-423 | Rename reports exactly the column names the map lacks |
| DataFrames.Reordered | dataFrame/dataframe.go:434-438 | reordering panics on a failed SubSet and keeps the column count |
| DataFrames.ReorderedMeaning | dataFrame/dataframe.go:434-438 | reordering by in-range positions puts row p[q] at q in every column |
| DataFrames.ArrangeStepPermutes | dataFrame/dataframe.go:428-439 | one key rearranges every column by one permutation of 0 .. n-1 under which the keys are sorted |
| DataFrames.ArrangeStepFails | dataFrame/dataframe.go:428-439 | an unknown column is an error; no rows, a bool key with two rows, or an unknown type panics |
| DataFrames.ArrangeKeepsRows | dataFrame/dataframe.go:426-442 | Arrange keeps every column at n rows |
| DataFrames.ArrangeKeepsAligned | dataFrame/dataframe.go:426-442 | a successful Arrange keeps the table aligned with the same counts |
| DataFrames.ArrangeAgrees | dataFrame/dataframe.go:426-442 | when every column is numbered 0 .. n-1, Arrange as written and the corrected Arrange agree |
| DataFrames.ArrangeAsWrittenPanics | dataFrame/dataframe.go:433-435 | after SubSet(4, 6), Arrange as written uses labels as positions and panics, where the corrected one sorts |
| DataFrames.SubSetColumns | dataFrame/dataframe.go:446-452 | succeeds exactly when every column's SubSet does, and then holds them |
| DataFrames.SubSetColumnsFirstError | dataFrame/dataframe.go:446-452 | the error is that of the first failing column |
| DataFrames.SubSetFrameMeaning | dataFrame/dataframe.go:444-454 | SubSet succeeds exactly for a non-empty in-range request; row q is row idx[q] in every column, and the result is aligned with as many rows |
| DataFrames.SubSetFrameAsWrittenStale | dataFrame/dataframe.go:444-454 | as written, SubSet(0) of three rows still reports three rows |
| DataFrames.Selections | dataFrame/dataframe.go:459-463 | every condition's positions, or the first failure |
| DataFrames.Collect | dataFrame/dataframe.go:459-463 | the loop over conditions: Ok exactly when every item succeeds, and then each item's result in order |
| DataFrames.SelectionMeaning | dataFrame/dataframe.go:460-461 | a condition selects exactly the rows of its column that pass, ascending |
| DataFrames.JoinedMeaning | dataFrame/dataframe.go:464-468 | the corrected join is strictly ascending and holds exactly the chosen positions |
| DataFrames.FilterFrameMeaning | dataFrame/dataframe.go:457-476 | Filter fails when a condition fails; otherwise it is SubSet of the chosen positions, ascending and each once |
| DataFrames.FilterOfNilConditions | dataFrame/dataframe.go:457-505 | a condition made outside the package leaves the unexported `values` nil, and Filter with such conditions panics, as written and corrected |
| DataFrames.FilterSingle | dataFrame/dataframe.go:457-476 | one condition keeps exactly its rows and succeeds |
| DataFrames.JoinedAsWrittenAllAnd | dataFrame/dataframe.go:458-468 | as written, only-AND conditions select nothing |
| DataFrames.FilterAsWrittenDropsFirst | dataFrame/dataframe.go:458-471 | as written, only-AND conditions always panic |
| DataFrames.FilterRepeatsCorrected | dataFrame/dataframe.go:464-465 | the corrected OR of [1, 2] and [0, 1] keeps each row once |
| DataFrames.FilterAsWrittenRepeatsRows | dataFrame/dataframe.go:464-465 | as written, the same OR gives positions [1, 2, 0, 1] and row 1 twice |
| DataFrames.DataFrame.constructor | dataFrame/dataframe.go:14-18 | a DataFrame with the given fields |
| DataFrames.DataFrame.IndexOf | dataFrame/dataframe.go:378 | the scan finds IndexOfName |
| DataFrames.DataFrame.EqualLength | dataFrame/dataframe.go:507-539 | the loop computes Uniform |
| DataFrames.DataFrame.Size | dataFrame/dataframe.go:224-232 | the counts re-derived from the columns, and returned |
| DataFrames.DataFrame.Names | dataFrame/dataframe.go:160-166 | NamesOf the columns |
| DataFrames.DataFrame.Types | dataFrame/dataframe.go:169-175 | TypesOf the columns |
| DataFrames.DataFrame.Columns | dataFrame/dataframe.go:243-250 | ColumnNamed |
| DataFrames.DataFrame.Cell | dataFrame/dataframe.go:265-268 | CellOf |
| DataFrames.DataFrame.Rows | dataFrame/dataframe.go:253-262 | RowOf |
| DataFrames.DataFrame.Records | dataFrame/dataframe.go:132-157 | RecordsTable |
| DataFrames.DataFrame.LoadRecord | dataFrame/dataframe.go:64-106 | agrees with the corrected LoadRecordOf, in a fresh object |
| DataFrames.DataFrame.Gather | dataFrame/dataframe.go:91-100 | values[j] is cell j of every row |
| DataFrames.DataFrame.Load | dataFrame/dataframe.go:102-104 | column j is LoadRecords of values[j] under name j and type j, or a panic |
| DataFrames.DataFrame.Copy | dataFrame/dataframe.go:271-277 | a fresh DataFrame with the sized value |
| DataFrames.DataFrame.SetAt | dataFrame/dataframe.go:290-296 | one column's change: Append at or past the row count, else Element.Set |
| DataFrames.DataFrame.Set | dataFrame/dataframe.go:283-317 | the new state and result are SetOf's |
| DataFrames.DataFrame.AddRows | dataFrame/dataframe.go:320-330 | the new state and result are AddRowsOf's |
| DataFrames.DataFrame.AddCol | dataFrame/dataframe.go:337-386 | the new state and result are AddColOf's |
| DataFrames.DataFrame.MakeColumn | dataFrame/dataframe.go:338-375 | the type switch computes NewColumn |
| DataFrames.DataFrame.Fitted | dataFrame/dataframe.go:340-352 | a *Series padded or cut to the row count, then copied |
| DataFrames.DataFrame.Concat | dataFrame/dataframe.go:391-407 | the new state and result are ConcatFrameOf's |
| DataFrames.DataFrame.DropCols | dataFrame/dataframe.go:410-412 | the columns become Without the names; the counts stay |
| DataFrames.DataFrame.Rename | dataFrame/dataframe.go:415-423 | the unmatched names, and no change |
| DataFrames.DataFrame.Reorder | dataFrame/dataframe.go:434-438 | the columns become Reordered, or a panic |
| DataFrames.DataFrame.ArrangeBy | dataFrame/dataframe.go:429-438 | the columns become ArrangeStep's, or its failure |
| DataFrames.DataFrame.Arrange | dataFrame/dataframe.go:426-442 | the new state and result are the corrected ArrangeOf's |
| DataFrames.DataFrame.SubSet | dataFrame/dataframe.go:444-454 | agrees with the corrected SubSetFrameOf, in a fresh object |
| DataFrames.DataFrame.SubSetEach | dataFrame/dataframe.go:446-452 | the columns become SubSetColumns, or its first failure |
| DataFrames.DataFrame.SubSetColumn | dataFrame/dataframe.go:447 | Series.SubSet of one column |
| DataFrames.DataFrame.Filter | dataFrame/dataframe.go:457-476 | agrees with the corrected FilterFrameOf, in a fresh object |
| DataFrames.DataFrame.Selected | dataFrame/dataframe.go:458-470 | the loop gives the corrected join of every condition's positions, or the first failure |
| DataFrames.DataFrame.Select | dataFrame/dataframe.go:460-461 | Series.Filter on a copy of the named column gives Selection |

## Left out

- DataFrame `New` and `LoadMap` (dataframe.go:24-57, 108-126): they depend on reflection over `[]any` and on Go's random map iteration order.
- `print`, `String` and every `fmt.Printf` message: these are output text only. Rename's printed names are returned as a value instead.
- `NCols`, `NRows`, `SortByForward`, `SortByReverse`, and Series `Elements`, `Element`, `Len`, `Type`, `Indexes`: plain getters and constructors, read directly as fields.
- The element methods `copy`, `dType`, `String` and `elems`: on values, copy and elems are the identity, and the type name is `TypeName(KindOf(e))`.
- `float64` values with a fractional part, and the infinities: a Float64 here is NaN or an integer. FormatFloat(f, 'f', -1, 64) is modelled on these values only, and ParseFloat reads only integral texts.
- Elements.Records / Elements.FormatShortest: negative zero is not modelled. In Go, ParseFloat("-0") gives -0, which renders as "-0"; here it is Num(0), which renders as "0".
- Library.Shortest: defined by the digits it picks (the coarsest power of ten with a multiple that reads back, then the nearest such multiple, ties to even), not by the steps of Go's Ryu algorithm. That Ryu computes the same digits is not proved here.
- Elements.ParseFloat: only decimal texts with an integral value are read. Exponents ("1e3"), hexadecimal floats ("0x1p4"), "inf" and "infinity", underscores and fractional values are not modelled, and those texts give the error result here.
- Aliasing:
  - elements are values, not references;
  - AddCol does not change the caller's Series;
  - Drop does not reorder the caller's slice;
  - slices.Delete and slices.Compact do not zero the caller's tail.
  This is except where the tail decides the result, as in Series.Drop as written.
- Numerals.Cn2an: the sum is an unbounded integer, so a numeral above 2^63 - 1 is not wrapped as Go's `int` would wrap it.
- Numerals.AAA2Int: the powers and the sum are exact unbounded integers. Go's math.Pow(26, k) is exact only up to k = 14, int() of 26^14 or more is out of range, and the sum wraps at 64 bits, so a name longer than 14 bytes is not computed as Go computes it.
- Numerals.ColumnNumberOfInt2AAA: the round trip is stated only up to 2^53. Above it, math.Mod(float64(n), 26) works on the rounded number; Numerals.Int2AAAAboveDoubleRange shows that 2^53 + 1 gets the name of 2^53.
- Numerals.Int2AAAOfColumnNumber: stated only for names whose number is at most 2^53, for the same reason.
- Byte versus rune indexing: a string is a sequence of characters. Cn2an and An2cn work rune by rune as the code does. AAA2Int counts UTF-8 bytes through `Utf8Len`: "É" gives 3562, not its letter value 137 (Numerals.NameValueOfTwoByteLetter).
- strconv internals: only Itoa and Atoi on decimal text, and FormatFloat and ParseFloat on the integral values above, are modelled.

## Findings

| source | as written | input that shows it | evidently intended | confidence | as-written member | corrected member |
|---|---|---|---|---|---|---|
| data/data_cov.go:87 | unit 13 of unitAn2cn is "亿亿" (10^16) | An2cn(10^13) gives "一亿亿", which Cn2an reads as 10^16 | "十万亿" (10^13) | not executed | Numerals.AsWrittenPowerMisread | Numerals.PowerRoundTrip |
| pandas/series/element.go:170-175 | `val == 0` compares an `any` holding float64 with int 0 | Set(bool, 0.0) gives true | float64 0 sets false | not executed | Elements.SetBoolAgreement | Elements.SetBoolMeaning |
| series/series.go:116-121 | slices.Compact before sorting, then a loop over the original slice | Drop(1, 1) on three elements deletes positions 1 and 0 | delete each requested position once, highest first | not executed | SeriesOps.DropAsWrittenLosesElement | SeriesOps.DropRemovesExactly |
| dataFrame/dataframe.go:70-71 | compares the row count with the number of types | three rows of two cells with two types is rejected | compare the cells per row with the number of types | not executed | DataFrames.LoadRecordAsWrittenRejects | DataFrames.LoadRecordMeaning |
| dataFrame/dataframe.go:433-435 | SortIndex returns row labels, which SubSet uses as positions | Arrange after SubSet(4, 6) panics | sort by positions | not executed | DataFrames.ArrangeAsWrittenPanics | DataFrames.ArrangeStepPermutes |
| dataFrame/dataframe.go:444-454 | the copied frame's row count is not re-derived | SubSet(0) of three rows reports three rows | the counts of the subset | not executed | DataFrames.SubSetFrameAsWrittenStale | DataFrames.SubSetFrameMeaning |
| dataFrame/dataframe.go:458-467 | the selection starts empty, so a first AND condition intersects with nothing | any Filter whose conditions are all AND panics | the first condition starts the selection | not executed | DataFrames.FilterAsWrittenDropsFirst | DataFrames.FilterSingle |
| dataFrame/dataframe.go:464-465 | OR appends and compacts only adjacent repeats | "> 1" OR "< 3" on ages [1, 2, 3] gives positions [1, 2, 0, 1] | the sorted union, each row once | not executed | DataFrames.FilterAsWrittenRepeatsRows | DataFrames.FilterRepeatsCorrected |
| dataFrame/dataframe.go:502 | the condition field `values` is unexported | any `F{Column: "age", Operator: ">"}` built by a caller outside the package has nil values, and Filter panics | an exported field the caller sets | not executed | DataFrames.FilterOfNilConditions | DataFrames.FilterFrameMeaning |
