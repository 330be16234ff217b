# Centerline-row ingestion, modelled in Dafny

This project models how the vessel-surface-reconstruction tools turn the lines of
a centerline CSV file into an ordered list of 3D points, and proves what that
ingestion promises. The two loaders in the repository are modelled independently.

- **The tolerant loader of `read-centerline.cpp`** (modules `CNumber`, `Tokenize`,
  `CenterlineRow`, `CenterlineLoader`, `CenterlineStats`):
  - `is_number` is a whole-token numeric test built on `strtod`;
  - `tokenize_relaxed` treats `,`, `;` and tab as white space and splits the line into words;
  - `parse_xyzr_from_line` trims the line, skips blank and `#` lines, reads three numeric
    tokens and an optional numeric radius;
  - `load_centerline_csv` keeps the accepted rows in file order and sets the
    `had_header` flag;
  - `main` folds the points into a bounding box and radius statistics.
- **The comma-only loader `LoadCenterlineFromCsv` of `TubeFromCenterline.cpp`**
  (module `TubeLoader`):
  - it skips empty lines;
  - it takes three `getline(ss, f, ',')` fields from every other line and converts
    them with `std::stod`, which accepts a numeric prefix;
  - it appends the point to the caller's `vtkPoints` only when all three fields convert;
  - it fails when the buffer holds fewer than two points at the end.

How the model is built:

- **Files.** A file is a `TextFile`: either `CannotOpen` or `Opened(lines)`. The lines
  are as `std::getline` yields them, without the newline.
- **Numbers.** `strtod` is a decimal grammar over the C string, meaning the prefix
  before the first NUL:
  - leading white space;
  - an optional sign;
  - digits with an optional point and fraction;
  - an optional exponent.

  Values are mathematical reals.
- **Missing radius.** The source stores NaN together with `has_radius == false`; the
  model uses `None`.
- **Loops.** The loops of the source are methods with loop invariants. Each method is
  proved equal to a specification function: `TokenizeRelaxed` to `RelaxedTokens`,
  `TrimLine` to `Trimmed`, `ParseXyzrFromLine` to `ParseLine`, `LoadCenterlineCsv` to
  `AcceptedPoints`/`HeaderFlag`, `ReadRow` to `RowPoint`, and so on. The lemmas then
  state the source's promises about those functions.
- **Point buffer.** The caller-owned point list of the tube loader is the class
  `TubeLoader.PointBuffer`. Its `InsertNextPoint` appends in place.
- **Header flag.** It follows the code. Only the first line of the file is ever
  examined: `first_meaningful_seen` becomes true after line 1 whatever that line holds.
  So a file whose first line is blank never reports a header, even if a header row
  follows it. A first line such as `# x y z` does report one, although comment lines
  are otherwise skipped.

## Model

| member | source | states |
|---|---|---|
| CNumber.StrToD | read-centerline.cpp:26 | strtod's end pointer moves only when something is converted, and then stays inside the C string |
| CNumber.Stod | TubeFromCenterline/TubeFromCenterline.cpp:167-169 | `std::stod` fails exactly when strtod converts nothing; on a token `is_number` accepts it returns that token's value |
| CNumber.CheckNumber | read-centerline.cpp:20-32 | the pointer-advancing loop of `is_number` returns exactly the whole-token test: something converted, and only white space up to the terminator |
| CNumber.StopsAtTerminator | read-centerline.cpp:29-31 | where the white-space loop stops is the terminator exactly when only white space follows the converted prefix |
| CNumber.IsNumberRefinesAsWritten | read-centerline.cpp:20-32 | the intended test is the as-written test plus "strtod converted something" |
| CNumber.IsNumberAgreesOnTokens | read-centerline.cpp:20-32 | on any token that starts with neither white space nor NUL, the as-written and intended tests agree |
| CNumber.AsWrittenAcceptsNonNumbers | read-centerline.cpp:22-31 | the as-written test accepts `" "` and `"\0"`, on which strtod converts nothing |
| CNumber.NoNumeralStart | read-centerline.cpp:26 | strtod converts nothing when the first character cannot begin a numeral, and such a token is not a number |
| CNumber.ScanOfRendered | read-centerline.cpp:26 | strtod reads a plain numeral `[-]digits[.digits]` up to the first character that cannot continue it, and yields the numeral's value |
| CNumber.ScanRendered | read-centerline.cpp:26 | the same holds when the numeral is followed by any NUL-free text: the end pointer is the numeral's length |
| CNumber.ValueIsQuotient | read-centerline.cpp:26 | the value of a numeral is its digits, read as one integer, divided by ten once per fraction digit, and negated when signed |
| CNumber.IsNumberFromParts | read-centerline.cpp:20-32 | a conversion followed only by white space makes the token a number whose value is the converted value |
| CNumber.NumeralThenBlanksIsNumber | read-centerline.cpp:29-31 | a numeral followed by white space is accepted with the numeral's value |
| CNumber.NumeralThenGarbageIsNotNumber | read-centerline.cpp:29-31 | a numeral followed by other text is rejected by `is_number`, although strtod still converts the numeral |
| CNumber.IsNumberAcceptsTrailingBlank | read-centerline.cpp:20-32 | `"3.5 "` is a number of value 3.5 |
| CNumber.IsNumberRejectsTrailingGarbage | read-centerline.cpp:20-32 | `"3.5abc"` is not a number |
| CNumber.StodPrefixExample | TubeFromCenterline/TubeFromCenterline.cpp:167-169 | `std::stod("1.5abc")` converts the prefix and yields 1.5 |
| CNumber.StodRejectsLabel | read-centerline.cpp:22-23 | the empty string and a label such as `"x"` are not numbers, and strtod converts nothing in `"x"` |
| Tokenize.BlankDelimiters | read-centerline.cpp:36-40 | the in-place loop replaces every `,`, `;` and tab by a space and leaves every other character |
| Tokenize.ExtractWords | read-centerline.cpp:41-46 | the `>>` extraction loop yields exactly the white-space separated words of the string |
| Tokenize.TokenizeRelaxed | read-centerline.cpp:34-47 | `tokenize_relaxed` returns the words of the line once delimiters are blanked |
| Tokenize.TokensAreWords | read-centerline.cpp:44-45 | every extracted word is non-empty and holds no white space |
| Tokenize.RelaxedTokensAreClean | read-centerline.cpp:34-47 | every relaxed token is non-empty and holds no `,`, `;`, tab or white space, so runs of delimiters produce no empty token |
| Tokenize.TokensKeepNonBlank | read-centerline.cpp:41-46 | the words, joined back together, are exactly the non-white-space characters of the string, in order |
| Tokenize.RelaxedTokensKeepOrder | read-centerline.cpp:34-47 | the relaxed tokens, joined back together, are exactly the line's characters other than separators, in line order |
| Tokenize.SameWordsSameTokens | read-centerline.cpp:41-46 | which white-space character separates two words does not change the words |
| Tokenize.DelimiterChoiceIrrelevant | read-centerline.cpp:38-39 | exchanging one separator for another (comma, semicolon, tab or white space) does not change the tokens |
| Tokenize.NoTokensInBlanks | read-centerline.cpp:41-46 | a string of white space yields no word |
| Tokenize.TokensAfterBlanks | read-centerline.cpp:41-46 | leading white space does not change the words |
| Tokenize.TokensBeforeBlanks | read-centerline.cpp:41-46 | trailing white space does not change the words |
| Tokenize.OuterSeparatorsIgnored | read-centerline.cpp:34-47 | separators before and after a line do not change its tokens |
| Tokenize.JoinedFieldsSplitBack | read-centerline.cpp:34-47 | separator-free fields joined with any one separator are tokenized back into exactly those fields |
| Tokenize.FirstTokenStart | read-centerline.cpp:44-45 | a line that starts with a non-separator has a first token, which starts with that character |
| CenterlineRow.TrimLine | read-centerline.cpp:51-58 | the two erase steps leave the line without its leading and trailing white space |
| CenterlineRow.TrimmedShape | read-centerline.cpp:53-58 | the trimmed line is a contiguous slice with only white space cut from either side, and it neither starts nor ends with white space |
| CenterlineRow.TrimmedKeepsTokens | read-centerline.cpp:51-65 | trimming does not change the relaxed tokens |
| CenterlineRow.ParseXyzrFromLine | read-centerline.cpp:49-88 | the parse succeeds exactly when the row is accepted; on success the out-parameter holds the row's point, on failure it is left as it was |
| CenterlineRow.BlankAndCommentLinesRejected | read-centerline.cpp:60-63 | a line that is blank after trimming, or whose first non-space character is `#`, is rejected |
| CenterlineRow.ParseLineByTokens | read-centerline.cpp:65-87 | a line is accepted iff it has at least 3 relaxed tokens and the first three are numbers; x, y and z are their values; the radius is present iff there is a 4th token and it is a number, and then it is that value |
| CenterlineRow.ExtraTokensIgnored | read-centerline.cpp:75-84 | two lines that agree on their first four tokens parse to the same result, so tokens after the 4th never matter |
| CenterlineRow.DelimiterChoiceKeepsPoint | read-centerline.cpp:65 | exchanging one separator for another does not change the parsed point |
| CenterlineRow.RowRoundTrip | read-centerline.cpp:49-88 | three or more numerals written with any one separator parse back to their values; the 4th, if any, becomes the radius |
| CenterlineRow.NulFourthTokenNoRadius | read-centerline.cpp:75-84 | for a line whose tokens are three numerals and a lone NUL: the NUL passes the as-written `is_number` but not the intended one, so the model reads the line as the three values without a radius |
| CenterlineLoader.LoadCenterlineCsv | read-centerline.cpp:90-128 | an unopenable file is an error; otherwise the result is the points of the accepted lines in file order, plus the header flag decided by line 1 |
| CenterlineLoader.AcceptedPointsConcat | read-centerline.cpp:104-126 | the points of two consecutive stretches of lines are the points of the first followed by those of the second |
| CenterlineLoader.RejectedLineSkipped | read-centerline.cpp:116-125 | a rejected line contributes nothing and does not disturb the rest of the load |
| CenterlineLoader.AcceptedPointsExactly | read-centerline.cpp:124-125 | a point is loaded iff some line parses to it |
| CenterlineLoader.AcceptedPointsCount | read-centerline.cpp:124-125 | one point is loaded per accepted line |
| CenterlineLoader.HeaderIsDecidedByFirstLine | read-centerline.cpp:108-122 | `had_header` is true iff the file has a first line, that line is rejected, and it has at least 3 relaxed tokens |
| CenterlineLoader.LaterLinesKeepHeader | read-centerline.cpp:108-122 | lines after the first never change `had_header` |
| CenterlineLoader.FirstLineCommentIsHeader | read-centerline.cpp:108-115 | a first-line comment with at least 3 tokens sets `had_header`, and a blank first line never does, whatever follows |
| CenterlineStats.LowestIsLeast | read-centerline.cpp:154-169 | the running `std::min` from +infinity is +infinity only on no values, and otherwise is one of the values and no greater than any of them |
| CenterlineStats.HighestIsGreatest | read-centerline.cpp:157-169 | the running `std::max` from -infinity is -infinity only on no values, and otherwise is one of the values and no less than any of them |
| CenterlineStats.RunningExtremes | read-centerline.cpp:161-169 | over a non-empty sequence both folds are finite and are its least and greatest elements |
| CenterlineStats.BoundingBox | read-centerline.cpp:154-169 | the six accumulators end as the running min and max of each coordinate |
| CenterlineStats.BoxIsTight | read-centerline.cpp:161-169 | for non-empty points every coordinate lies between the box's corners, and every face of the box touches a point |
| CenterlineStats.RadiusFold | read-centerline.cpp:178-192 | `rmin`, `rmax`, `rsum` and `rcount` are the min, max, sum and number of the radii of only the points that have one |
| CenterlineStats.Diagnose | read-centerline.cpp:152-199 | no diagnostics for no points; otherwise a tight box, and radius statistics exactly when some point has a radius, with count, extremes and mean of those radii |
| CenterlineStats.RadiiCount | read-centerline.cpp:183-191 | `rcount` is the number of points that have a radius |
| CenterlineStats.RadiiArePresentRadii | read-centerline.cpp:185-188 | a value enters the radius statistics iff some point has it as its radius |
| TubeLoader.PointBuffer.InsertNextPoint | TubeFromCenterline/TubeFromCenterline.cpp:170 | the point is appended at the end and nothing else changes |
| TubeLoader.NextField | TubeFromCenterline/TubeFromCenterline.cpp:161-163 | one `getline(ss, f, ',')` fails iff nothing is left to read; otherwise the field is comma-free and is followed by a consumed comma or the end of the line |
| TubeLoader.ReadField | TubeFromCenterline/TubeFromCenterline.cpp:161-163 | the character loop extracts exactly the next field and where reading resumes |
| TubeLoader.ReadThreeFields | TubeFromCenterline/TubeFromCenterline.cpp:159-163 | the three sequential extractions succeed exactly when three fields can be read, and yield them |
| TubeLoader.ReadRow | TubeFromCenterline/TubeFromCenterline.cpp:154-176 | one iteration of the loop yields the line's point, or nothing for an empty line, a line with too few fields or a field with no numeric prefix |
| TubeLoader.LoadCenterlineFromCsv | TubeFromCenterline/TubeFromCenterline.cpp:142-186 | an unopenable file fails and leaves the buffer alone; otherwise the accepted rows are appended in file order, and success means the buffer holds at least two points |
| TubeLoader.RowPointsConcat | TubeFromCenterline/TubeFromCenterline.cpp:152-177 | the points of two consecutive stretches of lines are those of the first followed by those of the second |
| TubeLoader.RowPointsExactly | TubeFromCenterline/TubeFromCenterline.cpp:152-177 | a point is appended iff some line yields it, and one point is appended per accepted line |
| TubeLoader.FieldThenComma | TubeFromCenterline/TubeFromCenterline.cpp:161 | a comma-free field followed by a comma is read up to the comma, and the comma is consumed |
| TubeLoader.LastField | TubeFromCenterline/TubeFromCenterline.cpp:163 | a last field read up to the end of the line, or up to a comma, succeeds even when empty, as long as something was left to read |
| TubeLoader.FirstThreeFields | TubeFromCenterline/TubeFromCenterline.cpp:159-163 | the three extractions yield the first three comma-separated fields whatever follows a third comma |
| TubeLoader.RowUsesFirstThreeFields | TubeFromCenterline/TubeFromCenterline.cpp:159-176 | a row yields a point iff all of its first three fields convert, and then the point is their values; text after the third field never matters |
| TubeLoader.FewerThanTwoCommasNoPoint | TubeFromCenterline/TubeFromCenterline.cpp:159-163 | a line with fewer than two commas, such as `1;2;3` or `1,2`, yields no point |
| TubeLoader.TrailingSecondCommaNoPoint | TubeFromCenterline/TubeFromCenterline.cpp:163 | a line `a,b,` yields no point: the third extraction finds nothing left to read |
| TubeLoader.NumeralField | TubeFromCenterline/TubeFromCenterline.cpp:167-169 | a field of a numeral followed by text `stod` stops at converts to the numeral's value |
| TubeLoader.RowRoundTrip | TubeFromCenterline/TubeFromCenterline.cpp:159-176 | three numerals, each with trailing junk, written as comma-separated fields, yield the point of the numerals' values |
| TubeLoader.HeaderRowSkipped | TubeFromCenterline/TubeFromCenterline.cpp:172-175 | a row whose first field starts with a letter (a header) yields no point |

## Left out

- Reading the file: the input is the sequence of lines `std::getline` would yield, plus a "could not be opened" case.
- The `std::runtime_error` thrown by `load_centerline_csv` for an unopenable file is modelled as the `OpenError` result.
- Printing: the point count, the `(header)` marker, the AABB, the start and end points, the radius statistics and every error message.
- Argument checking in `main`.
- CNumber.StrToD: hexadecimal, `inf`, `nan` and `infinity` forms are not modelled. So `is_number` in the model rejects tokens such as `nan` or `0x1p3` that the C library accepts. `std::stod` in `LoadCenterlineFromCsv` reads only the leading `0` of a hexadecimal field such as `0x1A`: the model converts it to 0 where the C library gives 26. The stop-character lemmas (`EndsNumeral`, `Junk`) exclude `x` and `X`, so they hold of the C library too.
- CNumber.IsNumber: the `errno` (ERANGE) rejection of values too large or too small for a double is not modelled, because values are unbounded reals.
- CNumber.Stod: the `std::out_of_range` that `std::stod` throws on ERANGE is not modelled, so no row is skipped for it.
- The C locale is assumed throughout: `isspace` is space, tab, newline, vertical tab, form feed and carriage return.
- Double rounding of every coordinate, the `long double` sum of the radii and the rounding of the mean are not modelled: the model computes exactly over reals.
- NaN comparisons in `std::min`/`std::max` are not modelled, since the model's conversion never produces NaN. An absent radius is `None` instead of NaN.
- `vtkPoints` stores single-precision floats. The buffer here holds the converted reals as they are.
- The crash path of the finding below is left out. A token that starts with NUL passes the as-written `is_number`; `std::stod` then throws, and the exception escapes `load_centerline_csv` and ends the program. The model uses the intended `is_number`, which rejects the token, not necessarily the line. If the token is among the first three, the line is skipped. If it is the 4th, the line is accepted without a radius where the program aborts (`CenterlineRow.NulFourthTokenNoRadius`).
- Everything of `TubeFromCenterline.cpp` outside `LoadCenterlineFromCsv` is left out: executable-directory and file-dialog code, the polyline build, the colour gradient, the `vtkTubeFilter`, the STL writer and the rendering. It is all operating-system or VTK library code.
- `vis.py` and `visualize-paraview.py` are ParaView scripting and are not part of this model.

## Findings

| source | as written | input that shows it | evidently intended | confidence | as-written member | corrected member |
|---|---|---|---|---|---|---|
| read-centerline.cpp:20-32 | `is_number` never asks whether `strtod` converted anything. When nothing is converted the end pointer stays at the start, so a token that is empty as a C string passes | the line `"\0,1,2"` (a NUL byte, then `,1,2`): its tokens pass `is_number`, then `std::stod` of the first throws `std::invalid_argument`, and the whole load aborts instead of skipping the line | reject a token on which `strtod` converts nothing, so the line is skipped like any other unparseable line | not executed | CNumber.AsWrittenAcceptsNonNumbers | CNumber.CheckNumber |
