# Cheque OCR text parsing, modelled in Dafny

The system reads bank cheques. An OCR engine turns each cheque image into
text, and plain string logic pulls four fields out of that text:

- the IFSC code, which identifies a bank branch;
- the amount;
- the date;
- the bank name.

The same parsers are copied into three scripts:

- `extract_all_cheque.py`: batch processing;
- `extract_cheque_data.py`: uploads;
- `main.py`: the folder runner.

All three share these parsers:

- `extract_ifsc`;
- `extract_amount`;
- `extract_bank_name`;
- `locate_template_region`.

Dates are read in one of two ways:

- **Strategy A** (the first two scripts): `extract_date` returns the raw
  match, and `normalize_date` reformats it.
- **Strategy B** (`main.py`): `extract_date` extracts and reformats in one step.

This project models that parsing layer as pure functions, and proves what each
parser returns. The OCR engine is represented by what it reports: the page
text, the word list with its boxes, the image size, and a function giving the
text OCR reads from any crop.

The regular expressions are modelled as Python's backtracking engine runs
them, on the eight patterns the scripts use:

- `re.search` takes the leftmost match.
- `re.match` is anchored at the start and ignores trailing text.
- `re.findall` scans left to right without overlap.
- Greedy counted repeats give characters back one at a time.
- `\b` is the boundary between word and non-word characters.

Modules, in dependency order:

| module | file | contents |
|---|---|---|
| Text | text.dfy | characters, `upper`, `replace`, slicing, `in`, `int()` and `:02d` on digit strings, first-match search over a list |
| Scan | scan.dfy | `re.search`, `re.findall` and the ordered pattern loop, for any matcher |
| Regex | regex.dfy | the eight patterns and their backtracking matchers |
| Fields | fields.dfy | `extract_ifsc`, `extract_amount` |
| Dates | dates.dfy | `normalize_date`, `extract_date` of both strategies |
| Banks | banks.dfy | `extract_bank_name` and its two tables |
| Regions | regions.dfy | `locate_template_region` and the crop arithmetic |
| Pipeline | pipeline.dfy | the three per-cheque pipelines |

Both strategy-A scripts end in the same record-building code. The model
therefore has one function for it, `Pipeline.ProcessChequeA`. The two
script-level functions pass it the file name their script uses.

Three points of behaviour follow from the code as written. The model keeps
them, and lemmas state them:

- **`normalize_date` reads only a prefix.** It uses `re.match`, so trailing
  text after a recognised date is dropped (`NormalizeLetterMonth`,
  `NormalizeNumeric`).
- **Strategy A ignores the DATE region.** Its pipelines compute the DATE
  region's OCR text but read the date from the full text
  (`DateAUsesFullTextOnly`). `main.py` reads the date from the region
  (`MainDateSource`).
- **Strategy A cannot return October or November letter dates.** It swaps
  every capital O for a zero before matching, so `OCT` and `NOV` are never
  returned (`ExtractDateANoOctNov`, `OctoberStrategyA`). Strategy B reads the
  same text as month 10 (`OctoberStrategyB`).

## Model

| member | source | states |
|---|---|---|
| Text.Upper | extract_all_cheque.py:89 | the upper-cased text has the input's length and no lower-case letter left: each lower-case letter became its capital and every other character is kept; with `UpperWithoutLower` and `UpperIdempotent`, text already in capitals is a fixed point |
| Text.UpperWithoutLower | extract_all_cheque.py:54 | upper-casing text that holds no lower-case letter changes nothing |
| Text.IsSpace | extract_all_cheque.py:54 | the ASCII characters `\s` matches; `NormalizeExampleLowerCase` shows a space separating a letter-month date |
| Text.Contains | extract_all_cheque.py:15 | Python's `in` on strings: some slice of the text equals the needle; `Banks.NamedBank` and `Regions.LocateTemplateRegion` state the searches built on it |
| Text.IsAlpha | main.py:47 | `isalpha()`: non-empty and letters only; `MonDateGroupsShape` and `NumDateGroupsShape` show it is true of a letter month and false of a numeric one |
| Text.UpperIdempotent | extract_all_cheque.py:15 | upper-casing an already upper-cased string changes nothing |
| Text.ZeroForO | extract_all_cheque.py:22 | after the O-to-0 substitution no capital O remains; every O became `0`, every other character is kept, the length is unchanged |
| Text.Remove | extract_all_cheque.py:26 | dropping commas leaves no comma and never lengthens the text |
| Text.RemoveAbsent | extract_all_cheque.py:26 | dropping a character that does not occur leaves the text unchanged |
| Text.RemoveOnce | extract_all_cheque.py:26 | dropping a character that occurs once cuts out exactly that occurrence |
| Text.RemoveSingle | extract_all_cheque.py:26 | a single character is dropped when it is the removed one and kept otherwise |
| Text.RemoveConcat | extract_all_cheque.py:26 | removal works piece by piece: what is kept of `x + y` is what is kept of `x` followed by what is kept of `y`, so every other character stays, in order |
| Text.FirstWhere | extract_all_cheque.py:72-74 | the early-return `for` search finds an element satisfying the test, none before it satisfies it, and it finds nothing only when no element does |
| Text.Format02OfDigits | extract_all_cheque.py:57 | `f"{int(day):02d}"` gives back a two-digit day unchanged and pads a one-digit day with a zero |
| Scan.SearchFrom | extract_all_cheque.py:22 | `re.search` from a position returns the match at the first position where the pattern matches; it returns nothing only when no position to the end of the text matches |
| Scan.Search | extract_all_cheque.py:22 | `re.search` over the whole text returns the match the pattern makes at its start, no earlier position matches, and it returns nothing only when no position matches |
| Scan.SearchFindsLeftmost | extract_all_cheque.py:22 | if the pattern matches at `i` and nowhere before, `re.search` returns the match at `i` |
| Scan.SearchFindsNothing | extract_all_cheque.py:22-23 | with no matching position, `re.search` returns no match |
| Scan.FirstMatchFrom | extract_all_cheque.py:41-45 | the pattern loop returns the first pattern in list order that matches anywhere, with its leftmost match; every earlier pattern matches nowhere; it returns nothing only when no pattern matches |
| Scan.FindAllFrom | extract_all_cheque.py:27 | `re.findall` from a position: a match is listed and the scan resumes at its end, a failure moves one position on; what the list holds is stated by the `FindAll` lemmas below |
| Scan.FindAll | extract_all_cheque.py:27 | `re.findall` over the whole text, as the list of its matches; see the `FindAll` lemmas below |
| Scan.FindAllSound | extract_all_cheque.py:27 | every match `re.findall` lists is the match the pattern makes at that match's start |
| Scan.FindAllEmptyIff | extract_all_cheque.py:27-28 | `re.findall` finds nothing exactly when no position starts a match |
| Scan.FindAllBeforeFirst | extract_all_cheque.py:27 | no position before the first listed match starts a match |
| Scan.FindAllSuffix | extract_all_cheque.py:27 | after a listed match, the scan resumes at that match's end |
| Scan.FindAllGaps | extract_all_cheque.py:27 | consecutive listed matches do not overlap, and no position between them starts a match |
| Scan.FindAllTail | extract_all_cheque.py:27 | no position after the last listed match starts a match |
| Regex.Boundary | extract_all_cheque.py:37-39 | `\b` between two positions: exactly one neighbour is a word character; `Dates.NumDateBoundedMatch` and `Dates.LetterDateBoundedMatch` state strategy A's matches in terms of it, and `ZeroedOctoberNoMatch` shows it absent between two digits |
| Regex.IfscAt | extract_all_cheque.py:22 | a match of `[A-Z]{4}0[0-9A-Z]{6}` starts at the given position, is non-empty and ends inside the text; which windows it accepts is `Fields.IfscAtIff` |
| Regex.AmountBacktrack | extract_all_cheque.py:27 | when `\d+` gives back digits one at a time, a match found starts at the given position and ends inside the text; `Fields.AmountBacktrackDigits` says where it can succeed |
| Regex.AmountAt | extract_all_cheque.py:27 | a match of `(\d+\.\d{2})` starts at the given position, is non-empty and ends inside the text; what it accepts is `Fields.AmountAtRun` and `Fields.AmountAtComplete` |
| Regex.NumDateBoundedAt | extract_all_cheque.py:37 | a match of the bounded numeric date pattern is well placed in the text; what it accepts is `Dates.NumDateBoundedMatch` |
| Regex.LetterMonthBoundedAt | extract_all_cheque.py:38-39 | a match of either bounded letter-month pattern is well placed in the text; what it accepts is `Dates.LetterDateBoundedMatch` |
| Regex.MonDateGroupsAt | main.py:34 | a match of strategy B's letter-month pattern is well placed and has three groups; what it accepts is `Dates.MonDateGroupsMatch` |
| Regex.NumDateGroupsAt | extract_all_cheque.py:59 | a match of the grouped numeric date pattern is well placed and has three groups; what it accepts is `Dates.NumDateGroupsMatch` |
| Regex.MonDateLooseAt | extract_all_cheque.py:54 | a match of the loose letter-month pattern is well placed and has three groups; what it accepts is `Dates.LooseMatchOfPrefix` and `Dates.LooseMatchHasPrefix` |
| Regex.MatchAt | extract_all_cheque.py:22-59 | whichever of the eight patterns is tried, a match starts at the given position, is non-empty and ends inside the text |
| Fields.IfscAtIff | extract_all_cheque.py:22 | the IFSC pattern matches at a position exactly when the 11 characters there are four capitals, `0`, and six capitals or digits |
| Fields.ExtractIfsc | extract_all_cheque.py:21-23 | `extract_ifsc` returns `""` or a well-formed IFSC code without the letter O |
| Fields.ExtractIfscLeftmost | extract_all_cheque.py:21-23 | the code returned is the leftmost well-formed window of the substituted text |
| Fields.ExtractIfscEmptyIff | extract_all_cheque.py:21-23 | `extract_ifsc` returns `""` exactly when no window of the substituted text is a code |
| Fields.AmountBacktrackDigits | extract_all_cheque.py:27 | when `\d+` backtracks over digits, `\.\d{2}` can succeed only right after the longest run |
| Fields.AmountAtRun | extract_all_cheque.py:27 | the amount pattern matches at a position exactly when the run of digits there is followed by a point and two digits |
| Fields.AmountAtSound | extract_all_cheque.py:27 | what the amount pattern matches is a token: digits, a point, two digits |
| Fields.AmountAtComplete | extract_all_cheque.py:27 | wherever a token starts, the amount pattern matches exactly that token |
| Fields.AmountText | extract_all_cheque.py:26 | the text scanned for amounts contains no comma and no capital O |
| Fields.AmountTokens | extract_all_cheque.py:26-27 | every token the scan lists is well-formed, and the list is empty exactly when the pattern matches nowhere |
| Fields.MaxOf | extract_all_cheque.py:29 | `max` returns one of the values, and no value is larger |
| Fields.AmountCents | extract_all_cheque.py:29 | `float(m)` of a token, in hundredths, is the number its digits spell once the decimal point is taken out |
| Fields.ExtractAmount | extract_all_cheque.py:25-30 | there is no amount exactly when the scan finds no token; otherwise the amount is one token's value, and no token's value is larger; `AmountCents` gives each token's value (`float(m)`) |
| Fields.ExtractAmountNoneIff | extract_all_cheque.py:25-30 | there is no amount exactly when no part of the comma-free, O-to-0 text is a token |
| Fields.ExtractAmountOfTwo | extract_all_cheque.py:29 | of two tokens, the larger value is kept |
| Fields.ExtractIfscExample | extract_all_cheque.py:21-23 | `"IFSC SBIN0OO1234"` yields `"SBIN0001234"`; the misread letters O become zeros |
| Fields.NonOverlapScan | extract_all_cheque.py:27 | the scan of `"1.23.45"` lists only `"1.23"` |
| Fields.ExtractAmountExample | main.py:25-30 | `"1,500.00"` yields 1500.00; the comma is dropped first |
| Fields.ExtractAmountMaxExample | extract_cheque_data.py:24-29 | `"1500.00 200.50"` yields 1500.00, the larger value, although it comes first |
| Dates.MonthNumber | extract_all_cheque.py:49-57 | the month lookup always gives two digits; it gives `"00"` exactly when the first three letters are not in the 12-entry table |
| Dates.MonthTableInOrder | extract_all_cheque.py:49-53 | the q-th month of JAN..DEC is a key of the table, and its entry is the two digits of q + 1 |
| Dates.MonthNumberInOrder | extract_all_cheque.py:49-57 | the month lookup gives the q-th month of JAN..DEC the number `Format02(q + 1)` |
| Dates.LetterMonthDateCanonical | extract_all_cheque.py:57 | a letter-month date renders as padded day, month number and year, in `DD-MM-YYYY` shape |
| Dates.NumericDateCanonical | extract_all_cheque.py:62 | three digit groups of two, two and four digits, joined with dashes, are in `DD-MM-YYYY` shape |
| Dates.LetterMonthDate | extract_all_cheque.py:57 | the f-string of the letter-month branch (also main.py:48); `LetterMonthDateCanonical` states its shape |
| Dates.NumericDate | extract_all_cheque.py:62 | the f-string of the numeric branch (also main.py:50); `NumericDateCanonical` states its shape |
| Dates.LooseMatchOfPrefix | extract_all_cheque.py:54 | a loose letter-month prefix is matched by `re.match` with exactly that day, month and year |
| Dates.LooseMatchHasPrefix | extract_all_cheque.py:54 | whatever the loose pattern matches is such a prefix |
| Dates.LooseMatchGroups | extract_all_cheque.py:54-56 | the captured day has one or two digits, the month has three characters, the year has four digits |
| Dates.NumericPrefixNotLoose | extract_all_cheque.py:54-59 | a numeric date never also matches the letter-month pattern, so the numeric branch is reached |
| Dates.NormalizeDate | extract_all_cheque.py:47-65 | `normalize_date` returns its input unchanged or a date in `DD-MM-YYYY` shape |
| Dates.NormalizeLetterMonth | extract_all_cheque.py:54-57 | with a letter-month prefix of the upper-cased input, the result is padded day, month number (`"00"` if unknown) and year; the rest of the input is dropped |
| Dates.NormalizeLetterBranch | extract_all_cheque.py:54-57 | whenever the loose pattern matches the upper-cased input, the result is its day padded, its month numbered and its year |
| Dates.NormalizeNumeric | extract_all_cheque.py:59-62 | with a numeric prefix, the result is its three groups joined by dashes; the rest of the input is dropped |
| Dates.NormalizeUnchanged | extract_all_cheque.py:65 | input with neither prefix comes back unchanged |
| Dates.NormalizeCanonical | extract_all_cheque.py:59-62 | a date already in `DD-MM-YYYY` shape is a fixed point |
| Dates.NormalizeIdempotent | extract_all_cheque.py:47-65 | normalising twice is the same as normalising once |
| Dates.DateMatchersA | extract_all_cheque.py:36-40 | strategy A's three patterns, in the order they are tried; `ExtractDateAPriority` states that order and `NumDateBoundedMatch` and `LetterDateBoundedMatch` what each accepts |
| Dates.ExtractDateA | extract_all_cheque.py:34-45 | the date strategy A finds never contains a capital O |
| Dates.NumDateBoundedMatch | extract_all_cheque.py:37 | the numeric pattern matches at a position exactly when a `DD-MM-YYYY` or `DD.MM.YYYY` text (either separator in either place) starts there with a word boundary on each side, and the match is those ten characters |
| Dates.LetterDateBoundedMatch | extract_all_cheque.py:38-39 | a letter-month pattern matches at a position exactly when a one- or two-digit day, a separator, three letters, a separator and four digits start there with a word boundary on each side; the match is that date |
| Dates.LetterDayLengthUnique | extract_all_cheque.py:38-39 | no position starts both a one-digit-day and a two-digit-day letter-month date, so trying two day digits first changes nothing |
| Dates.ExtractDateAPriority | extract_all_cheque.py:41-45 | the numeric pattern's leftmost match wins; the dashed letter pattern is used only when the numeric one finds nothing, and the slash pattern only when both find nothing; the result is `""` exactly when none matches |
| Dates.ExtractDateALeftmostNumeric | extract_all_cheque.py:34-44 | the leftmost bounded numeric date of the substituted text is what strategy A returns |
| Dates.ExtractDateALeftmostDash | extract_all_cheque.py:34-44 | with no bounded numeric date anywhere, the leftmost bounded dash-separated letter-month date is returned |
| Dates.ExtractDateALeftmostSlash | extract_all_cheque.py:34-44 | with neither of those anywhere, the leftmost bounded letter-month date with `/` or `-` separators is returned |
| Dates.ExtractDateAEmptyIff | extract_all_cheque.py:34-45 | strategy A returns `""` exactly when the substituted text holds no bounded numeric date and no bounded letter-month date |
| Dates.DateMatchA | extract_all_cheque.py:37-44 | a match of any of strategy A's patterns is a numeric or letter-month date text, found at its start, between two word boundaries |
| Dates.ExtractDateAShape | extract_all_cheque.py:35-44 | a found date is a numeric or letter-month date text that occurs in the substituted text with a word boundary on each side |
| Dates.ExtractDateANoOctNov | extract_all_cheque.py:35-39 | strategy A never returns text containing `OCT` or `NOV` |
| Dates.NormalizeNumDateText | extract_all_cheque.py:59-62 | `normalize_date` turns a numeric date text into its groups joined by dashes |
| Dates.NormalizeLetterDateText | extract_all_cheque.py:54-57 | `normalize_date` turns a letter-month date text into padded day, number of the upper-cased month, and year |
| Dates.DateAOutcome | extract_all_cheque.py:101-102 | the strategy-A date field is `""` or in `DD-MM-YYYY` shape |
| Dates.MonDateGroupsShape | main.py:34 | the letter-month pattern captures a day of one or two digits, three capitals, and four digits |
| Dates.NumDateGroupsShape | main.py:35 | the numeric pattern captures two, two and four digits, and the middle group is not alphabetic |
| Dates.MonDateGroupsMatch | main.py:34 | the letter-month pattern matches at a position exactly when a one- or two-digit day, one of `-/.`, three capitals, one of `-/.` and four digits start there; its groups are the day, the month and the year |
| Dates.NumDateGroupsMatch | main.py:35 | the numeric pattern matches at a position exactly when a numeric date starts there; its groups are the day, the month and the year |
| Dates.DatePatternsB | main.py:33-36 | main.py's two patterns, in the order they are tried; `ExtractDateBCases` states that order and `MonDateGroupsMatch` and `NumDateGroupsMatch` what each accepts |
| Dates.RenderDateB | main.py:47-50 | the formatting step: an alphabetic month goes through the month table with the day padded, otherwise the groups are joined with dashes |
| Dates.ExtractDateBFrom | main.py:42-51 | the pattern loop from a given pattern on; its results are stated by `ExtractDateBCases` |
| Dates.ExtractDateB | main.py:32-51 | main.py's `extract_date` on the upper-cased text; its results are stated by the lemmas below |
| Dates.ExtractDateBCases | main.py:42-51 | the leftmost letter-month match wins and renders as padded day, month number and year; only when there is none does the leftmost numeric match render as its groups joined by dashes; otherwise the result is `""` |
| Dates.ExtractDateBShape | main.py:46-51 | strategy B's date is `""` or in `DD-MM-YYYY` shape |
| Dates.SearchLetterLeftmostB | main.py:43 | `re.search` with the letter-month pattern returns the leftmost such date, with day, month and year as groups |
| Dates.ExtractDateBLeftmostLetter | main.py:42-48 | the leftmost letter-month date of the upper-cased text is what strategy B renders, day padded and month numbered |
| Dates.SearchNumericLeftmostB | main.py:43 | with no letter-month date anywhere, the letter-month search finds nothing and the numeric search returns the leftmost numeric date |
| Dates.ExtractDateBLeftmostNumeric | main.py:42-50 | with no letter-month date anywhere, the leftmost numeric date is returned with dashes for its separators |
| Dates.ExtractDateBEmptyIff | main.py:42-51 | strategy B returns `""` exactly when the upper-cased text holds neither kind of date |
| Dates.NormalizeCapitalLetterMonth | extract_all_cheque.py:54-57 | the letter-month branch on capital input with one separator on each side of the month |
| Dates.NormalizeExampleShortDay | extract_all_cheque.py:54-57 | `"5-JAN-2023"` becomes `"05-01-2023"` |
| Dates.NormalizeExampleLowerCase | extract_all_cheque.py:54-57 | `"12 mar 2024"` becomes `"12-03-2024"`: the input is upper-cased and a space is a separator |
| Dates.NormalizeExampleNumeric | extract_all_cheque.py:59-62 | `"05.01.2023"` becomes `"05-01-2023"` |
| Dates.NormalizeExampleUnknownMonth | extract_cheque_data.py:53-56 | `"5-XYZ-2023"` becomes `"05-00-2023"` |
| Dates.NormalizeExampleNoDate | extract_all_cheque.py:65 | `"garbage"` and `""` come back unchanged |
| Dates.ExtractDateAExample | extract_all_cheque.py:34-45 | strategy A finds `"05.01.2023"` after the label in `"DATE 05.01.2023"`, and normalisation gives `"05-01-2023"` |
| Dates.OctoberStrategyA | extract_all_cheque.py:35-44 | strategy A finds no date in `"12-OCT-2023"` |
| Dates.OctoberStrategyB | main.py:42-48 | strategy B reads `"12-OCT-2023"` as `"12-10-2023"` |
| Banks.BankOfCode | extract_all_cheque.py:76-82 | the prefix lookup gives a known bank or `"Unknown"`; it gives `"Unknown"` exactly when the first four characters are not a listed code |
| Banks.NamedBank | extract_all_cheque.py:72-74 | the loop over the known banks stops at the first name that occurs in the text; no earlier name occurs; it finds none only when no name occurs |
| Banks.ExtractBankName | extract_all_cheque.py:67-84 | the bank is one of the eight known names or `"Unknown"` |
| Banks.ExtractBankNameByText | extract_all_cheque.py:72-74 | the first known name in list order that occurs in the text wins, whatever the code says |
| Banks.ExtractBankNameByCode | extract_all_cheque.py:81-84 | with no known name in the text, a non-empty code decides through the prefix table, and an empty code gives `"Unknown"` |
| Banks.PrefixBanksCoverKnownBanks | extract_all_cheque.py:68-80 | the prefix table maps onto exactly the eight known names, one code per bank |
| Banks.ExampleNamedInText | extract_all_cheque.py:72-74 | `"PAY ICICI BANK LTD"` names ICICI BANK |
| Banks.ExampleByCode | extract_cheque_data.py:75-83 | with no name in the text, SBIN gives STATE BANK OF INDIA, and ZZZZ or an empty code gives `"Unknown"` |
| Regions.ClipRange | extract_all_cheque.py:17 | a numpy slice `[start:stop]` of an axis selects exactly the indices of `start..stop` that exist on the axis; it is kept when it fits, and empty when it starts past the end |
| Regions.CropAround | extract_all_cheque.py:16-17 | the crop's rows are exactly the rows from the word's top to 40 below its bottom that exist in the image, and its columns exactly the 250 columns from its left edge that exist |
| Regions.LocateTemplateRegion | extract_all_cheque.py:10-18 | there is no region exactly when no word contains the keyword, ignoring case; otherwise the region is a crop inside the image |
| Regions.LocateFirstMention | extract_all_cheque.py:14-17 | the crop is taken around the first word, in list order, that mentions the keyword |
| Regions.MentionsKeyword | extract_all_cheque.py:15 | a word mentions the keyword when the upper-cased keyword occurs in the upper-cased word; see `MentionIgnoresCase` |
| Regions.CropInsideImage | extract_all_cheque.py:17 | when it fits, the crop starts at the word's top-left corner; it is the word's height plus 40 rows tall and 250 columns wide |
| Regions.CropOutsideImage | extract_all_cheque.py:17 | a word past the right or bottom edge gives an empty crop, which still counts as a region |
| Regions.MentionIgnoresCase | extract_all_cheque.py:15 | keyword matching is unaffected by upper-casing the keyword or the word |
| Pipeline.FullText | extract_all_cheque.py:89 | the full text keeps the OCR text's length and holds no lower-case letter |
| Pipeline.RegionText | extract_all_cheque.py:95-97 | every field parser is given text with no lower-case letter; where that text comes from (the crop's OCR or the full text) is stated field by field by `FieldSources` and `MainDateSource` |
| Pipeline.FieldSources | extract_all_cheque.py:91-100 | in every pipeline the IFSC code is read from the upper-cased OCR of the IFSC crop when a word mentions IFSC and from the full text otherwise, and the amount likewise from the RUPEES crop, each independently of the other keywords; main.py reads both the same way (main.py:77-86) |
| Pipeline.IfscOf | extract_all_cheque.py:95-99 | the IFSC field of every pipeline is empty or a well-formed code |
| Pipeline.AmountOf | extract_all_cheque.py:96-100 | the amount field is absent exactly when the RUPEES text holds no amount token, and otherwise one of the token values |
| Pipeline.ProcessChequeBatch | extract_all_cheque.py:87-111 | the batch record carries the given file name and is well formed: IFSC empty or valid, bank known or Unknown, date empty or `DD-MM-YYYY` |
| Pipeline.ProcessChequeImageFile | extract_cheque_data.py:86-113 | the upload record carries the upload's name and is well formed |
| Pipeline.ProcessChequeMain | main.py:73-96 | the main.py record carries the given file name and is well formed |
| Pipeline.MainDateSource | main.py:79-87 | main.py reads the date from the OCR of the DATE crop when a word mentions DATE, and from the full text otherwise |
| Pipeline.ProcessChequeA | extract_all_cheque.py:87-111 | every strategy-A record carries the given file name and is well formed: IFSC empty or valid, bank known or Unknown, date empty or `DD-MM-YYYY` |
| Pipeline.BankFromCode | extract_all_cheque.py:103 | for any file name, with no known name in the full text, all pipelines take the bank from the code's first four characters, and it is Unknown exactly when those are not a listed code |
| Pipeline.NoRegionsFound | extract_all_cheque.py:95-102 | with no keyword on the page, every field is read from the full text, in both strategies |
| Pipeline.DateAUsesFullTextOnly | extract_all_cheque.py:101 | the strategy-A date depends on the full text alone: two pages with the same full text get the same date, whatever their file names, words, sizes or crop OCR |
| Pipeline.PipelinesAgree | extract_all_cheque.py:99-111 | the two strategy-A pipelines give the same record; main.py differs from them only in the date |

## Left out

- Image reading and OCR: `cv2.imread`, `cv2.imdecode`, the numpy byte conversion, `cvtColor`, `image_to_string` and `image_to_data` are foreign calls. A cheque is given by what OCR reports: the page text, the word list with boxes, the image size, and a function from a crop to its text.
- Fields.ExtractAmount: returns the largest value as a whole number of hundredths, or `None` where the source returns `""`. The `str(float)` rendering (`"1500.0"`) and float precision on long digit runs are not modelled.
- Regex.IfscAt: its own contract only places the match; what it accepts is proved in `Fields.IfscAtIff`, because the window predicate belongs to module Fields.
- Regex.AmountBacktrack: its own contract only places the match; where it can succeed is proved in `Fields.AmountBacktrackDigits`.
- Regex.AmountAt: its own contract only places the match; what it accepts is proved in `Fields.AmountAtRun` and `Fields.AmountAtComplete`.
- Regex.NumDateBoundedAt: its own contract only places the match; what it accepts is proved in `Dates.NumDateBoundedMatch`.
- Regex.LetterMonthBoundedAt: its own contract only places the match; what it accepts is proved in `Dates.LetterDateBoundedMatch`.
- Regex.MonDateGroupsAt: its own contract only places the match and counts its groups; what it accepts is proved in `Dates.MonDateGroupsMatch`.
- Regex.NumDateGroupsAt: its own contract only places the match and counts its groups; what it accepts is proved in `Dates.NumDateGroupsMatch`.
- Regex.MonDateLooseAt: its own contract only places the match and counts its groups; what it accepts is proved in `Dates.LooseMatchOfPrefix` and `Dates.LooseMatchHasPrefix`.
- Regex.MatchAt: its own contract only places the match; the lemmas named above say what each pattern accepts.
- Regex matchers (module Regex): only the eight patterns the scripts use are modelled, each by its own matcher. There is no general regular-expression engine.
- Character classes: only ASCII is modelled. `\d`, `\w` and `\b` cover ASCII digits, letters and `_`; `\s` covers the ASCII white space Python recognises; `upper()` changes only `a`-`z`. Unicode digits, letters and case mappings are out of scope.
- The `try`/`except` in `normalize_date`: nothing in its body can raise for ASCII input, so the function is modelled as total.
- Box coordinates are natural numbers, because the OCR engine reports none below zero. numpy's negative-index slicing is not modelled.
- The unused DATE-region OCR in the two strategy-A pipelines: it has no effect on the record, so the model does not compute it.
- `os.path.basename` in `extract_all_cheque.py` and `main.py`: platform-dependent path handling. The file name is an input.
- `append_to_excel` and `process_folder` in `main.py`, and the call at its end: file-system and spreadsheet I/O, directory order and printing.
- app.py is not part of this model. It holds the web interface, spreadsheet storage, and duplicate removal based on pandas float semantics.
- The commented-out batch and spreadsheet code at the end of `extract_all_cheque.py`.
