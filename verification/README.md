# SACJ debt-agreement core, modelled in Dafny

SACJ is a web application for condominium debt collection. A user uploads a
delinquency report, as a PDF or XML file. The application reads the debtor,
the amounts and the overdue instalments out of it. It then simulates an
agreement: late-payment interest, penalty, monetary correction, the lawyer's
fee, a down payment and a monthly instalment schedule. A form lets the user
edit the debtor, and it masks the CPF/CNPJ (Brazilian tax number) as they type.

This project models that core as pure Dafny functions and proves what the
code promises about them:

- `wrappers.dfy`, `chars.dfy`, `numbers.dfy`, `scan.dfy`: the JavaScript
  building blocks the core relies on. These are the white-space and digit
  classes, `trim`, `split`, `toUpperCase`, `parseFloat`/`parseInt`, and the
  leftmost-first search that `String.prototype.match` performs.
- `dates.dfy`: `Date` as a year, a month index and a day, with the
  ECMAScript day number (MakeDay) and a time of day. `setMonth` is modelled
  as `AddMonths`.
- `amounts.dfy`, `amount_facts.dfy`, `amount_format.dfy`: `extractAmount`.
  - the labelled-total patterns and the bare-amount patterns, as recognisers;
  - the normalisation `replace(/\./g, '').replace(',', '.')`;
  - the proofs about what the extractor reads.
- `extractors.dfy`: `extractDate` and `extractCpfCnpj`.
- `debt_rows.dfy`: the six debt-row patterns of `parsePDF`, each scanned
  like a global `exec` loop, and the way their items are gathered.
- `documents.dfy`: the `ParsedDocument` record.
- `pdf_parser.dfy`: `parsePDF` from the extracted text onwards.
- `xml_parser.dfy`: `parseXML` from the parsed XML tree onwards, including
  `searchInObject`.
- `calculations.dfy`: every function of `calculations.ts` except the two
  display formatters.
- `cpf_mask.dfy`: `formatCpfCnpj` and `handleChange` of the debtor form.

A regular expression is modelled as a recogniser that says whether the
pattern matches at a given position and what its groups capture. A search
returns the first position where the recogniser succeeds. Each
recogniser's doc comment says how backtracking plays out. Where a greedy
run can give characters back and so let a later part succeed, the
recogniser tries the lengths in the order the engine does. An example is
the white space before a lazy description in `DebtRows.SpaceThenDesc`.

Where the code and its own comments or documentation disagree, the model
follows the code:

- `extractDate` accepts any two-digit day and month and lets `new Date`
  roll them over. It does not reject impossible calendar dates.
- In `parsePDF`, a `unit - NAME` line may overwrite a unit already found by
  a unit label, as long as no debtor name is known yet
  (src/lib/parsers.ts:126-130). `PdfParser.LineStepUnit` states exactly
  when this happens.
- A debt row matched by the first row pattern may be matched again by the
  second one and counted twice. The gathering loop only stops once more than
  one item has been found. The model keeps this.
- Text such as `1234,56`, with no thousands dot, reads as 234.56. The
  grouped pattern (src/lib/parsers.ts:11) has no `\b` before its digits, so
  it matches from the second digit on, before the pattern for ungrouped
  amounts gets a turn. `AmountFormat.UngroupedCommaReadsShort` states this,
  and the rest of the model keeps it.

## Model

| member | source | states |
|---|---|---|
| Chars.Trim | src/lib/parsers.ts:95 | `trim()` gives a text with no white space at either end, no longer than the input |
| Chars.TrimIsSlice | src/lib/parsers.ts:95 | trimming only removes white space at the two ends: the result is a slice with only white space around it |
| Chars.Split | src/lib/parsers.ts:95 | `split(sep)` gives at least one piece, no piece contains the separator, and the pieces joined with the separator give back the text |
| Chars.SplitOfJoin | src/lib/parsers.ts:95 | pieces without the separator, joined with it, split back into the same pieces |
| Chars.SplitFirst | src/lib/parsers.ts:134 | a first piece without the separator, then the separator: that piece is the first of the split and the rest is split on |
| Chars.OnlyDigits | src/components/DebtorForm.tsx:16 | `replace(/\D/g, '')` keeps only digits and never lengthens the text |
| Chars.OnlyDigitsAppend | src/components/DebtorForm.tsx:16 | taking the digits splits over concatenation |
| Chars.Utf16Length | src/lib/parsers.ts:91 | JavaScript's `length` counts at least one and at most two units per character, and equals the character count exactly when every character is in the Basic Multilingual Plane |
| Chars.NameTextLength | src/lib/parsers.ts:100 | a text of the name class `[A-ZÁÀÂÃÉÊÍÓÔÕÚÇ\s]` has as many UTF-16 units as characters |
| Numbers.ParseFloatOfDecimal | src/lib/parsers.ts:27 | `parseFloat` of `digits.digits` is the decimal those digits spell |
| Numbers.ParseFloatOfDigits | src/lib/parsers.ts:27 | `parseFloat` of a digit string is its value |
| Numbers.ParseIntOfDigits | src/lib/parsers.ts:57-59 | `parseInt` of a digit string is its value |
| Dates.AddMonths | src/lib/calculations.ts:118-119 | `setMonth(getMonth() + n)` gives the record `new Date(year, month + n, day)` with the year carried: its month count moves by exactly n, it keeps the day of the month and the time of day, and it is a real calendar date when that day exists in the target month |
| Dates.AddMonthsDay | src/lib/calculations.ts:118-119 | the moved date is the same calendar day as `new Date(year, month + n, day)`, overflow rolled into the next month |
| Dates.DayNumberNextMonth | src/lib/calculations.ts:118-119 | one month on, the day number grows by the length of that month |
| Amounts.GroupedAt | src/lib/parsers.ts:11 | the money capture `\d{1,3}(?:\.\d{3})*,\d{2}`, when it matches, has the grouped shape |
| Amounts.AmountAt | src/lib/parsers.ts:10-21 | every amount pattern's capture at a position has the shape its pattern demands |
| Amounts.FirstAmountMatch | src/lib/parsers.ts:24 | `text.match(pattern)` returns a capture of the pattern's shape inside the text, the one found at the leftmost matching position; it returns nothing exactly when no position matches |
| Amounts.RemoveDots | src/lib/parsers.ts:26 | `replace(/\./g, '')` leaves no dot |
| AmountFacts.GroupedParses | src/lib/parsers.ts:26-27 | a `#.###,dd` capture, normalised, parses to the amount it shows |
| AmountFacts.CommaParses | src/lib/parsers.ts:35-36 | a `d,dd` capture, normalised, parses to the amount it shows |
| AmountFacts.DottedParses | src/lib/parsers.ts:32-38 | a `d.dd` capture parses to its value as it stands, but to 100 times that value once its dot is removed |
| AmountFacts.FirstMatchingPatternWins | src/lib/parsers.ts:23-39 | patterns are tried in order and the first that matches anywhere gives the amount, read from its capture |
| AmountFacts.NothingMatches | src/lib/parsers.ts:23-41 | the extractor returns nothing exactly when no pattern matches anywhere |
| AmountFacts.TotalsBeforeBareAmounts | src/lib/parsers.ts:17-30 | a labelled total wins over any bare amount, and there the code as written and the corrected reading agree |
| AmountFacts.ExtractAmountIsCents | src/lib/parsers.ts:8-42 | every amount the extractor returns, as written or corrected, is a whole number of cents and not negative |
| AmountFacts.MatchedValue | src/lib/parsers.ts:32-41 | when the first pattern matches, the result is its capture's value, and exactly a hundred times that value when it is read as written and the pattern is the dotted decimal |
| AmountFormat.FormatThenExtract | src/lib/parsers.ts:8-42 | a Brazilian-formatted amount (`1.234,56`) is read back as that amount, as written and corrected alike |
| AmountFormat.UngroupedCommaReadsShort | src/lib/parsers.ts:11-13 | a digit followed by `xxx,dd` is matched by the grouped pattern from its second digit and reads as `xxx.dd`, as written and corrected alike |
| AmountFormat.LeftmostIsFirst | src/lib/parsers.ts:33 | a match with no match of the same pattern before it is the one `text.match` returns |
| AmountFormat.GroupedTextReadsBack | src/lib/parsers.ts:18-30 | text that is one grouped amount and nothing else reads as that amount, as written and corrected alike |
| AmountFormat.NoTotalInMoneyText | src/lib/parsers.ts:18-20 | no labelled-total pattern matches text made only of digits, dots and commas |
| AmountFormat.DottedAmountAsWritten | src/lib/parsers.ts:32-38 | as written, `ds.dd` reads as 100 times the decimal it spells |
| AmountFormat.DottedAmountCorrected | src/lib/parsers.ts:9-12 | corrected, `ds.dd` reads as the decimal it spells |
| AmountFormat.DottedAmountExample | src/lib/parsers.ts:8-42 | `1234.56` reads as 123456 as written and as 1234.56 corrected |
| Extractors.DateAt | src/lib/parsers.ts:48-52 | a date pattern matches at a position exactly when the text there fits its digit mask (and, for `DD/MM/YY`, a word boundary follows), with its three groups |
| Extractors.FirstDateMatch | src/lib/parsers.ts:55 | a date pattern's result is its match at the leftmost matching position, and it finds nothing exactly when it matches at no position |
| Extractors.ExtractDateBy | src/lib/parsers.ts:54-66 | no date is returned exactly when no pattern matches |
| Extractors.FirstDatePatternWins | src/lib/parsers.ts:54-63 | the first pattern that matches anywhere gives the date |
| Extractors.FormatThenExtractDate | src/lib/parsers.ts:47-67 | a valid date of a year from 100 to 9999, written `DD/MM/YYYY`, is read back as that date |
| Extractors.ShortYearIsTwoThousands | src/lib/parsers.ts:51-61 | `DD/MM/YY` is read with the year in the 2000s |
| Extractors.CpfCnpjAt | src/lib/parsers.ts:73 | the alternation matches at a position exactly when a CPF or a CNPJ layout is there, the CPF tried first |
| Extractors.ExtractCpfCnpj | src/lib/parsers.ts:72-76 | the result fits the CPF or CNPJ layout and is the leftmost match; nothing is returned exactly when no layout occurs |
| Extractors.CpfCnpjReadsBack | src/lib/parsers.ts:72-76 | a lone CPF or CNPJ is extracted as itself |
| DebtRows.SpaceThenDesc | src/lib/parsers.ts:163 | after a white-space run, the description starts inside or just after the run and is followed by a money group |
| DebtRows.SpaceThenDescOrder | src/lib/parsers.ts:163 | the greedy run gives white space back one character at a time: the description starts at the longest start that leads to a money group, and there is no match exactly when no start does |
| DebtRows.DatedRowGivesSpaceBack | src/lib/parsers.ts:163 | in `01/02/2024   1.234,56` the run gives two spaces back, so the description is one space and the amount is `1.234,56` |
| DebtRows.RowAt | src/lib/parsers.ts:161-168 | a row pattern's match starts where it was tried, lies in the text and has that pattern's groups and value shape |
| DebtRows.Matcher | src/lib/parsers.ts:170-173 | every match ends after it starts, so the `exec` loop advances |
| DebtRows.MatchesOf | src/lib/parsers.ts:172-173 | the `exec` loop finds matches in order, each the first from where the last ended, and skips none |
| DebtRows.ItemKept | src/lib/parsers.ts:194-221 | a match keeps its item exactly when its amount is positive and its date reads, and the item carries that amount |
| DebtRows.ThreePartDate | src/lib/parsers.ts:200-204 | `dd/mm/yyyy` in a row reads as that day, two-digit years in the 2000s |
| DebtRows.NamedMonthDate | src/lib/parsers.ts:205-214 | `mmm/yyyy` with a Portuguese month abbreviation, in any case, reads as the first of that month |
| DebtRows.NumericMonthDate | src/lib/parsers.ts:210-214 | `mm/yyyy` reads as the first of month mm |
| DebtRows.CollectRows | src/lib/parsers.ts:170-225 | the items are those of the patterns in table order, up to and including the first pattern that brings the total above one item |
| DebtRows.CollectedPositive | src/lib/parsers.ts:197 | every gathered item has a positive amount |
| DebtRows.SumPositive | src/lib/parsers.ts:230 | a non-empty list of positive amounts sums to a positive total |
| PdfParser.Lines | src/lib/parsers.ts:95 | every line is non-empty and already trimmed |
| PdfParser.LinesOfJoin | src/lib/parsers.ts:95 | a line break splits the lines into those before it and those after it |
| PdfParser.StripCodeOf | src/lib/parsers.ts:114 | a leading code and the white space after it are removed |
| PdfParser.StripCountOf | src/lib/parsers.ts:115 | a trailing `(digits)` is removed |
| PdfParser.CondoName | src/lib/parsers.ts:110-123 | the condominium name comes from the first of the first ten lines that offers one |
| PdfParser.CondoOnlyFirstTen | src/lib/parsers.ts:110 | lines after the tenth never change the condominium name |
| PdfParser.DebtorRowOfJoin | src/lib/parsers.ts:126-130 | a unit, ` - ` and a name in capitals make a debtor line that yields that unit and that name |
| PdfParser.LabelledAt | src/lib/parsers.ts:99-100 | a label alternation at a position succeeds through one of its labels, and fails only when every label fails |
| PdfParser.LabelledAtFirst | src/lib/parsers.ts:99-100 | the first label that succeeds decides the capture |
| PdfParser.LabelledGroupAt | src/lib/parsers.ts:132-140 | the leftmost position where a labelled pattern matches decides the capture |
| PdfParser.LabelledText | src/lib/parsers.ts:132-140 | a name capture has at least five capitals or spaces; a unit capture starts with a digit |
| PdfParser.NameLabelledText | src/lib/parsers.ts:132-134 | `Nome: ` followed by a name in capitals captures that name |
| PdfParser.UnitLabelledText | src/lib/parsers.ts:138-140 | `Apto ` followed by a unit captures that unit |
| PdfParser.RowStep | src/lib/parsers.ts:126-130 | a debtor line sets name and unit only while no name is known |
| PdfParser.NameStep | src/lib/parsers.ts:132-136 | a labelled name, cut at the first line break and the first `-` and trimmed, sets the name exactly when no name is known and it is longer than three; the unit never changes |
| PdfParser.UnitStep | src/lib/parsers.ts:138-141 | a labelled unit sets the unit only while none is known |
| PdfParser.LineStepKeepsName | src/lib/parsers.ts:125-142 | once a name is known a line never replaces it, and with a unit known as well nothing changes |
| PdfParser.LineStepUnit | src/lib/parsers.ts:125-142 | a known unit changes only through a debtor line read while no name is known |
| PdfParser.ScanLinesAppend | src/lib/parsers.ts:125 | scanning the lines splits at any point into scanning the head and then the rest |
| PdfParser.ScanLinesKeepsName | src/lib/parsers.ts:125-142 | the first name found is the name the scan returns |
| PdfParser.ScanPrefixName | src/lib/parsers.ts:125-142 | a name found within the first lines is the name of the whole scan |
| PdfParser.FallbackName | src/lib/parsers.ts:146-157 | the fallback name is the first line of 8 to 50 capitals, spaces and hyphens without a condominium keyword or report word |
| PdfParser.DebtorName | src/lib/parsers.ts:145 | the scan's name is kept when there is one, otherwise the fallback's |
| PdfParser.FallbackOnlyWithoutName | src/lib/parsers.ts:145 | the fallback changes the name only when the scan found none |
| PdfParser.AmountOf | src/lib/parsers.ts:227-232 | with items and no non-zero amount in the text, the amount is the items' sum; otherwise it is the text's |
| PdfParser.ParsePdfTextTooShort | src/lib/parsers.ts:91-93 | under either reading of the amount, the text is refused as having no digital text exactly when it has fewer than 50 characters once trimmed |
| PdfParser.ParsePdfTextNothing | src/lib/parsers.ts:235-237 | under either reading of the amount, a long enough text fails exactly when neither a name nor an item is found |
| PdfParser.ParsePdfTextAmount | src/lib/parsers.ts:227-232 | under either reading of the amount, when items are reported they are non-empty and positive, and the amount is present and not zero |
| PdfParser.ParsePdfTextReadings | src/lib/parsers.ts:104 | `extractAmount` as written and the corrected reading give the same outcome and the same document except for its amount |
| XmlParser.Lookup | src/lib/parsers.ts:254 | an object has a value for a key exactly when one of its fields carries that key |
| XmlParser.SearchSound | src/lib/parsers.ts:252-262 | whatever `searchInObject` returns is stored under the key somewhere in the tree |
| XmlParser.SearchComplete | src/lib/parsers.ts:252-262 | when a truthy value is stored under the key anywhere in the tree, `searchInObject` finds one |
| XmlParser.SearchAny | src/lib/parsers.ts:264-279 | each chain of `searchInObject` calls joined by or, over candidate keys, returns the first key's result that is found |
| XmlParser.ItemsOfAppend | src/lib/parsers.ts:281-285 | the map-then-filter over items splits over concatenation, so items are kept in order |
| XmlParser.ItemsOfFrom | src/lib/parsers.ts:281-285 | every kept item is made by some element of the list |
| XmlParser.ItemOfKept | src/lib/parsers.ts:282-285 | an element is kept exactly when its amount parses and its date reads; its description defaults to `Parcela` |
| XmlParser.ParseXmlFields | src/lib/parsers.ts:270-286 | unit and condominium are never set; the items are present exactly when the first list key found holds a list, and are its kept items; the name and the CPF/CNPJ are present exactly when one of their keys finds a value, the name as that value's text |
| XmlParser.CommaAmountOfValue | src/lib/parsers.ts:266 | a text amount with a decimal comma reads as that decimal |
| Calculations.DaysLate | src/lib/calculations.ts:6-9 | whole days from due date to agreement, rounded down and never negative |
| Calculations.DaysLateWholeDays | src/lib/calculations.ts:6-9 | an agreement n days after the due date at the same time of day is n days late |
| Calculations.PercentFacts | src/lib/calculations.ts:28-52 | a percentage is additive in its base; 100 % gives the base and 0 % gives nothing |
| Calculations.Juros | src/lib/calculations.ts:15-22 | interest is principal × monthly rate × days late / 3000, a thirtieth of the monthly rate per day; thirty days cost exactly one monthly percentage |
| Calculations.JurosLinear | src/lib/calculations.ts:15-22 | interest is zero without delay, one monthly rate for 30 days, and additive over periods |
| Calculations.JurosMonotone | src/lib/calculations.ts:15-22 | interest does not fall as the delay grows |
| Calculations.Multa | src/lib/calculations.ts:28-30 | the penalty is rate per cent of the principal: not negative for a non-negative principal and rate, and never above the principal at rates up to 100 % |
| Calculations.Correcao | src/lib/calculations.ts:36-41 | the correction is the index, in per cent, of the principal: not negative for non-negative inputs, and at most the principal for an index up to 100 % |
| Calculations.Honorarios | src/lib/calculations.ts:47-52 | the fee is rate per cent of its base: not negative for non-negative inputs, and at most the base at rates up to 100 % |
| Calculations.MultaQuebraAcordo | src/lib/calculations.ts:135-140 | the breach penalty is rate per cent of the remaining balance: not negative for non-negative inputs, and at most the balance at rates up to 100 % |
| Calculations.InstallmentValue | src/lib/calculations.ts:81-84 | with instalments, the down payment plus the instalments pay the total exactly; without, the value is 0 |
| Calculations.GerarParcelas | src/lib/calculations.ts:110-129 | instalment i falls i months after the agreement on the same day and time, numbered from 1, all with the same amount, one per instalment |
| Calculations.ScheduleDates | src/lib/calculations.ts:118-119 | each due date is the agreement day i months on, overflow rolled as `new Date` rolls it |
| Calculations.ScheduleMonthly | src/lib/calculations.ts:117-119 | consecutive instalments name consecutive months; when the agreement's day is the 28th or earlier, every instalment is a real date, so they fall in consecutive calendar months |
| Calculations.ScheduleOverflow | src/lib/calculations.ts:117-119 | from 31 January 2024 the first instalment is 31 February, which is 2 March, and the second is 31 March: two instalments in the same calendar month |
| Calculations.TotalAcordoParts | src/lib/calculations.ts:57-105 | the inputs are echoed, the fee is charged on principal, penalty, interest and correction together, and down payment plus instalments pay the total |
| Calculations.TotalAcordoOnTime | src/lib/calculations.ts:64-68 | an agreement on or before the due date has no interest |
| Calculations.TotalAcordoMonotone | src/lib/calculations.ts:57-78 | with non-negative principal and rates, a later agreement never costs less |
| CpfMask.ReplaceFirstAt | src/components/DebtorForm.tsx:19-27 | a non-global `replace` rewrites only the leftmost match |
| CpfMask.MaskDigitsLayout | src/components/DebtorForm.tsx:17-27 | up to 11 digits get the CPF punctuation `###.###.###-##` and 12 to 14 digits the CNPJ punctuation `##.###.###/####-##`, each separator appearing once a digit follows it |
| CpfMask.FormatCpfCnpjLayout | src/components/DebtorForm.tsx:15-28 | the formatted value is that layout of the first 14 digits typed |
| CpfMask.FormatCpfCnpjDigits | src/components/DebtorForm.tsx:15-28 | the formatted value's digits are exactly the first 14 digits typed |
| CpfMask.FormatCpfCnpjIdempotent | src/components/DebtorForm.tsx:15-28 | formatting a formatted value changes nothing |
| CpfMask.FormatCpfCnpjFitsMask | src/components/DebtorForm.tsx:15-28 | the result is a prefix of the CPF or CNPJ mask with digits in place of `#`, and the whole mask for 11 or for 14 or more digits |
| CpfMask.FormatCpfCnpjReadsBack | src/components/DebtorForm.tsx:15-28 | a complete CPF or CNPJ typed into the form is read back by `extractCpfCnpj` as shown |
| CpfMask.HandleChangeFields | src/components/DebtorForm.tsx:30-37 | the edited field takes the entered value and every other field is unchanged |
| CpfMask.HandleChangeCpfCnpj | src/components/DebtorForm.tsx:30-34 | the CPF/CNPJ field holds the first 14 digits typed, masked, and re-entering it changes nothing |

## Left out

- Reading the PDF bytes (`pdf-parse`), the console logging and the
  re-thrown exceptions. `PdfParser.ParsePdfText` starts from the extracted
  text and returns its two errors as values. Its flag chooses how the amount
  is read: `false` is `extractAmount` as written, `true` is the corrected
  reading of the finding below.
- Tokenising XML (`fast-xml-parser`). `XmlParser` starts from the parsed
  tree.
  - A number leaf carries its value and the text `String()` gives for it.
    The model does not tie the two together; the tree's builder must keep them
    consistent.
  - An array's text is its elements' texts joined by commas.
  - An object's text is `[object Object]`.
  - Attribute keys are plain keys, with the `@_` prefix in the name.
- XmlParser.ItemOf: an item's description is stored as text (`String()` of
  the value found), not as the raw value.
- Time zones and daylight saving. A date is a calendar day plus a time of
  day in milliseconds, in one fixed zone.
- `Date.getTime()` validity checks (`isNaN(date.getTime())`). Every date
  the recognisers build is a finite date, so the checks never fail here.
- Floating point. Amounts and rates are exact reals, so rounding in
  `parseFloat`, in the percentages and in the instalment division is not
  modelled.
- Numbers.ParseFloat: the literals `Infinity`, `+Infinity` and `-Infinity`
  are not read. JavaScript parses them as infinities; the model has exact
  reals only and returns no number. So `XmlParser.AmountOfValue` drops an
  XML amount or item amount written `Infinity`, which `parseXML` keeps
  because it is not `NaN`. A literal too large for a double (`1e400`) is
  also read as its exact value rather than as an infinity.
- Calculations.GerarParcelas: the count of instalments is an integer. A
  fractional `numeroParcelas` (the form parses an integer) is not modelled.
- Calculations.TotalAcordoMonotone: proved only for a non-negative
  principal, interest rate and fee rate. With negative rates the total can
  fall.
- Calculations.ScheduleMonthly: consecutive calendar months are promised
  only for an agreement day up to the 28th. A later day that the target
  month lacks rolls into the following month, as `setMonth` does. Two
  instalments can then share a month (`Calculations.ScheduleOverflow`).
- Calculations.DaysLate: the agreement and due dates are the model's dates.
  Invalid `Date` objects (`NaN` times) are not modelled.
- `formatarMoeda` and `formatarData` (`Intl` formatting for display).
- The React rendering of the debtor form; only `formatCpfCnpj` and
  `handleChange` are modelled. `onChange` is the function's result.
- PdfParser.ParsePdfTextTooShort: text lengths count characters, not UTF-16
  code units (`Chars.Utf16Length`). A character outside the Basic
  Multilingual Plane (an emoji, say) counts once here and twice in
  JavaScript. This changes `text.trim().length < 50` (src/lib/parsers.ts:91),
  which sees the whole text: near the bound the model can refuse a text the
  source accepts.
- PdfParser.CondoName: the same gap at `name.length > 5`
  (src/lib/parsers.ts:118), which sees the raw line with its code and count
  removed. For the line `VILA😀` the source takes `VILA😀` as the condominium
  name (length 6 in UTF-16), but the model's length is 5, so it gives no
  name. The other length checks are exact: the labelled name at
  `name.length > 3` (src/lib/parsers.ts:135) is cut from a capture of the
  name class, and the fallback's 8 to 50 (src/lib/parsers.ts:147) counts a
  line of capitals, spaces and dashes. Those classes hold only characters
  of the Basic Multilingual Plane (`Chars.NameTextLength`).
- Case-insensitive matching and `toUpperCase`/`toLowerCase` follow ASCII and
  Latin-1. These are the characters the patterns' classes and keywords
  use. Other scripts are not folded.
- Chars.UpperString: beyond ASCII and Latin-1 (where `ß` becomes `SS`),
  only `ı` and `ſ` are upper-cased. JavaScript also upper-cases other
  characters to text holding ASCII letters, which the model keeps as they
  are. These are
  the Latin ligatures `ﬀ` to `ﬆ` (`ﬁ` becomes `FI`), `ŉ`, `ǰ` and `ẖ` to
  `ẚ`. A line spelling `EDIFICIO` with the `ﬁ` ligature is a condominium
  line in the source but not in the model.
- DebtRows.NumberOf: `Number()` is modelled on trimmed digit strings and on
  the empty string. Other numeric syntaxes (`1e3`, hexadecimal) read as not
  a number, and such text cannot occur in a date group.
- DebtRows.RowAt: its contract states the shape of a match (where it
  starts, its groups, the money group). That each recogniser finds exactly
  the match the JavaScript engine finds rests on how the recogniser is
  built and on its doc comment. No regular-expression semantics is modelled
  to prove it against.
- DebtRows.CollectRows: it inherits that gap. It is proved to collect the
  recognisers' matches in table order, not the engine's matches.
- The other pages, API routes, authentication, the database and the PDF
  generator are outside the modelled core.

## Findings

| source | as written | input that shows it | evidently intended | confidence | as-written member | corrected member |
|---|---|---|---|---|---|---|
| src/lib/parsers.ts:32-38 | the bare pattern `\b(\d+\.\d{2})\b` captures `1234.56`, and the common normalisation removes every dot before reading it, giving 123456 | text `1234.56` | the comment on line 9 says `1234.56` is meant to read as 1234.56 | not executed | AmountFormat.DottedAmountAsWritten | AmountFormat.DottedAmountCorrected |
