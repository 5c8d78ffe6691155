# Credit-report normaliser

A Dafny model of `parseXML`, the normaliser of the credit-report backend.
It takes the tree an XML credit report parses to and turns it into one
normalised record, or into one error. The record holds:

- the applicant's basic details;
- one entry per credit account, in document order;
- a summary: account counts, active and closed counts, the total balance
  split into secured and unsecured amounts, and the number of enquiries
  from the last seven days;
- the distinct addresses seen on the accounts.

The model begins once the file has been read and parsed. Its input is a
`Document`: either a parsed tree, or the reason reading or parsing failed.
The current time and the date parser are parameters.

Modules, in dependency order:

- `Wrappers`: `Option` and `Result`.
- `Numbers`: JavaScript numbers as `Num(real)` or `NaN`, NaN-absorbing
  addition, and the prefix parsers `ParseInt` and `ParseFloat`.
- `Strings`: ASCII lower-casing and substring containment.
- `Tree`: the parse tree in xml2js's "every element is an array" shape. It
  has JavaScript truthiness, the tolerant path lookup `getText` (`GetText`),
  and the `||` fallback chains (`FirstPresent`, `FirstOf`, and `FirstText`
  over a list of candidate paths).
- `Addresses`: the address `Set` as an insertion-ordered sequence, with a
  reference definition (`KeepFirst`).
- `Accounts`: reading one account (`ReadAccount`) and the fold over all of
  them (`Walk`). Status classification and the secured keywords live here,
  with a reference definition (`Entries` and the `...Sum`/`CountStatus`
  functions) that the fold is proved to agree with.
- `Enquiries`: the seven-day recency filter.
- `Normalizer`: locating the report root, the basic details, the `try`
  block (`Process`), error wrapping (`Normalize`), and the properties of the
  whole record.
- `Scenarios`: the unit tests' reports as parsed trees (`AccountsReport` over
  `TestAccount` elements), with what normalising them yields.

## Behaviour worth knowing

- Amounts and the score are read with `parseFloat`/`parseInt`. Text that does
  not start with a number yields NaN, not 0, and NaN spreads into every sum
  it enters. An absent amount defaults to 0 (`Numbers.NonNumericIsNaN`,
  `Accounts.AmountNumeral`).
- The recency test is `date >= now - 7 days` with no upper end, so dates after
  `now` count (`Enquiries.FutureEnquiryCounts`).
- The addresses come out of a JavaScript `Set` in first-insertion order.
  Strings are compared by value. A non-text address is an object of the tree,
  so it is never equal to another one and is always appended (`Addresses.Insert`).
- There is one error kind. A read failure, a parse failure and a fault inside
  the `try` block all surface as the same error, with the message
  `"Failed to parse XML file: "` followed by the cause, from which the cause
  can be read back (`Normalizer.WrapKeepsCause`).
- A lookup fails on an empty-text value as well as a missing one, because
  `!current[key]` tests truthiness. A path that ends on an empty array
  returns that array, which is truthy, rather than an empty result.
- An empty `<CreditReport></CreditReport>` parses to an empty string, which
  is falsy. So the whole tree becomes the report. Every field still takes
  its default (`Normalizer.EmptyReportDefaults`).
- A report with enquiries but no account section still succeeds, with every
  account quantity at 0 (`Normalizer.MissingAccountsGiveZeros`).

## Model

| member | source | states |
|---|---|---|
| Tree.Lookup | backend/utils/xmlParser.js:10-11 | `current[key]` finds something only for a field of an object or an index key of an array |
| Tree.Resolve | backend/utils/xmlParser.js:9-12 | a value reached along a non-empty path is truthy |
| Tree.ResolveAppend | backend/utils/xmlParser.js:9-12 | following `p + q` is following `p`, then `q` from where `p` ended |
| Tree.ResolveFailsAtBreak | backend/utils/xmlParser.js:9-12 | the lookup fails exactly when some segment breaks it, and it breaks at one segment only |
| Tree.GetText | backend/utils/xmlParser.js:5-18 | `getText` succeeds exactly when the walk does, and differs from the reached value only when that value is an array |
| Tree.GetTextSpec | backend/utils/xmlParser.js:5-18 | `getText` is absent exactly when a segment breaks; otherwise it is the reached value, or that value's first element when it is a non-empty array |
| Tree.FirstPresent | backend/utils/xmlParser.js:31-49 | a `||` chain yields nothing exactly when every candidate is absent or falsy; otherwise it yields the first truthy candidate, and every candidate before it is absent |
| Tree.FirstOf | backend/utils/xmlParser.js:31-49 | a chain with a literal default yields the default when every candidate is absent; otherwise it yields the first truthy candidate |
| Tree.FirstOfPrefersEarlier | backend/utils/xmlParser.js:31-35 | first match wins: a truthy candidate preceded only by absent ones is the chain's value |
| Tree.FirstText | backend/utils/xmlParser.js:31-49 | a chain of `getText` calls over candidate paths only yields truthy values |
| Tree.FirstTextIsFirstPresent | backend/utils/xmlParser.js:31-49 | the chain over candidate paths is the `||` chain of `getText` along each path, in order |
| Tree.TextOr | backend/utils/xmlParser.js:36-40 | a chain with a truthy default always yields a truthy value |
| Tree.TextOrDefault | backend/utils/xmlParser.js:41-44 | the chain yields nothing exactly when no path yields a truthy value, and the default is used then |
| Tree.MissingFirstKeys | backend/utils/xmlParser.js:10 | when every candidate path starts with a key the value lacks, the chain yields nothing |
| Numbers.PlusZero | backend/utils/xmlParser.js:56-58 | the running sums start at 0, which adding leaves every amount unchanged, NaN included |
| Numbers.PlusAssociative | backend/utils/xmlParser.js:91-96 | in the model's exact sums, adding the balances one at a time gives the same total however the additions are grouped, NaN included |
| Numbers.PlusCommutative | backend/utils/xmlParser.js:91-96 | the order in which two balances are added does not change the total, NaN included |
| Numbers.TrimStart | backend/utils/xmlParser.js:70-72 | the parsers skip exactly the leading white space |
| Numbers.DigitRun | backend/utils/xmlParser.js:45-49 | the digit prefix the parsers read is all digits and is maximal |
| Numbers.ParseInt | backend/utils/xmlParser.js:45-49 | reading decimal digits only, `parseInt` is NaN exactly when no digit follows the leading white space and optional sign; otherwise it is a whole number, in the model's exact integers |
| Numbers.ParseIntDigits | backend/utils/xmlParser.js:45-49 | in the model's exact integers, `parseInt` reads the value of a digit string and ignores a following non-digit tail, except an `x` after a lone `0` |
| Numbers.ParseIntNumeral | backend/utils/xmlParser.js:45-49 | in the model's exact integers, `parseInt` reads back the decimal numeral of any natural number, whatever non-digit text follows it, except an `x` after a lone `0` |
| Numbers.ParseIntMinus | backend/utils/xmlParser.js:45-49 | a minus sign directly before a digit negates what `parseInt` reads |
| Numbers.ParseIntNegativeNumeral | backend/utils/xmlParser.js:45-49 | in the model's exact integers, `parseInt` reads back a negative numeral, except `-0` followed by an `x` |
| Numbers.ParseFloatDigits | backend/utils/xmlParser.js:70-75 | `parseFloat` reads the value of a digit string followed by anything but a digit, a point or an exponent mark `e`/`E` |
| Numbers.ParseFloatNumeral | backend/utils/xmlParser.js:70-75 | `parseFloat` reads back the decimal numeral of any natural number, followed by anything but a digit, a point or an exponent mark |
| Numbers.ParseFloat | backend/utils/xmlParser.js:70-75 | `parseFloat` yields a number for every text from which `parseInt` reads one |
| Numbers.FloatPrefix | backend/utils/xmlParser.js:70-75 | the digits `parseFloat` reads are the maximal digit run, then digits only after a point that directly follows it |
| Numbers.ParseFloatUnsigned | backend/utils/xmlParser.js:70-75 | unsigned text without leading white space, and without an exponent mark after its numeral, parses to the value of its digits before the point plus the fraction after it |
| Numbers.ParseFloatFraction | backend/utils/xmlParser.js:70-75 | `parseFloat` reads `d.f` followed by anything but a digit or an exponent mark as the value of `d` plus the tenths, hundredths and so on of `f` |
| Numbers.NonNumericIsNaN | backend/utils/xmlParser.js:70-75 | text that does not start with white space, a sign, a point, a digit or the `I` of `Infinity` parses to NaN, not 0 |
| Strings.ToLower | backend/utils/xmlParser.js:78 | `toLowerCase` keeps the length and lowers each character |
| Strings.ToLowerIdempotent | backend/utils/xmlParser.js:78 | lowering lowered text changes nothing |
| Strings.ToLowerAppend | backend/utils/xmlParser.js:87 | ASCII lowering of a concatenation lowers each part |
| Strings.OccursShift | backend/utils/xmlParser.js:80 | an occurrence is either at the start or an occurrence in the rest |
| Strings.Contains | backend/utils/xmlParser.js:87 | `includes` holds exactly when the text occurs at some position |
| Accounts.ReadAccount | backend/utils/xmlParser.js:64-115 | reading an account throws exactly when the resolved status or type is not text, with the status checked first and the failing call named; otherwise the record carries that status and type, their classes, the `parseFloat` of the first present balance and overdue path (0 when none), and the first present bank, account number and address or "N/A" for each |
| Accounts.MissingFieldsDefault | backend/utils/xmlParser.js:64-75 | an account without bank, account number or address elements records "N/A" for each, one without a type element records "Unknown", and one without balance or overdue elements records 0 for each |
| Accounts.AmountNumeral | backend/utils/xmlParser.js:70-75 | an amount written as a numeral reads back as that number, and an absent amount reads as 0 |
| Accounts.ElementChild | backend/utils/xmlParser.js:5-18 | in an `<Account>` element, the first candidate path `Name.0` to a non-empty child element yields that child's text |
| Accounts.ReadAccountElement | backend/utils/xmlParser.js:64-115 | an `<Account>` element with a non-empty type and status reads with them; each non-empty balance, overdue, institution, account number and address child is what the record holds |
| Accounts.Absorb | backend/utils/xmlParser.js:78-103 | folding one account keeps the two counters within the record count and the two buckets adding up to the total, and appends the record |
| Accounts.Walk | backend/utils/xmlParser.js:63-116 | the walk adds one record per account, keeps the earlier records, preserves the summary invariants, and fails exactly when some account throws |
| Accounts.Entries | backend/utils/xmlParser.js:63-116 | reference: every account read on its own; it succeeds exactly when every account reads, else it fails with the first failing account's error |
| Accounts.Records | backend/utils/xmlParser.js:103-115 | one record per entry, in order |
| Accounts.WalkMatchesEntries | backend/utils/xmlParser.js:63-116 | the walk fails exactly when the reference fails, with the same error; on success its records, sums, counts and address set are the reference ones |
| Accounts.WalkFromStart | backend/utils/xmlParser.js:55-116 | a completed walk from zero holds the records in order, the reference sums and counts, and the addresses deduplicated in first-occurrence order |
| Accounts.AbsorbThenRest | backend/utils/xmlParser.js:63-116 | folding the first account and then the rest gives the reference quantities of the whole list |
| Accounts.BucketsCoverBalance | backend/utils/xmlParser.js:85-96 | the secured and unsecured sums add up to the total balance, NaN included |
| Accounts.StatusClassesPartition | backend/utils/xmlParser.js:78-82 | every account is in exactly one of active, closed and neither, so active + closed <= total |
| Accounts.InactiveCountsAsActive | backend/utils/xmlParser.js:78 | "Inactive" contains "active" and counts as active |
| Accounts.StatusCodeEleven | backend/utils/xmlParser.js:78 | the status code "11" counts as active |
| Accounts.ActiveIsActive | backend/utils/xmlParser.js:78 | "Active" counts as active |
| Accounts.ClosedIsClosed | backend/utils/xmlParser.js:80 | "Closed" counts as closed |
| Accounts.ClassifyIgnoresCase | backend/utils/xmlParser.js:78-82 | the status class ignores letter case |
| Accounts.UnknownIsNeither | backend/utils/xmlParser.js:66-82 | the default status "Unknown" falls in neither class |
| Accounts.MissingStatusIsNeither | backend/utils/xmlParser.js:66-69 | an account with no status element reads with status "Unknown" and falls in neither class |
| Accounts.AutoLoanIsSecured | backend/utils/xmlParser.js:85-88 | "Auto Loan" is secured |
| Accounts.IsSecuredIgnoresCase | backend/utils/xmlParser.js:85-88 | whether a type is secured ignores letter case |
| Accounts.SecuredKeywordAnywhere | backend/utils/xmlParser.js:85-88 | a type containing any secured keyword, whatever surrounds it, is secured |
| Accounts.UnsecuredWithoutKeywordLetters | backend/utils/xmlParser.js:85-88 | a type whose lower-cased form lacks the letters u, h, m and s matches no secured keyword |
| Accounts.CreditCardIsUnsecured | backend/utils/xmlParser.js:85-88 | "Credit Card" is unsecured |
| Accounts.CountActiveClosedActive | backend/tests/unit/xmlParser.test.js:98-133 | entries classed active, closed, active count two active and one closed |
| Accounts.TwoActiveOneClosed | backend/tests/unit/xmlParser.test.js:98-133 | accounts with statuses Active, Closed, Active count two active and one closed |
| Accounts.SecuredThenUnsecured | backend/tests/unit/xmlParser.test.js:165-195 | a secured 50000 and an unsecured 25000 give buckets of 50000 and 25000 and a total of 75000 |
| Accounts.AutoLoanAndCreditCardBuckets | backend/tests/unit/xmlParser.test.js:165-195 | an Auto Loan of 50000 and a Credit Card of 25000 give 50000 secured, 25000 unsecured, 75000 in total |
| Addresses.Insert | backend/utils/xmlParser.js:101 | the added address is in the set afterwards, the earlier contents stay in front, a non-text address is always appended, and a string is appended exactly when it is not yet there |
| Addresses.AddAll | backend/utils/xmlParser.js:99-101 | adding a list of addresses keeps the earlier set as a prefix and holds exactly the earlier ones and the added ones |
| Addresses.KeepFirstMembers | backend/utils/xmlParser.js:144 | deduplication loses and invents no address |
| Addresses.KeepFirstNoDuplicateText | backend/utils/xmlParser.js:144 | deduplication leaves no string twice |
| Addresses.InsertKeepsFirst | backend/utils/xmlParser.js:101 | adding one address to the deduplicated prefix deduplicates the longer prefix |
| Addresses.AddAllKeepsFirst | backend/utils/xmlParser.js:99-101 | adding addresses one by one yields them deduplicated in first-occurrence order |
| Addresses.CollectedAddresses | backend/utils/xmlParser.js:99-101 | the set filled from empty holds exactly the added addresses, no string twice, in first-occurrence order |
| Addresses.MumbaiDelhiMumbai | backend/tests/unit/xmlParser.test.js:227-266 | Mumbai, Delhi, Mumbai leave Mumbai and Delhi |
| Enquiries.RecentEnquiries | backend/utils/xmlParser.js:120-127 | the filter keeps each enquiry that has a truthy text date parsing to no earlier than seven days before now, as often as it occurs, and nothing else |
| Enquiries.LaterNowCountsFewer | backend/utils/xmlParser.js:124-126 | a later current time never counts more enquiries |
| Enquiries.FutureEnquiryCounts | backend/utils/xmlParser.js:126 | an enquiry dated after now counts: the window has no upper end |
| Enquiries.DatedEnquiryRecent | backend/utils/xmlParser.js:120-126 | an enquiry whose date parses to `t` counts exactly when `t` is no earlier than seven days before now |
| Enquiries.RecentIsMonotone | backend/utils/xmlParser.js:120-126 | an enquiry recent at a later time is recent at an earlier one |
| Enquiries.TodayThreeAndTenDaysAgo | backend/tests/unit/xmlParser.test.js:270-301 | enquiries from today, three days ago and ten days ago count two |
| Normalizer.WrapKeepsCause | backend/utils/xmlParser.js:148 | the thrown message is the fixed prefix followed by the cause, so distinct causes give distinct errors and the cause can be read back |
| Normalizer.ReportRootFallback | backend/utils/xmlParser.js:27 | the report is a truthy `CreditReport`, else a truthy `INProfileResponse`, else the whole tree |
| Normalizer.ReportRoot | backend/utils/xmlParser.js:27 | the report is the whole tree or one of its truthy top-level children |
| Normalizer.DetailsOf | backend/utils/xmlParser.js:30-50 | the name, phone and PAN are each the first of their candidate paths that holds a truthy value, else "N/A", so they never come out empty; a present score text is read with `parseInt`, and the score is NaN or a whole number |
| Normalizer.ScoreNumeral | backend/utils/xmlParser.js:45-49 | a score whose first truthy candidate is a decimal numeral reads back as that number, as the 750 of the unit tests |
| Normalizer.MissingDetailsDefault | backend/utils/xmlParser.js:31-44 | a report in which none of a detail's candidate paths holds a truthy value gets "N/A" for that name, phone or PAN |
| Normalizer.ListOf | backend/utils/xmlParser.js:53 | the account list (and likewise the enquiry list at line 119) is truthy: the list inside the first section element when present, else the list directly under the report, or `[]` when neither is |
| Normalizer.Assemble | backend/utils/xmlParser.js:130-145 | the assembled record has one record per account, active + closed within the total, and buckets adding up to the balance |
| Normalizer.Process | backend/utils/xmlParser.js:27-145 | the `try` block fails exactly when the accounts or the enquiries are not an array or some account throws; a record it returns keeps the summary invariants |
| Normalizer.Normalize | backend/utils/xmlParser.js:20-150 | every failure carries the prefixed message and no record; it fails exactly when reading or parsing failed or the `try` block throws; a returned record keeps the summary invariants |
| Normalizer.NormalizeMatchesReference | backend/utils/xmlParser.js:130-145 | whenever a record is returned, the document was parsed and the record agrees with the reference: one record per account in order, the reference sums and counts, deduplicated addresses, the recent-enquiry count and the resolved details |
| Normalizer.MissingAccountsGiveZeros | backend/utils/xmlParser.js:53-138 | without an account section the report is normalised exactly when its enquiries form an array, and then it has no accounts, no addresses, every account counter and amount at 0, and the recent-enquiry count of its enquiries |
| Normalizer.MissingScoreIsZero | backend/utils/xmlParser.js:45-49 | without a score element the score is `parseInt("0")`, that is 0 |
| Normalizer.EmptyReportDetails | backend/utils/xmlParser.js:27-50 | the empty report is its own root and its details are "N/A" with score 0 |
| Normalizer.EmptyReportHasNoDetails | backend/utils/xmlParser.js:31-48 | the empty report has none of the applicant's detail elements |
| Normalizer.EmptyReportHasNoSections | backend/utils/xmlParser.js:53 | the empty report has no account or enquiry section |
| Normalizer.EmptyReportDefaults | backend/tests/unit/xmlParser.test.js:212-223 | an empty `<CreditReport></CreditReport>` yields default details, no accounts and a zero summary |
| Normalizer.NoScoreReportShape | backend/tests/unit/xmlParser.test.js:79-94 | the no-score report's root is its `CreditReport` element, whose empty account section, missing enquiries and missing score all resolve to nothing |
| Normalizer.NoScoreNoAccounts | backend/tests/unit/xmlParser.test.js:79-94 | a report without a score and with an empty account section has score 0, a truthy phone and no accounts |
| Normalizer.UnreadableOrMalformedFails | backend/utils/xmlParser.js:146-149 | a file that cannot be read or parsed yields the prefixed error |
| Scenarios.AccountsReportShape | backend/utils/xmlParser.js:27-53 | a `CreditReport` holding one `Accounts` section is the report root, its account list is that section's accounts, and it has no enquiries |
| Scenarios.AccountsReportNormalizes | backend/utils/xmlParser.js:53-145 | such a report whose accounts all read is normalised into a record agreeing with the reference |
| Scenarios.TestAccountReads | backend/tests/unit/xmlParser.test.js:98-133 | an account written as the tests write them reads with its type, status, balance and overdue |
| Scenarios.StatusCountsOfReport | backend/tests/unit/xmlParser.test.js:98-133 | three accounts reading Active, Closed, Active count three in total, two active and one closed |
| Scenarios.ActiveClosedActiveReport | backend/tests/unit/xmlParser.test.js:98-133 | the status test's report counts three accounts, two active and one closed |
| Scenarios.BalanceOfReport | backend/tests/unit/xmlParser.test.js:135-163 | two accounts with balances `a` and `b` give a current balance of `a + b`, and the second record keeps its overdue |
| Scenarios.CardAndLoanBalanceReport | backend/tests/unit/xmlParser.test.js:135-163 | the balance test's report totals 100000, and its second account keeps an overdue of 5000 |
| Scenarios.BucketsOfReport | backend/tests/unit/xmlParser.test.js:165-195 | a secured account of 50000 then an unsecured one of 25000 give buckets of 50000 and 25000 |
| Scenarios.AutoLoanAndCardReport | backend/tests/unit/xmlParser.test.js:165-195 | the category test's report puts the auto loan in the secured bucket and the credit card in the unsecured one |

## Left out

- Reading the file and parsing the markup (`fs.readFile`, xml2js) are I/O and
  a foreign library. The input is the resulting `Document`: a parsed tree,
  or the reason reading or parsing failed.
- Empty or white-space-only input: xml2js resolves it to `null`, and
  `result.CreditReport` then throws a `TypeError` ("Cannot read properties
  of null"). That is neither a read nor a parse failure, but it is caught
  and wrapped the same way, so the model takes such a file as
  `Malformed(reason)` with the `TypeError`'s message as the reason.
- `console.error` logging is a side effect with no bearing on the result.
- `new Date(text)` is the `parseDate` parameter, and `new Date()` is the
  `now` parameter, both in milliseconds. The source takes a fresh
  `new Date()` for each enquiry. The model uses one `now` per call.
- Enquiries.Cutoff: `setDate(getDate() - 7)` is modelled as exactly seven
  times 24 hours. A daylight-saving change inside the window is not modelled.
- Numbers.ParseFloat: amounts are exact reals, with no floating-point
  rounding. Exponents and `Infinity` are not modelled.
- Numbers.ParseInt: hexadecimal `0x` prefixes are not modelled. JavaScript
  reads "0x1A" as 26 and "0x" as NaN; the model reads both as 0. The
  numeral lemmas exclude an `x` after a lone `0`. Results are exact
  integers: JavaScript returns a double, so it rounds above 2^53
  (`parseInt("9007199254740993")` is 9007199254740992) and overflows to
  `Infinity` for numerals of more than about 309 digits.
- Numbers.ParseIntDigits, Numbers.ParseIntNumeral,
  Numbers.ParseIntNegativeNumeral and Normalizer.ScoreNumeral: they hold of
  the model's exact integers; above 2^53 the program's result is rounded.
- Accounts.BucketsCoverBalance: the program adds in binary floating point,
  so the buckets cover the total only up to rounding. Balances 0.1
  (secured), 0.1 (unsecured) and 1.1 (secured) give a total of 1.3, but
  the secured 1.2000000000000002 plus the unsecured 0.1 is
  1.3000000000000003. The model's sums are exact reals.
- Strings.ToLower: only ASCII capitals are lowered. JavaScript's full
  Unicode case mapping is not modelled.
- Tree.Lookup: a key applied to text finds nothing. JavaScript would index
  the string's characters, or find properties such as `length`. Properties
  inherited from object prototypes are not modelled either. Paths are
  given already split at their dots.
- Numbers.PlusAssociative: the program adds in binary floating point, which
  is not associative: (0.1 + 0.2) + 0.3 is 0.6000000000000001, but
  0.1 + (0.2 + 0.3) is 0.6. The lemma holds of the model's exact sums.
- Strings.ToLowerAppend: the lemma holds of ASCII lowering. JavaScript's
  context-sensitive final sigma lowers "AΣ" to "aς" but "Σ" alone to "σ".
- Enquiries.IsRecent: a non-text date counts as an invalid date.
  JavaScript's `new Date` converts an object to "[object Object]", which is
  indeed invalid, but converts an array through its string form, which may
  parse. A tree of this shape never holds an array at `Date[0]`.
- Accounts.Amount and Normalizer.Score: any non-text value converts to NaN.
  JavaScript converts an array through its string form, but a tree of this
  shape never yields a bare array there unless the array is empty, and an
  empty array does convert to NaN.
- The unit tests' `<n>` element for the applicant's name is not read by the
  code, which looks up `Name`. The model follows the code and encodes none
  of those name assertions.
