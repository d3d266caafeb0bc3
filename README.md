# GEDCOM checker, modelled in Dafny

This project models the core of a small genealogy checker written in Python.
The checker reads a GEDCOM file whose lines are `level [@xref@] tag [value]`
(Chapter 1 of GEDCOM 5.5.1). It builds two dicts, id to `Individual` and id to
`Family`, and then runs a fixed list of user-story checks (US01 to US25) over
them. Each check appends message strings to a list of errors.

The model has three parts.

- **The later assembler and the rule engine** (`GedcomProject.py`).
  - `AnalyzeGEDCOM.analyze` / `analyze_info` are modelled twice. `Assembly` states them as a step function over a machine: the mode, the current ids, the previous line, the tables and the US22 duplicate-id messages. `GedcomAnalyzer.Analyzer` is a class whose methods update the dict fields in place. Each method is proved to compute what `Assembly` says.
  - `update_age` is modelled as `Assembly.UpdateAge` / `UpdateAges`.
  - Each `CheckForErrors` rule is a fold in `Rules`. It returns the new error list or the exception the Python code raises on incomplete records.
  - `Checker.CheckForErrors` is a class with one method per rule. Each method's loops are proved to produce exactly the messages, in the same order, or the same exception, that its `Rules` function gives.
  - `AssemblyFacts` proves what the code promises about the assembler, line by line. `RuleFacts`, `RuleTriggers`, `RuleFolds`, `RuleScans`, `KinFacts`, `DescentFacts` and `CousinFacts` prove, rule by rule, when each rule raises and which messages it adds.
- **The earlier assembler** (`Project3.py`).
  - `Project3` is the same kind of state machine, with three differences: record fields default to `"NA"`, a re-declared id silently replaces its record, and ages are computed only while the tables are printed.
  - `Project3Analyzer.Analyzer` is its class form. `Project3Facts` holds its properties.
- **The line tokenizer** (`project03_Parser1.py`).
  - `Parser1.ParseArgs` is the character loop of `parseArgs`, proved against the function `SplitArgs`.
  - `Parser1.ParseLine` is `parseLine`.

Shared modules:

- `Wrappers`: `Option` and `Result`.
- `Strings`: `replace("@", "")`, `sorted` on strings, `split`, `split()[-1]`, `strip("/")`, `int()` and `str()` of integers.
- `Dates`: proleptic Gregorian dates with a day ordinal, so `(d1 - d2).days` is a difference of ordinals, and a `%d %b %Y` parser.
- `Messages`: one constructor per message kind, and `Render`, which gives its exact text.
- `Records`: the record values, the tables, and the exceptions a lookup or a comparison raises.

How the model treats Python semantics:

- Python's `None` becomes `Option.None`.
- A dict is a map together with the order its keys were first inserted in, because Python dicts iterate in insertion order.
- A `set` is iterated in ascending string order. This is the order the explicit `sorted(...)` calls use.
- Where the Python code raises, the model returns `Err`:
  - `KeyError`, `TypeError` and `AttributeError` on missing records and missing dates;
  - `IndexError` on a short line or a name with no word;
  - `ValueError` on an unpackable line or an unparseable date or level.

## Model

| member | source | states |
|---|---|---|
| Records.Person | GedcomProject.py:210 | `self.individuals[id]` succeeds exactly when the id is present and a key, yielding that record, and otherwise raises `KeyError` |
| Records.Union | GedcomProject.py:273 | `self.family[id]` succeeds exactly when the id is present and a key, yielding that family, and otherwise raises `KeyError` |
| Records.Compared | GedcomProject.py:194 | a date used in a comparison or subtraction raises `TypeError` exactly when it is missing |
| Records.YearOf | GedcomProject.py:276 | `.year` of a date raises `AttributeError` exactly when the date is missing, and otherwise is its year |
| Records.AgeOf | GedcomProject.py:356 | an age used in arithmetic or a comparison is that age, and raises `TypeError` exactly when it was never computed |
| Messages.Show | GedcomProject.py:195 | `"{}".format` of a name is the name, or the word `None` for a missing one |
| Messages.Story | GedcomProject.py:33 | each message kind belongs to a user story whose tag is `US` followed by two digits |
| Messages.Render | GedcomProject.py:33 | every message text starts with its user-story tag (`US01` … `US25`) |
| Messages.BigamyText | GedcomProject.py:327 | the US11 text is the name framed by the fixed story tag and wording |
| Messages.BigamyTextInjective | GedcomProject.py:327 | two US11 texts are equal exactly when they name the same person |
| Messages.SameTextAsBigamy | GedcomProject.py:535 | a message has the text of a US11 message exactly when it is that message, so the text test of `add_errors_if_new` is a test on messages |
| Messages.OnlyBigamyIsUS11 | GedcomProject.py:341-345 | a message of story US11 is a bigamy message |
| Strings.RemoveAt | GedcomProject.py:31 | `replace("@", "")` leaves no `@` and never lengthens the text |
| Strings.RemoveAtKeeps | GedcomProject.py:60 | an argument without `@` is left as it is |
| Strings.RemoveAtIdempotent | GedcomProject.py:60 | stripping `@` twice is stripping it once |
| Strings.RemoveAtXref | GedcomProject.py:31 | `@I1@` becomes the bare id `I1` |
| Strings.Sorted | GedcomProject.py:318 | `sorted(set)` has one entry per member of the set |
| Strings.SortedMembers | GedcomProject.py:318 | `sorted(set)` lists the members of the set and nothing else |
| Strings.SortedAscending | GedcomProject.py:318 | `sorted(set)` is in ascending string order |
| Strings.LastWord | GedcomProject.py:393 | `split()[-1]` raises exactly on an all-blank text, and otherwise is a non-empty word without blanks; `LastWordIsTrailingWord` says which word |
| Strings.TrailingWord | GedcomProject.py:393 | the blank-free end of a text: a suffix of it, holding no blank, and preceded by a blank whenever it is shorter than the text |
| Strings.WordEnd | GedcomProject.py:393 | where the text ends once trailing blanks are dropped: only blanks follow that point, and the character before it is not a blank |
| Strings.LastWordFound | GedcomProject.py:393 | `split()` has a last word exactly when the text is not empty once trailing blanks are dropped |
| Strings.LastWordIsTrailingWord | GedcomProject.py:393 | `split()[-1]` is the last blank-separated word: the longest blank-free end of the text once its trailing blanks are dropped |
| Strings.StripSlashes | GedcomProject.py:489 | `strip("/")` leaves no `/` at either end and never lengthens the text; `StripSlashesSpan` says what it keeps |
| Strings.StripSlashesSpan | GedcomProject.py:489 | `strip("/")` keeps one contiguous part of the text and removes only `/` before and after it; with no `/` left at its ends, the runs removed are the longest ones |
| Strings.Split | project03_Parser1.py:20 | `split(" ")` always gives at least one piece |
| Strings.SplitPieces | project03_Parser1.py:20 | `split(" ")` gives one piece more than there are spaces, and no piece holds a space |
| Strings.JoinSplit | project03_Parser1.py:20 | joining the pieces of `split(" ")` with spaces gives back the text |
| Strings.ParseIntOfIntToString | GedcomProject.py:58 | `int(str(n)) == n` for every integer |
| Strings.ParseInt | GedcomProject.py:58 | `int()` reads a run of decimal digits as its value; whatever it reads is non-empty, negative only with a leading `-`, and unsigned only when all digits |
| Dates.DaysBetweenSign | GedcomProject.py:185-187 | `date_difference(d1, d2)` is negative, zero or positive exactly when `d1` is before, equal to or after `d2` |
| Dates.DaysBetweenSameMonth | GedcomProject.py:372 | within one month, `(d1 - d2).days` is the difference of the days |
| Dates.MonthsBetweenOrder | GedcomProject.py:373 | the month count is 0 exactly for dates in the same calendar month, and positive exactly when the first date is in a later month |
| Dates.MonthNumber | GedcomProject.py:79 | a `%b` month abbreviation, in any letter case, reads as its position in the calendar, 1 to 12, and any other text does not read |
| Dates.MonthNumberOfAbbreviation | GedcomProject.py:79 | each of the twelve written abbreviations reads back as its own month number |
| Dates.ParseDay | GedcomProject.py:79 | a `%d` day is one or two digits whose decimal value is 1 to 31, and reads as that value |
| Dates.ParseDayOfNatToString | GedcomProject.py:79 | `str(d)` of a day from 1 to 31 reads back as `d` |
| Dates.ParseYear | GedcomProject.py:79 | a `%Y` year is exactly four digits and reads as their decimal value, 0 to 9999 |
| Dates.ParseFormatDate | GedcomProject.py:79 | every valid date written as `DD MON YYYY` parses back to itself |
| Dates.ParseDate | GedcomProject.py:79 | `strptime(arg, "%d %b %Y")` succeeds only on three space-separated fields, the day, the month abbreviation and the year, each reading as the date's own field; and the result is a real date |
| Assembly.DeclareIndividual | GedcomProject.py:29-36 | an `INDI` line keeps the machine well formed: each order lists its dict's keys once, and the current individual exists |
| Assembly.DeclareFamily | GedcomProject.py:37-44 | a `FAM` line keeps the machine well formed |
| Assembly.SetField | GedcomProject.py:59-76 | a level-1 field line changes no key and no key order |
| Assembly.SetDate | GedcomProject.py:80-90 | a date stored under `BIRT`/`DEAT`/`MARR`/`DIV` changes no key and no key order |
| Assembly.AnalyzeInfo | GedcomProject.py:52-90 | `analyze_info`, when it does not raise, changes no key and no key order |
| Assembly.Step | GedcomProject.py:26-47 | one pass of the loop, when it does not raise, keeps the machine well formed |
| Assembly.Run | GedcomProject.py:24-47 | the whole loop, when it does not raise, leaves well-formed tables |
| Assembly.UpdateAges | GedcomProject.py:48-49 | the `update_age` loop can only fail with the missing-birth-date error |
| Assembly.UpdateAge | GedcomProject.py:140-149 | `update_age` fails exactly when there is no birth date, with the missing-birth-date error; otherwise it sets an age and changes no field but `alive` and `age` (their values: `AssemblyFacts.UpdateAgeMeaning`) |
| Assembly.Analyze | GedcomProject.py:21-49 | `analyze` fails in the ageing loop only with the missing-birth-date error, and its messages are exactly those of the line loop |
| AssemblyFacts.DeclareIndividualLine | GedcomProject.py:29-36 | `0 @id@ INDI` makes `@`-stripped id current in individual mode. A new id gets a fresh record appended to the order. An existing id appends exactly one US22 message and leaves the tables as they were. `previous_line` is not changed |
| AssemblyFacts.DeclareFamilyLine | GedcomProject.py:37-44 | the same for `0 @id@ FAM` and the families |
| AssemblyFacts.HeaderLine | GedcomProject.py:27-28 | a level-0 `HEAD`/`TRLR`/`NOTE` line changes nothing, `previous_line` included |
| AssemblyFacts.ShortLevelZeroLine | GedcomProject.py:27-29 | any other level-0 line with fewer than three fields raises `IndexError` |
| AssemblyFacts.PassiveLine | GedcomProject.py:45-47 | a two-field line, or any line before the first record, only becomes `previous_line` |
| AssemblyFacts.FieldLine | GedcomProject.py:59-76 | with the `@`-stripped argument, `FAMS`/`CHIL` add to the set and `NAME`/`SEX`/`FAMC`/`HUSB`/`WIFE` overwrite their field. A tag of the other mode changes nothing. No other record changes, and the line becomes `previous_line` |
| AssemblyFacts.DateLine | GedcomProject.py:77-90 | a `2 DATE` line raises when the previous line does not have two fields or the date does not parse. Otherwise it stores the date into `birt`/`deat`/`marr`/`div` exactly when the previous line is `1` plus that tag in the matching mode, and changes nothing else |
| AssemblyFacts.SetFieldNoAt | GedcomProject.py:60 | a field update keeps every stored id free of `@` |
| AssemblyFacts.SetDateNoAt | GedcomProject.py:80-90 | a date update keeps every stored id free of `@` |
| AssemblyFacts.AnalyzeInfoNoAt | GedcomProject.py:52-90 | `analyze_info` keeps every stored id and reference free of `@` |
| AssemblyFacts.StepNoAt | GedcomProject.py:26-47 | one pass keeps every id and reference free of `@` |
| AssemblyFacts.RunNoAt | GedcomProject.py:24-47 | after the whole loop, no id and no stored name, sex or reference (`famc`, `fams`, `husb`, `wife`, `chil`) holds an `@` |
| AssemblyFacts.StepGrows | GedcomProject.py:29-44 | one pass adds at most one message, a US22 one, and only appends to the key orders |
| AssemblyFacts.RunGrows | GedcomProject.py:24-47 | the loop only appends, its messages are all US22 ones, and no id ever leaves a key order |
| AssemblyFacts.UpdateAgeMeaning | GedcomProject.py:140-149 | `update_age` succeeds exactly when there is a birth date; then `alive` is "no death date" and `age` is the year difference to the death or to today |
| AssemblyFacts.UpdateAgesMeaning | GedcomProject.py:48-49 | the loop over distinct ids succeeds exactly when each has a birth date. It ages exactly those records and changes nothing else |
| AssemblyFacts.AgeAllMeaning | GedcomProject.py:48-49 | the loop over all individuals fails exactly when one of them has no birth date, and otherwise ages every one |
| AssemblyFacts.AnalyzeAges | GedcomProject.py:21-49 | after `analyze`, every individual has a birth date, `alive == (deat is None)`, and the year-difference age |
| AssemblyFacts.AnalyzeMissingBirth | GedcomProject.py:143-149 | once the lines are read, `analyze` raises the birth-date error exactly when some individual has no birth date |
| GedcomAnalyzer.Analyzer.constructor | GedcomProject.py:9-13 | starts with empty dicts and no errors |
| GedcomAnalyzer.Analyzer.SetIndividualField | GedcomProject.py:61-69 | the in-place update of an individual's field leaves the dicts as `Assembly.SetField` says, and the errors unchanged |
| GedcomAnalyzer.Analyzer.SetFamilyField | GedcomProject.py:70-76 | the in-place update of a family's field leaves the dicts as `Assembly.SetField` says |
| GedcomAnalyzer.Analyzer.SetIndividualDate | GedcomProject.py:81-85 | the in-place store of a birth or death date leaves the dicts as `Assembly.SetDate` says |
| GedcomAnalyzer.Analyzer.SetFamilyDate | GedcomProject.py:86-90 | the in-place store of a marriage or divorce date leaves the dicts as `Assembly.SetDate` says |
| GedcomAnalyzer.Analyzer.AnalyzeInfo | GedcomProject.py:52-90 | raises exactly when `Assembly.AnalyzeInfo` does, with the same error, and otherwise leaves the dicts it gives |
| GedcomAnalyzer.Analyzer.Step | GedcomProject.py:26-47 | one pass of the loop on the object's fields reaches the state `Assembly.Step` gives, or raises its error |
| GedcomAnalyzer.Analyzer.Assemble | GedcomProject.py:21-47 | the loop over all lines leaves the dicts and the error list that `Assembly.Run` gives, or raises its error |
| GedcomAnalyzer.Analyzer.UpdateAges | GedcomProject.py:48-49 | the in-place `update_age` loop succeeds exactly when `Assembly.UpdateAges` does, and then leaves its tables |
| GedcomAnalyzer.Analyzer.Analyze | GedcomProject.py:21-49 | `analyze` on the object ends as `Assembly.Analyze` says, or raises its error |
| Rules.Listed | GedcomProject.py:191 | `.values()` yields only records stored in the dict, under their own keys |
| Rules.Spouses | GedcomProject.py:238-239 | looking up both spouses succeeds exactly when both ids are keys, and gives those two records |
| Rules.FamilyName | GedcomProject.py:393 | the family name is the last word of the husband's name. The lookup raises `KeyError` exactly when the husband is not a key, and otherwise `IndexError` when his name has no word |
| Rules.DatesBeforeCurrFamily | GedcomProject.py:191-197 | US01 for one family only appends; what it appends is stated by `RuleTriggers.FutureDatesOfFamily` |
| Rules.DatesBeforeCurrPerson | GedcomProject.py:199-205 | US01 for one individual only appends; what it appends is stated by `RuleTriggers.FutureDatesOfPerson` |
| Rules.US01Families | GedcomProject.py:191-197 | the family half of US01 only appends; what it appends is stated by `RuleFolds.US01FamiliesIff` |
| Rules.US01People | GedcomProject.py:199-205 | the individual half of US01 only appends; what it appends is stated by `RuleFolds.US01PeopleIff` |
| Rules.US01 | GedcomProject.py:189-205 | `dates_before_curr` only appends; what it appends is stated by `RuleFolds.US01Meaning` |
| Rules.IndiBirthBeforeMarriage | GedcomProject.py:209-221 | US02 for one family only appends; what it appends is stated by `RuleTriggers.BornAfterWeddingIff` |
| Rules.US02 | GedcomProject.py:207-221 | `indi_birth_before_marriage` only appends, family by family; what it appends is stated by `RuleTriggers.BornAfterWeddingIff` |
| Rules.BirthBeforeDeath | GedcomProject.py:225-227 | US03 for one individual only appends |
| Rules.US03 | GedcomProject.py:223-227 | `birth_before_death` only appends |
| Rules.MarrBeforeDiv | GedcomProject.py:231-233 | US04 for one family only appends |
| Rules.US04 | GedcomProject.py:229-233 | `marr_before_div` only appends |
| Rules.DiedBeforeWedding | GedcomProject.py:241-257 | the US05/US06 test of one family with a dead spouse only appends; what it appends is stated by `RuleTriggers.DeathBeforeWeddingIff` |
| Rules.MarrDivBeforeDeath | GedcomProject.py:237-257 | `marr_div_before_death` only appends, family by family; what it appends is stated by `RuleTriggers.DeathBeforeWeddingIff` |
| Rules.US05 | GedcomProject.py:235-257 | `marr_div_before_death` over the family table only appends; what it appends is stated by `RuleTriggers.DeathBeforeWeddingIff` |
| Rules.NormalAge | GedcomProject.py:262-265 | US07 for one individual only appends |
| Rules.US07 | GedcomProject.py:259-265 | `normal_age` only appends |
| Rules.BirthBeforeMarriage | GedcomProject.py:270-280 | US08 for one individual only appends |
| Rules.US08 | GedcomProject.py:267-280 | `birth_before_marriage` only appends |
| Rules.BirthBeforeDeathOfParents | GedcomProject.py:284-298 | US09 for one individual only appends; what it appends is stated by `RuleTriggers.ParentsDeathIff` |
| Rules.US09 | GedcomProject.py:282-298 | `brith_before_death_of_parents` only appends, individual by individual; what it appends is stated by `RuleTriggers.ParentsDeathIff` |
| Rules.SpousesTooYoung | GedcomProject.py:304-309 | US10 for one individual's families only appends; what it appends is stated by `RuleScans.SpousesTooYoungIff` |
| Rules.US10 | GedcomProject.py:300-309 | `spouses_too_young` only appends, individual by individual; what it appends is stated by `RuleScans.SpousesTooYoungIff` |
| Rules.AddErrorsIfNew | GedcomProject.py:532-536 | afterwards the message is in the list, every earlier message is still in front, and the list grew by at most one |
| Rules.BigamyScan | GedcomProject.py:317-331 | the scan of one spouse's sorted families only appends; what it appends is stated by `RuleScans.BigamyScanIff` |
| Rules.SpouseBigamy | GedcomProject.py:316-347 | the bigamy test of one spouse only appends; what it appends is stated by `RuleScans.SpouseBigamyIff` |
| Rules.NoBigamy | GedcomProject.py:313-347 | `no_bigamy` only appends, spouse by spouse; what it appends is stated by `RuleScans.SpouseBigamyIff` |
| Rules.US11 | GedcomProject.py:311-347 | `no_bigamy` over the family table only appends; what it appends is stated by `RuleScans.SpouseBigamyIff` |
| Rules.ParentsTooOld | GedcomProject.py:353-359 | US12 for one child only appends; what it appends is stated by `RuleTriggers.ParentsTooOldIff` |
| Rules.US12 | GedcomProject.py:349-359 | `parents_too_old` only appends, child by child; what it appends is stated by `RuleTriggers.ParentsTooOldIff` |
| Rules.Abs | GedcomProject.py:372-373 | `abs(x)` is `x` or `-x`, and never negative |
| Rules.SpacedPair | GedcomProject.py:370-375 | the US13 test of one pair of siblings only appends; what it appends is stated by `RuleScans.SpacingStep` |
| Rules.SpacingWith | GedcomProject.py:369-375 | the inner `j` loop of `sibling_spacing` only appends; what it appends is stated by `RuleScans.SpacingWithIff` |
| Rules.SpacingFrom | GedcomProject.py:368-375 | the outer `i` loop of `sibling_spacing` only appends; what it appends is stated by `RuleScans.SpacingFromIff` |
| Rules.US13 | GedcomProject.py:361-375 | `sibling_spacing` only appends, family by family; what it appends is stated by `RuleScans.SpacingFromIff` |
| Rules.Tally | GedcomProject.py:384-390 | `birthDayDict` has exactly the keys of its insertion order, each listed once |
| Rules.TallyAppend | GedcomProject.py:387-390 | one more birth raises its date's count by one, or adds the date with count 1 |
| Rules.BirthsOf | GedcomProject.py:385-386 | looking up the sorted children gives, in their order, each child's birth date, and raises `KeyError` exactly when a child is not a key |
| Rules.CrowdedBirths | GedcomProject.py:391-394 | the loop over `birthDayDict` only appends |
| Rules.TooManyBirths | GedcomProject.py:380-394 | US14 for one family only appends |
| Rules.US14 | GedcomProject.py:378-394 | `too_many_births` only appends |
| Rules.TooManySiblingsOf | GedcomProject.py:399-402 | US15 for one family only appends; what it appends is stated by `RuleTriggers.TooManySiblingsIff` |
| Rules.US15 | GedcomProject.py:397-402 | `too_many_siblings` only appends, family by family; what it appends is stated by `RuleTriggers.TooManySiblingsIff` |
| Rules.SpouseIs | GedcomProject.py:408 | the identity test of `descendants_help` succeeds exactly when the spouse lookups do, and says whether the person is the husband or the wife |
| Rules.DescendantsHelp | GedcomProject.py:404-411 | the recursive descendant search only appends; what it appends is stated by `DescentFacts.HelpReports`; when it raises is stated by `DescentFacts.HelpRaises` |
| Rules.DescendantFamilies | GedcomProject.py:406-411 | the search over one descendant's families only appends; what it appends is stated by `DescentFacts.FamiliesReports`; when it raises is stated by `DescentFacts.FamiliesRaises` |
| Rules.DescendantFamily | GedcomProject.py:407-411 | the search through one family only appends; what it appends is stated by `DescentFacts.FamilyReports`; when it raises is stated by `DescentFacts.FamilyRaises` |
| Rules.DescendantChildren | GedcomProject.py:410-411 | the recursion into a family's children only appends; what it appends is stated by `DescentFacts.ChildrenReports`; when it raises is stated by `DescentFacts.ChildrenRaises` |
| Rules.NoMarriageToDescendants | GedcomProject.py:416-419 | US17 for one person only appends; what it appends is stated by `DescentFacts.NoMarriageToDescendantsMeaning`; when it raises is stated by `DescentFacts.NoMarriageToDescendantsRaises` |
| Rules.US17 | GedcomProject.py:413-419 | `no_marriage_to_descendants` only appends, person by person; what it appends is stated by `DescentFacts.NoMarriageToDescendantsMeaning`; when it raises is stated by `DescentFacts.US17Outcome` |
| Rules.SiblingSpouse | GedcomProject.py:426-432 | US18 for one of a person's families only appends; what it appends is stated by `KinFacts.SiblingSpouseIff` |
| Rules.NoMarriageToSiblings | GedcomProject.py:424-432 | US18 for one person only appends, family by family; what it appends is stated by `KinFacts.SiblingSpouseIff` |
| Rules.US18 | GedcomProject.py:421-432 | `no_marriage_to_siblings` only appends, person by person; what it appends is stated by `KinFacts.SiblingSpouseIff` |
| Rules.ChildrenOf | GedcomProject.py:454-461 | `get_childrenID` only extends the list it has built so far |
| Rules.ChildrenIds | GedcomProject.py:454-461 | `get_childrenID` completes exactly when the individual and all their families are keys, and otherwise raises `KeyError`; its members are stated by `KinFacts.ChildrenIdsMembers` |
| Rules.SpouseIn | GedcomProject.py:463-470 | the loop of `get_spouse` raises only `KeyError`, and gives a spouse only from a listed family without a divorce |
| Rules.Spouse | GedcomProject.py:463-470 | `get_spouse` raises only `KeyError`, and gives a spouse only from one of the individual's families without a divorce; which one is stated by `RuleFacts.SpouseInFirstCurrent` |
| Rules.CousinList | GedcomProject.py:443-446 | the loop over one aunt's or uncle's children only appends; what it appends is stated by `CousinFacts.CousinListCouples`; when it raises is stated by `CousinFacts.CousinListRaises` |
| Rules.CousinAunts | GedcomProject.py:442-446 | the loop over a parent's siblings only appends; what it appends is stated by `CousinFacts.CousinAuntsCovers`; when it raises is stated by `CousinFacts.CousinAuntsRaises` |
| Rules.CousinSide | GedcomProject.py:441-446 | one parent's side only appends; what it appends is stated by `CousinFacts.CousinSideCouples`; when it raises is stated by `CousinFacts.CousinSideRaises` |
| Rules.CousinChildren | GedcomProject.py:440-452 | the loop over a family's children only appends; what it appends is stated by `CousinFacts.CousinChildrenCouples`; when it raises is stated by `CousinFacts.CousinChildrenRaises` |
| Rules.NoMarriageToCousin | GedcomProject.py:437-452 | the loop over the families only appends; what it appends is stated by `CousinFacts.CousinCouples`; when it raises is stated by `CousinFacts.NoMarriageToCousinRaises` |
| Rules.US19 | GedcomProject.py:434-452 | `no_marriage_to_cousin` only appends; what it appends is stated by `CousinFacts.CousinCouples`; when it raises is stated by `CousinFacts.US19Raises` |
| Rules.MarriedIntoSiblings | GedcomProject.py:480-482 | US20 for one sibling's children only appends; what it appends is stated by `KinFacts.MarriedIntoSiblingsAdded` |
| Rules.AuntsAndUncles | GedcomProject.py:478-482 | US20 for one family only appends; what it appends is stated by `KinFacts.AuntsAndUnclesAdded` |
| Rules.US20 | GedcomProject.py:472-482 | `creepy_aunts_and_uncles` only appends, family by family; what it appends is stated by `KinFacts.AuntsAndUnclesAdded` |
| Rules.CorrectGenderRole | GedcomProject.py:488-495 | US21 for one family only appends; what it appends is stated by `RuleTriggers.GenderRoleIff` |
| Rules.US21 | GedcomProject.py:486-495 | `correct_gender_role` only appends, family by family; what it appends is stated by `RuleTriggers.GenderRoleIff` |
| Rules.UniqueNamesAndBdays | GedcomProject.py:498-505 | `unique_names_and_bdays` only appends, and never raises; what it appends is stated by `RuleScans.DuplicateNamesAdded` |
| Rules.US23 | GedcomProject.py:498-505 | `unique_names_and_bdays` over the individual table only appends; what it appends is stated by `RuleScans.DuplicateNamesAdded` |
| Rules.UniqueSpousesInFamily | GedcomProject.py:507-518 | `unique_spouses_in_family` only appends; what it appends is stated by `RuleScans.DuplicateSpousesIff` |
| Rules.US24 | GedcomProject.py:507-518 | `unique_spouses_in_family` over the family table only appends; what it appends is stated by `RuleScans.DuplicateSpousesIff` |
| Rules.UniqueChildren | GedcomProject.py:522-530 | US25 for one family only appends; what it appends is stated by `RuleScans.DuplicateChildrenIff` |
| Rules.US25 | GedcomProject.py:520-530 | `unique_children_in_family` only appends, family by family; what it appends is stated by `RuleScans.DuplicateChildrenIff` |
| Rules.CheckAll | GedcomProject.py:159-180 | the whole list of checks only appends to the errors `analyze` found |
| RuleFacts.AddErrorsIfNewFacts | GedcomProject.py:532-536 | `add_errors_if_new` is idempotent, and a message present at most once stays present at most once |
| RuleFacts.BigamyTextIn | GedcomProject.py:535 | the `error not in self.all_errors` text test holds exactly when the US11 message is not in the list |
| RuleFacts.BigamyScanOnce | GedcomProject.py:317-331 | scanning one spouse's families never puts a message in the list twice if it was there at most once |
| RuleFacts.NoBigamyOnce | GedcomProject.py:311-347 | `no_bigamy` keeps every message at most once |
| RuleFacts.BigamyReportedOnce | GedcomProject.py:311-347 | each bigamist's US11 message appears at most once |
| RuleFacts.OneFamilyHusbandSkipsFamily | GedcomProject.py:314-315 | when the husband has exactly one spousal family, the whole family is skipped, and so is the wife's check |
| RuleFacts.DeathBeforeBirthIff | GedcomProject.py:223-227 | US03 fires exactly when the death date is present and strictly before the birth date. A same-day death reports nothing, and a death without a birth date raises `TypeError` |
| RuleFacts.DivorceBeforeMarriageIff | GedcomProject.py:229-233 | US04 fires exactly when the divorce is strictly before the marriage, naming husband and wife. It raises only when a spouse lookup fails |
| RuleFacts.BirthBeforeMarriageCases | GedcomProject.py:270-280 | US08: a birth on or before the parents' marriage gives "born before married". Otherwise, with a divorce and a month difference `N >= 9`, exactly one message carrying `N` is given. Otherwise nothing |
| RuleFacts.BornOnMothersDeathDay | GedcomProject.py:295-298 | with a living father, US09 reports a child exactly when it was not born strictly before the mother's death, so the death day itself counts |
| RuleFacts.MarrDivBreakIgnoresRest | GedcomProject.py:242-243 | the first family with both spouses alive ends `marr_div_before_death`: later families are never looked at |
| RuleFacts.DeadHusbandHidesWife | GedcomProject.py:245-255 | when the husband is dead, the wife's death date plays no part in US05/US06 |
| RuleFacts.SameDaySpacingWith | GedcomProject.py:369-375 | the inner US13 loop flags nothing among siblings all born on one day |
| RuleFacts.SameDaySiblingsNotFlagged | GedcomProject.py:368-375 | US13 never flags siblings born on the same day |
| RuleFacts.SpacingWithBound | GedcomProject.py:369-375 | the inner loop adds at most one message per later sibling |
| RuleFacts.PairCountFormula | GedcomProject.py:368-369 | the count the two nested loops make, `(n-1) + (n-2) + … + 0`, is `n(n-1)/2`; `RuleFacts.SpacingFromPairs` uses it |
| RuleFacts.SpacingFromBound | GedcomProject.py:368-375 | US13 adds at most one message per pair of siblings |
| RuleFacts.SpacingFromPairs | GedcomProject.py:368-375 | so US13 adds at most `n(n-1)/2` messages for `n` siblings |
| RuleFacts.TallyCounts | GedcomProject.py:384-390 | `birthDayDict` maps each birth date of the children, and only those, to the number of children born that day |
| RuleFacts.CrowdedBirthsOnly | GedcomProject.py:391-394 | once the family name can be looked up, the loop over `birthDayDict` completes and each message it adds is the US14 message for that name |
| RuleFacts.CrowdedBirthsMeaning | GedcomProject.py:391-394 | the loop over `birthDayDict` adds messages exactly when some count is over 5 |
| RuleFacts.CrowdedKeyIff | GedcomProject.py:384-394 | some tallied count is over 5 exactly when more than five children share a birth date |
| RuleFacts.TooManyBirthsIff | GedcomProject.py:378-394 | US14 reports a family exactly when more than five of its children share a birth date, and only with that family's message |
| RuleFacts.ChildrenOfMembers | GedcomProject.py:454-461 | `get_childrenID` holds exactly the children of the person's spousal families that are keys |
| RuleFacts.SpouseInFirstCurrent | GedcomProject.py:463-470 | `get_spouse` gives the other spouse of the first family without a divorce: the wife for a male, otherwise the husband |
| RuleFacts.SpouseInAllDivorced | GedcomProject.py:463-470 | when every spousal family is divorced, `get_spouse` returns `None` |
| RuleFacts.CousinListReported | GedcomProject.py:443-446 | each US19 message comes with one recorded couple whose cousin's current spouse is the child, naming the child and then the cousin |
| RuleFacts.CousinAuntsReported | GedcomProject.py:442-446 | the same over the parent's siblings |
| RuleFacts.CousinSideReported | GedcomProject.py:441-446 | the same over one parent's side |
| RuleFacts.CousinChildrenReported | GedcomProject.py:440-452 | the same over a family's children |
| RuleFacts.NoMarriageToCousinReported | GedcomProject.py:437-452 | the same over all families |
| RuleFacts.CousinMessagesMeaning | GedcomProject.py:434-452 | every US19 message stands for one recorded couple: a cousin whose current spouse is the child, named child first and then cousin, and no couple is recorded in both orders. `CousinFacts.CousinCouples` says which pairs the couples are |
| RuleFacts.UniqueNamesIff | GedcomProject.py:498-505 | US23 reports nothing exactly when no two individuals share both name and birth date |
| RuleFacts.US07Step | GedcomProject.py:262-265 | one individual with an age adds its US07 message exactly when the age is at least 150 |
| RuleFacts.US07Exact | GedcomProject.py:259-265 | with all ages known, US07 adds exactly one message per individual aged 150 or more, in dict order |
| RuleFacts.US03NeverCrashes | GedcomProject.py:223-227 | US03 cannot raise when every individual has a birth date |
| RuleFacts.AnalyzedPeople | GedcomProject.py:48-49 | after `analyze`, every individual has an age and a birth date, so US03 cannot raise and US07 gives exactly its messages |
| RuleTriggers.FutureDatesOfPerson | GedcomProject.py:199-205 | US01 for an individual raises `TypeError` exactly when there is no birth date. Otherwise it adds the birth message exactly when the birth is after today, the death message exactly when there is a death after today, and nothing else |
| RuleTriggers.FutureDatesOfFamilyRaises | GedcomProject.py:191-197 | US01 for a family raises `TypeError` exactly when there is no marriage date, and `KeyError` when a spouse that a message must name is not a key |
| RuleTriggers.FutureDatesOfFamily | GedcomProject.py:192-197 | US01 for a family adds the marriage message exactly when the marriage is after today and the divorce message exactly when there is a divorce after today, each naming husband and wife, and nothing else |
| RuleTriggers.BornAfterWeddingIff | GedcomProject.py:209-221 | US02 succeeds exactly when both spouses are keys with birth dates and there is a marriage date; a missing spouse raises `KeyError`, a missing date `TypeError`. It adds one message exactly when a spouse was born after the marriage: the joint message when both were, otherwise the message naming the one who was |
| RuleTriggers.DeathBeforeWeddingIff | GedcomProject.py:237-257 | for a family with a dead spouse, US05/US06 raises `TypeError` exactly when there is no marriage date. Otherwise it adds its one message, naming both spouses, exactly when the death (the husband's if he died, else the wife's) is strictly before the marriage or strictly before the divorce |
| RuleTriggers.ParentsDeathRaises | GedcomProject.py:284-298 | US09 adds nothing for someone with no family of origin. It raises `KeyError` exactly when the family or a parent is not a key, `AttributeError` when the father has a death date and the child no birth date, and `TypeError` for the mother's death date with no birth date |
| RuleTriggers.ParentsDeathIff | GedcomProject.py:285-298 | US09 adds a message, carrying the month count, exactly when the father died nine or more calendar months before the birth, one exactly when the mother died on or before the birth day, and nothing else |
| RuleTriggers.ParentsTooOldRaises | GedcomProject.py:353-359 | US12 adds nothing for someone with no family of origin. It succeeds exactly when the family, both parents and all three ages exist, and otherwise raises `KeyError` or `TypeError` |
| RuleTriggers.ParentsTooOldIff | GedcomProject.py:354-359 | US12 adds a message exactly when the father is more than 80 years older than the child, one exactly when the mother is more than 60 years older, each naming parent and child, and nothing else |
| RuleTriggers.TooManySiblingsIff | GedcomProject.py:399-402 | US15 adds nothing for fewer than 15 children. With 15 or more it adds one message naming the family, or raises the family-name lookup's error |
| RuleTriggers.GenderRoleRaises | GedcomProject.py:488-495 | US21 raises exactly when the family name or a spouse cannot be looked up, and then only `KeyError` or `IndexError` |
| RuleTriggers.GenderRoleIff | GedcomProject.py:488-495 | US21 adds a message exactly when the husband is recorded `F` and one exactly when the wife is recorded `M`, each naming the family by the husband's last name with `/` stripped, and nothing else |
| RuleFolds.US01PeopleIff | GedcomProject.py:199-205 | the individual loop of US01 raises exactly when some individual has no birth date. Otherwise it adds exactly the birth and death messages of the individuals whose birth or death is after today |
| RuleFolds.US01FamiliesIff | GedcomProject.py:191-197 | the family loop of US01 raises exactly when some family has no marriage date, or a spouse to be named is missing. Otherwise it adds exactly the marriage and divorce messages of the families whose marriage or divorce is after today |
| RuleFolds.US01Meaning | GedcomProject.py:189-205 | `dates_before_curr`, when it does not raise, adds exactly the messages for the marriages, divorces, births and deaths after today |
| RuleScans.SpousesTooYoungIff | GedcomProject.py:304-309 | US10 for an individual raises `KeyError` or `AttributeError` unless every family is a key with a marriage date and the individual has a birth date. Otherwise it reports, with the number of years, exactly the families married at most 14 years after the birth year |
| RuleScans.SpacingStep | GedcomProject.py:370-375 | one pair of siblings raises `KeyError` or `TypeError` unless both are keys with birth dates. Otherwise the pair's message, with the day count, is added exactly when they were born more than 2 days and less than 8 calendar months apart |
| RuleScans.SpacingWithIff | GedcomProject.py:369-375 | the inner loop for sibling `i` raises unless it and every later sibling are keys with birth dates. Otherwise it adds exactly the messages of the pairs of `i` with a later sibling born more than 2 days and less than 8 months apart |
| RuleScans.SpacingWithRaises | GedcomProject.py:369-375 | the inner loop of `sibling_spacing` completes exactly when there is no later sibling or sibling `i` and all later ones are keys with birth dates, and otherwise raises `KeyError` or `TypeError` |
| RuleScans.SpacingWithAdded | GedcomProject.py:369-375 | with all those siblings born, the inner loop appends the messages of its too-close pairs in the order the loop meets them |
| RuleScans.SpacingFromIff | GedcomProject.py:368-375 | US13 for a family raises `KeyError` or `TypeError` unless it has at most one child or every child is a key with a birth date. Otherwise it adds exactly the messages of the pairs `i < j` born more than 2 days and less than 8 months apart |
| RuleScans.SpacingFromRaises | GedcomProject.py:368-375 | the outer loop completes exactly when there is at most one sibling left or all of them are keys with birth dates, and otherwise raises `KeyError` or `TypeError`; with at most one sibling left it adds nothing |
| RuleScans.SpacingFromAdded | GedcomProject.py:368-375 | with every child born, the double loop appends the messages of all too-close pairs, each pair `i < j` once, in the order the loops meet them |
| RuleScans.BigamyScanIff | GedcomProject.py:317-331 | the scan of a spouse's sorted families raises unless every family is a key and, after a divorced family, both marriages have dates. Otherwise the spouse's US11 message is in the list afterwards exactly when it was before or some family began while the one before it had no divorce, or after that one's marriage and before its divorce; it is the only message added |
| RuleScans.BigamyScanRaises | GedcomProject.py:317-331 | the scan of one spouse's families completes exactly when every family is a key and every compared date is there, and otherwise raises `KeyError` or `TypeError` |
| RuleScans.SpouseBigamyIff | GedcomProject.py:316-347 | a spouse with at most one family adds nothing. With more, their sorted families are scanned, and the spouse's message is present afterwards exactly when it was before or some family overlaps the one before it |
| RuleScans.DuplicateSpousesIff | GedcomProject.py:507-518 | US24 raises `KeyError` unless both spouses of every family are keys. Otherwise it reports exactly each family whose husband's name, wife's name and marriage date equal those of an earlier family |
| RuleScans.DuplicateChildrenIff | GedcomProject.py:522-530 | US25 for a family raises `KeyError` unless every child is a key. Otherwise it reports exactly each child whose name and birth date equal an earlier child's |
| RuleScans.DuplicateNamesAdded | GedcomProject.py:498-505 | US23 reports each individual whose name and birth date are already seen or belong to an earlier individual, and nothing else |
| KinFacts.ChildrenIdsMembers | GedcomProject.py:454-461 | `get_childrenID(a)` lists exactly the children of the families `a` is a spouse in |
| KinFacts.SiblingSpouseIff | GedcomProject.py:426-432 | US18 for one family of a person adds nothing without a family of origin. Otherwise it adds one message exactly when a spouse of the family other than the person is a child of the person's family of origin, naming the husband if he is such a sibling and else the wife. It raises only `KeyError`, when that family or such a spouse is missing |
| KinFacts.MarriedIntoSiblingsRaises | GedcomProject.py:480-482 | US20 for one sibling's children succeeds exactly when every child, and every family searched for its current spouse, exists; otherwise it raises `KeyError` |
| KinFacts.MarriedIntoSiblingsAdded | GedcomProject.py:480-482 | US20 for one sibling's children reports exactly each child whose current spouse, as `get_spouse` finds it, is one of the siblings |
| KinFacts.AuntsAndUnclesRaises | GedcomProject.py:478-482 | US20 for a family raises nothing but `KeyError` |
| KinFacts.AuntsAndUnclesAdded | GedcomProject.py:478-482 | US20 for a family reports exactly each child of one of its children whose current spouse is one of those children, an aunt or uncle |
| DescentFacts.HelpReports | GedcomProject.py:404-411 | `descendants_help` from an individual, when it ends without an error, reports exactly that individual and their descendants within the search depth whose family has the initial person as a spouse |
| DescentFacts.FamiliesReports | GedcomProject.py:406-411 | the search through an individual's families reports exactly what each of those families reports |
| DescentFacts.FamilyReports | GedcomProject.py:407-411 | the search through one family reports the individual when the initial person is one of its spouses, and then what its children's searches report |
| DescentFacts.ChildrenReports | GedcomProject.py:410-411 | the recursion into a family's children reports exactly what each child's search reports |
| DescentFacts.NoMarriageToDescendantsMeaning | GedcomProject.py:416-419 | US17 for one person, when it ends without an error, reports exactly the person's descendants, within as many generations as there are individuals, in whose families the person is a spouse |
| DescentFacts.HelpWithinBound | GedcomProject.py:404-411 | with no descent cycle, a search started with more depth than the individual's generation rank never runs out of depth |
| DescentFacts.NoMarriageToDescendantsWithinBound | GedcomProject.py:416-419 | with no descent cycle, US17 for one person never raises `RecursionError` |
| DescentFacts.US17WithinBound | GedcomProject.py:413-419 | with no descent cycle, `no_marriage_to_descendants` never raises `RecursionError` |
| DescentFacts.DescendantsWithinBound | GedcomProject.py:404-419 | with no descent cycle, every descendant at any depth is within the search depth, so the bound leaves no descendant out |
| DescentFacts.HelpRaises | GedcomProject.py:404-411 | `descendants_help` raises only `KeyError` or `RecursionError`; on tables where every referenced id is a key and every family has both spouses (`Records.Linked`), and from an individual whose families are keys, only `RecursionError` |
| DescentFacts.FamiliesRaises | GedcomProject.py:406-411 | the same for the search through an individual's families, when those families are keys |
| DescentFacts.FamilyRaises | GedcomProject.py:407-411 | the same for the search through one family: `KeyError` comes only from the family lookup or a spouse lookup, which cannot fail on linked tables |
| DescentFacts.ChildrenRaises | GedcomProject.py:410-411 | the same for the searches from a family's children, when the children are individuals |
| DescentFacts.NoMarriageToDescendantsRaises | GedcomProject.py:416-419 | US17 for one person raises only `KeyError` or `RecursionError`, and on linked tables, with the person's families keys, only `RecursionError` |
| DescentFacts.US17Raises | GedcomProject.py:413-419 | `no_marriage_to_descendants` over individuals listed with their own records raises only `KeyError` or `RecursionError`, and on linked tables only `RecursionError` |
| DescentFacts.US17Outcome | GedcomProject.py:413-419 | over the whole individual table, US17 raises only `KeyError` or `RecursionError`; `KeyError` only when the tables are not linked; `RecursionError` only when the descent has a cycle; so on linked tables without descent cycles it completes |
| CousinFacts.CousinListCouples | GedcomProject.py:443-446 | the loop over an aunt's or uncle's children records, for the child, only couples with those children, and records every one of them whose current spouse is the child, in one order or the other |
| CousinFacts.CousinAuntsCovers | GedcomProject.py:442-446 | the loop over a parent's siblings records every child of them whose current spouse is the child |
| CousinFacts.CousinSideCouples | GedcomProject.py:441-446 | one parent's side records only couples of the child with a grandchild of that parent's family of origin, and records every such grandchild whose current spouse the child is, in one order or the other |
| CousinFacts.CousinChildrenCouples | GedcomProject.py:440-452 | the loop over a family's children records only couples of a child with a cousin on either side, and every such couple whose cousin's current spouse is the child |
| CousinFacts.CousinCouples | GedcomProject.py:434-452 | every couple US19 records is a child of some family and a cousin of that family's children whose current spouse the child is; with each family listed once, every such pair is recorded. A cousin here is a grandchild of a parent's family of origin, which takes in the parent's own children |
| CousinFacts.SpouseInKnown | GedcomProject.py:463-470 | `get_spouse` completes when every family it looks at is a key |
| CousinFacts.CousinListRaises | GedcomProject.py:443-446 | the loop over an aunt's or uncle's children raises only `KeyError`, and completes on linked tables when the child and those children are individuals |
| CousinFacts.CousinAuntsRaises | GedcomProject.py:442-446 | the loop over a parent's siblings raises only `KeyError`, and completes on linked tables when the siblings are individuals |
| CousinFacts.CousinSideRaises | GedcomProject.py:441-446 | one parent's side raises only `KeyError`, and completes on linked tables when the parent is an individual |
| CousinFacts.CousinChildrenRaises | GedcomProject.py:440-452 | one family's children raise only `KeyError`, and complete on linked tables when both spouses and the children are individuals |
| CousinFacts.NoMarriageToCousinRaises | GedcomProject.py:437-452 | the loop over the families raises only `KeyError`, and completes on linked tables |
| CousinFacts.US19Raises | GedcomProject.py:434-452 | `no_marriage_to_cousin` raises only `KeyError`, and never on linked tables: only a dangling `fams`, `famc` or `chil` id, or a family without a husband or wife, makes it raise |
| Checker.CheckForErrors.constructor | GedcomProject.py:153-158 | holds the two dicts, today and the errors `analyze` found |
| Checker.CheckForErrors.CheckFamilyDates | GedcomProject.py:192-197 | produces exactly the messages, or the exception, of `Rules.DatesBeforeCurrFamily`, whose messages and errors `RuleTriggers.FutureDatesOfFamily` states |
| Checker.CheckForErrors.CheckPersonDates | GedcomProject.py:200-205 | agrees with `Rules.DatesBeforeCurrPerson`, whose messages and errors `RuleTriggers.FutureDatesOfPerson` states |
| Checker.CheckForErrors.DatesBeforeCurr | GedcomProject.py:189-205 | both loops of US01 agree with `Rules.US01`, whose messages and errors `RuleFolds.US01Meaning` states |
| Checker.CheckForErrors.IndiBirthBeforeMarriage | GedcomProject.py:207-221 | the loop agrees with `Rules.US02`, whose messages and errors `RuleTriggers.BornAfterWeddingIff` states |
| Checker.CheckForErrors.BirthBeforeDeath | GedcomProject.py:223-227 | the loop agrees with `Rules.US03` |
| Checker.CheckForErrors.MarrBeforeDiv | GedcomProject.py:229-233 | the loop agrees with `Rules.US04` |
| Checker.CheckForErrors.MarrDivBeforeDeath | GedcomProject.py:235-257 | the loop, `break` included, agrees with `Rules.MarrDivBeforeDeath`, whose messages and errors `RuleTriggers.DeathBeforeWeddingIff` states |
| Checker.CheckForErrors.NormalAge | GedcomProject.py:259-265 | the loop agrees with `Rules.US07` |
| Checker.CheckForErrors.CheckBirthInMarriage | GedcomProject.py:271-280 | agrees with `Rules.BirthBeforeMarriage` |
| Checker.CheckForErrors.BirthBeforeMarriage | GedcomProject.py:267-280 | the loop agrees with `Rules.US08` |
| Checker.CheckForErrors.CheckParentsAlive | GedcomProject.py:285-298 | agrees with `Rules.BirthBeforeDeathOfParents`, whose messages and errors `RuleTriggers.ParentsDeathIff` states |
| Checker.CheckForErrors.BirthBeforeDeathOfParents | GedcomProject.py:282-298 | the loop agrees with `Rules.US09`, whose messages and errors `RuleTriggers.ParentsDeathIff` states |
| Checker.CheckForErrors.CheckMarriageAges | GedcomProject.py:304-309 | the inner loop agrees with `Rules.SpousesTooYoung`, whose messages and errors `RuleScans.SpousesTooYoungIff` states |
| Checker.CheckForErrors.SpousesTooYoung | GedcomProject.py:300-309 | the loops agree with `Rules.US10`, whose messages and errors `RuleScans.SpousesTooYoungIff` states |
| Checker.CheckForErrors.AddErrorsIfNew | GedcomProject.py:532-536 | leaves the list that `Rules.AddErrorsIfNew` gives |
| Checker.CheckForErrors.BigamyScan | GedcomProject.py:317-331 | the loop with `count` and the previous dates agrees with `Rules.BigamyScan`, whose messages and errors `RuleScans.BigamyScanIff` states |
| Checker.CheckForErrors.NoBigamy | GedcomProject.py:311-347 | the loop, `continue` included, agrees with `Rules.NoBigamy`, whose messages and errors `RuleScans.SpouseBigamyIff` states |
| Checker.CheckForErrors.CheckParentsAge | GedcomProject.py:354-359 | agrees with `Rules.ParentsTooOld`, whose messages and errors `RuleTriggers.ParentsTooOldIff` states |
| Checker.CheckForErrors.ParentsTooOld | GedcomProject.py:349-359 | the loop agrees with `Rules.US12`, whose messages and errors `RuleTriggers.ParentsTooOldIff` states |
| Checker.CheckForErrors.CheckSpacing | GedcomProject.py:368-375 | the double loop agrees with `Rules.SpacingFrom`, whose messages and errors `RuleScans.SpacingFromIff` states |
| Checker.CheckForErrors.SiblingSpacing | GedcomProject.py:361-375 | the loop agrees with `Rules.US13`, whose messages and errors `RuleScans.SpacingFromIff` states |
| Checker.CheckForErrors.CountBirths | GedcomProject.py:384-390 | the counting loop builds exactly `Rules.Tally` of the birth dates, or raises their lookup error |
| Checker.CheckForErrors.CheckBirthCounts | GedcomProject.py:381-394 | agrees with `Rules.TooManyBirths` |
| Checker.CheckForErrors.ReportCrowded | GedcomProject.py:391-394 | the loop over the counted dates agrees with `Rules.CrowdedBirths` |
| Checker.CheckForErrors.TooManyBirths | GedcomProject.py:378-394 | the loop agrees with `Rules.US14` |
| Checker.CheckForErrors.TooManySiblings | GedcomProject.py:397-402 | the loop agrees with `Rules.US15`, whose messages and errors `RuleTriggers.TooManySiblingsIff` states |
| Checker.CheckForErrors.DescendantsHelp | GedcomProject.py:404-411 | the recursive search agrees with `Rules.DescendantsHelp`, whose messages `DescentFacts.HelpReports` states and whose errors `DescentFacts.HelpRaises` states |
| Checker.CheckForErrors.SearchFamily | GedcomProject.py:407-411 | one family of the search agrees with `Rules.DescendantFamily`, whose messages `DescentFacts.FamilyReports` states and whose errors `DescentFacts.FamilyRaises` states |
| Checker.CheckForErrors.SearchChildren | GedcomProject.py:410-411 | the loop over children agrees with `Rules.DescendantChildren`, whose messages `DescentFacts.ChildrenReports` states and whose errors `DescentFacts.ChildrenRaises` states |
| Checker.CheckForErrors.CheckDescendants | GedcomProject.py:416-419 | agrees with `Rules.NoMarriageToDescendants`, whose messages `DescentFacts.NoMarriageToDescendantsMeaning` states and whose errors `DescentFacts.NoMarriageToDescendantsRaises` states |
| Checker.CheckForErrors.NoMarriageToDescendants | GedcomProject.py:413-419 | the loop agrees with `Rules.US17`, whose messages `DescentFacts.NoMarriageToDescendantsMeaning` states and whose errors `DescentFacts.US17Outcome` states |
| Checker.CheckForErrors.CheckSiblingMarriages | GedcomProject.py:424-432 | agrees with `Rules.NoMarriageToSiblings`, whose messages and errors `KinFacts.SiblingSpouseIff` states |
| Checker.CheckForErrors.NoMarriageToSiblings | GedcomProject.py:421-432 | the loop agrees with `Rules.US18`, whose messages and errors `KinFacts.SiblingSpouseIff` states |
| Checker.CheckForErrors.GetChildrenId | GedcomProject.py:454-461 | the loop returns exactly `Rules.ChildrenIds`, whose members `RuleFacts.ChildrenOfMembers` describes |
| Checker.CheckForErrors.GetSpouse | GedcomProject.py:463-470 | the loop returns exactly `Rules.Spouse`, which `RuleFacts.SpouseInFirstCurrent` and `SpouseInAllDivorced` describe |
| Checker.CheckForErrors.CousinsAmong | GedcomProject.py:443-446 | leaves the messages and couples of `Rules.CousinList`, whose messages `CousinFacts.CousinListCouples` states and whose errors `CousinFacts.CousinListRaises` states |
| Checker.CheckForErrors.CousinsOnSide | GedcomProject.py:441-446 | leaves the messages and couples of `Rules.CousinSide`, whose messages `CousinFacts.CousinSideCouples` states and whose errors `CousinFacts.CousinSideRaises` states |
| Checker.CheckForErrors.CousinsInFamily | GedcomProject.py:440-452 | leaves the messages and couples of `Rules.CousinChildren`, whose messages `CousinFacts.CousinChildrenCouples` states and whose errors `CousinFacts.CousinChildrenRaises` states |
| Checker.CheckForErrors.NoMarriageToCousin | GedcomProject.py:434-452 | the loop agrees with `Rules.US19`, whose messages `CousinFacts.CousinCouples` states and whose errors `CousinFacts.US19Raises` states |
| Checker.CheckForErrors.CheckNiecesAndNephews | GedcomProject.py:480-482 | agrees with `Rules.MarriedIntoSiblings`, whose messages and errors `KinFacts.MarriedIntoSiblingsAdded` states |
| Checker.CheckForErrors.CheckAuntsAndUncles | GedcomProject.py:478-482 | agrees with `Rules.AuntsAndUncles`, whose messages and errors `KinFacts.AuntsAndUnclesAdded` states |
| Checker.CheckForErrors.CreepyAuntsAndUncles | GedcomProject.py:472-482 | the loop agrees with `Rules.US20`, whose messages and errors `KinFacts.AuntsAndUnclesAdded` states |
| Checker.CheckForErrors.CorrectGenderRole | GedcomProject.py:486-495 | the loop agrees with `Rules.US21`, whose messages and errors `RuleTriggers.GenderRoleIff` states |
| Checker.CheckForErrors.UniqueNamesAndBdays | GedcomProject.py:498-505 | the loop leaves exactly the list of `Rules.US23` |
| Checker.CheckForErrors.UniqueSpousesInFamily | GedcomProject.py:507-518 | the loop agrees with `Rules.US24`, whose messages and errors `RuleScans.DuplicateSpousesIff` states |
| Checker.CheckForErrors.CheckUniqueChildren | GedcomProject.py:523-530 | agrees with `Rules.UniqueChildren`, whose messages and errors `RuleScans.DuplicateChildrenIff` states |
| Checker.CheckForErrors.UniqueChildrenInFamily | GedcomProject.py:520-530 | the loop agrees with `Rules.US25`, whose messages and errors `RuleScans.DuplicateChildrenIff` states |
| Checker.CheckForErrors.RunAll | GedcomProject.py:159-180 | running every check in the constructor's order agrees with `Rules.CheckAll` |
| Project3.DeclareIndividual | Project3.py:26-30 | an `INDI` line keeps the machine well formed: each order lists its dict's keys once, and the current individual exists |
| Project3.DeclareFamily | Project3.py:31-35 | a `FAM` line keeps the machine well formed |
| Project3.SetField | Project3.py:48-65 | a level-1 field line changes no key and no key order |
| Project3.SetDate | Project3.py:69-79 | a date store changes no key and no key order |
| Project3.AnalyzeInfo | Project3.py:41-79 | `analyze_info`, when it does not raise, changes no key and no key order |
| Project3.Step | Project3.py:23-38 | one pass of the loop, when it does not raise, keeps the machine well formed |
| Project3.Run | Project3.py:21-38 | the whole loop, when it does not raise, leaves well-formed dicts |
| Project3.UpdateInfo | Project3.py:130-139 | `update_info` succeeds exactly when there is a birth date, and then sets `alive == (deat is None)`. Without a birth date it raises the `AttributeError` that `except TypeError` lets through |
| Project3.UpdateInfos | Project3.py:85-86 | the printing loop changes no key and no family, and can only fail with the missing-birth-date error |
| Project3.Analyze | Project3.py:8-16 | construction keeps the keys the line loop made; after a completed loop it fails only when the tables are printed, with the missing-birth-date error |
| Project3Facts.DeclareIndividualLine | Project3.py:26-30 | `0 @id@ INDI` installs a fresh default individual (`"NA"` name, no dates, no age, alive), replacing any earlier one, with no error. The order grows only for a new id, and `previous_line` is kept |
| Project3Facts.DeclareFamilyLine | Project3.py:31-35 | the same for families: a fresh `"NA"` family with no children replaces any earlier one |
| Project3Facts.HeaderLine | Project3.py:24-25 | a level-0 `HEAD`/`TRLR`/`NOTE` line changes nothing, `previous_line` included |
| Project3Facts.ShortLevelZeroLine | Project3.py:24-26 | any other level-0 line with fewer than three fields raises `IndexError` |
| Project3Facts.PassiveLine | Project3.py:36-38 | a two-field line, or any line before the first record, only becomes `previous_line` |
| Project3Facts.FieldLine | Project3.py:48-65 | `FAMS`/`CHIL` add the `@`-stripped argument to the set, and the other field tags overwrite. A tag of the other mode changes nothing, no other record changes, and the line becomes `previous_line` |
| Project3Facts.DateLine | Project3.py:66-79 | a `2 DATE` line raises on a previous line without two fields, or on a bad date. Otherwise it stores the date exactly when the previous line is `1` plus the matching event tag |
| Project3Facts.SetFieldUnaged | Project3.py:48-65 | a field line never computes an age |
| Project3Facts.SetDateUnaged | Project3.py:66-79 | a date line never computes an age |
| Project3Facts.AnalyzeInfoUnaged | Project3.py:41-79 | `analyze_info` never computes an age |
| Project3Facts.StepUnaged | Project3.py:23-38 | no pass of the loop computes an age |
| Project3Facts.RunUnaged | Project3.py:18-38 | `analyze` leaves every individual alive with age `"NA"` |
| Project3Facts.AgesOnlyWhenPrinting | Project3.py:14-16 | with `create_tables=False`, every individual keeps its default `alive` and `age` |
| Project3Facts.UpdateInfosMeaning | Project3.py:85-86 | the printing loop over distinct ids succeeds exactly when each has a birth date. It applies `update_info` to exactly those records |
| Project3Facts.AnalyzePrinted | Project3.py:8-16 | with tables printed, construction succeeds exactly when the lines are read and every individual has a birth date. Then each individual has `alive == (deat is None)` and the year-difference age, and no key or family changes |
| Project3Analyzer.Analyzer.constructor | Project3.py:8-11 | starts with two empty dicts |
| Project3Analyzer.Analyzer.SetIndividualField | Project3.py:50-58 | the in-place field update leaves the dicts as `Project3.SetField` says |
| Project3Analyzer.Analyzer.SetFamilyField | Project3.py:59-65 | the in-place field update leaves the dicts as `Project3.SetField` says |
| Project3Analyzer.Analyzer.SetIndividualDate | Project3.py:70-74 | the in-place date store leaves the dicts as `Project3.SetDate` says |
| Project3Analyzer.Analyzer.SetFamilyDate | Project3.py:75-79 | the in-place date store leaves the dicts as `Project3.SetDate` says |
| Project3Analyzer.Analyzer.AnalyzeInfo | Project3.py:41-79 | raises exactly when `Project3.AnalyzeInfo` does, with the same error, and otherwise leaves the dicts it gives |
| Project3Analyzer.Analyzer.Step | Project3.py:23-38 | one pass of the loop reaches the state `Project3.Step` gives, or raises its error |
| Project3Analyzer.Analyzer.Assemble | Project3.py:18-38 | the loop over all lines leaves the dicts `Project3.Run` gives, or raises its error |
| Project3Analyzer.Analyzer.UpdateInfos | Project3.py:85-86 | the in-place `update_info` loop succeeds exactly when `Project3.UpdateInfos` does, and then leaves its dicts |
| Project3Analyzer.Analyzer.Analyze | Project3.py:8-16 | construction, with or without printing, ends as `Project3.Analyze` says, or raises its error |
| Parser1.NthSpace | project03_Parser1.py:9-13 | finds the space that has exactly `n` spaces before it, or reports that the line has no more than `n` spaces |
| Parser1.NthSpaceStep | project03_Parser1.py:9-13 | a space counted after the first character is counted the same in the whole line |
| Parser1.NthSpaceUnique | project03_Parser1.py:9-13 | a space with `n` spaces before it is the one the count reaches |
| Parser1.SplitArgs | project03_Parser1.py:5-15 | `parseArgs` returns the whole line and `""`, or cuts the line at a space into the text before it, which holds exactly one space, and the text after it |
| Parser1.CutAt | project03_Parser1.py:10-11 | a second space at index `k` with something after it splits the line into `line[0:k]` and `line[k+1:]` |
| Parser1.ParseArgs | project03_Parser1.py:5-15 | the character loop counting spaces returns the text before and after the second space, or the line and `""` |
| Parser1.SplitArgsRoundTrip | project03_Parser1.py:11 | when the line is cut, first + `" "` + second is the line. Otherwise the first part is the whole line |
| Parser1.SplitHeadOneSpace | project03_Parser1.py:12-13 | when the line is cut, the first part holds exactly one space |
| Parser1.NoSplitPoint | project03_Parser1.py:15 | `parseArgs` returns `(line, "")` exactly when the line has fewer than two spaces, or just two with the second one last |
| Parser1.ParseLine | project03_Parser1.py:17-22 | what `parseLine` returns is a level and a tag without spaces and the arguments `parseArgs` cut off |
| Parser1.ParseLineMeaning | project03_Parser1.py:17-22 | `parseLine` succeeds exactly when the head holds one space. Then level and tag hold no space, the arguments are the remainder verbatim, and the three joined by spaces give back the line |
| Parser1.ParseLongLine | project03_Parser1.py:17-22 | a line with a second space that is not last always parses, its arguments everything after that space, spaces included |
| Parser1.OneWordLine | project03_Parser1.py:20 | a line of one word fails to unpack into level and tag |

## Left out

- Printing is not modelled. This covers the PrettyTable rendering of `create_pretty_tables`, `print_errors`, the `print(individual.name)` inside `normal_age`, and `makeTable`/`main` of the tokenizer.
- `create_pretty_tables` of GedcomProject.py is not modelled. It runs before the checks when tables are printed, and its family rows look up `self.individuals[fam.husb]`, which raises `KeyError` for a family without a husband or wife. The model runs the checks as if `create_tables` were false.
- `create_pretty_tables` of Project3.py is modelled only through its `update_info` calls. Its family rows are left out: they raise `KeyError` for a `"NA"` spouse.
- File reading is not modelled: `read_files`, `getIndis` and `getFams`. The input is a sequence of lines already split by `strip().split(" ", 2)` into one to three fields.
- Today's date is a parameter. `datetime.today()` and `now()` are not called.
- `strptime("%d %b %Y")` is a minimal `DD MON YYYY` parser. It takes one- or two-digit days, four-digit years and case-insensitive English month abbreviations, and rejects everything else. Locale handling and whitespace tolerance are not modelled.
- `int()` on a level is `Strings.ParseInt`, an optional sign followed by decimal digits. Surrounding whitespace and underscores are not accepted.
- Python leaves set iteration order unspecified. Where the code iterates a set without sorting it, the model iterates it in ascending order: `get_childrenID`, `get_spouse`, `descendants_help`, the cousin and aunt/uncle loops, `spouses_too_young`, `no_marriage_to_siblings` and `unique_children_in_family`.
- Records are values, not shared objects. Identity tests such as `self.individuals[x] == initial_indi` and `!= person` become tests on ids. That is what they are in the code, since every key holds its own object.
- The model keeps one error list. In the code, `all_errors` and the analyzer's `errors` are the same list object. `AnalyzeGEDCOM.all_errors` is that list afterwards.
- Rules.DescendantsHelp: the recursion carries a fuel bound. The bound is the number of individuals, and running out is reported as `RecursionError`. A descent cycle therefore ends in an error, as Python's recursion limit would end it, though not after the same number of calls. Python's own recursion limit, about 1000 frames, is not modelled: a descent chain without a cycle but deeper than that raises `RecursionError` in the program and not in the model. Without a cycle the fuel never runs out (`DescentFacts.US17WithinBound`), and it reaches every descendant (`DescentFacts.DescendantsWithinBound`).
- Checker.CheckForErrors.RunAll: after a check raises, the model says nothing about the partial error list. The Python program stops there with the exception.
- A check that compares or subtracts a missing date or age returns a `TypeError` or `AttributeError` result. It does not have a precondition that the value is present. This is what the code does, rather than what a well-formed file would need.
- The `Rules` functions are the rules themselves; each one's own contract states only that it appends to the errors. What it appends, and when it raises, is stated by a lemma about it, named below. Each `Checker` method is proved equal to its `Rules` function, so the same lemma describes the method.
- DatesBeforeCurrFamily: its own contract says only that it appends; `RuleTriggers.FutureDatesOfFamily` states what it appends.
- DatesBeforeCurrPerson: its own contract says only that it appends; `RuleTriggers.FutureDatesOfPerson` states what it appends.
- US01Families: its own contract says only that it appends; `RuleFolds.US01FamiliesIff` states what it appends.
- US01People: its own contract says only that it appends; `RuleFolds.US01PeopleIff` states what it appends.
- US01: its own contract says only that it appends; `RuleFolds.US01Meaning` states what it appends.
- IndiBirthBeforeMarriage: its own contract says only that it appends; `RuleTriggers.BornAfterWeddingIff` states what it appends.
- US02: its own contract says only that it appends; `RuleTriggers.BornAfterWeddingIff` states what it appends, family by family.
- DiedBeforeWedding: its own contract says only that it appends; `RuleTriggers.DeathBeforeWeddingIff` states what it appends.
- MarrDivBeforeDeath: its own contract says only that it appends; `RuleTriggers.DeathBeforeWeddingIff` states what it appends, family by family, with `RuleFacts.MarrDivBreakIgnoresRest` for the `break`.
- US05: its own contract says only that it appends; `RuleTriggers.DeathBeforeWeddingIff` states what it appends, family by family.
- BirthBeforeDeathOfParents: its own contract says only that it appends; `RuleTriggers.ParentsDeathIff` states what it appends.
- US09: its own contract says only that it appends; `RuleTriggers.ParentsDeathIff` states what it appends, individual by individual.
- SpousesTooYoung: its own contract says only that it appends; `RuleScans.SpousesTooYoungIff` states what it appends.
- US10: its own contract says only that it appends; `RuleScans.SpousesTooYoungIff` states what it appends, individual by individual.
- BigamyScan: its own contract says only that it appends; `RuleScans.BigamyScanIff` states what it appends.
- SpouseBigamy: its own contract says only that it appends; `RuleScans.SpouseBigamyIff` states what it appends.
- NoBigamy: its own contract says only that it appends; `RuleScans.SpouseBigamyIff` states what it appends, spouse by spouse, with `RuleFacts.OneFamilyHusbandSkipsFamily` for the `continue`; there is no closed form over the whole family list.
- US11: its own contract says only that it appends; `RuleScans.SpouseBigamyIff` states what it appends, spouse by spouse.
- ParentsTooOld: its own contract says only that it appends; `RuleTriggers.ParentsTooOldIff` states what it appends.
- US12: its own contract says only that it appends; `RuleTriggers.ParentsTooOldIff` states what it appends, child by child.
- SpacedPair: its own contract says only that it appends; `RuleScans.SpacingStep` states what it appends.
- SpacingWith: its own contract says only that it appends; `RuleScans.SpacingWithIff` states what it appends.
- SpacingFrom: its own contract says only that it appends; `RuleScans.SpacingFromIff` states what it appends.
- US13: its own contract says only that it appends; `RuleScans.SpacingFromIff` states what it appends, family by family.
- TooManySiblingsOf: its own contract says only that it appends; `RuleTriggers.TooManySiblingsIff` states what it appends.
- US15: its own contract says only that it appends; `RuleTriggers.TooManySiblingsIff` states what it appends, family by family.
- DescendantFamilies: its own contract says only that it appends; `DescentFacts.FamiliesReports` states what it appends; `DescentFacts.FamiliesRaises` states when it raises.
- DescendantFamily: its own contract says only that it appends; `DescentFacts.FamilyReports` states what it appends; `DescentFacts.FamilyRaises` states when it raises.
- DescendantChildren: its own contract says only that it appends; `DescentFacts.ChildrenReports` states what it appends; `DescentFacts.ChildrenRaises` states when it raises.
- NoMarriageToDescendants: its own contract says only that it appends; `DescentFacts.NoMarriageToDescendantsMeaning` states what it appends; `DescentFacts.NoMarriageToDescendantsRaises` states when it raises.
- US17: its own contract says only that it appends; `DescentFacts.NoMarriageToDescendantsMeaning` states what it appends, person by person; `DescentFacts.US17Outcome` states when it raises.
- SiblingSpouse: its own contract says only that it appends; `KinFacts.SiblingSpouseIff` states what it appends.
- NoMarriageToSiblings: its own contract says only that it appends; `KinFacts.SiblingSpouseIff` states what it appends, family by family.
- US18: its own contract says only that it appends; `KinFacts.SiblingSpouseIff` states what it appends, person by person and family by family.
- CousinList: its own contract says only that it appends; `CousinFacts.CousinListCouples` states what it appends, with `RuleFacts.CousinListReported` for the messages; `CousinFacts.CousinListRaises` states when it raises.
- CousinAunts: its own contract says only that it appends; `CousinFacts.CousinAuntsCovers` and `CousinFacts.CousinAuntsAdded` state what it appends; `CousinFacts.CousinAuntsRaises` states when it raises.
- CousinSide: its own contract says only that it appends; `CousinFacts.CousinSideCouples` states what it appends; `CousinFacts.CousinSideRaises` states when it raises.
- CousinChildren: its own contract says only that it appends; `CousinFacts.CousinChildrenCouples` states what it appends; `CousinFacts.CousinChildrenRaises` states when it raises.
- NoMarriageToCousin: its own contract says only that it appends; `CousinFacts.CousinCouples` states what it appends, with `RuleFacts.CousinMessagesMeaning` for the messages; `CousinFacts.NoMarriageToCousinRaises` states when it raises.
- US19: its own contract says only that it appends; `CousinFacts.CousinCouples` states what it appends, with `RuleFacts.CousinMessagesMeaning` for the messages; `CousinFacts.US19Raises` states when it raises.
- MarriedIntoSiblings: its own contract says only that it appends; `KinFacts.MarriedIntoSiblingsAdded` states what it appends.
- AuntsAndUncles: its own contract says only that it appends; `KinFacts.AuntsAndUnclesAdded` states what it appends.
- US20: its own contract says only that it appends; `KinFacts.AuntsAndUnclesAdded` states what it appends, family by family.
- CorrectGenderRole: its own contract says only that it appends; `RuleTriggers.GenderRoleIff` states what it appends.
- US21: its own contract says only that it appends; `RuleTriggers.GenderRoleIff` states what it appends, family by family.
- UniqueSpousesInFamily: its own contract says only that it appends; `RuleScans.DuplicateSpousesIff` states what it appends.
- US24: its own contract says only that it appends; `RuleScans.DuplicateSpousesIff` states what it appends.
- UniqueNamesAndBdays: its own contract says only that it appends; `RuleScans.DuplicateNamesAdded` states what it appends.
- US23: its own contract says only that it appends; `RuleScans.DuplicateNamesAdded` states what it appends.
- UniqueChildren: its own contract says only that it appends; `RuleScans.DuplicateChildrenIff` states what it appends.
- US25: its own contract says only that it appends; `RuleScans.DuplicateChildrenIff` states what it appends, family by family.
- Three behaviours of the code that the model keeps as written:
  - `previous_line` is updated by every line that reaches the end of the loop body, not only by two-field lines.
  - A `2 DATE` line raises when the previous line does not have exactly two fields. It does not skip the line.
  - A level-0 line with two fields that is not `HEAD`/`TRLR`/`NOTE` raises `IndexError`.
- US19 takes as cousins of a child every grandchild of a parent's family of origin. The parent is a child of that family too, so the child's own brothers and sisters are among them, and a marriage between siblings is reported as a marriage to a cousin. The model keeps this, as `CousinFacts.CousinCouples` states.
- The loop bodies of the Python methods are split into helper methods: one per record, one per family, and the recursion of US17 into three mutually recursive methods. The loops and the order of the messages are unchanged.
- The US27–US42 rules that appear only in the unit tests are not part of this model. GedcomProject.py does not define them.
