# Fantasy-hockey trade analyser: scoring and verdict engine in Dafny

The analyser reads a player CSV, builds rosters for the teams in a trade, scores every
roster and says who gains. It exists in two revisions, and both are modelled here.

- **Two-team revision (`App.jsx`)**:
  - A player is scored on three terms:
    - `now`: the sum of the player's category values;
    - `future`: from age brackets;
    - `cap`: from salary.
  - Draft-pick entries add a pick value to `future`.
  - A team's total weighs the three terms by the trade mode (contend or rebuild).
  - The trade is even when another team comes within 5 of the best total; otherwise the
    first team with the best total wins.
  - Per category, the two teams are compared with a deadband of 1.
- **Three-team revision (`src/App.jsx`)**:
  - Players are indexed by a normalised name key, and rosters are duplicate-free lists of keys.
  - A team is scored by a weighted total in every category (playoff weights are optional)
    plus its salary.
  - Every team at a category's maximum wins that category, and only sole winners are tallied.
  - The teams are ranked by tally with a stable sort. The verdict is "balanced" when the
    top two tallies are equal; otherwise it names the top team.
  - A team is flagged when its salary exceeds the cap of 117,600,000.

The JavaScript runtime behaviour the engine depends on is written out:

- `split`, `trim`, `toLowerCase` and `includes`, in module `Text`;
- `parseFloat` and `Number` on decimal text, in module `Numbers`, with the value of a
  numeral that has a decimal point worked out in module `Decimals`;
- the CSV row-to-record step shared by both revisions, in module `Csv`;
- the shared category tables, in module `Categories`.

Modules `TwoTeam` and `ThreeTeam` hold the two revisions.

Arithmetic uses exact `real` numbers. A JavaScript `NaN` is `None`. The state that the
source's closures capture is passed in as explicit parameters: the player list, the trade
mode, the playoff-focus flag and the player index.

Where the source changes state step by step, the model is a method with a loop proved
against a specification function:

- the record accumulator, in `FillRecord` and `NormalizeCsv`;
- the `scorePlayer` and `evaluateTeam` accumulators;
- the index loop, in `BuildIndex`;
- the nested `scoreTeam` loops;
- the `winCounts` loop.

## Model

| member | source | states |
|---|---|---|
| Text.TrimStart | App.jsx:80 | Leading-trim never grows the text, and what it keeps does not start with white space |
| Text.TrimStartSuffix | App.jsx:80 | Leading-trim removes exactly a white-space prefix and keeps the rest of the text as a suffix |
| Text.TrimEnd | App.jsx:80 | Trailing-trim never grows the text, and what it keeps does not end with white space |
| Text.TrimEndPrefix | App.jsx:80 | Trailing-trim removes exactly a white-space suffix and keeps the rest as a prefix |
| Text.Trim | App.jsx:80 | `trim` never grows the text, and the result neither starts nor ends with white space |
| Text.TrimSlice | src/App.jsx:76 | The trimmed text is a contiguous slice of the input; only white space lies before and after it |
| Text.TrimIdempotent | App.jsx:80 | Trimming twice equals trimming once |
| Text.ToLower | App.jsx:117 | Lower-casing keeps the length and maps every character by itself |
| Text.Split | App.jsx:83 | `split` always yields at least one piece, and no piece contains the separator |
| Text.JoinSplit | App.jsx:83 | Joining the pieces of a split with the separator gives back the text |
| Text.SplitAllEmpty | src/App.jsx:70 | Every piece is empty exactly when the text consists of separators only |
| Numbers.DigitRun | src/App.jsx:44 | The digit run is all digits, and the character after it is not a digit |
| Numbers.FractionValue | src/App.jsx:44 | The digits after a decimal point are worth at least 0 and less than 1 |
| Numbers.DecimalPrefix | src/App.jsx:44 | A numeric prefix, when found, is non-empty and lies within the text |
| Numbers.NatToString | App.jsx:136 | A natural number's numeral is non-empty and all digits |
| Numbers.DigitsValueOfNatToString | App.jsx:136 | Reading a numeral back gives the number it was written from |
| Numbers.PositiveNumeral | src/App.jsx:44 | A run of digits is read whole, as the value it spells |
| Numbers.NegativeNumeral | src/App.jsx:44 | A minus sign followed by digits is read whole, as the negated value |
| Numbers.ReadWhole | App.jsx:136 | For number text with no surrounding white space, `parseFloat`, `num` and `Number` all give its value |
| Numbers.IntegerRoundTrip | src/App.jsx:43-46 | Every integer written in decimal is read back exactly by `parseFloat`, `num` and `Number` |
| Numbers.DigitRunStops | src/App.jsx:44 | Digits followed by a non-digit give a digit run of exactly their length |
| Numbers.NumeralThenOther | src/App.jsx:44 | A numeral followed by a character that cannot continue it is read up to that character |
| Numbers.LenientPrefix | src/App.jsx:43-46 | `num` reads the numeral at the start of a cell and ignores trailing text ("12abc" is 12) |
| Numbers.StrictWhole | App.jsx:136 | `Number` gives NaN for a numeral followed by a non-space character |
| Numbers.NoDigitsNoNumber | src/App.jsx:43-46 | Text without a digit gives 0 under `num`; under `Number` it gives 0 when blank and NaN otherwise |
| Numbers.NoDigitsNoPrefix | src/App.jsx:44 | Text without a digit has no numeric prefix |
| Numbers.ParseFloat | src/App.jsx:43-46 | `parseFloat` of text without a single digit is NaN |
| Numbers.BlankNotParsed | src/App.jsx:43-46 | `parseFloat` of blank text (only white space, or nothing) is NaN |
| Numbers.Num | src/App.jsx:43-46 | Wherever `Number` reads a value from a cell, `num` reads the same value; this includes blank text, which is 0 under both |
| Numbers.NumberOf | App.jsx:136-143 | Whenever `Number` reads a value from text that is not blank, `parseFloat` reads the same value from it, so the strict reader never disagrees with the lenient one |
| Numbers.DigitRunIs | src/App.jsx:44 | The digit run is exactly the number of leading digits: n digits followed by a non-digit or the end give n |
| Numbers.UnsignedExtends | src/App.jsx:44 | An unsigned numeral that fills its text is read the same when a character follows that is neither a digit nor a point |
| Numbers.DecimalExtends | src/App.jsx:44 | The same for a numeral with a sign |
| Numbers.WholeIsPrefix | App.jsx:136-143 | Text that `Number` reads whole once trimmed is read by `parseFloat` to that same value |
| Decimals.ShiftProduct | src/App.jsx:44 | Shifting a value left by n decimal places multiplies it by 10^n |
| Decimals.DigitsValueCons | src/App.jsx:44 | A leading digit is worth its value times 10 to the number of digits after it, plus the value of those digits |
| Decimals.FractionShifted | src/App.jsx:44 | The digits after a point, shifted left by their count, give the integer those digits spell |
| Decimals.FractionQuotient | src/App.jsx:44 | The digits f after a point are worth DigitsValue(f) / 10^n, where n is the length of f; for example, "25" is 25/100 |
| Decimals.UnsignedDecimal | src/App.jsx:44 | Unsigned text d "." f, followed by a non-digit or the end, is read as DigitsValue(d) plus the value of f, and takes as many characters as d, the point and f together |
| Decimals.Unsigned | src/App.jsx:44 | Text that starts with neither sign is read exactly as its unsigned numeral |
| Decimals.DecimalNumeral | src/App.jsx:44 | A numeral d "." f with at least one digit, followed by a non-digit or the end, is read as DigitsValue(d) + DigitsValue(f) / 10^n, where n is the length of f and takes as many characters as d, the point and f together |
| Categories.AllCategoriesListed | src/App.jsx:9-11 | The category list holds every category exactly once; skater and goalie categories are disjoint |
| Categories.PlayoffWeight | src/App.jsx:17-34 | Every playoff weight lies between 0.85 and 1.3, and it is 1 exactly for A and PTS |
| Categories.Weight | src/App.jsx:121-123 | A category's weight is 1 without playoff focus and its playoff weight with it |
| Csv.Clean | App.jsx:80 | A missing value cleans to ""; a present one cleans to its trimmed text |
| Csv.Headers | App.jsx:84 | There is one header per comma-separated cell of the first line, each trimmed |
| Csv.AssignKeys | App.jsx:86-89 | The fields the accumulator writes are exactly the header names |
| Csv.AssignLast | App.jsx:86-89 | A header that does not occur again later holds the value written for it |
| Csv.Cells | App.jsx:86-89 | There is one cell per header |
| Csv.RowRecordKeys | App.jsx:86-89 | A row's record has exactly the trimmed header names as fields |
| Csv.RowRecordValues | App.jsx:86-89 | Each field holds the trimmed cell under its last header, or "" when the row is short |
| Csv.FillRecord | App.jsx:86-89 | Filling a record header by header gives the row's record |
| TwoTeam.CompareCategory | App.jsx:34-37 | The result is even iff the values are within 1 of each other; otherwise it is win iff a > b, and loss otherwise |
| TwoTeam.CompareCategoryMirror | App.jsx:248-249 | Comparing b with a gives the mirror of comparing a with b |
| TwoTeam.PickValue | App.jsx:56-67 | The value is 0 for an empty label or one with neither "1st" nor "2nd" (case-insensitive). "1st" wins over "2nd". The base 55 or 35 is scaled by 1.4 under rebuild and by 0.7 otherwise, so the value is in {0, 77, 49, 38.5, 24.5} |
| TwoTeam.ModeMultiplier | App.jsx:72-75 | Contending weighs `now` above 1 and `future` and `cap` below 1; rebuilding weighs `now` below 1 and `future` and `cap` above 1 |
| TwoTeam.NormalizeCsv | App.jsx:82-91 | One record per line after the first, blank lines included. Each record is that line's row record, with exactly the header names as fields |
| TwoTeam.FirstMatchFrom | App.jsx:118-120 | Over the records' search names (trimmed, lower-cased `Player`), the result is the first position from k onward whose name contains the query, or none if no later name does |
| TwoTeam.MatchPlayer | App.jsx:115-121 | Empty input matches nothing. Otherwise the result is the first record, in list order, whose name contains the lower-cased input; none only when no record matches |
| TwoTeam.BreakdownFields | App.jsx:135-139 | The breakdown has exactly the scored categories as keys, each holding the player's value |
| TwoTeam.FutureValue | App.jsx:141-142 | `future` is 30 iff age < 24 and -20 iff age > 30; it is 0 for ages 24 to 30 and for NaN |
| TwoTeam.ScorePlayer | App.jsx:126-146 | The loop computes the player's score |
| TwoTeam.PlayerScore | App.jsx:126-146 | No player scores zero, and `future` is always 30, 0 or -20 |
| TwoTeam.PlayerScoreFields | App.jsx:126-146 | Scoring no player gives zero. A player is a goalie iff trimmed `Position` is "G". `now` is the sum over that position's categories, the breakdown holds exactly those categories, `future` comes from the age rule with a missing age read as 28, and `cap` is -salary/1,000,000 |
| TwoTeam.MergeCats | App.jsx:160-162 | Merged breakdowns have the union of the keys, and per key the sum (a missing key counts as 0) |
| TwoTeam.AddZero | App.jsx:165 | The zero accumulator is neutral on both sides |
| TwoTeam.AddFuture | App.jsx:152-154 | Adding a draft pick's value changes `future` and nothing else |
| TwoTeam.MergeCatsAssociative | App.jsx:160-162 | Merging breakdowns is associative |
| TwoTeam.AddAssociative | App.jsx:149-166 | Adding valuations is associative |
| TwoTeam.AccumulateCategories | App.jsx:160-162 | The per-key loop computes the merge of the breakdowns |
| TwoTeam.EvaluateTeam | App.jsx:148-167 | The `reduce` loop computes the team valuation |
| TwoTeam.AddEntry | App.jsx:150-163 | One reduction step adds the entry's valuation to the accumulator: a pick's value to `future` alone, otherwise the matched player's score term by term |
| TwoTeam.TeamValuationStep | App.jsx:149-166 | Each entry adds its own valuation to the accumulator |
| TwoTeam.TeamValuationAppend | App.jsx:148-167 | Valuing a roster split in two gives the sum of the two parts' valuations |
| TwoTeam.EntryKinds | App.jsx:150-163 | A draft-pick entry adds only its pick value, to `future`. An entry that matches no player and is no pick adds nothing. An entry that matches a player adds that player's score, whose breakdown holds exactly the categories of the player's position |
| TwoTeam.NoPlayersNoValue | App.jsx:148-167 | A roster none of whose entries matches a player (picks and ignored entries only) has `now` and `cap` 0 and an empty category breakdown |
| TwoTeam.IgnoredEntry | App.jsx:152-162 | An unmatched entry without "pick" (the empty entry included) changes nothing, wherever it stands |
| TwoTeam.IgnoredEntryAlone | App.jsx:152-162 | A roster of one ignored entry is worth zero |
| TwoTeam.PicksOnlyTeam | App.jsx:152-155 | A roster of picks only has zero now, cap and categories, and its future is the sum of the pick values |
| TwoTeam.FirstRoundLabel | App.jsx:56-67 | "2024 1st pick" is a pick entry worth 77 under rebuild |
| TwoTeam.SecondRoundLabel | App.jsx:56-67 | "2025 2nd pick" is a pick entry worth 49 under rebuild |
| TwoTeam.TwoPicks | App.jsx:152-155 | Two pick entries add up their pick values in `future` |
| TwoTeam.PickExample | App.jsx:152-155 | Under rebuild, the roster ["2024 1st pick", "2025 2nd pick"] has future 126 and nothing else |
| TwoTeam.TwoIgnored | App.jsx:152-162 | Two ignored entries are worth zero |
| TwoTeam.UnmarkedPickExample | App.jsx:152 | Labels without the word "pick" are ignored, so ["2024 1st", "2025 2nd"] is worth zero |
| TwoTeam.ContainsFrom | App.jsx:152 | A query found at some position is contained in the text |
| TwoTeam.NotContains | App.jsx:152 | A query whose first character is absent is not contained |
| TwoTeam.TotalValue | App.jsx:174-181 | The total is now·1.25 + future·0.8 + cap·0.7 under contend, and now·0.85 + future·1.4 + cap·1.1 under rebuild |
| TwoTeam.TeamTotalAppend | App.jsx:174-181 | The total of a roster split in two is the sum of the parts' totals |
| TwoTeam.Max | App.jsx:227 | The best total is one of the totals and no total exceeds it |
| TwoTeam.IndexOf | App.jsx:231 | The result is the first position holding the value |
| TwoTeam.CountNear | App.jsx:229 | The near-best count never exceeds the number of teams |
| TwoTeam.CountNearOthers | App.jsx:229 | With a near team at k, the count exceeds 1 iff another team is also near |
| TwoTeam.CountNearNone | App.jsx:229 | The count is positive iff some team is near |
| TwoTeam.Decide | App.jsx:226-231 | "Even Trade" iff some other team is strictly within 5 of the best. Otherwise the winner is the first team holding the best total, and every other team is at least 5 below it |
| TwoTeam.Headline | App.jsx:228-231 | The headline is "Even Trade" exactly for an even trade; otherwise it is the winning team's name followed by " Wins" |
| TwoTeam.EvaluateTeams | App.jsx:169-172 | Every roster is valued, in order |
| TwoTeam.Totals | App.jsx:226 | Every team's total is computed, in order |
| TwoTeam.CategoryRows | App.jsx:234-252 | Fewer than two teams give no rows. Otherwise there is one row per category in list order, with both teams' values (0 when missing), the deadband comparison, and mirrored results |
| ThreeTeam.KeyChars | src/App.jsx:40-41 | Each character contributes at most one lower-case letter, and a lower-case letter contributes itself |
| ThreeTeam.NormalizeName | src/App.jsx:40-41 | A key holds only 'a'-'z' and is no longer than the name |
| ThreeTeam.NormalizeNameAppend | src/App.jsx:40-41 | Normalising distributes over concatenation |
| ThreeTeam.NormalizeKey | src/App.jsx:40-41 | A key normalises to itself |
| ThreeTeam.NormalizeNameIdempotent | src/App.jsx:40-41 | Normalising twice is normalising once |
| ThreeTeam.StripToKey | src/App.jsx:40-41 | Stripping everything outside 'a'-'z' leaves a key |
| ThreeTeam.NormalizeNameLowerStrip | src/App.jsx:40-41 | For a name without U+0130 or U+212A, the key is the name lower-cased and then stripped of every character outside 'a'-'z' |
| ThreeTeam.NormalizeNameCons | src/App.jsx:40-41 | A name is normalised one character at a time, each character giving its `KeyChars` |
| ThreeTeam.CapitalWordKey | src/App.jsx:40-41 | A capitalised word of ASCII letters normalises to the word in lower case |
| ThreeTeam.SpaceDropped | src/App.jsx:40-41 | A space between two parts of a name leaves no trace in the key |
| ThreeTeam.TwoWordKey | src/App.jsx:40-41 | A first and a last name, each a capitalised ASCII word, joined by a space give both words in lower case with no space; for example, "Joe Smith" gives "joesmith" |
| ThreeTeam.NonEmptyLines | src/App.jsx:70 | The filter keeps only non-empty lines, all taken from the input |
| ThreeTeam.NonEmptyLinesNone | src/App.jsx:70 | Nothing remains exactly when every line is empty |
| ThreeTeam.NonEmptyLinesOne | src/App.jsx:70 | A single line is kept exactly when it is not empty |
| ThreeTeam.NonEmptyLinesAppend | src/App.jsx:70 | Filtering a concatenation filters each part and keeps their order |
| ThreeTeam.PlayerRecord | src/App.jsx:73-79 | Every player record has a `_key` field, and it holds a key |
| ThreeTeam.PlayerRecordFields | src/App.jsx:73-79 | A record has the header names plus `_key` as fields. `_key` is the normalised `Name`, and every other header holds its trimmed cell or "" |
| ThreeTeam.ParsePlayers | src/App.jsx:69-79 | Loading fails iff no non-empty line remains. Otherwise there is one record per non-empty line after the header, in order |
| ThreeTeam.ParseFailsOnBlankText | src/App.jsx:70-71 | Loading fails exactly on text made of line breaks only |
| ThreeTeam.PlayerIndex | src/App.jsx:90-96 | Every entry of the index is stored under its own non-empty key and is one of the records |
| ThreeTeam.PlayerIndexKeys | src/App.jsx:90-96 | The index keys are exactly the non-empty `_key`s of the records |
| ThreeTeam.PlayerIndexLast | src/App.jsx:90-96 | A key maps to the last record carrying it |
| ThreeTeam.BuildIndex | src/App.jsx:90-96 | The loop builds the player index |
| ThreeTeam.AddPlayer | src/App.jsx:98-102 | The roster is unchanged if the key is unknown or already present; otherwise the key is appended. Adding keeps the roster duplicate-free and resolvable |
| ThreeTeam.AddPlayerAsWritten | src/App.jsx:98-102 | The as-written rule agrees with the corrected one except for the key "constructor", which it appends even though the key stands for no player |
| ThreeTeam.ConstructorKeyAdded | src/App.jsx:100 | With no players loaded, a name whose key is "constructor" is added as written and leaves an unresolvable roster. The corrected rule adds nothing |
| ThreeTeam.ConstructorKey | src/App.jsx:40-41 | The name "constructor" normalises to the key "constructor" |
| ThreeTeam.ScoreStep | src/App.jsx:113-126 | Each further roster key adds its contribution to every category and its AAV to the salary |
| ThreeTeam.ScoreTeam | src/App.jsx:108-129 | Every category is present. Its total is the weighted sum over the resolved keys, and the salary is the sum of `num(AAV)` |
| ThreeTeam.AddContributions | src/App.jsx:119-125 | The inner loop adds `num(value)`·weight to every category total |
| ThreeTeam.CategoryIndex | src/App.jsx:11 | Each category sits at exactly one position of the category list |
| ThreeTeam.CategoryTotalAppend | src/App.jsx:113-126 | Appending a key adds its contribution (none when unresolved) to every total and to the salary |
| ThreeTeam.Resolved | src/App.jsx:114-115 | The resolved keys all stand for players and are no more than the roster |
| ThreeTeam.UnresolvedKeysIgnored | src/App.jsx:114-115 | Unresolved keys add nothing: a roster totals as its resolved keys do |
| ThreeTeam.UnresolvedSalaryIgnored | src/App.jsx:114-117 | Unresolved keys add no salary |
| ThreeTeam.ContributionScaling | src/App.jsx:120-124 | Under playoff focus, a player's contribution is the regular one times the playoff weight |
| ThreeTeam.WeightScaling | src/App.jsx:121-123 | Any value weighted under playoff focus is its regular weighting times the playoff weight |
| ThreeTeam.PlayoffScaling | src/App.jsx:119-125 | Every team total under playoff focus is the regular total times the category's playoff weight |
| ThreeTeam.NoKnownPlayers | src/App.jsx:108-129 | A roster none of whose keys stands for a player totals 0 in every category and in salary |
| ThreeTeam.SalaryNonNegative | src/App.jsx:108-129 | With no negative AAV in the index, a roster's salary is never negative |
| ThreeTeam.PerTeam.Set | src/App.jsx:164 | Setting one team's value changes only that team's value |
| ThreeTeam.MaxValue | src/App.jsx:148 | The maximum is at least every team's value and equals one of them |
| ThreeTeam.Winners | src/App.jsx:141-154 | The winners are never empty. A team is a winner iff no team has a larger value, and the winners keep the order A, B, C |
| ThreeTeam.SoleWinner | src/App.jsx:163-164 | A team is the only winner iff its value is strictly above both others |
| ThreeTeam.CategoryResults | src/App.jsx:141-154 | There is one result per category, in list order. Each result's winners are non-empty and are exactly the teams that no team beats in that category |
| ThreeTeam.SoleWinsBound | src/App.jsx:160-166 | The three tallies add up to at most the number of categories |
| ThreeTeam.WinCounts | src/App.jsx:160-166 | The loop counts, per team, the categories it wins alone |
| ThreeTeam.Tally | src/App.jsx:160-166 | Each team's tally is its number of sole wins, and the three tallies add up to at most the number of categories |
| ThreeTeam.InsertDesc | src/App.jsx:168-170 | Inserting adds exactly one entry |
| ThreeTeam.SortDesc | src/App.jsx:168-170 | Sorting keeps the number of entries |
| ThreeTeam.InsertDescPermutes | src/App.jsx:168-170 | Inserting adds the entry and loses nothing |
| ThreeTeam.SortDescPermutes | src/App.jsx:168-170 | The ranking is a permutation of the entries |
| ThreeTeam.InsertDescBelow | src/App.jsx:168-170 | Inserting keeps every entry at or below a bound that all entries respect |
| ThreeTeam.InsertDescSorted | src/App.jsx:168-170 | Inserting into a descending list keeps it descending |
| ThreeTeam.SortDescSorted | src/App.jsx:168-170 | The ranking is ordered by tally, largest first |
| ThreeTeam.SortHead | src/App.jsx:168-170 | The top of the ranking is the first entry with the largest tally (the sort is stable) |
| ThreeTeam.Ranked | src/App.jsx:168-170 | The ranking, written out case by case, has three entries |
| ThreeTeam.RankedOrder | src/App.jsx:168-170 | Sorting the tallies gives that case-by-case ranking, ties staying in the order A, B, C |
| ThreeTeam.InsertIntoTwo | src/App.jsx:168-170 | An entry lands before the first entry with a smaller tally |
| ThreeTeam.VerdictFrom | src/App.jsx:172-175 | A verdict naming a team names the first of the ranking. On a ranking sorted largest first, some team is named exactly when the first tally is strictly above every other |
| ThreeTeam.VerdictOf | src/App.jsx:168-175 | A team that the verdict names has won at least one category |
| ThreeTeam.VerdictText | src/App.jsx:172-175 | The text is "Trade is balanced" exactly for a balanced verdict; otherwise it reads "Team X gains the most value" |
| ThreeTeam.LeadsCases | src/App.jsx:172-175 | A team leads iff its tally is strictly above both others |
| ThreeTeam.VerdictMeaning | src/App.jsx:172-175 | The trade is balanced iff two teams share the top tally. Otherwise it names the team whose tally is strictly above both others |
| ThreeTeam.RankedVerdict | src/App.jsx:172-175 | The same, read off the case-by-case ranking |
| ThreeTeam.OverCap | src/App.jsx:249 | A team is flagged exactly when its salary is strictly above 117,600,000; a salary exactly at the cap is not flagged |
| ThreeTeam.OverCapStays | src/App.jsx:249 | If no player's AAV is negative, adding a player to a team over the cap keeps it over the cap |
| ThreeTeam.ScoresComplete | src/App.jsx:131-135 | Every team score holds a total for every category |
| ThreeTeam.ScoreTeams | src/App.jsx:131-135 | The three rosters are scored |
| ThreeTeam.SameScore | src/App.jsx:108-129 | A score holding a roster's every total and salary is that roster's score |
| ThreeTeam.CompareTeams | src/App.jsx:131-175 | The verdict is the one computed from the sole-win tallies of the scored rosters. A team is flagged over the cap iff its salary is strictly above 117,600,000 |

## Left out

- File reading, React state and hooks, and rendering are not modelled. This covers `FileReader`, `useState`, `useMemo`, the roster setters and all JSX, including the glyphs, colours and `toLocaleString`. Inputs and rosters are explicit parameters.
- Parts of `App.jsx` are not modelled because they cannot run:
  - the module-level `useState` (line 4);
  - the stray markup at lines 182-213 and 222-224;
  - the playoff-weight lines that use undefined names (219-220).
  The two-team revision therefore applies no playoff weights. Its winner rule and category rows follow the evident intent of lines 226-252.
- Numbers.ParseFloat and Numbers.NumberOf read plain decimal notation only. They do not model exponents ("1e3"), hexadecimal, "Infinity" or binary floating-point rounding; values are exact reals. Text with no digit, "Infinity" included, gives 0 under `num`, as it does in the source.
- TwoTeam.StatValue and TwoTeam.SalaryValue read a non-numeric cell as 0. In the source, `Number` gives NaN there, and NaN spreads into the sums.
- Text.ToLower maps ASCII letters only. The key builder `ThreeTeam.KeyChars` does cover the two non-ASCII characters whose lower case contains a letter a-z: U+0130 and U+212A.
- Plain-object quirks other than the `constructor` lookup are not modelled. A header named `__proto__` would not become a field in the source, and fields have no order in the model.
- `SALARY_CAP` in `App.jsx` (line 3) is never used there; only the three-team revision flags teams over the cap.
- Three behaviours a reader might not expect are kept as the code has them:
  - The two-team CSV reader keeps blank lines as records.
  - The three-team reader drops only lines that are exactly empty; lines holding only white space are kept.
  - The pick labels "2024 1st" and "2025 2nd" are worth nothing in the two-team revision, because an entry must also contain "pick" to count as a draft pick (`TwoTeam.UnmarkedPickExample`).
- With no non-empty line, the three-team load throws in the source and the player list keeps its old value; `ThreeTeam.ParsePlayers` returns None.

## Findings

| source | as written | input that shows it | evidently intended | confidence | as-written member | corrected member |
|---|---|---|---|---|---|---|
| src/App.jsx:98-102 | The index is a plain object, so looking up a key also sees inherited properties. The key "constructor" finds `Object.prototype.constructor`, which is truthy, so the key is added | `addPlayer("Constructor", setter)` with no player named Constructor | Add a key only when it stands for a loaded player | not executed | ThreeTeam.ConstructorKeyAdded | ThreeTeam.AddPlayer |
