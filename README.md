# Small utility scripts, modelled and verified in Dafny

This project models the self-contained logic inside a collection of small
scripts and proves what each one promises. The scripts are:

- a grocery price comparator: unit aliases, package sizes, unit-price
  conversion, `$` prices, normalisation, the store-by-store fetch loop, and
  the cheapest-store summary;
- a Bulls & Cows game hook: scoring, secret generation, and the
  add/remove/submit/reset transitions;
- two placeholder template fillers (JSON and Excel variants):
  `KEY=VALUE` parsing, override order, the four rewrite forms, and the
  batch loop with its file names;
- five equity-linked note (ELN) calculators: strike, final outcome,
  payoff, solve-for, and classification;
- a FIX tag extractor: one column per tag, one entry per log line, and
  the table that is built only when the columns have one length;
- two character counters: histograms, sorted items, and the text report;
- three folder comparers: set partitions, modified/same by hash, case
  folding, and duplicate counting;
- a byte-size formatter that picks B, KB, MB or GB.

Modules, one file each:

| file | module | models |
|---|---|---|
| `wrappers.dfy` | `Wrappers` | `Option` and `Result` |
| `text.dfy` | `Text` | ASCII character classes, `lower`, `strip`, `split`/`join`, integer text |
| `ordering.dfy` | `Ordering` | string order, sorting a set |
| `grocery_units.dfy` | `GroceryUnits` | unit aliases, size extraction, conversion, price parsing, normalisation |
| `grocery_compare.dfy` | `GroceryCompare` | the fetch loop and `pick_cheapest` |
| `bulls_cows.dfy` | `BullsCows` | the game hook |
| `template_fill.dfy` | `TemplateFill` | both template fillers |
| `eln.dfy` | `Eln` | the ELN calculators and structured-product scripts |
| `fix_tags.dfy` | `FixTags` | the FIX tag extractor |
| `char_count.dfy` | `CharCount` | both character counters |
| `folder_compare.dfy` | `FolderCompare` | the three folder comparers |
| `readable_bytes.dfy` | `ReadableBytes` | `bytes_to_readable` |

**Pure and imperative code.** Where a script computes a value from its
inputs, the model is a function. Where it changes things step by step, the
model is a method with a loop, proved against a specification function.
The step-by-step scripts are:

- the fetch loop;
- the scoring loops;
- the dictionary-filling loops;
- the template rewrite loop;
- the FIX extraction loop;
- the counting loops;
- the scan and walk loops;
- the unit loop.

Numbers are Dafny `real`s, so arithmetic and boundary comparisons are exact.

**Where the code and its description disagree, the model follows the code:**

- **FIX pattern is anchored.** The extraction pattern at
  `finiq-python-projects/7_FIX_Tags_Extraction/FIX_Tags_Extraction.py:26`
  contains invisible SOH (0x01) bytes. It reads `\x01TAG=(.*?)(?=\x01|$)`:
  - a tag is only found right after an SOH, so `135=x` does not satisfy tag
    35, and a tag in a line's first field is not found;
  - the value runs to the next SOH or to the end of the line (a final
    newline excluded).
- **Grocery fetching is sequential.** The loop visits the stores one after
  the other on one page; it is not concurrent.
- **Items without a hit get no summary row.** An item for which no store
  returned a hit produces no row in the summary at all.
- **Tied groups have no fixed order.** The summary is sorted by query with
  an unstable sort, so groups tied on the query have no promised order.
  The model fixes one order and promises only the sort by query.

## Model

| member | source | states |
|---|---|---|
| GroceryUnits.IdentifyUnit | finiq-python-projects/10_GroceryComparison/grocery_price_compare.py:105-127 | the result is a unit iff it is the first unit in table order (lb, oz, gal, l, count) with an alias standing alone in the lower-cased text, or it is count when no alias occurs and the text hints at a dozen; otherwise nothing |
| GroceryUnits.IdentifyWord | finiq-python-projects/10_GroceryComparison/grocery_price_compare.py:118-127 | for a word of letters only, identify_unit is the alias table lookup of the lower-cased word (with the doz/dozen hint) |
| GroceryUnits.SizeAliasesIdentified | finiq-python-projects/10_GroceryComparison/grocery_price_compare.py:105-111 | every alias of the size table is identified as its canonical unit |
| GroceryUnits.FirstMentioned | finiq-python-projects/10_GroceryComparison/grocery_price_compare.py:121-124 | the scan over the units returns the first mentioned one, or nothing when none is mentioned |
| GroceryUnits.ExtractSize | finiq-python-projects/10_GroceryComparison/grocery_price_compare.py:130-145 | the result is the first number-then-unit occurrence in the lower-cased text; when there is none, 12 count if "dozen" occurs, else nothing; quantities are never negative |
| GroceryUnits.OuncesIn | finiq-python-projects/10_GroceryComparison/grocery_price_compare.py:113-115 | every unit holds a positive number of ounces: 16 per pound, 128 per gallon, 128 / 3.78541 per liter |
| GroceryUnits.ConvertUnitPrice | finiq-python-projects/10_GroceryComparison/grocery_price_compare.py:168-214 | a unit equal to the target's unit is returned unchanged; a number is produced exactly for the same unit or the six oz/lb, oz/gal and l/gal conversions, and it is the same price per ounce as the input (result × ounces in the source unit = input × ounces in the target unit) |
| GroceryUnits.ConversionExamples | finiq-python-projects/10_GroceryComparison/grocery_price_compare.py:168-214 | $0.25/oz is $4/lb and back, $0.03125/oz is $4/gal and back, $1/l is $3.78541/gal and back |
| GroceryUnits.ConversionsAreInverse | finiq-python-projects/10_GroceryComparison/grocery_price_compare.py:113-115 | each conversion pair with factors 16, 128 and 3.78541 is mutually inverse |
| GroceryUnits.CrossDimensionRefused | finiq-python-projects/10_GroceryComparison/grocery_price_compare.py:192-214 | conversions across dimensions (weight, volume, count) yield nothing |
| GroceryUnits.ParsePrice | finiq-python-projects/10_GroceryComparison/grocery_price_compare.py:382-389 | no text, empty text or text without `$` gives nothing; otherwise, on the text with its commas removed, the price is the match at the first position where `$`-number matches, and nothing iff it matches nowhere; a price is never negative |
| GroceryUnits.ParsePriceWhole | finiq-python-projects/10_GroceryComparison/grocery_price_compare.py:385-389 | `$n` parses back to n |
| GroceryUnits.ParsePriceGrouped | finiq-python-projects/10_GroceryComparison/grocery_price_compare.py:385-389 | `$a,b` with digit groups a and b parses as the number a and b spell together (thousands separators are dropped) |
| GroceryUnits.RemoveCommasKeeps | finiq-python-projects/10_GroceryComparison/grocery_price_compare.py:388 | removing commas keeps every other character |
| GroceryUnits.FindUnitPrice | finiq-python-projects/10_GroceryComparison/grocery_price_compare.py:150-151 | the `$value/word` match at the first position where it matches, the word non-empty letters; nothing iff it matches nowhere |
| GroceryUnits.SizePrice | finiq-python-projects/10_GroceryComparison/grocery_price_compare.py:158-163 | a price iff there is a size, its quantity is non-zero and its unit converts to the target; then price × quantity is the total measured per target unit (price × quantity × ounces in the size unit = total × ounces in the target unit) |
| GroceryUnits.NormalizePrice | finiq-python-projects/10_GroceryComparison/grocery_price_compare.py:146-165 | with no or empty unit-price text, or a text where the unit-price pattern matches nowhere, the size-derived price is used; with a match, a recognised unit word decides through the conversion, an unrecognised one falls through to the size-derived price |
| GroceryUnits.UnitPriceTextPreferred | finiq-python-projects/10_GroceryComparison/grocery_price_compare.py:151-157 | a recognised unit in the unit-price text decides the result, even a refused conversion, whatever the total or name |
| GroceryUnits.UnknownUnitFallsThrough | finiq-python-projects/10_GroceryComparison/grocery_price_compare.py:151-160 | an unrecognised unit word falls through to the size-derived price |
| GroceryUnits.FluidOunceTextFallsThrough | finiq-python-projects/10_GroceryComparison/grocery_price_compare.py:150-160 | a vendor price per fluid ounce (`$0.25/fl oz`) is ignored, since the captured word `fl` names no unit, and the size-derived price is used |
| GroceryUnits.ZeroQuantityGivesNothing | finiq-python-projects/10_GroceryComparison/grocery_price_compare.py:158-165 | with no unit-price text, a zero package quantity gives no price, so nothing is divided by zero |
| GroceryCompare.Finish | finiq-python-projects/10_GroceryComparison/grocery_price_compare.py:414-415 | the hit keeps its fields, gets the item's target, and has no normalised price when the total is missing or zero |
| GroceryCompare.FinishConsistent | finiq-python-projects/10_GroceryComparison/grocery_price_compare.py:415 | the normalised price is the normaliser's value exactly when the hit has a total |
| GroceryCompare.FetchAll | finiq-python-projects/10_GroceryComparison/grocery_price_compare.py:407-451 | the loop's table is the items' blocks in order, each the enabled stores' finished hits in store order |
| GroceryCompare.StoreRowsSound | finiq-python-projects/10_GroceryComparison/grocery_price_compare.py:409-448 | every row of an item's block is the finished hit of an enabled store that returned one; at most one per store |
| GroceryCompare.StoreRowsComplete | finiq-python-projects/10_GroceryComparison/grocery_price_compare.py:409-448 | every enabled store with a hit contributes its row (a failing store is skipped, not fatal) |
| GroceryCompare.StoreRowsOrdered | finiq-python-projects/10_GroceryComparison/grocery_price_compare.py:409-448 | rows of one item appear in the fixed store order |
| GroceryCompare.AllRowsSound | finiq-python-projects/10_GroceryComparison/grocery_price_compare.py:407-451 | every table row comes from some item and enabled store with a hit; at most five rows per item |
| GroceryCompare.AllRowsComplete | finiq-python-projects/10_GroceryComparison/grocery_price_compare.py:407-451 | every (item, enabled store) hit appears in the table |
| GroceryCompare.AllRowsConsistent | finiq-python-projects/10_GroceryComparison/grocery_price_compare.py:415 | every table row has a price only when it has a total, and then it is the normaliser's |
| GroceryCompare.AllRowsKeys | finiq-python-projects/10_GroceryComparison/grocery_price_compare.py:407-451 | the table's (query, target) groups are exactly the items with at least one hit |
| GroceryCompare.KeyLeIsTotalOrder | finiq-python-projects/10_GroceryComparison/grocery_price_compare.py:461 | the group order is a total order |
| GroceryCompare.Cheapest | finiq-python-projects/10_GroceryComparison/grocery_price_compare.py:466-476 | nothing iff every price in the group is missing; otherwise a priced row of the group whose price is at most every other price |
| GroceryCompare.Group | finiq-python-projects/10_GroceryComparison/grocery_price_compare.py:461 | a group holds exactly the rows with its key |
| GroceryCompare.StoreMin | finiq-python-projects/10_GroceryComparison/grocery_price_compare.py:478-484 | a store's price exists iff one of its rows is priced, and is the minimum of its priced rows |
| GroceryCompare.PerStore | finiq-python-projects/10_GroceryComparison/grocery_price_compare.py:478-484 | the per-store matrix has exactly the stores with a priced row, each at its minimum |
| GroceryCompare.Summarize | finiq-python-projects/10_GroceryComparison/grocery_price_compare.py:461-488 | a group's summary carries its key, the cheapest row (none iff all prices missing) and the per-store minima |
| GroceryCompare.SortedKeys | finiq-python-projects/10_GroceryComparison/grocery_price_compare.py:477-489 | the groups, each once, ordered by query |
| GroceryCompare.PickCheapest | finiq-python-projects/10_GroceryComparison/grocery_price_compare.py:456-490 | empty in, empty out; one row per group, in sorted key order |
| GroceryCompare.PickCheapestRows | finiq-python-projects/10_GroceryComparison/grocery_price_compare.py:461-488 | every output row is the summary of its own group |
| GroceryCompare.PickCheapestGroups | finiq-python-projects/10_GroceryComparison/grocery_price_compare.py:456-490 | the output has exactly one row per group, sorted by query |
| GroceryCompare.SummaryRowForItem | finiq-python-projects/10_GroceryComparison/grocery_price_compare.py:407-490 | an item has a summary row iff some enabled store returned a hit for it |
| GroceryCompare.SummaryRowsFromItems | finiq-python-projects/10_GroceryComparison/grocery_price_compare.py:407-490 | every summary row belongs to one of the items |
| BullsCows.AllPairsScore | lovable/bulls-cows-challenge/src/hooks/useGameLogic.ts:30-47 | the nested loop's counts over all nine position pairs are the bulls and the cows |
| BullsCows.CalculateBullsAndCows | lovable/bulls-cows-challenge/src/hooks/useGameLogic.ts:30-47 | bulls are the positions that agree, cows the digit matches at different positions |
| BullsCows.ScoreCountsSharedDigits | lovable/bulls-cows-challenge/src/hooks/useGameLogic.ts:30-47 | for distinct digits bulls + cows is the number of shared digits, at most 3 |
| BullsCows.ThreeBullsIffEqual | lovable/bulls-cows-challenge/src/hooks/useGameLogic.ts:37-41 | three bulls iff the guess is the target |
| BullsCows.CorrectGuessHasNoCows | lovable/bulls-cows-challenge/src/hooks/useGameLogic.ts:30-47 | the target scored against itself is three bulls, no cows |
| BullsCows.GenerateUniqueDigits | lovable/bulls-cows-challenge/src/hooks/useGameLogic.ts:19-28 | the secret is three distinct digits in 1..9 |
| BullsCows.NewGame | lovable/bulls-cows-challenge/src/hooks/useGameLogic.ts:50-56 | the initial and reset state: the target, no guesses, empty current guess, playing, 9 attempts |
| BullsCows.AddDigit | lovable/bulls-cows-challenge/src/hooks/useGameLogic.ts:58-67 | a no-op on a full guess, a finished game or a repeated digit; otherwise the digit is appended |
| BullsCows.RemoveDigit | lovable/bulls-cows-challenge/src/hooks/useGameLogic.ts:69-77 | a no-op on an empty guess or a finished game; otherwise exactly the last digit is dropped |
| BullsCows.SubmitGuess | lovable/bulls-cows-challenge/src/hooks/useGameLogic.ts:79-108 | a no-op unless three digits while playing; otherwise one scored guess appended, current guess cleared, one attempt used, won iff three bulls, lost iff out of attempts without them |
| BullsCows.NewGameValid | lovable/bulls-cows-challenge/src/hooks/useGameLogic.ts:50-56 | the initial state satisfies the game invariant |
| BullsCows.AddDigitPreservesValid | lovable/bulls-cows-challenge/src/hooks/useGameLogic.ts:58-67 | addDigit keeps the invariant (current guess distinct, at most 3 digits) |
| BullsCows.RemoveDigitPreservesValid | lovable/bulls-cows-challenge/src/hooks/useGameLogic.ts:69-77 | removeDigit keeps the invariant |
| BullsCows.SubmitGuessPreservesValid | lovable/bulls-cows-challenge/src/hooks/useGameLogic.ts:79-108 | submitGuess keeps the invariant, including guesses + attempts left = 9 and every guess scored against the target |
| BullsCows.FinishedGameIsFrozen | lovable/bulls-cows-challenge/src/hooks/useGameLogic.ts:58-84 | once won or lost, no transition changes the state |
| BullsCows.AttemptsUsedAreGuesses | lovable/bulls-cows-challenge/src/components/BullsCowsGame.tsx:49 | the attempts used are the guesses made; a finished game has at least one guess |
| BullsCows.NoAttemptsMeansOver | lovable/bulls-cows-challenge/src/hooks/useGameLogic.ts:93-98 | with no attempts left the game is over after exactly 9 guesses |
| TemplateFill.Get | hr-utility/email-template-bot/excel/fill_excel.py:127-130 | dictionary lookup: nothing iff no entry has the key, else an entry's value |
| TemplateFill.Set | hr-utility/email-template-bot/json/fill_template.py:20 | assignment sets the key, leaves other keys, keeps an existing key's position and appends a new one |
| TemplateFill.Update | hr-utility/email-template-bot/json/fill_template.py:16 | after `update`, a key has the second dict's value if it has one, else the first's |
| TemplateFill.SplitAtEq | hr-utility/email-template-bot/excel/fill_excel.py:53-54 | nothing iff no '='; otherwise key + "=" + value is the item and the key has no '=' |
| TemplateFill.AssignAll | hr-utility/email-template-bot/excel/fill_excel.py:52-55 | the assignments keep the keys distinct |
| TemplateFill.AssignAllLast | hr-utility/email-template-bot/excel/fill_excel.py:52-55 | a key ends with the value of the last item assigning it |
| TemplateFill.AssignAllUntouched | hr-utility/email-template-bot/excel/fill_excel.py:52-55 | a key no item assigns keeps its value; items without '=' are skipped |
| TemplateFill.LoadVarsFromCli | hr-utility/email-template-bot/excel/fill_excel.py:50-56 | the loop's dict is the items' assignments in order (empty for no list) |
| TemplateFill.LoadVars | hr-utility/email-template-bot/json/fill_template.py:12-21 | the JSON entries, then the command-line assignments over them |
| TemplateFill.SingleModeAgreesWithLoadVars | hr-utility/email-template-bot/excel/fill_excel.py:137-143 | single mode's mapping gives every key the same value as the JSON variant's load_vars |
| TemplateFill.CliOverridesJson | hr-utility/email-template-bot/excel/fill_excel.py:138-143 | a command-line item overrides the JSON value of its key |
| TemplateFill.JsonKeptWithoutCli | hr-utility/email-template-bot/excel/fill_excel.py:138-143 | a key no item assigns keeps its JSON value |
| TemplateFill.MatchAt | hr-utility/email-template-bot/json/fill_template.py:27-33 | a match starting at a position ends inside the text |
| TemplateFill.MatchIsPlaceholder | hr-utility/email-template-bot/json/fill_template.py:27-33 | conversely, whatever a pattern matches is its placeholder: an opener, a run of spaces, the key, a run of spaces and a closer; or the key in double quotes; or the key alone between word boundaries |
| TemplateFill.Fill | hr-utility/email-template-bot/json/fill_template.py:23-34 | the loop's text is every key's four rewrites applied in mapping order |
| TemplateFill.SubNoMatch | hr-utility/email-template-bot/json/fill_template.py:27-33 | a pattern that matches nowhere leaves the text unchanged |
| TemplateFill.MatchNeedsKey | hr-utility/email-template-bot/json/fill_template.py:27-33 | every form needs the key itself in the text |
| TemplateFill.AbsentKeyUnchanged | hr-utility/email-template-bot/json/fill_template.py:24-34 | a key absent from the text leaves it unchanged |
| TemplateFill.AbsentKeysUnchanged | hr-utility/email-template-bot/json/fill_template.py:24-34 | an empty mapping or absent keys return the template unchanged |
| TemplateFill.WholeMatch | hr-utility/email-template-bot/json/fill_template.py:27-33 | a text that is exactly one match becomes the value |
| TemplateFill.BracedPlaceholderMatches | hr-utility/email-template-bot/json/fill_template.py:27-29 | `${ KEY }` and `{{ KEY }}` with any spaces inside match as a whole |
| TemplateFill.PlaceholderFilled | hr-utility/email-template-bot/json/fill_template.py:26-33 | each of the four placeholder forms of a word key becomes the value |
| TemplateFill.ValueKept | hr-utility/email-template-bot/json/fill_template.py:28-33 | the later rewrites of a key leave a value without the key alone |
| TemplateFill.LongerWordUntouched | hr-utility/email-template-bot/json/fill_template.py:33 | the bare form stops at word boundaries: a key inside a longer word is untouched |
| TemplateFill.CleanRow | hr-utility/email-template-bot/excel/fill_excel.py:63-68 | a record becomes a string dict with the same keys; empty cells become "" |
| TemplateFill.LoadExcelVars | hr-utility/email-template-bot/excel/fill_excel.py:59-69 | one cleaned dict per record, in order |
| TemplateFill.BatchFileName | hr-utility/email-template-bot/excel/fill_excel.py:127-130 | the name is empty iff the row's OUTPUT_FILE cell is empty |
| TemplateFill.BatchFileNamePrecedence | hr-utility/email-template-bot/excel/fill_excel.py:127-130 | OUTPUT_FILE decides the name whatever the role; without it JOB_ROLE decides whatever the row number; only a row with neither is named `filled_<number>.txt` |
| TemplateFill.NumberedNamesDistinct | hr-utility/email-template-bot/excel/fill_excel.py:124-130 | rows naming neither a file nor a role get distinct files |
| TemplateFill.BatchOutputs | hr-utility/email-template-bot/excel/fill_excel.py:119-132 | one write per row in order, numbered from 1: the row's file name and the filled template; the batch fails exactly when some row has an empty OUTPUT_FILE, and then stops at the first such row with the writes of the rows before it done |
| Eln.StrikePrice | finiq-python-projects/6_ELN/V2/ELN_Calculator_v2.py:32-33 | strike = initial price × fraction; 100% gives the initial price; below the initial price iff the fraction is below 1 |
| Eln.StrikeFromPercent | finiq-python-projects/6_ELN/V2/ELN_Calculator_v2.py:71-76 | with the percent input divided by 100, strike × 100 = initial × percent |
| Eln.TenorMonths | finiq-python-projects/6_ELN/V2/ELN_Calculator_v2.py:56 | `int(tenor × 12)` truncates toward zero |
| Eln.TenorExamples | finiq-python-projects/6_ELN/V2/ELN_Calculator_v2.py:56 | 1.5 years is 18 months, 1.99 is 23, 2 is 24 |
| Eln.FinalOutcome | finiq-python-projects/6_ELN/V2/ELN_Calculator_v2.py:35-48 | spot is the last price; at or above strike: receive notional, profit notional − notional × issuer, no loss; below: receive notional / strike, no profit, loss notional − notional × strike; nothing for an empty series or a zero strike above the spot |
| Eln.LabelAgreesWithOutcome | finiq-python-projects/6_ELN/V2/ELN_Calculator_v2.py:92 | the ABOVE/BELOW label agrees with the branch taken |
| Eln.FinalOutcomeStrict | finiq-python-projects/6_ELN/CommandLine/ELN_Calculator.py:11-25 | profit case iff spot strictly above strike (profit notional − notional × issuer, no shares); otherwise shares notional / strike, no profit |
| Eln.StrictLabelAgrees | finiq-python-projects/6_ELN/CommandLine/ELN_Calculator.py:81 | the strict ABOVE label agrees with the branch taken |
| Eln.SpotAtStrike | finiq-python-projects/6_ELN/CommandLine/ELN_Calculator.py:15-19 | at spot = strike the inclusive variants report ABOVE, the strict variant BELOW with the loss case |
| Eln.VariantsAgreeOffStrike | finiq-python-projects/6_ELN/V1/ELN_Calculator_v1.py:33-46 | away from the strike the inclusive and strict variants take the same branch |
| Eln.CouponPayoff | finiq-python-projects/4_StructuredProducts/2_ELN-Plot.py:4-8 | at or above strike the payoff is price × (1 + coupon); below it is 0 |
| Eln.CouponPayoffMonotone | finiq-python-projects/4_StructuredProducts/2_ELN-Plot.py:4-8 | for a non-negative strike and a coupon of at least −100%, the payoff never falls as the price rises |
| Eln.CouponPayoffs | finiq-python-projects/4_StructuredProducts/2_ELN-Plot.py:35 | one payoff per price, in order |
| Eln.SolveFor | finiq-python-projects/4_StructuredProducts/2_ELN-Plot.py:18-28 | strike: coupon = percent × notional, strike = upfront / (notional × (1 + percent)); coupon: strike = upfront / notional, coupon = upfront / strike − 1; anything else is an error |
| Eln.SolvedCouponIsNotionalLessOne | finiq-python-projects/4_StructuredProducts/2_ELN-Plot.py:22-25 | solving for the coupon always gives notional − 1 |
| Eln.SharePayoff | finiq-python-projects/4_StructuredProducts/4_ELN-Evaluate.py:4-8 | the price at or above strike, else 0 |
| Eln.SharePayoffs | finiq-python-projects/4_StructuredProducts/4_ELN-Evaluate.py:22 | one payoff per price, in order |
| Eln.SharePayoffIsZeroCoupon | finiq-python-projects/4_StructuredProducts/4_ELN-Evaluate.py:4-8 | the evaluation payoff is the plot payoff with a zero coupon |
| Eln.EvaluationStrike | finiq-python-projects/4_StructuredProducts/4_ELN-Evaluate.py:18-19 | strike = initial × (1 + percent); above the initial price iff the percent is positive |
| Eln.Classify | finiq-python-projects/4_StructuredProducts/4_ELN-Evaluate.py:34-40 | at or above iff final ≥ strike; drops to zero iff final = 0 < strike; below otherwise |
| Eln.Evaluate | finiq-python-projects/4_StructuredProducts/4_ELN-Evaluate.py:18-40 | nothing iff no prices; otherwise the strike from the first price, the payoffs, and the last price's class |
| Eln.ClassificationMatchesLastPayoff | finiq-python-projects/4_StructuredProducts/4_ELN-Evaluate.py:22-40 | the class is at-or-above iff the last payoff is the last price at or above the strike; otherwise the last payoff is 0 |
| FixTags.ParseTagPieces | finiq-python-projects/7_FIX_Tags_Extraction/FIX_Tags_Extraction.py:14 | the tags are each stripped piece read as an integer; an error iff some piece is not one |
| FixTags.ParseTagsRoundTrip | finiq-python-projects/7_FIX_Tags_Extraction/FIX_Tags_Extraction.py:14 | a comma-joined list of tags parses back to that list |
| FixTags.ExtractValue | finiq-python-projects/7_FIX_Tags_Extraction/FIX_Tags_Extraction.py:26-32 | a found value contains no SOH or newline; nothing when the line has no SOH |
| FixTags.ExtractValueAnchored | finiq-python-projects/7_FIX_Tags_Extraction/FIX_Tags_Extraction.py:26 | a value is found only right after an SOH followed by the tag and '=' |
| FixTags.FirstFieldExtracted | finiq-python-projects/7_FIX_Tags_Extraction/FIX_Tags_Extraction.py:26-27 | the first SOH-led field with the tag gives its value, up to the next SOH |
| FixTags.LongerTagIgnored | finiq-python-projects/7_FIX_Tags_Extraction/FIX_Tags_Extraction.py:26 | "135=x" does not satisfy tag 35, and a tag in a line's first field is not found |
| FixTags.ExtractColumns | finiq-python-projects/7_FIX_Tags_Extraction/FIX_Tags_Extraction.py:16-32 | the loop's dictionary is the column specification: one list per distinct tag, each the tag's entries line by line, repeated as often as the tag is listed |
| FixTags.Columns | finiq-python-projects/7_FIX_Tags_Extraction/FIX_Tags_Extraction.py:16 | the dictionary's keys are exactly the listed tags |
| FixTags.DataFrame | finiq-python-projects/7_FIX_Tags_Extraction/FIX_Tags_Extraction.py:35 | a table iff all the columns have one length, and then it holds the columns unchanged; a ValueError otherwise |
| FixTags.FrameBuiltIffEvenCounts | finiq-python-projects/7_FIX_Tags_Extraction/FIX_Tags_Extraction.py:16-35 | for at least one line, the table is built iff every listed tag is listed equally often |
| FixTags.DistinctTagsFrame | finiq-python-projects/7_FIX_Tags_Extraction/FIX_Tags_Extraction.py:16-35 | distinct tags always give a table |
| FixTags.RepeatedTagRefused | finiq-python-projects/7_FIX_Tags_Extraction/FIX_Tags_Extraction.py:16-35 | a tag listed twice beside one listed once makes the table construction fail |
| FixTags.ExtractLine | finiq-python-projects/7_FIX_Tags_Extraction/FIX_Tags_Extraction.py:24-32 | one line's pass over the tags appends the line's value to each tag's list once per listing, keeping the keys |
| FixTags.ColumnLength | finiq-python-projects/7_FIX_Tags_Extraction/FIX_Tags_Extraction.py:23-32 | a column has one entry per line per listing of its tag |
| FixTags.ColumnOfDistinctTags | finiq-python-projects/7_FIX_Tags_Extraction/FIX_Tags_Extraction.py:23-32 | with distinct tags, each column has one entry per line, the line's value |
| FixTags.RepeatedTagDoubles | finiq-python-projects/7_FIX_Tags_Extraction/FIX_Tags_Extraction.py:16-24 | a tag listed twice gets two entries per line |
| CharCount.Occurrences | finiq-python-projects/1_CharCount/Count_B.py:7-9 | a count is at most the length, and positive iff the character occurs |
| CharCount.Counts | finiq-python-projects/1_CharCount/Count_B.py:5-9 | the keys are exactly the selected characters of the input, each counted by its occurrences |
| CharCount.LettersAndDigitsDisjoint | finiq-python-projects/1_CharCount/Count_B.py:6-8 | the letter and digit maps have disjoint keys |
| CharCount.SortedItems | finiq-python-projects/1_CharCount/Count_B.py:11-12 | one pair per key with its count, strictly ascending by character |
| CharCount.CountCharacters | finiq-python-projects/1_CharCount/Count_B.py:3-13 | the loop's sorted lists are the letter and digit histograms |
| CharCount.CountAlnum | finiq-python-projects/1_CharCount/Count_Excel.py:3-11 | the loop's rows are the alphanumeric histogram, sorted by character |
| CharCount.CaseSensitive | finiq-python-projects/1_CharCount/Count_Excel.py:8 | 'a' and 'A' are counted under separate keys |
| CharCount.CountsSum | finiq-python-projects/1_CharCount/Count_B.py:5-9 | the counts add up to the number of selected characters |
| CharCount.CountsCoverAlnum | finiq-python-projects/1_CharCount/Count_B.py:5-9 | the letter and digit counts together add up to the alphanumeric characters of the input |
| CharCount.WriteReport | finiq-python-projects/1_CharCount/Count_B.py:16-23 | the written text is the two headed blocks of `c: n` lines |
| CharCount.CountLineReadsBack | finiq-python-projects/1_CharCount/Count_B.py:20-23 | a count line reads back as its pair |
| CharCount.ReportReadsBack | finiq-python-projects/1_CharCount/Count_B.py:16-23 | the report splits into its lines, and each count line reads back as its pair |
| FolderCompare.Compare | hr-utility/countFiles/countFiles_v2.py:32-37 | common, only-old and only-new are pairwise disjoint, old = common ∪ only-old, new = common ∪ only-new, with matching cardinalities |
| FolderCompare.ScanFolder | hr-utility/countFiles/countFiles_v2.py:14-25 | the map's keys are the relative paths; each holds the last entry for its path |
| FolderCompare.ScanKeepsEveryFile | hr-utility/countFiles/countFiles_v2.py:18-21 | with no path walked twice, the map has one key per file walked |
| FolderCompare.SplitCommon | hr-utility/countFiles/countFiles_v2.py:39-46 | modified and same partition the common paths; modified iff the hashes differ |
| FolderCompare.CompareFolders | hr-utility/countFiles/countFiles_v2.py:32-56 | the totals are the key counts; same + modified + only-old is the old total, same + modified + only-new the new |
| FolderCompare.SizeIgnored | hr-utility/countFiles/countFiles_v2.py:43 | two scans differing only in recorded sizes give the same modified files |
| FolderCompare.CollectNames | hr-utility/countFiles/countFiles.py:12-19 | every base name is appended in walk order, duplicates kept; the length is the file count |
| FolderCompare.CommonNames | hr-utility/countFiles/countFiles.py:22 | the common names are exactly the names in both lists, no more than either list's length |
| FolderCompare.CountIncludesDuplicates | hr-utility/countFiles/countFiles.py:25-26 | a name met in two subfolders makes the count exceed the number of distinct names |
| FolderCompare.FlattenPosition | hr-utility/countFiles/countFiles.py:12-19 | each walked name sits in the list inside its folder's stretch |
| FolderCompare.AllFileNames | hr-utility/countFiles/countFiles_v3.py:6-11 | the set of lower-cased base names |
| FolderCompare.CaseFoldedNamesMerge | hr-utility/countFiles/countFiles_v3.py:10 | names equal after lower-casing count once, so the set is smaller than the file count |
| FolderCompare.CaseSensitivityDiffers | hr-utility/countFiles/countFiles.py:22 | the plain comparer keeps "IMG.JPG" and "img.jpg" apart; the case-folding one merges them |
| FolderCompare.Listing | hr-utility/countFiles/countFiles_v3.py:32-40 | a listing holds each name of the set once, strictly ascending |
| FolderCompare.ListingsCoverBothFolders | hr-utility/countFiles/countFiles_v3.py:18-40 | the three listings' lengths add up to the number of names in either folder |
| ReadableBytes.BytesToReadable | finiq-python-projects/9_VideoCompilation/temp.py:17-22 | nothing iff the size reaches 1024 GB; otherwise the value times its unit's scale is the size, below 1024 and at least 1 unless in bytes; sizes below 1024 (zero and negative too) stay in bytes |
| ReadableBytes.UnitIsDetermined | finiq-python-projects/9_VideoCompilation/temp.py:19-22 | only one unit and value satisfy that rule for a size |
| Text.JoinSplit | finiq-python-projects/7_FIX_Tags_Extraction/FIX_Tags_Extraction.py:14 | splitting the comma-join of comma-free pieces gives the pieces back |
| Text.IntToStringParses | finiq-python-projects/7_FIX_Tags_Extraction/FIX_Tags_Extraction.py:14 | an integer's decimal text parses back to it, as `int()` reads it |

## Left out

- Browser scrapers, page lifecycle, CSV and console output of the grocery comparator: network and browser I/O. `FetchAll` takes each store's result as a given function.
- Unused grocery settings (preferred brands, fuzzy matching imports): never used by the code.
- GroceryCompare.FetchAll: a normaliser is a parameter of the specification functions so that the lemmas hold for any; the method itself uses `NormalizePrice`.
- GroceryCompare.PickCheapest: the unstable pandas sort leaves ties between groups with equal queries in any order; the model picks one order, and only the order by query is promised. Ties for the cheapest row inside a group resolve to the first row in table order.
- React components and rendering of the game: UI only.
- BullsCows.GenerateUniqueDigits: the random draws are not modelled; the method keeps distinct digits as the source's loop does, and its contract is only that the secret is three distinct digits in 1..9, not which ones.
- TemplateFill.Fill: values are passed to the regular-expression substitution as replacement templates, so backslashes in them are interpreted; the model requires backslash-free values.
- TemplateFill.LoadVars: JSON values are taken as already converted to strings.
- Reading and writing files, standard input and spreadsheets in the template fillers: I/O.
- TemplateFill.BatchOutputs: of the ways a write can fail only the empty OUTPUT_FILE name is modelled; a name in a missing subdirectory, an unwritable directory and other filesystem errors are not.
- ELN downloads of price series, plots, prompts, argument parsing and output files: I/O; the price series is a parameter.
- Eln.FinalOutcome: a zero strike above the spot gives no outcome; the scripts divide a numpy float by zero there and report an infinite (or, for a zero notional, undefined) share count with a warning.
- Eln.FinalOutcomeStrict: likewise for a zero strike at or above the spot.
- Eln: floating-point rounding is not modelled; all arithmetic is exact, and `.2f` formatting of the outputs is left out.
- The strike-plot scripts: plotting around the same one-line strike formula.
- FIX log reading and the spreadsheet writing: I/O; the lines are a parameter, and the table is the dictionary of columns once its lengths agree.
- GroceryUnits.IdentifyUnit, GroceryUnits.ExtractSize, GroceryUnits.FindUnitPrice, TemplateFill.MatchAt, FixTags.ParseTagPieces, FolderCompare.AllFileNames and FolderCompare.CaseFoldedNamesMerge: ASCII only; Unicode whitespace (such as a no-break space), Unicode word characters and Unicode case folding are outside the model.
- CharCount: letters, digits and case are ASCII only; Unicode classification is not modelled. The spreadsheet writing of the alphanumeric counter is left out.
- CharCount.WriteReport: the text is returned instead of written to a file.
- FolderCompare: the directory walk is given as a list of folders' base names, or as (relative path, size, hash) entries; MD5 hashing is an opaque string; the printing of the reports is left out.
- ReadableBytes.BytesToReadable: the `.2f` text formatting is left out; the value is returned as an exact real with its unit.
- The package-size walk and package listing around the byte formatter: filesystem I/O.
- Statistics, rolling averages, video compilation, roulette, memory checks and the unfinished FX stub: outside this model.
