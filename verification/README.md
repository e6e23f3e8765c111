# AlpineBits RatePlans price checker — a Dafny model

`rtapp` reads an AlpineBits 2017-10 rate plans message (`OTA_HotelRatePlanNotifRQ`)
and a booking request (arrival, departure, adults, children's ages, booking date and
an inventory occupancy table), and answers, per room type (`InvTypeCode`), what the
stay costs. This project models its core, `lib/engine.js` with the helpers in
`lib/utildate.js`, `lib/utilrate.js`, `lib/utilrule.js`, `lib/utilsupp.js` and
`lib/utildisc.js`, as pure Dafny functions, and proves what the code promises.

The model follows the program's structure, one module per component:

- `Wrappers`: `Option` (JavaScript's `undefined`), `Result` (a value, or what was
  thrown) and `Collect`, which runs a list of steps and stops at the first error.
- `Text` and `Tree`: the JavaScript string and number conversions the code relies
  on (`String(n)`, `Number(s)`, the `/^\d+$/` tests, `Object.keys` order, `<` on
  strings). Also the decoded XML tree, where `el.$` is the attribute map and
  `el.Name` the list of children.
- `Dates`: `is_valid_date`, `date_add`, `date_diff`, `date_between`,
  `date_interval_overlaps` and `date_dow`, on a `Date` record with a day ordinal.
- `Rates`, `Rules` with `StayRules`, `Supplements`, `Discounts`: the validation and
  extraction of Rates, BookingRules, Supplements and Offers, with every exception
  in the order the code throws it (`Errors` lists the messages).
- `Guests`: full payers, promotion of the oldest children and the family discount.
- `Pricing`: `match_rates` and `match_supps`, with `round2` and `round3`.
- `Jobs`: the job validation at the top of `run`, and `find_plans`.
- `Engine`: `run`, `find_restrictions` and `find_offerrule_restrictions`, with the
  screens that skip a room type.

Exceptions are `Err` values. A JavaScript `TypeError` (reading a property of
`undefined`) is the `TypeError` error. Amounts are exact reals.

`run` calls its loaders (`get_static_data`, `get_rate`, `get_rule`,
`get_merged_supp_by_code`, `get_discount`) again inside its loops. They are pure
functions of the RatePlan, so the model evaluates each of them once up front and
keeps its `Result`, errors included. The matching pass then consumes those results
in the order the code would reach them. `Engine.LoadPlan` states what is loaded:
for each room code of the plan, in `get_unique_codes` order, the result of loading
its BookingRules and its Rates, and the plan's merged supplements. Two lemmas show
that consuming the preloaded results changes nothing:
`Pricing.SuppChargesMatch` proves the preloaded supplements give exactly
`match_supps`, and `Engine.PlanQuotesFirstErr` proves a plan fails with the error of
its first failing room type.

Three quirks of the code are modelled as written and shown by lemmas:

- `date_dow` uses JavaScript's truncating `%`, so it returns -1 for some Saturdays,
  for example 1984-01-07 (`Dates.Dow1984`). A mask lookup with -1 is never true
  (`StayRules.MaskAllowsWeekday`), so such a day is rejected as an arrival or
  departure day.
- The checks `MinOccupancy > MaxOccupancy`, `LastQualifyingPosition > MinCount`
  and `NightsDiscounted > NightsRequired` compare attribute strings, which compare
  character by character (`Text.StrLessIsNotNumeric`).
- The forward walk of `find_restrictions` steps one day past the departure. For a
  departure of 9999-12-31, `date_add` throws there (`Engine.ForwardWalk`).

Where the documented behaviour and the code disagree, the model follows the code.
The help text of `cli.js` (lines 44-45) says that the current date is assumed when
no booking date is given. The code calls `utildate.date_today` for it, which
`lib/utildate.js` does not define, so the model fails with a `TypeError` there
(`Jobs.ValidateJob`).

## Model

| member | source | states |
|---|---|---|
| Dates.DaysInMonth | lib/utildate.js:262-277 | February has 29 days exactly in Gregorian leap years; April, June, September and November 30; the others 31 |
| Dates.DayNumberOrder | lib/utildate.js:144-205 | comparing (year, month, day) lexicographically, as the ISO strings compare, agrees with the day ordinal; distinct dates have distinct ordinals |
| Dates.Next | lib/utildate.js:117-131 | one pass of date_add's loop moves a valid date other than 9999-12-31 to the next day |
| Dates.AddDays | lib/utildate.js:105-133 | adding n days succeeds exactly when the result is not after 9999-12-31, lands n days later, and otherwise throws the out-of-range error |
| Dates.AddZero | lib/utildate.js:117 | adding zero days returns the date itself |
| Dates.AddAssociative | lib/utildate.js:105-133 | adding a then b days is the same as adding a + b days, failures included |
| Dates.Diff | lib/utildate.js:144-205 | the month-stepping computation of date_diff equals the difference of the day ordinals, in both directions and within a month |
| Dates.DiffProperties | lib/utildate.js:144-205 | the difference of a date with itself is 0, swapping the arguments negates it, it is 0 only for equal dates, positive exactly when the start comes first, and it undoes date_add |
| Dates.AddDiff | lib/utildate.js:105-205 | adding the difference between two dates to the first yields the second |
| Dates.Between | lib/utildate.js:62-76 | date_between holds exactly when start <= check <= end |
| Dates.Overlaps | lib/utildate.js:89-94 | two intervals overlap exactly when one contains the other's start |
| Dates.OverlapsSymmetric | lib/utildate.js:89-94 | the overlap test does not depend on the order of the two intervals |
| Dates.OverlapsWellFormed | lib/utildate.js:89-94 | for intervals whose start is not after their end, overlapping means they share a day |
| Dates.JsRem7 | lib/utildate.js:255 | JavaScript's `%` by 7 is congruent to its dividend and takes the dividend's sign |
| Dates.MonthStartCongruent | lib/utildate.js:215-257 | on the first day of every month the sum date_dow reduces is congruent, modulo 7, to the day ordinal (induction over months and years) |
| Dates.DowSumCongruent | lib/utildate.js:215-257 | for every valid date the sum date_dow reduces is congruent to the day ordinal modulo 7 |
| Dates.Dow | lib/utildate.js:215-257 | date_dow returns the true weekday (0 = Sunday) except that it returns -1 instead of 6 on some Saturdays |
| Dates.DowWeekLater | lib/utildate.js:215-257 | a date seven days later gets the same weekday number modulo 7 |
| Dates.Dow1984 | lib/utildate.js:255 | 1984-01-07 is a Saturday, yet date_dow returns -1 for it |
| Dates.FormatDate | lib/utildate.js:132 | the zero-padded yyyy-mm-dd rendering of a valid date is a valid date string naming the same date |
| Dates.FormatParse | lib/utildate.js:32-50 | every string is_valid_date accepts is the rendering of the date it names |
| Dates.ParseInjective | lib/utildate.js:32-50 | two valid date strings name the same date exactly when they are equal |
| Dates.DateAdd | lib/utildate.js:105-133 | date_add throws for an invalid date or a negative count, and otherwise returns a valid date exactly n days later or the out-of-range error |
| Dates.DateDiff | lib/utildate.js:144-205 | date_diff throws unless both dates are valid, and returns the signed number of days between them |
| Dates.DateBetween | lib/utildate.js:62-76 | date_between throws unless all three dates are valid, and otherwise tells whether the check date lies in the closed interval |
| Dates.DateIntervalOverlaps | lib/utildate.js:89-94 | date_interval_overlaps throws on an invalid first interval or start, answers the overlap test when all four are valid, and never looks at the second end once the second start lies in the first interval |
| Dates.DateDow | lib/utildate.js:215-257 | date_dow throws exactly on an invalid date and otherwise returns the weekday, with -1 standing for some Saturdays |
| Text.NatToString | lib/engine.js:799-809 | the decimal rendering `String(n)` under which a number looks up an object key is accepted by `^\d+$`, has no leading zero and reads back as the number |
| Text.CanonicalRoundTrip | lib/utilrate.js:320-324 | a digit string without leading zeros is exactly the rendering of its value, so a number finds the object key it was stored under |
| Text.NatToStringInjective | lib/engine.js:799-809 | distinct numbers render as distinct object keys |
| Text.ZeroPadFixedWidth | lib/utildate.js:279-285 | zeropad of a number below 10^digits yields exactly `digits` digits of the same value |
| Text.ZeroPadRoundTrip | lib/utildate.js:279-285 | padding the value of a digit string to its own length gives the string back |
| Text.DecimalValue | lib/utilrate.js:461-469 | a string accepted by is_non_negative_float reads as a non-negative amount, an all-digit string as its integer value |
| Text.Lower | lib/utildisc.js:146-148 | the case folding the `/i` flag patterns use maps every character independently and keeps the length |
| Text.StrLessIsNotNumeric | lib/utildisc.js:232 | `<` on two attribute strings compares characters, so "10" < "2" although 10 > 2 |
| Text.Dedup | lib/utilrate.js:126-161 | the keys set on the `codes` object appear once each, in order of first insertion |
| Text.ObjectKeysOrder | lib/utilrate.js:159 | Object.keys returns each key set on the object once: the array-index keys first in ascending numeric order, then the others in order of first insertion |
| Tree.WithAttr | lib/utilrate.js:188-196 | keeps exactly the elements whose attribute has the sought value, in document order |
| Tree.WithAttrAppend | lib/utilrate.js:188-196 | filtering a list extended by one element extends the filtered list by that element exactly when it matches |
| Tree.Select | lib/utilrule.js:105-113 | the filtering loop throws exactly when some element has no attributes, and otherwise returns the matching elements in order |
| Tree.RequiredValues | lib/utilrate.js:146-155 | the loop collecting a mandatory attribute succeeds exactly when every element has a non-empty value, returns those values in order, and otherwise throws the error of the first element lacking one (no attributes at all, or a missing value) |
| StayRules.TimeOfTypeNew | lib/utilrule.js:210-215 | the first LengthOfStay of a type sets that bound to its Time |
| StayRules.TimeOfTypeKept | lib/utilrule.js:210-224 | a LengthOfStay of the other type leaves a bound already set unchanged |
| StayRules.LosEntries | lib/utilrule.js:193-225 | the loop succeeds exactly when every LengthOfStay is well formed and each of SetMinLOS and SetMaxLOS occurs at most once; each bound is set exactly when its type occurs, to that element's Time |
| StayRules.ParseLos | lib/utilrule.js:180-229 | more than one LengthsOfStay element throws, none leaves both bounds unlimited, and an accepted minimum never exceeds the accepted maximum |
| StayRules.FlagsExclusive | lib/utilrule.js:255-258 | no day attribute value matches both the 1/true and the 0/false pattern |
| StayRules.MaskPrefix | lib/utilrule.js:253-263 | the day loop succeeds exactly when every day attribute is absent, empty or a flag, and allows a day unless its flag says 0/false |
| StayRules.ParseDowMask | lib/utilrule.js:248-264 | no ArrivalDaysOfWeek element allows every day, more than one throws, and one is read day by day |
| StayRules.ParseDowRestrictions | lib/utilrule.js:233-282 | more than one DOW_Restrictions element throws, none allows every arrival and departure day, and one yields two seven-day masks |
| StayRules.MaskAllowsWeekday | lib/engine.js:653-664 | indexing a day mask with date_dow reads the true weekday's entry, except on the Saturdays where date_dow returns -1, where the lookup is never true |
| StayRules.AllDaysRejects1984 | lib/engine.js:661-664 | even the all-true default mask rejects 1984-01-07 |
| Rates.GetStaticData | lib/utilrate.js:37-115 | static data exist exactly when the plan has one Rates element whose first Rate passes every static check; the unit multiplier is then 1..365 (1 when the static Rate has no attributes, otherwise the UnitMultiplier value) and the base type is the "7" or "25" of its single BaseByGuestAmt |
| Rates.StaticUnit | lib/utilrate.js:72-88 | without attributes the multiplier defaults to 1; with attributes RateTimeUnit must be "Day" and UnitMultiplier a positive integer no larger than 365, whose value is the result |
| Rates.GetUniqueRateCodes | lib/utilrate.js:126-161 | more than one Rates element throws; otherwise the codes exist exactly when every non-static Rate has a non-empty InvTypeCode, and they are exactly those codes, each once, in `Object.keys` order of the object they were inserted into (array-index codes ascending, then the others in first-insertion order) |
| Rates.FindRatesByCode | lib/utilrate.js:173-202 | no Rates element gives no Rates, more than one throws, a Rates element without Rate crashes, and otherwise the result is the non-static Rates carrying that InvTypeCode, in document order |
| Rates.CodesCoverRates | lib/utilrate.js:126-202 | every listed code selects at least one Rate, and every non-static Rate's code is listed and selects that Rate |
| Rates.BaseEntry | lib/utilrate.js:294-310 | one BaseByGuestAmt passes exactly when it has attributes, a positive-integer NumberOfGuests, AgeQualifyingCode "10" and a decimal AmountAfterTax |
| Rates.BaseAmounts | lib/utilrate.js:292-330 | the loop succeeds exactly when every entry passes and no two share a NumberOfGuests; the map then holds, under each guest count and nothing else, that entry's amount, multiplied by the guest count for Type "7" |
| Rates.BaseAmountsExtend | lib/utilrate.js:314-324 | one more valid entry with a new guest count keeps the loop's invariant with the map extended by its charge |
| Rates.RateBaseAmounts | lib/utilrate.js:271-330 | the base amounts exist exactly when there is one BaseByGuestAmts element holding at least one BaseByGuestAmt and the loop succeeds; the map is then non-empty and keyed by positive integers |
| Rates.AddEntry | lib/utilrate.js:354-395 | one AdditionalGuestAmount passes exactly when its code is "8" or "10", it is not a second "10", its amount is decimal, its ages are positive integers up to 21 with MinAge < MaxAge, a child entry has a bracket and an adult entry has none |
| Rates.AddEntries | lib/utilrate.js:352-403 | the loop succeeds exactly when every entry passes and at most one is for adults; it then yields one parsed entry per element, in order |
| Rates.CoveringCount | lib/utilrate.js:427-436 | the count of child brackets containing an age is zero exactly when no bracket contains it |
| Rates.CheckAges | lib/utilrate.js:421-441 | check_uniqness passes exactly when no age from 0 to 21 lies in two child brackets, and otherwise reports the first such age |
| Rates.CoveringAbove21 | lib/utilrate.js:390-395 | because ages are capped at 21, an age above 21 lies in no more brackets than 21 does |
| Rates.BracketsUnique | lib/utilrate.js:421-441 | after check_uniqness passes, every age, however old, lies in at most one child bracket |
| Rates.AdultEntriesParsed | lib/utilrate.js:366-371 | validated entries hold at most one adult entry, and none when no element had code "10" |
| Rates.ParsedAddsShape | lib/utilrate.js:363-401 | validated entries have code "8" with a bracket bounded by 21 or code "10" with no bracket |
| Rates.AdultPresent | lib/utilrate.js:410-412 | entries that pass the final check contain an adult entry whenever they are non-empty |
| Rates.AdultPair | lib/utilrate.js:366-371 | two adult elements make the adult count at least two, which the loop rejects |
| Rates.RateAddAmounts | lib/utilrate.js:334-412 | the additional amounts succeed exactly when there is at most one AdditionalGuestAmounts element, the entries pass, no age is ambiguous and an adult entry is present whenever any entry is; the result then has unambiguous brackets and exactly one adult entry when non-empty |
| Rates.GetRate | lib/utilrate.js:245-416 | a Rate without attributes crashes; an invalid Start, then an invalid End, then a Start after the End throw in that order, then the base amounts' and the additional amounts' errors; a Rate passing all of them is accepted, with its dates, the static multiplier and type, and exactly the base and additional amounts of its elements |
| Rates.GetRates | lib/utilrate.js:218-221 | every Rate is validated in order; the result exists exactly when each one does and holds their validated forms |
| Rates.CheckRatesOverlap | lib/utilrate.js:214-233 | the first validation error propagates; otherwise the check passes exactly when no two Rates overlap, and throws the overlap error otherwise |
| Rates.AtMostOneRateCovers | lib/utilrate.js:223-229 | after the overlap check, no day lies in two Rates of the list |
| Rules.RuleCodes | lib/utilrule.js:49-68 | the loop succeeds exactly when every BookingRule has attributes and every coded one has CodeContext ROOMTYPE; it collects the non-empty codes in document order and notes whether some rule has none, and otherwise throws the first rule's error |
| Rules.WithUndefined | lib/utilrule.js:72-76 | appending `undefined` after the keys keeps them distinct and puts `undefined` last, present exactly when a rule without a code was seen |
| Rules.GetUniqueRuleCodes | lib/utilrule.js:34-77 | more than one BookingRules element throws; otherwise the result is the distinct codes without repetition in `Object.keys` order of the rules' codes in document order, followed by `undefined` exactly when some rule has no (or an empty) code |
| Rules.FindRulesByCode | lib/utilrule.js:91-117 | no BookingRules element yields no rules, more than one throws, an empty one crashes on `rule.length`, and otherwise the rules with exactly that Code are returned in document order, throwing when a rule has no attributes |
| Rules.CodesSelectRules | lib/utilrule.js:34-117 | every code get_unique_codes lists selects at least one rule, and every rule without a Code is selected by the `undefined` lookup |
| Rules.EmptyCodeRuleIgnored | lib/utilrule.js:61-66 | a rule whose Code is the empty string makes get_unique_codes list `undefined`, yet neither that lookup nor any listed code selects it, so it is never validated nor applied |
| Rules.RuleStatus | lib/utilrule.js:284-307 | the RestrictionStatus list is accepted when absent or a single Master element with status Open or Close, and the rule is open unless that status is Close |
| Rules.GetRule | lib/utilrule.js:157-311 | get_rule accepts exactly a rule with valid Start <= End, well-formed lengths of stay, day masks and status, and returns those values; an element without attributes crashes |
| Rules.GetRules | lib/utilrule.js:134-137 | validating a list of rules succeeds exactly when each rule validates, and returns the validated rules in order |
| Rules.CheckRulesOverlap | lib/utilrule.js:127-148 | check_rules_overlap succeeds exactly when every rule validates and no two rules' date ranges overlap; a validation error comes first, then the overlap error |
| Rules.AtMostOneRuleCovers | lib/utilrule.js:139-145 | in a list that passed the overlap check no day lies in two rules |
| Supplements.GetUniqueSuppCodes | lib/utilsupp.js:31-59 | more than one Supplements element throws; otherwise the codes exist exactly when every Supplement has a non-empty InvCode, and they are exactly those codes, each once, in `Object.keys` order of the InvCodes in document order |
| Supplements.StaticsOf | lib/utilsupp.js:101-107 | the static elements of a group are exactly the listed elements with that InvCode and a ChargeTypeCode |
| Supplements.DynamicsOf | lib/utilsupp.js:164-170 | the dynamic elements of a group are exactly the listed elements with that InvCode and no ChargeTypeCode |
| Supplements.StaticHead | lib/utilsupp.js:108-113 | a static element passes its first checks exactly when it has neither Start nor End and a ChargeTypeCode from the allowed list |
| Supplements.StaticPre | lib/utilsupp.js:135-152 | no PrerequisiteInventory means every day ("1111111"); otherwise there must be exactly one, of InvType ALPINEBITSDOW, whose InvCode is seven binary digits and becomes the weekday pattern |
| Supplements.StaticTail | lib/utilsupp.js:118-152 | the remaining static checks pass exactly when AddToBasicRateIndicator is 1/true, MandatoryIndicator is 1/true or 0/false (mandatory exactly in the first case) and the weekday prerequisite is valid |
| Supplements.StaticPass | lib/utilsupp.js:93-154 | the first pass succeeds exactly when every element has InvType EXTRA and an InvCode, the group has at most one static element and that element passes its checks; it yields that element's record, present exactly when there is one |
| Supplements.DynPre | lib/utilsupp.js:191-205 | no PrerequisiteInventory restricts no room; an element without attributes crashes; otherwise there must be exactly one, of InvType ROOMTYPE with a non-empty InvCode, which becomes the room restriction |
| Supplements.GetDyn | lib/utilsupp.js:172-206 | a dynamic element is accepted exactly when Start and End are valid dates with Start <= End, the Amount is decimal and its prerequisite is valid; the record carries those dates, that amount and that room restriction |
| Supplements.DynPass | lib/utilsupp.js:163-220 | the second pass succeeds exactly when every dynamic element of the group is accepted, there is at least one, and no two with the same room restriction overlap |
| Supplements.GetMergedSupp | lib/utilsupp.js:72-224 | no Supplements element gives an empty group, more than one throws; otherwise the group merges exactly when the elements exist, the first pass finds its one static element and the second pass succeeds, and the result carries that static record and those dynamic records |
| Supplements.DayAmount | lib/engine.js:984-998 | a day has no supplement amount exactly when no dynamic record of the group contains it for the room type, and otherwise the sum of the amounts of all the records that do |
| Supplements.AtMostTwoApply | lib/utilsupp.js:214-220 | in a validated group no three dynamic records contain the same day for the same room type |
| Discounts.NumOf | lib/utildisc.js:298-305 | an optional attribute turns into a number exactly when it is present and all digits |
| Discounts.OccCounts | lib/utildisc.js:220-234 | the occupancy checks pass exactly when MinOccupancy and MaxOccupancy are absent or positive integers up to 99 and the raw strings do not compare MinOccupancy > MaxOccupancy |
| Discounts.OccEntry | lib/utildisc.js:198-278 | one Occupancy element is accepted exactly when it passes the checks of its AgeQualifyingCode; the record is then its parsed attributes, with no MaxAge for adults |
| Discounts.OccEntries | lib/utildisc.js:179-283 | the Occupancy loop succeeds exactly when there are one or two valid elements with no code repeated; it yields the first adult and the first child record, each present exactly when its code occurs |
| Discounts.OccCross | lib/utildisc.js:281-296 | the cross-checks pass exactly when the adult MinAge is present if and only if a child Occupancy is, and the child ages lie below the adult MinAge |
| Discounts.GetFirstOfferRule | lib/utildisc.js:37-70 | the structure passes exactly when there is one Offers element, a first Offer without Discount or Guest, and exactly one OfferRules with exactly one OfferRule, which is returned |
| Discounts.GetRestrictions | lib/utildisc.js:76-305 | the restrictions exist exactly when the lengths of stay, the weekday masks and the occupancies parse and pass their cross-checks; they are then those parsed values, with the child fields taken from the child record exactly when one is present |
| Discounts.NightsPattern | lib/utildisc.js:403-410 | the expected DiscountPattern has NightsRequired - NightsDiscounted zeros followed by NightsDiscounted ones |
| Discounts.GetFamily | lib/utildisc.js:342-392 | a family discount is accepted exactly when there is one Guests with one Guest of code "8", a positive MaxAge, a whole MinCount, FirstQualifyingPosition "1" and a positive LastQualifyingPosition not above MinCount as strings compare; it carries those three numbers |
| Discounts.GetFreeNights | lib/utildisc.js:393-424 | a free-nights discount is accepted exactly when both night counts are positive integers up to 365, a given DiscountPattern equals the expected one and NightsDiscounted is not above NightsRequired as strings compare; it carries the two counts and the pattern |
| Discounts.OfferDiscount | lib/utildisc.js:320-340 | a later Offer must hold exactly one Discount element with attributes and Percent "100" |
| Discounts.OfferKind | lib/utildisc.js:318-429 | a later Offer is a family discount exactly when its Discount names no nights and no pattern and the Guest is valid, and a free-nights discount exactly when it names both night counts and they are valid |
| Discounts.OfferKinds | lib/utildisc.js:318-431 | the later Offers pass exactly when each is valid and neither kind occurs twice; each discount is present exactly when its kind occurs once and is that Offer's |
| Discounts.LaterKinds | lib/utildisc.js:318-431 | the discounts kept from the later Offers satisfy their invariants |
| Discounts.GetDiscount | lib/utildisc.js:30-433 | get_discount succeeds exactly when the first Offer's structure and restrictions are valid and the later Offers are; the result is those restrictions and discounts |
| Discounts.KindsOk | lib/utildisc.js:385-422 | the family and free-nights discounts the loop keeps satisfy their invariants |
| Guests.FullPayersNeeded | lib/engine.js:340-345 | without a child limit all std guests pay in full; with one, enough adults that a full room holds at most the allowed children, kept within min..std |
| Guests.SortAges | lib/engine.js:448-453 | the children's ages are sorted ascending and are a permutation of the input |
| Guests.SortedUnique | lib/engine.js:451-453 | two sorted permutations of the same ages are equal, so the result does not depend on the sort used |
| Guests.Promote | lib/engine.js:457-460 | promotion keeps the guest count, pops children from the end, stops once the full payers are reached or no child is left, and never promotes beyond the full payers needed |
| Guests.PromoteSorted | lib/engine.js:457-460 | the remaining children stay sorted and none is older than a promoted one |
| Guests.CountBelow | lib/engine.js:478-483 | the count of children younger than MaxAge is at most the number of children |
| Guests.RemoveFirstBelow | lib/engine.js:488-494 | the splice removes one young child when there is one, and otherwise leaves the list unchanged |
| Guests.FamilyLoop | lib/engine.js:487-495 | the loop frees min(num_to_apply, LastQualifyingPosition) children, each removed child being a young one |
| Guests.FamilyStep | lib/engine.js:476-503 | the family step frees min(young children, LastQualifyingPosition) children when at least one and at least MinCount young children are present, and nobody otherwise |
| Guests.FamilyDropsYoungest | lib/engine.js:476-503 | on sorted children the family step drops exactly the first num_applied children, all younger than MaxAge, and the rest stay sorted |
| Jobs.ChildAges | lib/engine.js:75-80 | the ages are read exactly when each has one to three digits; the first invalid index is reported otherwise |
| Jobs.Rows | lib/engine.js:98-103 | the occupancy array is cut into consecutive groups of five values |
| Jobs.RowCheck | lib/engine.js:110-127 | a row passes exactly when min, std and max are positive integers with min <= std <= max and the child limit is undefined or a whole number up to max; otherwise it fails with the first failing check's error, in the order min, std, max, child limit, min <= std <= max, child limit above max |
| Jobs.PassedOk | lib/engine.js:98-134 | when every row passes the loop's checks given the codes before it, the table is built |
| Jobs.OccTableFirstError | lib/engine.js:98-127 | when the rows before row i all pass and row i fails, the loop throws row i's error: an empty code, a code already seen, or the row's first failing check |
| Jobs.OccTable | lib/engine.js:93-134 | the table is built exactly when every code is non-empty, every row passes and no code repeats; it maps each code to its row's numbers and holds nothing else |
| Jobs.ValidateStay | lib/engine.js:59-67 | the stay is accepted exactly when both dates are valid and departure is after arrival; an invalid arrival, then an invalid departure, then a departure not after arrival each throw their own error |
| Jobs.ValidateGuests | lib/engine.js:68-83 | the guests are accepted exactly when num_adults has one to three digits, children_ages is an array of valid ages and someone stays; a bad num_adults throws first and a missing children_ages next; the numbers are those values |
| Jobs.ValidateJob | lib/engine.js:57-134 | the job is accepted exactly when stay, guests, booking date and occupancy are valid; stay errors come first, guest errors next, then a missing booking date crashes, an invalid one throws, an occupancy that is not a multiple of five values throws, and otherwise the occupancy table's error is thrown; an accepted job carries the parsed dates, adults and child ages and exactly the occupancy table built from the rows |
| Jobs.PlanCodes | lib/engine.js:593-610 | the loop succeeds exactly when every RatePlan is of type New, in EUR, with a RatePlanCode, and no code repeats |
| Jobs.FindPlans | lib/engine.js:573-614 | without a single RatePlans element there is no plan; otherwise the RatePlan elements are returned exactly when there is at least one and all pass the header checks |
| Pricing.HalfAway | lib/engine.js:1088-1094 | the integer chosen is the nearest one to the value, ties going away from zero as `toFixed` does |
| Pricing.Round3 | lib/engine.js:1092-1094 | round3 gives a multiple of 0.001 within half a thousandth of the value |
| Pricing.Round2 | lib/engine.js:1088-1090 | round2 gives a multiple of 0.01 within half a hundredth of the value |
| Pricing.Round3OnGrid | lib/engine.js:1092-1094 | a value already on the thousandths grid is left unchanged by round3 |
| Pricing.HalfAwayInt | lib/engine.js:1088-1094 | whole numbers are their own nearest integer |
| Pricing.RoundTwiceBound | lib/engine.js:943 | a total rounded to three places and then to two stays within 0.0055 of the exact sum |
| Pricing.BaseCharge | lib/engine.js:794-820 | with no adults the base part is free; otherwise a per-room ("25") rate is priced exactly when it has a BaseByGuestAmt for min(adults, std) guests and a per-person ("7") rate exactly when it has one for min(all guests, std); a missing entry is the only way it fails |
| Pricing.PerPersonAdultsOnly | lib/engine.js:798-803 | for an adults-only party within std, a per-person rate charges exactly the amount stored for that many guests (the price per person times the guests) |
| Pricing.PerPersonBase | lib/engine.js:798-803 | a per-person rate charges each adult, up to std, the AmountAfterTax of the BaseByGuestAmt for min(all guests, std) guests, that amount having been stored times the guest count |
| Pricing.PerHead | lib/engine.js:801 | an amount stored as a per-person price times the guests, divided by the guests, gives the per-person price back |
| Pricing.PerRoomBase | lib/engine.js:808-811 | a per-room rate charges the AmountAfterTax of the BaseByGuestAmt for min(adults, std) guests, whatever the number of children |
| Pricing.AdultAmount | lib/engine.js:824-840 | the extra-adult amount is missing exactly when no additional amount has code "10", and otherwise is the amount of such an entry |
| Pricing.ExtraAdultCharge | lib/engine.js:824-840 | the extra adults fail exactly when there are some and no adult amount exists; otherwise they cost their count times the adult amount |
| Pricing.ChildAmount | lib/engine.js:853-864 | a child has no amount exactly when no child bracket contains its age, and otherwise the amount of a bracket that does |
| Pricing.ChildAmountUnique | lib/engine.js:853-864 | in a validated Rate the bracket that contains a child's age is the one whose amount is charged |
| Pricing.TwoCovering | lib/utilrate.js:427-436 | two distinct brackets that contain an age raise its covering count to at least two |
| Pricing.ChildrenCharge | lib/engine.js:845-878 | the children are priced exactly when each has a bracket, and then cost the sum of their bracket amounts; otherwise the first child without one is reported |
| Pricing.FullCharge | lib/engine.js:794-878 | a full chunk is priced exactly when the base amount exists, an adult amount exists when adults exceed std and every child has a bracket; it then costs the base plus the extra adults times the adult amount plus the children's bracket amounts |
| Pricing.ChunkCharge | lib/engine.js:778-883 | a chunk is priced exactly when the full chunk is, never for want of a rate, and a chunk of UnitMultiplier nights costs exactly the full-chunk price |
| Pricing.Weighted | lib/engine.js:781 | weighting by nights / count keeps a charge priced or unpriced, leaves a miss unchanged and leaves the price unchanged when the chunk is a full one |
| Pricing.PartsWeighted | lib/engine.js:801-855 | weighting the sum of base, extra adults and children is the same as weighting each part and adding them, as the code does |
| Pricing.ChunkLinear | lib/engine.js:778-855 | a chunk of n nights is priced exactly when a one-night chunk is, and costs n times as much |
| Pricing.FirstCovering | lib/engine.js:762-771 | the rate chosen is the first in document order that contains the day, and none is chosen exactly when no rate contains it |
| Pricing.FreeNight | lib/engine.js:895-916 | a one-night chunk of a stay of at least NightsRequired nights is free by the pattern when a DiscountPattern exists, and otherwise when it is among the last NightsDiscounted nights; `Pricing.FreeNightFollowsPattern` and `Pricing.FreeNightsAtEnd` state the two branches over the stay |
| Pricing.FreeNightsAtEnd | lib/engine.js:892-916 | without a DiscountPattern, in a completed walk of single nights, a date is in fn_hash exactly when the stay has at least NightsRequired nights and the date is one of its last NightsDiscounted nights (every night when the stay is shorter) |
| Pricing.WalkSingleNights | lib/engine.js:751-939 | when every Rate has UnitMultiplier 1, every chunk of a completed walk is a single night |
| Pricing.MatchRatesFreeAtEnd | lib/engine.js:892-944 | without a DiscountPattern and with every Rate's UnitMultiplier 1, the fn_hash that match_rates returns holds exactly the last NightsDiscounted nights of a stay of at least NightsRequired nights, and nothing for a shorter stay |
| Pricing.RateWalk | lib/engine.js:751-939 | the match_rates loop ends at once at the departure; what it computes is stated by `WalkTiles`, `WalkInRates`, `WalkPriced`, `WalkStuck` and `FreeNightsAtEnd` |
| Pricing.FreeNightFollowsPattern | lib/engine.js:898-908 | with a DiscountPattern a one-night chunk is free exactly when the night's position in its block of NightsRequired nights reads "1" in the pattern |
| Pricing.Advance | lib/engine.js:937 | advancing by a chunk lands on a valid day that many days later |
| Pricing.ChunkNights | lib/engine.js:778-780 | a chunk is at least one night and at most the nights left in the stay, in the rate and its UnitMultiplier, and equals one of those three, so it is their minimum |
| Pricing.WalkTiles | lib/engine.js:751-939 | a completed walk covers the nights from the current day to the departure end to end, chunk after chunk |
| Pricing.WalkInRates | lib/engine.js:762-918 | every chunk lies in the rate that priced it, and only one-night chunks are free |
| Pricing.WalkStuck | lib/engine.js:931-935 | a night the walk cannot price lies in the stay, and when the reason is a missing rate no rate contains it |
| Pricing.WalkPriced | lib/engine.js:751-939 | every chunk of a completed walk starts at a night of the stay, uses the first rate in document order containing that night, is as long as the three limits allow, costs what that rate charges for that many nights and is free exactly when the free-nights discount says so |
| Pricing.TilesCount | lib/engine.js:751-939 | chunks that cover the stay end to end add up to its number of nights |
| Pricing.FreeDates | lib/engine.js:907-915 | fn_hash holds exactly the first nights of the free chunks |
| Pricing.MatchRates | lib/engine.js:723-947 | the stay is matched exactly when the walk completes; the chunks then add up to the stay's nights, the total is their non-free cost rounded to three places and the free nights are listed; otherwise the first unmatched night lies in the stay |
| Pricing.DowIndex | lib/engine.js:979-982 | the weekday index counts Monday as 0 and Sunday as 6 |
| Pricing.DayCharge | lib/engine.js:984-1056 | a day carries a charge exactly when its weekday is allowed by the pattern and some dynamic record covers it; per-night charge types cost nothing on a free night |
| Pricing.PerNightDay | lib/engine.js:1016-1025 | under charge type 1 or 19 a covered day that is not free costs the day's amount |
| Pricing.NightlyDay | lib/engine.js:1016-1047 | on every day, charge type 21 charges pax times what charge type 19 charges |
| Pricing.PerStayPersonDay | lib/engine.js:1026-1038 | on every day, charge type 20 charges pax times what charge type 12 charges |
| Pricing.FirstChargeIsFirst | lib/engine.js:1048-1052 | the item supplement is charged on the first day of the stay that carries a charge, and no earlier day does |
| Pricing.SuppWalk | lib/engine.js:975-1061 | every charge type but "24" adds up the daily charges; "24" charges the first charged day once, and fails only when that jump would pass the last supported date |
| Pricing.PerStayDay | lib/engine.js:1026-1032 | under a per-stay charge type a covered day contributes a 1/nights share of its amount |
| Pricing.SpreadUniform | lib/engine.js:975-1061 | when every day of the stay charges the same amount the group adds up to that amount once per day |
| Pricing.PerPersonNightly | lib/engine.js:975-1061 | over any stretch of days, a charge type 21 group costs pax times what the same group costs under charge type 19 |
| Pricing.PerPersonPerStay | lib/engine.js:975-1061 | over any stretch of days, a charge type 20 group costs pax times what the same group costs under charge type 12 |
| Text.TimesIsProduct | lib/engine.js:1023 | adding an amount day by day equals multiplying it by the number of days |
| Pricing.TimesShare | lib/engine.js:1028 | the shares of a per-stay amount over the nights add up to the amount |
| Pricing.PerStayOnce | lib/engine.js:1026-1032 | a per-stay supplement covering every night of the stay costs its amount once |
| Pricing.MergedCharge | lib/engine.js:967-971 | a missing or optional group costs nothing, and the only failure is the item jump past the last supported date |
| Pricing.LoadedCharge | lib/engine.js:967 | a group that failed to load makes its error the charge's error |
| Pricing.GroupCharge | lib/engine.js:965-1061 | the load error of get_merged_supp_by_code propagates; an optional or missing group costs nothing, a mandatory one costs its walk |
| Pricing.MatchSupps | lib/engine.js:950-1067 | a get_unique_codes error propagates; otherwise the result exists exactly when every group's charge does, and is their sum rounded to three places |
| Pricing.LoadSupps | lib/engine.js:955-967 | loading lists the supplement codes and yields, for each code in order, what get_merged_supp_by_code returns for it |
| Pricing.SuppCharges | lib/engine.js:950-1067 | a load error propagates; otherwise the result exists exactly when every loaded group's charge does, and is their sum rounded to three places |
| Pricing.SuppChargesMatch | lib/engine.js:950-1067 | loading the groups first and pricing afterwards gives exactly what match_supps gives, errors included |
| Engine.Screen | lib/engine.js:357-422 | the guests pass the occupancy and offer-rule screens exactly when their count fits the room's min..max and the ages and counts fit the first Offer's restrictions; too few guests is reported as such, and a misfitting age is reported as one of the three age reasons |
| Engine.OfferRuleBlock | lib/engine.js:696-719 | find_offerrule_restrictions finds nothing exactly when the stay length fits the offer's bounds and both masks allow the date_dow of arrival and departure; a too-short stay is reported with its length |
| Engine.OfferRuleWeekdays | lib/engine.js:709-715 | an unblocked stay arrives and departs on allowed weekdays; a date whose date_dow is -1 is always blocked; otherwise allowed length and weekdays leave the stay unblocked |
| Engine.ClosedDayFirst | lib/engine.js:637-645 | the closed day reported is a night of the stay that a non-Open rule covers, and no earlier night of the stay is covered by one |
| Engine.ClosedDayNone | lib/engine.js:634-645 | no closed day is reported exactly when no night of the stay lies in a rule whose status is not Open |
| Engine.RuleVerdict | lib/engine.js:651-671 | a rule raises nothing exactly when it allows the departure weekday when it covers the departure, and the arrival weekday and the length of stay when it covers the arrival |
| Engine.DowLosBlock | lib/engine.js:649-672 | the weekday and length-of-stay loop finds nothing exactly when every rule allows the stay |
| Engine.ForwardWalk | lib/engine.js:677-690 | the walk over the stay including the departure day finishes exactly when the departure is not the last supported date, where date_add throws |
| Engine.LoadRules | lib/engine.js:623-632 | the rules of a room type load only when both find_rules_by_code calls succeed, and every loaded rule is valid |
| Engine.RulesVerdict | lib/engine.js:634-692 | the checks pass exactly when the stay is allowed by the closed days, weekdays and lengths of stay of every rule and the departure walk finishes; the only error is that walk's; a reported restriction means the stay is not allowed |
| Engine.FindRestrictions | lib/engine.js:617-694 | a loading error propagates; otherwise nothing is found exactly when the loaded rules allow the stay and the departure is not the last supported date, which is the only other error |
| Engine.EffectiveParty | lib/engine.js:443-503 | the party is `PartyFrom`: exactly min(#children, fpn - adults) of the oldest children become adults; without a family discount the other sorted children all pay and nobody is free; with one, when k children below MaxAge remain and k >= 1 and k >= MinCount, the youngest min(k, LastQualifyingPosition) stay free, otherwise none; every guest is counted once and the children stay sorted |
| Engine.PromotedGuests | lib/engine.js:455-460 | on the children sorted by age, promotion adds min(#children, fpn - adults) adults and leaves the youngest of the children |
| Engine.FamilyParty | lib/engine.js:473-503 | the family step frees the first num_applied of the sorted children, where num_applied is min(k, LastQualifyingPosition) when k qualifying children are at least one and at least MinCount, and otherwise 0; the rest stay sorted |
| Guests.PromoteCount | lib/engine.js:457-460 | the promotion loop turns exactly min(#children, fpn - adults) of the last children into adults |
| Guests.SortedPrefix | lib/engine.js:446-460 | what promotion leaves of the sorted ages, a prefix, is still sorted |
| Engine.LoadRates | lib/engine.js:733-741 | the rates of a room type load only when get_static_data and find_rates_by_code succeed, and then each rate is validated |
| Engine.PartyOf | lib/engine.js:446-503 | the party handed to match_rates is `PartyFrom` with the room's full payers needed and the plan's family offer, and its children are sorted, as match_rates' assert demands |
| Engine.Gate | lib/engine.js:334-437 | a room type is screened out exactly unless it has an occupancy row, the guests pass the occupancy and offer screens and the offer rule does not block the stay; a room without a row is skipped for that reason |
| Engine.QuoteMatch | lib/engine.js:528-558 | an unmatched stay is skipped with the night and the reason; a matched stay whose supplements can be priced is quoted at round2 of the rates' total plus the supplements' total, and one whose supplements cannot be priced throws their error; a quote is a multiple of 0.01 within half a cent of that sum |
| Engine.QuoteRates | lib/engine.js:522-558 | an unmatched stay is skipped; a matched stay is quoted exactly when its supplements can be priced, and otherwise throws their error; a quoted amount is a multiple of 0.01 within half a cent of the matched rates' total plus the supplements' total |
| Engine.PriceRoom | lib/engine.js:326-558 | a screened-out room is skipped; past the gate a rule loading error propagates, an error of the booking-rule walk propagates, a stay the booking rules refuse is skipped with their reason, and a rates loading error of an allowed stay propagates; a quote implies the room passed its gate, loaded and is allowed by the booking rules, and when those hold and the departure walk finishes the outcome is the rates-and-supplements quote |
| Engine.LoadPlan | lib/engine.js:320-558 | the loaded plan keeps the discount and the room codes get_unique_codes lists; room i holds the BookingRules load and the Rates load of code i, and the supplements are the plan's merged supplements |
| Engine.QuoteRoom | lib/engine.js:326-558 | a room's quote is filed under its own code, and a quoted amount is for a room of the occupancy table and on the cent grid |
| Engine.PlanQuotes | lib/engine.js:326-560 | a plan's quotes come one per room code, in order, every amount for a known room and on the cent grid |
| Engine.PlanQuotesPointwise | lib/engine.js:326-560 | a plan is quoted exactly when every room is priced, and its quotes pair each code with that room's outcome |
| Engine.PlanQuotesFirstErr | lib/engine.js:326-560 | a failing plan fails with the error of its first room whose pricing throws, after every earlier room priced |
| Engine.ValidateRates | lib/engine.js:167-200 | the rate part of validation passes exactly when the static data and the codes are found and, for every code, every Rate validates and none overlap |
| Engine.ValidateRules | lib/engine.js:203-228 | the rule part of validation passes exactly when the codes are found and, for every code, every rule validates and none overlap |
| Engine.ValidateSupps | lib/engine.js:230-254 | the supplement part of validation passes exactly when the codes are found and every group merges |
| Engine.ValidatePlan | lib/engine.js:163-304 | a plan validates exactly when its rates, rules and supplements validate and get_discount succeeds; the result is that discount |
| Engine.ValidatedRatesLoad | lib/engine.js:198 | after validation every listed room code's rates load, and no two of them overlap |
| Engine.AccumulateLastWins | lib/engine.js:558 | the result map holds exactly the codes some room quoted, each with the amount of the last quote for it |
| Engine.AccumulateAppend | lib/engine.js:558 | accumulating a list of quotes is accumulating its two parts, the later part's entries overwriting the earlier's |
| Engine.ConcatLastPlanWins | lib/engine.js:316-562 | over the quote lists of all plans in order, a code is in the result exactly when some plan quotes it, with the amount the last plan quoting it gives |
| Engine.AccumulateSound | lib/engine.js:558 | every code in the result is a room of the occupancy table and its amount is on the cent grid |
| Engine.ValidatedCodes | lib/engine.js:163-304 | once every plan validated, each plan's discount and room codes are available to the matching pass |
| Engine.LoadAll | lib/engine.js:316-322 | one loaded plan per plan, each keeping its validated discount, its get_unique_codes room codes and its merged supplements |
| Engine.AllQuotes | lib/engine.js:316-562 | the matching pass succeeds exactly when every plan is quoted, and its quotes are exactly those of the plans, each for a known room on the cent grid |
| Engine.AllQuotesLastPlanWins | lib/engine.js:316-562 | when every plan's pass yields its quote list, the matching pass succeeds, a room code gets a cost exactly when some plan quotes it, and the cost is the one of the last plan that quotes it |
| Engine.MatchPlans | lib/engine.js:307-562 | the first plan error propagates; otherwise the result is the last-wins accumulation of all quotes, keyed by known rooms with amounts on the cent grid |
| Engine.Run | lib/engine.js:50-564 | a job error comes first, then a find_plans error, then the first validation error; a result implies all three passed and maps known room codes to amounts on the cent grid |

## Left out

- XML parsing (`parseStringSync`): the model starts from the decoded tree, so the XML parse error is not modelled.
- The trace texts `info1` and `info2`, and the `cost_details` lines: they are output only. The reasons a room type is skipped are kept as an enumeration.
- IEEE doubles: amounts are exact reals, and `toFixed` is modelled as rounding half away from zero on the exact value.
- The order of the arithmetic in match_rates and match_supps: `match_rates` weights each part of a chunk by nights / UnitMultiplier and a Type 7 base by adults / guests before adding, and `match_supps` computes `amount * pax / nights`. The model weights the full-chunk price once and writes `n` times `x` as a repeated sum (`Text.Times`, equal to the product by `Text.TimesIsProduct`). Over exact reals these are the same amounts (`Pricing.PartsWeighted`, `Pricing.PerHead`); with doubles the last bits may differ.
- Engine.QuoteRates: states that a matched stay with priced supplements is quoted within half a cent of the sum, on the cent grid; that the quote is exactly round2 of the sum is stated on `Engine.QuoteMatch`, which `QuoteRates` applies to the match, because proving it again through `Pricing.MatchRates`' contract exceeds the solver's budget.
- Pricing.DayCharge: the amount of a day under the item charge type "24" (the day's amount, charged once) is not stated by a day lemma; `Pricing.FirstChargeIsFirst` and `Pricing.SuppWalk` state which day it is charged on.
- `Object.prototype` names as object keys (`__proto__`, `constructor`): a code such as "constructor" would read an inherited property. Keys are a plain map.
- The advance-booking screen (`lib/engine.js:430-437`) is left out. `get_discount` never sets `min_advanced` or `max_advanced`, so the screen never skips. The booking date is still validated.
- The forward-stay bounds `fwd_min_stay` and `fwd_max_stay` are never set by `get_rule`. Only the day-by-day walk is kept, because its `date_add` can throw.
- `assert` traps for states validation excludes (unsorted children, an unknown charge type): the model's preconditions and types rule these states out.
- `cli.js`, the command-line wrapper, and its file I/O are not part of this model.
- Engine.Run: states the errors, and that a result's keys are rooms of the occupancy table with amounts on the cent grid. That the result is the last-wins accumulation of all quotes is stated on `Engine.MatchPlans`, which `Run` calls, because stating it on `Run` too exceeds the solver's budget.
