# A verified model of the storage kernel

This project models, in Dafny, the kernel that every storage backend of the Go module
`cyoda-go-spi` shares: how a search operand becomes a filter and a filter an answer, how scheduled
tasks are claimed and fenced, how schemas, paths, signatures and merges behave. It proves what those
parts promise over all inputs, all runs and all trees. `dafny verify dfyconfig.toml` checks it.

| file | models |
|---|---|
| `Arith`, `Numerals`, `Strings`, `Bytes`, `Utf8`, `Wrappers` | powers, digit counts, numerals, text as code points and as bytes, options |
| `DigitBounds`, `Decimals`, `DecimalLaws`, `DecimalText`, `JsonNumbers`, `Json` | decimals: comparison, rounding, stripping, text; JSON values |
| `DataTypes`, `TypeSet` | the widening lattice and the type sets it collapses |
| `Filters`, `NumericAdmit`, `NumericBucket`, `NumericSearch`, `EvalLeaf` | leaves: expansion and evaluation |
| `AdmitMeaning`, `BranchOperands`, `LeafLaws`, `OperatorMeanings` | what a type can hold, what branches test, and what leaves answer for every kind of stored value and every operator name |
| `Calendar`, `Temporal` | the temporal resolution graph over a civil calendar |
| `LikePattern` | the LIKE matcher |
| `FilterPath`, `FilterPathLaws`, `PathResolve` | the path grammar, its printer and fold, and what a path addresses |
| `Conditions`, `ConditionLaws` | conditions, filters, prepared filters and their meaning |
| `ModelSchema`, `SchemaFields` | the schema tree, its wire form and its flattened fields |
| `SearchLaws` | a search end to end: schema, condition, filter, document |
| `UniqueSignature`, `SignatureMeaning` | unique-key signatures, their tokens as written and the fields they come from |
| `OrderCompare`, `Merges` | the sort-key order and the overlay merges |
| `ClaimSelection`, `ClaimLoops`, `ClaimLaws`, `ClaimOrder`, `ClaimPruning` | which tasks one claim call takes, its loops, its promises on the tasks' fields, and the bounded read |
| `TaskStore`, `TaskStoreCalls`, `TaskStoreLaws`, `TaskStoreRuns`, `TaskStoreCommits`, `ScheduledTasks` | the scheduled-task store as a machine, each call field by field, its runs, and a store that follows it |

How to read it. A `big.Int` is an `int`; an int32 scale is a bounded type and every subtraction that
can leave it is written with its wrap-around. A panic is `None`. A stored JSON number is the literal
`ParseDecimal` reads (section 6 of RFC 8259), a document is a datatype, and what code outside the
module makes of a text is a parameter: a temporal's parsed fields (offset timestamps per section 5.6
of RFC 3339), a UUID, Unicode case, a regular expression. Text is valid UTF-8 (section 3 of RFC 3629)
and stands as its code points, which compare as their bytes do (`Utf8.OrderKept`); where a length in bytes counts it is that of the encoding. The task store and the
sort keys keep byte strings. A pull-stream is the rows it will give and how it ends. Clocks and
drawn tokens are parameters, or drawn from a counter by the store object. Where the source changes
things step by step (the claim loops, the scans, the merges, the type set, the schema node, the task
store) the model does too, each method against a specification function, and the laws are about those
functions. `ConditionLaws.MatchIsMeaning` takes the leaf kernel as a parameter;
`SearchLaws.NumericMatchExact` and `SearchLaws.RangeMatchExact` put the kernel of `EvalLeaf` in its place. What the
shared definitions mean is said once more without them, on fields, literals and operator names: `AdmitMeaning`,
`ClaimOrder`, `TaskStoreCalls`, `OperatorMeanings`, `SignatureMeaning`, `OrderCompare.OrderMeans` and
`Temporal.MillisFloors`. Inside a transaction the
fence is judged on what the transaction sees, so one open since before may still accept a stale ref
(`TaskStoreRuns.OlderTxStillAccepts`); its commit is refused (`TaskStoreRuns.StaleWorkNeverCommits`).

Where the code and its documentation differ:

- `roundToPrecision` is documented to limit the digits. At the int32 scale floor its scale subtraction
  wraps and it does not (`DecimalLaws.RoundToPrecisionWraps`);
  `DecimalLaws.RoundToPrecisionLimitsDigitsIff` gives the exact condition. Its only caller never comes
  near the floor (`NumericBucket.DoubleWindowFits`).
- The exponent bound of unique-key numbers is documented as 6144. A written exponent past 61459 is not
  read in full and can pass (`UniqueSignature.BoundCanFail`); `UniqueSignature.BoundHoldsIff` gives
  the exact condition.
- `Canonical` is documented to round-trip; at the int32 minimum scale it fails instead
  (`DecimalText.CanonicalFailsIff`, `DecimalText.CanonicalFailsAtFloor`).
- NOT_EQUAL on a temporal operand finer than the stored period misses one period
  (`LeafLaws.NotEqualCanMiss`), and a temporal range is decided on floored bounds
  (`LeafLaws.BetweenCanMiss`, `LeafLaws.InclusiveCanOverreach`); `LeafLaws.TemporalLeafExact` and
  `LeafLaws.TemporalRangeExactIff` say exactly when they are exact.
- A schema node that declares nothing reads back from the wire as an empty scalar branch
  (`ModelSchema.EmptyNodeComesBackScalar`, `ModelSchema.WireRoundTripIff`).

## Model

| member | source | states |
|---|---|---|
| DigitBounds.Log10Of2Enclosed | decimal.go:360-373 | 10^1292913986 < 2^(2^32) < 10^1292913987: the two fixed-point constants enclose log10(2) strictly, with no real number used |
| DigitBounds.DigitCountWithin | decimal.go:374-396 | digitCountBounds brackets the true number of decimal digits of every coefficient by its bit length |
| DigitBounds.BracketWidth | decimal.go:364-396 | for every bit length up to 2^31-1 the bracket is at most one digit wide and its int64 products stay in range |
| DecimalLaws.CmpAt | decimal.go:403-483 | through every exit of Cmp (sign, equal scale, bit-length bracket, adjusted exponent, aligned tie) the answer is the sign of the difference of the two values counted in any common unit |
| DecimalLaws.CmpExact | decimal.go:403-483 | Cmp orders decimals exactly as the rationals they denote, for all coefficients and scales |
| DecimalLaws.StripKeepsValue | decimal.go:146-191 | StripTrailingZeros keeps the value and ends at a spelling with no zero the int32 scale floor lets go of |
| DecimalLaws.StrippedUnique | decimal.go:146-191 | a value has one stripped spelling, so stripped decimals are equal exactly when their values are |
| DecimalText.StripByRendering | decimal.go:168-190 | counting zeros from the end of the decimal rendering, capped by the scale headroom, strips exactly the run of factors of ten |
| DecimalLaws.StrippedWhole | decimal.go:146-191 | a stripped decimal with a positive scale denotes no whole number |
| DecimalLaws.SetScaleExact | decimal.go:203-247 | SetScale succeeds exactly when the value can be written at the new scale, and then returns that spelling; its early refusal by digit count changes no answer |
| DecimalLaws.RoundToScaleExact | decimal.go:261-324 | roundToScale is the true floor or ceiling at the target scale for every sign, its digit-count shortcut included: no decimal of that scale or coarser lies strictly between operand and result |
| DecimalLaws.RoundToPrecisionExact | decimal.go:326-358 | where the scale fits, roundToPrecision keeps at most maxPrec digits and finds the nearest such decimal on the side asked for, of any scale |
| DecimalLaws.RenormalizeCarry | decimal.go:348-356 | a rounding carry leaves a power of ten, so the renormalising SetScale always succeeds and keeps the value; it drops the extra digit exactly where the scale is not the lowest int32, where it wraps |
| DecimalLaws.CarryIff | decimal.go:334-338 | a rounding to maxPrec digits carries into one more exactly when the mode rounds away from zero a number past the largest the kept digits spell |
| DecimalLaws.RoundToPrecisionLimitsDigitsIff | decimal.go:339-358 | short of 2^31 dropped digits, the digit limit is met if and only if the rounded scale is above the int32 floor, or is the floor and the mode rounds toward zero or the number is not past the largest that maxPrec digits spell there |
| DecimalLaws.RoundToPrecisionWraps | decimal.go:339-358 | a concrete decimal at the int32 scale floor whose rounding wraps and keeps too many digits |
| DecimalText.ParsesLoose | decimal.go:20-117 | every decimal literal (signs, leading zeros and one-sided points included) is read to exactly the coefficient and scale it denotes, refused only for an exponent past int64 or a scale past int32 |
| DecimalText.ParsesIff | decimal.go:20-117 | ParseDecimal accepts a string if and only if it is such a literal that fits: NaN, infinities and malformed forms are refused |
| DecimalText.ParseIsExact | decimal.go:20-117 | so it reads every JSON number to the decimal it denotes |
| DecimalText.CanonicalRoundTrip | decimal.go:498-533 | what Canonical writes ParseDecimal reads back to the same value, at the scale it was written with |
| DecimalText.CanonicalFailsIff | decimal.go:500-533 | Canonical fails exactly for a non-zero value at the lowest int32 scale, where the negated scale wraps |
| DecimalText.CanonicalFailsAtFloor | decimal.go:500-533 | 10^(2^31), one at the lowest int32 scale, is a value it cannot write |
| DecimalText.WholeOfExact | parse_typed.go:49-114 | parseWholeType accepts an operand for INTEGER, LONG or BIG_INTEGER exactly when it is a whole number of 32, 64 or 128 bits and returns that number; the digit-count early reject decides no case differently |
| NumericAdmit.ToRangeExact | numeric_bucket.go:89-97 | a value is classed below, in or above a window by its exact value |
| NumericAdmit.AdmitsMeans | numeric_admit.go:32-81 | admission is the type's magnitude window, wholeness for the integer family, and digits and scale of the stripped spelling for DOUBLE |
| AdmitMeaning.AdmitsIff | numeric_admit.go:32-81 | which numbers each type admits, the code's windows not named: whole numbers of 32, 64 and 128 bits for INTEGER, LONG and BIG_INTEGER, any whole number for UNBOUND_INTEGER, a 128-bit integer over 10^18 for BIG_DECIMAL, at most 15 digits and 292 places up to 999999999999999 * 10^278 for DOUBLE, everything for UNBOUND_DECIMAL, nothing for the others |
| AdmitMeaning.WideningIsInclusion | numeric.go:118-164 | one numeric type is assignable to another exactly when the other can hold every number it can |
| NumericAdmit.WideningKeepsValues | numeric_admit.go:32-81 | if a type is assignable to another, every value the narrower admits the wider admits |
| NumericBucket.DoubleWindowFits | numeric_bucket.go:212-226 | an imprecise operand inside the DOUBLE window always has room on the int32 scale to be rounded |
| NumericBucket.ExpandNumericOperand | numeric_bucket.go:24-50 | the sub-conditions produced are the decimal family's and then the integer family's, one for each declared type whose branch is not dropped |
| NumericBucket.ExpandDecimalFamily | numeric_bucket.go:121-171 | the loop over decimal types collects each type's branch in order |
| NumericBucket.ExpandIntFamily | numeric_bucket.go:228-287 | the loop over integer types, after one shared fold, collects each type's branch in order |
| NumericSearch.RoundDoubleExact | numeric_bucket.go:212-226 | rounding the operand to DOUBLE's digits and scale moves no admitted stored value across it |
| NumericSearch.FoldExact | numeric_bucket.go:289-314 | folding a fractional operand to a whole one moves it across no whole number, and where it folds nothing the operand equals none |
| NumericSearch.OutOfWindowDecides | numeric_bucket.go:135-171 | an operand outside a type's window lies on one side of every value the type admits, so the existence test or the drop is exact |
| NumericSearch.BranchExact | numeric_bucket.go:135-314 | whatever a declared type contributes (a test, an existence test or nothing) decides every value that type admits exactly as the unrounded comparison |
| BranchOperands.FoldIsWhole | numeric_bucket.go:289-314 | a folded operand is whole, and folding gives nothing exactly for a fraction under EQUALS or NOT_EQUAL |
| BranchOperands.RoundedIsPrecise | numeric_bucket.go:212-226 | an operand rounded for DOUBLE has at most 15 digits and 292 decimal places, though the second rounding starts again from the unclamped value |
| BranchOperands.TestedOperandIsHeld | numeric_bucket.go:121-314 | whatever operand a numeric branch tests stored values against, the branch's declared type can hold it |
| EvalLeaf.ExpandLeaf | eval_leaf.go:146-240 | one expansion per operator kind; a pattern operand that does not compile leaves a leaf without a pattern, an operator outside the leaf set is refused |
| EvalLeaf.ExpandCompare | eval_leaf.go:262-307 | the sub-conditions of every declared type, numeric, temporal, text, character, truth value and UUID, and failure exactly where no declared type reads the operand |
| EvalLeaf.ExpandBetween | eval_leaf.go:309-361 | the expansion of a range leaf over exactly two bounds, and failure exactly where neither the numeric nor the temporal family takes both bounds and STRING is not declared |
| EvalLeaf.EvalCompare | eval_leaf.go:443-556 | the loops over sub-conditions with their candidate flag answer whether one of the stored value's kind matches, and whether any was tried |
| EvalLeaf.EvalBetween | eval_leaf.go:558-613 | the range loops answer whether an admitted number, a temporal value or a text lies within the bounds |
| EvalLeaf.EvalStringOp | eval_leaf.go:635-674 | the sixteen text operators over a stored text, LIKE by its tokens |
| EvalLeaf.Eval | eval_leaf.go:380-425 | EvalLeaf's dispatch: presence, a match, or the operator's polarity where nothing was tried or the value is not text |
| LeafLaws.NumericLeafExact | eval_leaf.go:384-556 | for every operand, declared type list, compare operator and stored number: if some declared type admits the number the leaf answers the comparison of the two rationals, otherwise it is true only for NOT_EQUAL, and a number that cannot be read matches nothing |
| LeafLaws.NumericRangeExact | eval_leaf.go:558-633 | a numeric range holds exactly for an admitted value between the two unrounded bounds |
| LeafLaws.UnreadableNumber | eval_leaf.go:384-471 | a stored number that cannot be read matches no comparison, NOT_EQUAL included, and no range; it matches exactly NOT_NULL and the negative text operators, which it gives nothing to test |
| LeafLaws.BooleanLeafExact | eval_leaf.go:543-553 | a stored truth value compares with an operand that spells one under EQUALS and NOT_EQUAL; without one, only NOT_EQUAL matches |
| LeafLaws.StructureLeafIs | eval_leaf.go:404-425 | a stored array or object matches a comparison only under NOT_EQUAL |
| LeafLaws.NothingMatchesNull | eval_leaf.go:384-402 | a value absent or null matches no leaf, negative ones included, but IS_NULL |
| LeafLaws.DeniedIsComplement | eval_leaf.go:635-674 | a negative text operator answers the complement of the one it denies on every value present, whatever its kind |
| LeafLaws.LikeLeafIsGlob | eval_leaf.go:800-808 | a LIKE leaf compiles exactly for a well-formed operand and then matches exactly the stored texts of its glob |
| Calendar.ValidIff | temporal_subtype.go:189-194 | clock fields are a date and a time of day exactly when the Gregorian calendar has them |
| Calendar.NanosCount | temporal_subtype.go:49-56 | the nanosecond count starts at 1970-01-01T00:00, grows by 24 hours from any date to the next, months, leap years and year ends included, and by the difference of the times within one date |
| Calendar.NanosOrder | temporal_subtype.go:49-56 | counting nanoseconds from the civil date orders wall-clock values as their fields do |
| Temporal.MillisFloors | temporal_subtype.go:47-56 | Millis is the instant floored to the millisecond, and a zoned clock's instant is its offset earlier than the same clock at UTC |
| Temporal.OffsetShifts | temporal_subtype.go:47-56 | a zoned value counts as the zone-less one whose clock is its offset behind, and a clock moved on by d seconds with its offset raised by d is the same instant |
| Temporal.FloorIsLatestStart | temporal_subtype.go:312-333 | flooring to a subtype gives the latest start of such a period no later than the clock; a time of day keeps its clock on the epoch date |
| Temporal.PathsAre | temporal_subtype.go:269-310 | there is a downscale path exactly from a finer subtype to a coarser one, an upscale path exactly the other way, and LOCAL_TIME lies beside the dates |
| Temporal.NoPairBothWays | temporal_subtype.go:269-310 | no pair of temporal types has both a downscale and an upscale path, and no type has a path to itself |
| Temporal.ConvertTemporal | temporal_subtype.go:448-482 | the conversion loop follows the one path there is, mutating the operator on the way down, and ends where the path does |
| Temporal.ExpandTemporalOperand | temporal_subtype.go:498-534 | one sub-condition for each declared temporal type the operand converts to |
| Temporal.DownscaleExact | temporal_subtype.go:456-496 | over any number of hops down to a stored LocalDate, YearMonth or Year, every operator but NOT_EQUAL answers as comparing the stored period's start with the unfloored operand, a dropped EQUALS could not have held, and NOT_EQUAL is exact if and only if nothing was floored away or the stored period is another |
| Temporal.UpscaleKeepsMillis | temporal_subtype.go:334-361 | every upscale path leaves the milliseconds compared unchanged |
| LeafLaws.TextLeafIs | eval_leaf.go:493-541 | a stored text matches a comparison when its temporal reading or some other declared type finds it to hold; where none has a candidate, NOT_EQUAL matches |
| LeafLaws.TemporalLeafExact | eval_leaf.go:493-541 | over a stored period the leaf answers the unfloored temporal comparison or another declared type's, if and only if the operator is not NOT_EQUAL, nothing was floored away, the stored period is another, or another type holds |
| LeafLaws.InstantLeafExact | eval_leaf.go:493-541 | over the operand's own subtype or one it upscales to, the leaf compares the two clocks, each read its offset earlier and floored to the millisecond, or holds by another declared type, for every operator |
| LeafLaws.InstantRangeExact | eval_leaf.go:589-611 | a range whose bounds are of the stored subtype or upscale to it holds of those instants, the ends out for BETWEEN and in for BETWEEN_INCLUSIVE, or of the texts where STRING is declared |
| LeafLaws.ClockLeafExact | eval_leaf.go:493-541 | over a stored LocalDateTime or LocalTime a finer operand comes down to, clocks compare to the millisecond, EQUALS asking that nothing of the operand was dropped |
| LeafLaws.UnrelatedLeafIs | eval_leaf.go:493-541 | between subtypes with no path the temporal family has no candidate and the other declared types decide |
| LeafLaws.StringLeafCompares | eval_leaf.go:517-523 | where STRING is declared the texts are compared as texts whatever else they read as; declared alone they decide |
| LeafLaws.NotEqualCanMiss | temporal_subtype.go:456-496 | stored year 2024 differs from 2024-06 and does not match NOT_EQUAL 2024-06 |
| LeafLaws.TemporalRangeExactIff | eval_leaf.go:589-611 | the exact condition under which a range over a stored period, decided on floored bounds and on the texts where STRING is declared, is the written range or that of the texts |
| LeafLaws.BetweenCanMiss | eval_leaf.go:309-378 | stored year 2024 lies between 2023 and 2024-06 and is not matched |
| LeafLaws.InclusiveCanOverreach | eval_leaf.go:309-378 | stored year 2024 lies before 2024-06 and is matched between 2024-06 and 2025, ends included |
| LikePattern.ParseLikePattern | like_pattern.go:29-93 | the tokeniser fails exactly on a trailing unpaired escape, never emits adjacent '%' tokens or empty or adjacent literals, and its tokens accept exactly the strings of the glob |
| LikePattern.Matches | like_pattern.go:95-138 | the scan with one backtrack point accepts a string exactly when the tokens do, and terminates |
| LikePattern.Like | filter.go:32-47 | tokenising and scanning together decide the declarative glob, for every operand and stored value |
| TypeSets.CollapseNumeric | numeric.go:166-227 | the collapse of numeric types is their least upper bound in the widening lattice |
| DataTypes.LeastUpperBoundCollapses | numeric.go:118-164 | replacing part of a set by its least upper bound does not move the bound |
| TypeSets.TypeSet.Add | datatype.go:108-164 | after any sequence of Adds a type set is the canonical one for the set of types added |
| TypeSets.CanonicalUnique | datatype.go:103-164 | the types a set holds depend only on which types were added, not on order or repetition |
| TypeSets.CanonicalShape | datatype.go:103-164 | at most one numeric type is held, and NULL only alone |
| TypeSets.Union | datatype.go:230-240 | the union of two type sets holds what one set given everything added to both would hold |
| ClaimLoops.SortCandidates | scheduled_task_helpers.go:27-36 | the candidates are permuted in place into ascending (NextAttemptTime, tenant, id), said of those fields |
| ClaimLoops.GroupByTenant | scheduled_task_helpers.go:37-48 | tenants in the order of their first candidates, and each tenant's candidates in order |
| ClaimLoops.SelectClaims | scheduled_task_helpers.go:26-78 | the nested loops over queues, quotas and seen entities return the round robin of each tenant's first candidate per entity, cut at quota and limit, and so keep every promise of ClaimOrder.SelectedKeepsPromises |
| ClaimOrder.SelectedKeepsPromises | scheduled_task_helpers.go:18-25 | said of times, ids, tenants and entities alone: a tenant's claims ascend by (NextAttemptTime, id); one passed over has its entity claimed no later; the first claim is no later than any candidate of a tenant with quota, ties by tenant id; tenants take turns, the one with the earliest candidate ahead; limit, quota and one claim per entity hold; and with limit and quota to spare every candidate's entity is claimed |
| ClaimLaws.FirstsOnePerEntity | scheduled_task_helpers.go:18-25 | a tenant's eligible candidates are the first of each of its entities, every entity once, in order |
| ClaimLaws.ShareAt | scheduled_task_helpers.go:22-25 | at every point of the selection a tenant has the beginning of its picks, and no other tenant is more than one claim ahead of it unless it has them all |
| ClaimLaws.SelectedWithinBounds | scheduled_task_helpers.go:18-25 | no two claims of one (tenant, entity), no tenant over its quota, no call over its limit |
| ClaimLaws.SelectedExhausts | scheduled_task_helpers.go:18-25 | fewer claims than the limit means every tenant has run out of quota or of unseen entities |
| ClaimPruning.PrunedQueue | persistence.go:238-246 | what the bounded read keeps of a tenant is the first candidate of each of its min(quota, limit) earliest entities |
| ClaimPruning.PruningKeepsSelection | persistence.go:238-246 | given task ids unique per tenant, SelectClaims over the bounded read makes the same claims in the same order as over the whole backlog |
| ClaimPruning.AnyReadingKeepsSelection | persistence.go:238-246 | and so whatever order the bounded read hands its candidates over in |
| ClaimPruning.OfferedIsBounded | persistence.go:246-255 | the bounded read keeps at most limit and at most perTenantLimit candidates of a tenant, whatever its backlog |
| TaskStoreRuns.StepKeeps | persistence.go:141-321 | every step of the store (transactions, joining writes, claims, give-back, marks, records, sweeps) keeps the invariant and moves each row within its life or starts one never committed before |
| TaskStoreRuns.RunningTasks | types.go:363-371 | in every run a task is RUNNING exactly when it carries a claim, and at most one task of a (tenant, entity) is RUNNING |
| TaskStoreRuns.StaleIsRefused | persistence.go:79-82 | from the moment a drawn claim no longer holds its life, whatever is re-armed or re-claimed: MarkUnsafe, RecordAttempt and joining calls without a transaction refuse its ref, none is accepted in a transaction begun since, and an open transaction that accepted one commits with Conflict |
| TaskStoreRuns.StaleWorkNeverCommits | persistence.go:79-117 | a transaction in which a ref was accepted, before it went stale or after, does not commit once it is stale |
| TaskStoreRuns.OlderTxStillAccepts | persistence.go:88-108 | what is not promised: a transaction open since before judges a ref on what it saw at its beginning, accepts it though stale, and is refused at its commit |
| TaskStoreRuns.CommitIsFenced | persistence.go:103-117 | first committer wins over task rows, so a transaction that commits still holds, at that moment, every claim it stamped or failed under |
| TaskStoreRuns.LifeGoesOn | types.go:400-407 | a life stays on its row, its counters never fall, a partial commit is never forgotten, FAILED is final, and an ended life never comes back |
| TaskStoreRuns.CountersCount | types.go:449-453 | Attempts is the number of counted attempts recorded in the current life and LostOwners the number of claims of it taken from a lost owner |
| TaskStoreRuns.MarkHasOneClaim | persistence.go:287-302 | a mark of a life belongs to the claim that wrote it: another claim's mark can stand later only if the first claim, still current, took its own back in between |
| TaskStoreRuns.ArmedUnmarked | persistence.go:142-157 | a newly armed life is unmarked, whatever marks its row had before |
| TaskStoreCommits.FirstCommitterWins | persistence.go:100-124 | in every run a transaction is refused at its commit exactly when, since it began, another committed write touched a row it staged, by a joining call without a transaction, a commit, a claim, a give-back or a recorded attempt; one that commits finds every row it staged as it was when it began |
| TaskStoreCalls.ClaimableMeans | persistence.go:190-224 | a task is claimable exactly when it is WAITING and due, or RUNNING under an owner with no beat or one older than StaleAfter where lost owners are allowed, is not written by an open transaction, and no other task of its entity is RUNNING |
| TaskStoreCalls.ClaimedRows | persistence.go:190-194 | a claimed row runs under the new claim with one more lost owner if it was RUNNING, every other field as it was, and every other row untouched |
| TaskStoreCalls.OwnersBeat | persistence.go:266-271 | a task whose owner's beat is fresh cannot be claimed; once the owner has retired it can, unless a transaction wrote it or its entity runs another |
| TaskStoreCalls.GiveBackRows | persistence.go:277-285 | exactly the owner's RUNNING rows outside keep and untouched by open transactions wait again, with attempts, lost owners, times and marks unchanged |
| TaskStoreCalls.MarkAnswers | persistence.go:287-291 | busy, then stale, then marked by another claim; otherwise exactly the mark of the ref's life becomes this claim's |
| TaskStoreCalls.StorableMeans | scheduled_task_helpers.go:80-96 | an error text is kept exactly when it is at most 1024 bytes, the encoding of some text, and free of NUL |
| TaskStoreCalls.RecordAnswers | persistence.go:293-302 | refused text, then busy, then stale; otherwise the row waits for the given time with its error and time recorded, one more attempt unless not counted, its claim gone, this claim's own mark gone if asked for, and nothing else changed |
| TaskStoreCalls.SweptOwners | persistence.go:273-275 | exactly the beats older than deadFor of owners no task is claimed by go |
| TaskStoreCalls.SweptMarks | persistence.go:311-314 | exactly the marks of lives no task is in go |
| TaskStoreCalls.JoinAnswers | persistence.go:83-97 | a joining call is refused for its input, then for the transaction's tenant, then as stale against what its transaction sees, and a refused call changes nothing |
| TaskStoreCalls.JoinTakesEffect | persistence.go:115-117 | an accepted one is seen in its own transaction and by nothing else, or is committed at once where there is none |
| TaskStoreCalls.ReconciledRows | persistence.go:142-162 | each plan armed is a new WAITING row with every field of an earlier life reset, every other task of the entity is gone, and every other row is as it was |
| TaskStoreCalls.RemovedRows | persistence.go:164-170 | the row goes exactly if it is in the named life; otherwise nothing is written, not even as a conflict |
| TaskStoreCalls.StampedRows | persistence.go:172-175 | the row is written, with PartialCommit set if asked and kept otherwise |
| TaskStoreCalls.EntitiesDeletedRows | persistence.go:177-179 | exactly the tenant's tasks of the listed entities go |
| TaskStoreCalls.ModelDeletedRows | persistence.go:181-187 | exactly the tenant's tasks of the model version go, but those of a kept transition |
| TaskStoreCalls.FailedRows | persistence.go:304-309 | the row is FAILED with its reason, error and time and no claim; attempts, lost owners and the rest stand |
| TaskStoreCalls.BeginRows | persistence.go:102-117 | a transaction begins with the committed rows as they are |
| TaskStoreCalls.CommitRows | persistence.go:102-124 | a commit leaves the rows staged and no others changed; a refused one leaves the rows |
| ScheduledTasks.ScheduledTaskStore.ClaimDue | persistence.go:190-264 | refused exactly for a limit below 1 or a negative count; otherwise every task claimed was WAITING and due, or RUNNING under a lost owner where that is allowed, not written by an open transaction, no other task of its entity RUNNING; the claims ascend, keep the limits and take turns as promised, and with limit and quota to spare every such task has one of its entity claimed; each gets a new token in one legal step, and those marked unsafe or taken from a lost owner are named |
| ScheduledTasks.ScheduledTaskStore.Join | persistence.go:60-78 | a joining call, inside a transaction or applied at once, with input refused before tenant and tenant before fence |
| ScheduledTasks.ScheduledTaskStore.ReconcileForEntity | persistence.go:142-162 | arms each plan under its own new token, writes nothing else but the removal of the entity's other tasks, and returns those removed that were not cancelled, ascending by id |
| ScheduledTasks.ScheduledTaskStore.Commit | persistence.go:103-117 | commits the staged rows or refuses them for a row written since the transaction began |
| ScheduledTasks.ScheduledTaskStore.GiveBackIdle | persistence.go:277-285 | returns every task RUNNING under the owner but the kept claims and the busy rows, and counts them |
| ScheduledTasks.ScheduledTaskStore.MarkUnsafe | persistence.go:287-291 | marks the life for this claim, or answers busy, stale or marked by another claim and changes nothing |
| ScheduledTasks.ScheduledTaskStore.RecordAttempt | persistence.go:293-302 | records the attempt, clears the claim and, when asked, this claim's own mark in one write, or changes nothing |
| Utf8.ValidIff | scheduled_task_helpers.go:80-96 | an error text's bytes are valid UTF-8 exactly when they encode some code points |
| FilterPath.ParseFilterPath | filter_path.go:25-122 | the cursor scan accepts exactly the paths of the documented grammar with indices that fit int32, and returns the hops they spell |
| FilterPath.ParseIsGrammar | filter_path.go:29-122 | the scan's result is the one list of hops the grammar spells a path with |
| FilterPath.RenderPathHops | condition_filter.go:300-330 | the buffer filled is the printed form of the hops |
| FilterPathLaws.ParseOfRender | condition_filter.go:300-330 | parsing what renderPathHops printed gives the hops back, for all valid hops |
| FilterPathLaws.ParsedHops | filter_path.go:45-122 | whatever parses has hops renderPathHops can print |
| FilterPathLaws.FoldIdempotent | condition_filter.go:532-571 | folding subscripts to wildcards twice is folding once, for every string |
| FilterPathLaws.FoldIsRender | condition_filter.go:532-571 | the lookup key of a path is its hops printed with every subscript a wildcard |
| FilterPathLaws.StripIsGrammar | condition_filter.go:600-670 | the wire boundary accepts exactly the leader followed by a path of the grammar; its bracket-quote test refuses nothing the scan would accept |
| FilterPathLaws.ElementPathParses | condition_filter.go:265-298 | the element path of a well-formed container is the container's hops with position i, and parses back to them |
| FilterPathLaws.ElementsShareKey | condition_filter.go:265-298 | every element's lookup key is the same, and the container's own when the container ends in [*] |
| FilterPathLaws.ElementPathIff | condition_filter.go:275-298 | an element path is accepted exactly when its container is and the position fits int32: the textual fallback never yields a path |
| PathResolve.ResolvePath | filter_path_resolve.go:5-67 | replacing the result list hop by hop ends with the values the path addresses depth first, in document order |
| PathResolve.NameAddresses | filter_path_resolve.go:68-86 | a name leads to the first member of an object so named, and from anything else to a result that does not exist |
| PathResolve.IndexAddresses | filter_path_resolve.go:88-100 | [i] leads to the array's element i, and elsewhere to a result that does not exist |
| PathResolve.WildcardAddresses | filter_path_resolve.go:48-57 | [*] leads to every element of an array in order, and elsewhere to no result at all |
| PathResolve.NoWildcardOneResult | filter_path_resolve.go:13-24 | a path without a wildcard addresses exactly one result, existing or not |
| PathResolve.WildcardIsAllPositions | filter_path_resolve.go:18-24 | the existing values of a wildcard path are exactly those its positional paths address |
| PathResolve.FoldAddressesMore | condition_filter.go:532-571 | every existing value a positional path addresses is among those of its wildcard fold |
| Conditions.DesugarCondition | condition_filter.go:191-238 | the recursive rewrite, failing at the first child that fails |
| Conditions.DesugarArrayCondition | condition_filter.go:240-263 | one leaf for each non-null position, alone or under AND, and a refusal when there is none |
| Conditions.ToFilter | condition_filter.go:161-189 | the translation of a desugared condition, failing at the first child that fails |
| Conditions.PrepareNode | prepared_filter.go:89-224 | the prepared tree, refused for a NOT without exactly one child or a leaf that cannot be evaluated |
| Conditions.Match | prepared_filter.go:228-283 | the early-return loops answer the prepared tree's meaning: AND, OR, NOT, and some addressed value at a leaf |
| ConditionLaws.DesugaredPlain | condition_filter.go:191-238 | desugaring leaves no array clause at any depth |
| ConditionLaws.DesugarOnce | condition_filter.go:161-189 | desugaring is idempotent, so translation need not repeat it below the root |
| ConditionLaws.KeyOfPath | condition_filter.go:334-368 | the fields-map key built for a leaf is its folded hops, trimming and leader normalisation included |
| ConditionLaws.ClauseCompiled | condition_filter.go:240-263 | an array clause compiles as its non-null positions do: one as that leaf, several as their AND, none not at all |
| ConditionLaws.MatchIsMeaning | condition_filter.go:150-263 | for every condition and any leaf kernel: translation and preparation accept it exactly when all its leaves are evaluable, and then Match answers for every document what the condition says, an array clause being the conjunction over its non-null positions |
| ConditionLaws.MetaByName | condition_filter.go:413-429 | a lifecycle condition tests the metadata field it names, previousTransition standing for transitionForLatestSave and every other name for its own field |
| ConditionLaws.NotMatchesNone | prepared_filter.go:247-265 | Match of a NOT over a wildcard path holds exactly when no addressed value satisfies the leaf |
| SearchLaws.NumericMatchExact | prepared_filter.go:89-283 | end to end: for every schema tree, path to a field declaring numeric types, comparison by name, operand literal and document, the condition compiles exactly when the operand can be read, and Match holds exactly when some value the path addresses compares with the operand as the name asks of the two literals' rationals, or, of a value the types cannot hold, under NOT_EQUAL alone |
| SearchLaws.RangeMatchExact | prepared_filter.go:89-283 | and for BETWEEN and BETWEEN_INCLUSIVE: it compiles exactly for two readable bounds, and Match holds exactly when some value the path addresses can be held by the declared types and lies within them |
| SearchLaws.AcceptedByName | operand.go:51-89 | a range takes exactly two scalar bounds, a test of presence may come without operand, and every other operator takes one scalar |
| SearchLaws.AcceptedExpands | operand.go:51-89 | an operand accepted for its shape is refused later only where no declared type reads it, or as a pattern that does not compile |
| OperatorMeanings.NumberByName | condition_filter.go:925-983 | from the condition's operator name to the answer: a stored number some declared type can hold compares with the operand as EQUALS, NOT_EQUAL, GREATER_THAN, LESS_THAN, GREATER_OR_EQUAL or LESS_OR_EQUAL asks of the two rationals; otherwise NOT_EQUAL alone matches |
| OperatorMeanings.TextByName | condition_filter.go:925-983 | the same names order stored texts, where STRING alone is declared, by their first differing character or as proper prefixes |
| OperatorMeanings.InstantByName | condition_filter.go:925-983 | and stored instants of the operand's subtype by the millisecond |
| OperatorMeanings.CharacterSays | eval_leaf.go:709-718 | and single characters by their code points |
| OperatorMeanings.IdentifierSays | parse_typed.go:164-180 | identifiers are equal or not and no ordering holds of them; a TIME_UUID operand is of version 1 |
| OperatorMeanings.UuidTextIs | parse_typed.go:9-12 | a UUID operand is five groups of 8, 4, 4, 4 and 12 lower-case hexadecimal digits joined by dashes |
| OperatorMeanings.RangeByName | condition_filter.go:925-983 | BETWEEN holds of a number strictly between the bounds, BETWEEN_INCLUSIVE of the bounds too |
| OperatorMeanings.TextRangeByName | eval_leaf.go:609-633 | the same of stored texts where STRING alone is declared |
| OperatorMeanings.PresenceByName | eval_leaf.go:384-402 | IS_NULL holds of what is absent or null, NOT_NULL of everything else |
| OperatorMeanings.TextTestByName | eval_leaf.go:635-674 | each of the sixteen text tests, by name: the text holds, begins with or ends with the operand, or does not, both in lower case for the I-names; equals it up to case; is of its glob; is accepted by its expression; of a value that is no text exactly the negative ones hold |
| OperatorMeanings.NamesAre | condition_filter.go:735-760 | these twenty-six names and no others are operators |
| ModelSchema.ModelNode.DeclareKind | model_schema.go:253-281 | establishes an empty branch where there is none and leaves one there is untouched |
| ModelSchema.ModelNode.AddScalarType | model_schema.go:283-303 | a concrete type clears the null marker and joins the scalar branch; NULL only marks a node without one |
| ModelSchema.ModelNode.SetNullable | model_schema.go:305-313 | marks the node nullable unless it has a scalar branch |
| ModelSchema.ModelNode.SetChild | model_schema.go:315-328 | adds or replaces one child, itself a sound tree, and nothing else |
| ModelSchema.ModelNode.ValidIsSound | model_schema.go:228-237 | at every node of a tree the mutators built: nullable implies no scalar branch, a scalar branch never holds NULL and its types are a type set's |
| ModelSchema.FromWireSound | model_schema.go:399-506 | and at every node of a tree read from the wire |
| ModelSchema.Decode | model_schema.go:399-506 | the decoder's updates build what fromWire reads, children and element included, or fail where it does |
| ModelSchema.WireRoundTrip | model_schema.go:367-506 | a tree read back from its wire form is itself with an empty scalar branch where a node declares nothing |
| ModelSchema.WireRoundTripIff | model_schema.go:367-506 | a tree the mutators built survives the wire if and only if every node of it declares something |
| ModelSchema.EmptyNodeComesBackScalar | model_schema.go:367-506 | the empty node does not: it comes back with an empty scalar branch |
| SchemaFields.CollectFields | model_schema.go:640-701 | the walk lists exactly the fields of the node's own types, its children and its element, and with child names of the path alphabet no path twice |
| SchemaFields.TextInjective | model_schema.go:697-700 | two ways down the tree are spelled differently |
| SchemaFields.BuildFieldCache | model_schema.go:626-638 | the list is sorted by path and, with child names of the path alphabet, strictly; the map then holds, under the text of the steps down to a node, that node's entry, and no other key |
| SchemaFields.LeafTypes | condition_filter.go:346-366 | a filter leaf's lookup key finds the types declared at the node its path leads to, whatever positions it names |
| UniqueSignature.TokenIff | unique_signature.go:153-193 | two scalar values have one token exactly when they are the same string, the same truth value or numerically equal numbers |
| Utf8.OrderKept | eval_leaf.go:517-523 | code points compare as the bytes of their encoding do |
| SignatureMeaning.StringToken | unique_signature.go:153-159 | a string's token is s, its length in bytes in decimal, a colon and the text |
| SignatureMeaning.OtherTokens | unique_signature.go:160-172 | truth values have the tokens b:true and b:false, and null, arrays and objects none |
| SignatureMeaning.NumberToken | unique_signature.go:174-193 | a number's token writes its value as the fraction of least denominator, the denominator left out when it is 1 |
| SignatureMeaning.NumberTokenIff | unique_signature.go:25-39 | exactly which numbers have a token: at most 64 digits, and an exponent within 6144 either way or a positive written one past 6145 whose first digits, as far as they are read, pass |
| SignatureMeaning.JoinedIs | unique_signature.go:110-111 | tokens are joined by U+001F |
| SignatureMeaning.FieldLeads | unique_signature.go:114-151 | the value of a field $.a.b is what following the last member of each name from the root ends at, and there is none elsewhere |
| UniqueSignature.TokenSplit | unique_signature.go:3-15 | a token ends where it says it does: no text after it, separator bytes in strings included, changes how it is read |
| UniqueSignature.JoinedIff | unique_signature.go:3-15 | joined token lists are equal exactly when the values agree one by one and in number |
| UniqueSignature.SignatureIff | unique_signature.go:79-112 | two documents' signatures of one key are equal if and only if the key's fields agree position by position |
| UniqueSignature.LowestUnique | unique_signature.go:174-193 | equal fractions have one form in lowest terms |
| UniqueSignature.ComputeOneClaim | unique_signature.go:79-112 | no claim exactly when every field is absent or null, a claim exactly when every field has a value a key takes, an error otherwise |
| UniqueSignature.WalkPath | unique_signature.go:114-151 | the loop over dotted segments finds what walking nested objects finds |
| UniqueSignature.CountDigitsExp | unique_signature.go:195-267 | one pass over a JSON number's text counts its coefficient digits and its exponent, the exponent capped |
| UniqueSignature.BoundHoldsIff | unique_signature.go:243-267 | the true exponent of a number that passes the bound is within it if and only if its written exponent is not positive past 61459, the largest read in full |
| UniqueSignature.BoundCanFail | unique_signature.go:243-267 | 1.00e61461 passes the bound and gets a token: its last exponent digit is not read |
| OrderCompare.LessByOrderLoop | order_compare.go:11-38 | the loop over sort keys decides by the first key that does, and by id when none does |
| OrderCompare.OrderMeans | order_compare.go:11-105 | the order by values alone: the first key that tells the two apart puts the smaller number, the earlier instant, false, or the text first by its bytes ahead, the other way round where it descends, and a present value ahead of a missing one either way; where no key does, the smaller id |
| OrderCompare.KeyChains | order_compare.go:40-68 | one key is a weak order with missing values last in both directions |
| OrderCompare.OrderTransitive | order_compare.go:11-38 | LessByOrder is transitive for every list of keys |
| OrderCompare.OrderTotal | order_compare.go:11-38 | LessByOrder is irreflexive, asymmetric, and decides any two entities of distinct ids |
| Merges.OrderedMerge.Next | merge_ordered.go:3-92 | one pull yields the first of what is left of the merge, or the stream's end or its error, again and again |
| Merges.Drain | merge_ordered.go:3-92 | pulled to the end MergeOrdered yields the whole merge, or what is certain of it followed by the source's error |
| Merges.MergedAscends | merge_ordered.go:3-11 | the merge of two strictly ascending inputs ascends strictly |
| Merges.MergedMembers | merge_ordered.go:8-11 | it holds every add and exactly the surviving rows no add equals |
| Merges.ErrorYieldsPrefix | merge_ordered.go:13-18 | a run ending in a source error has yielded a prefix of the merge of every continuation of the unread rows |
| Merges.MergeBounded | merge_bounded.go:5-87 | the whole merge within the limit, the limit error past it, and the source's error where its last readable row is taken by then |
| Merges.MergedByAscends | merge_bounded.go:5-15 | what MergeBounded returns is in the order of the sort keys |
| Merges.MergedByKeepsAll | merge_bounded.go:5-15 | and is every add and every survivor, so it fails exactly when they exceed the limit |

## Left out

- DecimalLaws.CmpExact: the model of `digitCountBounds` computes in unbounded integers; it does not model int64 wrap-around for coefficients of more than 2^31-1 bits, where `BracketWidth` stops.
- DecimalLaws.RoundToPrecisionLimitsDigitsIff: says nothing of a coefficient with 2^31 or more digits to drop, where the number of dropped digits itself wraps.
- UniqueSignature.SignatureIff: `math/big.Rat` is modelled by its value in lowest terms and by the exponents its SetString refuses (past int64, or a scaling past 10^6 of a non-zero number); its text parser is not part of this model.
- ConditionLaws.KeyOfPath: trims ASCII spaces only; Go's TrimSpace also trims Unicode ones, none of which an accepted path can hold.
- ConditionLaws.MatchIsMeaning: operand shapes and pattern compilation are inside the leaf kernel parameter; a range leaf's Value and Values are one operand.
- EvalLeaf.Eval: temporal and UUID parsing, Unicode case and regular expressions are parameters; a stored number is a JSON number, and an operand is the text OperandString writes.
- Temporal.DownscaleExact: the path maps built once by depth-first search are modelled as the search itself, and parsing of temporal text is a parameter.
- LikePattern.Matches: literals are whole code points; operands that split a code point are outside it.
- ScheduledTasks.ScheduledTaskStore.ReconcileForEntity: every validation error is one answer without its text, and what is armed is a map, so an id is armed once.
- ScheduledTasks.ScheduledTaskStore.RecordAttempt: a busy row is answered before a stale claim, an order the contract leaves open.
- ModelSchema.ModelNode.SetChild: children and elements are values, so a child node shared and changed after it was set is not modelled; neither is the cached flattening nor its compare-and-swap.
- SchemaFields.BuildFieldCache: children are visited in any order, which the sort by path makes indifferent; names of kinds and types on the wire are known or unknown values, not text.
- OrderCompare.OrderTotal: numeric sort keys are NaN-free reals; how gjson renders a value as text, number or truth value is a parameter of the entity.
- Merges.Drain: context cancellation and the laziness of the pulls are not modelled; what is yielded, and in which order, is.
- Query, Get, SchedulerActivity and Heartbeat's clock of the task store: reads without effect on any other call.
- The entity, model, message and workflow stores, the transaction manager and the plugin registry: interfaces implemented elsewhere.
- Error message text, attribution fields and operand truncation: settled by reading one branch.
