# Verification model of the vg-racegen draw pipeline

A Dafny model of the certified draw pipeline of a virtual racing service and of the state machines
around it, with proofs about every input, every run or every interleaving.

- **Draws.** `CertifiedDraws`, `WeightedDraw`, `ClampedNormal`: 53-bit fractions, rejection-sampled
  integers, the Fisher-Yates shuffle, the cumulative pick and the clamped normal. `Mallows`,
  `PlackettLuce`: the two models that couple odds to finish ranks, proved to have exactly the
  distributions their comments claim.
- **Generators.** `Mt19937` refines an unbounded linear recurrence; `HmacDrbg` refines the HMAC_DRBG
  of sections 10.1.2.2 to 10.1.2.5 of NIST SP 800-90A Rev. 1.
- **Videos.** `IpfFit`, `VideoSelector`, `VideoDraw`: proportional fitting, its in-place loops, and the
  draw from the cumulative table. `FinishPool`: sparse finish positions made dense.
- **Odds.** `Ordering`, `OddsVector`, `Coupling`, `WinOdds`, `Forecast`, `RaceOdds`: the WIN vector, its
  assignment to runners and the FORECAST factors, every draw at its place in the word stream.
- **Schedule.** `RaceGrid`: slots, race numbers and round codes. `Horizon`: boot, tick and retry.
- **Feed.** `Poller`: transition detection. `FanOut`: drop-oldest delivery under any interleaving.
- **State.** `Cooldown`: recent names. `AuditLog`: the hash chain. `RoundStore`: the tables. `Restart`: the
  second game of a slot.
- `Basics` holds shared vocabulary: prefix sums, rearrangements, choices. `Arithmetic` holds facts about
  products and quotients, `Options` the optional value.

Objects whose methods update fields are classes proved against specification functions; loops over
slices are methods with invariants; everything promised of the specification functions is a lemma.
Floating point is exact: fractions are k / 2^53, weights and odds are reals, exp(-theta) is a real q,
and power, exponential, geometric mean and the normal of two fractions are abstract. HMAC, SHA-256,
JSON, the odds hash and the calendar are parameters. Word streams, entropy replies, pipeline outcomes,
SQL statement outcomes and clock readings are scripts given from outside. Times are integer nanoseconds
under a fixed offset between Malta and UTC. A rejection loop runs on a stream that keeps bringing up accepted values (`Fair`).

Where the code and its documentation disagree, or a promise holds only under a condition, the model
follows the code:

- `CertifiedInt` documents a uniform draw over [min, max]; the range is truncated to 32 bits, and
  `UnbiasedExactlyWithin32Bits` states exactly when the draw is unbiased.
- `tickRunner` documents three retries "on the same slot"; the counter belongs to the runner and carries
  over to the next slot (`RetriesCarryOver`); each slot keeps its own retries exactly under the cadence of
  `NoGapsExactlyWhenCadence`.
- `coupleWinOdds` documents that the multiset of values is preserved exactly, with a fallback for a
  malformed order; a repeated runner within range is not noticed
  (`RearrangedExactlyWhenNoRunnerRepeats`, `RepeatedRunnerLosesOdds`). `ParseEntry` shows pool entries
  never repeat one.
- `softCapOdds` asks for a soft cap below the hard one; the validation also admits equality, where
  longshots collapse (`LongshotsStayApart`).
- `nextFutureSlot` documents slots aligned to the Unix epoch and strictly in the future; truncation counts
  from year 1 (`FallbackAlignedExactlyWhen`, `SevenSecondSlots`), and without a positive interval the slot is
  not in the future (`FallbackSlotsAhead`).
- `UpsertGameRound` documents that finished games are only patched when fields are missing; when interval,
  video names or jackpot come with a re-upsert it also overwrites filled columns, with values that are not
  empty nor, for the competitors, "[]" (`FilledKeptExactlyWhen`, `FilledColumnsOverwritten`); and an existing
  row that cannot be read is replaced (`UpsertGrowsExactlyWhen`, `UnreadRowReplaced`).
- `main` and `bootBackfill` document that a warm restart is a no-op on slots already stored; the second game's
  competitors, video, interval and jackpot replace the first's beside the first's odds and results
  (`WarmRestart`, `RestartIsNoOpExactlyWhen`).
- `Append` advances the sequence number before the write: a failed append followed by a successful one
  leaves a file that `Verify` rejects (`AcceptedExactlyWhenNotTorn`, `FailedThenWritten`).
- `ipfExactaStep` documents a factor between 0 and 1, which nothing checks; weights stay positive, and
  free of the scale of the targets, for somewhat larger factors too, up to N/(N-1) for N exactas, and not
  beyond (`PositiveExactlyUpToFactor`, `ScaleFreeExactlyUpToFactor`).
- `generateWinOddsFallback` documents values within [2.5, MaxOdds]; the validation admits a MaxOdds below 2.5,
  which is then exceeded (`MaximumExceededExactlyWhen`, `LowMaximumExceeded`).
- `raceutil` documents that the date in a round code is the CET date; in summer time the code runs ahead of it
  for an hour (`CodeDateIsCetDate`, `SummerCodesRunAhead`).
- The name cooldown documents ten rounds of rest; with fewer than 12 N names in the pool the fallback
  to the full pool breaks it (`DisjointExactlyWhenPoolIsLarge`).

## Model

| member | source | states |
|---|---|---|
| `CertifiedDraws.CertifiedFloat` | internal/racegen/rng/certified.go:12-16 | takes two words, high first, and returns the fraction they select, in [0, 1) |
| `CertifiedDraws.HighWordFirst` | internal/racegen/rng/certified.go:12-16 | the first word decides the fraction's 2^32-th part of the unit, the upper 21 bits of the second its place there |
| `CertifiedDraws.FractionsEquallyLikely` | internal/racegen/rng/certified.go:12-16 | each of the 2^53 fractions comes from exactly 2048 of the 2^64 word pairs |
| `CertifiedDraws.CertifiedInt` | internal/racegen/rng/certified.go:21-38 | the value is made from the first word the range accepts, every earlier word was rejected, and it lies in [min, max] |
| `CertifiedDraws.EachValueEquallyLikely` | internal/racegen/rng/certified.go:21-38 | on any range of at most 2^32 values every value has the same number of accepted words |
| `CertifiedDraws.UnbiasedExactlyWithin32Bits` | internal/racegen/rng/certified.go:21-38 | the draw is unbiased if and only if max - min < 2^32, because the range is truncated to 32 bits (for wider ranges max is never drawn) |
| `CertifiedDraws.RejectionRate` | internal/racegen/rng/certified.go:29-37 | at most `rang` of the 2^32 words are rejected and at least half are accepted |
| `CertifiedDraws.SwapsReachTarget` | internal/racegen/rng/certified.go:49-54 | every rearrangement of a sequence without repeats is reached by a sequence of swap indices |
| `CertifiedDraws.SwapsRecovered` | internal/racegen/rng/certified.go:49-54 | swap indices only rearrange, and can be read back from the result: with SwapsReachTarget, a bijection |
| `CertifiedDraws.TuplesForSize` | internal/racegen/rng/certified.go:21-54 | every sequence of swap indices has the same number of accepted word tuples |
| `CertifiedDraws.ShuffleExactlyUniform` | internal/racegen/rng/certified.go:47-54 | the accepted word tuples that turn s into p are exactly those of p's swap indices, and their number is the same for every ordering p |
| `CertifiedDraws.UpcomingSwapsAccepted` | internal/racegen/rng/certified.go:49-54 | the swaps a shuffle performs are those of some accepted word tuple, so ShuffleExactlyUniform governs it |
| `CertifiedDraws.CertifiedShuffle` | internal/racegen/rng/certified.go:49-54 | the in-place loop with rejection draws leaves the Fisher-Yates rearrangement by the upcoming swaps, and the source where they end |
| `WeightedDraw.ScanFindsSlice` | internal/racegen/generators/odds.go:345-354 | the scan picks i if and only if the point lies in i's slice [Prefix(i), Prefix(i+1)): the ideal probability is the weight's share |
| `WeightedDraw.PickFrequency` | internal/racegen/generators/odds.go:345-354 | for all non-negative weights: out of the 2^53 equally likely fractions, the number that pick index i differs from its exact share by less than 1 |
| `WeightedDraw.DrawIndex` | internal/racegen/generators/odds.go:394-403 | the accumulate-and-break loop over one certified fraction picks the index of the scan, taking two words |
| `Mallows.MallowsAssign` | internal/racegen/generators/odds.go:331-367 | the list insertion and its inversion return the ranking of the drawn insertion code, a permutation, taking 2n words |
| `Mallows.CodeRecovered` | internal/racegen/generators/odds.go:334-366 | every insertion code is recovered from the ranking it builds |
| `Mallows.RankingReached` | internal/racegen/generators/odds.go:334-366 | every permutation is built by an insertion code: with CodeRecovered, a bijection |
| `Mallows.DisplacementIsInversions` | internal/racegen/generators/odds.go:334-366 | the sum of i - pos_i over the insertions is the number of inversions of the ranking |
| `Mallows.NormaliserIsTotal` | internal/racegen/generators/odds.go:336-343 | the product of the insertion weight totals is the sum of q ^ inversions over all permutations |
| `Mallows.AllRankingsComplete` | internal/racegen/generators/odds.go:331-367 | the enumeration behind that sum holds exactly the permutations of 0 .. n-1 |
| `Mallows.AllRankingsDistinct` | internal/racegen/generators/odds.go:331-367 | and holds each of them once |
| `Mallows.RepeatedInsertionIsMallows` | internal/racegen/generators/odds.go:313-367 | each permutation comes from exactly one code, whose probability is q ^ inversions over the sum of that over all permutations |
| `Mallows.ThetaZeroIsUniform` | internal/racegen/generators/odds.go:325-326 | with theta = 0 every permutation has probability one over their number |
| `Mallows.ListInvertsRanks` | internal/racegen/generators/odds.go:361-366 | the inserted list and the returned ranks are inverse to each other |
| `PlackettLuce.PlackettLuceAssign` | internal/racegen/generators/odds.go:382-409 | the shrinking slice returns the order of the drawn choices, a permutation, taking 2(n-1) words |
| `PlackettLuce.ChoicesRecovered` | internal/racegen/generators/odds.go:389-407 | every choice sequence is recovered from its order |
| `PlackettLuce.OrderReached` | internal/racegen/generators/odds.go:389-407 | every order is reached by a choice sequence: with ChoicesRecovered, a bijection |
| `PlackettLuce.ChoiceProbabilityIsOrderProbability` | internal/racegen/generators/odds.go:373-377 | the probability of the index choices is the product, over the places, of the weight placed over the weight remaining |
| `PlackettLuce.BeginningProbability` | internal/racegen/generators/odds.go:373-377 | the orders that begin with a given beginning have together its place-by-place probability: all orders sum to 1, those won by a to w[a] over the total, and the second-place conditionals follow |
| `PlackettLuce.AllOrdersComplete` | internal/racegen/generators/odds.go:382-409 | the enumeration behind these sums holds exactly the arrangements |
| `PlackettLuce.AllOrdersDistinct` | internal/racegen/generators/odds.go:382-409 | and holds each of them once |
| `PlackettLuce.ShrinkingDrawIsPlackettLuce` | internal/racegen/generators/odds.go:369-409 | each permutation comes from exactly one choice sequence with exactly the Plackett-Luce probability, and these sum to 1 |
| `Mt19937.Generator.constructor` | internal/racegen/rng/mt19937.go:39-48 | the state is the 624 words of the seeding rule and nothing has been drawn |
| `Mt19937.Generator.Twist` | internal/racegen/rng/mt19937.go:112-122 | the in-place circular pass moves the state 624 words on along the unbounded recurrence |
| `Mt19937.Generator.NextUint32` | internal/racegen/rng/mt19937.go:80-93 | the k-th draw is the tempered word 624 + k of the recurrence |
| `Mt19937.Generator.Advance` | internal/racegen/rng/mt19937.go:96-100 | n discarded draws leave the generator as n draws do |
| `Mt19937.Generator.GenerationCount` | internal/racegen/rng/mt19937.go:103 | the count is the number of words drawn, modulo 2^64 |
| `Mt19937.DefaultSeedWords` | internal/racegen/rng/mt19937.go:39-48 | the first words that the default seed 5489 is expanded to |
| `Mt19937.MixedWords` | internal/racegen/rng/mt19937.go:112-121 | the matrix acts when the lowest bit is set, and of the first word only the highest bit counts: four worked examples |
| `Mt19937.TemperedBits` | internal/racegen/rng/mt19937.go:86-90 | what each of the 32 single bits is tempered to |
| `Mt19937.TemperUndone` | internal/racegen/rng/mt19937.go:86-90 | tempering can be undone |
| `Mt19937.OutputsDetermineFuture` | internal/racegen/rng/mt19937.go:8-10 | any 624 consecutive outputs determine every later output, whatever the seeds: the documented reason to keep it out of production |
| `HmacDrbg.Drbg.New` | internal/racegen/rng/hmac_drbg.go:81-99 | fails exactly when there is no entropy source or it fails; otherwise the state is the standard's instantiation from 48 bytes and the personalization string |
| `HmacDrbg.Drbg.UpdateState` | internal/racegen/rng/hmac_drbg.go:190-200 | K and V become those of HMAC_DRBG_Update (section 10.1.2.2 of NIST SP 800-90A Rev. 1) and the cached mac carries the new K |
| `HmacDrbg.Drbg.FillBuffer` | internal/racegen/rng/hmac_drbg.go:175-180 | the buffer holds the blocks of the iterated V under the cached key |
| `HmacDrbg.Drbg.Reseed` | internal/racegen/rng/hmac_drbg.go:105-121 | on success one reseed of the standard's machine, nothing emitted, the buffer erased; on an entropy failure the object is unchanged |
| `HmacDrbg.Drbg.Generate` | internal/racegen/rng/hmac_drbg.go:153-186 | one request of the standard's machine, preceded by a reseed exactly when the budget is spent; if that reseed fails nothing changes |
| `HmacDrbg.Drbg.NextUint32` | internal/racegen/rng/hmac_drbg.go:128-143 | the word emitted extends the words that the standard's machine gives out for the same calls; None, and nothing changed, exactly when a due reseed fails |
| `HmacDrbg.Drbg.TakeWord` | internal/racegen/rng/hmac_drbg.go:134-142 | takes the next word of the last request and erases its four bytes |
| `HmacDrbg.Drbg.GenerationCount` | internal/racegen/rng/hmac_drbg.go:146 | the count is the number of words emitted, modulo 2^64 |
| `HmacDrbg.Drbg.ReseedCount` | internal/racegen/rng/hmac_drbg.go:150 | the count is the number of reseeds, modulo 2^64 |
| `HmacDrbg.RequestBytes` | internal/racegen/rng/hmac_drbg.go:161-186 | block j of the 1024 bytes of a request is the (j + 1)-fold application of HMAC under the key |
| `HmacDrbg.BigEndianBytes` | internal/racegen/rng/hmac_drbg.go:134-139 | the four bytes of a word are read with the first byte highest |
| `HmacDrbg.WordsInOrder` | internal/racegen/rng/hmac_drbg.go:133-143 | word i of a request is read from bytes 4 * i to 4 * i + 3 of its output |
| `HmacDrbg.SeedBudget` | internal/racegen/rng/hmac_drbg.go:42-46 | in every disciplined run no stretch without a reseed serves more than 10 000 requests |
| `HmacDrbg.OnlyReseedsDiscard` | internal/racegen/rng/hmac_drbg.go:115-119 | a request whose output is not emitted in full is the last call or is followed by a reseed: nothing else loses output |
| `IpfFit.MassesPartition` | internal/racegen/videoselector/selector.go:146-162 | the masses of the keys add up to the total weight |
| `IpfFit.FittedMass` | internal/racegen/videoselector/selector.go:163-177 | after a step a runner with a target has mass target * total / 100 |
| `IpfFit.FittedShares` | internal/racegen/videoselector/selector.go:146-178 | one step makes each runner's share its target over the sum of the targets of the runners present |
| `IpfFit.NudgedMass` | internal/racegen/videoselector/selector.go:183-210 | the exacta step moves each present cell's mass exactly `factor` of the way to the uniform share |
| `IpfFit.NudgedTotalUnchanged` | internal/racegen/videoselector/selector.go:183-210 | and leaves the total unchanged when all the cells occur |
| `IpfFit.LeftAlone` | internal/racegen/videoselector/selector.go:146-194 | weights without a total, and in the fit entries whose runner has no target, are left alone |
| `IpfFit.FittedScaled` | internal/racegen/videoselector/selector.go:146-178 | scaling the weights by c and the targets by a scales the fitted weights by c * a |
| `IpfFit.NudgedScaled` | internal/racegen/videoselector/selector.go:183-210 | the exacta step commutes with scaling the weights |
| `VideoSelector.BuildIndex` | internal/racegen/videoselector/selector.go:87-100 | the index maps list, in order and completely, the entries of each key |
| `VideoSelector.IpfStep` | internal/racegen/videoselector/selector.go:146-178 | whatever order the map is walked in, the slice ends as the fitted weights |
| `VideoSelector.IpfExactaStep` | internal/racegen/videoselector/selector.go:183-210 | whatever order the map is walked in, the slice ends as the nudged weights |
| `VideoDraw.FitStaysPositive` | internal/racegen/videoselector/selector.go:119-126 | through any number of iterations every weight stays positive, for exacta factors up to but not including 100 / (100 - share) |
| `VideoDraw.FitStaysNonnegative` | internal/racegen/videoselector/selector.go:119-126 | with zero targets too, or at that factor itself, no weight turns negative |
| `VideoDraw.PositiveExactlyUpToFactor` | internal/racegen/videoselector/selector.go:110-126 | all pools keep positive weights through all iterations if and only if the factor is below that bound: beyond it a pool with a single exacta has a weight that is not positive after one iteration |
| `VideoDraw.FactorBound` | internal/racegen/videoselector/selector.go:117 | with N = n(n-1) exactas, the factor is below the bound if and only if factor * (N - 1) < N |
| `VideoDraw.FitIsScaleFree` | internal/racegen/videoselector/selector.go:119-126 | up to that factor, multiplying first-place targets by a and second-place targets by b multiplies all weights by (a * b) ^ iterations, zero targets included (promised at internal/racegen/config/extended.go:256-265) |
| `VideoDraw.ScaleFreeExactlyUpToFactor` | internal/racegen/videoselector/selector.go:64-126 | for orders of n runners and n positive targets for each place: that holds for all pools and all iterations if and only if the factor is at most the bound |
| `VideoDraw.ScaleMattersBeyondFactor` | internal/racegen/videoselector/selector.go:146-210 | two runners, two entries and a factor of 3: doubling the first-place targets turns a positive weight negative |
| `VideoDraw.SelectionIsScaleFree` | internal/racegen/videoselector/selector.go:214-221 | proportional weights select the same entry for every draw |
| `VideoDraw.New` | internal/racegen/videoselector/selector.go:56-140 | refuses exactly the malformed pools, with the first reason in the order of the checks, and otherwise builds the cumulative table of the fitted weights |
| `VideoDraw.RefusalReasons` | internal/racegen/videoselector/selector.go:56-82 | a pool is refused for the first reason that applies: empty, fewer than two runners, a wrong number of first targets, of second targets, or the first order of the wrong length |
| `VideoDraw.ExactaStepKeepsTotal` | internal/racegen/videoselector/selector.go:117-126 | on a pool in which all ordered pairs occur the exacta step, with the uniform share and factor that New uses, leaves the total weight unchanged |
| `VideoDraw.SmallPoolTable` | internal/racegen/videoselector/selector.go:106-140 | two runners, two entries, one iteration with the default factor: the cumulative table is 1.16, 2.0 |
| `VideoDraw.Search` | internal/racegen/videoselector/selector.go:219-221 | on the table of any non-negative weights the binary search finds what a scan from the front finds |
| `VideoDraw.SearchStaysInRange` | internal/racegen/videoselector/selector.go:216-224 | every fraction finds its entry within the table, so the guard against running past the end never acts |
| `VideoDraw.SelectedSlice` | internal/racegen/videoselector/selector.go:214-224 | for all non-negative weights: entry i is selected if and only if the point lies in (Prefix(i), Prefix(i+1)], entry 0 also at 0 |
| `VideoDraw.SelectFrequency` | internal/racegen/videoselector/selector.go:214-224 | for all non-negative weights with a positive total: out of the 2^53 fractions, the number that select entry i differs from its exact share by at most 1 |
| `VideoDraw.FractionZeroSelectsFirst` | internal/racegen/videoselector/selector.go:215-221 | the fraction 0 selects the first entry whatever its weight, even zero |
| `VideoDraw.Select` | internal/racegen/videoselector/selector.go:214-233 | the entry returned is the one selected by the fraction of the next two words |
| `FinishPool.ParseEntry` | internal/racegen/data/embed.go:198-236 | succeeds exactly on N readable labels of N different runners in 1 .. N, and returns the runners sorted by label, a permutation of 1 .. N |
| `FinishPool.LowerLabelFinishesFirst` | internal/racegen/data/embed.go:176-180 | closing up sparse labels keeps the order across the line |
| `FinishPool.IterationOrderIrrelevant` | internal/racegen/data/embed.go:211-223 | with different position numbers the result does not depend on the map's iteration order |
| `ClampedNormal.CertifiedNormal` | internal/racegen/rng/certified.go:58-66 | the normal of the two fractions that the next four words make, a first fraction of zero replaced by 1e-12 |
| `ClampedNormal.Clamped` | internal/racegen/rng/certified.go:71-87 | the clamped normal of the word stream and the position after its last word |
| `ClampedNormal.ClampedIs` | internal/racegen/rng/certified.go:68-87 | that is the first of 50 normals in range, else the 51st moved to the nearer bound; always in range, four words for each normal looked at |
| `OddsVector.RankVectorOrdered` | internal/racegen/generators/odds.go:123-131 | the favourite plus non-negative gaps is a non-decreasing positive vector |
| `OddsVector.ConcentratedOrdered` | internal/racegen/generators/odds.go:214-226 | concentration keeps positive odds positive and in order |
| `OddsVector.ConcentratedRatios` | internal/racegen/generators/odds.go:210-226 | concentration raises each runner's ratio to the geometric mean to the power kappa, and a kappa of 1 changes nothing |
| `OddsVector.ApplyShapeConcentration` | internal/racegen/generators/odds.go:214-226 | the in-place loop computes the concentration of the whole slice from its geometric mean |
| `OddsVector.SoftCapOrdered` | internal/racegen/generators/odds.go:153-166 | the soft cap keeps the order, never raises odds and keeps capped odds between the two caps |
| `OddsVector.LongshotsStayApart` | internal/racegen/generators/odds.go:153-158 | two different odds above the soft cap stay different if and only if the soft cap is below the hard one |
| `OddsVector.AdjustedOddsOrdered` | internal/racegen/generators/odds.go:136-143 | rescaling, floor, soft cap and rounding keep the order, and end between the rounded floor and the rounded maximum |
| `OddsVector.RankSpaceOrdered` | internal/racegen/generators/odds.go:121-143 | from the drawn favourite and gaps to the rounded odds, order by rank and limits hold throughout |
| `OddsVector.SoftCapCurve` | internal/racegen/generators/odds.go:153-166 | above the soft cap the reciprocal of the excess is the sum of the reciprocals of the uncapped excess and of the room between the caps |
| `OddsVector.RoundIsNearest` | internal/racegen/generators/odds.go:467-470 | rounding picks the nearest multiple, and of two the one away from zero |
| `OddsVector.RoundedToTenth` | internal/racegen/generators/odds.go:467-470 | rounding to one decimal gives the nearest multiple of a tenth, and of two the one away from zero |
| `OddsVector.AdjustedCases` | internal/racegen/generators/odds.go:136-143 | a rescaled value below the floor becomes the rounded floor, one between floor and soft cap is only rounded, one above is rounded after its excess is saturated |
| `OddsVector.ConcentrationKeepsGeometricMean` | internal/racegen/generators/odds.go:210-226 | concentration keeps the geometric mean of the field, for a power function that is multiplicative |
| `OddsVector.RescalingMeetsTarget` | internal/racegen/generators/odds.go:133-137 | multiplying by the overround over the target makes the overround exactly the target, before limits and rounding |
| `OddsVector.OverroundRearranged` | internal/racegen/generators/odds.go:459-465 | odds with equal multisets have equal overround |
| `Coupling.CoupleWinOdds` | internal/racegen/generators/odds.go:275-311 | the result is the scatter along the finish order, or the shuffle of the values when it has the wrong length or, once the ranks are drawn, a slot out of range |
| `Coupling.RearrangedExactlyWhenNoRunnerRepeats` | internal/racegen/generators/odds.go:267-311 | the multiset of positive values is preserved if and only if the finish order is unusable or repeats no runner: repeats within range are not detected |
| `Coupling.RepeatedRunnerLosesOdds` | internal/racegen/generators/odds.go:267-311 | the finish order 1, 1: runner 2 is left with odds of zero |
| `Coupling.MarginKept` | internal/racegen/generators/odds.go:267-274 | on a finish order from the pool, or an unusable one, the overround is unchanged |
| `Coupling.FinisherGetsDrawnRank` | internal/racegen/generators/odds.go:260-265 | whoever finishes r-th receives the pi[r]-th lowest odds |
| `WinOdds.DrawOverroundTarget` | internal/racegen/generators/odds.go:175-189 | the target that the next clamped normal leads to, without a draw when the target is fixed |
| `WinOdds.TargetInBand` | internal/racegen/generators/odds.go:167-189 | the target is positive, within its band, monotone in the normal, and the configured one at the median |
| `WinOdds.TargetCases` | internal/racegen/generators/odds.go:167-189 | within the band, what the target has above the shift is what the median has, times the exponential of the deviation times the normal; beyond the band the nearer end |
| `WinOdds.DrawShapeConcentration` | internal/racegen/generators/odds.go:198-208 | the concentration that the next clamped normal leads to, with either deviation; 1 without a draw when there is none |
| `WinOdds.ShapeFollowsNormal` | internal/racegen/generators/odds.go:191-208 | the concentration is positive, monotone in the normal across the change of deviation at zero, and 1 at zero |
| `WinOdds.ShapeCases` | internal/racegen/generators/odds.go:191-208 | the concentration is the exponential of the normal times its deviation, a negative normal having the flattening deviation if there is one |
| `WinOdds.TargetThenShape` | internal/racegen/generators/odds.go:54-60 | target, then shape, from standard normals within four deviations, neither taking words when it is fixed |
| `WinOdds.RankSpaceAttempt` | internal/racegen/generators/odds.go:121-143 | the vector of the favourite and gaps drawn from the word stream, concentrated, rescaled to the target, limited and rounded, and the position after their words |
| `WinOdds.DrawnIsOrdered` | internal/racegen/generators/odds.go:98-143 | whatever is drawn, the vector is non-decreasing by rank and within the rounded floor and maximum |
| `WinOdds.GenerateWinOddsRankSpace` | internal/racegen/generators/odds.go:115-151 | the coupling of the first accepted attempt, from the word after its last; none exactly when all attempts are rejected, and the stream then stands after all their words |
| `WinOdds.PositionAttempt` | internal/racegen/generators/odds.go:72-88 | the vector of the odds drawn for each position from the word stream, concentrated, rescaled, limited per position and rounded, and the position after their words |
| `WinOdds.PositionLimits` | internal/racegen/generators/odds.go:79-88 | whatever is drawn, each position's odds end between its rounded minimum and maximum |
| `WinOdds.AttemptWithinLimits` | internal/racegen/generators/odds.go:66-143 | every attempt, from whatever words, is in order and within the limits, or within each position's |
| `WinOdds.FallbackVector` | internal/racegen/generators/odds.go:234-253 | the odds that pay each drawn weight's share of the target, at least 2.5, else at most MaxOdds, rounded, taking 2n words |
| `WinOdds.FallbackInRange` | internal/racegen/generators/odds.go:244-253 | every fallback value is positive and lies between 2.5 and the rounded maximum, whichever is the lower |
| `WinOdds.MaximumExceededExactlyWhen` | internal/racegen/generators/odds.go:246-251 | a fallback value exceeds the rounded maximum if and only if that is below 2.5 and the fair odds are too |
| `WinOdds.LowMaximumExceeded` | internal/racegen/generators/odds.go:234-253 | one runner, a maximum of 2.0 and a target of 1: the fallback is 2.5, whatever is drawn |
| `WinOdds.CoupledKeeps` | internal/racegen/generators/odds.go:267-311 | coupling keeps positivity, every bound, and acceptance of the overround in both directions |
| `WinOdds.GenerateWinOdds` | internal/racegen/generators/odds.go:54-96 | from the words alone: target and shape, the first of at most 100 attempts that is accepted, else the fallback, coupled from exactly the word after its last, and where the stream ends |
| `WinOdds.FirstOnTargetChosen` | internal/racegen/generators/odds.go:69-96 | the vector chosen is that of the first of 100 attempts that is positive with its overround within the tolerance of the target on either side; the fallback if and only if there is none |
| `WinOdds.RankSpaceFromExactBook` | internal/racegen/generators/odds.go:121-143 | the rank-space vector is made from odds whose overround is the target exactly, a multiple of the concentrated vector that starts at the favourite and goes up by the gaps, negative ones counting as none |
| `WinOdds.PositionFromExactBook` | internal/racegen/generators/odds.go:72-88 | so is the vector by position, each value left alone within its position's range, else moved to the nearer bound, and rounded |
| `WinOdds.FallbackFromFairBook` | internal/racegen/generators/odds.go:234-253 | the fallback is made from odds whose overround is the configured target exactly and that are inverse to the drawn weights |
| `WinOdds.WinOddsEndToEnd` | internal/racegen/generators/odds.go:15-33 | unless the finish order repeats a runner, the result is positive; if any of the 100 attempts is on target its overround differs from the drawn target by at most the tolerance, and in rank space it is within the limits; otherwise it lies between 2.5 and the rounded maximum |
| `Forecast.RankTable` | internal/racegen/generators/odds.go:423-438 | rankOf[s] is the number of slots with lower odds, or equal odds and a lower number; a permutation |
| `Forecast.GenerateForecastOdds` | internal/racegen/generators/odds.go:440-456 | one value for each of the n(n-1) ordered pairs in order: the rounded product of the two odds and the factor drawn at its place in the word stream, and where the stream ends |
| `Forecast.FactorsWithinRange` | internal/racegen/generators/odds.go:446-453 | every factor lies within the range of its first runner's rank, or the common one |
| `Forecast.PairOddsNearProduct` | internal/racegen/generators/odds.go:453 | a pair's odds are the multiple of a tenth nearest to the product of both odds and the factor |
| `RaceOdds.GenerateOdds` | internal/racegen/generators/odds.go:37-46 | n WIN odds and n(n-1) FORECAST odds, n * n in all, the pairs drawn from where the WIN odds leave the stream |
| `Forecast.AllPairsListed` | internal/racegen/generators/odds.go:441-445 | the pairs are exactly those of different runners |
| `Forecast.PairPlace` | internal/racegen/generators/odds.go:441-445 | the pairs stand runner by runner, each with the others in turn: the place of every pair |
| `Forecast.FactorMeansTotal` | internal/racegen/generators/odds.go:417-453 | for every assignment and every tie the factor means of all pairs sum to (n-1) times the sum of the configured means |
| `RaceGrid.ScheduleStartIs` | internal/raceutil/raceutil.go:57-69 | the cycle start is the last instant at the schedule's phase that is not after now |
| `RaceGrid.NumberOnGrid` | internal/raceutil/raceutil.go:72-85 | the race number lies in 1 .. races per day and is the position in one grid over all days |
| `RaceGrid.SlotsAhead` | cmd/race-generator/main.go:537-543 | slots with n >= 0 are strictly after now and consecutive n differ by one interval |
| `RaceGrid.SlotOnGrid` | cmd/race-generator/main.go:519-543 | a slot is n + 1 grid slots after the current one, across rollovers and with numbers beyond the day's count |
| `RaceGrid.GridSlotRecomputes` | internal/raceutil/raceutil.go:136-145 | a grid slot recomputes to itself through its own race number |
| `RaceGrid.RecomputeExactlyWhenIntervalDividesDay` | cmd/race-generator/main.go:519-532 | all scheduled slots recompute to themselves if and only if the interval divides 24 hours |
| `RaceGrid.CodeIdentifiesInterval` | internal/raceutil/raceutil.go:87-106 | two instants have the same round code if and only if they fall into the same race interval, on any day |
| `RaceGrid.CodeReads` | internal/raceutil/raceutil.go:87-106 | a code is the prefix, the date one day after the day the cycle began on, and four digits that read as the place of the race within the cycle |
| `RaceGrid.EighthRaceOfTheNinth` | internal/raceutil/raceutil.go:87-106 | dog6 at 22:30 UTC on 8 April 2026 under summer time: the date of the ninth and 0008 |
| `RaceGrid.CycleBeginsAtLocalStart` | internal/raceutil/raceutil.go:38-69 | every cycle begins at the schedule's start of a Malta day |
| `RaceGrid.CodeDateIsMaltaDate` | internal/raceutil/raceutil.go:95-103 | the eight date characters of a code are the Malta date of the cycle's start if and only if that start's Malta time of day is below the offset |
| `RaceGrid.TableCodesCarryMaltaDate` | internal/raceutil/raceutil.go:87-103 | with an offset of at least one hour the date characters of the codes of all schedules in the table are the Malta date |
| `RaceGrid.CodeDateIsCetDate` | internal/raceutil/raceutil.go:87-103 | the date characters of a code are the CET date of now, one hour ahead of UTC, if and only if the cycle and the CET day have both begun on the UTC day or neither has |
| `RaceGrid.AllCodesCetExactlyWhen` | internal/raceutil/raceutil.go:87-103 | all codes of a schedule carry the CET date if and only if its cycle begins at 23:00 UTC |
| `RaceGrid.SummerCodesRunAhead` | internal/raceutil/raceutil.go:87-103 | for dog6 they always do in winter time, and in summer time except between 22:00 and 23:00 UTC |
| `RaceGrid.TableFillsDay` | internal/raceutil/raceutil.go:18-29 | every schedule in the table divides the day into 360 races, or 270 for horse, beginning at midnight in Malta or, for dog8 and horse_classic, 3:30 and 1:00 minutes later |
| `RaceGrid.FallbackSlotsAhead` | cmd/race-generator/main.go:477-505 | a fallback slot is strictly after now if and only if the interval is positive, and consecutive ones differ by one interval |
| `RaceGrid.FallbackAlignedExactlyWhen` | cmd/race-generator/main.go:477-505 | fallback slots are multiples of the interval since the Unix epoch if and only if the interval divides the time from year 1 to the epoch |
| `RaceGrid.SevenSecondSlots` | cmd/race-generator/main.go:477-505 | an interval of seven seconds does not: no slot is a multiple of it |
| `RaceGrid.RunnerSlotsAhead` | cmd/race-generator/main.go:534-543 | a runner's slots with n >= 0 are strictly in the future if and only if its game type has a schedule or its interval is positive |
| `Horizon.Runner.TickRunner` | cmd/race-generator/main.go:389-436 | lastSlot and retryCount after one attempt, for every outcome; fatal exactly on an entropy failure |
| `Horizon.Runner.BootBulk` | cmd/race-generator/main.go:275-287 | the slots attempted, where it stops, and lastSlot at the last persisted one |
| `Horizon.Runner.BootBackfill` | cmd/race-generator/main.go:308-319 | the past slots in order, stopping at the first failure, lastSlot untouched |
| `Horizon.TickHorizon` | cmd/race-generator/main.go:360-368 | every runner ticks once in order; an entropy failure stops the rest |
| `Horizon.SlotsOnlyMoveForward` | cmd/race-generator/main.go:360-436 | under any cadence and outcomes lastSlot never moves back and retryCount never exceeds 3 |
| `Horizon.TransientExactlyWhen` | cmd/race-generator/main.go:453-475 | an attempt is retried if and only if it failed for a missing permission, a full or failing device, or a message in which one of four texts occurs |
| `Horizon.HorizonHasNoGaps` | cmd/race-generator/main.go:353-436 | with at least four ticks per interval the attempted slots are consecutive grid slots, each persisted or given up after one permanent error or panic or exactly four transient failures, and the horizon ends full |
| `Horizon.BootCoversTimeline` | cmd/race-generator/main.go:289-319 | backfill and bulk slots together are consecutive grid slots |
| `Horizon.NoGapsExactlyWhenCadence` | cmd/race-generator/main.go:353-436 | for tick times that do not go back: whatever the pipeline answers no slot is skipped and each keeps its own four attempts, if and only if every interval after boot but the last has at least four ticks |
| `Horizon.RetriesCarryOver` | cmd/race-generator/main.go:418-427 | two busy ticks in each of two intervals: the first slot is skipped after two attempts and the second given up after two |
| `Poller.Poller.Tick` | internal/feed/poller.go:224-286 | one tick's new memory, event numbers and broadcasts, game type by game type |
| `Poller.TickContinuesRun` | internal/feed/poller.go:224-286 | a tick continues a run by its looks, so what holds of all runs holds of the poller |
| `Poller.NoPairTwice` | internal/feed/poller.go:220-223 | with a non-decreasing clock no (round, state) pair is broadcast twice for a game type; rounds come in order and open before final |
| `Poller.BroadcastAsExpected` | internal/feed/poller.go:236-286 | for every round: open exactly if it was looked at before the end of its video, then final exactly if it was looked at after it |
| `Poller.EachRoundOpensThenFinishes` | internal/feed/poller.go:236-286 | with gaps of at most min(D, interval - D) each round yields exactly one open and then exactly one final event |
| `Poller.FinalOnlyAfterVideoEnd` | internal/feed/dto.go:96-104 | every broadcast is final if and only if the video it was read with had ended |
| `Poller.EventIdsCountUp` | internal/feed/poller.go:300-305 | events are numbered 1, 2, 3, ... in broadcast order |
| `Poller.GaCodeReads` | internal/feed/poller.go:229-236 | the code looked up is GA, the prefix, the date one day after the day the cycle began on, and the place of the race within the cycle in four digits |
| `Poller.BroadcastNamesRunningRound` | internal/feed/poller.go:229-281 | every broadcast carries the code of the round that is running then |
| `FanOut.StepKeeps` | internal/feed/poller.go:170-187 | every step of the sender, a receiver, an unsubscription or the shutdown keeps the channel invariant |
| `FanOut.EveryRunIsSafe` | internal/feed/poller.go:170-218 | in every interleaving each subscriber gets a subsequence of the broadcasts in order, at most 16 are queued, an event is lost only during a broadcast that found 16 queued and one at most, every lost event is older than all that are still queued, and no channel is closed twice or sent to after its close |
| `FanOut.FullQueueDropsOldest` | internal/feed/poller.go:307-328 | a broadcast to 16 queued events that nobody reads meanwhile loses the oldest and queues the new one last |
| `FanOut.NotedOnlyWhenFull` | internal/feed/poller.go:307-328 | only a send that finds 16 events queued counts as having found the queue full |
| `FanOut.BreachesAreNoted` | internal/feed/poller.go:150-218 | a send to a closed channel and a second close are noted as a breach, which no step takes back |
| `FanOut.FirstBroadcastArrives` | internal/feed/poller.go:295-328 | one subscriber and one broadcast: event 1 is queued and the broadcast is over |
| `FanOut.SeventeenthLosesFirst` | internal/feed/poller.go:307-328 | in any run whose only subscriber has 16 events queued the next broadcast loses the oldest and queues the new one |
| `FanOut.NewestDelivered` | internal/feed/poller.go:307-328 | when a broadcast returns the newest event is queued or received |
| `Cooldown.NameCooldown.constructor` | internal/racegen/generators/cooldown.go:22-31 | an empty ring, of capacity 1 when a non-positive one is asked for |
| `Cooldown.NameCooldown.Add` | internal/racegen/generators/cooldown.go:37-48 | a name already cooling keeps its place, otherwise the oldest makes room; the set stays the set of the queue |
| `Cooldown.NameCooldown.Excludes` | internal/racegen/generators/cooldown.go:53-59 | the names of the queue |
| `Cooldown.NameCooldown.Remember` | cmd/race-generator/main.go:611-618 | all names of a round are added once, in whatever order the map is walked |
| `Cooldown.GenerateNames` | internal/racegen/generators/competitors.go:54-86 | n different available names: the first n different ones of the draw stream, and no further draw is made |
| `Cooldown.FreshNames` | internal/racegen/generators/cooldown.go:37-48 | names new to the ring push out exactly the oldest |
| `Cooldown.AnyOrder` | cmd/race-generator/main.go:611-618 | a drawn round stays one in whatever order its names are listed |
| `Cooldown.RingIsLastTenRounds` | internal/racegen/generators/cooldown.go:3-7 | with at least 12 N names in the pool the ring holds exactly the names of the last ten rounds at each boundary |
| `Cooldown.ElevenRoundsDisjoint` | internal/racegen/generators/competitors.go:44-49 | then any eleven consecutive rounds use pairwise disjoint names |
| `Cooldown.RoundOkExactlyWhenDrawn` | internal/racegen/generators/competitors.go:54-86 | n different available names are a round if and only if some stream of draws in which every index keeps coming up returns them, in some order |
| `Cooldown.DrawDetermined` | internal/racegen/generators/competitors.go:68-86 | a stream determines the round and how many draws it takes |
| `Cooldown.BookkeptExactlyWhenProduced` | internal/racegen/generators/competitors.go:54-86 | the runs that these guarantees allow, round after round and whatever order the names are added in, are exactly those that streams of draws produce |
| `Cooldown.SmallPoolMayRepeat` | internal/racegen/generators/competitors.go:56-66 | with fewer than 12 N names some streams of draws produce a run that repeats a name within eleven rounds, through the fallback to the full pool |
| `Cooldown.DisjointExactlyWhenPoolIsLarge` | internal/racegen/generators/competitors.go:44-66 | for a pool without repeats: no run that streams of draws produce repeats a name within eleven rounds if and only if the pool has at least 12 N names |
| `AuditLog.Log.Append` | internal/racegen/audit/log.go:101-130 | the file, the chain's position and the outcome, for every failure, a write that stops anywhere in the line included |
| `AuditLog.AppendedEntry` | internal/racegen/audit/log.go:110-124 | an append writes the next number, the hash before it, and the hash of the entry's own text |
| `AuditLog.Log.Open` | internal/racegen/audit/log.go:42-53 | a log standing where the chain resumes, or null exactly when the last line cannot be parsed |
| `AuditLog.FailedOpenLeavesNoLog` | internal/racegen/audit/log.go:42-53 | after an open that fails the file is as it was and there is no log to append to |
| `AuditLog.Log.ResumeChain` | internal/racegen/audit/log.go:57-94 | the two backward scans find the last line that is not empty within the tail |
| `AuditLog.Log.Close` | internal/racegen/audit/log.go:133-142 | the log is closed and the file unchanged |
| `AuditLog.Verify` | internal/racegen/audit/log.go:171-220 | count and first error of the line-by-line check |
| `AuditLog.EntryAcceptedExactlyWhen` | internal/racegen/audit/log.go:196-215 | an entry passes if and only if its number is the next, it names the hash before it, and its hash is the hash of its own text |
| `AuditLog.EditedPayloadRejected` | internal/racegen/audit/log.go:196-215 | a file whose only entry had its payload edited is rejected, unless both texts have the same hash |
| `AuditLog.LineRead` | internal/racegen/audit/log.go:177-195 | a line of a mebibyte or more is rejected, a blank one skipped, a carriage return at the end dropped |
| `AuditLog.TailShowsLastLine` | internal/racegen/audit/log.go:65-83 | the tail scan finds the whole last line if and only if it fits 16 KiB with its line break; otherwise only its end |
| `AuditLog.ReopensExactlyWhenLastLineFits` | internal/racegen/audit/log.go:65-90 | a log whose last line does not fit cannot be opened again, given that no proper end of a line parses |
| `AuditLog.AcceptedExactlyWhenNotTorn` | internal/racegen/audit/log.go:101-220 | any sessions of Open, Append and Close with writes that may stop anywhere: Verify accepts the file, and counts all its lines, if and only if no failed append was directly followed by a line, no part of a line was left behind and no line came after one without its break; unless garbled so, every Open succeeds |
| `AuditLog.FailedThenWritten` | internal/racegen/audit/log.go:101-130 | one run of a failed and a successful append, an instance of AcceptedExactlyWhenNotTorn, whose file Verify rejects |
| `AuditLog.AcceptedIsChained` | internal/racegen/audit/log.go:162-215 | an accepted file holds entries numbered 1, 2, 3, ... that carry the hash of their own text and the previous one's hash |
| `AuditLog.FinalHashFixesHistory` | internal/racegen/audit/log.go:1-3 | two accepted files with the same final hash hold the same entries, or the texts of two of their entries that differ have the same hash, or one hash is empty |
| `RoundStore.Store.UpsertGameRound` | internal/sqlite/sqlite.go:492-549 | tables, caller's struct and results of one upsert, for every outcome of its statements |
| `RoundStore.Store.UpsertGameRoundBatch` | internal/sqlite/sqlite.go:553-632 | a committed batch is the left fold of single upserts with the count of written rows; a failed one changes no table |
| `RoundStore.Store.SaveResult` | internal/sqlite/sqlite.go:635-667 | the round is finished and the results inserted, or nothing changes |
| `RoundStore.FailuresChangeNothing` | internal/sqlite/sqlite.go:553-667 | a transaction in which a statement fails changes no table and reports nothing written |
| `RoundStore.BatchIsSingles` | internal/sqlite/sqlite.go:551-632 | a committed batch leaves the tables as its single upserts one after the other, and its count is the number of those that write, also when pointers repeat |
| `RoundStore.NothingGoesBack` | internal/sqlite/sqlite.go:489-667 | over any sequence of calls with readable rows: F stays F with its odds, win odds and upsert columns, no bonus goes down, no row disappears, and each result stays as first recorded |
| `RoundStore.UpsertGrowsExactlyWhen` | internal/sqlite/sqlite.go:497-548 | an upsert takes nothing back if and only if the row can be read, or the statement fails, or there is no row, or the incoming round has no lower bonus and, if the row is finished, the same status, odds and upsert columns |
| `RoundStore.UnreadRowReplaced` | internal/sqlite/sqlite.go:497-548 | a finished row with odds and a bonus that cannot be read: the upsert replaces both |
| `RoundStore.FinishedRowChanges` | internal/sqlite/sqlite.go:499-515 | exactly which columns of a finished row a re-upsert changes, to what, and when: each if and only if its incoming value is usable and differs and interval, video names or jackpot came with it; the bonus if and only if it had none |
| `RoundStore.FilledKeptExactlyWhen` | internal/sqlite/sqlite.go:489-515 | every filled column of a finished row keeps its value if and only if no patch is made or no usable incoming value differs from a filled one |
| `RoundStore.FilledColumnsOverwritten` | internal/sqlite/sqlite.go:499-515 | a finished row whose interval and competitors are filled, and whose re-upsert replaces both |
| `RoundStore.WritesExactlyWhen` | internal/sqlite/sqlite.go:516-548 | an upsert writes if and only if the row is new or open with other odds and the statement succeeds; what it then writes, with the higher bonus; and that nothing else changes |
| `RoundStore.OpenRowWithSameOdds` | internal/sqlite/sqlite.go:516-530 | an open row with the same odds: nothing is written but a first positive bonus, and the caller's struct takes over a higher stored one |
| `RoundStore.OpenRowWithOtherOdds` | internal/sqlite/sqlite.go:516-548 | an open row with other odds: the full upsert with the higher bonus; if it fails only a first positive bonus is stored |
| `RoundStore.NewOrUnreadRow` | internal/sqlite/sqlite.go:497-548 | no row, or one that cannot be read: the full upsert of the struct as it comes, with a creation time |
| `RoundStore.OnlyGivenPositions` | internal/sqlite/sqlite.go:346-352 | results are inserted for the given round and positions only |
| `RoundStore.FirstResultWins` | internal/sqlite/sqlite.go:346-352 | a position keeps what was recorded, else takes its first given result |
| `RoundStore.SavedStaysFinished` | internal/sqlite/sqlite.go:634-667 | a saved round is finished, with its odds and a result in every given position, after any later calls |
| `Restart.ToGameRound` | internal/racegen/adapter/round.go:38-135 | fails exactly when the code, a count, an encoding or a position is missing; otherwise the finished round with the game's columns and one result for each position, in order |
| `Restart.Persist` | cmd/race-generator/main.go:626-637 | the tables after the upsert and, unless it failed, the results, for every outcome |
| `Restart.SecondGameRefreshes` | cmd/race-generator/main.go:620-637 | a second game for a slot that holds a finished game replaces competitors, video, interval, jackpot and finish time of that row, and changes nothing else |
| `Restart.FirstGameStands` | cmd/race-generator/main.go:620-637 | after a game is persisted on an empty slot, through any calls with readable rows, its odds, win odds, bonus and results stay |
| `Restart.WarmRestart` | cmd/race-generator/main.go:200-206 | a second game for the slot, at any later time, keeps the first game's odds, win odds and results and takes the second game's competitors, video, interval and jackpot; a no-op if and only if these and the finish time agree, or the patch fails and the time agrees |
| `Restart.RestartIsNoOpExactlyWhen` | cmd/race-generator/main.go:302-306 | for any two games of a slot, one after the other: the second is a no-op if and only if it agrees in the five patched columns and the finish time |

## Left out

- HTTP and WebSocket handlers, authentication, health probes, the protocol bridge and the DTO shapes: thin wrappers around input and output.
- SQL text, WAL retries, pragmas and read-only queries; the tables are maps and each statement succeeds or fails as scripted. A statement failure that makes SQLite abandon a whole transaction by itself is not modelled.
- Floating-point rounding, the formulas of Box-Muller, exp, log and pow, and `CertifiedFloatRange`: exact reals, with the normal of two fractions, the exponential, the geometric mean and the power function given from outside.
- SHA-256, HMAC, JSON and MD5 internals, OS entropy, laboratory entropy and build tags: uninterpreted functions and scripts.
- The time zone database and daylight-saving changes: the offset is fixed; in the hour of the autumn change codes repeat.
- Conditions, competitor statistics, interval checkpoints, video URLs, jackpots, environment parsing and configuration tables: no property that needs a proof. The draws they take between the modelled ones only move the source.
- `NewMT19937WithSeedHex`, and `generateInto` for request sizes other than 1024 bytes.
- Ticker, signals and goroutine start and stop around the scheduler and the poller.
- HmacDrbg.Drbg.New: does not model the erasure of the local seed slices, which are not part of the generator's state; the same holds for Drbg.Reseed.
- VideoDraw.New: does not model the sorting of entries by ID or the copy of Order handed out by Select; entries are given in the order used.
- FinishPool.ParseEntry: does not model decoding the JSON blob, the sorting of entries by ID or the index by ID; one entry is modelled, with its labels listed in the map's arbitrary iteration order.
- Poller.Poller.Tick: does not model the reading of results, log lines and time stamps; what the store and the projection answer is scripted per game type.
- FanOut.EveryRunIsSafe: models the channels on values, as a state machine whose steps interleave freely; the read-write lock is the rule that Subscribe, Unsubscribe and Shutdown wait for a broadcast in progress, and fairness of the scheduler is not modelled.
- Cooldown.GenerateNames: models only the name draws of GenerateCompetitors, on a pool with at least n available names; on a smaller one the program does not terminate.
- Horizon.Runner.BootBulk: models one runner; the program does this for each runner in turn and stops at the first failure.
- AuditLog.Log.Append: does not model the time stamp's source, the wrap-around of the 64-bit sequence number or several logs on one file.
- AuditLog.AcceptedExactlyWhenNotTorn: concerns entries whose line fits the tail and whose JSON survives a round trip (large integers in a payload, which decode as floating point, need not), and a decoder that takes no part of a line, nor a line with parts of lines behind it, for an entry.
- RoundStore.Store.UpsertGameRound: pointers to the caller's structs are indices into an arena; the wrap-around of integer columns is not modelled.
- WinOdds.WinOddsEndToEnd: states no overround for the fallback, which the code does not hold to the target.
- WinOdds.GenerateWinOdds: concerns configurations with positive, ordered position limits, a positive target and a maximum that does not round to zero, as all that ship have; the validation does not check these.
- VideoDraw.Search: does not say what the binary search finds in a table that falls, as negative weights make it; by VideoDraw.FitStaysNonnegative that takes an exacta factor beyond the bound or a negative target. VideoDraw.Select and VideoDraw.SelectFrequency have the same scope.
- VideoDraw.ScaleFreeExactlyUpToFactor: for two runners its failing pool and targets name a runner 3, which New accepts and neither the pool parser nor the start-up validation does; VideoDraw.ScaleMattersBeyondFactor shows the failure without it, at one factor.
- Restart.ToGameRound: does not model the JSON encodings and time formats, which are given as texts; an encoding may fail.
- Restart.WarmRestart: leaves out the draws and the audit entries of the second game, which are made and written like those of any game.
- OddsVector.ConcentrationKeepsGeometricMean: the other results need only a positive mean and a monotone power; this one also that the mean is the root of the product and the power multiplicative.
