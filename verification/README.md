# GaLib generational engine in Dafny

A model of the generational engine of GaLib, the `GeneticAlgorithm` class
template in `include/genetic/genetic_algorithm.hpp`, with proofs about it.
Each individual holds `number_of_vectors` chromosomes of `dimension`
fixed-width integer genes. It may also hold `number_of_vectors + 1`
mutation-probability genes, and it carries a cached fitness. One generation
(`step`) does the following:

1. Tournament selection over the fitness cache.
2. Under elitism, an `update_best` snapshot of the selected population.
3. Two shuffle-and-pair offspring passes with bit-level crossover (single-point or uniform).
4. Mutation.
5. Under elitism, the saved best written into a random slot (`add_best`).
6. Tracking of the best individual (`update_best`).

Every random draw is an explicit input of the model:

- cut points and coin matrices;
- tournament slot lists;
- shuffle swap partners;
- the mutation of each generation;
- the elite slot.

The fitness function is an integer-valued function of the genes. Everything
else is pure functions over immutable datatypes.

Modules, in dependency order:

- `Wrappers`: `Option`.
- `Words`: 32-bit genes as bit sequences, least significant bit first. It has the masks the engine builds (`1 << i`, `(1 << k) - 1`) and the integer value of a word.
- `Genome`: the configuration, the distribution ranges, the individual, and the fitness cache (`evaluate`).
- `Recombination`: single-point and uniform recombination of one gene sequence.
- `Crossover`: `crossover` and its per-chromosome and probability-gene parts.
- `Selection`: tournaments and the selection loop.
- `Tracking`: `update_best` and `add_best`.
- `Sequences`: a log built one entry per round, with its entries and prefixes.
- `Offspring`: the shuffles, the two pairing passes, and the analysis of which buffer indices the pairing loop reads.
- `GeneticAlgorithm`: the engine state, initialisation, `step` and `run`.

## Model

| member | source | states |
|---|---|---|
| Words.OneHotValue | include/genetic/genetic_algorithm.hpp:295 | the mask `Integer(1) << i` is the word whose only set bit is bit i, and its value is 2^i |
| Words.FitsIffBelow | include/genetic/genetic_algorithm.hpp:294-305 | a gene fits in `bits` bits (every bit at or above `bits` is 0, as in a gene the loop builds from bits below `integer_bits`) exactly when its value is below 2^bits, so `UniformAllKeep`'s premise is the range of an `integer_bits`-bit gene |
| Words.LowMaskValue | include/genetic/genetic_algorithm.hpp:267 | the mask `(Integer(1) << k') - 1` has exactly the k' low bits set, and its value is 2^k' - 1 |
| Genome.DistributionRanges | include/genetic/genetic_algorithm.hpp:68-70 | a value is within the slot distribution's range exactly when it is a population slot (below population_size), and within the data-cut or probability-cut range exactly when it names a gene `cut / integer_bits` of the chromosome (of `dimension` or `number_of_vectors + 1` genes) and a bit `cut % integer_bits` of that gene; so the upper bounds are population_size - 1, dimension * integer_bits - 1 and (number_of_vectors + 1) * integer_bits - 1 |
| Genome.CutRange | include/genetic/genetic_algorithm.hpp:68-70 | for `len` genes of `bits` bits, a cut is at most `len * bits - 1` if and only if its gene index is below `len` and its bit index below `bits` |
| Genome.CutInRange | include/genetic/genetic_algorithm.hpp:251-254 | a cut drawn from [0, len * bits - 1] names gene `cut / bits < len` and bit `cut % bits < bits`, and it decomposes as gene * bits + bit; so the guard `k < dimension` always holds |
| Genome.HalfEven | include/genetic/genetic_algorithm.hpp:398 | under the engine's configuration requirements the parents buffer has even size and the two halves tile the population |
| Genome.Evaluated | include/genetic/genetic_algorithm.hpp:165-174 | filling the cache keeps genes and probabilities, stores the score, leaves an already evaluated individual unchanged, and preserves the score |
| Genome.Evaluate | include/genetic/genetic_algorithm.hpp:165-174 | the fitness function is called exactly when no fitness is cached; a cached value is returned with the individual unchanged; otherwise the function's value is returned and cached |
| Genome.EvaluateTwice | include/genetic/genetic_algorithm.hpp:165-174 | a second evaluation makes no call, returns the same value, and leaves the individual as the first evaluation left it |
| Recombination.Splice | include/genetic/genetic_algorithm.hpp:263-272 | the spliced children take bits below k' from their own parent and the rest from the other; c1 & c2 == g1 & g2 and c1 ^ c2 == g1 ^ g2; with k' = 0 the genes are exchanged whole |
| Recombination.SinglePoint | include/genetic/genetic_algorithm.hpp:249-279 | genes before `cut / bits` come from the own parent, genes after it come from the other parent, and the gene at it is the splice; every bit of every gene is kept or exchanged, never lost or duplicated |
| Recombination.SpliceAt | include/genetic/genetic_algorithm.hpp:256-278 | with the cut in gene k at bit kp: genes before k stay, gene k is the splice, genes after k are exchanged, and no bit is lost or duplicated |
| Recombination.SinglePointReassembles | include/genetic/genetic_algorithm.hpp:249-279 | reading the low `bits` bits of all genes as one bit string, child 1 is parent 1's string up to the cut followed by parent 2's string from the cut on, and child 2 is the mirror |
| Recombination.CutPosition | include/genetic/genetic_algorithm.hpp:251-254 | a cut is `k * bits + kp` for a gene `k` of the sequence and a bit `kp` of the gene, and the single-point crossover at it is the splice at gene `k`, bit `kp` |
| Recombination.Reassembled | include/genetic/genetic_algorithm.hpp:256-278 | the splice at gene `k`, bit `kp` reassembles the parents' bit strings at position `k * bits + kp` |
| Recombination.SplicedFlat | include/genetic/genetic_algorithm.hpp:256-278 | the same reassembly with the position written as `k * bits + kp`, which lies inside the bit string |
| Recombination.SinglePointAtZero | include/genetic/genetic_algorithm.hpp:251-278 | cut point 0 exchanges the two parents' gene sequences whole |
| Recombination.UniformGene | include/genetic/genetic_algorithm.hpp:291-305 | bit j < bits of child 1 is parent 1's bit when its coin keeps and parent 2's bit otherwise, child 2 mirrors it, and bits at or above `bits` are 0 |
| Recombination.Uniform | include/genetic/genetic_algorithm.hpp:284-310 | the per-bit rule holds for every gene; within the gene width the children's AND and XOR equal the parents', and above it they are zero |
| Recombination.UniformAllKeep | include/genetic/genetic_algorithm.hpp:294-304 | with every coin on keep, parents whose genes fit in `bits` bits are reproduced exactly |
| Recombination.Recombine | include/genetic/genetic_algorithm.hpp:234-244 | dispatch on the crossover method keeps the sequence length and loses or duplicates no bit within the gene width |
| Crossover.CrossChromosome | include/genetic/genetic_algorithm.hpp:234-244 | one per-chromosome call replaces chromosome `chromo` of both children by the recombination of the parents' chromosome; other chromosomes, probabilities and fitness stay as they were |
| Crossover.CrossData | include/genetic/genetic_algorithm.hpp:210-218 | starting from copies of the parents, after n rounds the chromosomes below n are recombined and the rest are still the parents' own |
| Crossover.CrossProbas | include/genetic/genetic_algorithm.hpp:315-325 | the probability genes are replaced by their recombination, and genes and fitness are untouched |
| Crossover.Cross | include/genetic/genetic_algorithm.hpp:209-229 | children have the configured layout and no cached fitness; every chromosome is recombined; the probability genes are recombined if and only if auto-adaptation is on, and otherwise stay the parents' own; no bit is lost or duplicated |
| Crossover.RecombineSymmetric | include/genetic/genetic_algorithm.hpp:263-272 | exchanging the parents exchanges the children, for both methods |
| Crossover.CrossSymmetric | include/genetic/genetic_algorithm.hpp:209-229 | crossing (p2, p1) with the same draws gives the children of (p1, p2) exchanged |
| Crossover.CrossAllKeep | include/genetic/genetic_algorithm.hpp:362-388 | uniform crossover (the per-gene loop of lines 284-310, applied by `crossover` at lines 209-229) with every coin on keep returns the parents with the cache cleared, probability genes included under auto-adaptation, provided every gene of both parents, and under auto-adaptation every probability gene, fits in `integer_bits` bits; the loop rebuilds each gene from its low `integer_bits` bits only, so any higher bit would be lost |
| Crossover.CrossAtZero | include/genetic/genetic_algorithm.hpp:249-279 | single-point crossover with every data cut at 0 exchanges the parents' chromosomes |
| Selection.Contest | include/genetic/genetic_algorithm.hpp:189-200 | after n candidates, the winner scores at least as much as all of them and strictly more than the earlier ones (the earliest maximum wins ties); exactly the candidate slots are evaluated; one fitness call is made per distinct unevaluated candidate slot |
| Selection.Challenge | include/genetic/genetic_algorithm.hpp:193-199 | one comparison round keeps the tournament invariant: a new candidate replaces the winner only on strictly greater fitness |
| Selection.RunTournament | include/genetic/genetic_algorithm.hpp:183-200 | a whole tournament: its winner is a drawn slot holding the earliest maximum score among the drawn candidates |
| Selection.SelectPrefix | include/genetic/genetic_algorithm.hpp:180-203 | after n tournaments there is one parent per tournament, each the evaluated copy of its winning slot; every drawn slot is evaluated, and fitness calls equal the number of distinct unevaluated drawn slots |
| Selection.Pick | include/genetic/genetic_algorithm.hpp:190-202 | one tournament run on the population as the earlier tournaments left it yields the same winner and scores as on the original population |
| Selection.Winner | include/genetic/genetic_algorithm.hpp:190-200 | a tournament over a population whose cache earlier tournaments partly filled picks a drawn slot whose evaluated copy scores at least every candidate, and strictly more than the earlier ones, by the original scores |
| Selection.Select | include/genetic/genetic_algorithm.hpp:179-204 | exactly one parent per tournament (half the population under the engine's draws); each parent copies a drawn slot, scores at least as much as every candidate, and strictly more than those drawn before it |
| Tracking.ScanBest | include/genetic/genetic_algorithm.hpp:460-472 | after n members, the best fitness is the maximum of the incoming best and their scores; the best is replaced only on strict improvement, and then by the first member attaining the maximum |
| Tracking.Visit | include/genetic/genetic_algorithm.hpp:464-470 | one member is evaluated and replaces the best only if it scores strictly more |
| Tracking.UpdateBest | include/genetic/genetic_algorithm.hpp:460-472 | every member is evaluated; the best never decreases and ends at least every member's score; it is unchanged unless some member strictly exceeds it, and otherwise becomes the first maximal member, cached; one call is made per unevaluated member |
| Tracking.PendingNone | include/genetic/genetic_algorithm.hpp:464 | in a fully evaluated population no member needs a fitness call |
| Tracking.UpdateBestIdempotent | include/genetic/genetic_algorithm.hpp:460-472 | a second `update_best` changes nothing and makes no fitness call |
| Tracking.AddBest | include/genetic/genetic_algorithm.hpp:474-478 | the best overwrites exactly the drawn slot |
| Offspring.ShufflePrefix | include/genetic/genetic_algorithm.hpp:395 | swap by swap, the buffer stays a rearrangement of the same parents |
| Offspring.Shuffle | include/genetic/genetic_algorithm.hpp:407 | a shuffle keeps the length and the multiset of parents |
| Offspring.ChildAt | include/genetic/genetic_algorithm.hpp:400-402 | the child a pass writes at offset j comes from pair j / 2, has the configured layout, and has no cached fitness |
| Offspring.Children | include/genetic/genetic_algorithm.hpp:398-403 | the children of all pairs in slot order, each of the configured layout and unevaluated |
| Offspring.Pass | include/genetic/genetic_algorithm.hpp:398-415 | one pairing pass, pass one (lines 398-403, offset 0) or pass two (lines 410-415, offset `m_selected.size()`): after n pairs, slots offset .. offset + 2n hold the children in order and every other slot is unchanged |
| Offspring.TwoPasses | include/genetic/genetic_algorithm.hpp:398-415 | the first pass fills slots [0, half) and the second fills [half, 2 * half), each slot exactly once |
| Offspring.BothPasses | include/genetic/genetic_algorithm.hpp:398-415 | the two passes over the shuffled buffers: slot j < half holds child j of the first buffer and slot half + j holds child j of the second, all unevaluated and of the configured layout |
| Offspring.CreateOffspring | include/genetic/genetic_algorithm.hpp:393-416 | both passes pair a rearrangement of the selected parents; slot j < half gets child j of pass one and slot half + j gets child j of pass two; every slot is replaced by an unevaluated child of the configured layout |
| Offspring.OffspringOverwrites | include/genetic/genetic_algorithm.hpp:398-415 | the children depend only on the parents buffer: two populations of the engine's size give the same offspring population, since the passes overwrite every slot |
| Offspring.PairReads | include/genetic/genetic_algorithm.hpp:398-400 | the pairing loop from index `i` reads the consecutive indices `i, i + 1, ...`, two per round, as many rounds as `i < len` allows: `2 * ceil((len - i) / 2)` indices, one more than the buffer holds when `len - i` is odd (the same loop is at lines 410-412) |
| Offspring.PassWrites | include/genetic/genetic_algorithm.hpp:401-402 | a pass at `offset` writes as many slots as the loop reads, and the slots it writes are exactly those in [offset, offset + number of reads); pass one uses offset 0 (lines 401-402) and pass two offset `m_selected.size()` (lines 413-414) |
| Offspring.OddBufferReadsPastEnd | include/genetic/genetic_algorithm.hpp:398-400 | on an odd-length buffer, the pairing loop as written reads index `len` |
| Offspring.EvenBufferReadsInOrder | include/genetic/genetic_algorithm.hpp:398-400 | on an even-length buffer, the pairing loop reads indices 0 .. len - 1, each exactly once |
| Offspring.OddHalfReadsPastEnd | include/genetic/genetic_algorithm.hpp:398-415 | with an even population whose half is odd, `create_offspring` reads one past the end of the parents buffer, the second pass writes slot `population_size`, one past the end of the population, and slot `half` is written by both passes |
| Offspring.ReadyHalfReadsInRange | include/genetic/genetic_algorithm.hpp:398-412 | under the engine's configuration requirements both passes read every buffer index exactly once and nothing outside it |
| GeneticAlgorithm.MutatePopulation | include/genetic/genetic_algorithm.hpp:421-425 | every slot is replaced by its mutation, and layouts are kept |
| GeneticAlgorithm.Choose | include/genetic/genetic_algorithm.hpp:432 | selection within `step` is `Select` with its tournament results, yielding half a population of parents and keeping every layout |
| GeneticAlgorithm.Snapshot | include/genetic/genetic_algorithm.hpp:435-437 | under elitism the snapshot is `update_best` on the selected population: every member evaluated, the best at least every score, replaced only on strict improvement and then by the first maximal member; without elitism nothing changes |
| GeneticAlgorithm.Breed | include/genetic/genetic_algorithm.hpp:440-448 | every slot but the elite one holds the mutation of the child `create_offspring` bred there, and under elitism the saved best sits in the elite slot |
| GeneticAlgorithm.Renew | include/genetic/genetic_algorithm.hpp:435-451 | after selection: every slot but the elite one is the evaluated mutation of its child, the elite slot is the evaluated snapshot best, the best never decreases and bounds every score, caching is kept, under elitism and when the incoming best carries its fitness in its cache, the elite slot scores at least the starting best, and the best is the incoming one or a member of the new population |
| GeneticAlgorithm.Settle | include/genetic/genetic_algorithm.hpp:451 | the closing `update_best`: every member evaluated, the best at least every score, replaced only on strict improvement and then by the first maximal member, so the best is the incoming one or a member of the population |
| GeneticAlgorithm.Bred | include/genetic/genetic_algorithm.hpp:439-440 | the offspring of `step` has the population's size and layout, and no child has a cached fitness |
| GeneticAlgorithm.Elite | include/genetic/genetic_algorithm.hpp:434-437 | the elitism snapshot of `step` has the guarantees of `update_best` on the population selection left |
| GeneticAlgorithm.Step | include/genetic/genetic_algorithm.hpp:430-454 | every slot but the elite one is the evaluated mutation of the child `create_offspring` bred from the selected parents; under elitism the elite slot is the evaluated snapshot best; size and layout are kept; the counter goes up by exactly 1; the population ends evaluated; the best never decreases, is at least every member's score, and is either the previous best or a member of the new population |
| GeneticAlgorithm.SelectionShaped | include/genetic/genetic_algorithm.hpp:202 | the selected parents are copies of population members, so they keep the configured layout |
| GeneticAlgorithm.Stepped | include/genetic/genetic_algorithm.hpp:89-90 | the engine after n generations is `step` applied n times, the g-th time with generation g's draws; it stays valid, keeps the configuration, and its counter is up by n |
| GeneticAlgorithm.RunFor | include/genetic/genetic_algorithm.hpp:89-112 | after n generations, each with its own draws and mutation: the engine is the one n steps produce (`Stepped`) and the log is the report of each intermediate engine in turn (`Reports`, built from the reference definition `ReportAfter`, whose entry k is the loop index k - 1 with the best of `Stepped(k)`); the counter advanced by n, one report per generation indexed 0 .. n - 1, reported best fitness non-decreasing, the last report equal to the final best, and every member evaluated and scoring at most the best |
| GeneticAlgorithm.Generation | include/genetic/genetic_algorithm.hpp:90-111 | one loop round is exactly one `step` from the previous engine, then one callback report carrying the loop index and the new engine's best |
| GeneticAlgorithm.Logged | include/genetic/genetic_algorithm.hpp:90-111 | a round after n - 1 generations that match `Stepped` and `Reports` leaves the engine and the log that n generations should |
| GeneticAlgorithm.Reported | include/genetic/genetic_algorithm.hpp:109-111 | appending a step's report keeps the log indexed and monotone |
| GeneticAlgorithm.RunReport | include/genetic/genetic_algorithm.hpp:108-111 | report g of the loop carries index g and the best fitness and individual of the engine after g + 1 steps (entry g + 1 of the reference definition `ReportAfter`), however many generations follow |
| GeneticAlgorithm.RunPrefix | include/genetic/genetic_algorithm.hpp:90-111 | the first m reports of a longer run are the reports of the run of m generations |
| GeneticAlgorithm.Run | include/genetic/genetic_algorithm.hpp:89-112 | `run`, with one set of draws and one mutation per generation, ends at the engine max_generations steps produce and logs the report of each intermediate engine; it advances the counter by exactly max_generations and reports indices 0 .. max_generations - 1 with non-decreasing best fitness |
| GeneticAlgorithm.Initialize | include/genetic/genetic_algorithm.hpp:120-137 | `reset` (lines 120-137) and the constructor (lines 63-74: `lowest()` at 67, `initialize_population()` at 72, which is lines 151-160) give counter 0, an evaluated random population, and a best at least the lowest value and every member's score; the starting best individual is kept unless some member scores strictly more than the lowest value, and then it is the first member attaining the maximum, cached |
| GeneticAlgorithm.DrawsWithinRanges | include/genetic/genetic_algorithm.hpp:127-130 | draws from the distributions set up at construction and reset are exactly the slots and cut points the engine consumes |

## Left out

- Console output in `run` (the progress lines, `print_interval`, the probability printout) is I/O and is not modelled.
- The random number generator is not modelled: the Mersenne Twister, seeding from `random_device`, `uniform_int_distribution` and `proba_distribution`. Their draws are inputs. `std::shuffle` is modelled as a Fisher-Yates pass whose swap partners are inputs; the exact draw-to-swap mapping of the standard library is not.
- Real-valued fitness is not modelled: the fitness is an integer-valued function of the genes, and decoding to real vectors is folded into it.
- `std::numeric_limits<Real>::lowest()` is the parameter `lowest` of `Initialize`.
- The uniform-crossover coin's float comparison with `uniform_crossover_probability` is a boolean input per bit, with true meaning keep.
- `Individu` (genetic_individu.hpp) is not part of this model:
  - random construction is an input population;
  - `mutate` is the `Mutation` each generation's draws carry, assumed only to keep the layout;
  - `to_real_vectors` is folded into the fitness function.
- Whether `set_gene` clears the cache is not modelled, because `crossover` clears it anyway before returning.
- `Config::validate` (genetic_config.hpp) is not part of this model. The engine instead requires `Genome.EngineReady`, which covers:
  - a population size that is a positive multiple of 4 (even, with an even half);
  - `dimension >= 1`;
  - `1 <= integer_bits <= 32`;
  - `tournament_size >= 1`.
- `Config::get_half_population_size` (genetic_config.hpp) is not part of this model. It is taken as `population_size / 2` (`Genome.HalfPopulation`).
- GeneticAlgorithm.Initialize: requires the starting best individual to have the configured layout. `reset` draws it as a random individual of that layout. The constructor starts from a default-constructed `Individual`, and the model does not carry that case. The constructor's best is replaced as soon as any member scores above `lowest()`.
- `bin_to_real` and `bin_to_proba` (genetic_utils.hpp) are not part of this model.
- The integer gene type is fixed at 32 bits (`uint32_t`). A program that instantiates a narrower type, such as the `uint16_t` of example 3 in examples/example_usage.cpp, needs `Words.WIDTH` changed to 16; nothing else depends on it.
- The `m_selected` buffer is not part of the engine state, because selection rewrites every entry before `create_offspring` reads it. Its `resize`/`clear` in the constructor and `reset` is not modelled.
- The getters return fields as they are and are not modelled.
- The example programs (examples/example_simple.cpp, examples/example_usage.cpp) are usage programs: they set up a configuration and a fitness, call `run`, and do console and stdin I/O. They are not modelled. The tests exercise only decoding and validation, which are outside this model.
- GeneticAlgorithm.Step: the final best is stated through bounds (never lower, at least every score) and as the previous best or a member of the new population. That it is the first maximal member of the closing `update_best` is stated by `Settle` and not repeated in `Step`.
- GeneticAlgorithm.Run: the callback is modelled as the returned list of reports. A fitness function or callback that throws is not modelled: `Genome.Fitness` is total, so the partly evaluated population an exception out of `evaluate` (line 171) would leave behind does not arise.

## Findings

| source | as written | input that shows it | evidently intended | confidence | as-written member | corrected member |
|---|---|---|---|---|---|---|
| include/genetic/genetic_algorithm.hpp:398-400 | the pairing loops step `i` by 2 while `i < m_selected.size()` and read `m_selected[i + 1]` | an even `population_size` of 6 gives a buffer of 3; the round `i = 2` reads `m_selected[3]`, one past the end (the same read is at line 412); in pass two it also writes `m_population[6]`, one past the end of the population (line 414), and slot 3 is written by both passes | the half population must itself be even (`population_size % 4 == 0`) so that the pairs tile the buffer | not executed | Offspring.OddHalfReadsPastEnd | Offspring.ReadyHalfReadsInRange |
