# Pikafish static evaluation and network loading, in Dafny

This project models the core of `src/evaluate.cpp` of the Pikafish xiangqi engine. The core has two parts.

- **Evaluation.** `Eval::simple_eval` is a material count for one colour against its opponent. `Eval::evaluate` turns a position into a bounded score for the side to move. It takes a cheap material estimate and picks the `psqtOnly` hint for the network from the search window. It then boosts the optimism and discounts the network score by the position's volatility, blends the two with a material factor, and damps the result as the shuffle counter (`rule60_count`) grows. Finally it clamps the score strictly inside the mate bounds.
- **Network loading.** `NNUE::load_networks` looks for the weights file in the working directory and then in the engine's root directory. In each directory it tries the compressed reading first and the raw reading second. It updates the current file name and the description together, on the first success only. `NNUE::verify` decides whether the engine may go on: the engine must stop when the wanted network is not the current one.

Files:

- `cpp_int.dfy` (module `CppInt`) holds the C++ integer operations the code relies on: `std::abs`, `/` rounding toward zero (Dafny's `/` is Euclidean), and `std::clamp`.
- `evaluation.dfy` (module `Evaluation`) holds `simple_eval` and `evaluate` as pure functions, with lemmas about them.
- `network_loader.dfy` (module `NetworkLoader`) holds `load_networks` as a method with a loop. The method is proved equal to reference functions. It also holds `verify` as a function that returns a verdict.

Inputs that come from code outside `src/evaluate.cpp` are parameters:

- The piece values `PawnValue`, `AdvisorValue` and `BishopValue` are a `PieceValues` record.
- `VALUE_MATED_IN_MAX_PLY` and `VALUE_MATE_IN_MAX_PLY` are a `MateBounds` record. Its `Valid()` asks that the clamp range is not empty, because `std::clamp` is undefined otherwise.
- `NNUE::evaluate` is a function `net: bool -> NetOutput`. It maps the `psqtOnly` hint to the score and the complexity that the network reports for the position.
- The options map is a total lookup `string -> string`. An empty value means "use the default name".
- Reading a file and `NNUE::load_eval` together are an oracle `parse: Attempt -> Option<string>`. An `Attempt` is a path plus a `Format` (`Zipped` or `Raw`).
- A `Position` keeps only what the evaluation reads: per-colour pawn, advisor and bishop counts, per-colour major material, the side to move, the shuffle counter and whether the side to move is in check. `pos.major_material()` is taken to be the sum of both colours' major material. `position.h` is not part of this model.

`evaluate`'s `assert(!pos.checkers())` becomes the precondition `!pos.inCheck`. `verify`'s fatal path (five error lines, then `exit(EXIT_FAILURE)`) becomes the verdict `Fatal(file, defaultName)`. Its confirmation message becomes `Enabled(file)`. `load_networks` also returns the attempts it made, in order, so that the order of the file reads can be stated.

With equal material, zero optimism, mate bounds that straddle 0 and a shuffle counter of at most 293, the score never has the opposite sign to the network's score, provided `complexity + |nnue|` is below 30087 (`EvaluateFollowsNetworkSign`). It need not have the same sign: a network score of 1 with complexity 0 blends to 0. Above 30087 the discount `nnue -= nnue * (...) / 30087` can flip the sign of the final score. A network score of 100 with complexity 90161, no major material and no shuffling is discounted to -200, blends to -79 and evaluates to -119 (`EvaluateSignFlip`).

## Model

| member | source | states |
|---|---|---|
| `CppInt.TDiv` | src/evaluate.cpp:144-151 | C++ `/` by a positive constant: the quotient's magnitude is the floor of the dividend's magnitude divided by the divisor, and the quotient is zero or has the dividend's sign |
| `CppInt.Abs` | src/evaluate.cpp:144-145 | `std::abs`: the result is non-negative and is the input or its negation |
| `CppInt.Clamp` | src/evaluate.cpp:154 | `std::clamp`: the result lies in `[lo, hi]`; it is the input when the input is in range, and the nearer bound otherwise |
| `CppInt.TDivAbsMonotone` | src/evaluate.cpp:151 | a larger dividend magnitude never gives a smaller truncated quotient magnitude |
| `Evaluation.SimpleEval` | src/evaluate.cpp:121-126 | `simple_eval(pos, c)` equals what `c`'s pieces are worth minus what the opponent's pieces are worth |
| `Evaluation.SimpleEvalAntisymmetric` | src/evaluate.cpp:121-126 | `simple_eval(p, c) == -simple_eval(p, ~c)` for every position and colour |
| `Evaluation.Position.MajorMaterial` | src/evaluate.cpp:147 | `pos.major_material()` is the side to move's major material plus its opponent's |
| `Evaluation.PsqtOnly` | src/evaluate.cpp:138 | the hint is false exactly when the material estimate lies within `[alpha - 2500, beta + 2500]` |
| `Evaluation.EvaluateConsultsHint` | src/evaluate.cpp:137-141 | the network is read only at the `psqtOnly` hint: two networks that agree on the hint give the same evaluation |
| `Evaluation.Evaluate` | src/evaluate.cpp:130-157 | for every network output, optimism, alpha and beta, the score lies strictly between `VALUE_MATED_IN_MAX_PLY` and `VALUE_MATE_IN_MAX_PLY` |
| `Evaluation.Volatility` | src/evaluate.cpp:144-145 | `complexity + abs(simpleEval - nnue)` is never below the complexity, and equals it exactly when the material estimate and the network score agree |
| `Evaluation.BoostOptimism` | src/evaluate.cpp:144 | with a non-negative volatility, the boost keeps the sign of optimism and never decreases its magnitude |
| `Evaluation.DiscountNnue` | src/evaluate.cpp:145 | with a volatility in `[0, 30087)`, the discounted network score keeps its strict sign and does not grow in magnitude; a zero score stays zero |
| `Evaluation.Blend` | src/evaluate.cpp:147-148 | with `mm >= 0`, a network score and an optimism of the same sign blend to a value of that sign or zero; both zero blend to zero |
| `Evaluation.Damp` | src/evaluate.cpp:151 | up to shuffle counter 293 damping never changes the sign of `v`; at 293 the damped value is exactly 0 |
| `Evaluation.DampNonIncreasing` | src/evaluate.cpp:151 | for `0 <= s1 <= s2 <= 293`, the damped magnitude at `s2` is at most the damped magnitude at `s1` |
| `Evaluation.EvaluateAtShuffleLimit` | src/evaluate.cpp:151-154 | at shuffle counter 293, with mate bounds that straddle 0, the score is 0 for every network output, optimism and window |
| `Evaluation.EvaluateFollowsNetworkSign` | src/evaluate.cpp:137-154 | with zero material balance, zero optimism, volatility below 30087 and a shuffle counter not past 293, the score is never of the opposite sign to the network score, and it is 0 when the network score is 0 |
| `Evaluation.UnclampedSignFlip` | src/evaluate.cpp:144-151 | with no major material and no shuffling, a network score of 100 with complexity 90161 becomes -119 before the clamp |
| `Evaluation.EvaluateSignFlip` | src/evaluate.cpp:137-156 | with equal material on both sides, no major material, zero optimism and no shuffling, a network reporting 100 with complexity 90161 gives the score -119, so above volatility 30087 the sign can flip |
| `NetworkLoader.ResolveName` | src/evaluate.cpp:54-57 | the wanted file is the option's value when that is not empty, otherwise the default name; it is empty only when both are empty |
| `NetworkLoader.SearchDirs` | src/evaluate.cpp:59 | two directories are searched: the working directory `""` first and the root directory last |
| `NetworkLoader.DirPlan` | src/evaluate.cpp:64-69 | within one directory there are two attempts on the same path: compressed first, raw second |
| `NetworkLoader.Plan` | src/evaluate.cpp:59-70 | there are two attempts per search directory |
| `NetworkLoader.FirstSuccess` | src/evaluate.cpp:61-72 | there is no description exactly when no attempt parses; otherwise the description comes from an attempt that parses, and every earlier attempt fails |
| `NetworkLoader.Tried` | src/evaluate.cpp:61-77 | the attempts made are a prefix of the plan in which every attempt but the last fails; they are the whole plan when nothing parses; otherwise the last one yields the first description |
| `NetworkLoader.Outcome` | src/evaluate.cpp:72-76 | the option and default names are kept; the record is unchanged when no attempt parses; otherwise the current name becomes the wanted name and the description becomes the first one parsed |
| `NetworkLoader.LoadedFile` | src/evaluate.cpp:54-79 | the reference result of `load_networks`: the option and default names are kept; the record is either unchanged or names the wanted file; when the current name is unchanged the whole record is unchanged |
| `NetworkLoader.AttemptsMade` | src/evaluate.cpp:59-77 | the reference attempt sequence of `load_networks`: at most four attempts, and none exactly when the current name is already the wanted one |
| `NetworkLoader.TryDirectory` | src/evaluate.cpp:64-70 | one directory: the description is the first of the compressed and raw readings that parses, and the raw file is read only when the compressed reading fails |
| `NetworkLoader.LoadNetworks` | src/evaluate.cpp:50-80 | the loop returns the record and the attempt sequence given by the reference functions `LoadedFile` and `AttemptsMade` |
| `NetworkLoader.PlanOrder` | src/evaluate.cpp:59-70 | the attempts come in this order: compressed in the working directory, raw in the working directory, compressed in the root directory, raw in the root directory |
| `NetworkLoader.LoadSkipsWhenCurrent` | src/evaluate.cpp:61-62 | when the current name is already the wanted one, nothing is attempted and the record is returned unchanged |
| `NetworkLoader.LoadUnchangedWhenNothingParses` | src/evaluate.cpp:61-79 | when no attempt in either directory parses, the record is returned unchanged; when the current name is not already the wanted one, all four attempts are made |
| `NetworkLoader.LoadOutcome` | src/evaluate.cpp:54-79 | the option and default names never change; the record changes exactly when the last attempt made parsed; the current name and the description are then updated together, to the wanted name and that description; every earlier attempt failed |
| `NetworkLoader.Verify` | src/evaluate.cpp:83-114 | the fatal path is taken exactly when the current name differs from the wanted name; the verdict names the wanted file, and on the fatal path the default name too |
| `NetworkLoader.VerifyAfterLoad` | src/evaluate.cpp:50-114 | a verification after a load with the same options is fatal exactly when the wanted file was not already current and no attempt parsed; so it is never fatal after a successful load |
| `NetworkLoader.VerifyFatalWhenNothingLoads` | src/evaluate.cpp:83-111 | starting from "None" with the option set to "custom.net" and no file parsing, verification is fatal and names "custom.net" |

## Left out

- `Eval::trace` (src/evaluate.cpp:163-187): string formatting and floating-point output (`0.01 * UCI::to_cp(v)`).
- File I/O and parsing (`read_zipped_nnue`, `std::ifstream`, `NNUE::load_eval`) are the `parse` oracle. Any side effect of a parse, such as weights loaded into the network by a parse that fails part-way, is not modelled.
- The internals of `NNUE::evaluate` are not modelled. Its constant `true` argument (complexity adjustment) is fixed and not represented.
- The text of `verify`'s error and confirmation messages, and the process exit itself, are not modelled. The download URL is represented only by the default name it ends with.
- The global `currentEvalFileName` (src/evaluate.cpp:43) is not modelled. The logic modelled here never reads it.
- `Evaluation.Evaluate`: does not model C++ `int` overflow. All arithmetic is on mathematical integers, which assumes no intermediate product such as `nnue * (568 + mm)` overflows 32 bits.
- The `Position` implementation, the values in `types.h` and the option registry in `ucioption.cpp` are not part of this model. They enter as parameters.
- Determinism of `evaluate` holds by construction, because it is a Dafny function.
