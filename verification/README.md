# ALNS core in Dafny

This project models the decision logic of ALNS, the adaptive large
neighbourhood search package (`alns`). It covers:

- the search loop of `alns/ALNS.py`: the operator registries,
  `iterate` and the classification of each candidate as BEST, BETTER,
  ACCEPTED or REJECTED;
- every acceptance criterion under `alns/accept/`;
- every operator selection scheme under `alns/select/`;
- the three stopping criteria under `alns/stop/`;
- the `Statistics` trace and the `CallbackMixin` registry.

Each criterion or scheme is an immutable record with pure step functions.
A step takes the state, the objective values of the best, current and
candidate solutions, and any random draw it needs. It returns the next
state and its answer. Operations that raise `ValueError` in Python return a
`Result`, and its `Err` carries the Python message (or an error
constructor for the selection schemes). Objective values, weights,
thresholds and probabilities are mathematical reals.

The search loop (`Alns`) is generic. The solution type and the states of
the selection scheme, acceptance criterion and stopping criterion are type
parameters. The objective, the operators, `select`, `update`, `accept`,
`stop` and the `on_best` callback are function values. The loop carries a
step bound (`fuel`). The loop invariant says:

- the best objective never exceeds the current objective;
- the trace grows by exactly one entry per iteration;
- the selection scheme is updated exactly once per iteration;
- the best objective occurs in the trace, and is its minimum when the
  callback never worsens a solution.

Modules, one per source file, plus four shared helpers:

| module | file | models |
|---|---|---|
| `Wrappers` | wrappers.dfy | `Option`, `Result` |
| `Numerics` | numerics.dfy | sums, means, minima, powers; the assumed properties of `exp`, `log`, `sqrt`, `pow` |
| `Deque` | deque.dfy | `collections.deque(maxlen=n)` append |
| `Sampling` | sampling.dfy | numpy's weighted `choice` and `flatnonzero` |
| `UpdateRule`, `Decay` | update_rule.dfy, decay.dfy | `alns/accept/update.py` and the `max(end, update(...))` schedule |
| one module per criterion | simulated_annealing.dfy … worse_accept.dfy | `alns/accept/*.py` |
| one module per scheme | operator_selection_scheme.dfy … selection_scheme.dfy | `alns/select/*.py` |
| `MaxIterations`, `NoImprovement`, `MaxRuntime` | max_iterations.dfy, no_improvement.dfy, max_runtime.dfy | `alns/stop/*.py` |
| `Statistics`, `CallbackMixin`, `Outcomes`, `Alns` | statistics.dfy, callback_mixin.dfy, outcomes.dfy, alns.dfy | the top-level files |

## Behaviour of the code that the model keeps

- **BETTER.** The outcome is BETTER only when the acceptance criterion
  accepted a candidate that beats the current solution
  (`alns/ALNS.py:243-249`). A candidate that beats the current solution but
  is rejected is REJECT. The class docstring of the roulette wheel lists
  outcome 2 as "better than the current solution" and does not mention
  acceptance (`alns/select/RouletteWheel.py:23-24`).
- **Record-to-record travel.** The gap is measured against the best
  solution (`alns/accept/RecordToRecordTravel.py:79`).
- **Moving-average threshold.** The candidate enters the window before the
  threshold `min + eta·(mean − min)` is computed over it
  (`alns/accept/MovingAverageThreshold.py:65-71`).
- **MaxIterations(n).** It answers false on calls 1..n and true from call
  n + 1 (`alns/stop/MaxIterations.py:23-26`).
- **NoImprovement(n).** With a constant best objective it answers false on
  the first n + 1 calls (`alns/stop/NoImprovement.py:30-37`).
- **Roulette wheel.** A zero total weight is an error: numpy's `choice`
  rejects the probabilities `0/0` (`alns/select/RouletteWheel.py:128-130`).
- **α-UCB.** Every coupled arm is scored
  `avg + sqrt(α·log(1 + t)/(count + 1))`, including arms never used
  (`alns/select/AlphaUCB.py:104-115`).

## Model

| member | source | states |
|---|---|---|
| UpdateRule.Update | alns/accept/update.py:26-33 | fails exactly for a method name that is neither linear nor exponential in any letter case; linear subtracts the step, exponential multiplies by it |
| UpdateRule.Lower | alns/accept/update.py:26 | lower-casing keeps the length and maps each character on its own |
| UpdateRule.LowerIdempotent | alns/accept/update.py:26 | lower-casing twice is lower-casing once |
| UpdateRule.CaseInsensitive | alns/accept/update.py:26 | every spelling of a method name behaves exactly like its lower-case form |
| UpdateRule.NeutralSteps | alns/accept/update.py:28-31 | a linear step of 0 and an exponential step of 1 leave the value unchanged, in either letter case |
| UpdateRule.Examples | alns/accept/update.py:28-33 | the worked values of both rules, and the rejection of an unknown method |
| Decay.Advance | alns/accept/SimulatedAnnealing.py:108-111 | one post-call update never drops below the floor; it fails exactly when the method is not understood |
| Decay.AdvanceDecays | alns/accept/RecordToRecordTravel.py:45-52 | on a decaying schedule (the linear rule, or the exponential rule in any letter case with a non-negative floor and a step of at most one) the parameter never increases, never drops below its floor, and the schedule still decays afterwards |
| Decay.MixedCaseStepGrows | alns/accept/RecordToRecordTravel.py:51-52 | the constructors' step check passes "Exponential" with step 2, which `update` reads as the exponential rule, and the parameter 0.8 becomes 1.6 |
| Decay.CheckedScheduleDecays | alns/accept/update.py:26-31 | with the step check made on the lower-cased name, a schedule with a known method, a non-negative step and a floor in [0, value] decays exactly when it passes the check |
| Decay.LinearDrops | alns/accept/RecordToRecordTravel.py:81-83 | after k linear updates the value is the start less k accumulated steps, floored at the end value |
| Decay.LinearClosedForm | alns/accept/RecordToRecordTravel.py:81-83 | after k linear updates the value is max(end, start − k·step) |
| Decay.ExponentialClosedForm | alns/accept/RecordToRecordTravel.py:81-83 | after k exponential updates with step in [0, 1] the value is max(end, start·step^k) |
| Decay.AdvanceNFloor | alns/accept/SimulatedAnnealing.py:106-111 | however many updates are made, the value stays at or above the floor |
| SimulatedAnnealing.New | alns/accept/SimulatedAnnealing.py:67-83 | the three validation errors in source order; a built criterion starts at the start temperature and has a positive floor |
| SimulatedAnnealing.Accept | alns/accept/SimulatedAnnealing.py:101-118 | accepts iff exp((current − candidate)/T) ≥ draw, using the temperature from before the call; the temperature then advances whatever the verdict |
| SimulatedAnnealing.AcceptsNoWorse | alns/accept/SimulatedAnnealing.py:102-116 | a candidate no worse than the current solution is accepted for every draw in [0, 1) |
| SimulatedAnnealing.Run | alns/accept/SimulatedAnnealing.py:101-118 | a run of calls keeps the criterion valid and gives one verdict per call |
| SimulatedAnnealing.RunTemperature | alns/accept/SimulatedAnnealing.py:108-111 | after k calls the temperature is k schedule updates of the start, whatever the objectives and draws |
| SimulatedAnnealing.Autofit | alns/accept/SimulatedAnnealing.py:175-199 | the validation errors; the start temperature accepts a solution `worse` times worse with probability `accept_prob`; the end is 1; the linear step reaches 1 in num_iters steps and the exponential step lies in (0, 1] |
| SimulatedAnnealing.AutofitLinearReachesOne | alns/accept/SimulatedAnnealing.py:189-190 | a linear autofit reaches temperature 1 after exactly num_iters updates |
| SimulatedAnnealing.AutofitStep | alns/accept/SimulatedAnnealing.py:187-192 | the fitted step satisfies step·num_iters = T0 − 1 (linear); for T0 ≥ 1 it is non-negative, and the exponential step lies in (0, 1] |
| RecordToRecordTravel.New | alns/accept/RecordToRecordTravel.py:45-59 | the three validation errors in source order; the method name itself is not checked |
| RecordToRecordTravel.Next | alns/accept/RecordToRecordTravel.py:81-83 | the post-call threshold update keeps the criterion valid and fails only for an unknown method |
| RecordToRecordTravel.Accept | alns/accept/RecordToRecordTravel.py:77-85 | accepts iff candidate − best ≤ the threshold from before the call |
| RecordToRecordTravel.IgnoresCurrent | alns/accept/RecordToRecordTravel.py:79 | the verdict does not depend on the current solution |
| RecordToRecordTravel.AcceptsNoWorseThanBest | alns/accept/RecordToRecordTravel.py:79 | a candidate no worse than the best is always accepted |
| RecordToRecordTravel.UnknownMethodFailsOnFirstCall | alns/accept/RecordToRecordTravel.py:51-57 | an unknown method name passes the constructor and makes the first call fail |
| RecordToRecordTravel.RunVerdicts | alns/accept/RecordToRecordTravel.py:77-85 | call i compares its gap with the threshold after i updates, whatever the earlier verdicts were |
| RecordToRecordTravel.Run | alns/accept/RecordToRecordTravel.py:77-85 | a successful run gives one verdict per call and keeps the criterion valid |
| RecordToRecordTravel.LinearExample | alns/accept/RecordToRecordTravel.py:77-85 | thresholds 5, 4, …, 0: a constant gap of 1 is accepted on exactly the first five calls |
| RecordToRecordTravel.ExponentialExample | alns/accept/RecordToRecordTravel.py:77-85 | thresholds 5, 0.5, …: a gap of 1 is accepted once, then rejected |
| ThresholdAcceptance.Accept | alns/accept/ThresholdAcceptance.py:39-48 | accepts iff candidate − current ≤ the threshold from before the call; the threshold then advances |
| ThresholdAcceptance.IsRecordToRecordTravelAgainstCurrent | alns/accept/ThresholdAcceptance.py:39-48 | threshold acceptance is record-to-record travel with the current solution in place of the best |
| ThresholdAcceptance.AcceptsNoWorse | alns/accept/ThresholdAcceptance.py:41-42 | a candidate no worse than the current solution is accepted even at threshold 0 |
| ThresholdAccept.Accept | alns/accept/ThresholdAccept.py:39-47 | the same verdict and threshold update as ThresholdAcceptance |
| ThresholdAccept.SameAsThresholdAcceptance | alns/accept/ThresholdAccept.py:39-47 | the duplicate class agrees with ThresholdAcceptance on every input |
| RandomAccept.New | alns/accept/RandomAccept.py:43-57 | the three validation errors, with the source's message wording, in source order |
| RandomAccept.Accept | alns/accept/RandomAccept.py:75-86 | accepts iff the candidate is strictly better or the draw is below the probability; a draw is consumed exactly when the candidate is not strictly better |
| RandomAccept.ProbabilityBounds | alns/accept/RandomAccept.py:82-84 | on a decaying schedule (linear, or exponential in any letter case with a step of at most one) the probability stays in [end, 1] and never increases |
| RandomAccept.MixedCaseProbabilityGrows | alns/accept/RandomAccept.py:49-50 | the constructor admits start 0.8, end 0, step 2 with "Exponential", and one call raises the probability to 1.6, outside [0, 1] |
| RandomAccept.ProbabilityExtremes | alns/accept/RandomAccept.py:77-80 | at probability 0 only strictly better candidates are accepted; at probability 1 everything is accepted |
| RandomAccept.RunVerdicts | alns/accept/RandomAccept.py:75-86 | call i compares its draw with the probability after i updates |
| RandomAccept.Run | alns/accept/RandomAccept.py:75-86 | a successful run gives one verdict per call |
| RandomAccept.RunFinal | alns/accept/RandomAccept.py:82-84 | after a run, the probability is the start advanced once per call |
| RandomAccept.LinearExample | alns/accept/RandomAccept.py:75-86 | the linear schedule 1, 0.9, …: five acceptances, then a rejection |
| RandomAccept.ExponentialExample | alns/accept/RandomAccept.py:75-86 | the exponential schedule 1, 0.5, 0.25, …: three acceptances, then a rejection |
| WorseAccept.New | alns/accept/WorseAccept.py:38-52 | the same validation as RandomAccept |
| WorseAccept.Accept | alns/accept/WorseAccept.py:70-81 | the improve-or-draw verdict, and which calls consume a draw |
| WorseAccept.SameAsRandomAccept | alns/accept/WorseAccept.py:38-81 | the duplicate class agrees with RandomAccept on construction and on every call |
| LateAcceptanceHillClimbing.New | alns/accept/LateAcceptanceHillClimbing.py:43-50 | a negative look-back is rejected; the history starts empty |
| LateAcceptanceHillClimbing.Accept | alns/accept/LateAcceptanceHillClimbing.py:64-79 | first call: record current, accept iff strictly better. Later calls: accept iff below the oldest entry, or below current when greedy; then record current, or min(current, oldest) with better history |
| LateAcceptanceHillClimbing.ZeroLookbackIsHillClimbing | alns/accept/LateAcceptanceHillClimbing.py:50-67 | with look-back 0 every call is strict hill climbing and changes nothing |
| LateAcceptanceHillClimbing.BetterHistoryStoresMinimum | alns/accept/LateAcceptanceHillClimbing.py:74-75 | the stored value is the smaller of the current objective and the oldest entry |
| LateAcceptanceHillClimbing.Run | alns/accept/LateAcceptanceHillClimbing.py:64-79 | successive calls keep the history within its bound |
| LateAcceptanceHillClimbing.PlainHistoryIsWindow | alns/accept/LateAcceptanceHillClimbing.py:50-77 | without better history the deque holds exactly the last look-back current objectives |
| LateAcceptanceHillClimbing.FullExample | alns/accept/LateAcceptanceHillClimbing.py:64-79 | greedy with better history, look-back 1: three acceptances, then a rejection |
| LateAcceptanceHillClimbing.BetterHistoryExample | alns/accept/LateAcceptanceHillClimbing.py:74-75 | a recorded 1 is kept when current 2 does not improve it |
| Deque.Append | alns/accept/LateAcceptanceHillClimbing.py:50-77 | appending to a bounded deque leaves the newest maxlen elements, with the new one last |
| Deque.AppendAllIsWindow | alns/accept/MovingAverageThreshold.py:51-66 | a bounded deque always holds the newest maxlen elements of everything appended |
| Deque.AppendAll | alns/accept/MovingAverageThreshold.py:51-66 | repeated appends never exceed the bound |
| MovingAverageThreshold.New | alns/accept/MovingAverageThreshold.py:43-51 | eta outside [0, 1] and non-positive gamma are rejected, in that order; the history starts empty |
| MovingAverageThreshold.ThresholdBounds | alns/accept/MovingAverageThreshold.py:67-70 | the threshold lies between the window minimum and the window mean |
| MovingAverageThreshold.Accept | alns/accept/MovingAverageThreshold.py:65-71 | the candidate is appended first; accepted iff it is at most min + eta·(mean − min) of the window |
| MovingAverageThreshold.AcceptsWindowMinimum | alns/accept/MovingAverageThreshold.py:65-71 | a candidate no worse than every stored value is accepted |
| MovingAverageThreshold.GammaOneAcceptsAll | alns/accept/MovingAverageThreshold.py:65-71 | with a window of one, every candidate is accepted |
| MovingAverageThreshold.RunHistory | alns/accept/MovingAverageThreshold.py:51-66 | after a run the window is exactly what the bounded deque holds once every candidate is appended, in order |
| MovingAverageThreshold.HistoryIsWindow | alns/accept/MovingAverageThreshold.py:51-66 | after a run the history is the last gamma candidates |
| MovingAverageThreshold.Run | alns/accept/MovingAverageThreshold.py:65-71 | successive calls keep the criterion valid and give one verdict per call |
| MovingAverageThreshold.ConsecutiveExample | alns/accept/MovingAverageThreshold.py:65-71 | candidates 7100, 7200, 7120 with eta 0.5, gamma 4 give accept, reject, accept |
| AdaptiveThreshold.New | alns/accept/AdaptiveThreshold.py:55-63 | the same validation as MovingAverageThreshold |
| AdaptiveThreshold.Accept | alns/accept/AdaptiveThreshold.py:77-82 | the same window update and min/mean threshold verdict |
| AdaptiveThreshold.SameAsMovingAverageThreshold | alns/accept/AdaptiveThreshold.py:55-82 | the two classes agree on construction and on every call |
| GreatDeluge.New | alns/accept/GreatDeluge.py:39-45 | rejects alpha ≤ 1 or beta outside (0, 1); the level starts unset |
| GreatDeluge.Accept | alns/accept/GreatDeluge.py:55-64 | the level is set to alpha·best on the first call; accepted iff the candidate is strictly below the level; the new level is the beta-convex mix of level and candidate |
| GreatDeluge.LevelMoves | alns/accept/GreatDeluge.py:59-62 | the new level lies between the old level and the candidate |
| GreatDeluge.LaterBestIgnored | alns/accept/GreatDeluge.py:56-57 | once the level is set, the best solution plays no part |
| GreatDeluge.OnlyFirstBestMatters | alns/accept/GreatDeluge.py:55-64 | two runs with the same candidates and the same first best give the same verdicts and levels |
| GreatDeluge.Run | alns/accept/GreatDeluge.py:55-64 | successive calls keep the criterion valid, give one verdict per call, and set the level on the first call |
| GreatDeluge.Example | alns/accept/GreatDeluge.py:55-64 | from best 0: candidate 1 is rejected and the level becomes 0.01; candidate 0 is then accepted |
| NonLinearGreatDeluge.New | alns/accept/NonLinearGreatDeluge.py:47-54 | the great-deluge checks first, then non-positive gamma or delta is rejected |
| NonLinearGreatDeluge.NextLevel | alns/accept/NonLinearGreatDeluge.py:81-100 | fails exactly for a zero level. Below the relative gap beta the level rises by gamma·|cand − level|; otherwise it becomes level·exp(−delta·best) + best |
| NonLinearGreatDeluge.Accept | alns/accept/NonLinearGreatDeluge.py:64-79 | a first call with best 0 raises; accepted iff the candidate is below the level or below current; the level is recomputed |
| NonLinearGreatDeluge.AcceptsImprovement | alns/accept/NonLinearGreatDeluge.py:73-75 | a candidate better than the current solution is always accepted |
| NonLinearGreatDeluge.LoweredLevelAboveBest | alns/accept/NonLinearGreatDeluge.py:96-98 | the lowered level stays strictly above a non-negative best |
| NonLinearGreatDeluge.ConsecutiveExample | alns/accept/NonLinearGreatDeluge.py:64-100 | three calls with their verdicts and levels from the two update branches |
| NonLinearGreatDeluge.ZeroBestExample | alns/accept/NonLinearGreatDeluge.py:66-67 | a first call with best objective 0 raises |
| HillClimbing.Accept | alns/accept/HillClimbing.py:7-8 | accepts exactly the candidates no worse than the current solution |
| HillClimbing.IsZeroThresholdAcceptance | alns/accept/HillClimbing.py:7-8 | hill climbing agrees with threshold acceptance at threshold 0 |
| HillClimbing.TiesAndWorse | alns/accept/HillClimbing.py:8 | ties are accepted and worse candidates rejected, whatever the best |
| RandomWalk.Accept | alns/accept/RandomWalk.py:9-10 | every candidate is accepted |
| RandomWalk.IsCertainRandomAccept | alns/accept/RandomWalk.py:9-10 | random walk agrees with random accept at probability 1 |
| Outcomes.Index | alns/Outcome.py:11-14 | each outcome has an index below four into the score list |
| Outcomes.IndexInjective | alns/Outcome.py:11-14 | distinct outcomes select distinct scores |
| OperatorSelectionScheme.AtLeast2d | alns/select/OperatorSelectionScheme.py:33-35 | a scalar becomes a 1×1 matrix and a vector a single row |
| OperatorSelectionScheme.Ones | alns/select/OperatorSelectionScheme.py:37 | the default coupling allows every pair |
| OperatorSelectionScheme.FirstUncoupled | alns/select/OperatorSelectionScheme.py:116-119 | the first destroy operator without a coupled repair operator, if any |
| OperatorSelectionScheme.Validate | alns/select/OperatorSelectionScheme.py:103-120 | missing operators, then a coupling of the wrong shape reported with its shape, then the first destroy operator coupled with no repair operator (every earlier one is coupled); success gives a valid scheme |
| OperatorSelectionScheme.New | alns/select/OperatorSelectionScheme.py:27-43 | coerces the coupling argument or defaults to all-true, then validates |
| OperatorSelectionScheme.CheckScores | alns/select/RouletteWheel.py:73-78 | negative scores, then fewer than four scores, are rejected |
| OperatorSelectionScheme.DefaultCouplesEverything | alns/select/OperatorSelectionScheme.py:36-39 | without a coupling, construction succeeds iff both counts are positive, and every pair is allowed |
| OperatorSelectionScheme.VectorIsOneRow | alns/select/OperatorSelectionScheme.py:33-35 | a vector coupling fits exactly one destroy operator |
| OperatorSelectionScheme.RowsNeedACoupling | alns/select/OperatorSelectionScheme.py:115-120 | a destroy operator whose row is all false is reported by index |
| Sampling.Pick | alns/select/RouletteWheel.py:128-130 | fails iff the total weight is 0; otherwise the chosen index has positive weight and its cumulative interval contains draw·total |
| Sampling.PickUnique | alns/select/RouletteWheel.py:128-130 | at most one index's cumulative interval contains a given point |
| Sampling.PrefixMonotone | alns/select/RouletteWheel.py:129 | cumulative weights never decrease |
| Sampling.FlatNonzero | alns/select/RouletteWheel.py:133 | exactly the allowed repair indices, in increasing order |
| Sampling.SelectPair | alns/select/RouletteWheel.py:132-136 | the destroy index is the weighted pick of the destroy weights; the repair index is the weighted pick among the repair operators coupled with it; selection fails exactly when either pick has zero total weight; the pair is coupled and both weights are positive |
| Sampling.PositiveWeightsSelect | alns/select/RouletteWheel.py:128-136 | with positive weights and every row coupled, selection succeeds |
| RouletteWheel.New | alns/select/RouletteWheel.py:71-86 | scheme errors, then score errors, then decay outside [0, 1]; all weights start at one |
| RouletteWheel.Select | alns/select/RouletteWheel.py:104-136 | the pair is the weighted pick of a destroy operator, then of a coupled repair operator, on the wheel's weights; it fails exactly when either pick has zero total weight; the pair is coupled, in range and of positive weight |
| RouletteWheel.FreshWheelSelects | alns/select/RouletteWheel.py:128-136 | a freshly built wheel always selects |
| RouletteWheel.Update | alns/select/RouletteWheel.py:138-143 | only the two used weights move, each to decay·w + (1 − decay)·score, which lies between w and the score; the rest are unchanged |
| RouletteWheel.BlendBetween | alns/select/RouletteWheel.py:139-143 | the blended weight lies between the old weight and the score |
| RouletteWheel.DecayExtremes | alns/select/RouletteWheel.py:138-143 | decay 1 freezes the weights; decay 0 replaces them by the score |
| SegmentedRouletteWheel.New | alns/select/SegmentedRouletteWheel.py:67-75 | the roulette-wheel checks, then seg_length < 1; segments start at zero |
| SegmentedRouletteWheel.BlendAll | alns/select/SegmentedRouletteWheel.py:87-91 | every weight is blended with its segment total and stays non-negative |
| SegmentedRouletteWheel.Advance | alns/select/SegmentedRouletteWheel.py:82-93 | the counter advances; every seg_length-th call folds the segments into the weights and clears them, and other calls change nothing else |
| SegmentedRouletteWheel.Select | alns/select/SegmentedRouletteWheel.py:81-95 | the roulette-wheel selection on the wheel after the segment step |
| SegmentedRouletteWheel.Update | alns/select/SegmentedRouletteWheel.py:97-99 | only the two used segment totals grow, by the outcome's score; the weights are untouched |
| SegmentedRouletteWheel.UpdateThenCallExample | alns/select/SegmentedRouletteWheel.py:81-99 | with segment length 1, a BETTER update followed by a call moves the weight to 2 |
| AlphaUCB.New | alns/select/AlphaUCB.py:72-89 | scheme errors, then alpha outside [0, 1], then score errors; averages start at one and counts at zero |
| AlphaUCB.FirstArgMax | alns/select/AlphaUCB.py:115 | the first index of a maximal value |
| AlphaUCB.Select | alns/select/AlphaUCB.py:99-115 | the chosen pair is coupled, maximises average plus bonus, and beats every earlier pair in row-major order |
| AlphaUCB.BonusNonNegative | alns/select/AlphaUCB.py:107-110 | an allowed pair is valued at least 0, so it beats every disallowed pair (valued −1) |
| AlphaUCB.Update | alns/select/AlphaUCB.py:133-139 | only the used pair's average and count change; the iteration count rises by one |
| AlphaUCB.RefitNonNegative | alns/select/AlphaUCB.py:135 | the running average stays non-negative |
| AlphaUCB.RefitIsMean | alns/select/AlphaUCB.py:133-137 | the running average from count 0 is the mean of the rewards seen |
| AlphaUCB.ArmAverageIsMean | alns/select/AlphaUCB.py:133-139 | after k updates of one fresh pair its count is k and its average is the mean of the k scores |
| AlphaUCB.UpdateAll | alns/select/AlphaUCB.py:133-139 | repeated updates keep the bandit valid and leave the scheme and scores alone |
| MABSelector.NatToString | alns/select/MABSelector.py:175 | the decimal spelling: digits only, no leading zero |
| MABSelector.DigitsRoundTrip | alns/select/MABSelector.py:175-191 | int() of the decimal spelling gives back the number |
| MABSelector.ParseInt | alns/select/MABSelector.py:191 | a digit string gives its value; anything accepted is a signed digit string |
| MABSelector.Strip | alns/select/MABSelector.py:191 | the whitespace stripping of int(): never longer, and neither end is whitespace |
| MABSelector.IndexOf | alns/select/MABSelector.py:190 | the position of the first occurrence of a character |
| MABSelector.Arm2Ops | alns/select/MABSelector.py:178-191 | an arm without exactly one underscore raises; otherwise its two parts are parsed |
| MABSelector.ArmRoundTrip | alns/select/MABSelector.py:163-191 | arm2ops(ops2arm(d, r)) = (d, r) |
| MABSelector.ArmsDistinct | alns/select/MABSelector.py:163-175 | distinct pairs get distinct arm names |
| MABSelector.CoupledPairs | alns/select/MABSelector.py:95-138 | exactly the coupled pairs, each once, in row-major order |
| MABSelector.Arms | alns/select/MABSelector.py:95-100 | the arm names of the coupled pairs, in the same order |
| MABSelector.ArmsAreCoupled | alns/select/MABSelector.py:190-191 | every arm parses back to a coupled pair |
| MABSelector.New | alns/select/MABSelector.py:79-86 | scheme errors, then score errors; the bandit starts unfitted |
| MABSelector.SomePair | alns/select/MABSelector.py:138 | a valid scheme has at least one coupled pair to start from |
| MABSelector.ColdStart | alns/select/MABSelector.py:138-140 | the cold-start pick is a coupled pair |
| MABSelector.Update | alns/select/MABSelector.py:153-160 | the observation is the arm of (d, r) with the outcome's score, and the bandit is then fitted |
| RandomSelect.New | alns/select/RandomSelect.py:13-20 | non-positive counts are rejected |
| RandomSelect.Select | alns/select/RandomSelect.py:30-37 | the two independent draws are the indices, within range |
| RandomSelect.Update | alns/select/RandomSelect.py:39-40 | update changes nothing |
| RandomSelect.EveryPairReachable | alns/select/RandomSelect.py:34-35 | every pair, coupled or not, is selected by exactly one pair of draws |
| SelectionScheme.New | alns/select/SelectionScheme.py:25-102 | score errors, then missing operators; weights start at one |
| SelectionScheme.SelectOperators | alns/select/SelectionScheme.py:64-72 | the pair is the weighted pick of a destroy operator, then of a repair operator coupled under the given coupling; it fails exactly when either pick has zero total weight; the pair is coupled, in range and of positive weight |
| SelectionScheme.SameAsRouletteWheel | alns/select/SelectionScheme.py:64-72 | the same draw as the roulette wheel on the same weights |
| SelectionScheme.UncoupledRowFails | alns/select/SelectionScheme.py:69-70 | a destroy operator with no allowed repair operator makes the draw fail |
| MaxIterations.New | alns/stop/MaxIterations.py:12-17 | a negative maximum is rejected; the counter starts at 0 |
| MaxIterations.Stop | alns/stop/MaxIterations.py:23-26 | each call counts and answers whether the count exceeds the maximum |
| MaxIterations.RunAnswers | alns/stop/MaxIterations.py:23-26 | call i answers done + i + 1 > maximum, whatever best and current are |
| MaxIterations.Run | alns/stop/MaxIterations.py:23-26 | one answer per call; the maximum never changes |
| MaxIterations.FreshRun | alns/stop/MaxIterations.py:17-26 | from a fresh criterion the first `max` calls continue and every later call stops |
| NoImprovement.New | alns/stop/NoImprovement.py:18-24 | a negative limit is rejected; no target yet |
| NoImprovement.Stop | alns/stop/NoImprovement.py:30-37 | the first call, or a strictly better best, resets target and counter and continues; otherwise it counts and stops once the count exceeds the limit |
| NoImprovement.StopsUntilImprovement | alns/stop/NoImprovement.py:31-37 | once it says stop, it keeps saying stop until the best strictly improves |
| NoImprovement.Run | alns/stop/NoImprovement.py:30-37 | one answer per call; the limit never changes |
| NoImprovement.ConstantBestCounts | alns/stop/NoImprovement.py:36-37 | with the best at its target, call i answers counter + i + 1 > n |
| NoImprovement.ConstantBest | alns/stop/NoImprovement.py:30-37 | with a constant best, the first n + 1 calls continue and every later call stops |
| MaxRuntime.New | alns/stop/MaxRuntime.py:15-20 | a negative maximum is rejected; no start time yet |
| MaxRuntime.Stop | alns/stop/MaxRuntime.py:26-30 | the start is recorded on the first call only; answers whether strictly more than the maximum has elapsed |
| MaxRuntime.StartFixed | alns/stop/MaxRuntime.py:27-28 | later calls never move the start time |
| MaxRuntime.StaysStopped | alns/stop/MaxRuntime.py:26-30 | with a clock that does not run backwards, once it says stop every later call does |
| Statistics.New | alns/Statistics.py:13-17 | a new object has an empty trace |
| Statistics.CollectObjective | alns/Statistics.py:40-49 | the trace grows by one, ends with the value, and keeps what was there |
| Statistics.CollectAllAppends | alns/Statistics.py:40-49 | collecting values one by one appends exactly them, in order |
| Statistics.DestroyCounts | alns/Statistics.py:16 | an unseen operator's counts are four zeros, and reading enters it |
| Statistics.RepairCounts | alns/Statistics.py:17 | the same for repair operators |
| Statistics.CollectDestroyOperatorCount | alns/Statistics.py:57-61 | the collector changes nothing |
| Statistics.CollectRepairOperatorCount | alns/Statistics.py:51-55 | the collector changes nothing |
| CallbackMixin.New | alns/CallbackMixin.py:11-37 | no flag has a callback at first |
| CallbackMixin.OnBestSet | alns/CallbackMixin.py:13-26 | registers the function for ON_BEST, adding no other flag |
| CallbackMixin.Callback | alns/CallbackMixin.py:39-53 | defined only for a registered flag; registering what it returns again changes nothing |
| CallbackMixin.RegisteredIsReturned | alns/CallbackMixin.py:26-53 | after on_best(f), has_callback(ON_BEST) holds and callback(ON_BEST) is f |
| CallbackMixin.SecondReplacesFirst | alns/CallbackMixin.py:25-26 | a second on_best silently replaces the first and the map does not grow |
| Alns.Find | alns/ALNS.py:99 | the position of a registered name, or proof that it is absent |
| Alns.Put | alns/ALNS.py:99-116 | dictionary assignment: names stay unique; an existing name is replaced in place; a new name is appended; other entries are unchanged |
| Alns.AddDestroyOperator | alns/ALNS.py:84-99 | falls back to the function's name only when no name is given |
| Alns.AddRepairOperator | alns/ALNS.py:101-116 | falls back to the function's name when the name is missing or empty |
| Alns.ReplaceInPlace | alns/ALNS.py:99-116 | re-registering a name keeps the registry's size and position and stores the new operator |
| Alns.EmptyNameExample | alns/ALNS.py:99-116 | an empty name is kept for a destroy operator but replaced for a repair operator |
| Alns.EvalCand | alns/ALNS.py:222-259 | a strictly new best becomes best and current (after the callback) with BEST, whatever the verdict; otherwise accepted gives BETTER or ACCEPTED and makes it current, and rejected changes nothing |
| Alns.Step | alns/ALNS.py:182-201 | an iteration fails exactly when a selected index is outside its registry; otherwise it leaves the stopping criterion's state alone, the new best is the old best or the new current solution, the trace grows by the new current objective, and one update recording the selected pair is appended |
| Alns.StepKeepsInv | alns/ALNS.py:181-259 | an iteration keeps the invariant and the trace so far, and never raises the best objective when the callback never worsens |
| Alns.LoopStops | alns/ALNS.py:181-205 | when the criterion says stop, the loop returns at once with only the criterion's state changed |
| Alns.LoopContinues | alns/ALNS.py:181-201 | when the criterion says continue and the loop succeeds, one iteration led to a state that keeps the invariant, from which the loop succeeds with one unit of fuel less |
| Alns.FollowsStep | alns/ALNS.py:181-201 | one iteration followed by at most fuel − 1 more is at most fuel iterations, and the trace prefix and best-objective bound carry over |
| Alns.LoopKeepsInv | alns/ALNS.py:181-201 | whatever state the loop returns satisfies the invariant, extends the trace it started from, made at most fuel iterations, and has a best objective no higher than at the start when the callback never worsens |
| Alns.Start | alns/ALNS.py:172-178 | best and current start as the initial solution, whose objective is the only trace entry |
| Alns.Iterate | alns/ALNS.py:169-205 | empty registries raise before any iteration; a finished run satisfies the invariant, its trace starts with the initial objective, it made at most fuel iterations, and when the callback never worsens its best never exceeds the initial objective |
| Alns.StopAtOnce | alns/ALNS.py:172-205 | a criterion that stops at once returns the initial solution with a one-entry trace and no updates |
| Alns.HillClimbingNeverWorsens | alns/ALNS.py:192-259 | under hill-climbing acceptance and a callback that never worsens, an iteration never raises the current objective |

## Findings

| source | as written | input that shows it | evidently intended | confidence | as-written member | corrected member |
|---|---|---|---|---|---|---|
| alns/accept/RandomAccept.py:49-50 | the step bound is checked only when the method is exactly `"exponential"`, while `update` lower-cases the name (`alns/accept/update.py:26`); `SimulatedAnnealing.py:75`, `RecordToRecordTravel.py:51` and `WorseAccept.py:44` make the same check | start 0.8, end 0, step 2, method `"Exponential"`: constructed, and one call raises the probability to 1.6 | the check made on `method.lower()`, so that every accepted schedule decays | high; not executed | RandomAccept.MixedCaseProbabilityGrows | Decay.CheckedScheduleDecays |

The as-written constructors are modelled as they are. `Decay.MixedCaseStepGrows`
shows the same escape at the level of the shared schedule. The properties about
decay (`Decay.AdvanceDecays`, `RandomAccept.ProbabilityBounds`) require a decaying
schedule. `Decay.CheckedScheduleDecays` shows that this is exactly what the
case-insensitive step check `Decay.StepCheck` guarantees.

## Left out

- Random numbers: every numpy draw (`random`, `random_sample`, `choice`,
  `randint`) is an explicit argument, and the generator's state is not
  modelled. In the search loop, randomness lives inside the component states.
- Floating point: objectives, weights and thresholds are exact reals.
  `exp`, `log`, `sqrt` and `pow` are function parameters. Each is assumed
  to have only the properties its predicate in `Numerics` states.
- MABWiser (the external bandit library): `MAB` construction, `predict`,
  `partial_fit` and the import-availability check are foreign calls. The
  model keeps the arm names, the validation, the cold-start pick and the
  observation passed to `partial_fit`. It does not model the bandit's
  prediction, contexts or keyword arguments.
- The wall clock: `MaxRuntime` takes the clock readings as arguments.
- Runtime statistics: `ALNS.py` calls `collect_runtime`,
  `collect_destroy_operator` and `collect_repair_operator` on
  `Statistics`, and builds `Result(best, stats)`. The `Statistics.py` and
  `Result.py` of this version define none of these (lines 179, 199-201, 205
  against `alns/Statistics.py:40-61` and `alns/Result.py:6`). The loop
  records only the objective trace and returns its final state.
- The operator-selection call and update: `ALNS.py` calls
  `op_select(rnd_state)` and `op_select.update(d_idx, r_idx, outcome)`
  (lines 182 and 196). The scheme classes of this version take more
  arguments: `(rnd_state, best, curr)` and `(cand, d_idx, r_idx, outcome)`,
  as in `alns/select/RouletteWheel.py:104-138`. `Alns` therefore takes the
  scheme as an abstract `select`/`update` pair of functions in
  `Alns.Components`. It does not model either mismatched call.
- Logging, the `print` in `AlphaUCB.__call__`, and `show_versions`: output
  only.
- Keyword arguments passed through to operators and callbacks, and the
  random generator passed to operators and callbacks: operators are
  functions of the solution alone.
- Alns.Loop: the step bound `fuel` stands in for an unbounded `while`
  loop; running out of steps is reported as an error that Python never
  raises.
- Alns.Step: an index outside a registry is an error value. Python
  indexing would also accept negative indices, which the selection schemes
  never produce.
- UpdateRule.Lower: only ASCII letters are lower-cased. No other character
  lower-cases into the letters of "linear" or "exponential", so the verdict
  on a name is the same.
- MABSelector.ParseInt: accepts surrounding whitespace, an optional sign
  and ASCII digits. Python's `int()` also accepts Unicode digits and
  underscores between digits, which `ops2arm` never produces.
- MABSelector.ColdStart: requires the draw to be below the number of
  coupled pairs, which is what `randint` guarantees.
- Sampling.Pick: requires non-negative weights, which every scheme
  maintains (non-negative scores, blends of non-negative values). numpy's
  own checks on negative probabilities are not modelled.
- OperatorSelectionScheme.New: a coupling argument is a scalar, a vector
  or a list of rows. A ragged list is reported as a shape error rather
  than numpy's own error.
- The selection schemes report errors as constructors of
  `SelectionError`, not as message strings. The messages are noted beside
  the constructors.
- The abstract bases (`AcceptanceCriterion`, `StoppingCriterion`,
  `OperatorSelectionScheme.__call__/update`, `SelectionScheme.update_weights`)
  are represented by the function-valued components of `Alns.Components`.
- `alns/Result.py` and `alns/CallbackFlag.py` are plain holders. They
  appear only as `Alns.Search` and `CallbackMixin.Flag`.
- Superseded modules that `ALNS.py` never imports: `alns/criteria`,
  `alns/weights`, `alns/weight_schemes`, `alns/stopping_criteria`,
  `alns/accept.py`, `alns/select/WeightScheme.py`,
  `alns/select/SimpleWeights.py`, `alns/Weights.py`,
  `alns/AdaptiveStrategy.py`, `alns/select_operator.py`, the
  `WeigthIndex` enums. Several of them cannot run in this version.
- Property getters: each returns a field of the record.
