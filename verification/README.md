# Verified models of Autoware core algorithms

A Dafny 4.11 model of the algorithmic core of four Autoware packages, with `double` taken as an exact real:

- the Kalman filter and the time-delay Kalman filter that runs it on a stack of past states without forming the
  augmented matrices, and the table of slot ages that the EKF localizer keeps beside it;
- the natural cubic spline built on the Thomas algorithm, its evaluation and key validation, and the Akima spline;
- nearest-lanelet search, by plain scan and by an R-tree over bounding boxes;
- enumeration of lanelet sequences on a cyclic routing graph, and route following.

`dafny verify dfyconfig.toml` checks the whole project.

## How it is organised

| files | what they hold |
|---|---|
| `Wrappers`, `Searching`, `RealArithmetic`, `RealSum` | outcomes, `std::lower_bound`, facts about reals, finite sums |
| `Matrices`, `Covariance` | matrices with symbolic dimensions, their algebra, symmetric positive semidefinite matrices |
| `KalmanFilter` | the dense filter: Joseph form, optimality of the gain |
| `DefiniteSystems` | definite systems have one solution, so a solver with the assumed contract exists |
| `AugmentedModel`, `TimeDelayKalmanFilter` | the block operations, their refinement of the dense filter, whole runs, the filter object |
| `DelayTable`, `EkfLocalizer` | slot ages and slot choice over every run, the localizer object, its runs as runs of the filter |
| `SlotWindow` | fewer slots hold what the leading slots of more hold |
| `Tridiagonal`, `Spline`, `SplineInterpolation`, `Akima` | the solver, the natural spline and its uniqueness, the spline object, the Akima spline |
| `NearestLanelet`, `LaneletRTree` | what the closest lanelet is, the scans, the pruned searches |
| `LaneletSequences`, `RouteManager` | paths ahead and behind, walks along a route, the route manager |

Code that overwrites fields or fills vectors in the source is a class with fields, or a method with loops, proved
against a specification; the properties are then lemmas about the specification.

## What stands for code outside the model

- The Eigen LLT solve is a function parameter `solve` with the contract `IsLltSolver`: on a symmetric matrix it succeeds
  exactly when the matrix is positive definite, and then returns a solution of the system. `DefiniteSystems` proves that
  such a solver exists.
- The R-tree queries are an `Index`: the k nearest boxes in ascending order of box distance, and the boxes that meet a
  square, in any order. `std::sort` is a function that returns some ascending permutation.
- Lanelet geometry is a `Lanelet` record of what is seen from the pose. Polygons lie in their boxes, so a box is never
  farther than its polygon; the distance to a box is computed from its offsets along the axes; inside means distance zero.
- The motion model, the Mahalanobis verdict, the reading of a measured yaw against the slot's yaw, the arc coordinate of
  the pose and the lanelet lengths are parameters.
- `std::numeric_limits<double>::max()` as a starting minimum is an absent value.
- Comparisons with `numeric_limits::epsilon` in the searches are exact equality. The tolerance of 1e-4 of the R-tree
  search and the 1e-5 of the Akima weights are modelled as they are.

## What the proofs found

- Dense `predict` does not check that the transition matrix is square. The contract of
  `KalmanFilters.KalmanFilter.Predict` says that state and covariance still fit together if and only if it is (and the
  new state is one column).
- `validateKeys` crops the first and the last query only. `SplineObject.CropExactly` gives the exact condition under
  which all validated keys lie in the base range; `SplineObject.CropLeavesSecondOutside` is an input, within the allowed
  1e-3, for which a key stays outside. Under the same condition, and only then, the validated keys are still sorted.
- `splineByAkima` does not check the order of its query keys. `Akima.CursorInAnyOrder` says when unsorted queries are still
  evaluated in the right pieces; `Akima.UnsortedQueryMisplaced` is an input for which they are not.
- The first tick predicts a slot but ages nothing, so that slot's age never enters the table. `DelayTable.FirstSlotIsMissed`
  is an input for which the wrong slot is corrected, `DelayTable.ChosenSlotIsNearest` the exact condition under which the
  right one is. While that slot is in the filter no delay up to 1e15 s is rejected (`DelayTable.GateRejectsExactly`).
- An entry of the table is the age of its slot if and only if no step since then exceeded the cap of 10 s, for the slots
  predicted since the last initial pose and since the last tick that did not age the table (`DelayTable.TableIsAge`;
  `DelayTable.LongStepIsCut` is an input).
- A new initial pose rewrites the slots and keeps the table, so entries go on giving ages to slots that hold no prediction.
  `DelayTable.EntriesWithoutPrediction` says exactly which; `DelayTable.InitializeLeavesAges` is an input.
- A jump back shifts the slots and not the table. In one activation with no tick more than 10 s after the one before, an
  entry in reach, of a slot predicted since the last initial pose, is the age of the slot if and only if the clock has not
  jumped back since the slot was predicted, and too large otherwise (`DelayTable.TableIsAgeUpToJump`;
  `DelayTable.JumpBackMisaligns` is an input). With longer steps the cap may happen to cancel a jump:
  `DelayTable.CapMayHideJump`.
- The outward sequence may have less ahead of ego than the one on the route, though it may use more lanelets:
  `Routes.RouteManager.OutwardReachesFurtherAhead` has the condition, `Routes.OutwardMayFallShort` an input.
- The route manager should have the current lanelet closest to the pose. After an update that need not be so even among
  the neighbours: `Routes.MoveGivesClosest` has the condition, `Routes.UpdateMayLeaveClosest` an input.
- The header of the spline describes coefficient i as `a_i + b_i t + c_i t^2 + d_i t^3`; in the code `a` is the cubic
  coefficient and `d` the value. The model follows the code.
- `update_current_pose` says that it can only fail when there are no neighbours or ego has jumped. There always is a
  neighbour, the current lanelet; it fails just when no neighbour is within the thresholds and several tie as closest
  without a centerline segment (`Routes.RouteManager.UpdateCurrentPose`, and `Routes.UpdateMayFail` for an input).

## Model

| member | source | states |
|---|---|---|
| KalmanFilters.KalmanFilter.Predict | common/autoware_kalman_filter/src/kalman_filter.cpp:93-108 | accepted exactly when the dimensions pass the check; then x is xNext and P is A P A' + Q, otherwise nothing changes; the shapes stay consistent exactly for a square A |
| KalmanFilters.NonSquareTransitionAccepted | common/autoware_kalman_filter/src/kalman_filter.cpp:93-108 | an input: a 2 x 1 transition passes the check, and state and covariance no longer fit together |
| KalmanFilters.KalmanFilter.UpdateWithPrediction | common/autoware_kalman_filter/src/kalman_filter.cpp:129-163 | accepted exactly when the dimensions fit and the decomposition succeeds; the new state is the corrected estimate, a rejected update changes nothing |
| KalmanFilters.KalmanFilter.Update | common/autoware_kalman_filter/src/kalman_filter.cpp:165-173 | the same with the predicted measurement C x |
| KalmanFilters.JosephForm | common/autoware_kalman_filter/src/kalman_filter.cpp:138-161 | for symmetric P and R the covariance P - K C P equals (I - K C) P (I - K C)' + K R K' |
| KalmanFilters.GainIsOptimal | common/autoware_kalman_filter/src/kalman_filter.cpp:144-161 | the error covariance of any other gain L is the filter's plus (L - K) S (L - K)' |
| KalmanFilters.GainBeatsEveryOther | common/autoware_kalman_filter/src/kalman_filter.cpp:144-161 | no gain whatever leaves less error covariance than the Kalman gain |
| KalmanFilters.GainKeepsCovariance | common/autoware_kalman_filter/src/kalman_filter.cpp:159-161 | the corrected covariance is symmetric positive semidefinite and no larger than before |
| KalmanFilters.GainIdentities | common/autoware_kalman_filter/src/kalman_filter.cpp:140-153 | the solved gain satisfies K S = P C' and K C P = K S K' |
| KalmanFilters.SolvedGain | common/autoware_kalman_filter/src/kalman_filter.cpp:138-153 | what the solve returns, transposed, is the Kalman gain, and for definite noise the solve never fails |
| KalmanFilters.CorrectedIsOptimal | common/autoware_kalman_filter/src/kalman_filter.cpp:129-163 | one update in full: Joseph form, covariance, no larger than before, better than any gain, never rejected for definite noise |
| KalmanFilters.CorrectedMeans | common/autoware_kalman_filter/src/kalman_filter.cpp:129-163 | for any predicted measurement the state gains K (y - y_pred) and the covariance loses K C P, with K S = P C' and S = R + C P C' |
| DefiniteSystems.DefiniteSolvable | common/autoware_kalman_filter/src/kalman_filter.cpp:142-151 | every system with a symmetric positive definite matrix has a solution |
| DefiniteSystems.DefiniteUnique | common/autoware_kalman_filter/src/kalman_filter.cpp:142-151 | and only one |
| DefiniteSystems.LltSolverExists | common/autoware_kalman_filter/src/kalman_filter.cpp:142-151 | a solver with the contract that all filter results rest on exists |
| AugmentedModel.ShiftIsDensePrediction | common/autoware_kalman_filter/src/time_delay_kalman_filter.cpp:68-82 | the block shift of the covariance is A_ex P A_ex' + Q_ex for every number of blocks, one included |
| AugmentedModel.ShiftedStateIsAugmented | common/autoware_kalman_filter/src/time_delay_kalman_filter.cpp:70-74 | the shifted state is A_ex x plus x_next - A x on the newest block |
| AugmentedModel.MeasurementSelects | common/autoware_kalman_filter/src/time_delay_kalman_filter.cpp:130-140 | multiplying by C_ex needs only the delayed block of rows |
| AugmentedModel.MeasurementSelectsColumns | common/autoware_kalman_filter/src/time_delay_kalman_filter.cpp:161-171 | P C_ex' needs only the delayed block of columns |
| AugmentedModel.InnovationSelects | common/autoware_kalman_filter/src/time_delay_kalman_filter.cpp:142-159 | C_ex P C_ex' + R needs only the diagonal block of the delayed state |
| AugmentedModel.DelayedIsDenseCorrection | common/autoware_kalman_filter/src/time_delay_kalman_filter.cpp:124-207 | for symmetric P and R the block update gives the state and covariance of the dense update with C_ex, or fails with it |
| AugmentedModel.DiagonalBlockCovariance | common/autoware_kalman_filter/src/time_delay_kalman_filter.cpp:46-49 | a diagonal block of a covariance, the latest P for one, is a covariance |
| AugmentedModel.PlacedCovariance | common/autoware_kalman_filter/src/time_delay_kalman_filter.cpp:34-38 | a covariance placed on the diagonal of a zero matrix is a covariance |
| TimeDelayFilter.InitialSlots | common/autoware_kalman_filter/src/time_delay_kalman_filter.cpp:24-39 | after init every slot holds x with covariance P0 and different slots are uncorrelated |
| TimeDelayFilter.BlockDiagonalCovariance | common/autoware_kalman_filter/src/time_delay_kalman_filter.cpp:31-38 | the initial stacked covariance is symmetric positive semidefinite |
| TimeDelayFilter.PredictionIsDense | common/autoware_kalman_filter/src/time_delay_kalman_filter.cpp:51-85 | a prediction is the dense prediction on the augmented matrices, whatever the covariance |
| TimeDelayFilter.StepIsDense | common/autoware_kalman_filter/src/time_delay_kalman_filter.cpp:51-210 | every command has the effect of the dense filter on the augmented matrices |
| TimeDelayFilter.StepKeepsCovariance | common/autoware_kalman_filter/src/time_delay_kalman_filter.cpp:51-210 | every command keeps the covariance symmetric positive semidefinite, and a correction does not enlarge it |
| TimeDelayFilter.CorrectionShrinks | common/autoware_kalman_filter/src/time_delay_kalman_filter.cpp:87-210 | a correction, accepted or not, does not enlarge the covariance; with definite noise and fitting dimensions it is carried out at every valid slot |
| TimeDelayFilter.RunFromCovariance | common/autoware_kalman_filter/src/time_delay_kalman_filter.cpp:51-210 | any run from a covariance equals the dense run and ends in a covariance |
| TimeDelayFilter.RunIsDenseAndKeepsCovariance | common/autoware_kalman_filter/src/time_delay_kalman_filter.cpp:24-210 | after init and any sequence of commands, for any state size and number of slots, the filter equals the dense filter and its covariance is symmetric positive semidefinite |
| TimeDelayFilter.ShiftMovesState | common/autoware_kalman_filter/src/time_delay_kalman_filter.cpp:70-74 | a prediction puts x_next in slot 0 and moves every other slot down by one |
| TimeDelayFilter.ShiftMovesCovariance | common/autoware_kalman_filter/src/time_delay_kalman_filter.cpp:77-82 | the covariance between two slots moves with them |
| TimeDelayFilter.CorrectAdds | common/autoware_kalman_filter/src/time_delay_kalman_filter.cpp:124-207 | a correction adds to the state in every slot the gain of that slot times the innovation of the delayed slot, and takes the matching product off every block of the covariance; a rejected one does nothing |
| TimeDelayFilter.CorrectionCarriedOut | common/autoware_kalman_filter/src/time_delay_kalman_filter.cpp:87-210 | for covariances and definite noise every measurement of fitting dimensions is carried out at every slot d, the newest included: slot b gains k (y - C x_d) with S k' = (P_bd C')', and the covariance of any slot with b loses P_xd C' k' |
| TimeDelayFilter.AcceptedExactly | common/autoware_kalman_filter/src/time_delay_kalman_filter.cpp:91-122 | what is accepted, every condition written out: nothing else is, all of it is when the noise is definite, and then every slot learns |
| TimeDelayFilter.SlotGainSolves | common/autoware_kalman_filter/src/time_delay_kalman_filter.cpp:173-195 | the gain k of slot b for a measurement of slot d solves S k' = (P_bd C')', with S the innovation covariance of slot d |
| TimeDelayFilter.SlotIsTraced | common/autoware_kalman_filter/src/time_delay_kalman_filter.cpp:51-210 | after any commands slot i holds the state of the prediction with i predictions after it, plus gain times innovation for every correction since, taken at the slot the state was in |
| TimeDelayFilter.SlotHoldsItsPrediction | common/autoware_kalman_filter/src/time_delay_kalman_filter.cpp:51-85 | with no correction since, slot i holds just the state of the prediction with i predictions after it |
| TimeDelayFilter.TimeDelayKalmanFilter.Init | common/autoware_kalman_filter/src/time_delay_kalman_filter.cpp:24-39 | the loop builds the stacked state and block-diagonal covariance |
| TimeDelayFilter.TimeDelayKalmanFilter.GetLatestX | common/autoware_kalman_filter/src/time_delay_kalman_filter.cpp:41-44 | the newest block of the state |
| TimeDelayFilter.TimeDelayKalmanFilter.GetLatestP | common/autoware_kalman_filter/src/time_delay_kalman_filter.cpp:46-49 | the newest diagonal block, a covariance whenever P is one |
| TimeDelayFilter.TimeDelayKalmanFilter.PredictWithDelay | common/autoware_kalman_filter/src/time_delay_kalman_filter.cpp:51-85 | always succeeds, slides state and covariance, keeps the dimensions |
| TimeDelayFilter.TimeDelayKalmanFilter.SlideState | common/autoware_kalman_filter/src/time_delay_kalman_filter.cpp:70-74 | the block assignments to x build the shifted state |
| TimeDelayFilter.TimeDelayKalmanFilter.SlideCovariance | common/autoware_kalman_filter/src/time_delay_kalman_filter.cpp:76-82 | the four block assignments to P build A_ex P A_ex' + Q_ex |
| TimeDelayFilter.TimeDelayKalmanFilter.UpdateWithDelay | common/autoware_kalman_filter/src/time_delay_kalman_filter.cpp:87-210 | true exactly when the slot is valid, the dimensions fit and the decomposition succeeds, always so for covariances and definite noise; then every slot gains its gain times the innovation of the delayed slot, and otherwise nothing changes |
| DelayTable.ClosestIndex | localization/autoware_ekf_localizer/src/ekf_localizer.cpp:479-513 | the table size exactly when the target exceeds the last entry or the table is empty, otherwise an index whose entry minimises the distance to the target |
| DelayTable.TiesOfClosestIndex | localization/autoware_ekf_localizer/src/ekf_localizer.cpp:494-512 | of two neighbours as close to the target the later one is taken, of equal entries the first not below the target or the last below it |
| DelayTable.TableStaysSorted | localization/autoware_ekf_localizer/src/ekf_localizer.cpp:233-249 | over every run of activations, initial poses, ticks forward and back, and measurements the table stays nondecreasing and nonnegative |
| DelayTable.HistoryIsConsistent | localization/autoware_ekf_localizer/src/ekf_localizer.cpp:135-258 | over every such run: an entry below the number of agings lies between 0 and 10 s a slot, the others are at least 1e15; and for a slot predicted since the initial pose and since the last tick that did not age the table, the entry is the capped time since the tick that predicted it |
| DelayTable.CountedIsElapsed | localization/autoware_ekf_localizer/src/ekf_localizer.cpp:238-245 | capped time is at most the elapsed time, and equal to it if and only if no step exceeded 10 s |
| DelayTable.TableCountsTime | localization/autoware_ekf_localizer/src/ekf_localizer.cpp:515-527 | in a first run, after k agings entry i below k is the capped time since the tick that predicted slot i, and every later entry is 1e15 plus all the capped time |
| DelayTable.TableIsAge | localization/autoware_ekf_localizer/src/ekf_localizer.cpp:233-258 | over every run, for those slots: entry i is the time from the tick that predicted slot i to the last tick if and only if no step since exceeded 10 s; the slot of the first tick ever has an entry beyond reach |
| DelayTable.TableIsAgeUpToJump | localization/autoware_ekf_localizer/src/ekf_localizer.cpp:233-258 | in one activation, jumps back and new initial poses included, with no tick more than 10 s after the one before: an entry in reach of a predicted slot is its age if and only if no jump back lies in between, and larger otherwise |
| DelayTable.LongStepIsCut | localization/autoware_ekf_localizer/src/ekf_localizer.cpp:238-245 | an input: after a step of 20 s entry 1 is 10 s and slot 1 is 20 s old |
| DelayTable.CapMayHideJump | localization/autoware_ekf_localizer/src/ekf_localizer.cpp:234-249 | an input: a step of 20 s and a jump back of 9 s cancel, and the entry is the age across the jump |
| DelayTable.EntriesWithoutPrediction | localization/autoware_ekf_localizer/src/ekf_localizer.cpp:374-413 | over every run: an entry in reach belongs to a slot that holds an initial pose if and only if its index is at least the ticks since that pose and below the number of agings |
| DelayTable.InitializeLeavesAges | localization/autoware_ekf_localizer/src/ekf_localizer.cpp:374-413 | an input: after a second initial pose the table gives slot 1 the age 1 s of the prediction that the pose replaced |
| DelayTable.JumpBackMisaligns | localization/autoware_ekf_localizer/src/ekf_localizer.cpp:234-249 | an input: after a jump back entry 1 is 1 s for a slot predicted 6 s later than slot 0 |
| DelayTable.QuietStart | localization/autoware_ekf_localizer/src/ekf_localizer.cpp:174-176 | until the first tick of a running localizer, activations, deactivations, initial poses and ignored ticks in any order leave the table and the slots as constructed |
| DelayTable.FirstActivation | localization/autoware_ekf_localizer/src/ekf_localizer.cpp:233-258 | after that, forward ticks and measurements give a first run: after k + 1 ticks k agings, and slot i predicted at the i-th last tick |
| DelayTable.OnlyReachedSlotsAreChosen | localization/autoware_ekf_localizer/src/ekf_localizer.cpp:479-513 | over every run with an aging: a delay below 5e14 s never gets a slot whose entry is beyond reach, so never that of the first tick |
| DelayTable.ChosenSlotIsNearest | localization/autoware_ekf_localizer/src/ekf_localizer.cpp:479-527 | in a first run whose first tick still has its slot k: the chosen slot is nearest in age among slots 0 to k - 1; among 0 to k if and only if twice the delay is at most the sum of the ages of slots k - 1 and k, or these are equal |
| DelayTable.ChosenSlotIsNearestOfAll | localization/autoware_ekf_localizer/src/ekf_localizer.cpp:479-527 | once the first tick has lost its slot, a delay that passes the gate gets the slot nearest in age of all |
| DelayTable.GateRejectsExactly | localization/autoware_ekf_localizer/src/ekf_localizer.cpp:573-579 | in a first run a delay up to 1e15 s is rejected if and only if the first tick has lost its slot and the delay exceeds the age of the oldest slot |
| DelayTable.FirstSlotIsMissed | localization/autoware_ekf_localizer/src/ekf_localizer.cpp:479-527 | an input: two ticks 10 s apart, and a measurement 10 s old is given to the slot of age 0 although the other is 10 s old |
| Ekf.RunIsFilterRun | localization/autoware_ekf_localizer/src/ekf_localizer.cpp:159-258 | over every run the filter holds what the commands issued since the last initial pose make of that pose |
| Ekf.TicksPredict | localization/autoware_ekf_localizer/src/ekf_localizer.cpp:529-542 | every tick of a running localizer issues one prediction, jumps back and first ticks included |
| Ekf.SlotHoldsItsTick | localization/autoware_ekf_localizer/src/ekf_localizer.cpp:529-542 | over every run: slot i was predicted by the tick with i ticks after it, and holds just the state that tick predicted when no correction came after |
| Ekf.StateIsPredictedByItsStep | localization/autoware_ekf_localizer/src/ekf_localizer.cpp:233-258 | over every run: a tick that aged the table predicted its state by the model, from the newest state before it, at the time since the tick before, or at 10 s when that is longer |
| Ekf.NoStepBeforeAging | localization/autoware_ekf_localizer/src/ekf_localizer.cpp:49-54 | until a tick has aged the table the model is run at time step zero |
| Ekf.SlotIsTraced | localization/autoware_ekf_localizer/src/ekf_localizer.cpp:529-542 | over every run, corrections included: slot i holds the state its tick predicted plus, for every correction since, the gain of the slot the state was in times the innovation |
| Ekf.TableAgesTheSlots | localization/autoware_ekf_localizer/src/ekf_localizer.cpp:233-258 | over every run: the entry of a slot is the last tick minus the tick that predicted the state in that slot of the filter if and only if no step since exceeded 10 s |
| Ekf.TableAgesUpToJump | localization/autoware_ekf_localizer/src/ekf_localizer.cpp:233-258 | in one activation with no tick more than 10 s after the one before: the entry is the last tick minus the tick that predicted the state in that slot of the filter if and only if the clock did not jump back in between |
| Ekf.CorrectsNearestState | localization/autoware_ekf_localizer/src/ekf_localizer.cpp:544-579 | in a first run with steps of at most 10 s, a measurement used at the last tick corrects a state predicted as near to its time as any state kept but that of the first tick |
| Ekf.RunIsDenseAndKeepsCovariance | localization/autoware_ekf_localizer/src/ekf_localizer.cpp:159-372 | over every run of activations, initial poses, ticks and measurements with covariances as noise, the filter equals the dense filter on the augmented matrices and its covariance is symmetric positive semidefinite |
| Ekf.EkfLocalizer.constructor | localization/autoware_ekf_localizer/src/ekf_localizer.cpp:49-71 | the table starts with every age unreached, the filter with the given state in every slot |
| Ekf.EkfLocalizer.Activate | localization/autoware_ekf_localizer/src/ekf_localizer.cpp:135-157 | activation forgets the last tick, deactivation the initial pose; table and slots are kept |
| Ekf.EkfLocalizer.Initialize | localization/autoware_ekf_localizer/src/ekf_localizer.cpp:374-414 | the filter restarts from the given state, no slot holds a prediction, the table is kept |
| Ekf.EkfLocalizer.ShiftAges | localization/autoware_ekf_localizer/src/ekf_localizer.cpp:517-520 | every age moves one slot on |
| Ekf.EkfLocalizer.AccumulateDelayTime | localization/autoware_ekf_localizer/src/ekf_localizer.cpp:515-527 | in place: a zero in front, every other age one slot on and dt older |
| Ekf.EkfLocalizer.AdvanceClock | localization/autoware_ekf_localizer/src/ekf_localizer.cpp:233-249 | on a tick not before the last one the time step is the time since, at most 10 s, and the table shifts and ages by it; on the first tick and after a jump back step and table stay |
| Ekf.EkfLocalizer.PredictWithDelay | localization/autoware_ekf_localizer/src/ekf_localizer.cpp:529-542 | the filter shifts by the motion model applied to the newest state |
| Ekf.EkfLocalizer.UpdateStep | localization/autoware_ekf_localizer/src/ekf_localizer.cpp:159-258 | nothing happens unless activated and initialised; otherwise the time step is the time since the last tick, at most 10 s, or the step before on a first tick or jump back; slot 0 gets the state the model predicts at that step and the time of the tick, every slot moves on by one, and the table ages as far as time went on |
| Ekf.EkfLocalizer.MeasurementUpdate | localization/autoware_ekf_localizer/src/ekf_localizer.cpp:544-643 | corrects the slot of the closest age, with the measurement read against the state in that slot, exactly when the delay does not exceed the last entry and the gate passes, and with fitting dimensions and definite noise every slot then learns from it; otherwise the filter is unchanged |
| SlotWindow.WindowOfStep | common/autoware_kalman_filter/src/time_delay_kalman_filter.cpp:51-210 | a command that does not correct a slot beyond the window does to the leading slots what it does in a filter that has only these |
| SlotWindow.WindowOfRun | common/autoware_kalman_filter/src/time_delay_kalman_filter.cpp:51-210 | over every run a filter with few slots holds the leading slots of one with more |
| SlotWindow.WindowOfSolution | common/autoware_kalman_filter/src/time_delay_kalman_filter.cpp:173-195 | the gain of the leading rows is the leading rows of the gain |
| SlotWindow.TableOfFew | localization/autoware_ekf_localizer/src/ekf_localizer.cpp:515-527 | over every run a shorter table holds the leading entries of a longer one |
| SlotWindow.WindowOfLocalizer | localization/autoware_ekf_localizer/src/ekf_localizer.cpp:49-71 | over every run, the number of slots only decides which measurements are dropped: with fewer slots the localizer holds the leading slots of one with more, unless a measurement passes the longer table alone |
| Tridiagonal.DominantPivot | common/autoware_interpolation/src/spline_interpolation.cpp:42-46 | in a strictly dominant system every pivot outweighs the superdiagonal entry of its row |
| Tridiagonal.DominantPivots | common/autoware_interpolation/src/spline_interpolation.cpp:38-46 | so every division of the forward sweep is by a nonzero number |
| Tridiagonal.SweepRow | common/autoware_interpolation/src/spline_interpolation.cpp:42-46 | one row of the forward sweep |
| Tridiagonal.ForwardSweep | common/autoware_interpolation/src/spline_interpolation.cpp:34-46 | the reduced superdiagonal and right-hand side of every row |
| Tridiagonal.SubstituteRow | common/autoware_interpolation/src/spline_interpolation.cpp:51-53 | one row of the back substitution |
| Tridiagonal.SolveTridiagonalMatrixAlgorithm | common/autoware_interpolation/src/spline_interpolation.cpp:24-56 | with nonzero pivots the result solves every row |
| Tridiagonal.SolutionUnique | common/autoware_interpolation/src/spline_interpolation.cpp:24-56 | and nothing else does |
| Tridiagonal.SolvesMeans | common/autoware_interpolation/src/spline_interpolation.cpp:24-56 | what the system is: subdiagonal, diagonal and superdiagonal times the neighbouring unknowns give the right-hand side |
| Spline.IncreasingSolvable | common/autoware_interpolation/src/spline_interpolation.cpp:184-192 | strictly increasing keys give a dominant system and no division by zero |
| Spline.SegmentFromMoments | common/autoware_interpolation/src/spline_interpolation.cpp:199-205 | a segment computed from the moments has the base values and the moments at its ends |
| Spline.KnotIsSmooth | common/autoware_interpolation/src/spline_interpolation.cpp:184-195 | the first derivatives meet at a knot if and only if its row of the system holds |
| Spline.MomentsGiveSpline | common/autoware_interpolation/src/spline_interpolation.cpp:194-205 | coefficients computed from a solution form a natural cubic spline |
| Spline.SplineGivesMoments | common/autoware_interpolation/src/spline_interpolation.cpp:184-195 | the second derivatives of every natural spline solve the system |
| Spline.NaturalSplineUnique | common/autoware_interpolation/src/spline_interpolation.cpp:161-207 | there is only one natural cubic spline through the points |
| Spline.NaturalSplineMeans | common/autoware_interpolation/src/spline_interpolation.cpp:199-205 | what the natural spline is in its coefficients: end values, slopes and curvatures of neighbouring cubics, and no curvature at both ends |
| SplineObject.SolveSpline | common/autoware_interpolation/src/spline_interpolation.cpp:184-206 | for three points and more the coefficients are a natural spline: values, first and second derivatives agree at every interior knot, no curvature at the ends |
| SplineObject.TwoPoints | common/autoware_interpolation/src/spline_interpolation.cpp:173-182 | two points are joined by a line, which is their natural spline |
| SplineObject.ValidExactly | common/autoware_interpolation/include/autoware/interpolation/interpolation_utils.hpp:92-112 | a spline is built from as many values as keys, at least two, and each other input has its own error |
| SplineObject.AcceptedKeysExactly | common/autoware_interpolation/include/autoware/interpolation/interpolation_utils.hpp:56-90 | queries are accepted exactly when there are some, the base keys are two or more and strictly increasing, the queries sorted and at most 0.001 outside; then just the first is raised and the last lowered into the range |
| SplineObject.SplineInterpolation.CalcSplineCoefficients | common/autoware_interpolation/src/spline_interpolation.cpp:161-207 | builds the natural spline, or reports the invalid argument and changes nothing |
| SplineObject.SegmentIndex | common/autoware_interpolation/src/spline_interpolation.cpp:155-158 | the segment that holds the key, the first or last segment for keys outside |
| SplineObject.KnotValues | common/autoware_interpolation/src/spline_interpolation.cpp:142-228 | evaluating at any knot, the last one included, returns the base value and the derivatives of the segment on its right |
| SplineObject.GettersAreDerivatives | common/autoware_interpolation/src/spline_interpolation.cpp:209-228 | between keys of one segment value, slope and curvature are Taylor expansions of each other with the cubic coefficient of the segment |
| SplineObject.AffineReproduced | common/autoware_interpolation/src/spline_interpolation.cpp:161-228 | affine base values are reproduced by every query, inside the range or not |
| SplineObject.SplineInterpolation.GetSplineInterpolatedValue | common/autoware_interpolation/src/spline_interpolation.cpp:209-214 | the spline at the key, or the error of an unbuilt spline |
| SplineObject.SplineInterpolation.GetSplineInterpolatedDiffValue | common/autoware_interpolation/src/spline_interpolation.cpp:216-221 | its first derivative, or the error of an unbuilt spline |
| SplineObject.SplineInterpolation.GetSplineInterpolatedQuadDiffValue | common/autoware_interpolation/src/spline_interpolation.cpp:223-228 | its second derivative, or the error of an unbuilt spline |
| SplineObject.SplineInterpolation.GetSplineInterpolatedValues | common/autoware_interpolation/src/spline_interpolation.cpp:230-244 | one value a query, at the validated key, or the error of the validation |
| SplineObject.CropExactly | common/autoware_interpolation/include/autoware/interpolation/interpolation_utils.hpp:56-90 | all validated keys lie in the base range if and only if no query but the first is below it and none but the last above it, and just then they are sorted |
| SplineObject.CropLeavesSecondOutside | common/autoware_interpolation/include/autoware/interpolation/interpolation_utils.hpp:83-89 | an accepted input whose second key stays outside the range |
| Akima.WeightedBetween | common/autoware_interpolation/src/spline_interpolation.cpp:98-109 | the weighted slope lies between the two inner secants, and is the inner secant of a side that is straight |
| Akima.KnotSlopeBetween | common/autoware_interpolation/src/spline_interpolation.cpp:83-110 | the slope at every interior knot lies between its two adjacent secants |
| Akima.KnotSlopeLaws | common/autoware_interpolation/src/spline_interpolation.cpp:75-110 | the slope at every knot from the secants alone: the one secant at an end, the mean next to an end and where the neighbouring secants differ by less than 0.00001, elsewhere the distances to the two secants balance with the jumps on the other side |
| Akima.LineReproduced | common/autoware_interpolation/src/spline_interpolation.cpp:75-126 | values on a line give that line, however the keys are spaced |
| Akima.ParabolaSlopes | common/autoware_interpolation/src/spline_interpolation.cpp:92-109 | equally spaced values of a parabola give its exact slope at every inner knot |
| Akima.ParabolaReproduced | common/autoware_interpolation/src/spline_interpolation.cpp:92-126 | and the parabola itself between the second and the last but one knot |
| Akima.MirrorSlopes | common/autoware_interpolation/src/spline_interpolation.cpp:83-110 | mirrored points have opposite slopes |
| Akima.MirrorSpline | common/autoware_interpolation/src/spline_interpolation.cpp:83-126 | the spline of the mirrored points is the mirrored spline |
| Akima.PiecesMeet | common/autoware_interpolation/src/spline_interpolation.cpp:112-126 | the pieces meet with equal value and equal slope at every interior knot |
| Akima.CubicFromSlopes | common/autoware_interpolation/src/spline_interpolation.cpp:118-125 | a cubic has the given end values and end slopes if and only if it has these coefficients |
| Akima.AkimaUnique | common/autoware_interpolation/src/spline_interpolation.cpp:75-126 | the Akima spline through given points is unique |
| Akima.Secants | common/autoware_interpolation/src/spline_interpolation.cpp:75-81 | the secant slope of every segment |
| Akima.KnotSlopes | common/autoware_interpolation/src/spline_interpolation.cpp:83-110 | the slope of every knot |
| Akima.PieceCoefficients | common/autoware_interpolation/src/spline_interpolation.cpp:112-126 | the coefficients of every piece |
| Akima.Seek | common/autoware_interpolation/src/spline_interpolation.cpp:132-134 | the cursor stops at the first piece that does not end before the query, or at the end |
| Akima.CursorIsSearch | common/autoware_interpolation/src/spline_interpolation.cpp:130-134 | for sorted queries the moving cursor finds the segments of a search from scratch, and fails exactly when a query exceeds the last key |
| Akima.CursorInAnyOrder | common/autoware_interpolation/src/spline_interpolation.cpp:128-139 | for queries in any order up to the last key, the cursor finds the segments of a search from scratch if and only if no segment lies before that of the previous query |
| Akima.UnsortedQueryMisplaced | common/autoware_interpolation/src/spline_interpolation.cpp:128-139 | an input: the second of two unsorted queries is evaluated in the piece of the first |
| Akima.SortedQueriesAnswered | common/autoware_interpolation/src/spline_interpolation.cpp:128-139 | sorted queries up to the last key all get the value of the spline |
| Akima.EvaluateQueries | common/autoware_interpolation/src/spline_interpolation.cpp:128-139 | the query loop, with its out-of-range failure |
| Akima.SplineByAkima | common/autoware_interpolation/src/spline_interpolation.cpp:69-140 | evaluates the one Akima spline through the points, or throws for missing values or a query beyond the last key |
| NearestLanelet.LeastComparable | common/autoware_lanelet2_utils/src/nn_search.cpp:173-186 | the least comparable distance |
| NearestLanelet.Candidates | common/autoware_lanelet2_utils/src/nn_search.cpp:192-207 | exactly the lanelets at minimum distance, each once |
| NearestLanelet.BestAligned | common/autoware_lanelet2_utils/src/nn_search.cpp:213-235 | the best aligned candidate, untagged before tagged, or none without a segment |
| NearestLanelet.GetClosestLanelet | common/autoware_lanelet2_utils/src/nn_search.cpp:161-236 | the plain scan returns the closest lanelet |
| NearestLanelet.ClosestAgree | common/autoware_lanelet2_utils/src/nn_search.cpp:161-236 | any two closest lanelets have the same distance, angle difference and direction-change tag |
| NearestLanelet.ClosestMeans | common/autoware_lanelet2_utils/src/nn_search.cpp:92-110 | the answer is at minimum distance; its angle, forward or if tagged in reverse, is at most that of any other as near, forward or if tagged in reverse, and a tagged answer is strictly better aligned than every untagged one |
| NearestLanelet.NoClosestMeans | common/autoware_lanelet2_utils/src/nn_search.cpp:213-235 | there is no answer exactly when several lanelets are nearest and none has a segment |
| NearestLanelet.FlippingKeepsClosest | common/autoware_lanelet2_utils/src/nn_search.cpp:92-101 | turning the segments of tagged lanelets round does not change the closest |
| NearestLanelet.ClosestOfSome | common/autoware_lanelet2_utils/src/nn_search.cpp:354-356 | the closest of a part that holds every lanelet at minimum distance is the closest of all |
| RTreeSearch.WithinRadiusMeets | common/autoware_lanelet2_utils/src/nn_search.cpp:323-341 | the search box reaches every lanelet within its radius |
| RTreeSearch.TolerantCandidates | common/autoware_lanelet2_utils/src/nn_search.cpp:335-354 | in any visiting order every visited lanelet at the exact minimum distance stays a candidate |
| RTreeSearch.LaneletRTree.GetClosestLanelet | common/autoware_lanelet2_utils/src/nn_search.cpp:308-357 | the pruned search returns the closest of all lanelets, whatever order the tree lists them in |
| RTreeSearch.ScanSorted | common/autoware_lanelet2_utils/src/nn_search.cpp:269-292 | the scan of the sorted candidates with its early break finds the best |
| RTreeSearch.GetClosestLaneletWithinConstraint | common/autoware_lanelet2_utils/src/nn_search.cpp:238-293 | the least (distance, angle) among the lanelets within both thresholds, none exactly when there is none |
| RTreeSearch.LaneletRTree.GetClosestLaneletWithinConstraint | common/autoware_lanelet2_utils/src/nn_search.cpp:359-400 | the same despite its early break |
| RTreeSearch.RestIsFurther | common/autoware_lanelet2_utils/src/nn_search.cpp:372-377 | once a box is too far nothing unvisited can be better |
| RTreeSearch.BestAgree | common/autoware_lanelet2_utils/src/nn_search.cpp:238-293 | any two best lanelets have the same distance and angle, and one exists exactly when the other does |
| RTreeSearch.BestMeans | common/autoware_lanelet2_utils/src/nn_search.cpp:238-293 | what the best lanelet is, with both thresholds, the absolute yaw threshold and the order of distance and angle written out |
| LaneletSequences.BudgetFalls | common/autoware_lanelet2_utils/src/topology.cpp:46-50 | every recursive call lowers the remaining length by at least one shortest lanelet, so the recursion ends on cyclic graphs |
| LaneletSequences.SucceedingRecursive | common/autoware_lanelet2_utils/src/topology.cpp:29-57 | terminates and returns the paths of the recursion |
| LaneletSequences.PrecedingRecursive | common/autoware_lanelet2_utils/src/topology.cpp:59-97 | terminates and returns the paths on the graph with the excluded lanelets removed, all predecessors excluded or not |
| LaneletSequences.PathsAreStoppingPaths | common/autoware_lanelet2_utils/src/topology.cpp:29-57 | exactly the paths that stop at the first lanelet where the length reaches the limit or nothing follows |
| LaneletSequences.PathsDistinct | common/autoware_lanelet2_utils/src/topology.cpp:29-57 | no path twice when no neighbour list has duplicates |
| LaneletSequences.SucceedingMeans | common/autoware_lanelet2_utils/src/topology.cpp:29-57 | a stopping path ahead follows the lanes, and its lengths summed up one by one stay below the limit before the last lanelet and reach it there, unless nothing follows |
| LaneletSequences.PrecedingMeans | common/autoware_lanelet2_utils/src/topology.cpp:59-97 | a stopping path behind, in the same way, where excluded lanelets count as missing |
| LaneletSequences.SucceedingFollowsLanes | common/autoware_lanelet2_utils/src/topology.cpp:327-348 | from the lanelet on a succeeding sequence follows the lanes |
| LaneletSequences.GetSucceedingLaneletSequences | common/autoware_lanelet2_utils/src/topology.cpp:327-348 | exactly the stopping paths from a follower, nearest lanelet first, each once |
| LaneletSequences.GetPrecedingLaneletSequences | common/autoware_lanelet2_utils/src/topology.cpp:350-374 | exactly the stopping paths against the lanes that avoid the excluded lanelets, furthest first, each once |
| LaneletSequences.ExcludingIsPruning | common/autoware_lanelet2_utils/src/topology.cpp:77-96 | excluding lanelets is the same as an empty list on the graph without them |
| LaneletSequences.PrecedingFollowsLanes | common/autoware_lanelet2_utils/src/topology.cpp:350-374 | read furthest first a preceding sequence follows the lanes up to the lanelet and avoids the excluded ones |
| Routes.TraverseBackward | common/autoware_lanelet2_utils/src/route_manager.cpp:151-170 | terminates for any lengths and returns the walk against the lanes in driving order |
| Routes.TraverseForward | common/autoware_lanelet2_utils/src/route_manager.cpp:174-193 | terminates for any lengths and appends the walk along the lanes |
| Routes.WalkIsFresh | common/autoware_lanelet2_utils/src/route_manager.cpp:159-169 | a walk follows first neighbours and meets no lanelet twice and none seen before |
| Routes.WalkCovers | common/autoware_lanelet2_utils/src/route_manager.cpp:152-170 | a walk covers the limit unless nothing new follows, and takes no lanelet it does not need |
| Routes.WalkExtends | common/autoware_lanelet2_utils/src/route_manager.cpp:238-246 | extra neighbours where there were none only lengthen a walk, also when more counts as seen, as long as the walk meets none of it |
| Routes.AroundIsConnected | common/autoware_lanelet2_utils/src/route_manager.cpp:149-193 | consecutive lanelets are connected; the current lanelet occurs twice exactly when the way back comes round to it, every other at most once |
| Routes.CreateLaneSequence | common/autoware_lanelet2_utils/src/lane_sequence.cpp:29-44 | succeeds exactly for connected lanelets |
| Routes.RouteManager.RouteSequenceConnected | common/autoware_lanelet2_utils/src/route_manager.cpp:139-199 | the sequence on the route is connected in the route subgraph and the routing graph, on the route, has the current lanelet and repeats at most that one |
| Routes.RouteManager.OutwardSequenceConnected | common/autoware_lanelet2_utils/src/route_manager.cpp:201-304 | the outward sequence is connected and repeats at most the current lanelet |
| Routes.RouteManager.RouteSequenceCovers | common/autoware_lanelet2_utils/include/autoware/lanelet2_utils/route_manager.hpp:111-120 | the sequence reaches both lengths asked for unless the route ends or loops |
| Routes.RouteManager.RouteSequenceMeans | common/autoware_lanelet2_utils/src/route_manager.cpp:139-199 | the sequence always goes to the first neighbour on the route; measured from ego by cached lengths it stays below both lengths before its end lanelets and reaches them there, unless the route ends or comes round |
| Routes.RouteManager.OutwardReachesFurther | common/autoware_lanelet2_utils/src/route_manager.cpp:213-254 | behind ego the outward sequence extends the one on the route |
| Routes.RouteManager.OutwardReachesFurtherAhead | common/autoware_lanelet2_utils/src/route_manager.cpp:256-294 | ahead of ego the outward sequence extends the one on the route if and only if the way back outside the route meets no lanelet ahead on the route |
| Routes.RouteManager.OutwardSequenceCovers | common/autoware_lanelet2_utils/include/autoware/lanelet2_utils/route_manager.hpp:122-132 | the outward sequence reaches both lengths asked for unless the map ends or loops, and takes no lanelet it does not need |
| Routes.RouteManager.OutwardSequenceMeans | common/autoware_lanelet2_utils/src/route_manager.cpp:201-304 | the outward sequence goes to the first neighbour on the route, or on the map where the route has none; measured from ego by cached or measured lengths it stays below both lengths before its end lanelets and reaches them there, unless the map ends or comes round |
| Routes.OutwardMayFallShort | common/autoware_lanelet2_utils/src/route_manager.cpp:201-304 | an input: the route has lanelet 2 ahead, the way back comes round to it, and the outward sequence has nothing ahead |
| Routes.RouteManager.GetLaneletSequenceOnRoute | common/autoware_lanelet2_utils/src/route_manager.cpp:139-199 | returns the whole sequence; the fallback to the current lanelet is never taken |
| Routes.RouteManager.GetLaneletSequenceOutwardRoute | common/autoware_lanelet2_utils/src/route_manager.cpp:201-304 | the same beyond the ends of the route |
| Routes.RouteManager.UpdateCurrentPose | common/autoware_lanelet2_utils/src/route_manager.cpp:94-123 | moves to the best neighbour within the thresholds, else to the closest, and keeps everything else; fails exactly on unaligned ties |
| Routes.UpdateMayFail | common/autoware_lanelet2_utils/src/route_manager.cpp:94-123 | an input: two neighbours out of bounds tie as closest without a segment, and no update is possible |
| Routes.RouteManager.CommitLaneChangeSuccess | common/autoware_lanelet2_utils/src/route_manager.cpp:125-137 | moves to the closest route lanelet and keeps everything else |
| Routes.MoveKeepsRoute | common/autoware_lanelet2_utils/src/route_manager.cpp:94-137 | an update or commit gives a valid manager of the same route; an update leads to a lanelet joined to the current one by following and previous edges of the route |
| Routes.MoveGivesClosest | common/autoware_lanelet2_utils/include/autoware/lanelet2_utils/route_manager.hpp:34-39 | after an update the current lanelet is the closest of the neighbours if and only if none of them is within the thresholds or a closest one is; after a commit it is the closest of the route |
| Routes.UpdateMayLeaveClosest | common/autoware_lanelet2_utils/src/route_manager.cpp:94-123 | an input: the closest lanelet is crossed at an angle, and the update takes the next one |
| Routes.RunStaysOnRoute | common/autoware_lanelet2_utils/src/route_manager.cpp:94-137 | over every run of updates and commits the manager stays valid, the current lanelet is one of the route and the route never changes |
| Routes.UpdatesTrackTheLane | common/autoware_lanelet2_utils/include/autoware/lanelet2_utils/route_manager.hpp:81-94 | over every run of updates without a commit the last current lanelet is joined to the first by a chain of following and previous edges of the route: no lane change |

## Left out

- Rounding of `double`, NaN and infinity, and the checks for them.
- The internals of Eigen's LLT, Lanelet2, Boost.Geometry and its R-tree: only the contracts above.
- The epsilon comparisons of the two scans: with a positive epsilon the searches may disagree on near ties, so they are exact here.
- Which of several fully equal lanelets is returned: visiting order and an unstable sort decide, so agreement is on keys.
- KalmanFilter: the setters, the stored-matrix overloads and the control-input overload of predict, which only pass arguments on.
- Trigonometry and quaternions of the EKF: yaw normalisation, the motion model, roll, pitch and height compensation, the Mahalanobis distance.
- Message queues, diagnostics, warnings and result messages of `update_step`.
- Ages of slots older than the last activation or initial pose, and across a jump back with steps of more than 10 s: no general statement is made, the cap and the time between activations may cancel a jump.
- SplineInterpolation: `resize`, `getCoefficients`, and the two vector getters for derivatives, which are the same loop around another scalar getter.
- Spline and Akima keys that lead to a division by zero: solvable keys, respectively distinct neighbours, are required.
- Lanelet lengths without a positive lower bound in the enumerations: the recursion need not end on a cycle then.
- `find_nearest`, `get_road_lanelets_at`, the adjacency and bundle lookups of `topology.cpp`, and `RouteManager::create` with map loading.
- ROS nodes, publishers, parameters and the other packages of the repository.
