# Distribution-grid analytics, governance and link layers: a verified model

This project models the decision-making core of a distribution-grid platform and proves
what that core promises. It covers four parts.

* **Network analytics.** Nodes and switchable edges; the energized radial tree; weighted
  least-squares state estimation with a hand-written Gauss-Jordan elimination; the
  three-phase backward/forward sweep; N-1 analysis with greedy tie restoration; outage
  inference from dark meters; the cross-check between the two; and exhaustive
  reconfiguration. One account of reachability (`Graph`) carries all of them: the energized
  set is the least set that holds the sources and is closed under closed edges, and the
  number of closed edges beyond the least possible (`Slack`) decides radiality.
* **The topology importer.** Orientation of an undirected network, voltage levels carried
  across it, and the directed walk that other modules make over the result.
* **The governed control plane.** Rows of control actions and an append-only audit trail,
  moved by people and by an automation engine with a circuit breaker.
* **Two link layers.** HDLC frames with the 16-bit frame check sequence of section C.2 of
  RFC 1662, and the APCI of section 5.1 of IEC 60870-5-104 between two peers.

Loops that change things in the source are methods with loops here, over arrays, mutable
edge cells, node records or class fields, and each is proved against a function or
predicate; the properties are lemmas about those. Numbers are exact: floats are reals,
complex numbers pairs of reals. The square roots a power flow takes enter as parameters
whose squares are what they should be (`modulus`, `sqrt3`), and the state of the world
(what a handler does, whether a switch is set, what a policy proposes) enters as
parameters of the step that reads it.

## Where the code and its own words differ

* `recommend` says that it minimises loss subject to no voltage or thermal violation; the
  code records violations and never decides by them, and so does the model.
  `TwinSwitches.ViolationIsRecommended` is a network free of violations on which it
  recommends an overloaded switch to save 0.6 W; `Reconfiguration.RecommendedIsCleanIff` is
  the exact condition.
* `_lca` is the deepest common ancestor only while paths stay short enough for its
  1000-node guard; `Ancestry.LcaIsExactWhen` says exactly when it raises and when its
  answer is certain. `LineFeeder.LineCannotBeInferred` is a feeder on which `infer` raises;
  up to 1000 nodes it cannot (`Inference.SmallIsNeverCut`).
* `estimate` can fail on a regular gain matrix, because a pivot under 1e-12 is refused.
  `Estimation.RunEstimate` says which pseudo weights rule that out on any feeder with any
  telemetry (the default ones do, `Estimation.DefaultsAreHeavy`) and exactly which ones
  cause it without telemetry (`Estimation.LightFeederIsRefused` is such a feeder).
* `cross_check` takes a mismatch for a gap in model or telemetry, yet it finds two kinds
  where there is none. An outage blamed on an opened device is always one, because N-1
  analysis studies closed edges only (`CrossCheckLaws.StructuralVerdict`, on the feeder of
  `CrossCheckFeeders.OpenedSwitchIsFlagged`); and one blamed on a live edge above opened
  devices counts customers whom the loss of that edge cannot cost their supply
  (`CrossCheckLaws.LiveAncestorIff`, on that of `CrossCheckFeeders.LiveTransformerIsFlagged`).
  `CrossCheckLaws.MismatchIff` is the exact condition for any outage with a device.
* `downstream_node_ids` over closed edges can miss an energized node of an imported radial
  feeder with an open tie, because orientation ignores switch positions
  (`OrientedNetwork.OpenTieHidesNode`, with the exact condition in
  `OrientedNetwork.EnergizedWalkIff`).
* With the master switch off nothing live is executed, but an action executed before is
  still rolled back, because rollback does not read the switch
  (`Governance.SwitchOffBlocks`, `Governance.RollbackIgnoresSwitch`).
* HDLC frames are sent without byte stuffing, so a frame with a flag byte inside is not
  read back (`Hdlc.ReadBackIffNoInnerFlag`, `Hdlc.FlagInInfoIsLost`).
* IEC-104 peers keep no send window, so the counters lose track of what is outstanding
  from 32768 frames on (`Iec104Link.OutstandingReadsOff`, `Iec104Link.WindowOverrun`).
* The circuit breaker stops a policy at the next tick, not at the next proposal
  (`EngineLaws.TickIgnoresBreaker`, `EngineLaws.TrippedIsIdle`); within the tick it trips
  in, it stops one exactly when nothing was left to submit (`EngineLaws.TripIsLastIff`,
  with `EngineLaws.TripDoesNotEndTick` as the other case).
* A policy named "supervisor" shares its requester's name with the engine's approver, so
  its high-risk proposals are refused and counted as failures
  (`EngineLaws.SupervisorIsRefused`).

## Files

| files | what they hold |
|---|---|
| `Sequences`, `Results` | sequences without repetition, and outcomes |
| `Graph`, `Grid` | reachability, radiality, the network records and the energizing worklist |
| `RadialTree`, `TreeCuts`, `TreeSums`, `Ancestry` | the tree builder, outages as subtrees, sums and common ancestors |
| `Reals`, `Vectors`, `GaussJordan`, `Inverse`, `LinearSystems`, `Elimination`, `Solvability` | linear algebra, pure and in place, and which systems the pivot guard lets through |
| `LeastSquares`, `Sensitivity`, `Estimation`, `EstimateLaws` | the estimator, and its answer in terms of loads and readings |
| `Sums`, `ComplexNumbers`, `ComplexSums`, `PowerFlow`, `PowerBalance`, `Convergence`, `LoadFlow`, `ViolationLaws` | the sweep, conservation, what settling means, what is reported of a network and what counts as a violation |
| `Restoration`, `RestorationLaws`, `Contingency`, `ContingencyLaws` | N-1 analysis, its classes and ranking |
| `Inference`, `InferenceLaws`, `StructuralOutage`, `LineFeeder` | outage inference, its clusters and figures, and a feeder too deep for it |
| `Validation`, `CrossCheckLaws`, `CrossCheckFeeders` | the cross-check and its mismatches |
| `Reconfiguration`, `SwitchingLaws`, `TwinSwitches` | the switching search, and a network it overloads |
| `Worklist`, `Orientation`, `VoltageLevels`, `Downstream`, `OrientedNetwork` | the importer and the directed walk |
| `Controls`, `ControlLaws`, `Governance`, `Automation`, `EngineLaws`, `BreakerLaws` | the control plane and the engine |
| `Bytes`, `Hdlc`, `HdlcBursts` | HDLC framing |
| `Iec104`, `Iec104Link` | IEC-104 frames, one peer, and two peers over two streams |

## Model

| member | source | states |
|---|---|---|
| `Grid.FindEnergized` | fastapi/dms/contingency.py:20-36 | The worklist finds exactly the least set that holds the substations and is closed under closed edges, whatever its visiting order. |
| `Grid.EnergizedIff` | fastapi/dms/contingency.py:20-36 | A node is energized exactly when a run of closed edges, each taken in either direction, leads to it from a node of kind substation. |
| `Graph.ReachIffWalk` | fastapi/dms/contingency.py:20-36 | That least set is the set of nodes joined to a substation by a walk of closed edges. |
| `Graph.SlackNonNegative` | fastapi/dms/contingency.py:39-43 | The energized part of any network has at least as many closed edges as energized nodes that are not sources. |
| `Graph.NoSlackIffForest` | fastapi/dms/reconfiguration.py:61-64 | The edge count reaches that bound exactly for forests whose every tree holds one source. |
| `Grid.RadialTestIsExact` | fastapi/dms/contingency.py:39-43 | For any number of substations the count is never below the bound, and `_is_radial` passes exactly when the energized network is a forest with one substation in each tree. |
| `Graph.ForestLinkIsBridge` | fastapi/dms/reconfiguration.py:40-69 | In such a forest every energized edge is a bridge: without it exactly one of its ends stays energized. |
| `RadialTree.GrowTree` | fastapi/dms/state_estimation.py:79-93 | The walk reaches exactly the component of the root, and lists every parent before its children, joined to them by a closed edge. |
| `RadialTree.BuildPaths` | fastapi/dms/state_estimation.py:95-99 | Each root path is the parent path followed by the parent edge; no two nodes share a parent edge. |
| `RadialTree.Descendants` | fastapi/dms/state_estimation.py:101-113 | Without a visited set the walk still ends, and collects exactly the nodes whose chain to the root passes the start. |
| `RadialTree.BuildSubtrees` | fastapi/dms/state_estimation.py:115-126 | Every parent edge gets the set of nodes below it and its impedance over the base of its child node; no other edge gets an entry. |
| `RadialTree.BuildRadial` | fastapi/dms/state_estimation.py:62-132 | Fails exactly when there is no substation; otherwise returns a spanning tree of what the first substation energizes, with paths, subtrees and per-unit impedances. |
| `RadialTree.SubtreeIffOnPath` | fastapi/dms/state_estimation.py:95-119 | A node is in the subtree of an edge exactly when the edge is on the node's root path. |
| `RadialTree.PathDistinct` | fastapi/dms/state_estimation.py:95-99 | No root path repeats an edge. |
| `TreeCuts.OutsideKeepsSupply` | fastapi/dms/state_estimation.py:79-119 | On any feeder a node outside the subtree of a tree edge keeps its supply when that edge opens. |
| `TreeCuts.CutIsSubtreeIff` | fastapi/dms/contingency.py:114-119 | On any feeder opening a tree edge cuts off exactly its subtree just when no other closed edge leaves that subtree. |
| `TreeCuts.OutageIsSubtree` | fastapi/dms/contingency.py:114-119 | On a feeder without loops the nodes that lose supply are exactly the subtree recorded by the tree builder. |
| `TreeCuts.RadialTreeIsUnique` | fastapi/dms/state_estimation.py:79-132 | On a feeder without loops two valid trees have the same parents, paths, subtrees and impedances: the visiting order does not matter. |
| `Vectors.ProductApplies` | fastapi/dms/linalg.py:30-36 | `matmul` then `matvec` is `matvec` twice: (BH)x = B(Hx). |
| `Elimination.FindPivot` | fastapi/dms/linalg.py:47 | The pivot is the first row from the column on with the entry of largest size. |
| `Elimination.Solve` | fastapi/dms/linalg.py:39-59 | The in-place elimination computes the step-by-step function `Solution`, refusals included. |
| `Elimination.Invert` | fastapi/dms/linalg.py:62-79 | The in-place elimination computes the step-by-step function `InverseOf`, refusals included. |
| `GaussJordan.SolutionIsUnique` | fastapi/dms/linalg.py:39-59 | If `solve` returns x, then Ay = b exactly when y = x. |
| `Inverse.InverseUndoes` | fastapi/dms/linalg.py:62-79 | If `inverse` returns M, then Ay = z exactly when y = Mz. |
| `LinearSystems.InverseIsTwoSided` | fastapi/dms/linalg.py:62-79 | What `inverse` returns is an inverse on both sides. |
| `LinearSystems.SingularIsRefused` | fastapi/dms/linalg.py:39-79 | Both routines refuse every singular matrix, whatever the right-hand side. |
| `LinearSystems.SolveAndInverseAgree` | fastapi/dms/linalg.py:39-79 | They meet the same pivots, so they refuse the same matrices, and solve(A, b) = inverse(A) b. |
| `LinearSystems.RefusalMeans` | fastapi/dms/linalg.py:47-49 | `solve` refuses exactly when some step's best pivot is under the tolerance; then the matrix is singular or that pivot is not zero. |
| `LinearSystems.SmallPivotIsRefused` | fastapi/dms/linalg.py:48-49 | A regular 1 by 1 matrix with a pivot under 1e-12 is refused by both, so regularity does not imply success. |
| `Solvability.RefusalExhibits` | fastapi/dms/linalg.py:39-59 | Whenever `solve` refuses A, some vector with an entry 1 is sent by A to a vector whose every entry is under the tolerance. |
| `Solvability.HeavyAnchorsAccepted` | fastapi/dms/state_estimation.py:213-219 | A gain matrix whose n variables each have a unit row of weight n times the tolerance or more is accepted, whatever else is measured and however the weights differ. |
| `Solvability.DiagonalRefused` | fastapi/dms/linalg.py:47-49 | A diagonal matrix is refused exactly when a diagonal entry is under the tolerance. |
| `LeastSquares.EstimateMinimises` | fastapi/dms/state_estimation.py:213-219 | When the solver returns x for the normal equations, every other state vector has a strictly larger weighted residual sum. |
| `LeastSquares.ObjectiveSplits` | fastapi/dms/state_estimation.py:213-225 | J(y) = J(x) + the weighted square of H(y - x). |
| `LeastSquares.GainIsRegular` | fastapi/dms/state_estimation.py:177-217 | The pseudo-measurements make the gain matrix positive definite, so it is never singular. |
| `LeastSquares.VariancesNonNegative` | fastapi/dms/state_estimation.py:227-232 | No measurement's leverage exceeds 1/w and every quadratic form h G^-1 h is nonnegative. |
| `Sensitivity.SharedCostSymmetric` | fastapi/dms/state_estimation.py:166-175 | The impedance that two root paths share does not depend on which node is asked first. |
| `Sensitivity.SensitivitySymmetric` | fastapi/dms/state_estimation.py:166-175 | The voltage at i answers to the injection at j as the voltage at j does to that at i, for P and for Q. |
| `Sensitivity.RowIsDrop` | fastapi/dms/state_estimation.py:166-175 | A sensitivity row dotted with the state is the voltage drop computed edge by edge. |
| `Estimation.VSensitivityRow` | fastapi/dms/state_estimation.py:166-175 | The accumulation over path edges and subtree sets yields the sensitivity row. |
| `Estimation.BuildRows` | fastapi/dms/state_estimation.py:177-211 | H, z and w hold two pseudo rows for every state node and one row for each telemetry value present. |
| `Estimation.RowsAreGood` | fastapi/dms/state_estimation.py:182-194 | Every row has positive weight and every state variable is measured alone by some row, for any telemetry. |
| `Estimation.VoltagePu` | fastapi/dms/state_estimation.py:270-277 | One minus the drops along the root path, each from the injections below its edge. |
| `Estimation.QuadraticForm` | fastapi/dms/state_estimation.py:294-295 | The double sum over a and b is h . (G^-1 h). |
| `Estimation.ResidualVariances` | fastapi/dms/state_estimation.py:227-232 | Omega_i = 1/w_i - h_i G^-1 h_i for every row. |
| `Estimation.SolveRows` | fastapi/dms/state_estimation.py:213-232 | When both routines return: the unique minimiser, its residuals, a two-sided inverse of the gain matrix and nonnegative residual variances; otherwise the gain matrix was regular. |
| `Estimation.RunEstimate` | fastapi/dms/state_estimation.py:135-319 | For every feeder, telemetry and nonzero sigmas the result is the unique minimiser with nonnegative variances and voltages equal to one minus row dot state. It always succeeds with a substation and pseudo weights of at least the tolerance times the number of state variables; without telemetry it fails exactly when some node besides the source is energized and a pseudo weight is under the tolerance. |
| `Estimation.DefaultsAreHeavy` | fastapi/dms/state_estimation.py:51-52 | The default pseudo sigmas, 30 kW and 20 kvar, meet that weight on feeders of up to half a billion nodes. |
| `Estimation.LightFeederIsRefused` | fastapi/dms/state_estimation.py:182-219 | One substation, one load, no telemetry and a pseudo sigma of two million kW meet the condition of failure. |
| `EstimateLaws.EstimateComesClosest` | fastapi/dms/state_estimation.py:182-220 | The estimate covers every energized node but the source; of all states its own minimises, alone, the sum of squared deviations from base loads, P, Q and voltage readings, each over its own sigma squared; its voltages are those that state gives edge by edge in ohms, kW and kvar. |
| `EstimateLaws.ConsistentIsExact` | fastapi/dms/state_estimation.py:182-220 | Base loads and readings that all come from one state give back exactly that state at no cost, and an estimate at no cost is one that all of them agree with. |
| `EstimateLaws.ResidualsMean` | fastapi/dms/state_estimation.py:222-225 | Each residual is one deviation: base load or reading less the estimated P or Q of its node, or estimated less read voltage; every base load and every reading of a state node has one. |
| `PowerFlow.FindLoadCurrents` | fastapi/dms/powerflow.py:86-96 | conj(S/V) per node and phase, zero without a load, the slack voltage standing in for a missing or zero one. |
| `PowerFlow.FindBranchCurrents` | fastapi/dms/powerflow.py:97-104 | Every branch carries, on its phases only, the total load current of its subtree. |
| `PowerFlow.ForwardSweep` | fastapi/dms/powerflow.py:106-121 | In place from the root down every node ends at its parent's new voltage less z J, on its own phases, and the mismatch is the largest distance any of these voltages moved. |
| `PowerFlow.SolveFlow` | fastapi/dms/powerflow.py:56-124 | The profiles of the run go from the flat start by one sweep per iteration; no sweep before the last settled, the mismatch is the largest move of the last, and the run is converged exactly when every voltage moved less than the tolerance in it; otherwise every iteration was spent. |
| `Convergence.SweepIsUnique` | fastapi/dms/powerflow.py:83-121 | From the same voltages any two sweeps find the same currents and the same new voltages, so the visiting order does not matter. |
| `Convergence.RunsAgree` | fastapi/dms/powerflow.py:56-124 | Two runs of one case agree sweep by sweep: the answer depends on the case, the tolerance and the budget alone. |
| `Convergence.CurrentTakesDemand` | fastapi/dms/powerflow.py:86-96 | The load current takes exactly the demanded power at the voltage it was computed from, unless that voltage is zero and the demand is not. |
| `Convergence.DemandMissedBy` | fastapi/dms/powerflow.py:86-121 | After any sweep V conj(I) misses a load's demand by exactly the distance its voltage moved times |I|. |
| `Convergence.RunServes` | fastapi/dms/powerflow.py:83-124 | Once a run settles every load takes its demanded power to within the tolerance times |I|. |
| `PowerFlow.SumLosses` | fastapi/dms/powerflow.py:159-184 | The loss total is the sum over branches of I^2 R over the phases carried. |
| `PowerFlow.OhmicLossPerUnit` | fastapi/dms/powerflow.py:174-182 | I^2 R from line amps equals per-unit resistance times |J|^2 on the per-phase base. |
| `LoadFlow.CountVoltages` | fastapi/dms/powerflow.py:138-146 | Counts every phase of every energized node whose voltage leaves the band. |
| `LoadFlow.CountOverloads` | fastapi/dms/powerflow.py:185-195 | Counts the branches whose rounded loading, by transformer rating or else by ampacity, exceeds 100 percent. |
| `LoadFlow.Solve` | fastapi/dms/powerflow.py:56-212 | Fails exactly without a substation; otherwise reports convergence, violations and rounded loss of some run of sweeps over some valid tree. |
| `ViolationLaws.ViolationsMean` | fastapi/dms/powerflow.py:138-195 | The violations are the (node, phase) pairs with a voltage under the lower or over the upper limit plus the branches whose rounded kVA over the transformer rating, or else largest phase current over the ampacity, exceeds 100 percent; there are none exactly when every voltage and branch keeps its limits. |
| `LoadFlow.SolvesAgree` | fastapi/dms/powerflow.py:64-124 | On a radial network two solves over trees of any order make the same sweeps and end with the same voltages, currents, losses and violations. |
| `LoadFlow.RadialSolvedOnce` | fastapi/dms/powerflow.py:56-212 | So on a network that passes the radiality test, with any number of substations, the switch positions decide what a power flow reports. |
| `PowerBalance.CurrentLaw` | fastapi/dms/powerflow.py:97-104 | Current into a node is its own load current plus what goes on to its children. |
| `PowerBalance.VoltageAlongPath` | fastapi/dms/powerflow.py:106-121 | A node's voltage plus the drops on its root path is the root voltage. |
| `PowerBalance.PowerBalances` | fastapi/dms/powerflow.py:83-124 | After every sweep, converged or not, slack power is the loads' power plus the sum of z |J|^2, phase by phase, when phases nest downstream. |
| `PowerBalance.LossIsRealPart` | fastapi/dms/powerflow.py:159-184 | The unrounded loss total is the real part of the branch term on the per-phase base. |
| `Sums.RoundIsOnGrid` | fastapi/dms/powerflow.py:206 | A rounded value is a multiple of 1/scale within half a step of the value. |
| `Sums.RoundTies` | fastapi/dms/powerflow.py:206 | Halfway between two multiples the even one is taken. |
| `Restoration.TryClosing` | fastapi/dms/contingency.py:72-83 | A trial leaves the edges as they were unless closing this switch re-energizes a lost node and keeps the network radial. |
| `Restoration.Restore` | fastapi/dms/contingency.py:61-84 | The loop over mutable edges ends and computes the pure plan `Restored`, edges and ties. |
| `RestorationLaws.RestoreGuarantees` | fastapi/dms/contingency.py:61-84 | Never closes the failed element, changes only the ties it reports, loses nobody, each tie gains a node, a radial network stays radial, and it stops only when nothing is lost or no remaining switch could help alone. |
| `RestorationLaws.UsefulIffBridges` | fastapi/dms/contingency.py:78 | After one outage of a radial feeder a switch helps exactly when it joins the dark side to the live side, and then it restores everybody. |
| `RestorationLaws.RestoreAfterOneOutage` | fastapi/dms/contingency.py:61-84 | On a fully supplied radial network, with any number of substations, the first switch that joins the two sides is closed and restores everybody; without one, none is closed. |
| `Contingency.StudyOutage` | fastapi/dms/contingency.py:114-156 | Lost and unserved sums, ties, classification and severity of one outage on a fresh copy of the edges. |
| `Contingency.Analyze` | fastapi/dms/contingency.py:87-160 | Raises exactly without a substation; otherwise one outcome per in-service candidate, and secure exactly when none leaves load unserved or a violation. |
| `Contingency.PassesIffClassified` | fastapi/dms/contingency.py:136-160 | Unserved load is never negative, and an outage passes the N-1 test exactly when it is classed secure or restorable. |
| `ContingencyLaws.ClassMeans` | fastapi/dms/contingency.py:136-141 | Unserved load makes an outage unserved, or partial if a tie was closed; else violations make it a violation; else it is restorable if a tie was closed and secure if not. |
| `ContingencyLaws.SeverityMeans` | fastapi/dms/contingency.py:142 | The severity is a thousand per kW unserved, a hundred per violation and the load ties brought back, exactly; it is zero just for secure outages and restorable ones without load. |
| `ContingencyLaws.DemandMeans` | fastapi/dms/contingency.py:46-60 | A node demands the largest of its net consumption, its floor and nothing, and generates its net generation if any. |
| `ContingencyLaws.ReportCovers` | fastapi/dms/contingency.py:110-160 | One outcome for each closed line, transformer, switch and tie and for nothing else; secure exactly when each is classed secure or restorable. |
| `Contingency.NeverPartial` | fastapi/dms/contingency.py:136-141 | On a fully supplied radial network no outage is classed partial: one tie restores everything or none is closed and everything lost stays lost. |
| `Contingency.OneTieOrNone` | fastapi/dms/contingency.py:114-125 | Such an outage always loses somebody, and the repair closes one tie and recovers all or closes none. |
| `ContingencyLaws.ClassOfOutage` | fastapi/dms/contingency.py:124-141 | There a tie closes exactly when an open switch joins the two sides; the outage is restorable exactly if one does without a violation after, unserved if none does and load is lost, secure if none does, no load is lost and nothing is violated. |
| `ContingencyLaws.FirstJoinerCloses` | fastapi/dms/contingency.py:61-84 | And the tie closed is the first edge of the list that joins them. |
| `Contingency.StudiedFlowIsUnique` | fastapi/dms/contingency.py:114-135 | From a radial base the network left by an outage and its repair is radial, so every power flow of it reports the same. |
| `Ancestry.Ancestors` | fastapi/dms/outage_inference.py:53-62 | The path to the root, deepest first, cut off after 1000 nodes. |
| `Ancestry.FindLca` | fastapi/dms/outage_inference.py:65-76 | Raises exactly when the guarded walks of a nonempty cluster share no node; otherwise a common node with the longest guarded walk. |
| `Ancestry.LcaExists` | fastapi/dms/outage_inference.py:65-76 | Every cluster has exactly one deepest common ancestor. |
| `Ancestry.LcaIsExactWhen` | fastapi/dms/outage_inference.py:53-76 | On trees of any depth: returns exactly when every member is fewer than 1000 steps below that ancestor, and the answer is certain exactly when the ancestor is fewer than 1000 steps deep or a member is 999 below it. |
| `Ancestry.AncestorAndNode` | fastapi/dms/outage_inference.py:53-76 | The guarded walks of an ancestor and of a node below it meet exactly when fewer than 1000 edges lie between them. |
| `LineFeeder.LineIsCut` | fastapi/dms/outage_inference.py:53-76 | A feeder of meters on one line, 1001 edges long, whose first and last meter the depth guard cuts apart. |
| `LineFeeder.LineCannotBeInferred` | fastapi/dms/outage_inference.py:65-76 | With those two meters dark nothing is a report of `infer`, whatever tree it grows: it raises. |
| `Inference.WithinGuard` | fastapi/dms/outage_inference.py:65-76 | On trees within the guard the node returned is the deepest common ancestor. |
| `Inference.BuildClusters` | fastapi/dms/outage_inference.py:111-114 | Clusters partition the dark meters by nearest transformer, in order of first report. |
| `InferenceLaws.ClusterTransformerMeans` | fastapi/dms/outage_inference.py:79-83 | A cluster's transformer is the first transformer on each member's root path, and none exactly when no node of that path is one. |
| `InferenceLaws.SharedOutageIff` | fastapi/dms/outage_inference.py:111-114 | Two located dark meters share a reported outage exactly when one tree locates both and they meet the same first transformer on the way up, or both none. |
| `Inference.IsolatingOpenEdge` | fastapi/dms/outage_inference.py:86-98 | The first edge on the way up whose id is marked open. |
| `Inference.InferCluster` | fastapi/dms/outage_inference.py:118-155 | Device, section, customer sums, confidence and corroboration of one cluster; fails only when the guarded walks share no node. |
| `InferenceLaws.OutagesListReports` | fastapi/dms/outage_inference.py:111-114 | An outage lists each of its dark meters exactly as often as it was reported, and the outages found in the energized tree come before those of the structural one. |
| `InferenceLaws.FiguresMean` | fastapi/dms/outage_inference.py:131-155 | Customers of the section and of the meters that reported, corroboration by one of these meters, and the confidence as the share of the section's meters that reported, to three places, or a half without any. |
| `Inference.Infer` | fastapi/dms/outage_inference.py:159-214 | The energized pass, then the structural pass over the meters only it locates, with dark and silent meters counted; fails only without a substation or when the depth guard cuts a cluster off. |
| `Inference.SmallIsNeverCut` | fastapi/dms/outage_inference.py:53-76 | On networks of up to 1000 nodes the depth guard never cuts, in either pass. |
| `Inference.CoversIffAbove` | fastapi/dms/outage_inference.py:117-138 | A single edge covers a cluster exactly when its child is on the root path of the cluster's deepest common ancestor. |
| `Inference.SectionIsSmallest` | fastapi/dms/outage_inference.py:111-138 | The energized-pass section is the smallest single-edge subtree that covers the cluster, and no device is named exactly when no single edge covers it. |
| `Inference.EachLocatedMeterOnce` | fastapi/dms/outage_inference.py:193-200 | Every dark meter that either tree locates is in exactly one reported outage, and no other meter is in any. |
| `InferenceLaws.CountsMean` | fastapi/dms/outage_inference.py:200-214 | The dark count is the number of dark meters some outage lists; silent are the meters that the estimator reads dead and no outage lists. |
| `StructuralOutage.DeviceIsFirstOpen` | fastapi/dms/outage_inference.py:86-98 | A structural-pass outage with a dark common ancestor names an open normally-closed edge on its root path, and every path edge between stands closed. |
| `StructuralOutage.NoneOpenMeansLive` | fastapi/dms/outage_inference.py:181-195 | A node with no such opened device above it is energized. |
| `Validation.CrossCheck` | fastapi/dms/outage_validation.py:16-69 | One check per outage in order; the mismatch count is the number of checks that are mismatches, and consistent means there is none. |
| `CrossCheckLaws.FlagsMean` | fastapi/dms/outage_validation.py:26-69 | What each flag of a check says of the outage and of the study's last outcome for its device, and that only two of them make a mismatch. |
| `Validation.LostIsSubtree` | fastapi/dms/outage_validation.py:22-45 | On a radial feeder N-1 loses exactly the subtree that inference reports for a tree edge. |
| `Validation.InferenceMatchesN1` | fastapi/dms/outage_validation.py:22-45 | For an energized-pass outage the N-1 study of the named device exists and counts the same customers. |
| `Validation.PassIsConsistent` | fastapi/dms/outage_validation.py:22-69 | So no outage of an energized pass is a mismatch, for any tolerance. |
| `Validation.ReportsAgree` | fastapi/dms/outage_validation.py:16-69 | From the reports of `infer` and `analyze` over one radial feeder and one customer count: no outage of the energized pass is a mismatch. |
| `Validation.MismatchesAreStructural` | fastapi/dms/outage_validation.py:16-69 | So every mismatch counted over the whole report comes from the structural pass. |
| `CrossCheckLaws.NotInModelIff` | fastapi/dms/outage_validation.py:26-39 | A check says that the study does not know the device exactly when no closed edge of a studied kind has its id, and that is always a mismatch. |
| `CrossCheckLaws.MismatchIff` | fastapi/dms/outage_validation.py:26-69 | A check of an outage with a device is no mismatch exactly when the study opens that device and opening it alone loses, to within the tolerance, the customers the outage counts. |
| `CrossCheckLaws.StructuralVerdict` | fastapi/dms/outage_inference.py:118-140 | A structural-pass outage with an opened device above its ancestor is always a mismatch; otherwise it is blamed on a closed edge and the counts decide, or on none at the root and is no mismatch. |
| `CrossCheckLaws.DarkAncestorIsFlagged` | fastapi/dms/outage_validation.py:26-45 | So one whose common ancestor is dark is always a mismatch. |
| `CrossCheckLaws.LostIsLiveSection` | fastapi/dms/outage_validation.py:22-45 | On a feeder whose normally-closed network is radial and alone closed, N-1 of a live structural edge loses the energized part of its section. |
| `CrossCheckLaws.LiveAncestorIff` | fastapi/dms/outage_validation.py:22-45 | There an outage with a live ancestor is a mismatch exactly when its device is of a kind the study leaves out or the section holds more customers without supply than the tolerance. |
| `CrossCheckFeeders.OpenedSwitchIsFlagged` | fastapi/dms/outage_validation.py:26-45 | A meter behind an opened switch: every report holds an outage flagged as unknown to the study. |
| `CrossCheckFeeders.LiveTransformerIsFlagged` | fastapi/dms/outage_validation.py:26-45 | Two switches opened below a live transformer: every report holds an outage flagged for its customer count. |
| `Reconfiguration.RadialFeasible` | fastapi/dms/reconfiguration.py:40-69 | Passes exactly for configurations with a substation, no excess closed edge and every load and meter energized. |
| `Reconfiguration.FeasibleMeansForest` | fastapi/dms/reconfiguration.py:40-69 | Feasible means a forest with one substation in every tree that reaches every load and meter. |
| `Reconfiguration.StatesAreAll` | fastapi/dms/reconfiguration.py:103 | All 2^k switch states are tried, none twice. |
| `Reconfiguration.PresentIsConfigured` | fastapi/dms/reconfiguration.py:97-108 | The present switch positions are one of those states. |
| `Reconfiguration.EvaluationIs` | fastapi/dms/reconfiguration.py:72-86 | So whichever power flow of a feasible configuration is run, its loss and violations are the evaluation. |
| `Reconfiguration.Recommend` | fastapi/dms/reconfiguration.py:89-128 | Solves every feasible state, counts exactly those that converge, and returns the first lexicographic minimum of (loss, changes) over all 2^k states. |
| `Reconfiguration.RecommendationIsSound` | fastapi/dms/reconfiguration.py:114-128 | It never worsens a feasible present state, and its plan is empty exactly when the present state is feasible and no state loses less. |
| `SwitchingLaws.RecommendationIsLeast` | fastapi/dms/reconfiguration.py:25-37 | Of all edge lists that differ only in the position of switchable switches and ties that are no islanding breakers none loses less than the recommendation, or as much with fewer moves; the recommendation itself differs only so and evaluates as reported. |
| `SwitchingLaws.EqualsOpenFirst` | fastapi/dms/reconfiguration.py:103-120 | Among equals in loss and moves it leaves open the first edge of the list in which they differ. |
| `SwitchingLaws.PlanListsMoves` | fastapi/dms/reconfiguration.py:122-128 | The plan closes exactly the open edges it closes and opens exactly the closed ones it opens. |
| `Reconfiguration.RecommendedIsCleanIff` | fastapi/dms/reconfiguration.py:114-121 | The recommendation is free of violations exactly when some clean feasible state comes before every violating one by loss, changes and place: violations never decide. |
| `TwinSwitches.TwinSolved` | fastapi/dms/powerflow.py:56-212 | Two switches side by side under one megawatt: closing the first alone reports no loss and one overload, closing the second alone 0.001 kW and no violation. |
| `TwinSwitches.ViolationIsRecommended` | fastapi/dms/reconfiguration.py:89-128 | Standing on the second switch without a violation, the recommendation is to change to the first and its overload. |
| `Reconfiguration.ReportedLossOnGrid` | fastapi/dms/powerflow.py:206 | The loss a power flow reports is on the 0.001 grid. |
| `Reconfiguration.GridSeparates` | fastapi/dms/reconfiguration.py:117-119 | Two losses on the grid are equal exactly when they are within eps. |
| `Orientation.Search` | topology/geojson.py:230-243 | Numbers exactly the component of the root, tells nodes apart, and gives every node but the root a parent numbered lower and joined to it by an edge. |
| `Orientation.OrientRadial` | topology/geojson.py:209-254 | Raises exactly when the root is unknown; otherwise turns every edge between reached nodes towards the later number, leaves the rest, writes parents of reached nodes only and reports the unreached ones. |
| `OrientedNetwork.RunsNeverReturn` | topology/geojson.py:246-252 | Directed runs over oriented edges from a reached node climb the numbers, so self-loops aside there is no directed loop. |
| `OrientedNetwork.ParentsSpan` | topology/geojson.py:230-243 | Parent links are edges, one fewer than the nodes, and form a spanning tree of the root's undirected component. |
| `Downstream.DownstreamNodeIds` | fastapi/common.py:79-100 | Lists exactly the nodes reachable over the followed edges, each once, the start first. |
| `OrientedNetwork.DownstreamIsComponent` | fastapi/common.py:86-100 | Over an oriented network and ignoring switches, the walk from the root visits exactly its component. |
| `OrientedNetwork.EnergizedWalkIff` | fastapi/common.py:86-100 | Over closed edges only, the walk from the root finds every energized node exactly when each of them but the root has a closed edge oriented into it from another node. |
| `OrientedNetwork.OpenTieHidesNode` | fastapi/common.py:86-100 | On a radial feeder with an open tie that walk can miss an energized node. |
| `VoltageLevels.PropagateNominalKv` | topology/geojson.py:190-206 | Ends with a level exactly at the nodes that lines and switches join to a known level; known levels stay and the others are copies from such a node. |
| `VoltageLevels.LevelsMean` | topology/geojson.py:190-206 | Known levels stay, and both ends of an edge that is no transformer have a level or neither has. |
| `Hdlc.Fcs16` | drivers/dlms/transport.py:114-121 | The bit loop computes the step function of the check sequence. |
| `Hdlc.BitInjective` | drivers/dlms/transport.py:119-120 | The bit step never maps two registers to one. |
| `Hdlc.GoodIffChecked` | drivers/dlms/transport.py:141-144 | Body and check sequence bring the register to 0xF0B8 exactly when the check sequence is the body's. |
| `Hdlc.CheckValue` | drivers/dlms/transport.py:114-121 | The digits 1 to 9 give the catalogued check value 0x906E. |
| `Hdlc.BurstDetected` | drivers/dlms/transport.py:114-121 | Any change of two adjacent bytes changes the register, whatever surrounds them. |
| `Hdlc.BuildThenParse` | drivers/dlms/transport.py:124-147 | A frame is built exactly for addresses of 0 to 127, and parsing it returns the address, the low byte of the control value and the information field. |
| `Hdlc.FrameLayout` | drivers/dlms/transport.py:124-134 | On the line: 0x7E, twice the address plus one, the control byte, the information field, the check sequence low byte first, 0x7E. |
| `Hdlc.ParseThenBuild` | drivers/dlms/transport.py:124-147 | A frame that parses is the one built from its contents exactly when its extension bit is set. |
| `Hdlc.DamageIsRejected` | drivers/dlms/transport.py:137-147 | Any change confined to two adjacent bytes between the flags is rejected, also across body and check sequence. |
| `HdlcBursts.RegisterIsSerial` | drivers/dlms/transport.py:114-121 | The register over bytes is the register fed their bits one by one, the least significant first. |
| `HdlcBursts.BitBurstDetected` | drivers/dlms/transport.py:114-121 | Any change of sixteen consecutive bits changes the register, wherever they start within a byte. |
| `HdlcBursts.BurstIsRejected` | drivers/dlms/transport.py:137-147 | Any burst of up to sixteen bits between the flags is rejected, also one spread over three bytes. |
| `Hdlc.RecvHdlcFrame` | drivers/dlms/transport.py:177-200 | The byte loop computes the function `Receive`, the end of the stream included. |
| `Hdlc.ReadsFirstRun` | drivers/dlms/transport.py:177-200 | What precedes the first flag is dropped; between flags three bytes or more are the frame and fewer are skipped; at the end of the stream three or more still count. |
| `Hdlc.ReadBackIffNoInnerFlag` | drivers/dlms/transport.py:177-200 | Without byte stuffing a built frame is read back exactly when no inner byte is a flag. |
| `Hdlc.FlagInInfoIsLost` | drivers/dlms/transport.py:177-200 | A frame whose information field holds a flag byte is never read back as it was sent. |
| `Hdlc.LoneFlagIsLost` | drivers/dlms/transport.py:177-200 | The one-byte information field 0x7E is such a field. |
| `Hdlc.IFrameControlReadsBack` | drivers/dlms/transport.py:158-174 | Sequence numbers survive modulo eight and an I-frame is never taken for a U-frame. |
| `Hdlc.IFrameControlLayout` | drivers/dlms/transport.py:166-169 | The control byte is 32 times N(R) plus twice N(S), each modulo eight. |
| `Iec104.IReadsBack` | drivers/microgrid_iec104/transport.py:32-36 | An I-frame is built exactly for payloads up to 251 bytes and reads back with both counters modulo 32768, whatever follows. |
| `Iec104.UReadsBack` | drivers/microgrid_iec104/transport.py:44-83 | A U-frame reads back exactly when its function code has both low bits set. |
| `Iec104.RunReadsBack` | drivers/microgrid_iec104/transport.py:32-83 | Any concatenation of I, S and U frames reads back as it was sent. |
| `Iec104.WireLayout` | drivers/microgrid_iec104/transport.py:32-48 | On the line: 0x68, the length of the rest, then twice N(S) and twice N(R) low byte first, or 1, 0 and twice N(R), or the function code and three zeros. |
| `Iec104.LengthFits` | drivers/microgrid_iec104/transport.py:32-36 | An I-frame is built exactly when its length fits one byte. |
| `Iec104.Iec104Peer.SendAsdu` | drivers/microgrid_iec104/transport.py:95-99 | Sends the I-frame and then moves N(S), or, for a payload that is too long, changes nothing. |
| `Iec104.Iec104Peer.AckReceived` | drivers/microgrid_iec104/transport.py:105-109 | Moves N(R) modulo 32768 and sends it in an S-frame. |
| `Iec104.Iec104Peer.Handle` | drivers/microgrid_iec104/transport.py:152-174 | I-frames are acknowledged, U-frames answered by role, S-frames ignored. |
| `Iec104.AnswersMean` | drivers/microgrid_iec104/transport.py:152-174 | 0x43 is answered by 0x83 at both ends, 0x07 by 0x0B and 0x13 by 0x23 at the controlled one, an I-frame by the next N(R), and nothing else. |
| `Iec104Link.RunsKeepInv` | drivers/microgrid_iec104/transport.py:86-109 | In every interleaving of two peers the frames under way stay numbered in order and every byte belongs to one of them. |
| `Iec104Link.ArrivesInSequence` | drivers/microgrid_iec104/transport.py:168-170 | In every run an arriving I-frame's N(S) is the receiver's counter before it is incremented. |
| `Iec104Link.AcknowledgesOnlyWhatWasSent` | drivers/microgrid_iec104/transport.py:105-109 | In every run waiting bytes read as a whole frame, whose N(R) counts frames its sender received and this end sent. |
| `Iec104Link.OutstandingReadsOff` | drivers/microgrid_iec104/transport.py:86-109 | In every run the number of unacknowledged I-frames can be read off N(S) and a waiting N(R), modulo 32768, exactly while there are fewer than 32768 of them. |
| `Iec104Link.WindowOverrun` | drivers/microgrid_iec104/transport.py:95-99 | There is no send window: a run in which 32768 I-frames are unacknowledged and the counters say none is. |
| `Iec104Link.AnswersAsPeer` | drivers/microgrid_iec104/transport.py:152-174 | The two-peer machine answers a frame with the bytes and counters of the peer class. |
| `Controls.ControlPlane.SubmitAction` | fastapi/routers/controls.py:190-214 | Inserts a pending row and one entry, or changes nothing. |
| `Controls.ControlPlane.ApproveAction` | fastapi/routers/controls.py:228-245 | Moves a pending row to approved under the approver's name unless the action is high-risk and the approver requested it. |
| `Controls.ControlPlane.RejectAction` | fastapi/routers/controls.py:249-261 | Moves a pending row to rejected, or changes nothing. |
| `Controls.ControlPlane.ExecuteAction` | fastapi/routers/controls.py:265-328 | Dry runs execute from pending or approved; live actions need the switch, high-risk ones an approval; blocked attempts are only recorded; a handler's own HTTP error changes nothing. |
| `Controls.ControlPlane.RollbackAction` | fastapi/routers/controls.py:332-348 | Only an executed action rolls back, and only when its handler returns. |
| `ControlLaws.SubmitVerdict` | fastapi/routers/controls.py:190-214 | A request is taken exactly for a known type, a plan that returns and a new id, and waits undecided as asked for. |
| `ControlLaws.DecisionVerdict` | fastapi/routers/controls.py:228-261 | Approval and rejection succeed exactly on a pending row of the caller's reach, approval of high-risk actions under another name; otherwise nothing changes and the answer tells why. |
| `ControlLaws.ExecuteVerdict` | fastapi/routers/controls.py:265-328 | When a dry run or a live action succeeds, is recorded as blocked, fails, or is refused without a mark, with the answer of each case. |
| `ControlLaws.RollbackVerdict` | fastapi/routers/controls.py:332-348 | Exactly when an action is rolled back, and that otherwise nothing changes. |
| `Governance.RunsKeepInv` | fastapi/routers/controls.py:190-348 | Over every run from empty tables the trail explains every status, deciders match the rows and duties are separated. |
| `Governance.ConcludesOnce` | fastapi/routers/controls.py:264-328 | A trail that never breaks concludes an action once when it ends executed, failed or rolled back, and otherwise not at all. |
| `Governance.SecondPersonAndOnce` | fastapi/routers/controls.py:190-348 | A high-risk live action executed, failed or rolled back was approved before that by a name other than its requester's, and no action is concluded twice. |
| `Governance.RunsExtend` | fastapi/routers/controls.py:121-133 | Rows and audit entries are never taken away and what was requested never changes. |
| `Governance.SwitchOffBlocks` | fastapi/routers/controls.py:288-328 | Over every run with the master switch off no live action is executed or fails, and only one that had been executed before is rolled back. |
| `Governance.RollbackIgnoresSwitch` | fastapi/routers/controls.py:332-348 | That rollback remains: it does not read the switch. |
| `Governance.TenantsApart` | fastapi/routers/controls.py:155-158 | Over every run whose callers are bound to one tenant, the rows of other tenants stay as they were and no entry about them is added. |
| `Automation.AutomationEngine.RunProposal` | fastapi/routers/automation.py:132-187 | Submits, and in automatic mode approves and executes, moving the failure counter and breaker. |
| `Automation.AutomationEngine.Tick` | fastapi/routers/automation.py:190-209 | Runs the policies that were enabled and not tripped when the tick started, until an exception that is not an HTTP error. |
| `BreakerLaws.DecisionMeans` | fastapi/routers/automation.py:132-187 | How every proposal ends, case by case; a failure trips the breaker exactly from the third in a row. |
| `BreakerLaws.ProposedRow` | fastapi/routers/automation.py:136-145 | A submitted proposal's row is what the policy proposed, in its tenant and under its name. |
| `BreakerLaws.WhoRuns` | fastapi/routers/automation.py:190-209 | A policy unknown, disabled or tripped at the start of a tick requests nothing; an enabled one that is not tripped has its proposals made. |
| `BreakerLaws.CounterIsStreak` | fastapi/routers/automation.py:120-187 | After a turn the counter is the number of failures since the last success, the breaker is tripped if it was or some failure was the third in a row, and no other policy has moved. |
| `BreakerLaws.TripsFromThird` | fastapi/routers/automation.py:180-187 | A failing proposal trips exactly when the streak it ends has three failures or more. |
| `BreakerLaws.SettingsLast` | fastapi/routers/automation.py:240-262 | Over every run a trip lasts until a reset, and enabling, mode and tenant until a patch. |
| `BreakerLaws.PatchMeans` | fastapi/routers/automation.py:240-262 | A patch sets what it names on its own policy; a reset clears trip and counter. |
| `EngineLaws.RunByCalls` | fastapi/routers/automation.py:132-209 | Whatever people, engine and configuration changes do, some run of governed calls does too. |
| `EngineLaws.GovernedByPeopleOrEngine` | fastapi/routers/automation.py:132-187 | So approval by another name before every actuation, one conclusion and the status fold hold with the engine among the callers. |
| `EngineLaws.CarriedIff` | fastapi/routers/automation.py:132-178 | The engine carries a proposal out exactly when it can be submitted, in automatic mode, in bounds, with the switch on, a live handler returns, and the policy is not called supervisor if the risk is high. |
| `EngineLaws.CarriedLeaves` | fastapi/routers/automation.py:153-178 | What is carried out ends executed under the policy's name, approved by the supervisor if high-risk, with the failure counter cleared. |
| `EngineLaws.SupervisorIsRefused` | fastapi/routers/automation.py:153-184 | A high-risk proposal of a policy called supervisor stays pending without an approver and counts as a failure. |
| `EngineLaws.RecommendsOnly` | fastapi/routers/automation.py:147-151 | In recommend mode a proposal leaves at most one new pending action and no counter moves. |
| `EngineLaws.RunsKeepBreakers` | fastapi/routers/automation.py:180-184 | In every run a policy with three failures in a row is tripped. |
| `EngineLaws.TrippedIsIdle` | fastapi/routers/automation.py:190-209 | A policy disabled or tripped when a tick starts requests nothing in it. |
| `EngineLaws.TickIgnoresBreaker` | fastapi/routers/automation.py:190-209 | For all ticks: what a tick does to the actions and whether it runs to its end do not depend on the trips and counters that change while it runs. |
| `EngineLaws.NothingFollowsIff` | fastapi/routers/automation.py:190-209 | A list of proposals leaves the actions alone exactly when none can be submitted before one ends the tick. |
| `EngineLaws.TripIsLastIff` | fastapi/routers/automation.py:190-209 | A proposal that trips the breaker is the policy's last to touch the actions in the tick exactly when no later one can be submitted before one ends the tick. |
| `EngineLaws.TripDoesNotEndTick` | fastapi/routers/automation.py:190-209 | A policy that trips on its first proposal still has its second carried out in the same tick, and its counter cleared. |

## Left out

- Rounding of floats: arithmetic is exact, so statements about the estimator, the sweep and the elimination are about the formulas; only the rounding of reported losses and load sums is modelled.
- Ids are natural numbers that are only compared; unique ids and edges that name known nodes are assumed, as the source assumes them. An absent resistance, load or nominal voltage is the zero that the source replaces by its default.
- Orders without meaning: the sorting of contingencies by severity, of outages by customers, and of reported node lists.
- The chi-square test, normalized residuals and the bad-data flag, and the confidence shown per node: they need square roots and a table; the variances under them are modelled.
- Of a power flow's report the branch currents and apparent powers in display units, phase angles, line-to-neutral volts and unbalance; its convergence, violations and losses are modelled.
- Contingency.Analyze: sees the power flow as a parameter from switch positions to convergence, violations and loss; `Contingency.StudiedFlowIsUnique` is why positions suffice from a radial base. The base case enters only through its refusal of a network without a substation; its loss and violation count are not reported.
- PowerFlow.SolveFlow: convergence itself is not claimed, and at least one iteration is required, since with none the source has no branch currents to report; the mismatch is the one the test reads, before it is rounded to nine places for the report.
- Restoration.Restore: the caller's set of lost nodes is a value; the copy that the source passes to protect it is not needed.
- Orientation.OrientRadial: the numbers are fixed up to the order of the search, not to one order; every statement holds for each of them. `TiedNumbers` in the counterexample is the order that its edge list gives.
- Parsing of GeoJSON features, name patterns and coordinate rounding.
- Who may call which endpoint: roles are checked before these calls, and every statement holds for callers of any role. Each call is one step; two calls that interleave on one row are not modelled.
- Controls.ControlPlane.SubmitAction: a new id is an input, and an id already present is refused as the primary key refuses it.
- Targets, parameters, previews, reasons, before- and after-states, timestamps and model versions of control actions, the metrics and the reports read from the audit table.
- Automation.AutomationEngine.Tick: cooldowns, unknown policy kinds and the per-tick limit decide which proposals there are, and those are inputs; the table of automation events is not modelled. The controls switch is read once per proposal, and the trip threshold is its default of three.
- Sockets, threads and timeouts: a stream is the bytes that arrive, and a closed connection or a timeout is its end.
- Iec104Link: a peer's receive loop reads a frame and answers it in two steps, with sends in between; within one send or acknowledgement the lock makes the step atomic. Partial delivery of a frame is the receiver's wait for the rest.
- The data link negotiation, the wrapper framing over TCP, fault location, crew dispatch, register maps, simulators, telemetry, onboarding and readiness scoring.
