# GPStation in Dafny

GPStation runs jobs on remote machines: a server hands queued jobs to launchers, a launcher's worker
talks to the job's master over a data channel, and slave applications do the work, among them a
finite-volume solver for direct-current problems, a simulation host and a language-model host. This
project models the parts of it whose correctness does not show in any single function, and proves
what they are for.

`dafny verify dfyconfig.toml` checks everything.

## What is modelled

**The direct-current solver.** `VoxelGrid` and `Connectivity` number the cells and decide by
breadth-first search whether a domain is one component that meets both terminals. `FiniteVolume`
assembles the sparse system, `LinearSystem` applies its matrix, `PcgSolver` iterates. `EdgeSums` and
`SystemTheory` hold the theory of such matrices: symmetry, the quadratic form, definiteness exactly
when every cell is linked to a terminal, monotonicity. `DomainTheory` carries it over to the
assembled systems. `OrthogonalFamilies` and `ConjugateGradients` prove conjugacy and termination of
the iteration, so that in exact arithmetic the error for an indefinite matrix is dead code on
accepted domains and enough iterations always suffice; `PcgScaling` shows that the outcome does not
depend on the unit of the potentials, and `GridExactness` that the assembly is exact on quadratic
and the gradient on affine fields. `CellBalance`, `DcCurrent` and
`CurrentAccuracy` show that reported currents do not depend on where they are measured: exactly for
a solution, and up to an explicit bound for what the solver returns at its tolerance.
`PrismConductor` computes conductors that do not vary along their axis in closed form,
`JouleHeating` compares heating with voltage times current on every domain, and `LevelledDomains`
tells from the shape of a domain when the two are equal. `DcSolver` puts the pipeline together.
`FullGrid` shows that conductors filling their grid meet every assumption. Numbers are real; norms
are kept squared.

**The job protocol.** `JobRecords` and `JobStore` are the database rows and the writes of the job
service, `LauncherRegistry` the in-memory registry. `JobProtocol` is the state machine in which
everything between two awaits is one step and the steps of all tasks interleave: dispatch under the
assignment lock, launcher messages, heartbeats, kills, resets, disconnects, reconciliation, expiry.
Database and registry change at different moments, and heartbeats rewrite the launcher status, so
the invariant rests on the registry and the lock. `JobRuns` states what holds over all runs from an
empty server, and `JobHistory` reads every row off what happened to its job. `JobEvents` adds the reference-counted wake-up events of clients that wait for an
answer. `JobOrchestrator` writes the orchestrator's tasks out over registry, rows and events and
shows that each is a run of that state machine.

**Session protocols.** `CaeRecordStream` is the stop-and-wait stream of simulation records with its
watchdogs, timeouts and aborts; `CaeProgress` tells from which states it can still end in order, and
`CaeRecords` which records it lets through.
`BinaryFrames`, `Attachments`, `DataChannelPeers` and `ResultDelivery` cover framing, chunking and
reassembly in both directions, down to the bytes; JSON headers are any injective encoding.
`TransferVerdicts` says for any message what it leads to at either end. `CallOrigins` and `ResultOrigins` trace every byte of a queued call and of a resolved result to the
message it came in. `CallHandshake` is the call, result and acknowledgement exchange over two
ordered channels with the worker's busy guard.

**Leases, parser, limiter.** `GpuResidency` and `ResidencyTable` model leases that lock devices in
order and evict models across devices; `GpuEvictions` says which models they leave in place,
`GpuReleases` is about models requested on several device
lists, and `GpuProgress` brings every lease to its end. `Strings`, `OutputParser`, `JsonRecovery`
and `ParserSplits` model the streaming parser of language-model output, and `ParserMarkers` tells its
result from where the markers stand. `RateLimit` models the
sliding-window limiter.

## How the pieces fit

Code that updates objects, arrays or dictionaries is a class or a method with loops here, proved
against specification functions; the properties are lemmas about those functions. Protocols are step
relations with an invariant, a lemma per step, and theorems over arbitrary sequences of steps.

Some properties one might expect are false, and the project says exactly when they hold. The text
sent to a client can exceed the answer (`RunCanSendMore`); `StreamIsAnswerExactlyWhen` gives the
condition on the text. The outcome can depend on how the text is split into deltas
(`AmbiguousExample`); `IndependentExactlyWhenUnambiguous` gives the condition. A lease can release a
model that another lease uses, if one model is requested on several device lists
(`CrossingReleases`); `SafeExactlyWhenNotCrossing` gives the condition. No caller asks for that
today: the keys of language and vision models contain their devices
(app_v1/slaves/ai/app/llm/runtime.py:181-196, app_v1/slaves/ai/app/vision/runtime.py:24-30) and the
image model takes one fixed device, so `UniformIsSafe` applies, and a crossing run takes another
caller of `acquire_gpu_model_multi`. The summed heating can fall short of voltage times current
(`HeatingFallsShort`); `FullPowerExactlyWhenLevelled` gives the condition on the domain, and
`PowerBalance` says by how much. A waiting client can miss that its job has ended, if a task is
cancelled between its commit and its announcement (`CancelledAnnouncementStrands`); `NoLostWakeUp`
gives the condition.

## Model

| member | source | states |
|---|---|---|
| `VoxelGrid.Decode` | app_v1/slaves/cae/app/solver_framework/numerics/voxel.py:207-209 | the coordinates recomputed from a cell number are the ones it was numbered from |
| `VoxelGrid.Encode` | app_v1/slaves/cae/app/solver_framework/numerics/voxel.py:262-263 | numbering the recomputed coordinates gives the cell number back, so cells and coordinates correspond one to one |
| `VoxelGrid.NumberedInOrder` | app_v1/slaves/cae/app/solver_framework/numerics/voxel.py:262-263 | cells are numbered in the lexicographic order of their coordinates |
| `VoxelGrid.NeighborOpposite` | app_v1/slaves/cae/app/solver_framework/numerics/finite_volume.py:41-49 | the neighbour's neighbour in the opposite slot is the cell itself, and neighbours never leave the grid |
| `Connectivity.AdjacentExactlyWhen` | app_v1/slaves/cae/app/solver_framework/numerics/voxel.py:208-219 | two cells are neighbours if and only if they differ by one in exactly one coordinate |
| `Connectivity.SearchDecides` | app_v1/slaves/cae/app/solver_framework/numerics/voxel.py:204-223 | what an exhausted search has found has the size of the domain exactly when the domain is one component |
| `Connectivity.Enqueue` | app_v1/slaves/cae/app/solver_framework/numerics/voxel.py:210-219 | a cell enters the queue at most once and only while there is room, so the queue of `occupied_count` entries never overflows |
| `Connectivity.TerminalCells` | app_v1/slaves/cae/app/solver_framework/numerics/voxel.py:187-196 | the collected cells of a terminal slab are occupied, and there are some exactly when the domain meets that slab |
| `Connectivity.Search` | app_v1/slaves/cae/app/solver_framework/numerics/voxel.py:199-219 | the breadth-first loop terminates with a duplicate-free queue, closed under occupied neighbours and reachable from its start |
| `Connectivity.ValidateConnectivity` | app_v1/slaves/cae/app/solver_framework/numerics/voxel.py:180-225 | accepts exactly when the occupied cells meet both terminal slabs and are one 6-connected component; the first error exactly when a slab is missed |
| `FiniteVolume.FlatNonzero` | app_v1/slaves/cae/app/solver_framework/numerics/finite_volume.py:23 | the occupied cells in ascending order |
| `FiniteVolume.ActiveIndex` | app_v1/slaves/cae/app/solver_framework/numerics/finite_volume.py:24-25 | the active index inverts the list of active cells and is -1 elsewhere |
| `FiniteVolume.LinkCell` | app_v1/slaves/cae/app/solver_framework/numerics/finite_volume.py:41-49 | the six neighbour entries and the link part of the diagonal of one cell |
| `FiniteVolume.AssembleCell` | app_v1/slaves/cae/app/solver_framework/numerics/finite_volume.py:33-55 | diagonal, right-hand side and initial value of one cell, half-cell terminal couplings included |
| `FiniteVolume.CreateScalarSystem` | app_v1/slaves/cae/app/solver_framework/numerics/finite_volume.py:15-66 | the whole assembly: a system exactly when no cell is isolated, and then the specified one |
| `FiniteVolume.ActiveMember` | app_v1/slaves/cae/app/solver_framework/numerics/finite_volume.py:23-25 | the a-th active cell is occupied and its active index is a |
| `FiniteVolume.ActiveComplete` | app_v1/slaves/cae/app/solver_framework/numerics/finite_volume.py:23-25 | every occupied cell is in the list, at its active index |
| `FiniteVolume.SystemSize` | app_v1/slaves/cae/app/solver_framework/numerics/finite_volume.py:23 | there are as many unknowns as occupied cells |
| `LinearSystem.FiniteVolumeSystem.ApplyMatrix` | app_v1/slaves/cae/app/solver_framework/numerics/finite_volume.py:69-75 | the slot-by-slot masked update computes the matrix product |
| `LinearSystem.FiniteVolumeSystem.ApplyLinear` | app_v1/slaves/cae/app/solver_framework/numerics/finite_volume.py:69-75 | the product is linear |
| `EdgeSums.EdgeSwap` | app_v1/slaves/cae/app/solver_framework/numerics/finite_volume.py:41-49 | a sum over links is unchanged when every link is read from its other end |
| `EdgeSums.Symmetric` | app_v1/slaves/cae/app/solver_framework/numerics/finite_volume.py:69-75 | the matrix is symmetric: x'Ay equals y'Ax for all vectors |
| `SystemTheory.QuadraticForm` | app_v1/slaves/cae/app/solver_framework/numerics/finite_volume.py:69-75 | twice x'Ax is the weighted sum of squared neighbour differences plus twice the weighted squares of the terminal cells |
| `SystemTheory.PositiveDefinite` | app_v1/slaves/cae/app/solver_framework/numerics/finite_volume.py:97-99 | if every cell is linked to a terminal cell, x'Ax is positive for every non-zero x |
| `SystemTheory.DefiniteExactlyWhenGrounded` | app_v1/slaves/cae/app/solver_framework/numerics/finite_volume.py:97-99 | the matrix is positive definite if and only if every cell is linked to a terminal cell |
| `SystemTheory.UniqueSolution` | app_v1/slaves/cae/app/solver_framework/numerics/finite_volume.py:69-75 | two vectors with the same image are equal |
| `SystemTheory.InverseNonneg` | app_v1/slaves/cae/app/solver_framework/numerics/finite_volume.py:69-75 | a vector that the matrix makes non-positive is non-positive |
| `DomainTheory.MutualLinks` | app_v1/slaves/cae/app/solver_framework/numerics/finite_volume.py:41-49 | the assembled neighbour table is mutual, with equal weights on both sides of a link |
| `DomainTheory.ExcessIs` | app_v1/slaves/cae/app/solver_framework/numerics/finite_volume.py:48-55 | beyond its links a diagonal entry holds exactly the terminal couplings of its cell |
| `GridExactness.QuadraticIsExact` | app_v1/slaves/cae/app/solver_framework/numerics/finite_volume.py:26-49 | on a quadratic field sampled at cell centres the residual of an inner cell is the exact Laplacian, for any three spacings |
| `GridExactness.VolumeSourceOnce` | app_v1/slaves/cae/app/solver_framework/numerics/finite_volume.py:39-40 | a volume source adds its value to the residual of its cell, once |
| `DomainTheory.ConnectedNotIsolated` | app_v1/slaves/cae/app/solver_framework/numerics/finite_volume.py:56-57 | the isolated-cell error cannot occur on a connected domain that touches a terminal |
| `DomainTheory.AcceptedIsSpd` | app_v1/slaves/cae/app/solver_framework/numerics/finite_volume.py:15-66 | on every such domain the assembled system is symmetric positive definite |
| `DomainTheory.SolutionUnique` | app_v1/slaves/cae/app/solver_framework/numerics/finite_volume.py:15-66 | the assembled system has at most one solution |
| `DomainTheory.MaximumPrinciple` | app_v1/slaves/cae/app/solvers/dc_current_density/solver.py:63-64 | without a volume source every potential of a solution lies between the two terminal potentials |
| `FullGrid.FullGridAccepted` | app_v1/slaves/cae/app/solver_framework/numerics/voxel.py:180-225 | a conductor that fills its grid is accepted and its system is symmetric positive definite, at every grid size |
| `OrthogonalFamilies.Bessel` | app_v1/slaves/cae/app/solver_framework/numerics/finite_volume.py:95-110 | the components of a vector along pairwise orthogonal vectors do not exceed its own square |
| `OrthogonalFamilies.OrthogonalBound` | app_v1/slaves/cae/app/solver_framework/numerics/finite_volume.py:95-110 | there are no more pairwise orthogonal non-zero residuals than unknowns |
| `ConjugateGradients.AlwaysConsistent` | app_v1/slaves/cae/app/solver_framework/numerics/finite_volume.py:101-110 | at every iteration the updated residual is the true residual rhs - Ax, and r'z is current |
| `ConjugateGradients.LiveStep` | app_v1/slaves/cae/app/solver_framework/numerics/finite_volume.py:97-110 | while the residual is not zero both divisors of the iteration are positive |
| `ConjugateGradients.Conjugacy` | app_v1/slaves/cae/app/solver_framework/numerics/finite_volume.py:95-110 | every direction is A-conjugate to all earlier ones and every residual orthogonal to all earlier preconditioned residuals |
| `ConjugateGradients.FiniteTermination` | app_v1/slaves/cae/app/solver_framework/numerics/finite_volume.py:95-110 | after as many iterations as unknowns the residual is exactly zero |
| `PcgSolver.EnergyDecreases` | app_v1/slaves/cae/app/solver_framework/numerics/finite_volume.py:100-102 | the energy x'Ax/2 - rhs'x strictly decreases in every iteration that starts with a non-zero residual |
| `PcgSolver.DefiniteUntilWithin` | app_v1/slaves/cae/app/solver_framework/numerics/finite_volume.py:97-99 | for a symmetric positive definite system and a tolerance >= 0 the curvature test cannot fail before the tolerance is met |
| `PcgSolver.EventuallyWithin` | app_v1/slaves/cae/app/solver_framework/numerics/finite_volume.py:104-106 | such a system is within the tolerance after as many iterations as unknowns |
| `PcgSolver.SolvePcg` | app_v1/slaves/cae/app/solver_framework/numerics/finite_volume.py:78-117 | returns the first iterate within the tolerance among the allowed ones, with its number and its true relative residual, squared: the squared norm of the residual is it times that of the right-hand side, or it alone when that is zero; an indefinite matrix exactly at the first iterate whose curvature test fails, non-convergence only if no allowed iterate is within the tolerance; neither on a positive definite matrix with enough iterations |
| `PcgScaling.OutcomeScales` | app_v1/slaves/cae/app/solver_framework/numerics/finite_volume.py:78-117 | for c not 0, multiplying right-hand side and initial guess by c leaves the kind of outcome, the iteration count and the relative residual as they are and multiplies the solution by c |
| `PcgScaling.OutcomeUnique` | app_v1/slaves/cae/app/solver_framework/numerics/finite_volume.py:78-117 | matrix, right-hand side, initial guess, tolerance and iteration limit determine the outcome |
| `PcgScaling.NthTimes` | app_v1/slaves/cae/app/solver_framework/numerics/finite_volume.py:84-110 | every iterate of the scaled system is the scaled iterate |
| `PcgScaling.UnlinkedSolvedAtOnce` | app_v1/slaves/cae/app/solver_framework/numerics/finite_volume.py:87-107 | without links between cells one iteration reaches the zero residual from any initial guess: the preconditioner is the inverse diagonal |
| `CellBalance.FluxBalance` | app_v1/slaves/cae/app/solver_framework/numerics/finite_volume.py:41-55 | the residual of a cell is the net flux through its six faces, terminals included |
| `DcCurrent.SlabBalance` | app_v1/slaves/cae/app/solvers/dc_current_density/solver.py:141-193 | lateral fluxes cancel: the residuals of a slab sum to the difference of the fluxes through its two faces |
| `DcCurrent.Conservation` | app_v1/slaves/cae/app/solvers/dc_current_density/solver.py:141-193 | for any vector, the total density changes between two faces by minus conductivity times spacing times the residuals between them |
| `DcCurrent.SameCurrentEverywhere` | app_v1/slaves/cae/app/solvers/dc_current_density/solver.py:141-193 | for a solution the total current is the same at every cross-section position, both terminals included |
| `DcCurrent.FaceIndex` | app_v1/slaves/cae/app/solvers/dc_current_density/solver.py:152 | the selected face is a nearest one to the requested position, the upper one half-way between two, and an end face for positions at or beyond the ends |
| `DcCurrent.CrossSection` | app_v1/slaves/cae/app/solvers/dc_current_density/solver.py:141-193 | the row-by-row loop yields the density of every position, flipped as stored, and the total current as the non-negative one of total density times cell area and its negative |
| `CurrentAccuracy.CauchySchwarz` | app_v1/slaves/cae/app/solver_framework/numerics/finite_volume.py:103-106 | the square of a sum is at most the number of terms times the sum of the squares |
| `CurrentAccuracy.SlabIsRun` | app_v1/slaves/cae/app/solver_framework/numerics/finite_volume.py:23-25 | the residuals of a slab are those of a run of consecutive active cells |
| `CurrentAccuracy.CurrentMismatch` | app_v1/slaves/cae/app/solvers/dc_current_density/solver.py:152-193 | for a vector within the tolerance, the squared difference of the total densities of two cross-sections is bounded by cells times squared tolerance, with explicit factors |
| `PrismConductor.PrismInitialExact` | app_v1/slaves/cae/app/solver_framework/numerics/finite_volume.py:38 | on a domain that does not vary along the axis the linear initial guess solves the system exactly |
| `PrismConductor.PrismCurrent` | app_v1/slaves/cae/app/solvers/dc_current_density/solver.py:141-193 | there the total current at every position is conductivity times voltage over length times the occupied area, and the reported value is its absolute value |
| `PrismConductor.PrismPower` | app_v1/slaves/cae/app/solvers/dc_current_density/solver.py:84-98 | there the Joule heating summed over cell volumes is voltage times current |
| `JouleHeating.CellDissipation` | app_v1/slaves/cae/app/solvers/dc_current_density/solver.py:196-242 | half the squared one-sided slopes of a cell are half of what its links dissipate and all that its terminals do |
| `JouleHeating.EnergyBalance` | app_v1/slaves/cae/app/solvers/dc_current_density/solver.py:63-98 | for a solution half the squared slopes of all cells sum to what the two terminals feed in |
| `JouleHeating.PowerBalance` | app_v1/slaves/cae/app/solvers/dc_current_density/solver.py:84-98 | on every domain, for a solution and any conductivity: heating plus conductivity times the summed squares of half the slope differences is voltage times the current through any cross-section |
| `JouleHeating.JoulesLaw` | app_v1/slaves/cae/app/solvers/dc_current_density/solver.py:84-98 | so for conductivity >= 0 the summed heating never exceeds voltage times current, and for conductivity > 0 it reaches it exactly when both one-sided slopes agree at every cell |
| `JouleHeating.EvenMeansEqualSlopes` | app_v1/slaves/cae/app/solvers/dc_current_density/solver.py:196-242 | a cell is even exactly when its two one-sided slopes agree along each axis |
| `LevelledDomains.LevelProfileSolves` | app_v1/slaves/cae/app/solver_framework/numerics/finite_volume.py:15-66 | where the cells can be given levels, the linear profile of the levels solves the system |
| `LevelledDomains.ColumnPotential` | app_v1/slaves/cae/app/solvers/dc_current_density/solver.py:196-242 | in a solution whose one-sided slopes agree everywhere, a column that is full along the axis has the linear profile |
| `LevelledDomains.EvenLevels` | app_v1/slaves/cae/app/solvers/dc_current_density/solver.py:196-242 | on an accepted domain with a voltage, the potentials of such a solution give levels |
| `LevelledDomains.FullPowerExactlyWhenLevelled` | app_v1/slaves/cae/app/solvers/dc_current_density/solver.py:48-98 | on an accepted domain the summed heating of the solution is all of voltage times current if and only if the domain can be levelled (axial index on full columns, equal across every other link, nothing else in a terminal slab), or there is no voltage, or the conductivity is zero |
| `LevelledDomains.PrismIsLevelled` | app_v1/slaves/cae/app/solvers/dc_current_density/solver.py:84-98 | prisms can be levelled |
| `LevelledDomains.SolutionExists` | app_v1/slaves/cae/app/solver_framework/numerics/finite_volume.py:78-117 | every accepted domain has a solution, the last iterate of the solver |
| `LevelledDomains.HeatingFallsShort` | app_v1/slaves/cae/app/solvers/dc_current_density/solver.py:47-98 | on a grid of three cells each way, the smallest the solver takes, with one full column and a cell beside its last, the heating is less than voltage times current, for every spacing, voltage and positive conductivity |
| `PrismConductor.Gradient` | app_v1/slaves/cae/app/solvers/dc_current_density/solver.py:196-242 | the loop over the axes averages both one-sided slopes, terminal half cells included |
| `GridExactness.AffineGradientIsExact` | app_v1/slaves/cae/app/solvers/dc_current_density/solver.py:196-242 | on an affine field the gradient of an inner cell is exact on all three axes |
| `DcSolver.SolvePotentials` | app_v1/slaves/cae/app/solvers/dc_current_density/solver.py:48-64 | the whole pipeline: rejects exactly the unconnected domains; otherwise never indefinite, solved with enough iterations, within tolerance, and after 0 iterations on prisms |
| `DcSolver.ZeroToleranceSolves` | app_v1/slaves/cae/app/solver_framework/numerics/finite_volume.py:103-106 | a zero relative residual means an exact solution |
| `DcSolver.DenseField` | app_v1/slaves/cae/app/solver_framework/numerics/voxel.py:245-259 | active values are placed at their grid positions, rows flipped, zero elsewhere |
| `DcSolver.JouleField` | app_v1/slaves/cae/app/solvers/dc_current_density/solver.py:84-98 | the stored heating at every grid position is the heating of that cell |
| `LauncherRegistry.RuntimeRegistry.MarkLauncherJob` | app_v1/server/app/state.py:103-118 | sets the current job of a registered launcher and changes nothing else |
| `LauncherRegistry.RuntimeRegistry.ClearLauncherWorker` | app_v1/server/app/state.py:120-128 | a registered launcher loses its job and its reset mark |
| `LauncherRegistry.RuntimeRegistry.MarkLauncherResetting` | app_v1/server/app/state.py:130-137 | refused exactly for unknown launchers and for launchers already resetting |
| `LauncherRegistry.IdleAfter` | app_v1/server/app/state.py:103-158 | what every registry write does to the idle launchers: a marked one leaves them until it is cleared, a resetting one until its reset is done |
| `LauncherRegistry.MatchesAfter` | app_v1/server/app/state.py:103-163 | what every registry write does to the matches: only marking makes one, for that job alone, and a matched launcher is never idle |
| `JobStore.JobService.ClaimNextCompatibleJob` | app_v1/server/app/service/job_service.py:182-233 | claims the first claimable pair of unlocked rows in the order of the query (oldest job, then latest heartbeat, then longest connected) and marks both rows; nothing only if there is no such pair |
| `JobStore.JobService.FirstPair` | app_v1/server/app/service/job_service.py:201-216 | the search over claimable pairs returns one that no other precedes |
| `JobStore.OldestJobFirst` | app_v1/server/app/service/job_service.py:192-216 | field by field: the claimed job is queued and its launcher idle, ready, of the job's user and with its application; no such pair has an older job, or the same job with a launcher heard of later, connected longer or numbered lower |
| `JobStore.JobService.UpdateJobOfLauncher` | app_v1/server/app/service/job_service.py:348-386 | writes the row as `JobHistory.AcceptedMessages` says or nothing, releases the launcher on a final message, and settles at most the job it names |
| `JobHistory.AcceptedMessages` | app_v1/server/app/service/job_service.py:236-386 | a message is written exactly if the job is that launcher's and user's and in the state in which the message is due; an answer leads to answer-ready with the answer flag, then running, a result to succeeded, an error to failed, a cancellation to cancelled, progress counts one more, and no other row changes |
| `JobStore.JobService.KillJob` | app_v1/server/app/service/job_service.py:388-417 | found exactly for a row of the user and launcher asked for; a queued job dies at once, an active one is only asked to stop, an ended one is left alone |
| `JobStore.JobService.FailAssignedJob` | app_v1/server/app/service/job_service.py:419-448 | ends exactly an active job of that launcher and releases the launcher |
| `JobStore.JobService.DisconnectLaunchersAndFailJobs` | app_v1/server/app/service/job_service.py:450-481 | marks the launchers and fails exactly their active jobs, which it returns |
| `JobStore.JobService.ExpireStaleJobs` | app_v1/server/app/service/job_service.py:512-554 | fails exactly the open jobs older than a day, or active and silent for more than two hours, whose rows are not locked, and releases exactly their connected launchers |
| `JobProtocol.RetiringKeepsInv` | app_v1/server/app/service/job_service.py:348-554 | any write that only moves rows forward without claiming keeps the protocol invariant |
| `JobProtocol.FinishMessageInv` | app_v1/server/app/service/job_orchestrator.py:291-294 | freeing the registry entry after a final message keeps the invariant, because that job has ended in the database |
| `JobProtocol.ReadIdleInv` | app_v1/server/app/service/job_orchestrator.py:380-383 | the idle launchers read under the assignment lock carry no active job |
| `JobProtocol.ClaimJobInv` | app_v1/server/app/service/job_orchestrator.py:384-393 | a claim on an idle launcher keeps the invariant although its registry entry is marked only later |
| `JobProtocol.MarkClaimedInv` | app_v1/server/app/service/job_orchestrator.py:394-399 | marking the claimed job in the registry closes the window |
| `JobProtocol.StepInv` | app_v1/server/app/service/job_orchestrator.py:128-471 | every step of dispatch, launcher events, heartbeats, kill, reset, expiry, disconnect and reconciliation keeps the invariant |
| `JobRuns.AssignmentsAgree` | app_v1/server/app/service/job_orchestrator.py:374-414 | in every interleaving a launcher has at most one active job, and an active job of a registered launcher is its current job outside the locked window |
| `JobRuns.StepAdvances` | app_v1/server/app/service/job_service.py:182-554 | every step makes a legal state move: rows only move forward, ended rows are untouched, launcher and attempts change only by a claim |
| `JobRuns.EndedForGood` | app_v1/server/app/service/job_service.py:182-554 | an ended job keeps its whole record in every later state of every run |
| `JobRuns.ClaimedAtMostOnce` | app_v1/server/app/service/job_service.py:222-233 | in every run a job is claimed at most once, and its attempt count says how often |
| `JobRuns.DepartedLaunchersHoldNoJob` | app_v1/server/app/service/job_orchestrator.py:296-306 | in every run, once a connection has been torn down no job stays active on its launcher |
| `JobHistory.StepMarks` | app_v1/server/app/service/job_service.py:182-554 | every step of any task changes the row of a job exactly as its meaning for that job says, in state, flags, counters and times, and no other row |
| `JobHistory.StepOnLauncher` | app_v1/server/app/service/job_service.py:182-554 | every step changes the row of a launcher exactly so: torn down for good, heartbeat kept, busy on a claim, ready when its job has ended unless it is disconnected, otherwise unchanged |
| `JobHistory.StepOnRegistry` | app_v1/server/app/state.py:39-137 | every step changes the registry entry of a launcher exactly so: free on registration, on its job when a claim is marked, free after the last message of its job and after a finished reset, marked while it is reset, gone when taken out, otherwise unchanged |
| `JobHistory.RowsTellTheirHistory` | app_v1/server/app/service/job_service.py:182-554 | in every run a job is succeeded if and only if a result of its launcher was taken, failed if and only if an error was taken, its launcher was lost, it could not be delivered or it expired, cancelled if and only if its launcher said so or a reset did, killed if and only if it was killed in the queue; answer flag, progress, attempts and the wish to stop are the counts of what happened |
| `JobHistory.JobsRunAtTheirOwners` | app_v1/server/app/service/job_service.py:192-216 | in every run no launcher is ever given a job of another user or of an application it does not have |
| `JobHistory.SettlesExactlyWhen` | app_v1/server/app/service/job_orchestrator.py:222-306 | a step settles a job exactly if it takes the answer or ends the job and there was no answer before, and every step that means anything for a job but its creation and claim announces it |
| `JobEvents.RegistryEvents.SetJobEvent` | app_v1/server/app/state.py:211-215 | sets the event of the job, if somebody waits |
| `JobEvents.RegistryEvents.PrepareJobWait` | app_v1/server/app/state.py:217-225 | registers one more waiter and returns the job's event, a new one for the first waiter |
| `JobEvents.RegistryEvents.ReleasePreparedJobEvent` | app_v1/server/app/state.py:235-243 | takes one waiter off, and the entry with the last one |
| `JobEvents.CommitsAreAnnounced` | app_v1/server/app/service/job_orchestrator.py:128-471 | no step answers or ends a job that its task does not announce afterwards |
| `JobEvents.AfterCounted` | app_v1/server/app/state.py:211-243 | every action keeps the counters equal to the numbers of outstanding waiters, each holding the current event |
| `JobEvents.AfterSound` | app_v1/server/app/service/job_orchestrator.py:97-126 | every action keeps every waiter of a settled job awake or about to be woken |
| `JobEvents.AfterLostUnset` | app_v1/server/app/state.py:211-243 | every action keeps the events of different jobs different, and the event of a job whose announcement was cancelled unset until the next announcement |
| `JobEvents.NoLostWakeUp` | app_v1/server/app/service/job_orchestrator.py:97-126 | in every run, once nobody owes the announcement of a job that has been answered or has ended, a client that waits for it can wake up if and only if its task was not cancelled before an announcement that no later one made good |
| `JobEvents.WaitsExactlyWhile` | app_v1/server/app/service/job_orchestrator.py:97-126 | a client goes on waiting exactly for a visible job that is neither answered nor over |
| `JobEvents.CancelledAnnouncementStrands` | app_v1/server/app/service/job_orchestrator.py:128-178 | a concrete run in which a task cancelled between commit and announcement leaves a client waiting |
| `JobEvents.CountersAreExact` | app_v1/server/app/state.py:217-243 | in every run a job has an entry exactly while somebody waits for it, counted by their number |
| `JobEvents.FirstEventIsFresh` | app_v1/server/app/state.py:219-223 | the first waiter of a job never gets an event that is already set |
| `JobOrchestrator.Orchestrator.DispatchNextJob` | app_v1/server/app/service/job_orchestrator.py:374-406 | one round under the lock is a run of the protocol, assigns the first claimable unlocked pair of an idle launcher and marks it; nothing only if there is none |
| `JobOrchestrator.Orchestrator.HandleLauncherJobEvent` | app_v1/server/app/service/job_orchestrator.py:222-294 | a launcher's message is a run of the protocol, accepted exactly on a registry match and an expected row, and every job it settles is announced |
| `JobOrchestrator.Orchestrator.HandleWorkerResetDone` | app_v1/server/app/service/job_orchestrator.py:230-236 | a reset report is accepted exactly for a resetting launcher without a job, which is cleared and idle afterwards; otherwise the connection is closed |
| `JobOrchestrator.Orchestrator.KillJob` | app_v1/server/app/service/job_orchestrator.py:128-158 | the locked part of a kill is a run of the protocol; it names the launcher an active job runs on, and announces what it settles |
| `JobOrchestrator.Orchestrator.ResetLauncherWorker` | app_v1/server/app/service/job_orchestrator.py:180-216 | up to the message to the launcher: a reset marks the launcher and asks exactly its current job to stop, and announces it; refused exactly for unknown or resetting launchers, with the rows unchanged |
| `JobOrchestrator.ResetAsksOneJob` | app_v1/server/app/service/job_orchestrator.py:180-216 | a reset changes no row but that of the launcher's current job, which it asks to stop if it is the launcher's, visible to the user and not over |
| `JobOrchestrator.Orchestrator.LauncherDisconnected` | app_v1/server/app/service/job_orchestrator.py:296-306 | the end of a connection is a run of the protocol, after which nothing is active on the launcher and every job it failed is announced |
| `ResidencyTable.NormalizeDeviceIds` | app_v1/slaves/ai/app/gpu_residency.py:190-198 | the distinct ids of existing devices, strictly increasing |
| `ResidencyTable.IncreasingIsUnique` | app_v1/slaves/ai/app/gpu_residency.py:194-198 | there is only one such list, so leases of the same devices lock them in the same order |
| `ResidencyTable.LoadedModels.FindConflicting` | app_v1/slaves/ai/app/gpu_residency.py:79-90 | the nested loops collect exactly the conflicting records, none twice, each with the first of the lease's devices that holds it |
| `ResidencyTable.LoadedModels.Remove` | app_v1/slaves/ai/app/gpu_residency.py:94-99 | removes the record from all its devices where it is still the current one, and empty dictionaries with it |
| `ResidencyTable.LoadedModels.RegisterModel` | app_v1/slaves/ai/app/gpu_residency.py:101-109 | makes the record the current one of its role on all its devices |
| `GpuResidency.HoldersAreApart` | app_v1/slaves/ai/app/gpu_residency.py:75-77 | two leases that hold all their locks share no device |
| `GpuResidency.EvictSpares` | app_v1/slaves/ai/app/gpu_residency.py:92-99 | an eviction, which also edits devices the evictor has not locked, leaves every other lease in order |
| `GpuResidency.PutKeeps` | app_v1/slaves/ai/app/gpu_residency.py:101-109 | registering where nothing conflicts any more keeps records where they say and co-residents compatible, also if the same model is there with another device list |
| `GpuResidency.StepInv` | app_v1/slaves/ai/app/gpu_residency.py:69-150 | every step of every lease keeps the invariant |
| `GpuResidency.CoResidentsAreCompatible` | app_v1/slaves/ai/app/gpu_residency.py:79-109 | in every interleaving two models on one device have different roles and neither is exclusive |
| `GpuResidency.ActiveStaysResident` | app_v1/slaves/ai/app/gpu_residency.py:69-139 | the model of a lease in progress stays resident on all its devices until the lease ends |
| `GpuResidency.ReleasesOnlyUnused` | app_v1/slaves/ai/app/gpu_residency.py:93 | a release is never called for the record of a lease in progress; if it is the same model at all, it was loaded for another device list |
| `GpuEvictions.EvictsExactly` | app_v1/slaves/ai/app/gpu_residency.py:79-90 | in every reachable state a model found on a lease's devices is to be removed if and only if it is another model and has the lease's role, or one of the two is exclusive |
| `GpuEvictions.CoEvictsExactly` | app_v1/slaves/ai/app/gpu_residency.py:118-128 | a co-resident eviction takes exactly the models of other roles |
| `GpuEvictions.ResidentStays` | app_v1/slaves/ai/app/gpu_residency.py:69-150 | in every run a resident model stays where it is while only leases of other roles, not exclusive either, use its devices |
| `GpuEvictions.BothStayResident` | app_v1/slaves/ai/app/gpu_residency.py:69-150 | two such leases on one device, one after the other, leave both models resident |
| `GpuReleases.SafeExactlyWhenNotCrossing` | app_v1/slaves/ai/app/gpu_residency.py:69-124 | for any set of lease requests: no run releases a model that a lease in progress uses, if and only if no model is requested on two device lists of which another model's devices meet one and avoid the other |
| `GpuReleases.CrossingReleases` | app_v1/slaves/ai/app/gpu_residency.py:79-109 | for any requests that do cross, a run that releases a model in use |
| `GpuReleases.UniformIsSafe` | app_v1/slaves/ai/app/gpu_residency.py:93-109 | with one device list per model, as today's callers request them, records are on all of their devices or on none in every run, and no model in use is released |
| `GpuResidency.CoEvictionEmptiesDevices` | app_v1/slaves/ai/app/gpu_residency.py:118-139 | after a co-resident eviction the lease's devices hold its model alone |
| `GpuResidency.NoDeadlock` | app_v1/slaves/ai/app/gpu_residency.py:69-77 | in every reachable state with an unfinished lease some unfinished lease can take its next lock or go on |
| `GpuProgress.EndOne` | app_v1/slaves/ai/app/gpu_residency.py:69-150 | a lease whose remaining devices are free can run to its end while all others stand still |
| `GpuProgress.EveryLeaseCanEnd` | app_v1/slaves/ai/app/gpu_residency.py:69-150 | from every reachable state some run that enters no lease ends every lease and frees every device |
| `CaeRecordStream.StepInv` | app_v1/slaves/cae/app/runtime.py:126-445 | every step of program, master, watchdogs and timeouts keeps the stream in shape |
| `CaeRecordStream.DeliveredIsStream` | app_v1/slaves/cae/app/runtime.py:126-197 | in every run the master is handed records 1, 2, ... without gap or repetition, then at most one terminal item numbered n + 1; a complete item lists exactly 1..n |
| `CaeRecordStream.StopAndWait` | app_v1/slaves/cae/app/runtime.py:175-197 | record i + 1 is not even produced before record i was delivered and acknowledged |
| `CaeRecordStream.BytesWithinBudget` | app_v1/slaves/cae/app/runtime.py:184-191 | the recorded bytes never exceed the budget |
| `CaeRecords.RecordedOnce` | app_v1/slaves/cae/app/runtime.py:175-191 | in every run the names of delivered and queued records are pairwise different and declared, and their bytes together stay within 64 MiB |
| `CaeRecords.AcceptedExactlyWhen` | app_v1/slaves/cae/app/runtime.py:175-191 | a record is accepted if and only if its name is declared, no earlier record has it, and its bytes fit beside those of all earlier records |
| `CaeRecords.ClosesExactlyWhen` | app_v1/slaves/cae/app/runtime.py:126-445 | an open run is closed exactly by a wrong acknowledgement, a terminal item, a cancelled wait, a watchdog or an abort |
| `CaeRecords.PendingExactlyWhile` | app_v1/slaves/cae/app/runtime.py:126-445 | what every step does to the record to be acknowledged; after a run timeout its acknowledgement is still taken |
| `CaeRecordStream.NoSecondPending` | app_v1/slaves/cae/app/runtime.py:150-153 | the error for a second unacknowledged record is unreachable |
| `CaeRecordStream.TerminalIsLast` | app_v1/slaves/cae/app/runtime.py:166-168 | after a terminal item the run is closed, the queue is empty and a further `next` is refused |
| `CaeRecordStream.NoMutualWait` | app_v1/slaves/cae/app/runtime.py:144-196 | on an open run whose master waits with nothing queued, the program is neither over nor waiting for an acknowledgement |
| `CaeProgress.CanEndExactlyWhenAckIsRight` | app_v1/slaves/cae/app/runtime.py:126-445 | from a reachable open run some run without timeouts, watchdogs, aborts and departures hands out a terminal item, if and only if no `next` with a wrong acknowledgement is under way |
| `CaeRecordStream.CaeRun.Acknowledge` | app_v1/slaves/cae/app/runtime.py:131-142 | a wrong acknowledgement aborts the run, the right one resolves the pending record; the first call starts the program |
| `CaeRecordStream.CaeRun.Deliver` | app_v1/slaves/cae/app/runtime.py:144-173 | hands out the head of the queue; a record becomes pending, a terminal item closes the run |
| `CaeRecordStream.CaeRun.RecordValue` | app_v1/slaves/cae/app/runtime.py:175-195 | numbers and queues an accepted record with its name and bytes, or makes the program raise; which ones are accepted is `CaeRecords.AcceptedExactlyWhen` |
| `CaeRecordStream.CaeRun.Fail` | app_v1/slaves/cae/app/runtime.py:335-349 | drops the pending record unless the run timed out, and queues the failure |
| `CaeRecordStream.CaeRun.WatchRecordAck` | app_v1/slaves/cae/app/runtime.py:370-383 | expires an unanswered record and closes the run, and does nothing otherwise |
| `CaeRecordStream.CaeRun.AbortRun` | app_v1/slaves/cae/app/runtime.py:434-444 | drops the pending record and closes the run |
| `Strings.LStripConcat` | app_v1/slaves/ai/app/llm/generation.py:201-204 | stripping the front of a concatenation only concerns its first non-blank part, as the delta-wise stripping assumes |
| `Strings.FindInPrefix` | app_v1/slaves/ai/app/llm/generation.py:92-97 | a prefix shows the same first occurrence once it contains it |
| `OutputParser.GenerationOutputParser.AcceptFinal` | app_v1/slaves/ai/app/llm/generation.py:198-213 | in text format what has been emitted is the final text but its last len(turn marker) characters; in JSON format nothing is emitted |
| `OutputParser.GenerationOutputParser.Feed` | app_v1/slaves/ai/app/llm/generation.py:85-124 | after any delta the parser's state is a function of the whole text so far and of where its final part was found |
| `OutputParser.GenerationOutputParser.CutReasoning` | app_v1/slaves/ai/app/llm/generation.py:91-124 | one look at the buffer finds exactly the specified cut, format and length of the reasoning, or notes the phase; `ParserMarkers` says where these are |
| `OutputParser.ReasoningAtCut` | app_v1/slaves/ai/app/llm/generation.py:99-117 | the reasoning found depends only on the text up to the cut |
| `OutputParser.GenerationOutputParser.Finish` | app_v1/slaves/ai/app/llm/generation.py:126-196 | the errors, the answer and the reasoning are those of the whole text in either format, told by `ParserMarkers`, and everything sent adds up to the specified stream |
| `JsonRecovery.TakeAnswer` | app_v1/slaves/ai/app/llm/generation.py:143-174 | the two loops take the whole answer, or the value of the one maximal object in it, or refuse |
| `JsonRecovery.CandidatesAre` | app_v1/slaves/ai/app/llm/generation.py:150-160 | the candidates are exactly the positions of an opening brace at which the library decodes an object, with its value and end |
| `JsonRecovery.RecoveredExactlyWhenFirstCovers` | app_v1/slaves/ai/app/llm/generation.py:148-172 | an answer that is no JSON is accepted exactly when the first object in it contains all others, and then that object is taken |
| `OutputParser.StreamIsAnswerExactlyWhen` | app_v1/slaves/ai/app/llm/generation.py:137-181 | everything sent starts with the answer; it equals the answer if and only if a turn marker ends the final text with no blank before or behind it, or there is none and the blanks at the end are no more than its length |
| `ParserSplits.RunSendsAnswerExactlyWhen` | app_v1/slaves/ai/app/llm/generation.py:85-181 | the same condition for whole runs over any deltas |
| `ParserSplits.RunCanSendMore` | app_v1/slaves/ai/app/llm/generation.py:137-139 | a concrete run that sends more than the answer |
| `ParserSplits.ParseAll` | app_v1/slaves/ai/app/llm/generation.py:85-196 | feeding all deltas and finishing computes the specified outcome and reasoning, in either format |
| `ParserSplits.PlainIsIndependent` | app_v1/slaves/ai/app/llm/generation.py:88-89 | with reasoning off the outcome depends on the text alone, in either format |
| `ParserSplits.UnambiguousIsIndependent` | app_v1/slaves/ai/app/llm/generation.py:91-124 | with reasoning on, outcome and reasoning of an unambiguous text do not depend on the split, in either format |
| `ParserSplits.IndependentExactlyWhenUnambiguous` | app_v1/slaves/ai/app/llm/generation.py:91-124 | with reasoning on, answer, stream and reasoning of the text format are independent of the split if and only if the text has no `</think>`, or the Gemma start ends no later than the first one, or there is exactly one and no Gemma start |
| `ParserSplits.AmbiguousDependsOnSplit` | app_v1/slaves/ai/app/llm/generation.py:109-118 | for every other text two given splits have different outcomes |
| `ParserSplits.AmbiguousExample` | app_v1/slaves/ai/app/llm/generation.py:109-114 | a concrete text of that kind |
| `ParserMarkers.QwenUnterminatedExactlyWhen` | app_v1/slaves/ai/app/llm/generation.py:91-131 | with reasoning on, for every split: refused for an open think block if and only if the text has `<think>`, no `</think>` and no Gemma start |
| `ParserMarkers.GemmaUnterminatedExactlyWhen` | app_v1/slaves/ai/app/llm/generation.py:91-129 | for every split of a text with a Gemma start and no `</think>` before it: refused for an open thought channel if and only if no end marker follows |
| `ParserMarkers.GemmaUnterminatedHasStart` | app_v1/slaves/ai/app/llm/generation.py:91-129 | no text without a Gemma start is refused for an open thought channel |
| `ParserMarkers.ChannelIsCutOff` | app_v1/slaves/ai/app/llm/generation.py:91-107 | a complete thought channel is cut off whatever the split: the reasoning is what stands between its markers, the final text what follows |
| `ParserMarkers.BlockIsCutOff` | app_v1/slaves/ai/app/llm/generation.py:109-118 | so is a think block that is closed once, from its opening marker or from the beginning |
| `ParserMarkers.PlainIsFinal` | app_v1/slaves/ai/app/llm/generation.py:120-136 | without a Gemma start and without `</think>` the whole text is final |
| `ParserMarkers.AnswerIs` | app_v1/slaves/ai/app/llm/generation.py:137-141 | a turn marker at the end of the final text is dropped with the blanks around it, otherwise only blanks are; if nothing is left there is no answer |
| `ParserMarkers.RunIsAnsweredFromFinal` | app_v1/slaves/ai/app/llm/generation.py:126-141 | every run not refused as unterminated is answered from its final text, which is the whole text when reasoning is off |
| `ParserMarkers.JsonAnswer` | app_v1/slaves/ai/app/llm/generation.py:143-181 | in JSON format the client is sent one object written anew: the whole answer if it decodes to one, else the first object in it if that contains all others |
| `RateLimit.RateLimiter.EnforceAccessKeyRateLimit` | app_v1/server/app/auth.py:159-182 | the pruned queues with their sweep decide exactly like counting the full history of the last minute, for every limit and a clock that never goes back |
| `RateLimit.RateLimiter.Sweep` | app_v1/server/app/auth.py:169-176 | the sweep over all keys loses no admission that can still count |
| `RateLimit.PrunedCounts` | app_v1/server/app/auth.py:177-180 | a pruned queue has exactly the admissions of the window |
| `RateLimit.NoWindowOverLimit` | app_v1/server/app/auth.py:159-182 | for a fixed limit no window of a minute ever contains more admissions of a key than the limit |
| `RateLimit.RefusedExactlyWhen` | app_v1/server/app/auth.py:159-182 | a call with limit n is refused if and only if n is not positive or the n-th last admission of its key is less than a minute old; exactly the admitted calls are recorded |
| `BinaryFrames.LengthRoundTrip` | app_v1/sdk/master/python/gpstation_master/binary.py:12 | the four bytes of the length are its digits, the highest first, and are read back unchanged |
| `BinaryFrames.FrameRoundTrip` | app_v1/sdk/master/python/gpstation_master/binary.py:10-27 | decoding an encoded frame gives header and body back |
| `BinaryFrames.AcceptedFrameShape` | app_v1/sdk/master/python/gpstation_master/binary.py:15-27 | a frame decodes if and only if it is exactly its length, its header and its body |
| `Attachments.SendRequestAttachment` | app_v1/sdk/master/python/gpstation_master/job_peer.py:252-284 | the loop sends the specified chunks, one empty chunk for empty data |
| `Attachments.SendAttachment` | app_v1/sdk/slave/channel.py:33-75 | the worker's differently written loop sends the same chunks |
| `TransferVerdicts.ChunksAre` | app_v1/sdk/master/python/gpstation_master/job_peer.py:252-284 | the chunks of an attachment: numbered from 0, 16 KiB each but the last, which alone is final and ends the data |
| `Attachments.AcceptedIsNext` | app_v1/sdk/slave/worker.py:397-418 | an accepted chunk has the next index of its file, is appended there and changes nothing else; sizes stay as declared |
| `TransferVerdicts.TakenExactlyWhen` | app_v1/sdk/slave/worker.py:397-423 | a chunk is taken if and only if a file has its id, is not complete, expects its number, has room for it within the limit, and is filled exactly by a final chunk |
| `Attachments.AcceptingIsIncomplete` | app_v1/sdk/slave/worker.py:401-402 | a complete table accepts no further chunk, so nothing is delivered before the last one |
| `Attachments.CompleteIsDeclared` | app_v1/sdk/slave/worker.py:419-431 | when all files are complete each has exactly its declared size |
| `Attachments.TransferRebuilds` | app_v1/sdk/slave/worker.py:388-434 | all chunks of attachments with distinct ids rebuild identical bytes in declared order |
| `DataChannelPeers.WorkerJobPeerState.DeclareFiles` | app_v1/sdk/slave/worker.py:349-382 | one pass over the metadata rejects exactly empty or repeated ids, negative and oversized sizes |
| `DataChannelPeers.WorkerJobPeerState.ReceiveJobCall` | app_v1/sdk/slave/worker.py:271-289 | a call is refused, queued or awaited with its attachments, in the order of the checks |
| `TransferVerdicts.CallVerdict` | app_v1/sdk/slave/worker.py:277-289 | which call is answered by which single error, queued or awaited: the whole new state in every case |
| `TransferVerdicts.BusyWorkerOnlyRefuses` | app_v1/sdk/slave/worker.py:277-289 | from setting the busy guard to clearing it every call and chunk that arrives is answered with exactly one error, and nothing is queued or awaited |
| `TransferVerdicts.BinaryVerdict` | app_v1/sdk/slave/worker.py:227-250 | a binary message extends or completes the awaited call if and only if it is at most 1 MiB and the next chunk of one of its files; anything else ends the call with one error |
| `DataChannelPeers.WorkerJobPeerState.ReceiveBinary` | app_v1/sdk/slave/worker.py:227-250 | a binary message extends or completes the awaited call, or ends it with an error |
| `DataChannelPeers.QueuedCallsAreAsDeclared` | app_v1/sdk/slave/worker.py:388-434 | for any messages whatever, every queued call has the declared attachments, each of exactly its declared size |
| `CallOrigins.AcceptGathers` | app_v1/sdk/slave/worker.py:397-418 | an accepted chunk extends the numbered parts of its own file and of no other |
| `CallOrigins.QueuedCallsHaveOrigin` | app_v1/sdk/slave/worker.py:271-434 | in every run a queued call arrived as a message, after which only its own chunks came in until it was complete; each attachment is the concatenation of the bodies of its chunks, numbered 0, 1, ... up to the one final chunk |
| `DataChannelPeers.CallIsDelivered` | app_v1/sdk/slave/worker.py:336-434 | an idle worker that is sent a call and its chunks queues it exactly once, with identical bytes in declared order, and reports no error |
| `ResultDelivery.GpStationJobPeer.BeginCall` | app_v1/sdk/master/python/gpstation_master/job_peer.py:139-144 | a second call is refused while one is pending |
| `ResultDelivery.GpStationJobPeer.HandleResult` | app_v1/sdk/master/python/gpstation_master/job_peer.py:337-366 | an unexpected or malformed result rejects the pending call; one without attachments resolves it |
| `ResultDelivery.GpStationJobPeer.HandleBinaryMessage` | app_v1/sdk/master/python/gpstation_master/job_peer.py:368-397 | chunks nobody waits for are ignored, bad ones reject the pending call, the last one resolves it |
| `TransferVerdicts.ResultVerdict` | app_v1/sdk/master/python/gpstation_master/job_peer.py:337-366 | the whole new state for any result: failed once without acknowledgement, resolved and acknowledged, or awaited |
| `TransferVerdicts.ChunkVerdict` | app_v1/sdk/master/python/gpstation_master/job_peer.py:368-397 | the whole new state for any binary message: ignored, added, resolving the call, or failing it |
| `ResultDelivery.ResultIsDelivered` | app_v1/sdk/master/python/gpstation_master/job_peer.py:337-417 | a result and its chunks end the pending call exactly once, with identical bytes in declared order and one acknowledgement |
| `ResultOrigins.ResolvedResultsHaveSource` | app_v1/sdk/master/python/gpstation_master/job_peer.py:337-417 | in every run of a master, whatever results and frames arrive, a resolved call has the attachments its result declared, each of exactly its declared size and built from its own chunks, numbered 0, 1, ... up to the one final chunk, that arrived after the result |
| `CallHandshake.StepInv` | app_v1/sdk/slave/worker.py:580-669 | every step of master, session and channels keeps the outstanding call in exactly one place |
| `CallHandshake.NeverBusy` | app_v1/sdk/slave/worker.py:281-283 | a call that reaches the worker never finds it busy, because the acknowledgement before it has cleared the guard |
| `CallHandshake.RepliesAreOwn` | app_v1/sdk/master/python/gpstation_master/job_peer.py:314-365 | every reply under way is for the pending call, and none is a busy error |
| `CallHandshake.ResolvedAsHandled` | app_v1/sdk/master/python/gpstation_master/job_peer.py:399-417 | calls resolve in the order they were started, each with the outcome the worker's handler had |
| `CallHandshake.NeverStuck` | app_v1/sdk/slave/worker.py:580-669 | while a call is outstanding master or worker can move |
| `CallHandshake.EveryStepProgresses` | app_v1/sdk/slave/worker.py:580-669 | every step but the start of a call decreases a measure |
| `CallHandshake.CanBeResolved` | app_v1/sdk/slave/worker.py:580-669 | from every reachable state some run that starts no call reaches an idle master with all started calls resolved in order |
| `CallHandshake.EveryCallIsResolved` | app_v1/sdk/slave/worker.py:580-669 | in every endless run, in whatever order its steps come, every started call is resolved |

## Left out

- Mesh geometry, ray casting, plane fitting and unit conversion: occupancy and positive spacings are inputs of the solver model.
- Floating-point rounding and overflow: the solver and the limiter compute in real numbers.
- Progress callbacks, heartbeats of a CAE run, logging and diagnostics: they change none of the modelled state.
- SQL, WebSockets, WebRTC and asyncio internals: rows are records, channels are sequences, awaits are interleaving points.
- Cascades on user deletion and the recovery writes after a server restart.
- Server and launcher as one closed system: the server is modelled against arbitrary launcher messages, and the launcher's process management is not part of this model.
- The recorded values, attachments and error texts of jobs and records: only the states, counters and flags that decide what happens next.
- `GpuResidency.StepInv`: task cancellation while a lease is entered, which releases no lock, is not modelled; a lease without devices goes through its phases without touching a lock or the table.
- Model loading itself, the settings of models and GPU detection: the number of devices is a parameter.
- `CaeRecordStream.StepInv`: the program makes its record calls one after the other, as the program validator enforces by forbidding concurrency and exception handlers; cancelling the program's task takes effect at any later moment.
- The first-next timeout, the run timeout and the acknowledgement timeout may fire at any moment: clocks are not part of the model.
- `JsonRecovery.TakeAnswer`: the JSON decoder and encoder of the library are parameters, and any decoder is allowed.
- `ParserSplits.IndependentExactlyWhenUnambiguous`: text format only; in JSON format an ambiguous text may still give one object for every split, which depends on the decoder.
- Names and media types of attachments, which are passed through, and result attachments whose stated size differs from their length.
- `DataChannelPeers.CallIsDelivered`: every encoded frame is taken to fit the message limit, which excludes ids of about a megabyte.
- `CallHandshake.StepInv`: no timeouts, no closing of the channel and no exceptions in callbacks; attachment parts carry no bytes here, their contents are the subject of `DataChannelPeers`.
- Control messages for readiness, finishing and events, and the TypeScript client, which speaks the same protocol.
- Authentication, tokens, cookies, settings, other slave applications and the web pages.
