# Joule heating driver: state layout, scheme selection, AMR selection and time loop

This project models the sequential control and layout logic of `joule_solve`
in `src/hephaestus_lib/hephaestus_joule.hpp`. That function is the driver of
a transient magnetics and Joule-heating simulation built on MFEM. The model
covers four pieces, and then the control path that joins them:

- **Block-state layout.** The six fields are temperature T, thermal flux F,
  potential P, electric field E, magnetic flux B and Joule heating w. They are
  stored as consecutive blocks of one `BlockVector`. The blocks are sized by
  the vector sizes of the spaces L2, H(div) (RT), H1, H(curl) (ND), H(div)
  and L2. A seven-entry offset array of prefix sums is filled entry by entry.
  A buffer of total length `true_offset[6]` is allocated. Each field's grid
  function is then made to alias the buffer at its offset (`MakeRef`).
  Modules `BlockLayout` and `JouleLayout`.
- **ODE-scheme selection.** The integer option `ode_solver_type` selects one of
  six implicit schemes. Any other code makes the run return exit status 3.
  Module `OdeSchemes`.
- **AMR element selection.** With `amr == 1`, the indices of all elements
  whose attribute is 1 (the metal region) are appended, in order, to the list
  handed to the refiner. Module `Refinement`.
- **Time loop.** The loop keeps a step counter `ti`, the flag `last_step` and
  the time `t`. `last_step` is set when `t + dt >= t_final - dt/2`, and each
  step advances `t` by `dt`. Diagnostics and VisIt output happen when
  `last_step || ti % vis_steps == 0`. Module `TimeLoop`.
- **Control path and exit codes.** Bad options return 1. An unknown scheme
  returns 3, before any refinement or step. A completed run returns 0.
  Module `JouleSolve`. `Solve` does not call the layout step
  (`JouleLayout.SetupState`), because in this model the loop does not read
  the field data.

Time is modelled as a Dafny `real`, not as an IEEE double. `ODESolver::Step`
is abstracted to its effect on `t`, which is `t := t + dt`. The field data
written by the operator is not modelled. The space vector sizes
(`GetVSize`) and the element attributes are inputs of the model.

Two features of the code shape the model:
- The loop never shortens the final step. The run ends at `StepCount * dt`.
  When `t_final > dt/2` this lies within half a step of `t_final`
  (`TimeLoop.FinalTimeBounds`). Otherwise a run of one step ends at `dt`,
  which may be far from `t_final`. The final time is not `t_final` in general
  (`TimeLoop.NotClamped`: `dt = 0.4` and `t_final = 1.0` end at `t = 0.8`).
  It is exactly `t_final` when `t_final` is a whole number `m >= 1` of steps
  (`TimeLoop.ExactMultiple`).
- Block sizes are the `GetVSize` values of lines 353-356, not the
  `GlobalTrueVSize` counts of the commented-out lines 337-341.

## Model

| member | source | states |
|---|---|---|
| `BlockLayout.Offsets` | src/hephaestus_lib/hephaestus_joule.hpp:366-373 | the offset array has one more entry than there are blocks (entry `i` is the sum of the sizes before block `i`); its recurrence is `OffsetsRecurrence` |
| `BlockLayout.OffsetsRecurrence` | src/hephaestus_lib/hephaestus_joule.hpp:366-373 | offset 0 is 0, and each offset is the previous one plus the size of the block before it |
| `BlockLayout.OffsetsTotal` | src/hephaestus_lib/hephaestus_joule.hpp:373-379 | the last offset, which is the buffer length, is the sum of all block sizes |
| `BlockLayout.OffsetsValid` | src/hephaestus_lib/hephaestus_joule.hpp:366-373 | prefix-sum offsets start at 0 and never decrease |
| `BlockLayout.BlocksDisjoint` | src/hephaestus_lib/hephaestus_joule.hpp:383-388 | two different blocks of a valid layout share no buffer position |
| `BlockLayout.Owner` | src/hephaestus_lib/hephaestus_joule.hpp:383-388 | every position below the total length lies in some block, and that block is found at or after the starting block |
| `BlockLayout.BlocksCover` | src/hephaestus_lib/hephaestus_joule.hpp:379-388 | a position lies in some block if and only if it is in `[0, total)` |
| `BlockLayout.BlockVector.constructor` | src/hephaestus_lib/hephaestus_joule.hpp:379 | the block vector gets a fresh buffer of length `true_offset[last]`, laid out by those offsets |
| `BlockLayout.BlockVector.Block` | src/hephaestus_lib/hephaestus_joule.hpp:383-388 | definition of block `b` as the slice `[offsets[b], offsets[b+1])` of the one buffer; its ensures only unfold that slice (length, entry `k` is buffer entry `offsets[b] + k`). That a block aliases the buffer is stated by `WriteBlock` and `ViewOfBlock` |
| `BlockLayout.BlockVector.View` | src/hephaestus_lib/hephaestus_joule.hpp:383-388 | definition of what a grid function made by `MakeRef` sees: `size` buffer entries from its offset; its ensures only unfold that slice |
| `BlockLayout.BlockVector.ViewOfBlock` | src/hephaestus_lib/hephaestus_joule.hpp:383-388 | a view spanning exactly block `b`'s slice sees block `b` |
| `BlockLayout.BlockVector.WriteBlock` | src/hephaestus_lib/hephaestus_joule.hpp:383-388 | a write through one block changes that entry of that block and leaves every other block unchanged |
| `JouleLayout.BlockIndex` | src/hephaestus_lib/hephaestus_joule.hpp:358-364 | each of the six fields occupies one of the blocks 0 to 5 |
| `JouleLayout.FieldAt` | src/hephaestus_lib/hephaestus_joule.hpp:358-364 | every block 0 to 5 holds a field |
| `JouleLayout.BlockIndexInjective` | src/hephaestus_lib/hephaestus_joule.hpp:358-364 | different fields occupy different blocks |
| `JouleLayout.SpaceOf` | src/hephaestus_lib/hephaestus_joule.hpp:383-388 | the space each `MakeRef` uses: T and w share L2, F and B share H(div), P alone is in H1 and E alone in H(curl) |
| `JouleLayout.BlockSizes` | src/hephaestus_lib/hephaestus_joule.hpp:366-373 | there are six block sizes, and each field's block has the vector size of that field's space, in the order L2, RT, H1, ND, RT, L2 |
| `JouleLayout.ComputeOffsets` | src/hephaestus_lib/hephaestus_joule.hpp:366-373 | the fresh seven-entry array filled entry by entry equals the prefix-sum offsets of the block sizes |
| `JouleLayout.JouleOffsets` | src/hephaestus_lib/hephaestus_joule.hpp:373-411 | the offsets are valid, and `true_offset[6]` (the buffer length handed to the operator) is `2*L2 + 2*RT + H1 + ND`, the sum of the six sizes |
| `JouleLayout.FieldRef` | src/hephaestus_lib/hephaestus_joule.hpp:383-388 | the grid function `MakeRef(space, F, true_offset[i])` of a field starts at `true_offset[i]` and is as long as that field's block size |
| `JouleLayout.FieldRefIsBlock` | src/hephaestus_lib/hephaestus_joule.hpp:383-388 | the grid function of each field, at `true_offset[i]` with its space's size, is exactly the slice `[true_offset[i], true_offset[i+1])` |
| `JouleLayout.FieldRefsDisjoint` | src/hephaestus_lib/hephaestus_joule.hpp:383-388 | the grid functions of two different fields share no buffer entry |
| `JouleLayout.FieldRefsCover` | src/hephaestus_lib/hephaestus_joule.hpp:379-388 | a buffer position is seen by some field's grid function if and only if it is below the total length |
| `JouleLayout.SharedSpaceBlocks` | src/hephaestus_lib/hephaestus_joule.hpp:368-373 | blocks 0 and 5 (T and w, both L2) have equal length, and so do blocks 1 and 4 (F and B, both H(div)) |
| `JouleLayout.SetupState` | src/hephaestus_lib/hephaestus_joule.hpp:366-388 | the layout step builds the offsets and a valid six-block state of length `TotalSize`; each field's grid function sees exactly its block |
| `OdeSchemes.SelectScheme` | src/hephaestus_lib/hephaestus_joule.hpp:219-246 | a scheme is selected if and only if the code is one of 1, 2, 3, 22, 23, 34, and the selected scheme is the one of that code |
| `OdeSchemes.SelectSchemeRoundTrip` | src/hephaestus_lib/hephaestus_joule.hpp:219-239 | each scheme is selected by its own code and by no other code |
| `OdeSchemes.LStableCodes` | src/hephaestus_lib/hephaestus_joule.hpp:220-239 | among the accepted codes, the L-stable schemes are exactly codes 1, 2 and 3 |
| `Refinement.SelectElements` | src/hephaestus_lib/hephaestus_joule.hpp:278-291 | no list is built unless `amr == 1`; otherwise the list holds exactly the elements `e < numElems` with attribute 1, in strictly increasing order |
| `Refinement.IncreasingListUnique` | src/hephaestus_lib/hephaestus_joule.hpp:280-286 | two strictly increasing lists with the same elements are equal, so the contract of the selection determines the list |
| `TimeLoop.Step` | src/hephaestus_lib/hephaestus_joule.hpp:491 | the effect of `ode_solver->Step` on `t`: time moves forward exactly when `dt > 0`. This follows directly from `t + dt`; the loop's time after `k` steps is stated by `TimeLoop.Run` |
| `TimeLoop.LastStepTest` | src/hephaestus_lib/hephaestus_joule.hpp:485 | the test `t + dt >= t_final - dt/2`; with `dt > 0` it holds once `t` has reached `t_final` |
| `TimeLoop.Reported` | src/hephaestus_lib/hephaestus_joule.hpp:550 | the gate: `last_step` or `ti % vis_steps == 0`; the last step always reports, and with `vis_steps == 1` every step does. This follows directly from the gate; which steps of a run report is stated by `TimeLoop.ReportsMembership` and `TimeLoop.Run` |
| `TimeLoop.Reports` | src/hephaestus_lib/hephaestus_joule.hpp:550-598 | the reports of steps `1..k`: at most one per step, and in a run whose last step is `k` the final report is step `k` at time `k*dt` |
| `TimeLoop.StepCount` | src/hephaestus_lib/hephaestus_joule.hpp:484-487 | the closed-form number of steps is at least one |
| `TimeLoop.StepCountThreshold` | src/hephaestus_lib/hephaestus_joule.hpp:484-491 | the test `t + dt >= t_final - dt/2` at step `k` (with `t = (k-1)*dt`) holds if and only if `k >= StepCount` |
| `TimeLoop.Run` | src/hephaestus_lib/hephaestus_joule.hpp:481-599 | the loop terminates after `StepCount` steps; the final step is the first one whose test holds, and no earlier step's test holds; the final time is `steps*dt`; the reports are exactly those of the reporting gate, and the last report is the final step at the final time |
| `TimeLoop.ReportsMembership` | src/hephaestus_lib/hephaestus_joule.hpp:550-598 | a report at cycle `c` exists if and only if `1 <= c <= steps` and (`c` is the last step or `c % vis_steps == 0`), and it carries the time `c*dt` |
| `TimeLoop.ReportsIncreasing` | src/hephaestus_lib/hephaestus_joule.hpp:593-596 | reports come in strictly increasing cycle order, so no step reports twice |
| `TimeLoop.ReportCount` | src/hephaestus_lib/hephaestus_joule.hpp:550 | with `vis_steps > 0`, a run of `n` steps reports `(n-1)/vis_steps + 1` times |
| `TimeLoop.NegativeCadence` | src/hephaestus_lib/hephaestus_joule.hpp:550 | a negative `vis_steps` reports on the same steps as its absolute value |
| `TimeLoop.FinalTimeBounds` | src/hephaestus_lib/hephaestus_joule.hpp:485-491 | without clamping, when `t_final > dt/2` the final time lies in `[t_final - dt/2, t_final + dt/2)` |
| `TimeLoop.ExactMultiple` | src/hephaestus_lib/hephaestus_joule.hpp:485-491 | when `t_final = m*dt` with `m >= 1`, the loop takes exactly `m` steps |
| `TimeLoop.NotClamped` | src/hephaestus_lib/hephaestus_joule.hpp:485-491 | with `dt = 0.4` and `t_final = 1.0` the loop takes 2 steps and ends at `0.8`, not at `t_final` |
| `JouleSolve.Solve` | src/hephaestus_lib/hephaestus_joule.hpp:172-615 | bad options return 1 and an unknown solver code returns 3; both happen with no scheme, no refinement list and no step. Otherwise the returned status is 0, with the code's scheme, the AMR selection and the time loop's steps, final time and reports |

## Left out

- MPI: the rank query, the rank-0 printing and the barriers (lines 125, 425, 562) are concurrency and collective synchronisation.
- Mesh work: loading, `EnsureNCMesh`, uniform serial and parallel refinement, `GeneralRefinement`, `Rebalance` and `DeleteAll` (lines 186-301) are calls into MFEM. Only the selection of `ref_list` is modelled.
- Finite-element collections and spaces and `GetVSize` (lines 316-356): the vector sizes are inputs.
- `MagneticDiffusionEOperator`, `Init`, `Debug`, `ElectricLosses` and the internals of `ODESolver::Init` and `Step`: `joule_solver.hpp` is not part of this model, and these are floating-point numerics. Only `Step`'s effect on `t` is modelled.
- The boundary-condition map, `getMarkers`, the `FunctionDirichletBC` downcast and `DomainProperties`: `inputs.hpp` is not part of this model.
- Option parsing and its defaults: `Solve` takes `ode_solver_type`, `vis_steps` and `amr` as inputs, so the defaults `ode_solver_type = 1`, `vis_steps = 1` and `amr = 0` (lines 133, 139, 142) are not modelled.
- Option parsing, usage printing, GLVis sockets, the VisIt data collection and the per-step grid-function files (lines 145-181, 419-471, 497-548, 564-606) are I/O. The model records only which steps report and at what cycle and time. This also covers line 536, which saves `F_gf` into the stream `B_ofs`.
- The exact-solution coefficients `E_exact`, `B_exact` and `T_exact` (lines 397-401, 473-474) are set up before the loop, and `E_exact` and `B_exact` are given time 0. The loop never reads any of them. `e_exact` and `b_exact` are defined in `joule_solver.hpp`, which is not part of this model. `t_exact` (lines 622-625) returns 0.
- IEEE double rounding of `t` and `dt`: time is a real number, so the `dt/2` slack in the loop test never has to absorb rounding.
- 32-bit overflow of the step counter `ti`.
- 32-bit overflow of the `true_offset` sums (lines 366-373): the offsets are unbounded naturals. The monotonicity of the offsets, and hence disjointness and coverage of the blocks, relies on no overflow.
- `TimeLoop.Run`: requires `dt > 0`. With `dt <= 0` and a `t_final` the test never reaches, the source loops forever. Some runs with `dt <= 0` stop after one step: `dt = 0` with `t_final <= 0`, and `dt < 0` with `t_final <= 3*dt/2`. These one-step runs are excluded too.
- `TimeLoop.Run`: requires `vis_steps != 0`. In the source, zero is a division by zero at the first non-final step. Zero is harmless only in a one-step run, where `||` skips the remainder, and that case is excluded too.
- `JouleSolve.Solve`: requires `dt > 0` and `vis_steps != 0` on the path that reaches the time loop, for the same reasons as `TimeLoop.Run`. This also excludes the one-step runs with `dt <= 0` (`dt = 0` with `t_final <= 0`, `dt < 0` with `t_final <= 3*dt/2`) and the one-step run with `vis_steps == 0`.
- `BlockLayout.BlockVector.constructor`: requires non-decreasing offsets starting at 0, which MFEM's `BlockVector` assumes without checking. It also copies the offsets where MFEM keeps referring to the caller's array, which is never changed afterwards.
