# Reaction-network utilities: NSE table, numerical Jacobian, initial timestep

This project models three pieces of a nuclear reaction-network integration
library and proves properties of each.

- **Tabulated nuclear statistical equilibrium** (`nse_tabular/nse_table.H`):
  - The table is a regular 3-D grid in log10(rho), log10(T) and Ye. Ye is
    stored in decreasing order.
  - `nse_idx` flattens a 1-based (rho, T, Ye) index triple.
  - `init_nse` stores the data lines of the table file in irho / it / iye loop
    order.
  - `nse_interp` clamps the query into the table and locates the cell or the
    4-point stencil. It then interpolates abar, B/A, dYe/dt, dB/A/dt, the
    neutrino loss and the mass fractions, either trilinearly or by nested
    cubic fits (Ye, then T, then rho).
  - `nse_interp_dT` and `nse_interp_drho` return the derivative of the cubic
    interpolant, converted from d/dlog10 to d/dT and d/drho.
- **Numerical Jacobian** (`integration/utils/numerical_jacobian.H`):
  - `numerical_jac` builds d(ydot)/dy for y = (X_1 .. X_NumSpec, e) by forward
    differences of the network right-hand side.
  - The species columns are taken at constant T, with the increment of
    eq. 3.35 of the LSODE paper. The last column is taken with respect to T
    after an EOS call.
  - The matrix is then converted to constant e with c_v and de/dX, optionally
    scaled by e_scale and multiplied by react_boost. Its energy row is
    cleared when energy integration is off.
  - A temperature guard zeroes the whole matrix instead.
- **Initial timestep** (`integration/utils/initial_timestep.H`):
  - `initial_react_dt` is the VODE-style estimator. It brackets h between
    hL = 100 U tout and hU = 0.1 tout, where U is the machine epsilon.
  - It runs at most four passes. Each pass evaluates the RHS at the trial
    point y_old + h ydot and takes the weighted norm of the finite-difference
    second derivative to choose a new h. The loop stops once h settles
    within a factor of two.
  - The result is clamped to [hL, hU] and capped by ode_max_dt. The state is
    restored afterwards.

All arithmetic is exact `real`. Machine epsilon is the constant
`Numerics.Epsilon`.

The functions the code only calls are parameters:
- `std::sqrt`, constrained by `r >= 0 && r * r == x`;
- `std::log10`, and `std::log(10)`, which must be positive;
- the network RHS, the EOS and `composition_derivatives`.

The array-updating code is modelled in place:
- the table arrays, the Jacobian (`array2`), the tricubic scratch arrays
  d1/d2, and the y, ewt and ddydtt vectors are arrays;
- each in-place method is proved against a function of its inputs, and the
  properties are lemmas about those functions.

Indices in the Jacobian are 0-based: species n of the source is column n-1,
and `net_ienuc` is index NumSpec. Table arrays are sequences whose 1-based
`nse_idx` j lives at offset j-1.

Behaviour modelled as the code has it, where its comments say otherwise:
- `initial_react_dt` calls the RHS at `int_state.t`, not at t + h as the
  comment at initial_timestep.H:33 says.
- Its norm multiplies each second derivative by `ewt`, whereas VODE divides
  by the weight.
- The store `dt = h / 2` is overwritten at once by the clamp, so it has no
  effect (`InitialTimestep.Finish`).
- `nse_interp` never writes `dabardt`.

## Model

| member | source | states |
|---|---|---|
| NseGrid.Idx | nse_tabular/nse_table.H:25-29 | defines nse_idx, Ye fastest, then T, then rho; that it is a bijection from the in-table triples onto 1 .. size is stated by the four lemmas below |
| NseGrid.LogTAt | nse_tabular/nse_table.H:81-84 | defines the logT of node it as logT_min + (it - 1) dlogT; AxesMonotone, AxisOffset and AxisEnds state its properties |
| NseGrid.LogRhoAt | nse_tabular/nse_table.H:86-89 | defines the logrho of node ir as logrho_min + (ir - 1) dlogrho; its properties are in the same three lemmas |
| NseGrid.YeAt | nse_tabular/nse_table.H:91-94 | defines the Ye of node ic as ye_max - (ic - 1) dye, a falling axis; its properties are in the same three lemmas |
| NseGrid.Locate | nse_tabular/nse_table.H:98-124 | defines the shared locator: the offset in node spacings, less 1e-6, truncated toward zero, plus 1; LocateCell and LocateAtNode state its properties |
| NseGrid.LogRhoIndex | nse_tabular/nse_table.H:98-104 | defines nse_get_logrho_index as Locate of the offset from logrho_min; RhoIndexInCell states the cell it finds |
| NseGrid.LogTIndex | nse_tabular/nse_table.H:108-114 | defines nse_get_logT_index as Locate of the offset from logT_min; TempIndexInCell states the cell it finds |
| NseGrid.YeIndex | nse_tabular/nse_table.H:118-124 | defines nse_get_ye_index as Locate of the offset below ye_max; YeIndexInCell states the cell it finds |
| NseGrid.IdxInRange | nse_tabular/nse_table.H:25-29 | every in-table triple maps to an index in 1 .. nden * ntemp * nye |
| NseGrid.IdxInjective | nse_tabular/nse_table.H:25-29 | distinct in-table triples get distinct indices |
| NseGrid.TripleOfIdx | nse_tabular/nse_table.H:25-29 | the triple is recovered from its index (nse_idx has a left inverse) |
| NseGrid.IdxOfTriple | nse_tabular/nse_table.H:25-29 | every index in 1 .. size is nse_idx of an in-table triple, so nse_idx is a bijection onto the table |
| NseGrid.IdxSuccessor | nse_tabular/nse_table.H:55-58 | in init_nse's loop order (Ye fastest, then T, then rho) consecutive iterations address consecutive indices, including across a T row and a rho plane |
| NseGrid.IdxAfterLast | nse_tabular/nse_table.H:55-58 | the index after the last iteration is size + 1, so the loops visit 1 .. size once each |
| NseGrid.AxesMonotone | nse_tabular/nse_table.H:81-94 | logT and logrho strictly increase with the index and Ye strictly decreases; neighbours differ by exactly dlogT, dlogrho and dye |
| NseGrid.AxisOffset | nse_tabular/nse_table.H:81-94 | the coordinate k nodes further on is k steps further (k steps lower for Ye) |
| NseGrid.AxisEnds | nse_tabular/nse_table.H:81-94 | node 1 and node n are the table minimum and maximum of logrho and logT; for Ye node 1 is ye_max and node n is ye_min |
| Numerics.Trunc | nse_tabular/nse_table.H:101-103 | static_cast<int> truncates toward zero: the floor for non-negative arguments, the ceiling for negative ones |
| Numerics.ClampReal | nse_tabular/nse_table.H:403-425 | amrex::Clamp lands in [lo, hi], is the identity inside, and gives the violated bound outside |
| Numerics.ClampInt | nse_tabular/nse_table.H:457-464 | the integer clamp lands in [lo, hi], is the identity inside, and gives the violated bound outside |
| NseGrid.LocateCell | nse_tabular/nse_table.H:98-124 | the located index is at least 1, and the scaled offset lies in [index - 1, index + 1e-6) |
| NseGrid.LocateAtNode | nse_tabular/nse_table.H:98-124 | at node k the 1e-6 bias makes the locator return k - 1, or 1 at the first node |
| NseGrid.RhoIndexInCell | nse_tabular/nse_table.H:98-104 | for a logrho inside the table, 1 <= index <= nden - 1 and the node at the index is at or below the query |
| NseGrid.TempIndexInCell | nse_tabular/nse_table.H:108-114 | for a logT inside the table, 1 <= index <= ntemp - 1 and the node at the index is at or below the query |
| NseGrid.YeIndexInCell | nse_tabular/nse_table.H:118-124 | for a Ye inside the table, 1 <= index <= nye - 1 and the node at the index is at or above the query (the Ye axis falls) |
| NseGrid.StencilStart | nse_tabular/nse_table.H:457-464 | the clamped stencil start s satisfies 1 <= s and s + 3 <= n, so all four points are table nodes |
| NseGrid.StencilCentred | nse_tabular/nse_table.H:452-464 | away from the table edges the query's cell is the middle one of the stencil (start + 1 is the located index) |
| NseGrid.StencilCoversNode | nse_tabular/nse_table.H:457-464 | the stencil chosen for a query at node k contains node k |
| NseInterpolants.Cubic | nse_tabular/nse_table.H:130-146 | defines cubic by its three divided-difference coefficients about the second node; CubicAtNodes, CubicOfLine, CubicOfConstant and CubicShift state its properties |
| NseInterpolants.CubicDeriv | nse_tabular/nse_table.H:153-169 | defines cubic_deriv as the derivative of that polynomial; CubicOfLine, SlopeOfSamples and CubicShift state its properties |
| NseInterpolants.Trilinear | nse_tabular/nse_table.H:172-211 | defines trilinear as the 8-corner weighted sum with the T, rho and Ye fractions; TrilinearAtCorner, WeightsSumToOne, TrilinearConstant and TrilinearYeFloor state its properties |
| NseInterpolants.TricubicValue | nse_tabular/nse_table.H:213-268 | defines tricubic as the Ye fits collapsed along T, then along rho; TricubicAtNode and TricubicConstant state its properties |
| NseInterpolants.TricubicDTValue | nse_tabular/nse_table.H:274-330 | defines tricubic_dT as the Ye fits collapsed along rho, then differentiated along T; TricubicDTOfLine and TricubicDTOfShift state its properties |
| NseInterpolants.TricubicDRhoValue | nse_tabular/nse_table.H:337-393 | defines tricubic_drho as the Ye fits collapsed along T, then differentiated along rho; TricubicDRhoOfLine and TricubicDRhoOfShift state its properties |
| NseInterpolants.CubicAtNodes | nse_tabular/nse_table.H:130-146 | the cubic through four equally spaced points (spacing of either sign) passes through each of them |
| NseInterpolants.CubicOfLine | nse_tabular/nse_table.H:130-169 | on samples of a straight line cubic returns the line and cubic_deriv returns its slope, at every x |
| NseInterpolants.SlopeOfSamples | nse_tabular/nse_table.H:153-169 | cubic_deriv of samples of alpha + beta x at equally spaced nodes is beta |
| NseInterpolants.CubicOfConstant | nse_tabular/nse_table.H:130-169 | on constant data cubic returns the constant and cubic_deriv returns 0 |
| NseInterpolants.YeFraction | nse_tabular/nse_table.H:194-195 | the Ye weight is never negative; it is the distance below the cell's first Ye node in units of dye, and 0 above that node |
| NseInterpolants.TrilinearAtCorner | nse_tabular/nse_table.H:172-211 | at each of the eight cell corners trilinear returns that corner's table value |
| NseInterpolants.WeightsSumToOne | nse_tabular/nse_table.H:201-210 | equal corner values give that value for any fractions: the eight weights sum to one |
| NseInterpolants.TrilinearConstant | nse_tabular/nse_table.H:172-211 | a constant table interpolates to the constant at every query |
| NseInterpolants.TrilinearYeFloor | nse_tabular/nse_table.H:194-195 | a Ye above the cell's first node interpolates as if it were at that node |
| NseInterpolants.NodesEquallySpaced | nse_tabular/nse_table.H:218-231 | the stencil's logT and logrho nodes are spaced by dlogT and dlogrho, its Ye nodes by -dye |
| NseInterpolants.TricubicAtNode | nse_tabular/nse_table.H:213-268 | tricubic at any of the 64 stencil nodes returns that node's table value |
| NseInterpolants.TricubicDTOfLine | nse_tabular/nse_table.H:274-330 | for data linear in logT with slope beta, tricubic_dT is beta at every query |
| NseInterpolants.TricubicDRhoOfLine | nse_tabular/nse_table.H:337-393 | for data linear in logrho with slope beta, tricubic_drho is beta at every query |
| NseInterpolants.CubicShift | nse_tabular/nse_table.H:130-169 | adding a constant to the four samples adds it to cubic and leaves cubic_deriv unchanged |
| NseInterpolants.TricubicDTOfShift | nse_tabular/nse_table.H:274-330 | for data f(logrho, Ye) + beta logT, with any f, tricubic_dT is beta at every query: the derivative ignores the other axes |
| NseInterpolants.TricubicDRhoOfShift | nse_tabular/nse_table.H:337-393 | for data f(logT, Ye) + beta logrho, with any f, tricubic_drho is beta at every query |
| NseInterpolants.TricubicConstant | nse_tabular/nse_table.H:213-393 | on a constant table tricubic returns the constant and tricubic_dT and tricubic_drho return 0 |
| NseInterp.CollapseYe | nse_tabular/nse_table.H:233-249 | the 16 Ye interpolations fill a fresh 4x4 d1 whose entry (ii, jj) is the Ye cubic through the stencil's row at density ii and temperature jj |
| NseInterp.TempPass | nse_tabular/nse_table.H:251-259 | d2[ii] is the T cubic through row ii of d1 |
| NseInterp.RhoPass | nse_tabular/nse_table.H:315-321 | in tricubic_dT, d2[jj] is the rho cubic through column jj of d1 |
| NseInterp.Tricubic | nse_tabular/nse_table.H:213-268 | the nested Ye / T / rho passes over the arrays compute the composed cubic TricubicValue, about which TricubicAtNode and TricubicConstant hold |
| NseInterp.TricubicDT | nse_tabular/nse_table.H:274-330 | the array passes compute TricubicDTValue, the T derivative of the rho-then-T fit |
| NseInterp.TricubicDRho | nse_tabular/nse_table.H:337-393 | the array passes compute TricubicDRhoValue, the rho derivative of the T-then-rho fit |
| NseInterp.ClampQuery | nse_tabular/nse_table.H:403-425 | the clamped query lies in the table box, equals the query when that is inside, and takes the violated bound on each axis outside |
| NseInterp.ClampIdempotent | nse_tabular/nse_table.H:403-425 | clamping an already clamped query changes nothing |
| NseInterp.Cell | nse_tabular/nse_table.H:427-431 | for a query in the table the located cell's eight corners are table nodes, and its first corner is at or below the query in logrho and logT and at or above it in Ye |
| NseInterp.Stencil | nse_tabular/nse_table.H:457-464 | the clamped start indices keep the whole 4x4x4 stencil inside the table |
| NseInterp.NodeInRange | nse_tabular/nse_table.H:403-425 | every table node is inside the clamp box, so clamping leaves node queries alone |
| NseInterp.LinearAtNode | nse_tabular/nse_table.H:427-448 | the linear branch reproduces the table value at every node |
| NseInterp.CubicAtNode | nse_tabular/nse_table.H:450-482 | the cubic branch reproduces the table value at every node, even at the clamped stencils next to the edges |
| NseInterp.InterpAtNode | nse_tabular/nse_table.H:427-482 | in either mode a query at a table node interpolates to that node's table value |
| NseInterp.InterpConstant | nse_tabular/nse_table.H:427-482 | a constant table gives that constant at every query in both modes, and zero derivatives in the cubic mode |
| NseInterp.InterpDTOfLine | nse_tabular/nse_table.H:491-532 | for data linear in logT the log10 T derivative at any query is the slope |
| NseInterp.InterpDRhoOfLine | nse_tabular/nse_table.H:544-584 | for data linear in logrho the log10 rho derivative at any query is the slope |
| NseInterp.InterpValue | nse_tabular/nse_table.H:427-482 | defines the value nse_interp stores for one table at a clamped query: trilinear on the located cell, or tricubic on the clamped stencil; InterpAtNode and InterpConstant state its properties |
| NseInterp.InterpDTOfShift | nse_tabular/nse_table.H:491-532 | for data f(logrho, Ye) + beta log10 T the log10 T derivative at any query is beta, whatever f is |
| NseInterp.InterpDRhoOfShift | nse_tabular/nse_table.H:544-584 | for data f(logT, Ye) + beta log10 rho the log10 rho derivative at any query is beta, whatever f is |
| NseInterp.Lookup | nse_tabular/nse_table.H:427-470 | one table quantity is interpolated by trilinear in the linear mode and by tricubic on the clamped stencil otherwise |
| NseInterp.FillMassFractions | nse_tabular/nse_table.H:442-447 | each X[n] is the interpolated mass fraction of species n clamped to [0, 1] |
| NseInterp.InterpolateThermo | nse_tabular/nse_table.H:427-470 | abar, bea, dyedt, dbeadt and e_nu are the interpolants of their tables at the query |
| NseInterp.NseInterpolate | nse_tabular/nse_table.H:395-484 | rho, T, Ye and dabardt are left alone; the five scalars are interpolated at the clamped (log10 rho, log10 T, Ye); X is untouched with skip_X_fill and otherwise is the clamped interpolated mass fractions |
| NseInterp.NseInterpDT | nse_tabular/nse_table.H:491-537 | the result is tricubic_dT at the clamped query on the clamped stencil, divided by ln(10) T |
| NseInterp.NseInterpDRho | nse_tabular/nse_table.H:544-589 | the result is tricubic_drho at the clamped query on the clamped stencil, divided by ln(10) rho |
| NseInterp.DerivT | nse_tabular/nse_table.H:491-537 | defines what nse_interp_dT returns: the log10 T derivative at the clamped query divided by ln(10) T; NseInterpDT computes it, DerivTOfLine and DerivTOfShift state its properties |
| NseInterp.DerivRho | nse_tabular/nse_table.H:544-589 | defines what nse_interp_drho returns: the log10 rho derivative divided by ln(10) rho; NseInterpDRho computes it, DerivRhoOfLine and DerivRhoOfShift state its properties |
| NseInterp.DerivTOfLine | nse_tabular/nse_table.H:528-534 | for data alpha + beta log10 T, nse_interp_dT gives beta / (ln(10) T), the exact d/dT of that line |
| NseInterp.DerivRhoOfLine | nse_tabular/nse_table.H:581-587 | for data alpha + beta log10 rho, nse_interp_drho gives beta / (ln(10) rho), the exact d/drho |
| NseInterp.DerivTOfShift | nse_tabular/nse_table.H:528-534 | for data f(logrho, Ye) + beta log10 T, nse_interp_dT gives beta / (ln(10) T) whatever f is |
| NseInterp.DerivRhoOfShift | nse_tabular/nse_table.H:581-587 | for data f(logT, Ye) + beta log10 rho, nse_interp_drho gives beta / (ln(10) rho) whatever f is |
| NseTable.Expected | nse_tabular/nse_table.H:55-77 | the tables a complete file describes have the table's size in every array and NumSpec mass-fraction arrays; offset k holds the k-th data line |
| NseTable.StoreMassFractions | nse_tabular/nse_table.H:72-74 | column j of the mass-fraction array receives the line's fractions, species by species, and no other column changes |
| NseTable.StoreLine | nse_tabular/nse_table.H:64-74 | storing line k extends the filled prefix: the offsets 0 .. k hold the first k + 1 data lines in every table, and every offset above k keeps its value |
| NseTable.ReadYeRow | nse_tabular/nse_table.H:57-75 | one Ye row fills the next nye offsets in order, or stops at the first empty line it meets and reports its position, every line before it being a data line |
| NseTable.ReadTempPlane | nse_tabular/nse_table.H:56-76 | one density plane fills the next ntemp * nye offsets in order, or stops at the first empty line and reports its position, every line before it being a data line |
| NseTable.ReadPlanes | nse_tabular/nse_table.H:55-77 | all planes fill offsets 0 .. size - 1 in order, or report the first empty line: it lies within the table and every line before it is a data line |
| NseTable.InitNse | nse_tabular/nse_table.H:31-79 | for a file whose every line, the last included, ends in a newline: reading succeeds exactly when the file has a data line for every grid point; on success offset k of every table holds the k-th data line, which is the line of the triple with nse_idx k + 1 |
| NumericalJacobian.MassRates | integration/utils/numerical_jacobian.H:64-68 | the RHS is converted from dY/dt to dX/dt: species components times aion, the energy component unchanged |
| NumericalJacobian.Ewt | integration/utils/numerical_jacobian.H:74-84 | every VODE error weight rtol abs(x) + atol is at least atol, hence positive |
| NumericalJacobian.SpeciesNormNonneg | integration/utils/numerical_jacobian.H:72-78 | auxiliary fact for Fac: the accumulated weighted sum of squares is never negative, so its square root is defined |
| NumericalJacobian.R0 | integration/utils/numerical_jacobian.H:87-92 | defines r0 = 1000 abs(h) U int_neqs fac, with 1 in place of 0; R0Positive and StepScale state its properties |
| NumericalJacobian.Increment | integration/utils/numerical_jacobian.H:105-109 | defines the eq. 3.35 increment max(sqrt(U) abs(y), r0 ewt); IncrementPositive and Step state its properties |
| NumericalJacobian.R0Positive | integration/utils/numerical_jacobian.H:85-92 | r0 is positive for every state and every h: the product is non-negative and a zero is replaced by 1 |
| NumericalJacobian.IncrementPositive | integration/utils/numerical_jacobian.H:105-109 | with r0 > 0 the increment max(sqrt(U) abs(y), r0 ewt) is positive, so no difference quotient divides by zero |
| NumericalJacobian.Difference | integration/utils/numerical_jacobian.H:123-125 | each entry of the column times dy is ydotp - ydotm |
| NumericalJacobian.PerturbSpecies | integration/utils/numerical_jacobian.H:103-111 | only species n changes, by dy; rho, T, e and the other species are kept |
| NumericalJacobian.SpeciesColumnIs | integration/utils/numerical_jacobian.H:99-125 | the step the loop uses is positive and column n is the difference quotient of the RHS at the state with species n raised by that step |
| NumericalJacobian.RawSpeciesEntry | integration/utils/numerical_jacobian.H:99-128 | before conversion, entry (i, j) of a species column times dy is the change in ydot_i when X_j alone is raised by dy > 0 at constant T |
| NumericalJacobian.RawTempEntry | integration/utils/numerical_jacobian.H:132-161 | before conversion, the last column times dy is the change in ydot when T is raised by dy > 0 and the EOS is called on the perturbed state |
| NumericalJacobian.Raw | integration/utils/numerical_jacobian.H:99-161 | the raw forward-difference matrix is square of order NumSpec + 1; RawSpeciesEntry and RawTempEntry state its entries |
| NumericalJacobian.Converted | integration/utils/numerical_jacobian.H:184-195 | the conversion to constant e keeps the matrix square; ConvertedEntries states its entries |
| NumericalJacobian.Finished | integration/utils/numerical_jacobian.H:198-222 | scaling, boost and row clearing keep the matrix square; ScalingKeepsDiagonal, FinishedDiagonal, FinishedBoost and FinishedEnergyRow state its entries |
| NumericalJacobian.Jacobian | integration/utils/numerical_jacobian.H:38-226 | what numerical_jac leaves in jac is square of order NumSpec + 1; GuardZeroes and the lemmas on Raw, Converted and Finished state its entries, and NumericalJac computes it |
| NumericalJacobian.GuardZeroes | integration/utils/numerical_jacobian.H:136-141 | when T + dy is at or below mintemp or at or above MAX_TEMP every entry of the result is zero |
| NumericalJacobian.ConvertedEntries | integration/utils/numerical_jacobian.H:184-195 | the converted energy column times c_v is the raw T column, and each species entry is its raw value minus de/dX_j times the converted energy entry |
| NumericalJacobian.ScalingKeepsDiagonal | integration/utils/numerical_jacobian.H:198-208 | dividing the energy row and multiplying the energy column by e_scale leaves the diagonal energy entry and every entry outside that row and column as they were |
| NumericalJacobian.FinishedDiagonal | integration/utils/numerical_jacobian.H:198-214 | with energy integration on, the diagonal energy entry is the converted one, times react_boost when that is positive, scaled or not |
| NumericalJacobian.FinishedBoost | integration/utils/numerical_jacobian.H:210-214 | with a positive react_boost every entry outside a cleared energy row is the boost times the scaled entry |
| NumericalJacobian.FinishedEnergyRow | integration/utils/numerical_jacobian.H:216-222 | with energy integration off, the whole energy row of the result is zero |
| NumericalJacobian.ZeroAll | integration/utils/numerical_jacobian.H:139 | jac.zero() leaves every entry zero |
| NumericalJacobian.MultiplyAll | integration/utils/numerical_jacobian.H:212-214 | jac.mul(k) multiplies every entry by k |
| NumericalJacobian.MultiplyColumn | integration/utils/numerical_jacobian.H:184-186 | one column is multiplied by k in place and nothing else changes |
| NumericalJacobian.DivideRow | integration/utils/numerical_jacobian.H:200-202 | the energy row is divided by e_scale in place and nothing else changes |
| NumericalJacobian.ClearRow | integration/utils/numerical_jacobian.H:219-221 | the energy row is set to zero in place and nothing else changes |
| NumericalJacobian.CorrectSpecies | integration/utils/numerical_jacobian.H:191-195 | every species column loses de/dX_n times the energy column, and the energy column is kept |
| NumericalJacobian.FillColumn | integration/utils/numerical_jacobian.H:123-125 | column c receives the difference quotients and the other columns keep their values |
| NumericalJacobian.RhsInX | integration/utils/numerical_jacobian.H:64-68 | the RHS call followed by the aion multiply gives the dX/dt rates |
| NumericalJacobian.SpeciesSum | integration/utils/numerical_jacobian.H:72-78 | the species loop accumulates the weighted sum of squares in index order |
| NumericalJacobian.Fac | integration/utils/numerical_jacobian.H:72-85 | fac is sqrt of (species sum plus the energy term weighted by e) over int_neqs |
| NumericalJacobian.Step | integration/utils/numerical_jacobian.H:105-109 | the step is the eq. 3.35 increment and is positive |
| NumericalJacobian.StepScale | integration/utils/numerical_jacobian.H:87-92 | r0 = 1000 abs(h) U int_neqs fac, replaced by 1 when zero, and positive |
| NumericalJacobian.SpeciesColumns | integration/utils/numerical_jacobian.H:99-128 | each species column holds its difference quotient, the last column is untouched, and the perturbed copy comes back equal to the state: every species is restored |
| NumericalJacobian.TempColumnFill | integration/utils/numerical_jacobian.H:149-161 | after the EOS and the RHS at T + dy the matrix holds the raw Jacobian |
| NumericalJacobian.ConvertAndFinish | integration/utils/numerical_jacobian.H:181-222 | the in-place conversion, scaling, boost and row clearing, in the source's order, leave the finished converted matrix |
| NumericalJacobian.NumericalJac | integration/utils/numerical_jacobian.H:38-226 | jac holds the all-zero matrix when the T guard fires, and otherwise the raw difference Jacobian converted to constant e and finished |
| InitialTimestep.BoundsOrdered | integration/utils/initial_timestep.H:25-26 | for tout > 0 the bounds satisfy 0 < hL <= hU |
| InitialTimestep.FirstGuessPositive | integration/utils/initial_timestep.H:30 | the first guess sqrt(hL hU) is positive |
| InitialTimestep.Bounds | integration/utils/initial_timestep.H:25-31 | the initial hL, hU and h are the bounds and the geometric mean, with 0 < hL <= hU and h > 0 |
| InitialTimestep.SecondDerivative | integration/utils/initial_timestep.H:67-69 | each ddydtt entry times h is ydot_temp - ydot |
| InitialTimestep.WeightedSquares | integration/utils/initial_timestep.H:71-74 | auxiliary fact for Norm: the sum of squared weighted second derivatives that the loop accumulates is never negative, so its square root is defined |
| InitialTimestep.NextStep | integration/utils/initial_timestep.H:77-81 | defines the update: sqrt(2 / yddnorm) when yddnorm hU^2 > 2, else sqrt(h hU); NextStepPositive states its sign and Update computes it |
| InitialTimestep.Iterate | integration/utils/initial_timestep.H:45-87 | defines h after up to the allowed number of passes, stopping after the first that settles; IteratePositive and IterateSettles state its properties |
| InitialTimestep.NextStepPositive | integration/utils/initial_timestep.H:77-81 | both branches of the update give a positive h when h and hU are positive |
| InitialTimestep.PassKeepsPositive | integration/utils/initial_timestep.H:45-81 | a whole pass maps every positive h to a positive h |
| InitialTimestep.IteratePositive | integration/utils/initial_timestep.H:45-87 | h stays positive through any number of passes |
| InitialTimestep.IterateSettles | integration/utils/initial_timestep.H:83-85 | when the first pass settles (h_old within a factor of two of h) or only one pass is left, the loop's result is that pass's h |
| InitialTimestep.PassCountBounded | integration/utils/initial_timestep.H:45-87 | the loop runs at least one and at most the allowed number of passes |
| InitialTimestep.FinalDt | integration/utils/initial_timestep.H:91-94 | defines dt as h clamped to [hL, hU], then capped by ode_max_dt; FinalDtBounds states its bounds |
| InitialTimestep.InitialDt | integration/utils/initial_timestep.H:15-102 | defines the dt initial_react_dt returns for a given entry state; InitialDtBounds states its bounds and InitialReactDt computes it |
| InitialTimestep.InitialPasses | integration/utils/initial_timestep.H:45-87 | defines the number of passes initial_react_dt makes; InitialPassesBounded bounds it |
| InitialTimestep.FinalDtBounds | integration/utils/initial_timestep.H:91-94 | dt <= hU and dt <= ode_max_dt; dt >= hL whenever ode_max_dt >= hL; an h already in bounds and below ode_max_dt is returned unchanged |
| InitialTimestep.InitialDtBounds | integration/utils/initial_timestep.H:17-101 | the returned dt is at most hU and at most ode_max_dt, at least hL whenever ode_max_dt >= hL, and positive whenever ode_max_dt is |
| InitialTimestep.InitialPassesBounded | integration/utils/initial_timestep.H:45-87 | the estimator makes between one and four passes |
| InitialTimestep.CopyInto | integration/utils/initial_timestep.H:40-43 | the copy holds exactly the source vector |
| InitialTimestep.FillWeights | integration/utils/initial_timestep.H:52-55 | ewt is computed from y_old: rtol_spec abs(y) + atol_spec for species and the enuc tolerances for the energy |
| InitialTimestep.WriteTrial | integration/utils/initial_timestep.H:59-61 | the stored state becomes the trial point y_old + h ydot |
| InitialTimestep.FillDifferences | integration/utils/initial_timestep.H:67-69 | ddydtt holds the finite-difference second derivative |
| InitialTimestep.Norm | integration/utils/initial_timestep.H:71-75 | yddnorm is sqrt of the mean of the squared weighted second derivatives |
| InitialTimestep.Update | integration/utils/initial_timestep.H:77-81 | the new h is sqrt(2 / yddnorm) when yddnorm hU^2 > 2 and sqrt(h hU) otherwise |
| InitialTimestep.Pass | integration/utils/initial_timestep.H:47-81 | one pass leaves the trial point y_old + h ydot in the state and returns the updated h of that pass |
| InitialTimestep.Finish | integration/utils/initial_timestep.H:91-94 | the h / 2 store has no effect: dt is h clamped to [hL, hU] and capped by ode_max_dt |
| InitialTimestep.InitialReactDt | integration/utils/initial_timestep.H:15-102 | the stored state is restored, dt is the clamped and capped h after the passes run until settled or four, and the pass count is the one InitialPassesBounded bounds |

## Left out

- File handling in init_nse (opening the file, the error on failure, the 4-line header as text, number parsing) is not modelled. The file is a sequence of already split lines, where an empty line is `Blank`.
- NseTable.InitNse assumes that every line of the file, the last included, ends in a newline. When the last line has none, `std::getline` sets eofbit on it, the next call fails without clearing the string, and the source stores that last line again instead of calling `amrex::Error`. This case is not modelled: reading past the end always gives an empty line.
- NseTable.InitNse: `amrex::Error` on a short file becomes a `Failure` result. The tables are returned as a value instead of being written to global arrays.
- NseTable.InitNse requires that every data line carries NumSpec mass fractions. A short line fed to `operator>>` is not modelled.
- Floating-point rounding is not modelled: all arithmetic is exact. `std::log10` and `std::log(10)` are parameters, and `std::sqrt` is any function meeting `r >= 0 && r * r == x`.
- The table geometry (nden, ntemp, nye, minima, maxima, steps) is a parameter with max = min + (n - 1) step, instead of a compile-time table.
- NseInterp.NseInterpolate returns the new `nse_table_t` as a value instead of updating the caller's struct through a reference.
- NseInterp.NseInterpDT and NseInterp.NseInterpDRho require temp > 0 and rho > 0. The source divides by ln(10) T and ln(10) rho and takes their logarithms, so it has no meaning at non-positive inputs either.
- NseInterp.Lookup, NseInterp.FillMassFractions, NseInterp.InterpolateThermo, NseInterp.NseInterpolate, NseInterp.NseInterpDT and NseInterp.NseInterpDRho require at least 2 nodes per axis in the linear mode and at least 4 in the cubic mode (`LinearSizes`, `CubicSizes`). With fewer nodes the source reads outside its arrays: for n = 3 the stencil clamp `Clamp(i - 1, 1, n - 3)` has its lower bound above its upper one, and for n = 1 trilinear reads node 2. Tables that small are not modelled.
- Trilinear and tricubic require the cell or stencil to lie inside the table. The source does not check this. Given the sizes above, the model proves that nse_interp's clamping establishes it.
- NumericalJacobian: actual_rhs, eos and composition_derivatives are uninterpreted functions of the state. The RHS is taken to be pure, so its side effects on the burn state are not modelled. The rest of the burn state is not modelled beyond rho, T, e, X and e_scale.
- AUX_THERMO (`set_aux_comp_from_X`) and NEW_NETWORK_IMPLEMENTATION are not part of this model.
- NumericalJacobian.NumericalJac requires positive atol_spec and atol_enuc, and non-negative rtols, so that every weight is positive. It also requires that c_v is non-zero and e_scale is non-zero when scaling is on (predicate `ThermoOk`), unless the T guard returns first. The source divides by these quantities without checking them.
- NumericalJacobian.NumericalJac does not model the contents of jac on entry: every entry is overwritten, or the whole matrix is zeroed.
- InitialTimestep: the rhs is a pure function of the time and the integrator's y vector. Its effects on burn_state and on the other fields of int_state are not modelled. The tolerances, t and tout of int_state are constant fields.
- InitialTimestep.InitialReactDt requires tout > 0. At tout = 0 the first guess is h = 0 and the source divides by h in the difference quotient. For tout < 0 the bounds are reversed and sqrt is taken of hL hU, a product of two negatives.
- InitialTimestep.InitialReactDt states its result through the ghost functions InitialDt and InitialPasses. The pass count is a ghost out-parameter, since the source does not return it.
