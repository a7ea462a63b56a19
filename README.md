# Ising2D in Dafny

A model of the Monte Carlo engine of Ising2D, a C program that simulates the
two-dimensional Ising model of ferromagnetism with the Metropolis-Hastings
method, together with the recognisers that screen its command-line arguments.

The model has six modules, one file each:

- `Lattice` (`lattice.dfy`) covers the periodic boundary `bc`, the row-major flat index `i * L + j` and the reads of a site's four neighbours.
- `Hamiltonian` (`hamiltonian.dfy`) covers the following:
  - the local energy `centre_energy`, `-J * s * (sum of the four neighbours)`;
  - the total energy, the sum of the local energies halved, as the nested loop of `total_energy` computes it;
  - the total magnetisation `total_magnetization`.
  `TotalEnergy` and `TotalMagnetization` are methods over an `array<int>`. They are proved equal to the functions `Energy` and `Magnetization`.
- `Metropolis` (`metropolis.dfy`) covers the random initial configuration `initialization` and one Metropolis move `spin_flip`:
  - the site is picked from two draws;
  - the reported changes are `dE` and `dM = -2 * centre`;
  - the move is taken when it lowers the energy or when the acceptance test succeeds;
  - a rejected move reports zero changes.
  It proves that the reported `dE` is the change of the total energy when L >= 2, that `dM` is the change of the magnetisation, and that a move keeps every spin at +1 or -1.
- `Sampling` (`sampling.dfy`) covers the loop of `metropolis_hastings` and the four observables.
  - Modelled: the running energy and magnetisation updated by the reported changes, the sums and sums of squares at the sampling steps, and the four observables.
  - The driver is a method over the lattice array. It is proved to return the sums of the chain its inputs determine.
  - Proved about those sums: the running magnetisation always equals the one recomputed from the lattice, and so does the running energy when L >= 2; the sample counter counts the sampled iterations; when there is a sample, the heat capacity and the susceptibility are non-negative, the magnetisation per spin lies in [-1, 1], and, when L >= 2, the energy per spin lies in [-2|J|, 2|J|].
- `Findings` (`findings.dfy`) writes out the program's 32-bit `int` and `unsigned int` arithmetic in the observables and in the guard before the driver. It exhibits inputs on which that arithmetic departs from the exact definitions.
- `InputCheck` (`input_check.dfy`) covers `is_pos_int`, `is_number` and `is_pos_number`. They are loops proved against predicates that describe the accepted strings. `check_input_type` is covered as the product of the seven 0/1 flags.

Randomness is an input:
- the initial configuration comes from one draw per cell (`rand() % 2`);
- a move is a `Move`: two site draws (taken `% L`) and the outcome of the acceptance test.

Doubles are exact reals. The magnetisation, which the program keeps in a `double`, is an exact integer.

On two points the model keeps the code's behaviour rather than the obvious reading:
- `bc` steps once into range (source/ising.c:10-24). It is not a general modulo. `Lattice.BcIsMod` proves that it agrees with the modulo on [-L, 2L), which covers every call the program makes.
- `is_pos_int` accepts every digit string, including the empty string and `"0"` (source/input_check.c:10-19). The usage text of main.c calls the arguments it screens positive integers (source/main.c:36-41), but the model keeps the code's behaviour.

## Model

| member | source | states |
|---|---|---|
| Lattice.Bc | source/ising.c:10-24 | an index already in [0, L) is returned unchanged; an index in [-L, 2L) lands in [0, L) |
| Lattice.BcIsMod | source/ising.c:10-24 | on [-L, 2L), the single wrap step is the remainder modulo L |
| Lattice.BcStepInverse | source/ising.c:10-24 | the upper neighbour of a is b exactly when the lower neighbour of b is a, so each bond is seen from both of its ends |
| Lattice.BcStepMoves | source/ising.c:10-24 | when L >= 2, a neighbour one step away is never the site itself |
| Lattice.IndexInRange | source/ising.c:84-88 | the flat index i * L + j of an in-range site is below L * L, and so is the end of its row |
| Lattice.IndexInjective | source/ising.c:41 | distinct sites have distinct flat indices |
| Lattice.RowOffsetIsProduct | source/ising.c:41 | the start of row i, built one row at a time, is i * L |
| Lattice.IdxIsRowMajor | source/ising.c:41 | the site position used throughout the model is the program's i * L + j |
| Lattice.IdxInjective | source/ising.c:41 | two in-range sites share a position exactly when they are the same site |
| Lattice.IdxInRange | source/ising.c:41 | the position of an in-range site lies inside the lattice |
| Lattice.ReadSite | source/ising.c:84-88 | the five reads spins[i*L+j], spins[bc(i±1)*L+j] and spins[i*L+bc(j±1)] are in bounds and are the centre and its upper, lower, left and right neighbours |
| Hamiltonian.CentreEnergy | source/ising.c:29-32 | the local energy -J * centre * (upper + lower + left + right); what it satisfies is stated by CentreEnergyOdd, CentreEnergyEven and CentreEnergyBound |
| Hamiltonian.CentreEnergyOdd | source/ising.c:30-32 | reversing the centre spin negates the local energy |
| Hamiltonian.CentreEnergyEven | source/ising.c:30-32 | reversing the centre and all four neighbours leaves the local energy unchanged |
| Hamiltonian.RowEnergyZeroCoupling | source/ising.c:59-68 | with J = 0, every partial row sum of local energies is zero |
| Hamiltonian.RowsEnergyZeroCoupling | source/ising.c:59-69 | with J = 0, every partial sum over rows is zero |
| Hamiltonian.ZeroCouplingEnergy | source/ising.c:50-72 | with J = 0, the total energy of every configuration is zero |
| Hamiltonian.CellNegated | source/ising.c:61-65 | each site of the reversed configuration reads the negated spin |
| Hamiltonian.SiteEnergyNegated | source/ising.c:61-67 | reversing every spin leaves each local energy unchanged |
| Hamiltonian.RowEnergyNegated | source/ising.c:60-68 | reversing every spin leaves each partial row sum unchanged |
| Hamiltonian.RowsEnergyNegated | source/ising.c:59-69 | reversing every spin leaves each partial sum over rows unchanged |
| Hamiltonian.SiteEnergy | source/ising.c:61-67 | the local energy of site (i, j), read through the periodic boundary as total_energy reads it; SiteEnergyBound, SiteEnergyNegated and Metropolis.SiteFlip state its properties |
| Hamiltonian.Energy | source/ising.c:50-72 | the value total_energy computes: half the sum of all local energies in row-major order; TotalEnergy computes it, and EnergyGlobalFlip, EnergyBound, ZeroCouplingEnergy and Metropolis.FlipEnergy state its properties |
| Hamiltonian.CentreEnergyBound | source/ising.c:29-32 | with ±1 spins, the local energy lies in [-4|J|, 4|J|] |
| Hamiltonian.SiteEnergyBound | source/ising.c:61-67 | the local energy of every site of a ±1 configuration lies in [-4|J|, 4|J|] |
| Hamiltonian.RowEnergyBound | source/ising.c:60-68 | the first n local energies of a row sum to at most 4|J| n in size |
| Hamiltonian.RowsEnergyBound | source/ising.c:59-69 | the local energies of the first m rows sum to at most 4|J| m L in size |
| Hamiltonian.EnergyBound | source/ising.c:50-72 | the total energy of a ±1 configuration of N spins lies in [-2|J|N, 2|J|N] |
| Hamiltonian.EnergyGlobalFlip | source/ising.c:50-72 | the total energy is invariant under reversing every spin |
| Hamiltonian.Magnetization | source/ising.c:37-45 | the sum of all spins, the value total_magnetization computes; TotalMagnetization computes it, and MagnetizationBounds and Metropolis.FlipMagnetization state its properties |
| Hamiltonian.MagnetizationSnoc | source/ising.c:41 | the sum over a prefix grows by the next cell |
| Hamiltonian.MagnetizationBounds | source/ising.c:37-45 | a configuration of n spins of ±1 has magnetisation in [-n, n] with the parity of n |
| Hamiltonian.MagnetizationUpdate | source/ising.c:99 | replacing one cell changes the magnetisation by the new value minus the old |
| Hamiltonian.TotalMagnetization | source/ising.c:37-45 | the row-by-row loop returns the sum of all spins of the array |
| Hamiltonian.PrefixStep | source/ising.c:39-42 | the loop's next read spins[i*L+j] is the next cell of the row-major prefix |
| Hamiltonian.ReadNeighbourhood | source/ising.c:61-65 | the five reads return the centre spin and its four periodic neighbours |
| Hamiltonian.TotalEnergy | source/ising.c:50-72 | the nested loop returns half the sum of all local energies, the energy of the array's configuration |
| Metropolis.InitSpin | source/ising.c:120-124 | a draw gives +1 when it is odd and -1 when it is even, so every cell is ±1 |
| Metropolis.InitialSpins | source/ising.c:117-127 | the configuration has one cell per draw, and cell k is the spin of draw k |
| Metropolis.InitialSpinsAreSpins | source/ising.c:117-127 | every initial configuration holds only +1 and -1 |
| Metropolis.Initialization | source/ising.c:117-127 | the nested loop leaves the array holding the configuration of the draws, in row-major order |
| Metropolis.Flip | source/ising.c:99 | the configuration with spins[i*L+j] negated, as at ising.c:99 and 103; it keeps the lattice size, and FlipCell, FlipFrame and FlipInvolution state what changes |
| Metropolis.FlipDelta | source/ising.c:91 | the program's dE, the local energy with the centre reversed minus the local energy as it is; FlipDeltaIsGain and FlipEnergy state what it equals |
| Metropolis.Accepted | source/ising.c:98-109 | a move is taken when dE < 0, and otherwise when the acceptance test succeeds; StepEnergy and StepMagnetization state what taking it does |
| Metropolis.Step | source/ising.c:98-109 | the configuration after a move keeps the lattice size; it is the flipped configuration when the move is taken and the same one otherwise (StepKeepsSpins, StepEnergy) |
| Metropolis.StepEnergyDelta | source/ising.c:91-107 | the dE a move reports: the flip's dE when taken, zero when rejected; StepEnergy proves it is the change of the energy when L >= 2 |
| Metropolis.StepMagDelta | source/ising.c:93-108 | the dM a move reports: -2 * centre when taken, zero when rejected; StepMagnetization proves it is the change of the magnetisation |
| Metropolis.Row | source/ising.c:82 | the drawn row rand() % L lies in [0, L) |
| Metropolis.Col | source/ising.c:83 | the drawn column lies in [0, L) |
| Metropolis.SpinFlip | source/ising.c:79-112 | the array afterwards is the configuration after the move; dE and dM equal the changes the move reports: zero when rejected, the flip's change when taken |
| Metropolis.FlipKeepsSpins | source/ising.c:99 | reversing one spin keeps every cell at ±1 |
| Metropolis.StepKeepsSpins | source/ising.c:98-109 | a move, taken or not, keeps every cell at ±1 |
| Metropolis.FlipInvolution | source/ising.c:99 | reversing the same spin twice restores the configuration |
| Metropolis.FlipCell | source/ising.c:99 | after reversing (i, j), the cell (i, j) reads the negated spin and every other site reads as before |
| Metropolis.FlipFrame | source/ising.c:99 | in the flat view, only index i * L + j changes, and it changes sign |
| Metropolis.FlipMagnetization | source/ising.c:93 | reversing the spin c changes the magnetisation by -2c, the program's dM |
| Metropolis.StepMagnetization | source/ising.c:93-109 | the reported dM of any move is the change of the magnetisation |
| Metropolis.RowSpreadClosed | source/ising.c:60-68 | the per-site energy changes of one flip, summed along a row prefix, reduce to the terms whose site lies in it |
| Metropolis.RowsSpreadClosed | source/ising.c:59-69 | the per-site energy changes summed over a prefix of rows reduce to the terms whose row lies in it |
| Metropolis.SpreadTotal | source/ising.c:59-69 | over the whole lattice, the per-site energy changes of one flip add up to its five parts |
| Metropolis.CentreEnergyShift | source/ising.c:30-32 | shifting the neighbour values shifts the local energy by the sum of the four bond terms |
| Metropolis.BondTerm | source/ising.c:30-32 | a neighbour reading the reversed spin c contributes the bond gain 2Jcx |
| Metropolis.FlipDeltaIsDoubleLocal | source/ising.c:91 | the program's dE is minus twice the local energy of the site before the flip |
| Metropolis.FlipDeltaIsGain | source/ising.c:91 | the program's dE is the sum of the gains of the four bonds of the reversed site |
| Metropolis.SiteAtFlip | source/ising.c:91 | at the reversed site, the local energy changes by dE |
| Metropolis.NeighboursAwayFromFlip | source/ising.c:85-88 | away from the reversed site p, a neighbour read changes exactly when it reads p, and then by -2c |
| Metropolis.ShiftedCentreEnergy | source/ising.c:30-32 | the local energy with the neighbours that read p shifted picks up one bond gain for each of them |
| Metropolis.SiteAwayFromFlip | source/ising.c:61-67 | away from p, the local energy changes by the gains of the bonds into p |
| Metropolis.SiteFlip | source/ising.c:61-67 | at every site, the local energy changes by that site's part of the flip's change |
| Metropolis.RowEnergyFlip | source/ising.c:60-68 | a row prefix of local energies changes by the sum of its sites' parts |
| Metropolis.RowsEnergyFlip | source/ising.c:59-69 | a prefix of rows changes by the sum of its rows' parts |
| Metropolis.RowsAdd | source/ising.c:59-69 | row sums that each differ by their part give totals that differ by the sum of the parts |
| Metropolis.FlipEnergy | source/ising.c:91 | when L >= 2, the total energy after reversing p is the energy before plus the program's dE |
| Metropolis.StepEnergy | source/ising.c:91-109 | when L >= 2, the reported dE of any move is the change of the total energy |
| Metropolis.SingleSiteFlipMismatch | source/ising.c:91 | on a 1 x 1 lattice, reversing the spin leaves the energy at -2J while dE is 8J |
| Sampling.Run | source/ising.c:182-186 | the lattice after n turns of the loop: each turn applies one move to the previous lattice, and the lattice size is kept; RunKeepsSpins and RunStep state its properties |
| Sampling.TrackedEnergy | source/ising.c:192 | E_tot after n turns: the initial total_energy plus every reported dE; TrackedEnergyIsEnergy and TrackedEnergyBound state what it equals and how large it can be |
| Sampling.TrackedMagnetization | source/ising.c:193 | M_tot after n turns: the initial total_magnetization plus every reported dM; TrackedMagnetizationIsMagnetization and TrackedMagnetizationBound state what it equals and how large it can be |
| Sampling.RunStep | source/ising.c:188-193 | move k takes the configuration, the running energy and the running magnetisation from step k to step k + 1 |
| Sampling.RunKeepsSpins | source/ising.c:184-188 | every configuration of the chain holds only +1 and -1 |
| Sampling.TrackedEnergyIsEnergy | source/ising.c:192 | when L >= 2, the incrementally kept E_tot equals the energy of the current configuration after every number of moves |
| Sampling.TrackedMagnetizationIsMagnetization | source/ising.c:193 | the incrementally kept M_tot equals the magnetisation of the current configuration after every number of moves |
| Sampling.Accumulate | source/ising.c:197-205 | adds one sample to E1, E2, M1, M2 and sample_num; AccumulateValid proves the moment sums stay consistent with the count, AccumulateBounded and AccumulateEnergyBounded that the first-moment sums stay within count times the per-sample bound, and SampleStatsCount that the count is the number of sampled iterations |
| Sampling.IsSampleStep | source/ising.c:197 | iteration k is sampled when k >= start_sample and k % sample_interval == 0; SampleStatsCount counts these |
| Sampling.SampleCount | source/ising.c:197-204 | the number of sampled iterations among the first n; SampleStatsCount proves sample_num equals it, and SampleCountPositive, GuardGivesSamples and Findings.NoSamplesBeforeStart state when it is positive or zero |
| Sampling.SampleStats | source/ising.c:197-205 | E1, E2, M1, M2 and sample_num after n turns: each sampled turn adds the running E_tot and M_tot and their squares; SampleStatsCount, SampleSumsValid, SampledMagnetizationWithinLattice and SampledEnergyWithinCoupling state its properties |
| Sampling.SampleStatsCount | source/ising.c:204 | sample_num counts exactly the iterations i >= start_sample with i % sample_interval == 0 |
| Sampling.SampleCountPositive | source/ising.c:197 | a sampled iteration before n makes the count positive |
| Sampling.SamplingGuard | source/main.c:73-78 | the guard (iter_num - start_sample) / sample_interval > 0 as it is evidently meant to work, without unsigned wrap-around; GuardGivesSamples and GuardRejectsSampledRun state it is sufficient for a sample but not necessary |
| Sampling.GuardGivesSamples | source/main.c:73-78 | the guard (iter_num - start_sample) / sample_interval > 0, stated without wrap-around, ensures at least one sample |
| Sampling.GuardRejectsSampledRun | source/main.c:73-78 | the converse of GuardGivesSamples fails: iter_num = 11, start_sample = 5, sample_interval = 10 samples iteration 10, yet the guard rejects the run |
| Sampling.FirstMultiple | source/ising.c:197 | every window of d consecutive iterations holds a multiple of d |
| Sampling.HeatScale | source/ising.c:222 | the divisor T*T*N is positive |
| Sampling.SumsStep | source/ising.c:198-202 | adding a value x to a sum and x^2 to a sum of squares keeps the Cauchy-Schwarz bound n * q >= s^2 and q >= 0 |
| Sampling.AccumulateBounded | source/ising.c:201 | adding a magnetisation within [-b, b] keeps M1 within count * b |
| Sampling.AccumulateValid | source/ising.c:197-205 | taking a sample keeps both pairs of sums valid |
| Sampling.SampleSumsValid | source/ising.c:197-205 | the energy sums and the magnetisation sums of every chain satisfy the Cauchy-Schwarz bound |
| Sampling.TrackedMagnetizationBound | source/ising.c:193 | the running magnetisation stays within [-N, N] |
| Sampling.SampledMagnetizationBounded | source/ising.c:201 | if the running magnetisation stays in [-b, b], M1 stays within sample_num * b |
| Sampling.SampledMagnetizationWithinLattice | source/ising.c:201 | M1 stays within sample_num * N |
| Sampling.TrackedEnergyBound | source/ising.c:192 | when L >= 2, the running energy stays within [-2|J|N, 2|J|N] |
| Sampling.AccumulateEnergyBounded | source/ising.c:198 | adding an energy within [-b, b] keeps E1 within count * b |
| Sampling.SampledEnergyBounded | source/ising.c:198 | if the running energy stays in [-b, b], E1 stays within sample_num * b |
| Sampling.SampledEnergyWithinCoupling | source/ising.c:198 | when L >= 2, E1 stays within sample_num * 2|J|N |
| Sampling.Derive | source/ising.c:215-225 | the four observables in exact arithmetic: E1 and M1 over sample_num * N, and the two variances over T*T*N and T*N; SampleStatsObservables states their bounds |
| Sampling.VarianceNonNegative | source/ising.c:222 | E2/n - E1^2/(n*n) is non-negative under the Cauchy-Schwarz bound |
| Sampling.HeatCapacityNonNegative | source/ising.c:222 | from valid sums, the heat capacity per spin is non-negative |
| Sampling.SusceptibilityNonNegative | source/ising.c:225 | from valid sums, the susceptibility per spin is non-negative |
| Sampling.MagPerSpinBounds | source/ising.c:219 | when M1 lies within sample_num * N, the magnetisation per spin lies in [-1, 1] |
| Sampling.EnergyPerSpinBounds | source/ising.c:216 | when E1 lies within sample_num * N * a, the energy per spin lies in [-a, a] |
| Sampling.SampleStatsObservables | source/ising.c:215-225 | for every chain from a ±1 configuration with a sample, the heat capacity and susceptibility are non-negative, the magnetisation per spin is in [-1, 1], and when L >= 2 the energy per spin is in [-2|J|, 2|J|] |
| Sampling.SampleStatsStep | source/ising.c:197-205 | iteration k adds the running values after move k to the sums exactly when it is a sampling step |
| Sampling.DriverStep | source/ising.c:188-205 | the loop's invariant survives one iteration in terms of the dE and dM the move reports |
| Sampling.Advance | source/ising.c:188-205 | one iteration moves the array, E_tot, M_tot and the sums from their values at step n to their values at step n + 1 |
| Sampling.MetropolisHastings | source/ising.c:151-225 | the driver returns the sums of the chain its draws determine and the observables derived from them; the count is the number of sampling steps, the heat capacity and susceptibility are non-negative, the magnetisation per spin lies in [-1, 1], and when L >= 2 the energy per spin lies in [-2|J|, 2|J|] |
| Findings.WrapInt32 | source/ising.c:216 | a reduction to a C int lies in [-2^31, 2^31), is congruent modulo 2^32, and changes nothing already in range |
| Findings.WrapUInt32 | source/main.c:74 | a reduction to an unsigned int lies in [0, 2^32), is congruent modulo 2^32, and changes nothing already in range |
| Findings.WrappedMagPerSpin | source/ising.c:219 | the program's M_per_spin as written: M1 over sample_num * N reduced to a C int; WrappedMagPerSpinInRange and MagPerSpinWrapsSign state when it agrees with the exact value and when it does not |
| Findings.WrappedHeatCapacity | source/ising.c:222 | the program's C_per_spin as written: E1^2 over sample_num * sample_num reduced to a C int; WrappedHeatCapacityInRange and HeatCapacityWrapsNegative state when it agrees with the exact value and when it does not |
| Findings.WrappedSamplingGuard | source/main.c:74-75 | the program's guard as written: (iter_num - start_sample) reduced to an unsigned int, divided by sample_interval, stored in an int, must be positive; WrappedGuardInRange and GuardWrapsPastEnd relate it to the exact guard |
| Findings.WrappedMagPerSpinInRange | source/ising.c:219 | while sample_num * N fits in an int, the program's M_per_spin is the exact one |
| Findings.WrappedHeatCapacityInRange | source/ising.c:222 | while sample_num <= 46340, the program's C_per_spin is the exact one |
| Findings.HeatCapacityWrapsNegative | source/ising.c:222 | with 65537 samples, sample_num * sample_num wraps to 131073 and C_per_spin comes out negative where the exact value is 0 |
| Findings.MagPerSpinWrapsSign | source/ising.c:219 | with 2^17 samples on a 128 x 128 lattice, sample_num * N wraps to -2^31 and M_per_spin is -1 where the exact value is 1 |
| Findings.WrappedGuardInRange | source/main.c:73-75 | when start_sample <= iter_num < 2^31, the program's unsigned guard is the exact guard |
| Findings.NoSamplesBeforeStart | source/ising.c:197 | a run no longer than start_sample takes no samples |
| Findings.GuardWrapsPastEnd | source/main.c:73-78 | iter_num = 10, start_sample = 20, sample_interval = 2 passes the program's guard, yet no iteration is sampled and the exact guard rejects it |
| InputCheck.First | source/input_check.c:24 | ch[0] is the terminating NUL exactly for the empty string |
| InputCheck.DotsSnoc | source/input_check.c:30-34 | one more character adds a dot exactly when it is '.' |
| InputCheck.DotsPrefix | source/input_check.c:31-32 | a prefix has no more dots than the whole string |
| InputCheck.DigitsHaveNoDots | source/input_check.c:10-19 | a digit string has no '.' |
| InputCheck.IsPosInt | source/input_check.c:10-19 | returns 1 exactly when every character is a digit, the empty string included, and 0 otherwise |
| InputCheck.IsNumber | source/input_check.c:22-42 | returns 1 exactly when the string is non-empty, starts with '-' or a digit, and continues with digits and at most one '.'; 0 otherwise |
| InputCheck.IsPosNumber | source/input_check.c:46-66 | returns 1 exactly when the string is non-empty, starts with a digit, and continues with digits and at most one '.'; 0 otherwise |
| InputCheck.PosNumberIsUnsignedNumber | source/input_check.c:46-66 | is_pos_number accepts exactly what is_number accepts without a leading '-' |
| InputCheck.DigitsAreNumbers | source/input_check.c:10-19 | every non-empty string is_pos_int accepts is also accepted by is_pos_number and is_number |
| InputCheck.EdgeCases | source/input_check.c:22-42 | "" passes only is_pos_int; "0" passes is_pos_number; a lone "-" and "1." pass is_number; "1.2.3" and "-1a" do not |
| InputCheck.FlagProduct | source/input_check.c:125 | a product of two 0/1 flags is the 0/1 flag of their conjunction |
| InputCheck.CheckInputType | source/input_check.c:92-127 | returns 1 exactly when all six arguments pass their checks and the result file is usable, and 0 otherwise |

## Left out

- Randomness is an input. `rand() % L`, `rand() % 2` and the acceptance test `rand()/RAND_MAX <= exp(-dE/T)` (source/ising.c:82-83, 102, 120) are draws and a flag in `Move`, supplied by the caller. So `exp`, `RAND_MAX` and the Boltzmann statistics of the chain are not modelled. Nothing is claimed about convergence to equilibrium. The program always accepts a move with dE = 0, since rand()/RAND_MAX <= exp(0) = 1; the model leaves that to the caller, who may pass a failed acceptance test for such a move (source/ising.c:102).
- Floating point: every `double` is an exact real, so rounding in the running totals and the sums of squares is not modelled.
- The magnetisation, a `double` in the program, is an exact integer.
- Console output, the result file, `clock()` timing and `calloc`/`free` (source/ising.c:157, 178-183, 207-213, 228-246) are not modelled.
- The `printf` messages of `check_input_type` are not modelled.
- `is_file` (source/input_check.c:70-85) touches the filesystem. Its outcome is the `fileReady` input of `InputCheck.CheckInputType`.
- `main.c` is not part of this model except its sampling guard. That covers argument counting, `atoi`/`atof` conversion and the call of the driver.
- The 32-bit width of `L * L`, `int N`, the flat index `i * L + j` and the loop counter `i` is not modelled. These overflow only for lattices of side 46341 or more, or for more than 2^31 iterations.
- Sampling.MetropolisHastings: requires at least one sample, which main.c's guard is meant to ensure (source/main.c:73-78). Without one, the program divides by sample_num = 0.
- Sampling.MetropolisHastings: requires sampleInterval > 0. `is_pos_int` accepts "0" for the sampling interval, and main.c then divides by it (source/main.c:74).
- Sampling.MetropolisHastings: requires L > 0. `is_pos_int` accepts "0" for the lattice side (source/input_check.c:10-19), main.c passes it on (source/main.c:55), and the program then takes `rand() % L` with L = 0 (source/ising.c:82), a division by zero. Metropolis.SpinFlip, Metropolis.Row and Metropolis.Col require L > 0 for the same reason.
- Sampling.MetropolisHastings: requires T > 0. `is_pos_number` accepts "0" for the temperature (source/input_check.c:46-66); the program then runs, and its heat capacity and susceptibility divide by T*T*N and T*N = 0 (source/ising.c:222, 225), giving an infinity or NaN, which exact reals cannot represent.
- Sampling.MetropolisHastings: bounds the energy per spin by 2|J| only when L >= 2. On a 1 x 1 lattice E_tot moves by 8J on every accepted move while the energy stays at -2J (Metropolis.SingleSiteFlipMismatch), so the running energy, and with it the energy per spin, has no bound.
- Sampling.TrackedEnergyIsEnergy: holds only for L >= 2. On a 1 x 1 lattice the site is its own four neighbours, so dE is not the change of the energy (Metropolis.SingleSiteFlipMismatch).
- Findings.WrappedMagPerSpin: requires a non-zero wrapped divisor, where the program would divide by zero.
- Findings.WrappedHeatCapacity: requires a non-zero wrapped divisor, where the program would divide by zero.

## Findings

| source | as written | input that shows it | evidently intended | confidence | as-written member | corrected member |
|---|---|---|---|---|---|---|
| source/ising.c:222 | `(E1*E1)/(sample_num*sample_num)` multiplies two `int`s, which wraps once sample_num exceeds 46340 | 65537 samples of energy 1 on one spin at T = 1: the product wraps to 131073 and C_per_spin is about -32767 | the exact square, giving a heat capacity that is never negative | not executed | Findings.HeatCapacityWrapsNegative | Sampling.HeatCapacityNonNegative |
| source/ising.c:216-219 | `M1/(sample_num*N)` and `E1/(sample_num*N)` multiply two `int`s, which wraps once the product reaches 2^31 | 2^17 samples of the all-up 128 x 128 lattice: the product wraps to -2^31 and M_per_spin is -1 | the exact product, giving a magnetisation per spin in [-1, 1] | not executed | Findings.MagPerSpinWrapsSign | Sampling.MagPerSpinBounds |
| source/main.c:73-75 | `(iter_num - start_sample)/sample_interval` subtracts `unsigned int`s, which wraps when start_sample > iter_num | iter_num = 10, start_sample = 20, sample_interval = 2: the guard sees 2^31 - 5 and runs a simulation that takes no sample | the run is rejected when no iteration is sampled | not executed | Findings.GuardWrapsPastEnd | Sampling.GuardGivesSamples |
