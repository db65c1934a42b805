# Netlist rewrites that keep their meaning

A set of Yosys passes rewrites a synthesised netlist for QuickLogic devices:
multiplies, adders and registers become DSP cells, inverters move into pins,
boundary registers become IO flip-flops, LUT inputs are dropped, and the result
is named and ordered for EDIF. Each rewrite is only right if the netlist means
what it meant before, on every input and on every clock cycle. This project
models the rewrites and proves that, or says exactly when it fails.

## How it is modelled

- `Bits` holds two-valued bits, signals, and the integers bit patterns stand
  for; arithmetic cells are integers cut to a width.
- `Netlist` holds a module of cells and two-way connections. A run is a value
  for every wire on every cycle; `IsRun` says that all cells and connections
  allow it. Registers step from one cycle to the next with their enable, reset
  and power-up value; a cell with no known function is any relation between the
  histories of its ports. `Canon` is the pass's signal map.
- A rewrite that edits a module is a method on a `Module` object whose contract
  relates the runs before and after, in both directions.
- `IntegrateInv` and `Ioff` have cells of their own, because what matters there
  (pins with an inversion mask, IO register kinds) does not occur elsewhere.

| file | what it covers |
|---|---|
| `Operand`, `Preadder`, `Accumulator` | what a DSP computes from placed operands, a folded pre-adder, an accumulator |
| `FlopChains`, `CellControls`, `Ownership`, `Sweep` | absorbing operand registers: the walk, the clock, reset and enables one DSP has for all of them, who removes each register, dropping the copied ones |
| `MergeAccumulators`, `Refold` | rewrites of the netlist before matching |
| `Cascade` | point-to-point cascade nets by replication |
| `IntegrateInv`, `Ioff`, `Macc`, `LutDedup`, `LutEqn` | smaller rewrites |
| `ModuleOrder`, `EdifNames` | the order and the names the EDIF backend uses |

Some properties one would expect are false of the code. Each has an instance
that fails, a lemma or contract with the exact condition, or both:

- `Operand.PortExactIff`: an unsigned operand whose top wire bit is repeated.
- `Preadder.UnsignedAddExactIff`, failing in `UnsignedFoldWraps`: the width
  test of a folded addition is a signed bound.
- `Preadder.UnsignedSubtractExactIff`, failing in `RegisteredSubtractWraps`: an
  unsigned difference behind a register may be taken in fewer bits than the
  `$mul` keeps.
- `Accumulator.AgreesIff`, failing in `WideRegisterDiffers` and
  `MixedSignednessDiffers`: neither the last adder's width against the
  register's nor the signednesses of the cells are compared.
- `Macc.AgreesIff`: neither the width of the `$mul` output nor the operand order
  of a `$sub` is looked at.
- `IntegrateInv.OutputsKeptIff`, failing in `DirectOutputLost`: outputs are
  found through connections only.
- `Cascade.ShiftedAddendMissed`: a DSP that adds the shifted PCIN reads a cascade
  net and is not taken for its consumer.
- `CellControls.WirePins`, with `LostResetLoads`: a reset held active by a
  constant 1 is wired as none, unless M or the pre-adder's register has it too.
- `LutEqn.TextMeansInitIff`: a longer INIT is read from its top.
- `Ownership.Claims.Emit`, failing in `OwnRegisterCopied`: a register of the
  match itself may be copied into a bank. That none lies behind an operand
  (`OwnClear`) can be read off the net before the call and is enough; it is
  not necessary.
- `Cascade.LegalizeCascadeFanout`, failing in `ForkedChainFails`: a shared feeder
  that is a cascade consumer itself.

## Model

| member | source | states |
|---|---|---|
| Operand.StripExtension | ql-qlf-plugin/ql-dspv4.cc:143-169 | the strip drops a run of constant zeros (the operand is then unsigned) or all but one copy of a top wire bit, and leaves constants of ones alone |
| Operand.StripShape | ql-qlf-plugin/ql-dspv4.cc:129-169 | what is left is a prefix of the operand, all that was above it was padding, and no padding is left on top |
| Operand.StripKeepsValue | ql-qlf-plugin/ql-dspv4.cc:129-169 | the stripped operand has the same integer value on every input, for signed operands and unsigned ones without a repeated top wire bit |
| Operand.PortExact | ql-qlf-plugin/ql-dspv4.cc:120-127 | an operand that fits its port, stripped and extended to it, is read by the signed multiplier as the operand's own value |
| Operand.FitsIff | ql-qlf-plugin/ql-dspv4.cc:1205-1210 | a port reads every value of a width and signedness as it is if and only if the width fits it |
| Operand.PortExactIff | ql-qlf-plugin/ql-dspv4.cc:158-168 | among operands that fit, that holds on all inputs if and only if the operand is signed or its top wire bit is not repeated |
| Operand.PlaceOperands | ql-qlf-plugin/ql-dspv4.cc:1205-1234 | fails only if neither order fits; otherwise an order that fits, the wider operand on the 32-bit port when both do, and as written between two as wide |
| Operand.ProductFits | ql-qlf-plugin/qlf_k6n10f/dspv4_sim.v:428-436 | 50 bits hold every product of a 32-bit and an 18-bit signed port |
| Operand.PlacedProductExact | ql-qlf-plugin/ql-dspv4.cc:1581-1587 | in either order the DSP's product is the RTL product as an integer, and its low bits are the `$mul` output |
| Preadder.SignedWidth | ql-qlf-plugin/ql-dspv4.cc:173-182 | the width left after dropping copies of the top bit |
| Operand.CopiesShape | ql-qlf-plugin/ql-dspv4.cc:173-182 | what that width keeps is a prefix, all above it copies of its top bit, with no copy left under that |
| Preadder.SumWidthHolds | ql-qlf-plugin/ql-dspv4.cc:185-188 | that many bits hold the sum or difference of two signed addends on every input |
| Preadder.CheckSafe | ql-qlf-plugin/ql-dspv4.cc:1038-1082 | accepts exactly when no guard finds a truncated sum, a change of signedness, a register read short, a wrapping unsigned subtract or a padded sum |
| Preadder.Orient | ql-qlf-plugin/ql-dspv4.cc:1107-1139 | finds an order whenever one fits; of two that fit, the one that absorbs more registers, and as written when they absorb as many; a subtract never swaps |
| Preadder.TryFold | ql-qlf-plugin/ql-dspv4.cc:1159-1190 | a fold it returns satisfies every guard of its path and has the best order; it takes the B path only when no fold on the A path is acceptable, and with a control word it gives up only when no path and order is |
| Preadder.FoldPreadder | ql-qlf-plugin/ql-dspv4.cc:996-1030 | never folds the squaring shape; folds the wider of the acceptable sums, the one on A of two as wide, and nothing only when neither is acceptable |
| Preadder.PreadderExact | ql-qlf-plugin/ql-dspv4.cc:1091-1190 | for signed operands, on both paths and in both orders, what the multiplier reads of the wrapping pre-adder is the RTL's sum or difference as an integer |
| Preadder.RegisteredSumExact | ql-qlf-plugin/ql-dspv4.cc:1035-1060 | with a register after the adder, the part of it the multiply takes equals what the AD bank gives one cycle on, reset or not |
| Preadder.UnsignedAddExact | ql-qlf-plugin/ql-dspv4.cc:1038-1094 | an accepted unsigned addition with one more bit of room than the width test asks for, or a zero addend, reaches the multiplier as the RTL's sum on every input |
| Preadder.UnsignedAddExactIff | ql-qlf-plugin/ql-dspv4.cc:1038-1094 | among accepted unsigned additions whose bits are free, that holds on all inputs if and only if there is that room |
| Preadder.UnsignedFoldWraps | ql-qlf-plugin/ql-dspv4.cc:1164-1175 | an unsigned 26- plus 31-bit sum passes every guard and reaches the multiplier as a negative number |
| Preadder.UnsignedSubtractExact | ql-qlf-plugin/ql-dspv4.cc:1062-1072 | an accepted unsigned subtract, negative in the DSP where the RTL wraps, gives the `$mul` output the same bits for any other operand, if no register stands between or the `$mul` keeps no more than it takes |
| Preadder.RegisteredSubtractExact | ql-qlf-plugin/ql-dspv4.cc:1053-1072 | the same one cycle on, behind an AD register, reset or not |
| Preadder.UnsignedSubtractExactIff | ql-qlf-plugin/ql-dspv4.cc:1053-1072 | among accepted unsigned subtracts whose bits are free, the bits are the same for all inputs and other operands if and only if that condition holds |
| Preadder.RegisteredSubtractWraps | ql-qlf-plugin/ql-dspv4.cc:1053-1072 | a registered 8-bit difference that passes every guard and gives other product bits |
| Accumulator.AluDirection | ql-qlf-plugin/ql-dspv4.cc:543-558 | each ALU mode, the reverse subtract with its carry in, computes the direction the mode name says, modulo 2^64 |
| Accumulator.FullProductFits | ql-qlf-plugin/ql-dspv4.cc:775-783 | a product kept at the sum of the operand widths is not cut |
| Accumulator.DspResultCong | ql-qlf-plugin/qlf_k6n10f/dspv4_sim.v:1130-1290 | the DSP's 64-bit result has the low bits of the uncut value whenever its accumulator does |
| Accumulator.LowBitsAgree | ql-qlf-plugin/ql-dspv4.cc:675-809 | for an idiom past the cut guards that meets the exact condition, on every cycle of every run the low bits of the 50-bit P are the RTL register, and the sum before it, for one adder on C, on the feedback or both, all ALU directions and any signednesses |
| Accumulator.LastSumCong | ql-qlf-plugin/ql-dspv4.cc:775-809 | under the condition the RTL's sum, through every cut, padding and change of signedness, has the low bits of the uncut value |
| Accumulator.AgreesIff | ql-qlf-plugin/ql-dspv4.cc:775-809 | of the idioms the cut guards let through, P holds the RTL's result on all inputs if and only if a condition on the shape, the widths and the signednesses holds |
| Accumulator.OneSignednessExact | ql-qlf-plugin/ql-dspv4.cc:775-809 | with one signedness and no register above the last Y the cut guards suffice |
| Accumulator.FeedbackExactWidth | ql-qlf-plugin/ql-dspv4.cc:775-809 | a fed-back register above the last Y is never right on all inputs |
| Accumulator.WideRegisterDiffers | ql-qlf-plugin/ql-dspv4.cc:783-808 | an instance that passes both guards and gets a wrong fifth bit |
| Accumulator.NarrowAddendAgrees | ql-qlf-plugin/ql-dspv4.cc:783-808 | the same register is right on all inputs when C is one bit, since the sum then fits the last Y |
| Accumulator.MixedSignednessDiffers | ql-qlf-plugin/ql-dspv4.pmg:173-197 | a signed product in an unsigned addition passes both guards, and the DSP sign-extends where the RTL does not |
| Netlist.CanonExact | ql-qlf-plugin/ql-dspv4.cc:1919 | unless connections contradict each other, two bits have one representative if and only if they are equal whatever the connections allow |
| Netlist.OutputsFollow | ql-qlf-plugin/ql-dspv4.cc:383-388 | the inputs of a multiply, an adder or a register, and what it started with, decide its outputs |
| FlopChains.IndexFlops | ql-qlf-plugin/ql-dspv4.cc:2804-2808 | every Q bit of an absorbable register is indexed, and every entry names a register bit on that net |
| FlopChains.Resolve | ql-qlf-plugin/ql-dspv4.cc:2495-2510 | succeeds exactly when all bits of the operand come from registers, and returns which |
| FlopChains.FlopsOf | ql-qlf-plugin/ql-dspv4.cc:2550-2558 | the registers of a stage, each once, with how many operand bits each gives |
| FlopChains.CheckStage | ql-qlf-plugin/ql-dspv4.cc:2552-2611 | passes exactly the stages of rising-edge, zero-reset, unblocked registers not yet moved; one that passes is marked copied exactly if some register of it has another reader or gives only part of its bits |
| FlopChains.SharedControls | ql-qlf-plugin/ql-dspv4.cc:2613-2642 | the clock, enable and reset all registers of the stage share, or none because two differ |
| FlopChains.TakeStage | ql-qlf-plugin/ql-dspv4.cc:2492-2664 | returns a stage exactly when every bit has a register that fits and all agree with each other and with what the cell has fixed; every register of it then has the fixed clock, and the fixed reset net and polarity; and the D bits come in the operand's order |
| FlopChains.CollectFlops | ql-qlf-plugin/ql-dspv4.cc:2453-2696 | stops only at the port's depth or before a stage that cannot be taken; each stage linked to the next by D, every register under one set of controls and under the clock and reset the cell has fixed; an unmarked chain is the sole reader of every stage, a marked one has a stage that is read elsewhere |
| FlopChains.StageStep | ql-qlf-plugin/qlf_k6n10f/dspv4_sim.v:12-44 | one cycle of the stage's registers, extended to the port, is one cycle of a bank register |
| FlopChains.BankSimulates | ql-qlf-plugin/ql-dspv4.cc:2334-2339 | for any chain the walk returns, of any depth and any mix of registers per bit, bank register k holds stage k on every cycle of every run, at the port's width |
| FlopChains.PathIsBank | ql-qlf-plugin/qlf_k6n10f/dspv4_sim.v:661-698 | the two-register path with its two select bits is the bank of that many registers |
| FlopChains.OperandPathExact | ql-qlf-plugin/ql-dspv4.cc:1581-1587 | with none, one or two stages absorbed and pins on the nets of the chain's controls, what leaves the path is the original operand on every cycle |
| CellControls.GiveUpDisagreeing | ql-qlf-plugin/ql-dspv4.cc:1378-1403 | the chains kept agree on clock and reset with each other, and one is given up only for an earlier one that is kept |
| CellControls.EvictEnables | ql-qlf-plugin/ql-dspv4.cc:1431-1491 | ports are given up in the order of their width, and no more of them than it takes to need three enables |
| CellControls.EnablesAre | ql-qlf-plugin/ql-dspv4.cc:1446-1475 | the enables counted are exactly the clock-enable nets of the registers taken and of the result's |
| CellControls.ShareControls | ql-qlf-plugin/ql-dspv4.cc:1378-1582 | what is left of each chain after every rule in turn, and refused exactly when a register of the match cannot be in its bank or cannot share clock or reset with another |
| CellControls.GrantedAgree | ql-qlf-plugin/ql-dspv4.cc:1378-1546 | all chains left share clock and reset, also with the pre-adder's register, and need at most three enables |
| CellControls.WhyGivenUp | ql-qlf-plugin/ql-dspv4.cc:1378-1546 | a chain left in fabric has a register that clashes with an earlier chain's or with the pre-adder's, or the cell would need four enables |
| CellControls.MAgrees | ql-qlf-plugin/ql-dspv4.cc:1405-1429 | the guard of the M register against the chains never fires, since they were walked under its controls |
| CellControls.WirePins | ql-qlf-plugin/ql-dspv4.cc:1649-1738 | the one CLK is on the clock net of every register the DSP takes in, M, P, the pre-adder's and all stages; the one RSTN is the reset of every one but P, if and only if no always-active reset is lost |
| CellControls.LostResetLoads | ql-qlf-plugin/ql-dspv4.cc:1664-1665 | with such a reset lost the bank loads where the register is held at zero |
| CellControls.OnePinPathExact | ql-qlf-plugin/ql-dspv4.cc:1581-1671 | for every port of the one DSP, with all banks on that one CLK and RSTN, taken from the match, and the port's own enable, what leaves the operand path is the RTL's operand on every cycle |
| Ownership.PlacesCount | ql-qlf-plugin/ql-dspv4.cc:2783-2792 | a net on so many distinct port bits has at least so many users |
| Ownership.ReadOnce | ql-qlf-plugin/ql-dspv4.cc:2340-2348 | in a chain that is moved, no bit of it or of another chain of the match reads a net it reads |
| Ownership.MovedAlone | ql-qlf-plugin/ql-dspv4.cc:1816-1819 | a moved register belongs to one chain and one stage of the match |
| Ownership.MovedUnread | ql-qlf-plugin/ql-dspv4.cc:2409-2412 | no other cell port reads a moved register |
| Ownership.MovedNotOutput | ql-qlf-plugin/ql-dspv4.cc:2810-2816 | no module output is on a moved register's net |
| Ownership.MovedOrCopied | ql-qlf-plugin/ql-dspv4.cc:2583-2593 | within a match what is moved, what is copied and what was moved before never meet |
| Ownership.OwnerAfter | ql-qlf-plugin/ql-dspv4.cc:1783-1846 | after a match the three pools are disjoint if and only if no register of the match is copied into one of its banks |
| Ownership.TakenIsBehind | ql-qlf-plugin/ql-dspv4.cc:2453-2663 | whatever a walk takes lies behind the operand by D inputs, within the port's depth |
| Ownership.TakenUnderSeed | ql-qlf-plugin/ql-dspv4.cc:2398-2441 | every register in a bank has the clock and reset of M if there is one, else the clock of the result's register, is rising-edge, resets to zero, and is neither kept nor powered up at 1 |
| Ownership.PrivateRegisterMoves | ql-qlf-plugin/ql-dspv4.cc:2552-2611 | an enabled, reset register that only the operand reads is taken, and not as a copy |
| Ownership.Claims.WalkRoot | ql-qlf-plugin/ql-dspv4.cc:1353-1372 | the chain of one operand, as deep as it can go under what the match fixes; behind C nothing exactly when that chain has a register of the match's own result in it |
| Ownership.SelfFedOk | ql-qlf-plugin/ql-dspv4.cc:2583-2593 | `p <= p * b` with `p` also an output meets all that `emit` is given: the index, the register shapes, the match |
| Ownership.OwnRegisterCopied | ql-qlf-plugin/ql-dspv4.cc:2583-2593 | that match is accepted, and whatever the walks return, its own register is copied into its bank |
| Ownership.Claims.Claim | ql-qlf-plugin/ql-dspv4.cc:1820-1835 | a copied register joins the copied pool; another is queued once, unless it was claimed before |
| Ownership.Claims.ClaimStages | ql-qlf-plugin/ql-dspv4.cc:1838-1846 | every register of the absorbed stages is claimed, as the chain says |
| Ownership.Claims.Emit | ql-qlf-plugin/ql-dspv4.cc:561-1847 | accepts unless some other rule refuses, a matched register is absorbed already, or the shared controls do; a refused match changes no pool; an accepted one walks every operand as far as it goes under the clock and reset of the match, and adds exactly its own registers and the stages the shared controls leave; one pool and one queue place a register if and only if none of its own registers is copied |
| Ownership.Claims.EmitAll | ql-qlf-plugin/ql-dspv4.cc:356-369 | for every offer in turn, whether it is accepted and what it makes of the pools; over the whole sequence no register is queued twice, and none is both queued, copied or removed by the matcher, if no match has its own registers behind its operands, the result behind C excepted |
| Sweep.LiveBits | ql-qlf-plugin/ql-dspv4.cc:383-393 | the nets read by input ports of remaining cells and by module outputs |
| Sweep.StaleIsSafe | ql-qlf-plugin/ql-dspv4.cc:394-410 | counts taken earlier in the round never cause a wrong removal |
| Sweep.DropRefines | ql-qlf-plugin/ql-dspv4.cc:394-410 | without a register nothing reads, whatever the module does on its surviving nets it could do before |
| Sweep.Round | ql-qlf-plugin/ql-dspv4.cc:382-411 | in any order, one round removes only registers whose readers are all removed; if none, each left has a reader left |
| Sweep.SweepUserless | ql-qlf-plugin/ql-dspv4.cc:371-418 | terminates and removes exactly the least set closed under "all readers removed", so nothing left reads a removed register; no run is lost and none is added on the surviving nets |
| MergeAccumulators.OnlyUses | ql-qlf-plugin/ql-dspv4.cc:2046-2050 | under the sole-reader guard no other port or output carries a bit of the loop's sum |
| MergeAccumulators.Lockstep | ql-qlf-plugin/ql-dspv4.cc:1871-1879 | loops with one key that are ever equal stay equal for the rest of every run |
| MergeAccumulators.EqualFromReset | ql-qlf-plugin/ql-dspv4.cc:1871-1879 | from the first clock edge under the shared reset they are equal, however they powered up |
| MergeAccumulators.EqualFromPowerUp | ql-qlf-plugin/ql-dspv4.cc:1888-1906 | with power-up values in the key they are equal from cycle 0 |
| MergeAccumulators.FoldKeepsRun | ql-qlf-plugin/ql-dspv4.cc:2082-2100 | a run with equal power-up is a run of the folded module |
| MergeAccumulators.FoldRefines | ql-qlf-plugin/ql-dspv4.cc:2082-2100 | whatever the folded module does on its surviving nets, the module before could do |
| MergeAccumulators.FoldKeepsReady | ql-qlf-plugin/ql-dspv4.cc:2035-2066 | folding one pair leaves every other candidate loop a loop under the same guards |
| MergeAccumulators.FindLoop | ql-qlf-plugin/ql-dspv4.cc:1963-1987 | finds the loop that the adder driving D makes with the register, exactly when D is its whole sum and one of its operands is the whole Q; every eligible loop is found |
| MergeAccumulators.KeyExact | ql-qlf-plugin/ql-dspv4.cc:1989-2027 | two loops have one key if and only if they are one accumulator written twice: one adder shape and feedback side, other operand, clock, enable and reset on the same nets bit by bit, equal reset and power-up values |
| MergeAccumulators.TwoAccumulatorsFold | ql-qlf-plugin/ql-dspv4.cc:1914-1921 | two loops whose operands a connection makes one net are both candidates, and the same accumulator |
| MergeAccumulators.Group | ql-qlf-plugin/ql-dspv4.cc:1989-2068 | groups exactly the loops that pass the guards by their full key |
| MergeAccumulators.InitKeepsRuns | ql-qlf-plugin/ql-dspv4.cc:1888-1906 | with power-up values in the key, over all merges no run is lost at all |
| MergeAccumulators.Round | ql-qlf-plugin/ql-dspv4.cc:1917-2102 | one round keeps the runs in both directions, merging only registers of one width and one power-up value, each removed one into one that stays or is merged itself; nothing marked `keep` and no register that powers up at 1 goes; two cells go a fold; a round with no fold leaves no accumulator written twice |
| MergeAccumulators.MergeAccumulators | ql-qlf-plugin/ql-dspv4.cc:1910-2104 | terminates; adds no run; loses none in which merged registers power up equal, and none at all if registers with a reset have a full power-up value; removes nothing marked `keep`; leaves no two eligible loops that are the same accumulator bit by bit |
| Refold.ShiftedProduct | ql-qlf-plugin/ql-dspv4.cc:2108-2111 | 2^k times a product, in k more bits, is the product's bits over k zeros |
| Refold.WidenedProduct | ql-qlf-plugin/ql-dspv4.cc:2244-2246 | zeros under the constant multiply the cell's product by 2^k, signed or unsigned |
| Refold.OperandUnchanged | ql-qlf-plugin/ql-dspv4.cc:2272-2279 | the adder's rebuilt operand, padding included, has its former value |
| Refold.RefoldSound | ql-qlf-plugin/ql-dspv4.cc:2266-2287 | a run of the rewritten module is a run of the module before |
| Refold.RefoldComplete | ql-qlf-plugin/ql-dspv4.cc:2266-2287 | every run before extends to the rewritten module with all old wires, the old product net included, as they were |
| Refold.IndexReaders | ql-qlf-plugin/ql-dspv4.cc:2152-2161 | one real reading port for every net that has any |
| Refold.FindShift | ql-qlf-plugin/ql-dspv4.cc:2199-2206 | the first place of the product in the operand, or none only if there is none |
| Refold.ShiftAt | ql-qlf-plugin/ql-dspv4.cc:2195-2222 | the shift exactly when zeros lie under the product and its own padding over it |
| Refold.ShiftedBits | ql-qlf-plugin/ql-dspv4.cc:2195-2222 | bit by bit, that place holds zeros, the product, and padding that repeats its top bit only if both factors are signed |
| Refold.FindPlan | ql-qlf-plugin/ql-dspv4.cc:2174-2264 | the plan that meets every guard (sole reader an adder, zeros below, own padding above, a constant operand, port capacity), or none only if no plan does |
| Refold.WantedConstant | ql-qlf-plugin/ql-dspv4.cc:2224-2264 | the operand that is widened is constant to the last bit, A's only where B's is not |
| Refold.SplitCoefficientWanted | ql-qlf-plugin/ql-dspv4.cc:2143-2296 | `x * 1` shifted up in an addition meets every guard, however the readers are indexed |
| Refold.RefoldShiftedCoefficients | ql-qlf-plugin/ql-dspv4.cc:2143-2296 | every multiply has its turn and is rewritten exactly if it meets the guards then; over all of them the runs on old wires are the same in both directions |
| Cascade.AddendUnchanged | ql-qlf-plugin/ql-dspv2-to-dspv4.cc:829-835 | with the replica in step, the repointed addend has the value it had |
| Cascade.ReplicaSound | ql-qlf-plugin/ql-dspv2-to-dspv4.cc:803-835 | with a replica on the same inputs, a run is a run without it, and the replica is in step with its feeder on every cycle |
| Cascade.ReplicaComplete | ql-qlf-plugin/ql-dspv2-to-dspv4.cc:803-835 | every run extends to one with the replica, all old wires as they were |
| Cascade.FindDrivers | ql-qlf-plugin/ql-dspv2-to-dspv4.cc:755-766 | the nets DSP outputs drive, each with a DSP that drives it |
| Cascade.FindFeeder | ql-qlf-plugin/ql-dspv2-to-dspv4.cc:776-789 | the one DSP that drives an addend, or none when there is none or several |
| Cascade.FindConsumers | ql-qlf-plugin/ql-dspv2-to-dspv4.cc:768-792 | every cell with such a feeder is listed once under it, in cell order |
| Cascade.AddendPortIff | ql-qlf-plugin/ql-dspv2-to-dspv4.cc:338-349 | a cell has a cascade addend if and only if it is a DSP whose OPMODE, of seven bits or more, has bit 4 set and bits 5 and 6 clear and whose PCIN is connected, and it is PCIN |
| Cascade.SelectPasses | ql-qlf-plugin/qlf_k6n10f/dspv4_sim.v:1187-1220 | that is exactly when the Z mux of the DSP passes PCIN on as the addend |
| Cascade.SelectReads | ql-qlf-plugin/qlf_k6n10f/dspv4_sim.v:1187-1220 | the mux reads PCIN if and only if bit 4 is set and bit 5 clear |
| Cascade.ShiftedAddendMissed | ql-qlf-plugin/ql-dspv2-to-dspv4.cc:338-349 | a DSP reads PCIN and is not seen as a consumer if and only if its Z select is 101, PCIN shifted |
| Cascade.CloneOutputs | ql-qlf-plugin/ql-dspv2-to-dspv4.cc:814-827 | fresh private wires for every output, and for each net the feeder drives the new bit |
| Cascade.Replicate | ql-qlf-plugin/ql-dspv2-to-dspv4.cc:803-835 | adds the replica and repoints this consumer's addend only |
| Cascade.OneMore | ql-qlf-plugin/ql-dspv2-to-dspv4.cc:795-841 | each replica keeps the account of who reads what: moved consumers on wires of their own, replicas on what their feeder read |
| Cascade.LegalWhenHeadsShare | ql-qlf-plugin/ql-dspv2-to-dspv4.cc:743-749 | with no shared feeder in mid-chain the result is point to point if and only if no two addends share a net that no replica can take one of them off |
| Cascade.SingleDriversNotStuck | ql-qlf-plugin/ql-dspv2-to-dspv4.cc:776-789 | addends with one DSP driver each share no such net |
| Cascade.StuckMidChain | ql-qlf-plugin/ql-dspv2-to-dspv4.cc:810-827 | a shared feeder that reads a cascade net itself leaves a shared net behind, whatever the order |
| Cascade.ForkedChainFails | ql-qlf-plugin/ql-dspv2-to-dspv4.cc:810-827 | four DSPs, under the OPMODE the emitters write, in a chain that forks at its second: not point to point, single drivers, and a shared feeder in mid-chain |
| Cascade.CheckCascades | ql-qlf-plugin/ql-dspv2-to-dspv4.cc:851-869 | passes if and only if no cascade net feeds two cells |
| Cascade.LegalizeCascadeFanout | ql-qlf-plugin/ql-dspv2-to-dspv4.cc:750-869 | the runs are the same in both directions; success means point to point; without a shared feeder in mid-chain it succeeds if and only if no net is stuck; where all consumers of a feeder meet on a net, if and only if there is neither; with single drivers besides, if and only if no feeder in mid-chain is shared |
| IntegrateInv.IntegratedSeen | integrateinv-plugin/integrateinv.cc:223-260 | reading the other side of an inverter with the mask bit toggled changes what no pin sees |
| IntegrateInv.StepReached | integrateinv-plugin/integrateinv.cc:205-266 | one more inverter integrated keeps all of it: every remaining pin sees the same, no removed net is read |
| IntegrateInv.SinksSettled | integrateinv-plugin/integrateinv.cc:205-213 | integrating other inverters neither makes an inverter integrable nor stops it from being so |
| IntegrateInv.ReachedRestores | integrateinv-plugin/integrateinv.cc:202-267 | values the result allows are, but for the nets of removed inverters, values the module before allows |
| IntegrateInv.OutputsKeptIff | integrateinv-plugin/integrateinv.cc:269-337 | every value the result can give the outputs, the module before could give them too, if and only if no output wire lies on the net of an inverter the pass integrates |
| IntegrateInv.AssignedOutputsClear | integrateinv-plugin/integrateinv.cc:312-334 | the condition holds when every output is assigned by a connection |
| IntegrateInv.DrivenOutputFound | integrateinv-plugin/integrateinv.cc:312-334 | an output is found as a sink where a connection drives it from the inverter's net, and not where it is the driving side |
| IntegrateInv.DirectOutputLost | integrateinv-plugin/integrateinv.cc:312-334 | a module whose output is the inverter's own wire: the inverter counts as integrable, and the condition fails |
| IntegrateInv.Pass.BuildInverterMap | integrateinv-plugin/integrateinv.cc:117-136 | every inverter by its net, refused exactly when two drive one net |
| IntegrateInv.Pass.CollectInverters | integrateinv-plugin/integrateinv.cc:138-200 | for each inverter exactly the invertible pins of selected cells on its net |
| IntegrateInv.Pass.SinksOf | integrateinv-plugin/integrateinv.cc:269-337 | exactly the input pins on the net and the outputs some connection ties to it |
| IntegrateInv.Pass.IntegratePins | integrateinv-plugin/integrateinv.cc:216-261 | all pins of one inverter moved across it, none of the others touched; fails exactly when one of them has a parameter that is not as wide as its port or holds no 0 or 1 for it |
| IntegrateInv.Pass.IntegrateInverters | integrateinv-plugin/integrateinv.cc:202-267 | in any order of the inverters the invariant of the loop holds, and those removed are the ones that drove only their collected pins to begin with; succeeds exactly when, in the module before, every pin of such an inverter has no parameter set or one that can change |
| IntegrateInv.Pass.Execute | integrateinv-plugin/integrateinv.cc:80-115 | succeeds if and only if no two inverters drive one net and every pin of an integrable inverter has its parameter absent, or as wide as the port with a 0 or 1 for the pin; removed are exactly the inverters that drive something and only invertible pins of selected cells; every remaining pin sees what it saw, nothing reads a removed net, nothing was added; outputs are kept if and only if none lies on an integrated inverter's net |
| Ioff.ConstOnesHigh | ql-qlf-plugin/ql_ioff.cc:66-77 | a pin found constant is 1 on every cycle of every run, through VCC and GND cells too |
| Ioff.ConstOnesExact | ql-qlf-plugin/ql_ioff.cc:49-77 | a connected pin counts as constant if and only if connections, VCC and GND cells hold it at 1 |
| Ioff.FabricKinds | ql-qlf-plugin/ql_ioff.cc:155-176 | the registers looked at are the four fabric kinds, and those that may keep a reset are the ones that reset at the clock edge |
| Ioff.PromotedSteps | ql-qlf-plugin/ql_ioff.cc:29-35 | an eligible register and its IO type have the same next state, on both edges, with synchronous reset or none |
| Ioff.PromotedPacks | ql-qlf-plugin/ql_ioff.cc:29-35 | with the IO flip-flop in the library every promoted register is one, R driven, held at 1 if it had no reset; without it one that had no reset is a plain flip-flop without R; the edge, clock and data are the register's own |
| Ioff.CopyInStep | ql-qlf-plugin/ql_ioff.cc:287-301 | an IO copy on another wire equals the register on every cycle from power-up |
| Ioff.InPlaceSame | ql-qlf-plugin/ql_ioff.cc:220-240 | retyping an input register leaves exactly the same runs |
| Ioff.ByWireEquivalent | ql-qlf-plugin/ql_ioff.cc:280-285 | a port bit connected to the old wire keeps its stream |
| Ioff.ByCopyEquivalent | ql-qlf-plugin/ql_ioff.cc:287-301 | a port bit driven by an IO copy keeps its stream |
| Ioff.Module.BuildConstDrivers | ql-qlf-plugin/ql_ioff.cc:49-60 | every output of a VCC or GND cell is known, and every entry is tied to its value |
| Ioff.Module.ClassifyCell | ql-qlf-plugin/ql_ioff.cc:155-211 | an input candidate exactly with an unused enable, no asynchronous reset, D from a port and read by nothing else; an output candidate exactly with Q on a port and read by nothing, when D is not from a port |
| Ioff.Module.Classify | ql-qlf-plugin/ql_ioff.cc:150-211 | the candidates are exactly the selected registers that are eligible, each with all port bits on its net |
| Ioff.InsDecide | ql-qlf-plugin/ql_ioff.cc:180-189 | a cell looks at nothing but the input pins that count as consumers, and what it drives |
| Ioff.Module.PromoteInputs | ql-qlf-plugin/ql_ioff.cc:220-240 | every input candidate has its IO type, no enable and R held inactive or kept; output candidates are untouched |
| Ioff.Module.ReplacePort | ql-qlf-plugin/ql_ioff.cc:265-303 | one port replaced, each candidate's bit driven by its IO register, the others connected to the old wire, the module still equivalent |
| Ioff.Module.Execute | ql-qlf-plugin/ql_ioff.cc:113-303 | exactly the eligible registers are promoted, each to the kind the library has for it with its own edge; every port bit has the same value on every cycle, and the runs are the same in both directions |
| Ioff.TwoRegistersEligible | ql-qlf-plugin/ql_ioff.cc:150-211 | registers behind an input port and before an output port, both through a connection, are eligible |
| Macc.ReencodeExact | ql-qlf-plugin/ql-dsp-macc.cc:319-325 | an unsigned operand, re-encoded and read as signed, is the same modulo 2^z, and the same integer where a zero was appended or present |
| Macc.ReencodedWidth | ql-qlf-plugin/ql-dsp-macc.cc:319-325 | a zero is appended exactly to an unsigned operand that is narrower than the result and not topped by one |
| Macc.CreateMacc | ql-qlf-plugin/ql-dsp-macc.cc:310-352 | the wider operand is on port A and the other on B, and the extended ports multiply to the RTL product modulo 2^z; no size is found exactly when the operands are trivial or too wide, and the small size exactly when they fit it |
| Macc.RunAgrees | ql-qlf-plugin/qlf_k6n10f/dspv2_sim.v:1418-1462 | when the adder reads the whole product, the register is the low bits of the accumulator on every cycle of every run |
| Macc.AgreesIff | ql-qlf-plugin/ql-dsp-macc.cc:310-325 | one sum agrees on all inputs if and only if the `$mul` output keeps what the register needs and the product is not the minuend |
| LutDedup.FindDuplicate | ql-qlf-plugin/ql_opt_lut_dedup.cc:32-39 | a pair of inputs on one net, or none only if there is none |
| LutDedup.OldIndex | ql-qlf-plugin/ql_opt_lut_dedup.cc:57-71 | the table index of the inputs with the removed one put back as the kept one |
| LutDedup.NarrowedSame | ql-qlf-plugin/ql_opt_lut_dedup.cc:52-83 | where the two inputs are one net, the narrower table gives the same output on every input |
| LutDedup.Module.DedupInputs | ql-qlf-plugin/ql_opt_lut_dedup.cc:21-88 | terminates; every LUT computes what it did and has no two inputs on one net |
| LutEqn.Init2Eqn | ql-qlf-plugin/quicklogic_eqn.cc:40-66 | prints one bracketed minterm per true entry, joined by pluses, or `0`: the text that is read back below |
| LutEqn.ReadsBack | ql-qlf-plugin/quicklogic_eqn.cc:40-66 | the text parses to the minterms printed; no minterm prints as `0` |
| LutEqn.TextMeansTable | ql-qlf-plugin/quicklogic_eqn.cc:47-62 | read on assignment k, the text is the character the code looked at for k |
| LutEqn.TextMeansInitIff | ql-qlf-plugin/quicklogic_eqn.cc:47-49 | that is bit k of INIT, for every INIT of a length, if and only if the length is 2^inputs |
| LutEqn.TextDeterminesInit | ql-qlf-plugin/quicklogic_eqn.cc:40-66 | two-valued tables with the same text are the same |
| ModuleOrder.Round | ql-qlf-plugin/ql-edif.cc:289-298 | one round takes exactly the modules that wait for none left at its start |
| ModuleOrder.StuckHasCycle | ql-qlf-plugin/ql-edif.cc:299-300 | a round with no progress means a cycle |
| ModuleOrder.OrderHasNoCycle | ql-qlf-plugin/ql-edif.cc:287-303 | modules in such an order have no cycle, self-instantiation included |
| ModuleOrder.SortModules | ql-qlf-plugin/ql-edif.cc:278-303 | terminates; each module once and after its dependencies, or an error if and only if there is a cycle |
| EdifNames.GenNameInjective | ql-qlf-plugin/ql-edif.cc:79 | zero-padded decimal printing tells all counters apart |
| EdifNames.GenNameShape | ql-qlf-plugin/ql-edif.cc:79 | a generated name is `id` and the counter in at least five digits, with no zero on top of more |
| EdifNames.AheadShrinks | ql-qlf-plugin/ql-edif.cc:78-82 | a taken name is passed only once, so the search for a fresh one ends |
| EdifNames.EdifNames.IsKeepable | ql-qlf-plugin/ql-edif.cc:58-71 | accepts exactly letters, digits after the first place and inner underscores, and not GND or VCC |
| EdifNames.EdifNames.FreshName | ql-qlf-plugin/ql-edif.cc:77-82 | a generated name that is neither generated nor kept so far |
| EdifNames.EdifNames.Name | ql-qlf-plugin/ql-edif.cc:45-86 | the name is legal; a new identifier keeps its own exactly if it is legal and not a generated name; all names given before stay; kept and generated names never meet |
| EdifNames.EdifNames.NameAll | ql-qlf-plugin/ql-edif.cc:37-87 | over any sequence of calls two names are equal if and only if the identifiers are |

## Left out

- Logging, help text, stall and leftover tallies, reason strings: they decide nothing about the netlist.
- The pattern matchers: matched cells and what the patterns guarantee of them are parameters and hypotheses (`Preadder.Matched`, `Ownership.RootOk`).
- The signal map's data structure: `Netlist.Canon` is a fixed canonical representative; bits are two-valued and a wire is one bit.
- The rules of `emit` that refuse a match for its operands, its widths, `keep` on its nets or its mode: their effect is the `refused` of `Ownership.Match`, whatever they decide.
- CellControls.WirePins: the P bank's own reset and enable pins; that M and the pre-adder's register, once in, compute what they did is not stated.
- FlopChains.CollectFlops: an operand of width zero is not modelled; it has no bit to absorb.
- FlopChains.BankSimulates: scan mode and the asynchronous chip reset of the bank are tied off, as the passes leave them.
- Ownership.Claims.EmitAll: that no register of a match lies behind its own operands is a hypothesis, but for its result behind C, the one case the code looks for.
- Preadder.UnsignedSubtractExact: as for `UnsignedAddExact`, repeated top bits other than zeros are excluded, since the strip and the width test misread them.
- Preadder.UnsignedAddExactIff: the direction from exact to room, here and for the subtract, is over addends of distinct wires below constant zeros; ties between bits may leave fewer values.
- Accumulator.LowBitsAgree: each cell has one signedness for both its operands; a register on the product is not modelled.
- Sweep.SweepUserless: that no run is added holds for modules where no net has two drivers or a constant for one, and registers whose D, Q and reset value have one width.
- MergeAccumulators.MergeAccumulators: no cell output is tied to a constant; registers without a power-up value are equal from the first reset on, before it only if they power up equal.
- `keep` on wires other than a register's Q, and hierarchy attributes.
- Cascade.LegalizeCascadeFanout: a DSP's outputs follow from its parameters and input histories, power-up included; no DSP drives its own cascade input.
- IntegrateInv.Pass.Execute: no parameter controls two ports of a cell; of the module left behind by an error exit nothing is promised, the tool stops there.
- Ioff.Module.Execute: ports that are input and output at once are not modelled.
- Macc.RunAgrees: the feedback multiplexer, the asynchronous reset value and the port-numbered enable and reset inverters.
- EdifNames.EdifNames.Name: the counter is unbounded; the text around a renamed identifier is not modelled.
- Fusing a concatenation with its consumer, BRAM and DSP renaming and packing, the DSP mode tables, the register-absorption pass for the older DSP, constraint file plugins, clock gating, front ends: not modelled.
