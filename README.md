# run_all_tests: the dieharder "-a" battery scheduler

dieharder's `-a` option runs every enabled test of its catalog through
`run_all_tests()`. The function walks three ranges of test ids in turn:

- diehard tests `0 .. dh_num_diehard_tests-1`, skipping diehard_sums (14);
- sts tests `100 .. 100+dh_num_sts_tests-1`;
- "other" tests `200 .. 200+dh_num_other_tests-1`, through a `switch`.

For each id it decides from the enabled flag `dh_test_types[id]` and the
global `ntuple` whether `execute_test` is called, how often and with which
`ntuple`. It appends one value per running id to the global buffer
`ks_pvalues` at index `num++`. Four "other" tests have their own `ntuple`
policy:

- rgb_bitdist (200), rgb_minimum_distance (201), rgb_permutations (202) and
  rgb_lagged_sums (203) either use the caller's `ntuple`, or substitute a
  default for one call and restore the caller's value, or sweep `ntuple`
  over a fixed range and append the mean of the swept results.
- After a sweep `ntuple` is set to 0.
- dab_filltree (207) is never run.

The project has four modules.

- `Stats` (`stats.dfy`): `Sum` and `Mean` over reals, the idealisation of
  `gsl_stats_mean`, with the bound lemma that makes a mean of p-values a
  p-value.
- `BatterySpec` (`battery_spec.dfy`): the functional specification.
  - `Dispatch` is the body of the battery for one id. It yields an
    `Outcome`: the calls made (a `Call` is an id and the `ntuple` it saw),
    whether a value is appended, and `ntuple` afterwards.
  - `Step` applies one dispatch to a `Run` (all calls, all appended
    entries, current `ntuple`).
  - `RunFamily` folds `Step` over a family's ids.
  - `RunAll` chains the three families.
  - `execute_test` is a parameter `f: Call -> real`.
- `BatteryProperties` (`battery_properties.dfy`): what the specification
  guarantees, per id, per family and for the whole battery.
- `RunAllTests` (`run_all_tests.dfy`): the imperative procedure as a class
  `Battery`.
  - Its fields: the global `ntuple`, the array `ksPvalues` (`ks_pvalues`),
    the fill count `num`, the catalog (enabled flags and family sizes), and
    the oracle `executeTest`.
  - Two ghost fields, `trace` (every call) and `entries` (every appended
    value with its id), connect it to the specification.
  - The three `for` loops, the `switch`, the save/restore of `ntuple` and
    the sweep loop over the `avg` buffer are methods with loop invariants.
  - Each method is proved to take the state exactly where the
    specification says (`State() == Step(...)`, `State() == RunAll(...)`).
  - Each method also keeps `ksPvalues[..num]` equal to the entry values
    and leaves every cell from `num` on untouched.

## Model

The table lists the members whose contracts state something about the
source. The definitions `BatterySpec.Step` (one loop iteration),
`BatterySpec.RunFamily` (one of the three `for` loops) and
`BatterySpec.RunAll` (the whole function) carry no contract of their own.
The lemmas about them state their properties, and the methods of `Battery`
are proved equal to them.

| member | source | states |
|---|---|---|
| Stats.MeanBounds | dieharder/run_all_tests.c:96-99 | the mean of values that all lie in [lo, hi] lies in [lo, hi], so a swept entry is a p-value when every swept call returns one |
| BatterySpec.Dispatch | dieharder/run_all_tests.c:65-290 | a value is appended iff the id is enabled and is not 14 in the diehard loop or 207 in the other loop; a skipped id makes no call and keeps ntuple; every call is a call of the id; several calls (a sweep) leave ntuple at 0; ntuple ends as the caller's value or 0, and 0 stays 0 |
| BatteryProperties.DiehardPolicy | dieharder/run_all_tests.c:40-45 | a diehard id other than 14 is called once with the caller's ntuple and its result appended iff enabled; 14 is never called, even when enabled; ntuple is unchanged |
| BatteryProperties.BitdistPolicy | dieharder/run_all_tests.c:74-107 | enabled rgb_bitdist: ntuple in [1, 16] gives one call with it and its result, ntuple kept; otherwise 12 calls with ntuple 1..12 in order, their mean appended, ntuple 0 afterwards |
| BatteryProperties.MinimumDistancePolicy | dieharder/run_all_tests.c:119-156 | enabled rgb_minimum_distance: ntuple in [2, 5] gives one call with it; any other non-zero value gives one call with 5 and the caller's value restored; 0 gives 4 calls with 2..5, their mean appended, ntuple 0 |
| BatteryProperties.PermutationsPolicy | dieharder/run_all_tests.c:167-204 | enabled rgb_permutations: [2, 8] gives one call with ntuple kept; 1 gives one call with 5 and 1 restored; 0 or above 8 gives 4 calls with 2..5, their mean appended, ntuple 0 |
| BatteryProperties.LaggedSumsPolicy | dieharder/run_all_tests.c:215-243 | enabled rgb_lagged_sums: a lag in [1, 32] gives one call with it; 0 or above 32 gives 33 calls with lags 0..32 in order, their mean appended, ntuple 0 |
| BatteryProperties.PlainOtherTests | dieharder/run_all_tests.c:250-289 | ids 204-206 and every id without its own case are called once with the caller's ntuple and their result appended iff enabled; 207 is never called or appended, whatever its flag; ntuple unchanged |
| BatteryProperties.SingleCall | dieharder/run_all_tests.c:250-289 | outside the sweeping ids 200-203 a dispatch makes exactly one call when the id runs and none otherwise |
| BatteryProperties.ResetAfterSweepReachesNextTest | dieharder/run_all_tests.c:102-106 | the reset to 0 after a sweep is unconditional: with caller ntuple 17, rgb_bitdist sweeps and leaves 0, so rgb_minimum_distance then sweeps 2..5 (16 calls, 2 entries, ntuple 0) although ntuple 17 alone would have given it one call with 5 |
| BatteryProperties.FamilyStep | dieharder/run_all_tests.c:63-291 | walking one more id of a family extends the run so far by exactly the dispatch of that id with the ntuple the run so far left |
| BatteryProperties.FamilyRoom | dieharder/run_all_tests.c:20 | if the whole family's values fit in the buffer after the earlier ones, the value of each running id of the family fits at the current num |
| BatteryProperties.FamilyEntryCount | dieharder/run_all_tests.c:40-291 | a family loop appends exactly one value per running id of its range, whatever the number of calls per id |
| BatteryProperties.RunningCountExcludesSkips | dieharder/run_all_tests.c:40-291 | the running ids of a family are its enabled ids less 14 (diehard) or 207 (other) when these are enabled and in range; all enabled sts ids run |
| BatteryProperties.FamilyEntriesAscending | dieharder/run_all_tests.c:40-291 | every entry of a family loop stands for a running id of its range, and the entry ids strictly ascend (no id has two entries) |
| BatteryProperties.FamilyEntriesComplete | dieharder/run_all_tests.c:40-291 | every running id of a family's range has an entry |
| BatteryProperties.FamilyCallsInOrder | dieharder/run_all_tests.c:40-291 | every call of a family loop is a call of a running id of its range, and call ids never decrease |
| BatteryProperties.PlainFamilyCalls | dieharder/run_all_tests.c:40-54 | in the diehard and sts loops, call k is the call of entry k's id with the caller's ntuple, entry k holds that call's result, and ntuple is unchanged |
| BatteryProperties.FamilyCallsOnce | dieharder/run_all_tests.c:40-54 | outside ids 200-203, a family loop calls an id exactly once if it is a running id of the range and never otherwise (diehard_sums and dab_filltree never) |
| BatteryProperties.FamilyNtuple | dieharder/run_all_tests.c:63-291 | a family loop leaves ntuple as the caller set it or at 0, and a caller's 0 stays 0 |
| BatteryProperties.FamilyEntriesArePValues | dieharder/run_all_tests.c:96-99 | when execute_test returns values in [0, 1], every entry of a family loop, swept means included, lies in [0, 1] |
| BatteryProperties.DispatchCallsDistinct | dieharder/run_all_tests.c:96-98 | the calls of one dispatch are pairwise distinct: a sweep never repeats an ntuple |
| BatteryProperties.FamilyCallsDistinct | dieharder/run_all_tests.c:40-291 | a family loop never calls the same (id, ntuple) pair twice |
| BatteryProperties.BatteryCallsDistinct | dieharder/run_all_tests.c:40-291 | with the three ranges disjoint, no (id, ntuple) pair is called twice in a run |
| BatteryProperties.BatteryEntryCount | dieharder/run_all_tests.c:40-291 | num at the end is the number of enabled ids across the three ranges, less id 14 and id 207 when they are enabled and walked |
| BatteryProperties.BatteryEntriesInOrder | dieharder/run_all_tests.c:40-291 | with the three ranges disjoint, every entry stands for an enabled walked id other than 14 and 207, entries ascend strictly by id, and every such id has an entry |
| BatteryProperties.BatteryNtuple | dieharder/run_all_tests.c:40-291 | every call of an id below 200 (all diehard and sts calls when those ranges end below 200) sees the caller's ntuple, whatever the family sizes; at the end ntuple is the caller's value or 0, and 0 if it was 0 |
| BatteryProperties.BatteryEntriesArePValues | dieharder/run_all_tests.c:40-291 | when execute_test returns values in [0, 1], every value written to ks_pvalues lies in [0, 1] |
| RunAllTests.Battery.constructor | dieharder/run_all_tests.c:20 | ks_pvalues starts as capacity zeroes, no call made, nothing appended |
| RunAllTests.Battery.ExecuteTest | dieharder/dieharder.h:42 | execute_test(id) returns the oracle's result for the id with the current ntuple and records that call |
| RunAllTests.Battery.Record | dieharder/run_all_tests.c:43 | ks_pvalues[num++] = p writes p at the old num, increments num, and touches no cell past the new num |
| RunAllTests.Battery.Sweep | dieharder/run_all_tests.c:89-99 | the sweep loop calls the test with ntuple ntmin..ntmax in order, returns the mean of the results, and leaves ntuple at ntmax + 1 |
| RunAllTests.Battery.Bitdist | dieharder/run_all_tests.c:74-106 | the enabled case 200 takes the state exactly as Dispatch for 200 prescribes |
| RunAllTests.Battery.MinimumDistance | dieharder/run_all_tests.c:119-155 | the enabled case 201, including the ntsave save and restore, takes the state exactly as Dispatch for 201 prescribes |
| RunAllTests.Battery.Permutations | dieharder/run_all_tests.c:167-203 | the enabled case 202, including the ntsave save and restore, takes the state exactly as Dispatch for 202 prescribes |
| RunAllTests.Battery.LaggedSums | dieharder/run_all_tests.c:215-242 | the enabled case 203 takes the state exactly as Dispatch for 203 prescribes |
| RunAllTests.Battery.DispatchOther | dieharder/run_all_tests.c:65-290 | one pass of the switch takes the state exactly as Dispatch prescribes for the id and keeps ks_pvalues[..num] equal to the entries |
| RunAllTests.Battery.DispatchPlain | dieharder/run_all_tests.c:42-52 | the body of the diehard or sts loop for one id takes the state exactly as Dispatch prescribes |
| RunAllTests.Battery.RunDiehard | dieharder/run_all_tests.c:40-45 | the diehard loop extends the run by exactly the diehard family's run |
| RunAllTests.Battery.RunSts | dieharder/run_all_tests.c:50-54 | the sts loop extends the run by exactly the sts family's run |
| RunAllTests.Battery.RunOther | dieharder/run_all_tests.c:63-291 | the other loop extends the run by exactly the other family's run, starting from the ntuple it found |
| RunAllTests.Battery.RunAllTests | dieharder/run_all_tests.c:22-291 | when the buffer has room for every running id, the calls, the appended values and the final ntuple are exactly RunAll's; num ends at the number of running ids; ks_pvalues[..num] holds the values in order and nothing past num is touched |

## Left out

- The footer (dieharder/run_all_tests.c:302-322) is not modelled: the
  `fprintf`/`fflush` output, `%.6f` formatting, and the `gsl_stats_mean` /
  `gsl_stats_sd_m` summary of `ks_pvalues`. These are output and foreign
  floating-point numerics. The comment there speaks of `|p - 0.5|` while
  the code averages the raw values; neither version is modelled.
- The diagnostic `printf`s at lines 281 and 285 are output only.
- `execute_test` (dieharder/dieharder.h:42) is an oracle `f: Call -> real`
  of the id and the `ntuple` it sees. Its statistics and its consumption of
  random numbers are not modelled. Within one run no (id, ntuple) pair is
  called twice (`BatteryCallsDistinct`), so each call still gets its own
  result.
- The sweep mean is `Sum / cnt` over mathematical reals, not IEEE doubles.
- `calloc` of the sweep buffer is an array allocation that cannot fail. The
  source never checks for failure, and `free` has no counterpart.
- `MAXTESTS`, the size of `ks_pvalues`, is not part of this model. The
  buffer is an array of any capacity, and `RunAllTests` requires room for
  every running id.
- The model requires each walked id to index `dh_test_types`
  (`Catalog.WellFormed`). The source would read outside the array.
- `ntuple` is `unsigned int` (include/dieharder/libdieharder.h:197) and is
  modelled as `nat`. The model only assigns it constants, restores saved
  values and counts up to 33, so its width never matters.
- `dtest_num` is a global in the source and a loop variable here. The
  loop passes it to `execute_test` as its argument, which the model records
  as the id of the `Call`.
- The declarations in dieharder/dieharder.h and
  include/dieharder/libdieharder.h (bit utilities, statistics helpers,
  file-input state, flag enums) are prototypes or constants without code in
  the modelled function, so there is nothing to model.
- BatteryProperties.BatteryEntriesInOrder and
  BatteryProperties.BatteryCallsDistinct require at most 100 diehard
  and at most 100 sts tests. With more, the source's ranges overlap and an
  id is walked twice.
- The comment at dieharder/run_all_tests.c:102-104 (and 151-153, 199-201,
  238-240) says that 0 is "the only way we could have gotten here". For
  200, 202 and 203, a caller value above the accepted range also sweeps, and
  is then replaced by 0. The model does what the code does, and
  `ResetAfterSweepReachesNextTest` shows the effect on the next test.
