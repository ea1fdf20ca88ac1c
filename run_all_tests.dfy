/** run_all_tests as the imperative procedure it is: it walks the three
    families of the catalog, changes the global ntuple around the sweeping
    tests, and appends each test's value to ks_pvalues at index num++. Each
    step is proved to follow the functional specification in BatterySpec. */
module RunAllTests {
  import opened Stats
  import opened BatterySpec
  import opened BatteryProperties

  /** The state run_all_tests works on: the global ntuple, the global buffer
      ks_pvalues and its fill count num. dh_test_types and the family sizes
      are fixed for the run; executeTest stands for execute_test, which reads
      the id and the global ntuple. */
  class Battery {
    const catalog: Catalog
    const executeTest: Call -> real
    const ksPvalues: array<real>
    var ntuple: nat
    var num: nat
    /** Every call of execute_test so far, with the ntuple it saw. */
    ghost var trace: seq<Call>
    /** The values in ks_pvalues[..num], with the id each stands for. */
    ghost var entries: seq<Entry>

    ghost predicate Valid()
      reads this, ksPvalues
    {
      && num == |entries| <= ksPvalues.Length
      && forall k :: 0 <= k < num ==> ksPvalues[k] == entries[k].value
    }

    /** The run so far as the specification sees it. */
    ghost function State(): Run
      reads this
    {
      Run(trace, entries, ntuple)
    }

    /** ks_pvalues starts zeroed, with room for capacity (MAXTESTS) values. */
    constructor (catalog: Catalog, executeTest: Call -> real, capacity: nat, ntuple: nat)
      ensures Valid() && fresh(ksPvalues)
      ensures this.catalog == catalog && this.executeTest == executeTest && this.ntuple == ntuple
      ensures ksPvalues.Length == capacity && forall k :: 0 <= k < capacity ==> ksPvalues[k] == 0.0
      ensures trace == [] && entries == []
    {
      this.catalog := catalog;
      this.executeTest := executeTest;
      ksPvalues := new real[capacity](_ => 0.0);
      this.ntuple := ntuple;
      num := 0;
      trace := [];
      entries := [];
    }

    /** execute_test(id): runs the test with the current global ntuple. */
    method ExecuteTest(id: nat) returns (p: real)
      modifies this`trace
      ensures trace == old(trace) + [Call(id, ntuple)]
      ensures p == executeTest(Call(id, ntuple))
    {
      p := executeTest(Call(id, ntuple));
      trace := trace + [Call(id, ntuple)];
    }

    /** ks_pvalues[num++] = p, p being the value for test id. */
    method Record(ghost id: nat, p: real)
      requires Valid() && num < ksPvalues.Length
      modifies this`num, this`entries, ksPvalues
      ensures Valid()
      ensures entries == old(entries) + [Entry(id, p)] && num == old(num) + 1
      ensures forall j :: num <= j < ksPvalues.Length ==> ksPvalues[j] == old(ksPvalues[j])
    {
      ksPvalues[num] := p;
      num := num + 1;
      entries := entries + [Entry(id, p)];
    }

    /** The sweep loop: ntuple runs from ntmin to ntmax, each result goes to
        avg[i++], and the mean of avg is returned; ntuple is left one past
        ntmax, as the for loop leaves it. */
    method Sweep(id: nat, ntmin: nat, ntmax: nat) returns (mean: real)
      requires ntmin <= ntmax
      modifies this`ntuple, this`trace
      ensures trace == old(trace) + SweepCalls(id, ntmin, ntmax + 1)
      ensures mean == Mean(Results(executeTest, SweepCalls(id, ntmin, ntmax + 1)))
      ensures ntuple == ntmax + 1
    {
      var cnt := ntmax - ntmin + 1;
      var avg := new real[cnt];
      var i := 0;
      ntuple := ntmin;
      while ntuple <= ntmax
        invariant ntmin <= ntuple <= ntmax + 1
        invariant i == ntuple - ntmin
        invariant trace == old(trace) + SweepCalls(id, ntmin, ntuple)
        invariant avg[..i] == Results(executeTest, SweepCalls(id, ntmin, ntuple))
        decreases ntmax + 1 - ntuple
      {
        var p := ExecuteTest(id);
        avg[i] := p;
        assert SweepCalls(id, ntmin, ntuple + 1) == SweepCalls(id, ntmin, ntuple) + [Call(id, ntuple)];
        assert avg[..i + 1] == avg[..i] + [p];
        i := i + 1;
        ntuple := ntuple + 1;
      }
      assert avg[..] == avg[..i];
      mean := Mean(avg[..]);
    }

    /** case 200, rgb_bitdist, enabled: a caller ntuple in [1, 16] is used
        as it is; otherwise ntuple sweeps 1..12 and is then set to 0. */
    method Bitdist()
      requires Valid() && catalog.Enabled(200)
      requires num < ksPvalues.Length
      modifies this`ntuple, this`num, this`trace, this`entries, ksPvalues
      ensures Valid()
      ensures State() == Step(catalog, Other, 200, old(State()), executeTest)
      ensures old(num) <= num
      ensures forall j :: num <= j < ksPvalues.Length ==> ksPvalues[j] == old(ksPvalues[j])
    {
      if 0 < ntuple <= 16 {
        var p := ExecuteTest(200);
        Record(200, p);
      } else {
        var mean := Sweep(200, 1, 12);
        Record(200, mean);
        ntuple := 0;
      }
    }

    /** case 201, rgb_minimum_distance, enabled: a non-zero ntuple outside
        [2, 5] is saved, replaced by 5 for one call and restored; one in
        [2, 5] is used as it is; 0 sweeps 2..5 and is set to 0 again. */
    method MinimumDistance()
      requires Valid() && catalog.Enabled(201)
      requires num < ksPvalues.Length
      modifies this`ntuple, this`num, this`trace, this`entries, ksPvalues
      ensures Valid()
      ensures State() == Step(catalog, Other, 201, old(State()), executeTest)
      ensures old(num) <= num
      ensures forall j :: num <= j < ksPvalues.Length ==> ksPvalues[j] == old(ksPvalues[j])
    {
      if ntuple != 0 {
        if ntuple < 2 || ntuple > 5 {
          var ntsave := ntuple;
          ntuple := 5;
          var p := ExecuteTest(201);
          Record(201, p);
          ntuple := ntsave;
        } else {
          var p := ExecuteTest(201);
          Record(201, p);
        }
      } else {
        var mean := Sweep(201, 2, 5);
        Record(201, mean);
        ntuple := 0;
      }
    }

    /** case 202, rgb_permutations, enabled: ntuple 1 is saved, replaced by
        5 for one call and restored; [2, 8] is used as it is; 0 and anything
        above 8 sweep 2..5 and then set ntuple to 0. */
    method Permutations()
      requires Valid() && catalog.Enabled(202)
      requires num < ksPvalues.Length
      modifies this`ntuple, this`num, this`trace, this`entries, ksPvalues
      ensures Valid()
      ensures State() == Step(catalog, Other, 202, old(State()), executeTest)
      ensures old(num) <= num
      ensures forall j :: num <= j < ksPvalues.Length ==> ksPvalues[j] == old(ksPvalues[j])
    {
      if 0 < ntuple <= 8 {
        if ntuple < 2 {
          var ntsave := ntuple;
          ntuple := 5;
          var p := ExecuteTest(202);
          Record(202, p);
          ntuple := ntsave;
        } else {
          var p := ExecuteTest(202);
          Record(202, p);
        }
      } else {
        var mean := Sweep(202, 2, 5);
        Record(202, mean);
        ntuple := 0;
      }
    }

    /** case 203, rgb_lagged_sums, enabled: a lag in [1, 32] is used as it
        is; 0 and anything above 32 sweep the lags 0..32 and then set ntuple
        to 0. */
    method LaggedSums()
      requires Valid() && catalog.Enabled(203)
      requires num < ksPvalues.Length
      modifies this`ntuple, this`num, this`trace, this`entries, ksPvalues
      ensures Valid()
      ensures State() == Step(catalog, Other, 203, old(State()), executeTest)
      ensures old(num) <= num
      ensures forall j :: num <= j < ksPvalues.Length ==> ksPvalues[j] == old(ksPvalues[j])
    {
      if ntuple != 0 && ntuple <= 32 {
        var p := ExecuteTest(203);
        Record(203, p);
      } else {
        var mean := Sweep(203, 0, 32);
        Record(203, mean);
        ntuple := 0;
      }
    }

    /** The switch of the "other" family for one id. */
    method DispatchOther(id: nat)
      requires Valid() && id < |catalog.testTypes|
      requires Runs(catalog, Other, id) ==> num < ksPvalues.Length
      modifies this`ntuple, this`num, this`trace, this`entries, ksPvalues
      ensures Valid()
      ensures State() == Step(catalog, Other, id, old(State()), executeTest)
      ensures old(num) <= num
      ensures forall j :: num <= j < ksPvalues.Length ==> ksPvalues[j] == old(ksPvalues[j])
    {
      match id {
        case 200 =>
          if catalog.testTypes[id] {
            Bitdist();
          }
        case 201 =>
          if catalog.testTypes[id] {
            MinimumDistance();
          }
        case 202 =>
          if catalog.testTypes[id] {
            Permutations();
          }
        case 203 =>
          if catalog.testTypes[id] {
            LaggedSums();
          }
        // rgb_kstest_test, dab_bytedistrib, dab_dct
        case 204 | 205 | 206 =>
          if catalog.testTypes[id] {
            var p := ExecuteTest(id);
            Record(id, p);
          }
        // dab_filltree is broken and skipped
        case 207 =>
        // the fallback to a normal test
        case _ =>
          if catalog.testTypes[id] {
            var p := ExecuteTest(id);
            Record(id, p);
          }
      }
    }

    /** The body of the diehard and sts loops for one id: an enabled id is
        run once with the current ntuple, except diehard_sums (14, "do not
        use") in the diehard family. */
    method DispatchPlain(fam: Family, id: nat)
      requires fam != Other
      requires Valid() && id < |catalog.testTypes|
      requires Runs(catalog, fam, id) ==> num < ksPvalues.Length
      modifies this`num, this`trace, this`entries, ksPvalues
      ensures Valid()
      ensures State() == Step(catalog, fam, id, old(State()), executeTest)
      ensures old(num) <= num
      ensures forall j :: num <= j < ksPvalues.Length ==> ksPvalues[j] == old(ksPvalues[j])
    {
      if fam == Diehard {
        if catalog.testTypes[id] && id != SumsId {
          var p := ExecuteTest(id);
          Record(id, p);
        }
      } else {
        if catalog.testTypes[id] {
          var p := ExecuteTest(id);
          Record(id, p);
        }
      }
    }

    /** The diehard loop over [0, numDiehard); no ntuple handling. */
    method RunDiehard()
      requires Valid() && catalog.WellFormed()
      requires num + RunningCount(catalog, Diehard, catalog.numDiehard) <= ksPvalues.Length
      modifies this`num, this`trace, this`entries, ksPvalues
      ensures Valid()
      ensures State() == Then(old(State()), RunFamily(catalog, Diehard, old(ntuple), catalog.numDiehard, executeTest))
      ensures forall j :: num <= j < ksPvalues.Length ==> ksPvalues[j] == old(ksPvalues[j])
    {
      hide Dispatch;
      hide Step;
      hide Appended;
      ghost var start := State();
      FamilyStart(catalog, Diehard, start, executeTest);
      var dtestNum: nat := 0;
      while dtestNum < catalog.numDiehard
        invariant dtestNum <= catalog.numDiehard
        invariant Valid()
        invariant State() == Then(start, RunFamily(catalog, Diehard, start.ntuple, dtestNum - First(Diehard), executeTest))
        invariant forall j :: num <= j < ksPvalues.Length ==> ksPvalues[j] == old(ksPvalues[j])
      {
        FamilyStep(catalog, Diehard, start, dtestNum, executeTest);
        FamilyRoom(catalog, Diehard, start, dtestNum, ksPvalues.Length, executeTest);
        DispatchPlain(Diehard, dtestNum);
        dtestNum := dtestNum + 1;
      }
    }

    /** The sts loop over [100, 100 + numSts); no ntuple handling. */
    method RunSts()
      requires Valid() && catalog.WellFormed()
      requires num + RunningCount(catalog, Sts, catalog.numSts) <= ksPvalues.Length
      modifies this`num, this`trace, this`entries, ksPvalues
      ensures Valid()
      ensures State() == Then(old(State()), RunFamily(catalog, Sts, old(ntuple), catalog.numSts, executeTest))
      ensures forall j :: num <= j < ksPvalues.Length ==> ksPvalues[j] == old(ksPvalues[j])
    {
      hide Dispatch;
      hide Step;
      hide Appended;
      ghost var start := State();
      FamilyStart(catalog, Sts, start, executeTest);
      var dtestNum: nat := 100;
      while dtestNum < 100 + catalog.numSts
        invariant 100 <= dtestNum <= 100 + catalog.numSts
        invariant Valid()
        invariant State() == Then(start, RunFamily(catalog, Sts, start.ntuple, dtestNum - First(Sts), executeTest))
        invariant forall j :: num <= j < ksPvalues.Length ==> ksPvalues[j] == old(ksPvalues[j])
      {
        FamilyStep(catalog, Sts, start, dtestNum, executeTest);
        FamilyRoom(catalog, Sts, start, dtestNum, ksPvalues.Length, executeTest);
        DispatchPlain(Sts, dtestNum);
        dtestNum := dtestNum + 1;
      }
    }

    /** The "other" loop over [200, 200 + numOther), each id through the
        switch of DispatchOther. */
    method RunOther()
      requires Valid() && catalog.WellFormed()
      requires num + RunningCount(catalog, Other, catalog.numOther) <= ksPvalues.Length
      modifies this`ntuple, this`num, this`trace, this`entries, ksPvalues
      ensures Valid()
      ensures State() == Then(old(State()), RunFamily(catalog, Other, old(ntuple), catalog.numOther, executeTest))
      ensures forall j :: num <= j < ksPvalues.Length ==> ksPvalues[j] == old(ksPvalues[j])
    {
      hide Dispatch;
      hide Step;
      hide Appended;
      ghost var start := State();
      FamilyStart(catalog, Other, start, executeTest);
      var dtestNum: nat := 200;
      while dtestNum < 200 + catalog.numOther
        invariant 200 <= dtestNum <= 200 + catalog.numOther
        invariant Valid()
        invariant State() == Then(start, RunFamily(catalog, Other, start.ntuple, dtestNum - First(Other), executeTest))
        invariant forall j :: num <= j < ksPvalues.Length ==> ksPvalues[j] == old(ksPvalues[j])
      {
        ghost var before := State();
        FamilyStep(catalog, Other, start, dtestNum, executeTest);
        FamilyRoom(catalog, Other, start, dtestNum, ksPvalues.Length, executeTest);
        DispatchOther(dtestNum);
        assert State() == Step(catalog, Other, dtestNum, before, executeTest);
        dtestNum := dtestNum + 1;
      }
    }

    /** run_all_tests(): num starts at 0, then the diehard, sts and "other"
        loops run in turn. trace collects the calls of this run, and
        ks_pvalues[..num] receives exactly the values of the specification,
        one per running id; nothing past num is touched, and ntuple ends as
        the specification says. */
    method RunAllTests()
      requires catalog.WellFormed() && BatteryCount(catalog) <= ksPvalues.Length
      modifies this`ntuple, this`num, this`trace, this`entries, ksPvalues
      ensures Valid()
      ensures State() == RunAll(catalog, old(ntuple), executeTest)
      ensures num == BatteryCount(catalog)
      ensures forall j :: num <= j < ksPvalues.Length ==> ksPvalues[j] == old(ksPvalues[j])
    {
      num := 0;
      trace := [];
      entries := [];
      ghost var d := RunFamily(catalog, Diehard, ntuple, catalog.numDiehard, executeTest);
      ghost var s := RunFamily(catalog, Sts, d.ntuple, catalog.numSts, executeTest);
      FamilyEntryCount(catalog, Diehard, ntuple, catalog.numDiehard, executeTest);
      FamilyEntryCount(catalog, Sts, d.ntuple, catalog.numSts, executeTest);
      RunDiehard();
      RunSts();
      RunOther();
      BatteryFamilies(catalog, old(ntuple), executeTest);
      BatteryEntryCount(catalog, old(ntuple), executeTest);
    }
  }
}
