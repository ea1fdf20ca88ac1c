/** Properties of the battery specification: what each family loop and the
    whole battery call, append and leave in ntuple, and the sweep policy of
    each id of the "other" family. */
module BatteryProperties {
  import opened Stats
  import opened BatterySpec

  // ---------------------------------------------------------------------
  // One family loop
  // ---------------------------------------------------------------------

  /** One more id of a family, seen from a run that started earlier: the
      run start continued by the ids of fam up to and including id is the
      run start continued by the ids before id, extended by the dispatch of
      id. This is the step each loop iteration of run_all_tests takes. */
  lemma FamilyStep(cat: Catalog, fam: Family, start: Run, id: nat, f: Call -> real)
    requires First(fam) <= id
    ensures Then(start, RunFamily(cat, fam, start.ntuple, id + 1 - First(fam), f))
      == Step(cat, fam, id, Then(start, RunFamily(cat, fam, start.ntuple, id - First(fam), f)), f)
  {
    hide Dispatch;
    hide Appended;
    var r := RunFamily(cat, fam, start.ntuple, id - First(fam), f);
    var o := Dispatch(cat, fam, id, r.ntuple);
    assert RunFamily(cat, fam, start.ntuple, id + 1 - First(fam), f) == Step(cat, fam, id, r, f);
    assert start.calls + (r.calls + o.calls) == (start.calls + r.calls) + o.calls;
    assert start.entries + (r.entries + Appended(id, o, f)) == (start.entries + r.entries) + Appended(id, o, f);
  }

  /** Room in ks_pvalues for the next id of a family: when the values of the
      whole family fit after those of start, the value of id (if it runs)
      fits after those of the ids before it. */
  lemma FamilyRoom(cat: Catalog, fam: Family, start: Run, id: nat, cap: nat, f: Call -> real)
    requires First(fam) <= id < First(fam) + cat.Size(fam)
    requires |start.entries| + RunningCount(cat, fam, cat.Size(fam)) <= cap
    ensures Runs(cat, fam, id) ==> |Then(start, RunFamily(cat, fam, start.ntuple, id - First(fam), f)).entries| < cap
  {
    hide Dispatch;
    hide Step;
    hide Appended;
    FamilyEntryCount(cat, fam, start.ntuple, id - First(fam), f);
    RunningCountMonotone(cat, fam, id - First(fam) + 1, cat.Size(fam));
  }

  /** The battery is its three family loops run one after the other,
      starting from a run that has called and appended nothing. */
  lemma BatteryFamilies(cat: Catalog, nt: nat, f: Call -> real)
    ensures var d := RunFamily(cat, Diehard, nt, cat.numDiehard, f);
      var s := RunFamily(cat, Sts, d.ntuple, cat.numSts, f);
      var o := RunFamily(cat, Other, s.ntuple, cat.numOther, f);
      RunAll(cat, nt, f) == Then(Then(Then(Run([], [], nt), d), s), o)
  {
    var d := RunFamily(cat, Diehard, nt, cat.numDiehard, f);
    assert [] + d.calls == d.calls;
    assert [] + d.entries == d.entries;
  }

  /** No id walked yet: the run is unchanged. */
  lemma FamilyStart(cat: Catalog, fam: Family, start: Run, f: Call -> real)
    ensures Then(start, RunFamily(cat, fam, start.ntuple, 0, f)) == start
  {
    assert start.calls + [] == start.calls;
    assert start.entries + [] == start.entries;
  }

  /** A family loop appends one value per id that runs. */
  lemma {:induction false} FamilyEntryCount(cat: Catalog, fam: Family, nt: nat, count: nat, f: Call -> real)
    ensures |RunFamily(cat, fam, nt, count, f).entries| == RunningCount(cat, fam, count)
  {
    hide Dispatch;
    hide Value;
    if count > 0 {
      FamilyEntryCount(cat, fam, nt, count - 1, f);
    }
  }

  /** The ids that run are the enabled ids less the excluded one: id 14 in
      the diehard family, id 207 in the other family, none in sts. */
  lemma {:induction false} RunningCountExcludesSkips(cat: Catalog, fam: Family, count: nat)
    ensures fam == Diehard ==>
      RunningCount(cat, fam, count) + (if SumsId < count && cat.Enabled(SumsId) then 1 else 0)
        == EnabledCount(cat, 0, count)
    ensures fam == Sts ==>
      RunningCount(cat, fam, count) == EnabledCount(cat, 100, count)
    ensures fam == Other ==>
      RunningCount(cat, fam, count) + (if FilltreeId < 200 + count && cat.Enabled(FilltreeId) then 1 else 0)
        == EnabledCount(cat, 200, count)
  {
    if count > 0 {
      RunningCountExcludesSkips(cat, fam, count - 1);
    }
  }

  /** Walking more ids of a family never runs fewer of them. */
  lemma {:induction false} RunningCountMonotone(cat: Catalog, fam: Family, i: nat, n: nat)
    requires i <= n
    ensures RunningCount(cat, fam, i) <= RunningCount(cat, fam, n)
  {
    if i < n {
      RunningCountMonotone(cat, fam, i, n - 1);
    }
  }

  /** The entries of a family loop stand for running ids of the range, in
      strictly ascending id order. */
  lemma {:induction false} FamilyEntriesAscending(cat: Catalog, fam: Family, nt: nat, count: nat, f: Call -> real)
    ensures EntriesInRange(cat, fam, RunFamily(cat, fam, nt, count, f).entries, count)
    ensures Ascending(RunFamily(cat, fam, nt, count, f).entries)
  {
    hide Dispatch;
    hide Appended;
    hide Step;
    if count > 0 {
      FamilyEntriesAscending(cat, fam, nt, count - 1, f);
      FamilyEntriesAscendingStep(cat, fam, nt, count, f);
    }
  }

  /** Every entry stands for a running id among the first count of fam. */
  predicate EntriesInRange(cat: Catalog, fam: Family, es: seq<Entry>, count: nat)
  {
    forall k :: 0 <= k < |es| ==> First(fam) <= es[k].id < First(fam) + count && Runs(cat, fam, es[k].id)
  }

  /** The inductive step of FamilyEntriesAscending: the entry of the last id,
      if any, comes after all earlier ones. */
  lemma FamilyEntriesAscendingStep(cat: Catalog, fam: Family, nt: nat, count: nat, f: Call -> real)
    requires count > 0
    requires EntriesInRange(cat, fam, RunFamily(cat, fam, nt, count - 1, f).entries, count - 1)
    requires Ascending(RunFamily(cat, fam, nt, count - 1, f).entries)
    ensures EntriesInRange(cat, fam, RunFamily(cat, fam, nt, count, f).entries, count)
    ensures Ascending(RunFamily(cat, fam, nt, count, f).entries)
  {
    hide Dispatch;
    hide Appended;
    hide RunFamily;
    var r := RunFamily(cat, fam, nt, count - 1, f);
    var id := First(fam) + count - 1;
    var tail := Appended(id, Dispatch(cat, fam, id, r.ntuple), f);
    FamilyEntries(cat, fam, nt, count, f);
    AppendedEntry(cat, fam, id, r.ntuple, f);
    AscendingConcat(r.entries, tail, id);
    forall k | 0 <= k < |r.entries + tail|
      ensures First(fam) <= (r.entries + tail)[k].id < First(fam) + count
      ensures Runs(cat, fam, (r.entries + tail)[k].id)
    {
      if k < |r.entries| {
        assert (r.entries + tail)[k] == r.entries[k];
      } else {
        assert (r.entries + tail)[k] == tail[k - |r.entries|];
      }
    }
  }

  /** The entries of a family loop are those of the ids before the last one,
      followed by the entry of the last one, if any. */
  lemma FamilyEntries(cat: Catalog, fam: Family, nt: nat, count: nat, f: Call -> real)
    requires count > 0
    ensures var r := RunFamily(cat, fam, nt, count - 1, f);
      var id := First(fam) + count - 1;
      RunFamily(cat, fam, nt, count, f).entries
        == r.entries + Appended(id, Dispatch(cat, fam, id, r.ntuple), f)
  {
    hide Dispatch;
    hide Appended;
  }

  /** A dispatch appends at most one entry, for its own id, and exactly one
      when the id runs. */
  lemma AppendedEntry(cat: Catalog, fam: Family, id: nat, nt: nat, f: Call -> real)
    ensures var t := Appended(id, Dispatch(cat, fam, id, nt), f);
      && |t| == (if Runs(cat, fam, id) then 1 else 0)
      && forall k :: 0 <= k < |t| ==> t[k].id == id && Runs(cat, fam, id)
  {
    hide Dispatch;
    hide Value;
  }

  /** Every running id of a family's range has an entry. */
  lemma {:induction false} FamilyEntriesComplete(cat: Catalog, fam: Family, nt: nat, count: nat, f: Call -> real)
    ensures EntriesComplete(cat, fam, RunFamily(cat, fam, nt, count, f).entries, count)
  {
    hide Dispatch;
    hide Appended;
    hide Step;
    if count > 0 {
      FamilyEntriesComplete(cat, fam, nt, count - 1, f);
      FamilyEntriesCompleteStep(cat, fam, nt, count, f);
    }
  }

  /** Every running id among the first count of fam has an entry. */
  predicate EntriesComplete(cat: Catalog, fam: Family, es: seq<Entry>, count: nat)
  {
    forall id: nat :: First(fam) <= id < First(fam) + count && Runs(cat, fam, id) ==> Has(es, id)
  }

  /** The inductive step of FamilyEntriesComplete: the last id, if it runs,
      gets its entry. */
  lemma FamilyEntriesCompleteStep(cat: Catalog, fam: Family, nt: nat, count: nat, f: Call -> real)
    requires count > 0
    requires EntriesComplete(cat, fam, RunFamily(cat, fam, nt, count - 1, f).entries, count - 1)
    ensures EntriesComplete(cat, fam, RunFamily(cat, fam, nt, count, f).entries, count)
  {
    hide Dispatch;
    hide Appended;
    hide RunFamily;
    var r := RunFamily(cat, fam, nt, count - 1, f);
    var id := First(fam) + count - 1;
    var tail := Appended(id, Dispatch(cat, fam, id, r.ntuple), f);
    FamilyEntries(cat, fam, nt, count, f);
    AppendedEntry(cat, fam, id, r.ntuple, f);
    forall x: nat | First(fam) <= x < First(fam) + count && Runs(cat, fam, x)
      ensures Has(r.entries + tail, x)
    {
      HasConcat(r.entries, tail, x);
      if x == id {
        assert tail[0].id == x;
      }
    }
  }

  /** The calls of a family loop are calls of running ids of the range, in
      ascending id order. */
  lemma {:induction false} FamilyCallsInOrder(cat: Catalog, fam: Family, nt: nat, count: nat, f: Call -> real)
    ensures var cs := RunFamily(cat, fam, nt, count, f).calls;
      && (forall k :: 0 <= k < |cs| ==>
            First(fam) <= cs[k].id < First(fam) + count && Runs(cat, fam, cs[k].id))
      && CallsAscending(cs)
  {
    hide Dispatch;
    hide Appended;
    if count > 0 {
      FamilyCallsInOrder(cat, fam, nt, count - 1, f);
      var r := RunFamily(cat, fam, nt, count - 1, f);
      var id := First(fam) + count - 1;
      var o := Dispatch(cat, fam, id, r.ntuple);
      assert RunFamily(cat, fam, nt, count, f) == Step(cat, fam, id, r, f);
      forall k | 0 <= k < |o.calls|
        ensures o.calls[k].id == id && Runs(cat, fam, id)
      {
        assert o.calls[k] in o.calls;
      }
      CallsAscendingConcat(r.calls, o.calls, id);
    }
  }

  /** The diehard and sts loops have no sweeps: each running id is called
      exactly once, with the caller's ntuple, its result is the value
      appended for it, and ntuple is left unchanged. */
  lemma {:induction false} PlainFamilyCalls(cat: Catalog, fam: Family, nt: nat, count: nat, f: Call -> real)
    requires fam != Other
    ensures var r := RunFamily(cat, fam, nt, count, f);
      && r.ntuple == nt
      && |r.calls| == |r.entries|
      && forall k :: 0 <= k < |r.calls| ==>
           r.calls[k] == Call(r.entries[k].id, nt) && r.entries[k].value == f(r.calls[k])
  {
    if count > 0 {
      PlainFamilyCalls(cat, fam, nt, count - 1, f);
    }
  }

  /** Outside the sweeping ids 200-203, a family loop calls each id of its
      range exactly once when it runs and never otherwise: every enabled
      diehard id but 14, every enabled sts id, every enabled "other" id but
      207. Ids outside the range are never called. */
  lemma {:induction false} FamilyCallsOnce(cat: Catalog, fam: Family, nt: nat, count: nat, f: Call -> real, id: nat)
    requires fam != Other || id < 200 || id > 203
    ensures Occurrences(RunFamily(cat, fam, nt, count, f).calls, id)
      == if First(fam) <= id < First(fam) + count && Runs(cat, fam, id) then 1 else 0
  {
    hide Dispatch;
    hide Appended;
    hide Step;
    if count > 0 {
      FamilyCallsOnce(cat, fam, nt, count - 1, f, id);
      FamilyCallsOnceStep(cat, fam, nt, count, f, id);
    }
  }

  /** The inductive step of FamilyCallsOnce: the last id of the range adds
      one call of id exactly when it is id and runs. */
  lemma FamilyCallsOnceStep(cat: Catalog, fam: Family, nt: nat, count: nat, f: Call -> real, id: nat)
    requires fam != Other || id < 200 || id > 203
    requires count > 0
    requires Occurrences(RunFamily(cat, fam, nt, count - 1, f).calls, id)
      == if First(fam) <= id < First(fam) + count - 1 && Runs(cat, fam, id) then 1 else 0
    ensures Occurrences(RunFamily(cat, fam, nt, count, f).calls, id)
      == if First(fam) <= id < First(fam) + count && Runs(cat, fam, id) then 1 else 0
  {
    hide Appended;
    hide Dispatch;
    hide Occurrences;
    hide RunFamily;
    hide Runs;
    hide First;
    var r := RunFamily(cat, fam, nt, count - 1, f);
    var x := First(fam) + count - 1;
    var o := Dispatch(cat, fam, x, r.ntuple);
    FamilyCalls(cat, fam, nt, count, f);
    OccurrencesConcat(r.calls, o.calls, id);
    DispatchOccurrences(cat, fam, x, r.ntuple, id);
  }

  /** The calls of a family loop are those of the ids before the last one,
      followed by the calls of the last one. */
  lemma FamilyCalls(cat: Catalog, fam: Family, nt: nat, count: nat, f: Call -> real)
    requires count > 0
    ensures var r := RunFamily(cat, fam, nt, count - 1, f);
      RunFamily(cat, fam, nt, count, f).calls
        == r.calls + Dispatch(cat, fam, First(fam) + count - 1, r.ntuple).calls
  {
    hide Dispatch;
    hide Appended;
  }

  /** One dispatch of x calls id once if x is id and runs, and never
      otherwise, for ids without a sweep policy. */
  lemma DispatchOccurrences(cat: Catalog, fam: Family, x: nat, nt: nat, id: nat)
    requires fam != Other || id < 200 || id > 203
    ensures Occurrences(Dispatch(cat, fam, x, nt).calls, id) == if x == id && Runs(cat, fam, id) then 1 else 0
  {
    hide Dispatch;
    var o := Dispatch(cat, fam, x, nt);
    if id == x {
      SingleCall(cat, fam, id, nt);
      if Runs(cat, fam, id) {
        assert o.calls[0] in o.calls;
        assert o.calls == [o.calls[0]] && o.calls[0].id == id;
      }
    } else {
      forall k | 0 <= k < |o.calls|
        ensures o.calls[k].id != id
      {
        assert o.calls[k] in o.calls;
      }
      OccurrencesAbsent(o.calls, id);
    }
  }

  /** An id without a sweep policy is called once when it runs. */
  lemma SingleCall(cat: Catalog, fam: Family, id: nat, nt: nat)
    requires fam != Other || id < 200 || id > 203
    ensures |Dispatch(cat, fam, id, nt).calls| == if Runs(cat, fam, id) then 1 else 0
  {
  }

  /** How many of the calls are calls of id. */
  function Occurrences(cs: seq<Call>, id: nat): nat
  {
    if cs == [] then 0
    else Occurrences(cs[..|cs| - 1], id) + (if cs[|cs| - 1].id == id then 1 else 0)
  }

  lemma {:induction false} OccurrencesConcat(a: seq<Call>, b: seq<Call>, id: nat)
    ensures Occurrences(a + b, id) == Occurrences(a, id) + Occurrences(b, id)
  {
    if b == [] {
      assert a + b == a;
    } else {
      assert (a + b)[..|a + b| - 1] == a + b[..|b| - 1];
      OccurrencesConcat(a, b[..|b| - 1], id);
    }
  }

  lemma {:induction false} OccurrencesAbsent(cs: seq<Call>, id: nat)
    requires forall k :: 0 <= k < |cs| ==> cs[k].id != id
    ensures Occurrences(cs, id) == 0
  {
    if cs != [] {
      OccurrencesAbsent(cs[..|cs| - 1], id);
    }
  }

  /** A family loop leaves ntuple as the caller set it or at 0; a caller's 0
      ("unset") is always 0 again afterwards. */
  lemma {:induction false} FamilyNtuple(cat: Catalog, fam: Family, nt: nat, count: nat, f: Call -> real)
    ensures var r := RunFamily(cat, fam, nt, count, f);
      (r.ntuple == nt || r.ntuple == 0) && (nt == 0 ==> r.ntuple == 0)
  {
    hide Dispatch;
    hide Appended;
    if count > 0 {
      FamilyNtuple(cat, fam, nt, count - 1, f);
    }
  }

  /** When execute_test returns p-values, so does every entry, swept ones
      included. */
  lemma {:induction false} FamilyEntriesArePValues(cat: Catalog, fam: Family, nt: nat, count: nat, f: Call -> real)
    requires forall c :: 0.0 <= f(c) <= 1.0
    ensures PValues(RunFamily(cat, fam, nt, count, f).entries)
  {
    hide Dispatch;
    hide Appended;
    hide Step;
    if count > 0 {
      FamilyEntriesArePValues(cat, fam, nt, count - 1, f);
      var r := RunFamily(cat, fam, nt, count - 1, f);
      var id := First(fam) + count - 1;
      FamilyEntries(cat, fam, nt, count, f);
      AppendedPValue(cat, fam, id, r.ntuple, f);
      PValuesConcat(r.entries, Appended(id, Dispatch(cat, fam, id, r.ntuple), f));
    }
  }

  /** The value a dispatch appends is a p-value when every call returns
      one: a single result as it is, a swept mean by MeanBounds. */
  lemma AppendedPValue(cat: Catalog, fam: Family, id: nat, nt: nat, f: Call -> real)
    requires forall c :: 0.0 <= f(c) <= 1.0
    ensures PValues(Appended(id, Dispatch(cat, fam, id, nt), f))
  {
    hide Dispatch;
    var o := Dispatch(cat, fam, id, nt);
    if |o.calls| > 1 {
      MeanBounds(Results(f, o.calls), 0.0, 1.0);
    }
  }

  /** Every entry holds a probability. */
  predicate PValues(es: seq<Entry>)
  {
    forall k :: 0 <= k < |es| ==> 0.0 <= es[k].value <= 1.0
  }

  lemma PValuesConcat(a: seq<Entry>, b: seq<Entry>)
    requires PValues(a) && PValues(b)
    ensures PValues(a + b)
  {
    forall k | 0 <= k < |a + b|
      ensures 0.0 <= (a + b)[k].value <= 1.0
    {
      if k < |a| {
        assert (a + b)[k] == a[k];
      } else {
        assert (a + b)[k] == b[k - |a|];
      }
    }
  }

  // ---------------------------------------------------------------------
  // The whole battery
  // ---------------------------------------------------------------------

  /** An id the battery walks, enabled, and neither 14 nor 207 (read with
      the three ranges disjoint). */
  predicate BatteryRuns(cat: Catalog, id: nat)
  {
    && (id < cat.numDiehard || 100 <= id < 100 + cat.numSts || 200 <= id < 200 + cat.numOther)
    && cat.Enabled(id) && id != SumsId && id != FilltreeId
  }

  /** The battery appends one value per running id: the enabled ids of the
      three ranges, less id 14 and id 207 when they are enabled. */
  lemma BatteryEntryCount(cat: Catalog, nt: nat, f: Call -> real)
    ensures |RunAll(cat, nt, f).entries| == BatteryCount(cat)
    ensures BatteryCount(cat)
      + (if SumsId < cat.numDiehard && cat.Enabled(SumsId) then 1 else 0)
      + (if FilltreeId < 200 + cat.numOther && cat.Enabled(FilltreeId) then 1 else 0)
      == EnabledCount(cat, 0, cat.numDiehard) + EnabledCount(cat, 100, cat.numSts)
         + EnabledCount(cat, 200, cat.numOther)
  {
    var d := RunFamily(cat, Diehard, nt, cat.numDiehard, f);
    var s := RunFamily(cat, Sts, d.ntuple, cat.numSts, f);
    FamilyEntryCount(cat, Diehard, nt, cat.numDiehard, f);
    FamilyEntryCount(cat, Sts, d.ntuple, cat.numSts, f);
    FamilyEntryCount(cat, Other, s.ntuple, cat.numOther, f);
    RunningCountExcludesSkips(cat, Diehard, cat.numDiehard);
    RunningCountExcludesSkips(cat, Sts, cat.numSts);
    RunningCountExcludesSkips(cat, Other, cat.numOther);
  }

  /** With diehard ids below 100 and sts ids below 200, every value the
      battery appends stands for exactly one enabled id other than 14 and
      207, in ascending id order, and every such id has one. */
  lemma BatteryEntriesInOrder(cat: Catalog, nt: nat, f: Call -> real)
    requires cat.numDiehard <= 100 && cat.numSts <= 100
    ensures var es := RunAll(cat, nt, f).entries;
      && (forall k :: 0 <= k < |es| ==> BatteryRuns(cat, es[k].id))
      && Ascending(es)
      && (forall id: nat :: BatteryRuns(cat, id) ==> Has(es, id))
  {
    var d := RunFamily(cat, Diehard, nt, cat.numDiehard, f);
    var s := RunFamily(cat, Sts, d.ntuple, cat.numSts, f);
    var o := RunFamily(cat, Other, s.ntuple, cat.numOther, f);
    FamilyEntriesAscending(cat, Diehard, nt, cat.numDiehard, f);
    FamilyEntriesAscending(cat, Sts, d.ntuple, cat.numSts, f);
    FamilyEntriesAscending(cat, Other, s.ntuple, cat.numOther, f);
    FamilyEntriesComplete(cat, Diehard, nt, cat.numDiehard, f);
    FamilyEntriesComplete(cat, Sts, d.ntuple, cat.numSts, f);
    FamilyEntriesComplete(cat, Other, s.ntuple, cat.numOther, f);
    assert RunAll(cat, nt, f).entries == (d.entries + s.entries) + o.entries;
    BatteryEntriesJoin(cat, d.entries, s.entries, o.entries);
  }

  /** The three family facts about entries combine into the battery fact. */
  lemma BatteryEntriesJoin(cat: Catalog, d: seq<Entry>, s: seq<Entry>, o: seq<Entry>)
    requires cat.numDiehard <= 100 && cat.numSts <= 100
    requires Ascending(d) && Ascending(s) && Ascending(o)
    requires forall k :: 0 <= k < |d| ==> d[k].id < cat.numDiehard && Runs(cat, Diehard, d[k].id)
    requires forall k :: 0 <= k < |s| ==> 100 <= s[k].id < 100 + cat.numSts && Runs(cat, Sts, s[k].id)
    requires forall k :: 0 <= k < |o| ==> 200 <= o[k].id < 200 + cat.numOther && Runs(cat, Other, o[k].id)
    requires forall id: nat :: id < cat.numDiehard && Runs(cat, Diehard, id) ==> Has(d, id)
    requires forall id: nat :: 100 <= id < 100 + cat.numSts && Runs(cat, Sts, id) ==> Has(s, id)
    requires forall id: nat :: 200 <= id < 200 + cat.numOther && Runs(cat, Other, id) ==> Has(o, id)
    ensures forall k :: 0 <= k < |d + s + o| ==> BatteryRuns(cat, (d + s + o)[k].id)
    ensures Ascending(d + s + o)
    ensures forall id: nat :: BatteryRuns(cat, id) ==> Has(d + s + o, id)
  {
    AscendingConcat(d, s, 100);
    AscendingConcat(d + s, o, 200);
    forall id: nat | BatteryRuns(cat, id)
      ensures Has(d + s + o, id)
    {
      HasConcat(d, s, id);
      HasConcat(d + s, o, id);
      if id < cat.numDiehard {
        assert Runs(cat, Diehard, id);
      } else if id < 200 {
        assert Runs(cat, Sts, id);
      } else {
        assert Runs(cat, Other, id);
      }
    }
    forall k | 0 <= k < |d + s + o|
      ensures BatteryRuns(cat, (d + s + o)[k].id)
    {
      if k < |d| {
        assert (d + s + o)[k] == d[k];
      } else if k < |d| + |s| {
        assert (d + s + o)[k] == s[k - |d|];
      } else {
        assert (d + s + o)[k] == o[k - |d| - |s|];
      }
    }
  }

  /** The ids of a sequence of entries are strictly ascending. */
  predicate Ascending(es: seq<Entry>)
  {
    forall j, k :: 0 <= j < k < |es| ==> es[j].id < es[k].id
  }

  /** The ids of a list of calls never decrease. */
  predicate CallsAscending(cs: seq<Call>)
  {
    forall j, k :: 0 <= j < k < |cs| ==> cs[j].id <= cs[k].id
  }

  /** Ascending calls of ids below id, followed by calls of id, are
      ascending, and each lies in one of the two parts. */
  lemma CallsAscendingConcat(a: seq<Call>, b: seq<Call>, id: nat)
    requires CallsAscending(a)
    requires forall k :: 0 <= k < |a| ==> a[k].id < id
    requires forall k :: 0 <= k < |b| ==> b[k].id == id
    ensures CallsAscending(a + b)
    ensures forall k :: 0 <= k < |a + b| ==> (a + b)[k] == (if k < |a| then a[k] else b[k - |a|])
  {
    forall j, k | 0 <= j < k < |a + b|
      ensures (a + b)[j].id <= (a + b)[k].id
    {
      if k < |a| {
        assert (a + b)[j] == a[j] && (a + b)[k] == a[k];
      } else if j < |a| {
        assert (a + b)[j] == a[j] && (a + b)[k] == b[k - |a|];
      } else {
        assert (a + b)[j] == b[j - |a|] && (a + b)[k] == b[k - |a|];
      }
    }
  }

  /** Some entry stands for id. */
  predicate Has(es: seq<Entry>, id: nat)
  {
    exists k :: 0 <= k < |es| && es[k].id == id
  }

  /** Two ascending runs of entries separated by mid join into one. */
  lemma AscendingConcat(a: seq<Entry>, b: seq<Entry>, mid: nat)
    requires Ascending(a) && Ascending(b)
    requires forall k :: 0 <= k < |a| ==> a[k].id < mid
    requires forall k :: 0 <= k < |b| ==> mid <= b[k].id
    ensures Ascending(a + b)
  {
    forall j, k | 0 <= j < k < |a + b|
      ensures (a + b)[j].id < (a + b)[k].id
    {
      if k < |a| {
        assert (a + b)[j] == a[j] && (a + b)[k] == a[k];
      } else if j < |a| {
        assert (a + b)[j] == a[j] && (a + b)[k] == b[k - |a|];
      } else {
        assert (a + b)[j] == b[j - |a|] && (a + b)[k] == b[k - |a|];
      }
    }
  }

  /** An id has an entry in a concatenation iff it has one in either part. */
  lemma HasConcat(a: seq<Entry>, b: seq<Entry>, id: nat)
    ensures Has(a + b, id) <==> Has(a, id) || Has(b, id)
  {
    if Has(a, id) {
      var k :| 0 <= k < |a| && a[k].id == id;
      assert (a + b)[k].id == id;
    }
    if Has(b, id) {
      var k :| 0 <= k < |b| && b[k].id == id;
      assert (a + b)[|a| + k].id == id;
    }
    if Has(a + b, id) {
      var k :| 0 <= k < |a + b| && (a + b)[k].id == id;
      if k < |a| {
        assert a[k].id == id;
      } else {
        assert b[k - |a|].id == id;
      }
    }
  }

  /** Every call of an id below 200 sees the caller's ntuple, and at the end
      of the battery ntuple is the caller's value or 0 (0 if it was 0). */
  lemma BatteryNtuple(cat: Catalog, nt: nat, f: Call -> real)
    ensures var r := RunAll(cat, nt, f);
      && (r.ntuple == nt || r.ntuple == 0)
      && (nt == 0 ==> r.ntuple == 0)
      && forall k :: 0 <= k < |r.calls| && r.calls[k].id < 200 ==> r.calls[k].ntuple == nt
  {
    var d := RunFamily(cat, Diehard, nt, cat.numDiehard, f);
    var s := RunFamily(cat, Sts, d.ntuple, cat.numSts, f);
    var o := RunFamily(cat, Other, s.ntuple, cat.numOther, f);
    PlainFamilyCalls(cat, Diehard, nt, cat.numDiehard, f);
    PlainFamilyCalls(cat, Sts, d.ntuple, cat.numSts, f);
    FamilyNtuple(cat, Other, s.ntuple, cat.numOther, f);
    FamilyCallsInOrder(cat, Other, s.ntuple, cat.numOther, f);
    assert RunAll(cat, nt, f).calls == d.calls + s.calls + o.calls;
    BatteryCallsJoin(d.calls, s.calls, o.calls, nt);
  }

  /** Calls of the diehard and sts loops made with nt, followed by calls of
      ids from 200 on: every call of an id below 200 was made with nt. */
  lemma BatteryCallsJoin(d: seq<Call>, s: seq<Call>, o: seq<Call>, nt: nat)
    requires forall k :: 0 <= k < |d| ==> d[k].ntuple == nt
    requires forall k :: 0 <= k < |s| ==> s[k].ntuple == nt
    requires forall k :: 0 <= k < |o| ==> o[k].id >= 200
    ensures forall k :: 0 <= k < |d + s + o| && (d + s + o)[k].id < 200 ==> (d + s + o)[k].ntuple == nt
  {
    forall k | 0 <= k < |d| + |s|
      ensures (d + s + o)[k].ntuple == nt
    {
      if k < |d| {
        assert (d + s + o)[k] == d[k];
      } else {
        assert (d + s + o)[k] == s[k - |d|];
      }
    }
    forall k | |d| + |s| <= k < |d + s + o|
      ensures (d + s + o)[k].id >= 200
    {
      assert (d + s + o)[k] == o[k - |d| - |s|];
    }
  }

  /** When execute_test returns p-values, every value of ks_pvalues is one. */
  lemma BatteryEntriesArePValues(cat: Catalog, nt: nat, f: Call -> real)
    requires forall c :: 0.0 <= f(c) <= 1.0
    ensures PValues(RunAll(cat, nt, f).entries)
  {
    var d := RunFamily(cat, Diehard, nt, cat.numDiehard, f);
    var s := RunFamily(cat, Sts, d.ntuple, cat.numSts, f);
    FamilyEntriesArePValues(cat, Diehard, nt, cat.numDiehard, f);
    FamilyEntriesArePValues(cat, Sts, d.ntuple, cat.numSts, f);
    FamilyEntriesArePValues(cat, Other, s.ntuple, cat.numOther, f);
    var o := RunFamily(cat, Other, s.ntuple, cat.numOther, f);
    assert RunAll(cat, nt, f).entries == (d.entries + s.entries) + o.entries;
    PValuesConcat(d.entries, s.entries);
    PValuesConcat(d.entries + s.entries, o.entries);
  }

  /** No two of the calls are the same (id, ntuple) pair. */
  predicate Distinct(cs: seq<Call>)
  {
    forall j, k :: 0 <= j < k < |cs| ==> cs[j] != cs[k]
  }

  /** The calls of one dispatch are pairwise distinct: a sweep never
      repeats an ntuple. */
  lemma DispatchCallsDistinct(cat: Catalog, fam: Family, id: nat, nt: nat)
    ensures Distinct(Dispatch(cat, fam, id, nt).calls)
  {
  }

  /** Distinct calls of ids below mid followed by distinct calls of ids from
      mid on are distinct. */
  lemma DistinctJoin(a: seq<Call>, b: seq<Call>, mid: nat)
    requires Distinct(a) && Distinct(b)
    requires forall k :: 0 <= k < |a| ==> a[k].id < mid
    requires forall k :: 0 <= k < |b| ==> mid <= b[k].id
    ensures Distinct(a + b)
  {
    forall j, k | 0 <= j < k < |a + b|
      ensures (a + b)[j] != (a + b)[k]
    {
      if k < |a| {
        assert (a + b)[j] == a[j] && (a + b)[k] == a[k];
      } else if j < |a| {
        assert (a + b)[j] == a[j] && (a + b)[k] == b[k - |a|];
      } else {
        assert (a + b)[j] == b[j - |a|] && (a + b)[k] == b[k - |a|];
      }
    }
  }

  /** A family loop never calls the same (id, ntuple) pair twice. */
  lemma {:induction false} FamilyCallsDistinct(cat: Catalog, fam: Family, nt: nat, count: nat, f: Call -> real)
    ensures Distinct(RunFamily(cat, fam, nt, count, f).calls)
  {
    hide Dispatch;
    hide Appended;
    if count > 0 {
      FamilyCallsDistinct(cat, fam, nt, count - 1, f);
      FamilyCallsInOrder(cat, fam, nt, count - 1, f);
      var r := RunFamily(cat, fam, nt, count - 1, f);
      var x := First(fam) + count - 1;
      var o := Dispatch(cat, fam, x, r.ntuple);
      assert RunFamily(cat, fam, nt, count, f) == Step(cat, fam, x, r, f);
      DispatchCallsDistinct(cat, fam, x, r.ntuple);
      forall k | 0 <= k < |o.calls|
        ensures o.calls[k].id == x
      {
        assert o.calls[k] in o.calls;
      }
      DistinctJoin(r.calls, o.calls, x);
    }
  }

  /** With diehard ids below 100 and sts ids below 200, no (id, ntuple) pair
      is called twice in a run, so reading execute_test as a function of
      the pair assigns every call its own result. */
  lemma BatteryCallsDistinct(cat: Catalog, nt: nat, f: Call -> real)
    requires cat.numDiehard <= 100 && cat.numSts <= 100
    ensures Distinct(RunAll(cat, nt, f).calls)
  {
    var d := RunFamily(cat, Diehard, nt, cat.numDiehard, f);
    var s := RunFamily(cat, Sts, d.ntuple, cat.numSts, f);
    var o := RunFamily(cat, Other, s.ntuple, cat.numOther, f);
    FamilyCallsDistinct(cat, Diehard, nt, cat.numDiehard, f);
    FamilyCallsDistinct(cat, Sts, d.ntuple, cat.numSts, f);
    FamilyCallsDistinct(cat, Other, s.ntuple, cat.numOther, f);
    FamilyCallsInOrder(cat, Diehard, nt, cat.numDiehard, f);
    FamilyCallsInOrder(cat, Sts, d.ntuple, cat.numSts, f);
    FamilyCallsInOrder(cat, Other, s.ntuple, cat.numOther, f);
    DistinctJoin(d.calls, s.calls, 100);
    forall k | 0 <= k < |d.calls + s.calls|
      ensures (d.calls + s.calls)[k].id < 200
    {
      if k < |d.calls| {
        assert (d.calls + s.calls)[k] == d.calls[k];
      } else {
        assert (d.calls + s.calls)[k] == s.calls[k - |d.calls|];
      }
    }
    DistinctJoin(d.calls + s.calls, o.calls, 200);
    assert RunAll(cat, nt, f).calls == (d.calls + s.calls) + o.calls;
  }

  // ---------------------------------------------------------------------
  // The sweep policies of the "other" family
  // ---------------------------------------------------------------------

  /** rgb_bitdist (200): a caller ntuple in [1,16] is used for one call;
      anything else (0, or above 16) sweeps ntuple over 1..12, appends the
      mean, and leaves ntuple at 0. */
  lemma BitdistPolicy(cat: Catalog, nt: nat, f: Call -> real)
    requires cat.Enabled(200)
    ensures var o := Dispatch(cat, Other, 200, nt);
      if 1 <= nt <= 16 then
        o.calls == [Call(200, nt)] && Appended(200, o, f) == [Entry(200, f(Call(200, nt)))] && o.ntAfter == nt
      else
        && |o.calls| == 12
        && (forall k :: 0 <= k < 12 ==> o.calls[k] == Call(200, k + 1))
        && Appended(200, o, f) == [Entry(200, Mean(Results(f, o.calls)))]
        && o.ntAfter == 0
  {
  }

  /** rgb_minimum_distance (201): a caller ntuple in [2,5] is used for one
      call; any other non-zero value is replaced by 5 for one call and then
      restored; 0 sweeps 2..5, appends the mean, and leaves ntuple at 0. */
  lemma MinimumDistancePolicy(cat: Catalog, nt: nat, f: Call -> real)
    requires cat.Enabled(201)
    ensures var o := Dispatch(cat, Other, 201, nt);
      if 2 <= nt <= 5 then
        o.calls == [Call(201, nt)] && Appended(201, o, f) == [Entry(201, f(Call(201, nt)))] && o.ntAfter == nt
      else if nt != 0 then
        o.calls == [Call(201, 5)] && Appended(201, o, f) == [Entry(201, f(Call(201, 5)))] && o.ntAfter == nt
      else
        && |o.calls| == 4
        && (forall k :: 0 <= k < 4 ==> o.calls[k] == Call(201, k + 2))
        && Appended(201, o, f) == [Entry(201, Mean(Results(f, o.calls)))]
        && o.ntAfter == 0
  {
  }

  /** rgb_permutations (202): a caller ntuple in [2,8] is used for one call;
      1 is replaced by 5 for one call and then restored; 0 and anything
      above 8 sweep 2..5, append the mean, and leave ntuple at 0. */
  lemma PermutationsPolicy(cat: Catalog, nt: nat, f: Call -> real)
    requires cat.Enabled(202)
    ensures var o := Dispatch(cat, Other, 202, nt);
      if 2 <= nt <= 8 then
        o.calls == [Call(202, nt)] && Appended(202, o, f) == [Entry(202, f(Call(202, nt)))] && o.ntAfter == nt
      else if nt == 1 then
        o.calls == [Call(202, 5)] && Appended(202, o, f) == [Entry(202, f(Call(202, 5)))] && o.ntAfter == 1
      else
        && |o.calls| == 4
        && (forall k :: 0 <= k < 4 ==> o.calls[k] == Call(202, k + 2))
        && Appended(202, o, f) == [Entry(202, Mean(Results(f, o.calls)))]
        && o.ntAfter == 0
  {
  }

  /** rgb_lagged_sums (203): a caller lag in [1,32] is used for one call;
      0 and anything above 32 sweep the 33 lags 0..32, append the mean, and
      leave ntuple at 0. */
  lemma LaggedSumsPolicy(cat: Catalog, nt: nat, f: Call -> real)
    requires cat.Enabled(203)
    ensures var o := Dispatch(cat, Other, 203, nt);
      if 1 <= nt <= 32 then
        o.calls == [Call(203, nt)] && Appended(203, o, f) == [Entry(203, f(Call(203, nt)))] && o.ntAfter == nt
      else
        && |o.calls| == 33
        && (forall k :: 0 <= k < 33 ==> o.calls[k] == Call(203, k))
        && Appended(203, o, f) == [Entry(203, Mean(Results(f, o.calls)))]
        && o.ntAfter == 0
  {
  }

  /** Every other id of the "other" family except 207 (204-206 and the
      fallback) runs once iff enabled, with ntuple untouched; 207 never runs. */
  lemma PlainOtherTests(cat: Catalog, id: nat, nt: nat, f: Call -> real)
    requires id !in {200, 201, 202, 203}
    ensures var o := Dispatch(cat, Other, id, nt);
      && o.ntAfter == nt
      && (if cat.Enabled(id) && id != FilltreeId then
            o.calls == [Call(id, nt)] && Appended(id, o, f) == [Entry(id, f(Call(id, nt)))]
          else
            o.calls == [] && !o.appends)
  {
  }

  /** diehard_sums (14) is never called, whatever its enabled flag; every
      other enabled diehard id is called once with the caller's ntuple. */
  lemma DiehardPolicy(cat: Catalog, id: nat, nt: nat, f: Call -> real)
    ensures var o := Dispatch(cat, Diehard, id, nt);
      && o.ntAfter == nt
      && (if cat.Enabled(id) && id != SumsId then
            o.calls == [Call(id, nt)] && Appended(id, o, f) == [Entry(id, f(Call(id, nt)))]
          else
            o.calls == [] && !o.appends)
  {
  }

  /** The reset to 0 after a sweep is unconditional: a caller ntuple of 17
      makes rgb_bitdist sweep and leave 0 behind, so rgb_minimum_distance
      then sweeps 2..5 as well, where ntuple 17 would have given it one
      call with ntuple 5. */
  lemma ResetAfterSweepReachesNextTest(cat: Catalog, f: Call -> real)
    requires cat.Enabled(200) && cat.Enabled(201)
    ensures var r := RunFamily(cat, Other, 17, 2, f);
      && |r.calls| == 16
      && r.calls[12..] == [Call(201, 2), Call(201, 3), Call(201, 4), Call(201, 5)]
      && |r.entries| == 2
      && r.ntuple == 0
    ensures Dispatch(cat, Other, 201, 17).calls == [Call(201, 5)]
  {
    var r1 := RunFamily(cat, Other, 17, 1, f);
    BitdistPolicy(cat, 17, f);
    assert r1.ntuple == 0 && |r1.calls| == 12;
    MinimumDistancePolicy(cat, 0, f);
    MinimumDistancePolicy(cat, 17, f);
  }
}
