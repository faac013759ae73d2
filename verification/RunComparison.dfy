/** `compare_runs` of compare.py, on the pass and fail of each case; rates are exact. */
module RunComparison {
  import opened Wrappers
  import opened TextOrder

  datatype CaseResult = CaseResult(caseId: string, slice: string, passed: bool)

  datatype Classification = Improved | Regressed | UnchangedPass | UnchangedFail

  datatype CaseComparison = CaseComparison(caseId: string, slice: string, baselinePassed: bool, candidatePassed: bool,
                                           classification: Classification)

  datatype SliceComparison = SliceComparison(slice: string, paired: nat, baselineRate: real, candidateRate: real,
                                             delta: real)

  datatype Comparison = Comparison(
    missing: seq<string>, aggregateDelta: real, interval: Option<(real, real)>, limitedEvidence: bool,
    improved: seq<string>, regressed: seq<string>, unchangedPasses: nat, unchangedFailures: nat,
    slices: seq<SliceComparison>, cases: seq<CaseComparison>)

  /** `{result.case.case_id: result}`: of results with the same id the last counts. */
  function ById(results: seq<CaseResult>): (byId: map<string, CaseResult>)
    ensures forall id :: id in byId ==> byId[id].caseId == id && byId[id] in results
    ensures forall i :: 0 <= i < |results| ==> results[i].caseId in byId
  {
    if results == [] then map[]
    else
      var last := results[|results| - 1];
      ById(results[..|results| - 1])[last.caseId := last]
  }

  /** The last result of a case is the one that counts. */
  lemma {:induction false} LastCounts(results: seq<CaseResult>, i: nat)
    requires i < |results| && forall j :: i < j < |results| ==> results[j].caseId != results[i].caseId
    ensures ById(results)[results[i].caseId] == results[i]
  {
    if i < |results| - 1 {
      LastCounts(results[..|results| - 1], i);
    }
  }

  function Classify(baseline: bool, candidate: bool): (c: Classification) {
    if candidate && !baseline then Improved
    else if baseline && !candidate then Regressed
    else if baseline && candidate then UnchangedPass
    else UnchangedFail
  }

  function Delta(c: CaseComparison): (d: int) {
    (if c.candidatePassed then 1 else 0) - (if c.baselinePassed then 1 else 0)
  }

  /** The pair of an id, sliced as the baseline has it. */
  function Pair(b: map<string, CaseResult>, c: map<string, CaseResult>, id: string): (pair: CaseComparison)
    requires id in b && id in c
  {
    CaseComparison(id, b[id].slice, b[id].passed, c[id].passed, Classify(b[id].passed, c[id].passed))
  }

  ghost predicate IsPairing(cases: seq<CaseComparison>, b: map<string, CaseResult>, c: map<string, CaseResult>,
                            ids: seq<string>)
  {
    && |cases| == |ids|
    && (forall i :: 0 <= i < |ids| ==> ids[i] in b && ids[i] in c && cases[i] == Pair(b, c, ids[i]))
    && (forall i :: 0 <= i < |ids| ==>
          && cases[i].caseId == ids[i] && cases[i].slice == b[ids[i]].slice
          && cases[i].baselinePassed == b[ids[i]].passed && cases[i].candidatePassed == c[ids[i]].passed)
  }

  /** The ids of the cases with a classification, in order. */
  function IdsOf(cases: seq<CaseComparison>, k: Classification): (ids: seq<string>) {
    if cases == [] then []
    else
      var last := cases[|cases| - 1];
      IdsOf(cases[..|cases| - 1], k) + (if last.classification == k then [last.caseId] else [])
  }

  function InSlices(cases: seq<CaseComparison>, names: set<string>): (part: seq<CaseComparison>) {
    if cases == [] then []
    else
      var last := cases[|cases| - 1];
      InSlices(cases[..|cases| - 1], names) + (if last.slice in names then [last] else [])
  }

  function SumDeltas(cases: seq<CaseComparison>): (sum: int) {
    if cases == [] then 0 else SumDeltas(cases[..|cases| - 1]) + Delta(cases[|cases| - 1])
  }

  function Passed(cases: seq<CaseComparison>, candidate: bool): (n: nat) {
    if cases == [] then 0
    else
      var last := cases[|cases| - 1];
      Passed(cases[..|cases| - 1], candidate)
      + (if (if candidate then last.candidatePassed else last.baselinePassed) then 1 else 0)
  }

  // ---- Laws of the classification ----

  ghost predicate Classified(cases: seq<CaseComparison>) {
    forall i :: 0 <= i < |cases| ==> IsClass(cases[i].classification, cases[i].baselinePassed, cases[i].candidatePassed)
  }

  /** What each class says of the two runs. */
  predicate IsClass(k: Classification, baseline: bool, candidate: bool) {
    match k
    case Improved => !baseline && candidate
    case Regressed => baseline && !candidate
    case UnchangedPass => baseline && candidate
    case UnchangedFail => !baseline && !candidate
  }

  /** The four classes partition the pairs, and the deltas add up to improved less regressed. */
  lemma {:induction false} ClassesPartition(cases: seq<CaseComparison>)
    requires Classified(cases)
    ensures |IdsOf(cases, Improved)| + |IdsOf(cases, Regressed)| + |IdsOf(cases, UnchangedPass)|
            + |IdsOf(cases, UnchangedFail)| == |cases|
    ensures SumDeltas(cases) == |IdsOf(cases, Improved)| - |IdsOf(cases, Regressed)|
    ensures SumDeltas(cases) == Passed(cases, true) - Passed(cases, false)
  {
    if cases != [] {
      ClassesPartition(cases[..|cases| - 1]);
    }
  }

  /** Swapping the runs swaps improved and regressed, keeps the unchanged, and negates the sum of deltas. */
  lemma {:induction false} SwapNegates(
      cases: seq<CaseComparison>, swapped: seq<CaseComparison>, b: map<string, CaseResult>, c: map<string, CaseResult>,
      ids: seq<string>)
    requires IsPairing(cases, b, c, ids) && IsPairing(swapped, c, b, ids)
    ensures SumDeltas(swapped) == -SumDeltas(cases)
    ensures IdsOf(swapped, Improved) == IdsOf(cases, Regressed) && IdsOf(swapped, Regressed) == IdsOf(cases, Improved)
    ensures IdsOf(swapped, UnchangedPass) == IdsOf(cases, UnchangedPass)
            && IdsOf(swapped, UnchangedFail) == IdsOf(cases, UnchangedFail)
    decreases |ids|
  {
    if ids != [] {
      var n := |ids| - 1;
      SwapNegates(cases[..n], swapped[..n], b, c, ids[..n]);
      SwapPair(b, c, ids[n]);
    }
    SwapIds(cases, swapped, b, c, ids, Improved);
    SwapIds(cases, swapped, b, c, ids, Regressed);
    SwapIds(cases, swapped, b, c, ids, UnchangedPass);
    SwapIds(cases, swapped, b, c, ids, UnchangedFail);
  }

  function Swapped(k: Classification): (k': Classification) {
    if k == Improved then Regressed else if k == Regressed then Improved else k
  }

  lemma SwapPair(b: map<string, CaseResult>, c: map<string, CaseResult>, id: string)
    requires id in b && id in c
    ensures Delta(Pair(c, b, id)) == -Delta(Pair(b, c, id)) && Pair(c, b, id).caseId == Pair(b, c, id).caseId
    ensures Pair(c, b, id).classification == Swapped(Pair(b, c, id).classification)
  {
  }

  lemma {:induction false} SwapIds(
      cases: seq<CaseComparison>, swapped: seq<CaseComparison>, b: map<string, CaseResult>, c: map<string, CaseResult>,
      ids: seq<string>, k: Classification)
    requires IsPairing(cases, b, c, ids) && IsPairing(swapped, c, b, ids)
    ensures IdsOf(swapped, Swapped(k)) == IdsOf(cases, k)
    decreases |ids|
  {
    if ids != [] {
      var n := |ids| - 1;
      PairingPrefix(cases, b, c, ids);
      PairingPrefix(swapped, c, b, ids);
      SwapIds(cases[..n], swapped[..n], b, c, ids[..n], k);
      SwapPair(b, c, ids[n]);
      SwappedClass(cases[n].classification, k);
    }
  }

  lemma PairingPrefix(cases: seq<CaseComparison>, b: map<string, CaseResult>, c: map<string, CaseResult>,
                      ids: seq<string>)
    requires IsPairing(cases, b, c, ids) && ids != []
    ensures var n := |ids| - 1;
            && |cases| == |ids| && IsPairing(cases[..n], b, c, ids[..n])
            && ids[n] in b && ids[n] in c && cases[n] == Pair(b, c, ids[n])
  {
  }

  lemma SwappedClass(a: Classification, k: Classification)
    ensures Swapped(a) == Swapped(k) <==> a == k
  {
  }

  // ---- Slices ----

  lemma {:induction false} SlicesSplit(cases: seq<CaseComparison>, names: set<string>, name: string)
    requires name !in names
    ensures SumDeltas(InSlices(cases, names + {name}))
            == SumDeltas(InSlices(cases, names)) + SumDeltas(InSlices(cases, {name}))
    ensures |InSlices(cases, names + {name})| == |InSlices(cases, names)| + |InSlices(cases, {name})|
  {
    if cases != [] {
      var before, last := cases[..|cases| - 1], cases[|cases| - 1];
      SlicesSplit(before, names, name);
      SumNext(InSlices(before, names + {name}), last);
      SumNext(InSlices(before, names), last);
      SumNext(InSlices(before, {name}), last);
    }
  }

  lemma SumNext(cases: seq<CaseComparison>, c: CaseComparison)
    ensures SumDeltas(cases + [c]) == SumDeltas(cases) + Delta(c)
    ensures cases + [] == cases
  {
    assert (cases + [c])[..|cases|] == cases;
  }

  lemma {:induction false} AllSlices(cases: seq<CaseComparison>, names: set<string>)
    requires forall i :: 0 <= i < |cases| ==> cases[i].slice in names
    ensures InSlices(cases, names) == cases
  {
    if cases != [] {
      AllSlices(cases[..|cases| - 1], names);
      assert cases == cases[..|cases| - 1] + [cases[|cases| - 1]];
    }
  }

  lemma {:induction false} NoSlices(cases: seq<CaseComparison>)
    ensures InSlices(cases, {}) == []
  {
    if cases != [] {
      NoSlices(cases[..|cases| - 1]);
    }
  }

  function Times(x: real, n: nat): (product: real) {
    x * n as real
  }

  /** What a line says of its slice. */
  predicate SliceLine(s: SliceComparison, cases: seq<CaseComparison>) {
    var rows := InSlices(cases, {s.slice});
    && rows != [] && s.paired == |rows|
    && Times(s.baselineRate, s.paired) == Passed(rows, false) as real
    && Times(s.candidateRate, s.paired) == Passed(rows, true) as real
    && s.delta == s.candidateRate - s.baselineRate
    && Times(s.delta, s.paired) == SumDeltas(rows) as real
  }

  ghost predicate SliceLines(slices: seq<SliceComparison>, cases: seq<CaseComparison>) {
    && (forall i :: 0 <= i < |slices| ==> SliceLine(slices[i], cases))
    && (forall i, j :: 0 <= i < j < |slices| ==> slices[i].slice != slices[j].slice)
  }

  function Names(slices: seq<SliceComparison>): (names: set<string>) {
    set i | 0 <= i < |slices| :: slices[i].slice
  }

  function WeightedDeltas(slices: seq<SliceComparison>): (sum: real) {
    if slices == [] then 0.0
    else
      var last := slices[|slices| - 1];
      WeightedDeltas(slices[..|slices| - 1]) + Times(last.delta, last.paired)
  }

  function SumPaired(slices: seq<SliceComparison>): (sum: nat) {
    if slices == [] then 0 else SumPaired(slices[..|slices| - 1]) + slices[|slices| - 1].paired
  }

  lemma NamesNext(slices: seq<SliceComparison>)
    requires slices != []
    ensures Names(slices) == Names(slices[..|slices| - 1]) + {slices[|slices| - 1].slice}
  {
    var n := |slices| - 1;
    forall name
      ensures name in Names(slices) <==> name in Names(slices[..n]) || name == slices[n].slice
    {
      if name in Names(slices) && name != slices[n].slice {
        var i :| 0 <= i < |slices| && slices[i].slice == name;
        assert slices[..n][i] == slices[i];
      }
    }
  }

  /** Slices weighted by their pairs add up to the deltas of their cases, and their pairs to the number of these. */
  lemma {:induction false} SlicesAddUp(slices: seq<SliceComparison>, cases: seq<CaseComparison>)
    requires SliceLines(slices, cases)
    ensures WeightedDeltas(slices) == SumDeltas(InSlices(cases, Names(slices))) as real
    ensures SumPaired(slices) == |InSlices(cases, Names(slices))|
  {
    if slices == [] {
      NoSlices(cases);
      assert Names(slices) == {};
    } else {
      var n := |slices| - 1;
      var before := slices[..n];
      SlicesAddUp(before, cases);
      assert SliceLine(slices[n], cases);
      LastSliceSplits(slices, cases);
    }
  }

  lemma LastSliceSplits(slices: seq<SliceComparison>, cases: seq<CaseComparison>)
    requires slices != [] && SliceLines(slices, cases)
    ensures var n := |slices| - 1;
            var all, before, last := InSlices(cases, Names(slices)), InSlices(cases, Names(slices[..n])),
                                     InSlices(cases, {slices[n].slice});
            SumDeltas(all) == SumDeltas(before) + SumDeltas(last) && |all| == |before| + |last|
  {
    var n := |slices| - 1;
    NamesNext(slices);
    assert slices[n].slice !in Names(slices[..n]);
    SlicesSplit(cases, Names(slices[..n]), slices[n].slice);
  }

  // ---- The loops ----

  /** The lists and counts that the loop keeps are those of the cases so far. */
  ghost predicate Tallied(cases: seq<CaseComparison>, improved: seq<string>, regressed: seq<string>, passes: nat,
                          failures: nat, deltas: seq<int>)
  {
    && Classified(cases)
    && improved == IdsOf(cases, Improved) && regressed == IdsOf(cases, Regressed)
    && passes == |IdsOf(cases, UnchangedPass)| && failures == |IdsOf(cases, UnchangedFail)|
    && |deltas| == |cases| && forall i :: 0 <= i < |cases| ==> deltas[i] == Delta(cases[i])
  }

  lemma IdsNext(cases: seq<CaseComparison>, last: CaseComparison, k: Classification)
    ensures IdsOf(cases + [last], k) == IdsOf(cases, k) + (if last.classification == k then [last.caseId] else [])
  {
    assert (cases + [last])[..|cases|] == cases;
  }

  lemma TallyNext(cases: seq<CaseComparison>, improved: seq<string>, regressed: seq<string>, passes: nat,
                  failures: nat, deltas: seq<int>,
                  last: CaseComparison)
    requires Tallied(cases, improved, regressed, passes, failures, deltas)
    requires last.classification == Classify(last.baselinePassed, last.candidatePassed)
    ensures var k := last.classification;
            Tallied(cases + [last],
                    if k == Improved then improved + [last.caseId] else improved,
                    if k == Regressed then regressed + [last.caseId] else regressed,
                    if k == UnchangedPass then passes + 1 else passes,
                    if k == UnchangedFail then failures + 1 else failures,
                    deltas + [Delta(last)])
  {
    IdsNext(cases, last, Improved);
    IdsNext(cases, last, Regressed);
    IdsNext(cases, last, UnchangedPass);
    IdsNext(cases, last, UnchangedFail);
  }

  method CompareCases(b: map<string, CaseResult>, c: map<string, CaseResult>, ids: seq<string>)
    returns (cases: seq<CaseComparison>, improved: seq<string>, regressed: seq<string>, passes: nat, failures: nat,
             deltas: seq<int>)
    requires forall i :: 0 <= i < |ids| ==> ids[i] in b && ids[i] in c
    ensures IsPairing(cases, b, c, ids)
    ensures Tallied(cases, improved, regressed, passes, failures, deltas)
  {
    cases, improved, regressed, passes, failures, deltas := [], [], [], 0, 0, [];
    for i := 0 to |ids|
      invariant IsPairing(cases, b, c, ids[..i])
      invariant Tallied(cases, improved, regressed, passes, failures, deltas)
    {
      var id := ids[i];
      var base, cand := b[id].passed, c[id].passed;
      ghost var pair := Pair(b, c, id);
      TallyNext(cases, improved, regressed, passes, failures, deltas, pair);
      PairingNext(cases, b, c, ids, i);
      deltas := deltas + [(if cand then 1 else 0) - (if base then 1 else 0)];
      var classification: Classification;
      if cand && !base {
        classification := Improved;
        improved := improved + [id];
      } else if base && !cand {
        classification := Regressed;
        regressed := regressed + [id];
      } else if base && cand {
        classification := UnchangedPass;
        passes := passes + 1;
      } else {
        classification := UnchangedFail;
        failures := failures + 1;
      }
      assert classification == pair.classification;
      cases := cases + [CaseComparison(id, b[id].slice, base, cand, classification)];
    }
    assert ids[..|ids|] == ids;
  }

  lemma PairingNext(cases: seq<CaseComparison>, b: map<string, CaseResult>, c: map<string, CaseResult>,
                    ids: seq<string>, i: nat)
    requires i < |ids| && IsPairing(cases, b, c, ids[..i]) && ids[i] in b && ids[i] in c
    ensures IsPairing(cases + [Pair(b, c, ids[i])], b, c, ids[..i + 1])
  {
    forall k | 0 <= k < i
      ensures ids[..i + 1][k] in b && ids[..i + 1][k] in c && cases[k] == Pair(b, c, ids[..i + 1][k])
    {
      assert ids[..i + 1][k] == ids[..i][k];
    }
  }

  function Rate(n: int, total: nat): (rate: real) {
    if total > 0 then n as real / total as real else 0.0
  }

  lemma RateTimes(n: int, total: nat)
    requires total > 0
    ensures Times(Rate(n, total), total) == n as real
  {
  }

  lemma TimesSubtract(x: real, y: real, n: nat)
    ensures Times(x - y, n) == Times(x, n) - Times(y, n)
  {
  }

  function Rows(grouped: map<string, seq<CaseComparison>>, name: string): (rows: seq<CaseComparison>) {
    if name in grouped then grouped[name] else []
  }

  lemma {:induction false} SliceExists(cases: seq<CaseComparison>, name: string)
    ensures InSlices(cases, {name}) != [] <==> name in SliceNames(cases)
  {
    if cases != [] {
      var n := |cases| - 1;
      SliceExists(cases[..n], name);
      NamesGrow(cases[..n], cases[n]);
      assert cases == cases[..n] + [cases[n]];
    }
  }

  lemma NamesGrow(cases: seq<CaseComparison>, last: CaseComparison)
    ensures SliceNames(cases + [last]) == SliceNames(cases) + {last.slice}
  {
    assert (cases + [last])[|cases|] == last;
    forall name | name in SliceNames(cases)
      ensures name in SliceNames(cases + [last])
    {
      var k :| 0 <= k < |cases| && cases[k].slice == name;
      assert (cases + [last])[k] == cases[k];
    }
  }

  /** `grouped`: the cases of each slice, in order. */
  method Group(cases: seq<CaseComparison>) returns (grouped: map<string, seq<CaseComparison>>)
    ensures forall name :: Rows(grouped, name) == InSlices(cases, {name})
    ensures forall name :: name in grouped ==> grouped[name] != []
  {
    grouped := map[];
    for i := 0 to |cases|
      invariant forall name :: Rows(grouped, name) == InSlices(cases[..i], {name})
      invariant forall name :: name in grouped ==> grouped[name] != []
    {
      assert cases[..i + 1][..i] == cases[..i];
      var slice := cases[i].slice;
      grouped := grouped[slice := Rows(grouped, slice) + [cases[i]]];
    }
    assert cases[..|cases|] == cases;
  }

  method SumPassed(rows: seq<CaseComparison>) returns (baseline: nat, candidate: nat)
    ensures baseline == Passed(rows, false) && candidate == Passed(rows, true)
  {
    baseline, candidate := 0, 0;
    for i := 0 to |rows|
      invariant baseline == Passed(rows[..i], false) && candidate == Passed(rows[..i], true)
    {
      assert rows[..i + 1][..i] == rows[..i];
      baseline := baseline + (if rows[i].baselinePassed then 1 else 0);
      candidate := candidate + (if rows[i].candidatePassed then 1 else 0);
    }
    assert rows[..|rows|] == rows;
  }

  method CompareSlice(name: string, rows: seq<CaseComparison>, ghost cases: seq<CaseComparison>)
    returns (line: SliceComparison)
    requires rows == InSlices(cases, {name}) && rows != [] && Classified(rows)
    ensures line.slice == name && SliceLine(line, cases)
  {
    var baseline, candidate := SumPassed(rows);
    var baselineRate, candidateRate := Rate(baseline, |rows|), Rate(candidate, |rows|);
    line := SliceComparison(name, |rows|, baselineRate, candidateRate, candidateRate - baselineRate);
    LineHolds(line, cases);
  }

  lemma LineHolds(line: SliceComparison, cases: seq<CaseComparison>)
    requires var rows := InSlices(cases, {line.slice});
             && rows != [] && Classified(rows) && line.paired == |rows|
             && line.baselineRate == Rate(Passed(rows, false), |rows|)
             && line.candidateRate == Rate(Passed(rows, true), |rows|)
             && line.delta == line.candidateRate - line.baselineRate
    ensures SliceLine(line, cases)
  {
    var rows := InSlices(cases, {line.slice});
    RateTimes(Passed(rows, false), |rows|);
    RateTimes(Passed(rows, true), |rows|);
    TimesSubtract(line.candidateRate, line.baselineRate, |rows|);
    ClassesPartition(rows);
  }

  lemma {:induction false} SliceClassified(cases: seq<CaseComparison>, names: set<string>)
    requires Classified(cases)
    ensures Classified(InSlices(cases, names))
  {
    if cases != [] {
      SliceClassified(cases[..|cases| - 1], names);
    }
  }

  method SliceComparisons(cases: seq<CaseComparison>) returns (slices: seq<SliceComparison>)
    requires Classified(cases)
    ensures SliceLines(slices, cases) && Names(slices) == SliceNames(cases)
    ensures forall i, j :: 0 <= i < j < |slices| ==> Before(slices[i].slice, slices[j].slice)
  {
    var grouped := Group(cases);
    var names := Sorted(grouped.Keys);
    slices := [];
    for i := 0 to |names|
      invariant |slices| == i && forall k :: 0 <= k < i ==> slices[k].slice == names[k] && SliceLine(slices[k], cases)
    {
      assert names[i] in grouped.Keys;
      SliceClassified(cases, {names[i]});
      var line := CompareSlice(names[i], grouped[names[i]], cases);
      slices := slices + [line];
    }
    NamesOf(slices, names, cases, grouped);
  }

  lemma NamesOf(slices: seq<SliceComparison>, names: seq<string>, cases: seq<CaseComparison>,
                grouped: map<string, seq<CaseComparison>>)
    requires |slices| == |names| && forall k :: 0 <= k < |names| ==> slices[k].slice == names[k]
    requires Lists(names, grouped.Keys)
    requires forall name :: Rows(grouped, name) == InSlices(cases, {name})
    requires forall name :: name in grouped ==> grouped[name] != []
    ensures Names(slices) == SliceNames(cases)
  {
    forall name
      ensures name in Names(slices) <==> name in SliceNames(cases)
    {
      assert name in Names(slices) <==> name in names;
      assert name in names <==> name in grouped.Keys;
      assert name in grouped <==> Rows(grouped, name) != [];
      SliceExists(cases, name);
    }
  }

  function SliceNames(cases: seq<CaseComparison>): (names: set<string>) {
    set i | 0 <= i < |cases| :: cases[i].slice
  }

  /** What the comparison says of its cases. */
  ghost predicate Consistent(r: Comparison) {
    && Classified(r.cases)
    && r.improved == IdsOf(r.cases, Improved) && r.regressed == IdsOf(r.cases, Regressed)
    && r.unchangedPasses == |IdsOf(r.cases, UnchangedPass)|
    && r.unchangedFailures == |IdsOf(r.cases, UnchangedFail)|
    && |r.improved| + |r.regressed| + r.unchangedPasses + r.unchangedFailures == |r.cases|
    && Times(r.aggregateDelta, |r.cases|) == (|r.improved| - |r.regressed|) as real
    && SliceLines(r.slices, r.cases) && SumPaired(r.slices) == |r.cases|
    && WeightedDeltas(r.slices) == (|r.improved| - |r.regressed|) as real
    && (r.limitedEvidence <==> |r.cases| < 30)
  }

  ghost predicate Pairs(cases: seq<CaseComparison>, b: map<string, CaseResult>, c: map<string, CaseResult>) {
    exists ids :: Lists(ids, b.Keys * c.Keys) && IsPairing(cases, b, c, ids)
  }

  lemma AggregateOf(deltas: seq<int>, cases: seq<CaseComparison>, slices: seq<SliceComparison>)
    requires Classified(cases) && |deltas| == |cases| && forall i :: 0 <= i < |cases| ==> deltas[i] == Delta(cases[i])
    requires SliceLines(slices, cases) && Names(slices) == SliceNames(cases)
    ensures Times(Rate(Sum(deltas), |deltas|), |cases|) == SumDeltas(cases) as real
    ensures SumPaired(slices) == |cases| && WeightedDeltas(slices) == SumDeltas(cases) as real
  {
    SumOfDeltas(deltas, cases);
    if |cases| > 0 {
      RateTimes(Sum(deltas), |deltas|);
    }
    SlicesAddUp(slices, cases);
    AllSlices(cases, Names(slices));
  }

  /** An interval from ten pairs on, that of the resampled deltas; so it is ordered and lies among them. */
  ghost predicate IntervalFor(interval: Option<(real, real)>, cases: seq<CaseComparison>, choose: (int, int) -> int) {
    && (interval.Some? <==> |cases| >= 10)
    && (interval.Some? ==>
          && interval.value.0 <= interval.value.1 && Encloses(cases, interval.value.0, interval.value.1)
          && IsInterval(interval.value.0, interval.value.1, DeltasOf(cases), choose))
  }

  function DeltasOf(cases: seq<CaseComparison>): (deltas: seq<int>)
    ensures |deltas| == |cases|
  {
    seq(|cases|, i requires 0 <= i < |cases| => Delta(cases[i]))
  }

  method IntervalOf(deltas: seq<int>, ghost cases: seq<CaseComparison>, choose: (int, int) -> int)
    returns (interval: Option<(real, real)>)
    requires |deltas| == |cases| && forall i :: 0 <= i < |cases| ==> deltas[i] == Delta(cases[i])
    ensures IntervalFor(interval, cases, choose)
  {
    if |deltas| < 10 {
      return None;
    }
    assert deltas == DeltasOf(cases);
    var lower, upper := BootstrapInterval(deltas, choose);
    IntervalLies(lower, upper, deltas, choose);
    return Some((lower, upper));
  }

  /**
   `compare_runs`. The classes partition the pairs; the aggregate, and the slices weighted by their
   pairs, both give improved less regressed.
   */
  method CompareRuns(baseline: seq<CaseResult>, candidate: seq<CaseResult>, choose: (int, int) -> int)
    returns (r: Comparison)
    ensures var b, c := ById(baseline), ById(candidate);
            Lists(r.missing, (b.Keys - c.Keys) + (c.Keys - b.Keys)) && Pairs(r.cases, b, c)
    ensures Consistent(r) && IntervalFor(r.interval, r.cases, choose)
  {
    var b, c := ById(baseline), ById(candidate);
    var paired := Sorted(b.Keys * c.Keys);
    var missing := Sorted((b.Keys - c.Keys) + (c.Keys - b.Keys));
    assert forall i :: 0 <= i < |paired| ==> paired[i] in b.Keys * c.Keys;
    var cases, improved, regressed, passes, failures, deltas := CompareCases(b, c, paired);
    ClassesPartition(cases);
    var aggregate := Rate(Sum(deltas), |deltas|);
    var slices := SliceComparisons(cases);
    AggregateOf(deltas, cases, slices);
    var interval := IntervalOf(deltas, cases, choose);
    return Comparison(missing, aggregate, interval, |deltas| < 30, improved, regressed, passes, failures, slices,
                      cases);
  }

  /** Some case's delta is no greater than `lower`, and some is no less than `upper`. */
  ghost predicate Encloses(cases: seq<CaseComparison>, lower: real, upper: real) {
    && (exists i :: 0 <= i < |cases| && Delta(cases[i]) as real <= lower)
    && (exists i :: 0 <= i < |cases| && upper <= Delta(cases[i]) as real)
  }

  function Sum(deltas: seq<int>): (sum: int) {
    if deltas == [] then 0 else Sum(deltas[..|deltas| - 1]) + deltas[|deltas| - 1]
  }

  lemma {:induction false} SumOfDeltas(deltas: seq<int>, cases: seq<CaseComparison>)
    requires |deltas| == |cases| && forall i :: 0 <= i < |cases| ==> deltas[i] == Delta(cases[i])
    ensures Sum(deltas) == SumDeltas(cases)
  {
    if cases != [] {
      SumOfDeltas(deltas[..|deltas| - 1], cases[..|cases| - 1]);
    }
  }

  // ---- The bootstrap interval ----

  const SAMPLES := 500

  lemma {:induction false} SumBetween(s: seq<int>, low: int, high: int)
    requires forall i :: 0 <= i < |s| ==> low <= s[i] <= high
    ensures low * |s| <= Sum(s) <= high * |s|
  {
    if s != [] {
      SumBetween(s[..|s| - 1], low, high);
    }
  }

  lemma MeanBetween(s: seq<int>, low: int, high: int)
    requires s != [] && forall i :: 0 <= i < |s| ==> low <= s[i] <= high
    ensures low as real <= Rate(Sum(s), |s|) <= high as real
  {
    SumBetween(s, low, high);
    RateBetween(Sum(s), |s|, low, high);
  }

  lemma RateBetween(sum: int, n: nat, low: int, high: int)
    requires n > 0 && low * n <= sum <= high * n
    ensures low as real <= Rate(sum, n) <= high as real
  {
    RealProduct(low, n);
    RealProduct(high, n);
    QuotientBetween(sum as real, n as real, low as real, high as real);
  }

  lemma RealProduct(a: int, b: int)
    ensures (a * b) as real == a as real * b as real
  {
  }

  lemma QuotientBetween(x: real, n: real, low: real, high: real)
    requires n > 0.0 && low * n <= x <= high * n
    ensures low <= x / n <= high
  {
    var q := x / n;
    assert q * n == x;
    assert (q - low) * n >= 0.0;
    assert (high - q) * n >= 0.0;
  }

  predicate Ordered(s: seq<real>) {
    forall i, j :: 0 <= i < j < |s| ==> s[i] <= s[j]
  }

  function Insert(x: real, s: seq<real>): (t: seq<real>)
    ensures |t| == |s| + 1 && multiset(t) == multiset(s) + multiset{x}
  {
    if s == [] || x <= s[0] then [x] + s
    else
      assert s == [s[0]] + s[1..];
      [s[0]] + Insert(x, s[1..])
  }

  lemma {:induction false} InsertOrders(x: real, s: seq<real>)
    requires Ordered(s)
    ensures Ordered(Insert(x, s))
  {
    if s != [] && x > s[0] {
      InsertOrders(x, s[1..]);
      var t := Insert(x, s[1..]);
      forall i | 0 <= i < |t|
        ensures s[0] <= t[i]
      {
        assert t[i] in multiset(t);
        assert t[i] == x || t[i] in s[1..];
      }
    }
  }

  /** `means.sort()` */
  method SortMeans(means: seq<real>) returns (ordered: seq<real>)
    ensures AreSorted(ordered, means)
  {
    ordered := [];
    for i := 0 to |means|
      invariant Ordered(ordered) && |ordered| == i && multiset(ordered) == multiset(means[..i])
    {
      assert means[..i + 1] == means[..i] + [means[i]];
      InsertOrders(means[i], ordered);
      ordered := Insert(means[i], ordered);
    }
    assert means[..|means|] == means;
  }

  lemma {:induction false} Extremes(deltas: seq<int>) returns (least: int, greatest: int)
    requires deltas != []
    ensures least in deltas && greatest in deltas
    ensures forall i :: 0 <= i < |deltas| ==> least <= deltas[i] <= greatest
  {
    var n := |deltas| - 1;
    least, greatest := deltas[n], deltas[n];
    if n > 0 {
      var low, high := Extremes(deltas[..n]);
      least, greatest := if low < least then low else least, if high > greatest then high else greatest;
      assert forall i :: 0 <= i < n ==> deltas[i] == deltas[..n][i];
    }
  }

  /** A draw of resample `n`. */
  function Draw(deltas: seq<int>, choose: (int, int) -> int, n: int, i: int): (d: int)
    requires deltas != []
  {
    deltas[choose(n, i) % |deltas|]
  }

  /** A resample has as many draws as there are deltas, with repetition. */
  ghost predicate IsResample(sample: seq<int>, deltas: seq<int>, choose: (int, int) -> int, n: int)
    requires deltas != []
  {
    |sample| == |deltas| && forall i :: 0 <= i < |sample| ==> sample[i] == Draw(deltas, choose, n, i)
  }

  ghost predicate IsMeanOf(mean: real, deltas: seq<int>, choose: (int, int) -> int, n: int)
    requires deltas != []
  {
    exists sample :: IsResample(sample, deltas, choose, n) && mean == Rate(Sum(sample), |sample|)
  }

  ghost predicate AreMeans(means: seq<real>, deltas: seq<int>, choose: (int, int) -> int)
    requires deltas != []
  {
    |means| == SAMPLES && forall n :: 0 <= n < |means| ==> IsMeanOf(means[n], deltas, choose, n)
  }

  ghost predicate AreSorted(ordered: seq<real>, means: seq<real>) {
    Ordered(ordered) && |ordered| == |means| && multiset(ordered) == multiset(means)
  }

  /** The two values are the means at ranks 12 and 487, from 0, of the 500 resamples. */
  ghost predicate IsInterval(lower: real, upper: real, deltas: seq<int>, choose: (int, int) -> int)
    requires deltas != []
  {
    exists means, ordered ::
      AreMeans(means, deltas, choose) && AreSorted(ordered, means) && lower == ordered[12] && upper == ordered[487]
  }

  method Resample(deltas: seq<int>, choose: (int, int) -> int, n: int) returns (sample: seq<int>)
    requires deltas != []
    ensures IsResample(sample, deltas, choose, n)
  {
    sample := [];
    for i := 0 to |deltas|
      invariant |sample| == i && forall k :: 0 <= k < i ==> sample[k] == Draw(deltas, choose, n, k)
    {
      sample := sample + [Draw(deltas, choose, n, i)];
    }
  }

  method BootstrapMeans(deltas: seq<int>, choose: (int, int) -> int) returns (means: seq<real>)
    requires deltas != []
    ensures AreMeans(means, deltas, choose)
  {
    means := [];
    for n := 0 to SAMPLES
      invariant |means| == n && forall k :: 0 <= k < n ==> IsMeanOf(means[k], deltas, choose, k)
    {
      var sample := Resample(deltas, choose, n);
      means := means + [Rate(Sum(sample), |sample|)];
    }
  }

  /** `_bootstrap_ci`; `choose` stands for the random generator. */
  method BootstrapInterval(deltas: seq<int>, choose: (int, int) -> int) returns (lower: real, upper: real)
    requires deltas != []
    ensures IsInterval(lower, upper, deltas, choose)
  {
    var means := BootstrapMeans(deltas, choose);
    var ordered := SortMeans(means);
    lower := ordered[SAMPLES * 25 / 1000];
    upper := ordered[SAMPLES * 975 / 1000];
    assert AreMeans(means, deltas, choose) && AreSorted(ordered, means) && lower == ordered[12]
           && upper == ordered[487];
  }

  lemma MeanAmong(mean: real, deltas: seq<int>, choose: (int, int) -> int, n: int, least: int, greatest: int)
    requires deltas != [] && IsMeanOf(mean, deltas, choose, n)
    requires forall i :: 0 <= i < |deltas| ==> least <= deltas[i] <= greatest
    ensures least as real <= mean <= greatest as real
  {
    var sample :| IsResample(sample, deltas, choose, n) && mean == Rate(Sum(sample), |sample|);
    MeanBetween(sample, least, greatest);
  }

  lemma RankAmong(ordered: seq<real>, means: seq<real>, k: nat, deltas: seq<int>, choose: (int, int) -> int,
                  least: int, greatest: int)
    requires deltas != [] && AreMeans(means, deltas, choose) && AreSorted(ordered, means) && k < |ordered|
    requires forall i :: 0 <= i < |deltas| ==> least <= deltas[i] <= greatest
    ensures least as real <= ordered[k] <= greatest as real
  {
    assert ordered[k] in multiset(means);
    var n :| 0 <= n < |means| && means[n] == ordered[k];
    MeanAmong(means[n], deltas, choose, n, least, greatest);
  }

  /** Whatever is drawn, the interval is ordered and lies between the least and the greatest delta. */
  lemma IntervalLies(lower: real, upper: real, deltas: seq<int>, choose: (int, int) -> int)
    requires deltas != [] && IsInterval(lower, upper, deltas, choose)
    ensures lower <= upper
    ensures exists i :: 0 <= i < |deltas| && deltas[i] as real <= lower
    ensures exists i :: 0 <= i < |deltas| && upper <= deltas[i] as real
  {
    var least, greatest := Extremes(deltas);
    var means, ordered :|
      AreMeans(means, deltas, choose) && AreSorted(ordered, means) && lower == ordered[12] && upper == ordered[487];
    RankAmong(ordered, means, 12, deltas, choose, least, greatest);
    RankAmong(ordered, means, 487, deltas, choose, least, greatest);
  }
}
