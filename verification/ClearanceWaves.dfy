/**
 The clearance-wave search of capacity.py: a binary search over the number of waves, each probe
 running the matcher on (worker, wave) slots.
 */
module ClearanceWaves {
  import opened Wrappers
  import opened FiniteSets
  import opened Matching

  /** The jobs that `plan` gives to worker `w`. */
  ghost function Load<J, W>(plan: map<J, W>, w: W): (load: set<J>) {
    set j | j in plan && plan[j] == w
  }

  /** `plan` runs every job on a worker it may use, and no worker more than `waves` jobs. */
  ghost predicate Clears<J(!new), W(!new)>(jobs: set<J>, eligible: map<J, seq<W>>, waves: nat, plan: map<J, W>) {
    && plan.Keys == jobs
    && (forall j :: j in plan ==> j in eligible && plan[j] in eligible[j])
    && (forall w :: |Load(plan, w)| <= waves)
  }

  ghost predicate Feasible<J(!new), W(!new)>(jobs: set<J>, eligible: map<J, seq<W>>, waves: nat) {
    exists plan: map<J, W> :: Clears(jobs, eligible, waves, plan)
  }

  /** More jobs than their workers can run in `waves` waves. */
  ghost predicate Overloads<J, W>(c: set<J>, eligible: map<J, seq<W>>, waves: nat)
    requires c <= eligible.Keys
  {
    |c| > waves * |Neighbours(c, eligible)|
  }

  /** The waves that the jobs of `c` need among themselves: their number over their workers', rounded up. */
  ghost function Demand<J, W>(c: set<J>, eligible: map<J, seq<W>>): (d: Option<nat>)
    requires c <= eligible.Keys
  {
    var workers := |Neighbours(c, eligible)|;
    if workers == 0 then None else Some(CeilDiv(|c|, workers))
  }

  function WaveRow<W(!new)>(worker: W, waves: nat): (row: seq<(W, nat)>)
    ensures forall w, k: nat :: (w, k) in row <==> w == worker && k < waves
  {
    if waves == 0 then [] else WaveRow(worker, waves - 1) + [(worker, waves - 1)]
  }

  ghost predicate AllHaveWorkers<J, W>(jobs: seq<J>, eligible: map<J, seq<W>>)
    requires Elems(jobs) <= eligible.Keys
  {
    forall j :: j in jobs ==> eligible[j] != []
  }

  ghost predicate IsLeastClearance<J(!new), W(!new)>(jobs: seq<J>, eligible: map<J, seq<W>>, waves: nat) {
    && Feasible(Elems(jobs), eligible, waves)
    && forall w: nat :: w < waves ==> !Feasible(Elems(jobs), eligible, w)
  }

  /** No set of jobs demands more than `waves`, and some set demands just that many. */
  ghost predicate IsLargestDemand<J(!new), W(!new)>(jobs: seq<J>, eligible: map<J, seq<W>>, waves: nat)
    requires Elems(jobs) <= eligible.Keys
  {
    && (forall c :: c <= Elems(jobs) && c != {} ==> Demand(c, eligible).Some? && Demand(c, eligible).value <= waves)
    && (jobs != [] ==> exists c :: c <= Elems(jobs) && c != {} && Demand(c, eligible) == Some(waves))
  }

  /** The slots of a worker list: every worker once per wave, as the nested comprehension lists them. */
  function WorkerSlots<W(!new)>(workers: seq<W>, waves: nat): (slots: seq<(W, nat)>)
    ensures forall w, k: nat :: (w, k) in slots <==> w in workers && k < waves
  {
    if workers == [] then []
    else
      assert workers == [workers[0]] + workers[1..];
      WaveRow(workers[0], waves) + WorkerSlots(workers[1..], waves)
  }

  function SlotGraph<J(==), W(!new)>(jobs: seq<J>, eligible: map<J, seq<W>>, waves: nat): (slots: map<J, seq<(W, nat)>>)
    requires forall j :: j in jobs ==> j in eligible
  {
    map j | j in jobs :: WorkerSlots(eligible[j], waves)
  }

  /** A matching of all jobs with slots is a plan: forget the wave numbers. */
  lemma MatchingGivesPlan<J(!new), W(!new)>(jobs: seq<J>, eligible: map<J, seq<W>>, waves: nat, m: map<J, (W, nat)>)
    requires Elems(jobs) <= eligible.Keys
    requires IsMatching(Elems(jobs), SlotGraph(jobs, eligible, waves), m) && m.Keys == Elems(jobs)
    ensures Feasible(Elems(jobs), eligible, waves)
  {
    var plan := map j | j in m :: m[j].0;
    forall w
      ensures |Load(plan, w)| <= waves
    {
      var wave := map j | j in Load(plan, w) :: m[j].1;
      assert wave.Keys == Load(plan, w);
      InjectionCard(wave, Below(waves));
      BelowCard(waves);
    }
    assert Clears(Elems(jobs), eligible, waves, plan);
  }

  /** A plan is a matching of all jobs with slots: number the jobs of each worker. */
  lemma {:induction false} PlanGivesMatching<J(!new), W(!new)>(plan: map<J, W>, waves: nat)
    returns (m: map<J, (W, nat)>)
    requires forall w :: |Load(plan, w)| <= waves
    ensures m.Keys == plan.Keys
    ensures forall j :: j in m ==> m[j].0 == plan[j] && m[j].1 < waves
    ensures forall i, j :: i in m && j in m && i != j ==> m[i] != m[j]
    decreases |plan|
  {
    if plan == map[] {
      m := map[];
    } else {
      var job :| job in plan;
      var rest := plan - {job};
      LessLoad(plan, job, waves);
      m := PlanGivesMatching(rest, waves);
      var others := Load(rest, plan[job]);
      var wave := FreeWave(m, others, waves);
      m := m[job := (plan[job], wave)];
    }
  }

  lemma LessLoad<J(!new), W(!new)>(plan: map<J, W>, job: J, waves: nat)
    requires job in plan && forall w :: |Load(plan, w)| <= waves
    ensures var rest := plan - {job};
            && rest.Keys == plan.Keys - {job} && |rest| < |plan|
            && (forall w :: |Load(rest, w)| <= waves) && |Load(rest, plan[job])| < waves
  {
    var rest := plan - {job};
    assert rest.Keys == plan.Keys - {job};
    assert |rest.Keys| == |plan.Keys| - 1;
    forall w
      ensures |Load(rest, w)| <= waves
    {
      SubsetCard(Load(rest, w), Load(plan, w));
    }
    assert Load(plan, plan[job]) == Load(rest, plan[job]) + {job};
  }

  lemma FreeWave<J, W>(m: map<J, (W, nat)>, others: set<J>, waves: nat) returns (wave: nat)
    requires others <= m.Keys && |others| < waves
    ensures wave < waves && forall j :: j in others ==> m[j].1 != wave
  {
    var used := set j | j in others :: m[j].1;
    if Below(waves) <= used {
      BelowCard(waves);
      var user := map k | k in Below(waves) :: (var j :| j in others && m[j].1 == k; j);
      assert user.Keys == Below(waves);
      InjectionCard(user, others);
      assert false;
    }
    wave :| wave in Below(waves) && wave !in used;
  }

  /** With `waves` waves a set of jobs never outnumbers its workers times `waves`. */
  lemma FeasibleBoundsLoad<J(!new), W(!new)>(jobs: set<J>, eligible: map<J, seq<W>>, waves: nat, c: set<J>)
    requires jobs <= eligible.Keys && Feasible(jobs, eligible, waves) && c <= jobs
    ensures !Overloads(c, eligible, waves)
  {
    var plan: map<J, W> :| Clears(jobs, eligible, waves, plan);
    var m := PlanGivesMatching(plan, waves);
    var part := map j | j in m && j in c :: m[j];
    assert part.Keys == c;
    LoadFits(eligible, waves, part);
  }

  /** Jobs in different slots of `waves` waves are no more than their workers' slots. */
  lemma LoadFits<J(!new), W(!new)>(eligible: map<J, seq<W>>, waves: nat, m: map<J, (W, nat)>)
    requires m.Keys <= eligible.Keys && forall j :: j in m ==> m[j].0 in eligible[j] && m[j].1 < waves
    requires forall i, j :: i in m && j in m && i != j ==> m[i] != m[j]
    ensures !Overloads(m.Keys, eligible, waves)
  {
    var workers := Neighbours(m.Keys, eligible);
    SlotsOfNeighbours(eligible, waves, m);
    InjectionCard(m, Pairs(workers, Below(waves)));
    GridCard(workers, waves);
  }

  lemma SlotsOfNeighbours<J(!new), W(!new)>(eligible: map<J, seq<W>>, waves: nat, m: map<J, (W, nat)>)
    requires m.Keys <= eligible.Keys && forall j :: j in m ==> m[j].0 in eligible[j] && m[j].1 < waves
    ensures forall j :: j in m ==> m[j] in Pairs(Neighbours(m.Keys, eligible), Below(waves))
  {
    forall j | j in m
      ensures m[j] in Pairs(Neighbours(m.Keys, eligible), Below(waves))
    {
      assert m[j] == (m[j].0, m[j].1);
      assert m[j].0 in Neighbours(m.Keys, eligible);
    }
  }

  lemma SlotNeighbours<J(!new), W(!new)>(jobs: seq<J>, eligible: map<J, seq<W>>, waves: nat, c: set<J>)
    requires c <= Elems(jobs) <= eligible.Keys
    ensures Neighbours(c, SlotGraph(jobs, eligible, waves)) == Pairs(Neighbours(c, eligible), Below(waves))
  {
    var slots := SlotGraph(jobs, eligible, waves);
    forall w, k: nat
      ensures (w, k) in Neighbours(c, slots) <==> w in Neighbours(c, eligible) && k < waves
    {
      forall j | j in c
        ensures (w, k) in slots[j] <==> w in eligible[j] && k < waves
      {
        assert slots[j] == WorkerSlots(eligible[j], waves);
      }
    }
    assert forall p :: p in Neighbours(c, slots) <==> p in Pairs(Neighbours(c, eligible), Below(waves)) by {
      forall p: (W, nat)
        ensures p in Neighbours(c, slots) <==> p in Pairs(Neighbours(c, eligible), Below(waves))
      {
        assert p == (p.0, p.1);
      }
    }
  }

  /** A failed probe leaves behind a set of jobs that overloads its workers. */
  lemma OverfullOverloads<J(!new), W(!new)>(jobs: seq<J>, eligible: map<J, seq<W>>, waves: nat, c: set<J>)
    requires c <= Elems(jobs) <= eligible.Keys
    requires |c| > |Neighbours(c, SlotGraph(jobs, eligible, waves))|
    ensures Overloads(c, eligible, waves)
  {
    SlotNeighbours(jobs, eligible, waves, c);
    PairsCard(Neighbours(c, eligible), Below(waves));
    BelowCard(waves);
  }

  lemma OneWavePerJob<J(!new), W(!new)>(jobs: seq<J>, eligible: map<J, seq<W>>)
    requires Distinct(jobs) && Elems(jobs) <= eligible.Keys
    requires AllHaveWorkers(jobs, eligible)
    ensures Feasible(Elems(jobs), eligible, |jobs|)
  {
    var plan := map j | j in jobs :: eligible[j][0];
    assert plan.Keys == Elems(jobs);
    DistinctCard(jobs);
    forall w
      ensures |Load(plan, w)| <= |jobs|
    {
      SubsetCard(Load(plan, w), Elems(jobs));
    }
    assert Clears(Elems(jobs), eligible, |jobs|, plan);
  }

  lemma FeasibleNeedsWorkers<J(!new), W(!new)>(jobs: seq<J>, eligible: map<J, seq<W>>, waves: nat)
    requires Elems(jobs) <= eligible.Keys && Feasible(Elems(jobs), eligible, waves)
    ensures AllHaveWorkers(jobs, eligible)
  {
    var plan: map<J, W> :| Clears(Elems(jobs), eligible, waves, plan);
    forall j | j in jobs
      ensures eligible[j] != []
    {
      assert j in plan;
    }
  }

  lemma AllServedIsFeasible<J(!new), W(!new)>(jobs: seq<J>, eligible: map<J, seq<W>>, waves: nat, m: map<J, (W, nat)>)
    requires Distinct(jobs) && Elems(jobs) <= eligible.Keys
    requires IsMatching(Elems(jobs), SlotGraph(jobs, eligible, waves), m) && |m| == |jobs|
    ensures Feasible(Elems(jobs), eligible, waves)
  {
    DistinctCard(jobs);
    SubsetCard(m.Keys, Elems(jobs));
    MatchingGivesPlan(jobs, eligible, waves, m);
  }

  lemma FeasibleServesAll<J(!new), W(!new)>(jobs: seq<J>, eligible: map<J, seq<W>>, waves: nat, m: map<J, (W, nat)>)
    requires Distinct(jobs) && Elems(jobs) <= eligible.Keys
    requires PriorityOptimal(jobs, SlotGraph(jobs, eligible, waves), m)
    requires Feasible(Elems(jobs), eligible, waves)
    ensures |m| == |jobs|
  {
    var full := FeasibleGivesMatching(jobs, eligible, waves);
    FullIsBound(jobs, SlotGraph(jobs, eligible, waves), m, full);
    DistinctCard(jobs);
  }

  /** A best matching serves as many jobs as one that serves them all. */
  lemma FullIsBound<J(!new), S(!new)>(jobs: seq<J>, graph: map<J, seq<S>>, m: map<J, S>, full: map<J, S>)
    requires Distinct(jobs) && PriorityOptimal(jobs, graph, m)
    requires IsMatching(Elems(jobs), graph, full) && full.Keys == Elems(jobs)
    ensures |m| == |Elems(jobs)|
  {
    assert jobs[..|jobs|] == jobs;
    PrefixBound(jobs, graph, m, |jobs|, full, Elems(jobs));
    assert m.Keys * Elems(jobs) == m.Keys;
    SubsetCard(m.Keys, Elems(jobs));
  }

  lemma FeasibleGivesMatching<J(!new), W(!new)>(jobs: seq<J>, eligible: map<J, seq<W>>, waves: nat)
    returns (full: map<J, (W, nat)>)
    requires Elems(jobs) <= eligible.Keys && Feasible(Elems(jobs), eligible, waves)
    ensures IsMatching(Elems(jobs), SlotGraph(jobs, eligible, waves), full) && full.Keys == Elems(jobs)
  {
    var plan: map<J, W> :| Clears(Elems(jobs), eligible, waves, plan);
    full := PlanGivesMatching(plan, waves);
    PlanMatchingEligible(jobs, eligible, waves, plan, full);
  }

  lemma PlanMatchingEligible<J(!new), W(!new)>(jobs: seq<J>, eligible: map<J, seq<W>>, waves: nat, plan: map<J, W>,
                                               m: map<J, (W, nat)>)
    requires Elems(jobs) <= eligible.Keys && Clears(Elems(jobs), eligible, waves, plan)
    requires m.Keys == plan.Keys && forall j :: j in m ==> m[j].0 == plan[j] && m[j].1 < waves
    requires forall i, j :: i in m && j in m && i != j ==> m[i] != m[j]
    ensures IsMatching(Elems(jobs), SlotGraph(jobs, eligible, waves), m)
  {
    forall j | j in m
      ensures m[j] in SlotGraph(jobs, eligible, waves)[j]
    {
      assert m[j] == (plan[j], m[j].1);
      assert (plan[j], m[j].1) in WorkerSlots(eligible[j], waves);
    }
  }

  /** One probe of the binary search: the matcher serves every job exactly when `waves` waves suffice. */
  lemma ProbeIsExact<J(!new), W(!new)>(jobs: seq<J>, eligible: map<J, seq<W>>, waves: nat, m: map<J, (W, nat)>)
    requires Distinct(jobs) && Elems(jobs) <= eligible.Keys
    requires PriorityOptimal(jobs, SlotGraph(jobs, eligible, waves), m)
    ensures |m| == |jobs| <==> Feasible(Elems(jobs), eligible, waves)
  {
    if |m| == |jobs| {
      AllServedIsFeasible(jobs, eligible, waves, m);
    } else if Feasible(Elems(jobs), eligible, waves) {
      FeasibleServesAll(jobs, eligible, waves, m);
    }
  }

  /**
   The clearance-wave count. When every job has a worker it is the least number of waves that clears
   all jobs, and that is the largest quotient, rounded up, of a set of jobs by the workers open to
   it. When some job has none, no number of waves clears the jobs and the count is the number of jobs.
   */
  method MinimumClearanceWaves<J(==,!new), W(==,!new)>(jobs: seq<J>, eligible: map<J, seq<W>>) returns (waves: nat)
    requires Distinct(jobs) && Elems(jobs) <= eligible.Keys
    ensures waves == 0 <==> jobs == []
    ensures AllHaveWorkers(jobs, eligible) ==>
            IsLeastClearance(jobs, eligible, waves) && IsLargestDemand(jobs, eligible, waves)
    ensures !AllHaveWorkers(jobs, eligible) ==>
              waves == |jobs| && forall w: nat :: !Feasible(Elems(jobs), eligible, w)
  {
    if jobs == [] {
      NothingToClear(eligible);
      return 0;
    }
    var lower, upper := 1, |jobs|;
    ghost var c, failing: nat := Elems(jobs), 0;
    ZeroWavesFail(jobs, eligible);
    while lower < upper
      invariant 1 <= lower <= upper && failing + 1 == lower
      invariant Bracketed(jobs, eligible, failing, upper, c)
    {
      var middle := (lower + upper) / 2;
      ghost var overfull;
      var all;
      all, overfull := ServesAll(jobs, eligible, middle);
      if all {
        upper := middle;
      } else {
        lower, failing, c := middle + 1, middle, overfull;
      }
    }
    waves := lower;
    BoundsMeet(jobs, eligible, upper, failing, c);
  }

  /** `upper` waves clear the jobs, unless that is the number of jobs; `failing` do not, for `c` is too many. */
  ghost predicate Bracketed<J(!new), W(!new)>(jobs: seq<J>, eligible: map<J, seq<W>>, failing: nat, upper: nat,
                                              c: set<J>)
    requires Elems(jobs) <= eligible.Keys
  {
    && upper <= |jobs| && (upper < |jobs| ==> Feasible(Elems(jobs), eligible, upper))
    && c <= Elems(jobs) && Overloads(c, eligible, failing)
  }

  /** Runs the matcher on the slots of `waves` waves. */
  method ServesAll<J(==,!new), W(==,!new)>(jobs: seq<J>, eligible: map<J, seq<W>>, waves: nat)
    returns (all: bool, ghost overfull: set<J>)
    requires Distinct(jobs) && Elems(jobs) <= eligible.Keys
    ensures all <==> Feasible(Elems(jobs), eligible, waves)
    ensures !all ==> overfull <= Elems(jobs) && Overloads(overfull, eligible, waves)
  {
    var matching;
    matching, overfull := MaximumMatching(jobs, SlotGraph(jobs, eligible, waves));
    Probe(jobs, eligible, waves, matching, overfull);
    ProbeIsExact(jobs, eligible, waves, matching);
    all := |matching| == |jobs|;
  }

  lemma ZeroWavesFail<J(!new), W(!new)>(jobs: seq<J>, eligible: map<J, seq<W>>)
    requires jobs != [] && Elems(jobs) <= eligible.Keys
    ensures Overloads(Elems(jobs), eligible, 0)
  {
    assert jobs[0] in Elems(jobs);
  }

  lemma Probe<J(!new), W(!new)>(jobs: seq<J>, eligible: map<J, seq<W>>, waves: nat, m: map<J, (W, nat)>,
                                overfull: set<J>)
    requires Distinct(jobs) && Elems(jobs) <= eligible.Keys
    requires PriorityOptimal(jobs, SlotGraph(jobs, eligible, waves), m)
    requires overfull <= Elems(jobs)
    requires |overfull| == |Neighbours(overfull, SlotGraph(jobs, eligible, waves))| + |jobs| - |m|
    ensures if |m| == |jobs| then Feasible(Elems(jobs), eligible, waves) else Overloads(overfull, eligible, waves)
  {
    if |m| == |jobs| {
      ProbeIsExact(jobs, eligible, waves, m);
    } else {
      MatchingIsSmaller(jobs, SlotGraph(jobs, eligible, waves), m);
      OverfullOverloads(jobs, eligible, waves, overfull);
    }
  }

  lemma BoundsMeet<J(!new), W(!new)>(jobs: seq<J>, eligible: map<J, seq<W>>, upper: nat, failing: nat, c: set<J>)
    requires jobs != [] && Distinct(jobs) && Elems(jobs) <= eligible.Keys
    requires upper == failing + 1 <= |jobs| && (upper < |jobs| ==> Feasible(Elems(jobs), eligible, upper))
    requires c <= Elems(jobs) && Overloads(c, eligible, failing)
    ensures if AllHaveWorkers(jobs, eligible)
            then IsLeastClearance(jobs, eligible, upper) && IsLargestDemand(jobs, eligible, upper)
            else upper == |jobs| && forall w: nat :: !Feasible(Elems(jobs), eligible, w)
  {
    if AllHaveWorkers(jobs, eligible) {
      OneWavePerJob(jobs, eligible);
      LeastWaves(jobs, eligible, failing, c);
    } else {
      NoWaves(jobs, eligible);
    }
  }

  lemma NothingToClear<J(!new), W(!new)>(eligible: map<J, seq<W>>)
    ensures IsLeastClearance([], eligible, 0) && IsLargestDemand([], eligible, 0)
  {
    var plan: map<J, W> := map[];
    forall w
      ensures |Load(plan, w)| <= 0
    {
      assert Load(plan, w) == {};
    }
    assert Clears(Elems([]), eligible, 0, plan);
  }

  lemma MatchingIsSmaller<J(!new), S(!new)>(jobs: seq<J>, slots: map<J, seq<S>>, m: map<J, S>)
    requires Distinct(jobs) && IsMatching(Elems(jobs), slots, m) && |m| != |jobs|
    ensures |m| < |jobs|
  {
    DistinctCard(jobs);
    SubsetCard(m.Keys, Elems(jobs));
  }

  lemma NoWaves<J(!new), W(!new)>(jobs: seq<J>, eligible: map<J, seq<W>>)
    requires Elems(jobs) <= eligible.Keys
    requires !AllHaveWorkers(jobs, eligible)
    ensures forall w: nat :: !Feasible(Elems(jobs), eligible, w)
  {
    forall w: nat
      ensures !Feasible(Elems(jobs), eligible, w)
    {
      if Feasible(Elems(jobs), eligible, w) {
        FeasibleNeedsWorkers(jobs, eligible, w);
      }
    }
  }

  lemma OverloadsFewer<J, W>(c: set<J>, eligible: map<J, seq<W>>, more: nat, fewer: nat)
    requires c <= eligible.Keys && Overloads(c, eligible, more) && fewer <= more
    ensures Overloads(c, eligible, fewer)
  {
    assert fewer * |Neighbours(c, eligible)| <= more * |Neighbours(c, eligible)|;
  }

  /** If `c` overloads its workers with `failing` waves and one wave more clears the jobs, both bounds meet. */
  lemma LeastWaves<J(!new), W(!new)>(jobs: seq<J>, eligible: map<J, seq<W>>, failing: nat, c: set<J>)
    requires jobs != [] && Elems(jobs) <= eligible.Keys
    requires Feasible(Elems(jobs), eligible, failing + 1)
    requires c <= Elems(jobs) && Overloads(c, eligible, failing)
    ensures IsLeastClearance(jobs, eligible, failing + 1) && IsLargestDemand(jobs, eligible, failing + 1)
  {
    var waves := failing + 1;
    forall w: nat | w < waves
      ensures !Feasible(Elems(jobs), eligible, w)
    {
      OverloadsFewer(c, eligible, failing, w);
      if Feasible(Elems(jobs), eligible, w) {
        FeasibleBoundsLoad(Elems(jobs), eligible, w, c);
      }
    }
    forall c' | c' <= Elems(jobs) && c' != {}
      ensures Demand(c', eligible).Some? && Demand(c', eligible).value <= waves
    {
      FeasibleBoundsLoad(Elems(jobs), eligible, waves, c');
      CeilDivBound(|c'|, |Neighbours(c', eligible)|, waves);
    }
    CeilDivBound(|c|, |Neighbours(c, eligible)|, failing);
    assert Demand(c, eligible) == Some(waves);
  }
}
