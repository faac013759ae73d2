/**
 The priority-ordered bipartite matcher of capacity.py.

 `jobs` is the job list in priority order and `eligible[j]` the slots job `j` may take. The matcher
 tries the jobs one by one; each is the root of a breadth-first search for an augmenting path, and
 the path found, if any, is flipped slot by slot.
 */
module Matching {
  import opened FiniteSets
  import opened AugmentingPaths

  /** `m` gives some of `jobs` one of their eligible slots each, no slot twice. */
  ghost predicate IsMatching<J, S>(jobs: set<J>, eligible: map<J, seq<S>>, m: map<J, S>) {
    && m.Keys <= jobs
    && (forall j :: j in m ==> j in eligible && m[j] in eligible[j])
    && (forall i, j :: i in m && j in m && i != j ==> m[i] != m[j])
  }

  /** `m` serves as many of `jobs` as any matching of `jobs` does. */
  ghost predicate ServesMost<J(!new), S(!new)>(jobs: set<J>, eligible: map<J, seq<S>>, m: map<J, S>) {
    forall other: map<J, S> :: IsMatching(jobs, eligible, other) ==> |other| <= |m.Keys * jobs|
  }

  /** The promise of the forecast: every prefix of the priority order is served as well as if it stood alone. */
  ghost predicate PriorityOptimal<J(!new), S(!new)>(jobs: seq<J>, eligible: map<J, seq<S>>, m: map<J, S>) {
    && IsMatching(Elems(jobs), eligible, m)
    && forall k :: 0 <= k <= |jobs| ==> ServesMost(Elems(jobs[..k]), eligible, m)
  }

  /** The slots at least one job of `c` may take. */
  ghost function Neighbours<J, S>(c: set<J>, eligible: map<J, seq<S>>): (n: set<S>)
    requires c <= eligible.Keys
  {
    set j, s | j in c && s in eligible[j] :: s
  }

  ghost function HeldSlots<J, S>(c: set<J>, slotToJob: map<S, J>): (held: set<S>) {
    set s | s in slotToJob && slotToJob[s] in c
  }

  lemma HeldSlotsBound<J, S>(c: set<J>, m: map<J, S>, slotToJob: map<S, J>)
    requires Inverse(m, slotToJob)
    ensures |HeldSlots(c, slotToJob)| <= |m.Keys * c|
  {
    var holders := map s | s in HeldSlots(c, slotToJob) :: slotToJob[s];
    assert holders.Keys == HeldSlots(c, slotToJob);
    InjectionCard(holders, m.Keys * c);
  }

  /** A matching `other` restricted to a closed set fits into the slots that the closed set's jobs hold. */
  lemma ClosedBound<J, S>(c: set<J>, jobs: set<J>, eligible: map<J, seq<S>>, slotToJob: map<S, J>, other: map<J, S>)
    requires Closed(c, eligible, slotToJob) && IsMatching(jobs, eligible, other)
    ensures |other.Keys * c| <= |HeldSlots(c, slotToJob)|
  {
    var inside := map j | j in other && j in c :: other[j];
    assert inside.Keys == other.Keys * c;
    InjectionCard(inside, HeldSlots(c, slotToJob));
  }

  lemma ClosedDominates<J, S>(c: set<J>, jobs: set<J>, eligible: map<J, seq<S>>, m: map<J, S>,
                              slotToJob: map<S, J>, other: map<J, S>)
    requires Inverse(m, slotToJob) && m.Keys <= jobs && jobs - m.Keys <= c
    requires Closed(c, eligible, slotToJob) && IsMatching(jobs, eligible, other)
    ensures |other| <= |m|
  {
    calc {
      |other|;
      { SplitCard(other.Keys, c); }
      |other.Keys * c| + |other.Keys - c|;
    <= { ClosedBound(c, jobs, eligible, slotToJob, other); HeldSlotsBound(c, m, slotToJob); }
      |m.Keys * c| + |other.Keys - c|;
    <= { SubsetCard(other.Keys - c, m.Keys - c); }
      |m.Keys * c| + |m.Keys - c|;
      { SplitCard(m.Keys, c); }
      |m|;
    }
  }

  /** If the jobs left over all lie in a closed set, no matching serves more jobs. */
  lemma ClosedIsOptimal<J(!new), S(!new)>(c: set<J>, jobs: set<J>, eligible: map<J, seq<S>>, m: map<J, S>,
                                          slotToJob: map<S, J>)
    requires Inverse(m, slotToJob) && m.Keys <= jobs && jobs - m.Keys <= c
    requires Closed(c, eligible, slotToJob)
    ensures ServesMost(jobs, eligible, m)
  {
    forall other: map<J, S> | IsMatching(jobs, eligible, other)
      ensures |other| <= |m.Keys * jobs|
    {
      ClosedDominates(c, jobs, eligible, m, slotToJob, other);
      assert m.Keys * jobs == m.Keys;
    }
  }

  /** The neighbours of a closed set are exactly the slots its matched jobs hold. */
  lemma ClosedNeighbours<J, S>(c: set<J>, eligible: map<J, seq<S>>, m: map<J, S>, slotToJob: map<S, J>)
    requires Inverse(m, slotToJob) && Eligible(eligible, m) && Closed(c, eligible, slotToJob)
    ensures |Neighbours(c, eligible)| == |c * m.Keys|
  {
    NeighboursAreHeld(c, eligible, m, slotToJob);
    HeldAreNeighbours(c, eligible, m, slotToJob);
  }

  lemma NeighboursAreHeld<J, S>(c: set<J>, eligible: map<J, seq<S>>, m: map<J, S>, slotToJob: map<S, J>)
    requires Inverse(m, slotToJob) && Closed(c, eligible, slotToJob)
    ensures |Neighbours(c, eligible)| <= |c * m.Keys|
  {
    var forth := map s | s in Neighbours(c, eligible) :: slotToJob[s];
    assert forth.Keys == Neighbours(c, eligible);
    InjectionCard(forth, c * m.Keys);
  }

  lemma HeldAreNeighbours<J, S>(c: set<J>, eligible: map<J, seq<S>>, m: map<J, S>, slotToJob: map<S, J>)
    requires Inverse(m, slotToJob) && Eligible(eligible, m) && c <= eligible.Keys
    ensures |c * m.Keys| <= |Neighbours(c, eligible)|
  {
    var back := map j | j in c && j in m :: m[j];
    assert back.Keys == c * m.Keys;
    InjectionCard(back, Neighbours(c, eligible));
  }

  /**
   After the first `k` jobs: they are served as well as any matching could serve them, so is every
   prefix of them, and those left over lie in the closed set `overfull`.
   */
  ghost predicate Served<J(!new), S(!new)>(jobs: seq<J>, k: nat, eligible: map<J, seq<S>>, jobToSlot: map<J, S>,
                                           slotToJob: map<S, J>, overfull: set<J>)
    requires k <= |jobs|
  {
    && Inverse(jobToSlot, slotToJob) && Eligible(eligible, jobToSlot)
    && Closed(overfull, eligible, slotToJob)
    && jobToSlot.Keys <= Elems(jobs[..k])
    && Elems(jobs[..k]) - jobToSlot.Keys <= overfull <= Elems(jobs[..k])
    && forall i :: 0 <= i <= k ==> ServesMost(Elems(jobs[..i]), eligible, jobToSlot)
  }

  lemma ServedNext<J(!new), S(!new)>(jobs: seq<J>, k: nat, eligible: map<J, seq<S>>,
                                     m: map<J, S>, r: map<S, J>, c: set<J>, m': map<J, S>, r': map<S, J>, c': set<J>)
    requires Distinct(jobs) && k < |jobs| && Served(jobs, k, eligible, m, r, c)
    requires Inverse(m', r') && Eligible(eligible, m') && Closed(c', eligible, r')
    requires c <= c' <= c + m.Keys + {jobs[k]}
    requires m'.Keys == m.Keys + {jobs[k]} || (m'.Keys == m.Keys && jobs[k] in c')
    ensures Served(jobs, k + 1, eligible, m', r', c')
  {
    ElemsNext(jobs, k);
    ClosedIsOptimal(c', Elems(jobs[..k + 1]), eligible, m', r');
    forall i | 0 <= i <= k
      ensures ServesMost(Elems(jobs[..i]), eligible, m')
    {
      PrefixUntouched(jobs, k, i, m, m');
      assert ServesMost(Elems(jobs[..i]), eligible, m);
    }
  }

  lemma PrefixUntouched<J, S>(jobs: seq<J>, k: nat, i: nat, m: map<J, S>, m': map<J, S>)
    requires Distinct(jobs) && i <= k < |jobs|
    requires m'.Keys == m.Keys + {jobs[k]} || m'.Keys == m.Keys
    ensures m'.Keys * Elems(jobs[..i]) == m.Keys * Elems(jobs[..i])
  {
    assert jobs[k] !in jobs[..i];
  }

  /** The excess of an overfull set over its slots is the number of jobs left over. */
  lemma Overfull<J(!new), S(!new)>(jobs: seq<J>, eligible: map<J, seq<S>>, m: map<J, S>, slotToJob: map<S, J>,
                                   c: set<J>)
    requires Distinct(jobs) && Served(jobs, |jobs|, eligible, m, slotToJob, c)
    ensures PriorityOptimal(jobs, eligible, m)
    ensures Elems(jobs) - m.Keys <= c <= Elems(jobs)
    ensures |c| == |Neighbours(c, eligible)| + |jobs| - |m|
  {
    assert jobs[..|jobs|] == jobs;
    ClosedNeighbours(c, eligible, m, slotToJob);
    DistinctCard(jobs);
    OverlapCard(c, m.Keys, Elems(jobs));
  }

  /**
   The matcher. Besides the matching it leaves, as evidence that no better one exists, the union of
   the closed sets of the failed searches: it holds every job left over, and its jobs have exactly so
   many slots to choose from that this number of them must be left over.
   */
  method MaximumMatching<J(==,!new), S(==,!new)>(jobs: seq<J>, eligible: map<J, seq<S>>)
    returns (jobToSlot: map<J, S>, ghost overfull: set<J>)
    requires Distinct(jobs) && Elems(jobs) <= eligible.Keys
    ensures PriorityOptimal(jobs, eligible, jobToSlot)
    ensures Elems(jobs) - jobToSlot.Keys <= overfull <= Elems(jobs)
    ensures |overfull| == |Neighbours(overfull, eligible)| + |jobs| - |jobToSlot|
  {
    jobToSlot, overfull := map[], {};
    var slotToJob: map<S, J> := map[];
    NothingServed(jobs, eligible, jobToSlot, slotToJob);
    for k := 0 to |jobs|
      invariant Served(jobs, k, eligible, jobToSlot, slotToJob, overfull)
    {
      RootIsNew(jobs, k, eligible, jobToSlot, slotToJob, overfull);
      ghost var m, r, c := jobToSlot, slotToJob, overfull;
      jobToSlot, slotToJob, overfull := TryRoot(jobs[k], eligible, jobToSlot, slotToJob, overfull);
      ServedNext(jobs, k, eligible, m, r, c, jobToSlot, slotToJob, overfull);
    }
    Overfull(jobs, eligible, jobToSlot, slotToJob, overfull);
  }

  /** One round of the matcher: the root is served too, or its search joins the closed set. */
  method TryRoot<J(==,!new), S(==,!new)>(root: J, eligible: map<J, seq<S>>, jobToSlotIn: map<J, S>,
                                         slotToJobIn: map<S, J>,
                                         ghost overfullIn: set<J>)
    returns (jobToSlot: map<J, S>, slotToJob: map<S, J>, ghost overfull: set<J>)
    requires root in eligible && root !in jobToSlotIn && root !in overfullIn
    requires Inverse(jobToSlotIn, slotToJobIn) && Eligible(eligible, jobToSlotIn)
             && Closed(overfullIn, eligible, slotToJobIn)
    ensures Inverse(jobToSlot, slotToJob) && Eligible(eligible, jobToSlot) && Closed(overfull, eligible, slotToJob)
    ensures overfullIn <= overfull <= overfullIn + jobToSlotIn.Keys + {root}
    ensures jobToSlot.Keys == jobToSlotIn.Keys + {root} || (jobToSlot.Keys == jobToSlotIn.Keys && root in overfull)
  {
    jobToSlot, slotToJob, overfull := jobToSlotIn, slotToJobIn, overfullIn;
    var free, parent, rank, closure := FindFreeSlot(root, eligible, jobToSlot, slotToJob);
    if free.Some? {
      jobToSlot, slotToJob := FlipPath(root, free.value, parent, rank, eligible, jobToSlot, slotToJob, overfull);
    } else {
      overfull := overfull + closure;
    }
  }

  lemma NothingServed<J(!new), S(!new)>(jobs: seq<J>, eligible: map<J, seq<S>>, m: map<J, S>, slotToJob: map<S, J>)
    requires |m| == 0 && |slotToJob| == 0
    ensures Served(jobs, 0, eligible, m, slotToJob, {})
  {
    ClosedIsOptimal({}, Elems(jobs[..0]), eligible, m, slotToJob);
  }

  lemma RootIsNew<J(!new), S(!new)>(jobs: seq<J>, k: nat, eligible: map<J, seq<S>>, m: map<J, S>,
                                    slotToJob: map<S, J>, c: set<J>)
    requires Distinct(jobs) && k < |jobs| && Elems(jobs) <= eligible.Keys
    requires Served(jobs, k, eligible, m, slotToJob, c)
    ensures jobs[k] in eligible && jobs[k] !in m && jobs[k] !in c
  {
    assert jobs[k] in Elems(jobs);
    assert jobs[k] !in jobs[..k];
  }

  /** No matching serves more of the first `n` jobs than the matcher does. */
  lemma PrefixBound<J(!new), S(!new)>(jobs: seq<J>, eligible: map<J, seq<S>>, m: map<J, S>, n: nat, other: map<J, S>,
                                      x: set<J>)
    requires PriorityOptimal(jobs, eligible, m) && n <= |jobs|
    requires IsMatching(Elems(jobs), eligible, other) && x <= other.Keys * Elems(jobs[..n])
    ensures |x| <= |m.Keys * Elems(jobs[..n])|
  {
    var part := map j | j in other && j in x :: other[j];
    assert part.Keys == x;
    assert IsMatching(Elems(jobs[..n]), eligible, part);
    assert ServesMost(Elems(jobs[..n]), eligible, m);
  }

  /**
   A job left over cannot be served without giving up a job of higher priority: every matching that
   serves all the earlier jobs the matcher served leaves it over too.
   */
  lemma LeftOverCannotDisplace<J(!new), S(!new)>(jobs: seq<J>, eligible: map<J, seq<S>>, m: map<J, S>, k: nat,
                                                 other: map<J, S>)
    requires Distinct(jobs) && PriorityOptimal(jobs, eligible, m) && k < |jobs| && jobs[k] !in m
    requires IsMatching(Elems(jobs), eligible, other) && m.Keys * Elems(jobs[..k]) <= other.Keys
    ensures jobs[k] !in other
  {
    var prefix := Elems(jobs[..k + 1]);
    ElemsNext(jobs, k);
    assert m.Keys * prefix <= other.Keys;
    if jobs[k] in other {
      OneMore(m.Keys, other.Keys, prefix, jobs[k]);
      PrefixBound(jobs, eligible, m, k + 1, other, m.Keys * prefix + {jobs[k]});
    }
  }

  lemma OneMore<J>(a: set<J>, b: set<J>, prefix: set<J>, x: J)
    requires a * prefix <= b && x in prefix && x in b && x !in a
    ensures a * prefix + {x} <= b * prefix && |a * prefix + {x}| == |a * prefix| + 1
  {
  }

  /** Two slot lists per job that name the same slots, perhaps in another order or with repetitions. */
  ghost predicate SameSlots<J(!new), S(!new)>(e: map<J, seq<S>>, e': map<J, seq<S>>) {
    && e.Keys == e'.Keys
    && forall j, s :: j in e ==> (s in e[j] <==> s in e'[j])
  }

  lemma SameSlotsSameMatchings<J(!new), S(!new)>(jobs: set<J>, e: map<J, seq<S>>, e': map<J, seq<S>>, m: map<J, S>)
    requires SameSlots(e, e') && IsMatching(jobs, e, m)
    ensures IsMatching(jobs, e', m)
  {
  }

  /** Which jobs are served depends on the priority order and on who may take what, not on the order of the slots. */
  lemma {:induction false} ServedJobsDetermined<J(!new), S(!new)>(jobs: seq<J>, k: nat, e: map<J, seq<S>>,
                                                                  e': map<J, seq<S>>,
                                                                  m: map<J, S>, m': map<J, S>)
    requires Distinct(jobs) && k <= |jobs| && SameSlots(e, e')
    requires PriorityOptimal(jobs, e, m) && PriorityOptimal(jobs, e', m')
    ensures m.Keys * Elems(jobs[..k]) == m'.Keys * Elems(jobs[..k])
  {
    if k == 0 {
      NoneServed(jobs[..k], m.Keys, m'.Keys);
    } else {
      var n := k - 1;
      ServedJobsDetermined(jobs, n, e, e', m, m');
      SameSlotsSameMatchings(Elems(jobs), e', e, m');
      SameSlotsSameMatchings(Elems(jobs), e, e', m);
      ServedAlike(jobs, n, e, m, m');
      ServedAlike(jobs, n, e', m', m);
      AgreeOnPrefix(jobs, n, m.Keys, m'.Keys);
      assert n + 1 == k;
    }
  }

  lemma NoneServed<J>(jobs: seq<J>, a: set<J>, b: set<J>)
    requires jobs == []
    ensures a * Elems(jobs) == b * Elems(jobs)
  {
    assert Elems(jobs) == {};
  }

  lemma AgreeOnPrefix<J>(jobs: seq<J>, k: nat, a: set<J>, b: set<J>)
    requires k < |jobs| && a * Elems(jobs[..k]) == b * Elems(jobs[..k])
    requires jobs[k] in a <==> jobs[k] in b
    ensures a * Elems(jobs[..k + 1]) == b * Elems(jobs[..k + 1])
  {
    ElemsNext(jobs, k);
    AgreeNext(a, b, Elems(jobs[..k]), jobs[k]);
  }

  lemma ServedAlike<J(!new), S(!new)>(jobs: seq<J>, k: nat, e: map<J, seq<S>>, m: map<J, S>, m': map<J, S>)
    requires Distinct(jobs) && k < |jobs|
    requires PriorityOptimal(jobs, e, m) && IsMatching(Elems(jobs), e, m')
    requires m.Keys * Elems(jobs[..k]) == m'.Keys * Elems(jobs[..k])
    ensures jobs[k] in m' ==> jobs[k] in m
  {
    if jobs[k] !in m {
      LeftOverCannotDisplace(jobs, e, m, k, m');
    }
  }
}
