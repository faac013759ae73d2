/**
 One round of the matcher of capacity.py: the breadth-first search for an augmenting path from a root
 job, and the path flipped slot by slot. `eligible[j]` are the slots job `j` may take.
 */
module AugmentingPaths {
  import opened Wrappers
  import opened FiniteSets

  ghost predicate Inverse<J, S>(jobToSlot: map<J, S>, slotToJob: map<S, J>) {
    && (forall j :: j in jobToSlot ==> jobToSlot[j] in slotToJob && slotToJob[jobToSlot[j]] == j)
    && (forall s :: s in slotToJob ==> slotToJob[s] in jobToSlot && jobToSlot[slotToJob[s]] == s)
  }

  ghost predicate Eligible<J, S>(eligible: map<J, seq<S>>, jobToSlot: map<J, S>) {
    forall j :: j in jobToSlot ==> j in eligible && jobToSlot[j] in eligible[j]
  }

  /** Every slot that a job of `c` may take is held by a job of `c`. */
  ghost predicate Closed<J, S>(c: set<J>, eligible: map<J, seq<S>>, slotToJob: map<S, J>) {
    && c <= eligible.Keys
    && forall j, s :: j in c && s in eligible[j] ==> s in slotToJob && slotToJob[s] in c
  }

  /**
   The search tree: `parent[s]` is the job from which slot `s` was reached, and `rank` numbers the
   slots in the order of discovery, so that walking from a slot to its parent's present slot goes
   back in that order and ends at the root.
   */
  ghost predicate SearchTree<J, S>(root: J, eligible: map<J, seq<S>>, jobToSlot: map<J, S>,
                                   parent: map<S, J>, rank: map<S, nat>)
  {
    && parent.Keys == rank.Keys
    && forall s {:trigger parent[s]} :: s in parent ==>
                     && rank[s] < |parent|
                     && parent[s] in eligible && s in eligible[parent[s]]
                     && (parent[s] == root || (parent[s] in jobToSlot
                                               && jobToSlot[parent[s]] in rank
                                               && rank[jobToSlot[parent[s]]] < rank[s]))
  }

  /** Every visited slot is held by a visited job, and every visited job but the root was reached through its slot. */
  ghost predicate SearchInvariant<J, S>(root: J, jobToSlot: map<J, S>, slotToJob: map<S, J>,
                                        visitedJobs: set<J>, parent: map<S, J>)
  {
    && root in visitedJobs && visitedJobs <= jobToSlot.Keys + {root}
    && (forall j :: j in visitedJobs && j != root ==> jobToSlot[j] in parent)
    && (forall s :: s in parent ==> s in slotToJob && slotToJob[s] in visitedJobs)
  }

  ghost predicate Reached<J, S>(slots: seq<S>, count: nat, parent: map<S, J>)
    requires count <= |slots|
  {
    forall n :: 0 <= n < count ==> slots[n] in parent
  }

  lemma ReachedNext<J, S>(slots: seq<S>, count: nat, before: map<S, J>, parent: map<S, J>)
    requires count < |slots| && Reached(slots, count, before)
    requires parent.Keys == before.Keys + {slots[count]}
    ensures Reached(slots, count + 1, parent)
  {
  }

  ghost predicate Exhausted<J, S>(job: J, eligible: map<J, seq<S>>, parent: map<S, J>) {
    job in eligible && forall s :: s in eligible[job] ==> s in parent
  }

  lemma GrowTree<J, S>(root: J, job: J, slot: S, eligible: map<J, seq<S>>, jobToSlot: map<J, S>,
                       parent: map<S, J>, rank: map<S, nat>)
    requires SearchTree(root, eligible, jobToSlot, parent, rank)
    requires slot !in parent && job in eligible && slot in eligible[job]
    requires job == root || (job in jobToSlot && jobToSlot[job] in parent)
    ensures SearchTree(root, eligible, jobToSlot, parent[slot := job], rank[slot := |parent|])
  {
    assert |parent[slot := job].Keys| == |parent.Keys + {slot}| == |parent| + 1;
  }

  lemma GrowVisited<J, S>(root: J, slot: S, job: J, jobToSlot: map<J, S>, slotToJob: map<S, J>,
                          visitedJobs: set<J>, parent: map<S, J>)
    requires Inverse(jobToSlot, slotToJob) && slot in slotToJob
    requires SearchInvariant(root, jobToSlot, slotToJob, visitedJobs, parent)
    ensures SearchInvariant(root, jobToSlot, slotToJob, visitedJobs + {slotToJob[slot]}, parent[slot := job])
  {
  }

  /** The queue grows at its end, by exactly the newly visited jobs. */
  ghost predicate Extends<J>(queueIn: seq<J>, visitedIn: set<J>, queue: seq<J>, visitedJobs: set<J>) {
    && queueIn <= queue && visitedIn <= visitedJobs
    && |queue| - |queueIn| == |visitedJobs| - |visitedIn|
    && (forall j :: j in queue ==> j in visitedJobs)
    && (forall j :: j in visitedJobs && j !in visitedIn ==> j in queue)
  }

  lemma ExtendsTransitive<J>(q0: seq<J>, v0: set<J>, q1: seq<J>, v1: set<J>, q2: seq<J>, v2: set<J>)
    requires Extends(q0, v0, q1, v1) && Extends(q1, v1, q2, v2)
    ensures Extends(q0, v0, q2, v2)
  {
  }

  /** The incumbent of a slot is queued, unless it has been visited. */
  method QueueJob<J(==)>(queueIn: seq<J>, visitedIn: set<J>, incumbent: J) returns (queue: seq<J>, visitedJobs: set<J>)
    requires forall j :: j in queueIn ==> j in visitedIn
    ensures visitedJobs == visitedIn + {incumbent} && Extends(queueIn, visitedIn, queue, visitedJobs)
  {
    queue, visitedJobs := queueIn, visitedIn;
    if incumbent !in visitedJobs {
      visitedJobs := visitedJobs + {incumbent};
      queue := queue + [incumbent];
    }
  }

  /** Reach a slot for the first time: it is free, or its present holder is queued unless already visited. */
  method VisitSlot<J(==), S(==)>(root: J, job: J, slot: S, eligible: map<J, seq<S>>,
                                 jobToSlot: map<J, S>, slotToJob: map<S, J>,
                                 queueIn: seq<J>, visitedIn: set<J>, parentIn: map<S, J>, ghost rankIn: map<S, nat>)
    returns (isFree: bool, queue: seq<J>, visitedJobs: set<J>, parent: map<S, J>, ghost rank: map<S, nat>)
    requires Inverse(jobToSlot, slotToJob)
    requires SearchTree(root, eligible, jobToSlot, parentIn, rankIn)
    requires SearchInvariant(root, jobToSlot, slotToJob, visitedIn, parentIn)
    requires job in eligible && job in visitedIn && slot in eligible[job] && slot !in parentIn
    requires forall j :: j in queueIn ==> j in visitedIn
    ensures SearchTree(root, eligible, jobToSlot, parent, rank)
    ensures parent == parentIn[slot := job] && parent.Keys == parentIn.Keys + {slot}
    ensures isFree <==> slot !in slotToJob
    ensures !isFree ==>
              && SearchInvariant(root, jobToSlot, slotToJob, visitedJobs, parent)
              && Extends(queueIn, visitedIn, queue, visitedJobs)
  {
    isFree, queue, visitedJobs := false, queueIn, visitedIn;
    GrowTree(root, job, slot, eligible, jobToSlot, parentIn, rankIn);
    parent, rank := parentIn[slot := job], rankIn[slot := |parentIn|];
    if slot !in slotToJob {
      isFree := true;
      return;
    }
    GrowVisited(root, slot, job, jobToSlot, slotToJob, visitedJobs, parentIn);
    queue, visitedJobs := QueueJob(queue, visitedJobs, slotToJob[slot]);
  }

  /** Slots reached before are skipped and keep their parents; those new hang from the job. */
  ghost predicate GrownFrom<J, S>(job: J, parentIn: map<S, J>, parent: map<S, J>) {
    && (forall slot :: slot in parentIn ==> slot in parent && parent[slot] == parentIn[slot])
    && (forall slot :: slot in parent && slot !in parentIn ==> parent[slot] == job)
  }

  lemma GrownNext<J, S>(job: J, parentIn: map<S, J>, parent: map<S, J>, slot: S)
    requires GrownFrom(job, parentIn, parent) && slot !in parent
    ensures GrownFrom(job, parentIn, parent[slot := job])
  {
  }

  /** The visit of one job: look at its slots in order, and stop at the first that is free. */
  method ScanSlots<J(==), S(==)>(root: J, job: J, eligible: map<J, seq<S>>, jobToSlot: map<J, S>, slotToJob: map<S, J>,
                                 queueIn: seq<J>, visitedIn: set<J>, parentIn: map<S, J>, ghost rankIn: map<S, nat>)
    returns (free: Option<S>, queue: seq<J>, visitedJobs: set<J>, parent: map<S, J>, ghost rank: map<S, nat>)
    requires Inverse(jobToSlot, slotToJob)
    requires SearchTree(root, eligible, jobToSlot, parentIn, rankIn)
    requires SearchInvariant(root, jobToSlot, slotToJob, visitedIn, parentIn)
    requires job in eligible && job in visitedIn
    requires forall j :: j in queueIn ==> j in visitedIn
    ensures SearchTree(root, eligible, jobToSlot, parent, rank)
    ensures GrownFrom(job, parentIn, parent)
    ensures free.Some? ==> free.value in parent && free.value !in slotToJob
    ensures free.None? ==>
              && SearchInvariant(root, jobToSlot, slotToJob, visitedJobs, parent)
              && Exhausted(job, eligible, parent) && parentIn.Keys <= parent.Keys
              && Extends(queueIn, visitedIn, queue, visitedJobs)
  {
    free, queue, visitedJobs, parent, rank := None, queueIn, visitedIn, parentIn, rankIn;
    var slots := eligible[job];
    var i := 0;
    while i < |slots| && free.None?
      invariant 0 <= i <= |slots|
      invariant SearchTree(root, eligible, jobToSlot, parent, rank)
      invariant free.Some? ==> free.value in parent && free.value !in slotToJob
      invariant GrownFrom(job, parentIn, parent) && parentIn.Keys <= parent.Keys
      invariant free.None? ==> SearchInvariant(root, jobToSlot, slotToJob, visitedJobs, parent)
      invariant free.None? ==> Extends(queueIn, visitedIn, queue, visitedJobs)
      invariant Reached(slots, i, parent)
      decreases |slots| - i
    {
      var slot := slots[i];
      ghost var before := parent;
      if slot !in parent {
        var isFree;
        GrownNext(job, parentIn, parent, slot);
        ghost var waiting, seen := queue, visitedJobs;
        isFree, queue, visitedJobs, parent, rank :=
          VisitSlot(root, job, slot, eligible, jobToSlot, slotToJob, queue, visitedJobs, parent, rank);
        if isFree {
          free := Some(slot);
        } else {
          ExtendsTransitive(queueIn, visitedIn, waiting, seen, queue, visitedJobs);
        }
      }
      ReachedNext(slots, i, before, parent);
      i := i + 1;
    }
  }

  lemma VisitKeepsExhausted<J, S>(waiting: seq<J>, queue: seq<J>, seen: set<J>, visitedJobs: set<J>,
                                  eligible: map<J, seq<S>>, reached: map<S, J>, parent: map<S, J>)
    requires waiting != [] && reached.Keys <= parent.Keys && Extends(waiting[1..], seen, queue, visitedJobs)
    requires forall j :: j in seen && j !in waiting ==> Exhausted(j, eligible, reached)
    requires Exhausted(waiting[0], eligible, parent)
    ensures forall j :: j in visitedJobs && j !in queue ==> Exhausted(j, eligible, parent)
  {
    forall j | j in visitedJobs && j !in queue
      ensures Exhausted(j, eligible, parent)
    {
      if j != waiting[0] {
        assert waiting == [waiting[0]] + waiting[1..];
        assert j !in waiting[1..];
        assert Exhausted(j, eligible, reached);
      }
    }
  }

  lemma SearchFailureIsClosed<J, S>(root: J, eligible: map<J, seq<S>>, jobToSlot: map<J, S>, slotToJob: map<S, J>,
                                    visitedJobs: set<J>, parent: map<S, J>)
    requires SearchInvariant(root, jobToSlot, slotToJob, visitedJobs, parent)
    requires forall j :: j in visitedJobs ==> Exhausted(j, eligible, parent)
    ensures Closed(visitedJobs, eligible, slotToJob)
  {
    forall j, s | j in visitedJobs && s in eligible[j]
      ensures s in slotToJob && slotToJob[s] in visitedJobs
    {
      assert Exhausted(j, eligible, parent);
    }
  }

  /** Breadth-first search from `root` for a slot nobody holds; a failed search yields a closed job set. */
  method FindFreeSlot<J(==), S(==)>(root: J, eligible: map<J, seq<S>>, jobToSlot: map<J, S>, slotToJob: map<S, J>)
    returns (free: Option<S>, parent: map<S, J>, ghost rank: map<S, nat>, ghost closure: set<J>)
    requires root in eligible && root !in jobToSlot
    requires Inverse(jobToSlot, slotToJob) && Eligible(eligible, jobToSlot)
    ensures SearchTree(root, eligible, jobToSlot, parent, rank)
    ensures free.Some? ==> free.value in parent && free.value !in slotToJob
    ensures free.None? ==> root in closure && closure <= jobToSlot.Keys + {root}
                           && Closed(closure, eligible, slotToJob)
  {
    var queue := [root];
    var visitedJobs := {root};
    parent, free, rank := map[], None, map[];
    while queue != [] && free.None?
      invariant SearchTree(root, eligible, jobToSlot, parent, rank)
      invariant free.Some? ==> free.value in parent && free.value !in slotToJob
      invariant free.None? ==> SearchInvariant(root, jobToSlot, slotToJob, visitedJobs, parent)
      invariant free.None? ==> visitedJobs <= eligible.Keys && forall j :: j in queue ==> j in visitedJobs
      invariant free.None? ==> forall j :: j in visitedJobs && j !in queue ==> Exhausted(j, eligible, parent)
      decreases free.None?, |jobToSlot.Keys + {root}| - |visitedJobs|, |queue|
    {
      var job := queue[0];
      ghost var waiting, seen, reached := queue, visitedJobs, parent;
      free, queue, visitedJobs, parent, rank :=
        ScanSlots(root, job, eligible, jobToSlot, slotToJob, queue[1..], visitedJobs, parent, rank);
      if free.None? {
        VisitKeepsExhausted(waiting, queue, seen, visitedJobs, eligible, reached, parent);
        SubsetCard(seen, visitedJobs);
        SubsetCard(visitedJobs, jobToSlot.Keys + {root});
      }
    }
    closure := visitedJobs;
    if free.None? {
      SearchFailureIsClosed(root, eligible, jobToSlot, slotToJob, closure, parent);
    }
  }

  /** While a path is being flipped, `hole` is the one slot whose entry in slotToJob may be out of date. */
  ghost predicate InverseBut<J, S>(jobToSlot: map<J, S>, slotToJob: map<S, J>, hole: S) {
    && (forall j :: j in jobToSlot ==>
        jobToSlot[j] != hole && jobToSlot[j] in slotToJob && slotToJob[jobToSlot[j]] == j)
    && (forall s :: s in slotToJob && s != hole ==> slotToJob[s] in jobToSlot && jobToSlot[slotToJob[s]] == s)
  }

  /** The jobs whose slot has moved so far had slots that were discovered no earlier than the hole. */
  ghost predicate MovedFrom<J, S>(original: map<J, S>, jobToSlot: map<J, S>, rank: map<S, nat>, hole: S)
    requires hole in rank
  {
    && original.Keys == jobToSlot.Keys
    && forall j {:trigger jobToSlot[j]} :: j in original ==>
         jobToSlot[j] == original[j] || (original[j] in rank && rank[original[j]] >= rank[hole])
  }

  ghost predicate OutOfReach<J, S>(slot: S, c: set<J>, eligible: map<J, seq<S>>) {
    forall j :: j in c && j in eligible ==> slot !in eligible[j]
  }

  ghost predicate Unmoved<J, S>(c: set<J>, original: map<J, S>, jobToSlot: map<J, S>) {
    forall j :: j in c && j in original ==> j in jobToSlot && jobToSlot[j] == original[j]
  }

  /**
   Flip the path that ends in the free slot: give each slot on it to the job it was reached from, up
   to the root. The jobs of a closed set the root is not in keep their slots.
   */
  method FlipPath<J(==), S(==)>(root: J, free: S, parent: map<S, J>, ghost rank: map<S, nat>, eligible: map<J, seq<S>>,
                                jobToSlotIn: map<J, S>, slotToJobIn: map<S, J>, ghost closed: set<J>)
    returns (jobToSlot: map<J, S>, slotToJob: map<S, J>)
    requires Inverse(jobToSlotIn, slotToJobIn) && Eligible(eligible, jobToSlotIn)
    requires SearchTree(root, eligible, jobToSlotIn, parent, rank)
    requires root !in jobToSlotIn && free in parent && free !in slotToJobIn
    requires Closed(closed, eligible, slotToJobIn) && root !in closed
    ensures Inverse(jobToSlot, slotToJob) && Eligible(eligible, jobToSlot)
    ensures jobToSlot.Keys == jobToSlotIn.Keys + {root}
    ensures Closed(closed, eligible, slotToJob) && Unmoved(closed, jobToSlotIn, jobToSlot)
  {
    jobToSlot, slotToJob := jobToSlotIn, slotToJobIn;
    var freeSlot: Option<S> := Some(free);
    while freeSlot.Some?
      invariant Eligible(eligible, jobToSlot)
      invariant Closed(closed, eligible, slotToJob) && Unmoved(closed, jobToSlotIn, jobToSlot)
      invariant freeSlot.None? ==> Inverse(jobToSlot, slotToJob) && jobToSlot.Keys == jobToSlotIn.Keys + {root}
      invariant freeSlot.Some? ==> freeSlot.value in parent && InverseBut(jobToSlot, slotToJob, freeSlot.value)
      invariant freeSlot.Some? ==> MovedFrom(jobToSlotIn, jobToSlot, rank, freeSlot.value)
      invariant freeSlot.Some? ==> OutOfReach(freeSlot.value, closed, eligible)
      decreases if freeSlot.Some? then 1 + rank[freeSlot.value] else 0
    {
      var slot := freeSlot.value;
      var job := parent[slot];
      FlipStep(root, slot, parent, rank, eligible, jobToSlotIn, jobToSlot, slotToJob, closed);
      freeSlot := if job in jobToSlot then Some(jobToSlot[job]) else None;
      slotToJob := slotToJob[slot := job];
      jobToSlot := jobToSlot[job := slot];
    }
  }

  lemma FlipStep<J, S>(root: J, slot: S, parent: map<S, J>, rank: map<S, nat>, eligible: map<J, seq<S>>,
                       original: map<J, S>, jobToSlot: map<J, S>, slotToJob: map<S, J>, closed: set<J>)
    requires SearchTree(root, eligible, original, parent, rank) && root !in original && slot in parent
    requires Eligible(eligible, jobToSlot) && InverseBut(jobToSlot, slotToJob, slot)
    requires MovedFrom(original, jobToSlot, rank, slot)
    requires Closed(closed, eligible, slotToJob) && Unmoved(closed, original, jobToSlot)
    requires OutOfReach(slot, closed, eligible)
    ensures var job := parent[slot];
            var jobToSlot', slotToJob' := jobToSlot[job := slot], slotToJob[slot := job];
            && Eligible(eligible, jobToSlot')
            && Closed(closed, eligible, slotToJob') && Unmoved(closed, original, jobToSlot')
            && if job in jobToSlot then
                 var next := jobToSlot[job];
                 && next in parent && rank[next] < rank[slot]
                 && InverseBut(jobToSlot', slotToJob', next)
                 && MovedFrom(original, jobToSlot', rank, next)
                 && OutOfReach(next, closed, eligible)
               else
                 && Inverse(jobToSlot', slotToJob')
                 && jobToSlot'.Keys == original.Keys + {root}
  {
    var job := parent[slot];
    assert job !in closed;
    if job in jobToSlot {
      assert original[job] in rank && rank[original[job]] < rank[slot];
      assert jobToSlot[job] == original[job];
    }
  }
}
