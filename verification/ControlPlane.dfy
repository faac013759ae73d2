/** The job queue and the evidence ledger of one tenant together: runs are stored before jobs complete. */
module ControlPlane {
  import opened Wrappers
  import opened Models
  import E = EvidenceStore
  import H = EvidenceHistory
  import Q = JobQueue
  import R = EvidenceRecords

  datatype World = World(queue: Q.Queue, evidence: E.State)

  /** evaluation_jobs.run_id refers to evaluation_runs: these are the run ids stored there. */
  function StoredRuns(evidence: E.State): (runs: set<RunId>)
    ensures forall id: RunId :: id in runs <==> R.Key("run", id) in evidence.sources
  {
    set key | key in evidence.sources && key.artifactType == "run" :: key.artifactId
  }

  /** A queue step, or an evidence transaction; saving a run is the latter. */
  datatype WorldEvent = QueueEvent(e: Q.Event) | EvidenceEvent(ev: H.Event)

  ghost predicate Admissible(event: WorldEvent) {
    match event
    case QueueEvent(e) => !e.SaveRun?
    case EvidenceEvent(ev) => H.Admissible(ev)
  }

  function Step(crypto: R.Crypto, tenant: string, w: World, event: WorldEvent): (w': World) {
    match event
    case QueueEvent(e) => if Q.Enabled(w.queue, e) then w.(queue := Q.Apply(w.queue, e)) else w
    case EvidenceEvent(ev) =>
      var evidence := H.Apply(crypto, tenant, w.evidence, ev);
      World(w.queue.(runs := StoredRuns(evidence)), evidence)
  }

  function Run(crypto: R.Crypto, tenant: string, quota: Option<Q.Quota>, now: int, events: seq<WorldEvent>)
    : (w: World)
  {
    if events == [] then World(Q.Start(quota, now), E.EmptyState)
    else Step(crypto, tenant, Run(crypto, tenant, quota, now, events[..|events| - 1]), events[|events| - 1])
  }

  ghost predicate Consistent(crypto: R.Crypto, tenant: string, w: World) {
    && E.Invariant(crypto, tenant, w.evidence)
    && w.queue.runs == StoredRuns(w.evidence)
    && forall id :: id in w.queue.jobs ==> Q.WellFormed(w.queue.jobs[id], w.queue.runs)
  }

  lemma QueueStepConsistent(s: Q.Queue, e: Q.Event)
    requires Q.Enabled(s, e) && !e.SaveRun?
    requires forall id :: id in s.jobs ==> Q.WellFormed(s.jobs[id], s.runs)
    ensures Q.Apply(s, e).runs == s.runs
    ensures forall id :: id in Q.Apply(s, e).jobs ==> Q.WellFormed(Q.Apply(s, e).jobs[id], s.runs)
  {
  }

  lemma RunsGrow(crypto: R.Crypto, tenant: string, s: E.State, ev: H.Event)
    ensures StoredRuns(s) <= StoredRuns(H.Apply(crypto, tenant, s, ev))
  {
  }

  lemma StepConsistent(crypto: R.Crypto, tenant: string, w: World, event: WorldEvent)
    requires R.Sound(crypto) && Consistent(crypto, tenant, w) && Admissible(event)
    ensures Consistent(crypto, tenant, Step(crypto, tenant, w, event))
  {
    match event
    case QueueEvent(e) =>
      if Q.Enabled(w.queue, e) {
        QueueStepConsistent(w.queue, e);
      }
    case EvidenceEvent(ev) =>
      RunsGrow(crypto, tenant, w.evidence, ev);
      match ev
      case SaveEvent(key, payload, signer, replace) =>
        E.SaveKeepsInvariant(crypto, tenant, w.evidence, key, payload, signer, replace);
      case CheckpointEvent(id, now, days, keyId) =>
        E.CheckpointKeepsInvariant(crypto, tenant, w.evidence, id, now, days, keyId);
  }

  lemma {:induction false} RunConsistent(crypto: R.Crypto, tenant: string, quota: Option<Q.Quota>, now: int,
                                         events: seq<WorldEvent>)
    requires R.Sound(crypto) && forall event :: event in events ==> Admissible(event)
    ensures Consistent(crypto, tenant, Run(crypto, tenant, quota, now, events))
  {
    if events != [] {
      var before := events[..|events| - 1];
      assert events[|events| - 1] in events;
      RunConsistent(crypto, tenant, quota, now, before);
      StepConsistent(crypto, tenant, Run(crypto, tenant, quota, now, before), events[|events| - 1]);
    }
  }

  /** The evidence transactions of a run. */
  function EvidenceEvents(events: seq<WorldEvent>): (transactions: seq<H.Event>) {
    if events == [] then []
    else
      var earlier := EvidenceEvents(events[..|events| - 1]);
      match events[|events| - 1]
      case QueueEvent(_) => earlier
      case EvidenceEvent(ev) => earlier + [ev]
  }

  /** The evidence is what its own transactions make of it, whatever the queue does in between. */
  lemma {:induction false} EvidenceIsOwnHistory(crypto: R.Crypto, tenant: string, quota: Option<Q.Quota>, now: int,
                                                events: seq<WorldEvent>)
    requires forall event :: event in events ==> Admissible(event)
    ensures Run(crypto, tenant, quota, now, events).evidence == H.Run(crypto, tenant, EvidenceEvents(events))
    ensures H.AllAdmissible(EvidenceEvents(events))
  {
    if events != [] {
      var before, last := events[..|events| - 1], events[|events| - 1];
      assert last in events;
      EvidenceIsOwnHistory(crypto, tenant, quota, now, before);
      match last
      case QueueEvent(_) =>
      case EvidenceEvent(ev) =>
        var earlier := EvidenceEvents(before);
        assert (earlier + [ev])[..|earlier|] == earlier;
    }
  }

  /**
   In every run, each completed job names a stored run; that run has an entry in the ledger with its
   envelope, and the digest there is the one of the payload it was saved with. What is read back has
   that digest, under the signature made then, exactly when the payload holds no large float, or its
   two texts collide.
   */
  lemma CompletedJobsHaveEvidence(crypto: R.Crypto, tenant: string, quota: Option<Q.Quota>, now: int,
                                  events: seq<WorldEvent>, id: JobId)
    requires R.Sound(crypto) && forall event :: event in events ==> Admissible(event)
    requires var w := Run(crypto, tenant, quota, now, events);
             id in w.queue.jobs && w.queue.jobs[id].status == Completed
    ensures var w := Run(crypto, tenant, quota, now, events);
            var given := H.Given(crypto, tenant, EvidenceEvents(events));
            && w.queue.jobs[id].runId.Some?
            && var key := R.Key("run", w.queue.jobs[id].runId.value);
            && key in w.evidence.sources && key in given
            && E.FindEntry(w.evidence.rows, key).Some?
            && E.FindEntry(w.evidence.rows, key).value.envelope == w.evidence.sources[key].envelope
            && E.HoldsGiven(crypto, w.evidence.sources[key], given[key])
            && (E.Intact(crypto, key, w.evidence.sources[key]) <==> E.ReadsBack(crypto, given[key]))
  {
    RunConsistent(crypto, tenant, quota, now, events);
    EvidenceIsOwnHistory(crypto, tenant, quota, now, events);
    var w := Run(crypto, tenant, quota, now, events);
    var run := w.queue.jobs[id].runId.value;
    var key :| key in w.evidence.sources && key.artifactType == "run" && key.artifactId == run;
    H.RunStores(crypto, tenant, EvidenceEvents(events));
    H.RunReadsBack(crypto, tenant, EvidenceEvents(events), key);
    EntryHasEnvelope(crypto, tenant, w.evidence, key);
  }

  lemma EntryHasEnvelope(crypto: R.Crypto, tenant: string, s: E.State, key: R.Key)
    requires E.Invariant(crypto, tenant, s) && key in s.sources
    ensures E.FindEntry(s.rows, key).Some?
    ensures E.FindEntry(s.rows, key).value.envelope == s.sources[key].envelope
  {
    assert E.FindEntry(s.rows, key).Some?;
    assert E.Backed(crypto, E.FindEntry(s.rows, key).value, s.sources);
  }
}
