/** IngestionPipeline.run (ingestion/fineract_ingest/pipeline.py): the selected entities one after the other,
    and what holds of every state committed on the way. */
module PipelineRun {
  import opened BatchMapping
  import opened Loader
  import opened PostgresConnection
  import opened EntityRun
  import opened RunHistory

  /** One selected entity with what the environment does to its run. */
  datatype Job = Job(spec: Spec, judge: Judge, request: Request)

  /** Every committed state from `from` on is one whose change stream rebuilds its tables. */
  ghost predicate StreamsComplete(log: seq<Db>, from: nat) {
    forall j :: from <= j < |log| ==> WalBuildsTables(log[j])
  }

  /** What the outcome says about how the run left the database `db` it started from. */
  ghost predicate Tells(db: Db, r: PastRun, out: Outcome)
    requires r.spec.table in db.tables
  {
    match out
    case Raised => true
    case Returned(status, result) =>
      && (status == Succeeded ==>
            r.ending.Landed? && result == BatchCounts(db, r.spec, r.ending.batch, r.batchSize))
      && (status == Skipped ==> r.ending.MarkedSkipped? && result == DryCounts(r.ending.batch))
      && (status == Failed ==> result == NOTHING)
      && status != Running && !r.ending.NotStarted?
  }

  lemma StatesKeepStreams(db: Db, run: Db, spec: Spec, id: string, batchSize: int, ending: Ending, batch: Batch,
                          before: seq<Db>, after: seq<Db>, from: nat)
    requires spec.table in db.tables && WalBuildsTables(db) && run == After(db, spec, id, batchSize, ending)
    requires StreamsComplete(before, from)
    requires if ending.NotStarted? then after == before
             else Committed(before + [Started(db, spec, id)], after, run,
                          if HasLanded(ending) then LandedDb(Started(db, spec, id), |db.runs|, spec, batch, batchSize)
                          else run)
    ensures StreamsComplete(after, from)
  {
    if !ending.NotStarted? {
      AfterKeepsWal(db, spec, id, batchSize, ending);
      AfterKeepsWal(db, spec, id, batchSize, LeftRunning);
      AfterKeepsWal(db, spec, id, batchSize, Landed(batch));
      var head := before + [Started(db, spec, id)];
      forall j | from <= j < |after| ensures WalBuildsTables(after[j]) {
        if j < |head| {
          assert after[j] == head[j];
        }
      }
    }
  }

  lemma ReplayedPush(db: Db, past: seq<PastRun>, r: PastRun)
    requires Runnable(db, past) && r.spec.table in db.tables
    ensures Runnable(db, past + [r])
    ensures Replayed(db, past + [r]) == After(Replayed(db, past), r.spec, r.id, r.batchSize, r.ending)
  {
    assert (past + [r])[..|past|] == past;
  }

  /** The run of a job sent the statements from `clock` up to `clock'`, with the batch made of what was fetched for it:
      it did not start, or it ended as the failures of the server among these statements make it end. */
  ghost predicate RanAt(job: Job, r: PastRun, script: seq<bool>, clock: nat, clock': nat, batch: Batch) {
    && clock' == clock + RunSent(job.request, batch, script, clock, r.batchSize)
    && (r.ending.NotStarted? <==> !Fine(script, clock, 2))
    && (!r.ending.NotStarted? ==>
          && (job.request.fetched.Success? ==> BatchOf(job.spec, job.judge, job.request, batch))
          && Ends(r.ending, job.request, batch, script, clock + 2, r.batchSize)
          && (HasLanded(r.ending) || r.ending.MarkedSkipped? ==> r.ending.batch == batch))
  }

  /** The run is one of this job, over exactly these statements of the script. */
  ghost predicate RunOf(job: Job, r: PastRun, script: seq<bool>, clock: nat, clock': nat) {
    && r.spec == job.spec && r.id == job.request.id
    && exists batch: Batch :: RanAt(job, r, script, clock, clock', batch)
  }

  /** What a run landed is what mapping and validation made of the records fetched for its job. */
  lemma LandedWhatWasFetched(job: Job, r: PastRun, script: seq<bool>, clock: nat, clock': nat)
    requires RunOf(job, r, script, clock, clock') && HasLanded(r.ending)
    ensures BatchOf(job.spec, job.judge, job.request, r.ending.batch)
    ensures !job.request.dryRun
            && GatesPass(r.ending.batch, |job.request.fetched.value|, job.request.maxRejectRatio)
  {
    var batch: Batch :| RanAt(job, r, script, clock, clock', batch);
    MarkedFailedAfterLandingIff(r.ending, job.request, batch, script, clock + 2, r.batchSize);
  }

  /** The runs so far are those of the first jobs, one after the other: run i sent the statements from clocks[i] up to
      clocks[i + 1], so between them they used up the script in order, each statement once. */
  ghost predicate RunsOf(jobs: seq<Job>, past: seq<PastRun>, script: seq<bool>, clocks: seq<nat>) {
    && |past| <= |jobs| && |clocks| == |past| + 1
    && forall i :: 0 <= i < |past| ==> RunOf(jobs[i], past[i], script, clocks[i], clocks[i + 1])
  }

  /** Each outcome tells how its run left the database its predecessors had left. */
  ghost predicate ToldOf(db: Db, past: seq<PastRun>, outcomes: seq<Outcome>)
    requires Runnable(db, past)
  {
    |outcomes| <= |past| && forall i :: 0 <= i < |outcomes| ==> OneTold(db, past, outcomes, i)
  }

  ghost predicate OneTold(db: Db, past: seq<PastRun>, outcomes: seq<Outcome>, i: nat)
    requires Runnable(db, past) && i < |outcomes| <= |past|
  {
    outcomes[i].Returned? && Tells(Replayed(db, past[..i]), past[i], outcomes[i])
  }

  lemma ToldPush(db: Db, past: seq<PastRun>, outcomes: seq<Outcome>, r: PastRun, out: Outcome)
    requires Runnable(db, past) && r.spec.table in db.tables && |outcomes| == |past| && ToldOf(db, past, outcomes)
    requires Tells(Replayed(db, past), r, out)
    ensures Runnable(db, past + [r]) && ToldOf(db, past + [r], outcomes)
    ensures out.Returned? ==> ToldOf(db, past + [r], outcomes + [out])
  {
    var more, told := past + [r], outcomes + [out];
    forall i | 0 <= i < |outcomes| ensures OneTold(db, more, outcomes, i) && OneTold(db, more, told, i) {
      assert OneTold(db, past, outcomes, i);
      assert more[..i] == past[..i];
    }
    assert more[..|past|] == past;
  }

  /** The loop after some turns: what the database holds, what was told, and what was ever committed. */
  ghost predicate Sofar(
      db: Db, jobs: seq<Job>, past: seq<PastRun>, outcomes: seq<Outcome>, now: Db, log: seq<Db>, from: nat,
      script: seq<bool>, clocks: seq<nat>, clock: nat)
  {
    && Runnable(db, past) && now == Replayed(db, past)
    && RunsOf(jobs, past, script, clocks) && clocks[|past|] == clock && ToldOf(db, past, outcomes)
    && StreamsComplete(log, from)
  }

  ghost predicate Ready(db: Db, job: Job) {
    job.spec.table in db.tables && KeepsKeys(job.spec.primaryKey, job.judge)
  }

  /** What run_entity promises, in the terms of this module. */
  lemma JobDone(
      job: Job, r: PastRun, script: seq<bool>, start: Db, clock: nat, before: seq<Db>, out: Outcome, batch: Batch,
      now: Db, clock': nat, after: seq<Db>, from: nat)
    requires job.spec.table in start.tables && WalBuildsTables(start) && StreamsComplete(before, from)
    requires r.spec == job.spec && r.id == job.request.id
    requires EntityRan(job.spec, job.judge, job.request, script, r.batchSize, start, clock, before, out, batch,
                       r.ending, now, clock', after)
    ensures RunOf(job, r, script, clock, clock') && Tells(start, r, out) && StreamsComplete(after, from)
    ensures out.Raised? ==> r.ending.NotStarted? || job.request.handlerFails
  {
    StatesKeepStreams(start, now, job.spec, job.request.id, r.batchSize, r.ending, batch, before, after, from);
    assert RanAt(job, r, script, clock, clock', batch);
  }

  /** The call of run_entity in the loop. */
  method RunJob(loader: PostgresLoader, job: Job, ghost db: Db, ghost past: seq<PastRun>, ghost from: nat)
    returns (out: Outcome, ghost r: PastRun)
    requires Runnable(db, past) && loader.pending == loader.committed == Replayed(db, past)
    requires job.spec.table in db.tables && KeepsKeys(job.spec.primaryKey, job.judge)
    requires WalBuildsTables(db) && StreamsComplete(loader.log, from)
    modifies loader
    ensures RunOf(job, r, loader.script, old(loader.clock), loader.clock) && r.batchSize == loader.batchSize
    ensures Runnable(db, past + [r]) && loader.pending == loader.committed == Replayed(db, past + [r])
    ensures Tells(Replayed(db, past), r, out)
    ensures out.Raised? ==> r.ending.NotStarted? || job.request.handlerFails
    ensures StreamsComplete(loader.log, from)
  {
    ghost var start, clock, log := loader.committed, loader.clock, loader.log;
    ChangeStreamIsComplete(db, past);
    ghost var batch, ending;
    out, batch, ending := RunEntity(loader, job.spec, job.judge, job.request);
    r := PastRun(job.spec, job.request.id, loader.batchSize, ending);
    ReplayedPush(db, past, r);
    JobDone(job, r, loader.script, start, clock, log, out, batch, loader.committed, loader.clock, loader.log, from);
  }

  lemma RunsPush(
      jobs: seq<Job>, past: seq<PastRun>, script: seq<bool>, r: PastRun, clocks: seq<nat>, clock': nat)
    requires |past| < |jobs| && RunsOf(jobs, past, script, clocks)
    requires RunOf(jobs[|past|], r, script, clocks[|past|], clock')
    ensures RunsOf(jobs, past + [r], script, clocks + [clock'])
  {
    var more, longer := past + [r], clocks + [clock'];
    forall i | 0 <= i < |more| ensures RunOf(jobs[i], more[i], script, longer[i], longer[i + 1]) {
      if i < |past| {
        assert RunOf(jobs[i], past[i], script, clocks[i], clocks[i + 1]);
      }
    }
  }

  lemma SofarPush(
      db: Db, jobs: seq<Job>, past: seq<PastRun>, outcomes: seq<Outcome>, r: PastRun, out: Outcome,
      now: Db, log: seq<Db>, from: nat, script: seq<bool>, clocks: seq<nat>, clock': nat)
    requires |past| == |outcomes| < |jobs|
    requires Runnable(db, past) && RunsOf(jobs, past, script, clocks) && ToldOf(db, past, outcomes)
    requires RunOf(jobs[|past|], r, script, clocks[|past|], clock') && r.spec.table in db.tables
    requires Tells(Replayed(db, past), r, out) && StreamsComplete(log, from)
    requires Runnable(db, past + [r]) && now == Replayed(db, past + [r])
    ensures Sofar(db, jobs, past + [r], if out.Raised? then outcomes else outcomes + [out], now, log, from, script,
                  clocks + [clock'], clock')
  {
    ToldPush(db, past, outcomes, r, out);
    RunsPush(jobs, past, script, r, clocks, clock');
  }

  /** One turn of the loop: run the next job and append its outcome, unless it raised. */
  method Turn(
      loader: PostgresLoader, jobs: seq<Job>, outcomes: seq<Outcome>, ghost db: Db, ghost past: seq<PastRun>,
      ghost from: nat, ghost clocks: seq<nat>)
    returns (outcomes': seq<Outcome>, raised: bool, ghost past': seq<PastRun>, ghost clocks': seq<nat>)
    requires |past| == |outcomes| < |jobs| && Ready(db, jobs[|outcomes|]) && WalBuildsTables(db)
    requires loader.pending == loader.committed
    requires Sofar(db, jobs, past, outcomes, loader.committed, loader.log, from, loader.script, clocks, loader.clock)
    modifies loader
    ensures loader.pending == loader.committed
    ensures Sofar(db, jobs, past', outcomes', loader.committed, loader.log, from, loader.script, clocks', loader.clock)
    ensures clocks' == clocks + [loader.clock]
    ensures |past'| == |past| + 1 && |outcomes'| == |outcomes| + if raised then 0 else 1
    ensures if raised then outcomes' == outcomes else outcomes' == outcomes + [outcomes'[|outcomes|]]
    ensures !raised ==> outcomes'[|outcomes|].Returned?
    ensures raised ==> past'[|outcomes|].ending.NotStarted? || jobs[|outcomes|].request.handlerFails
  {
    var out;
    ghost var r;
    out, r := RunJob(loader, jobs[|outcomes|], db, past, from);
    SofarPush(db, jobs, past, outcomes, r, out, loader.committed, loader.log, from, loader.script, clocks,
              loader.clock);
    past', clocks' := past + [r], clocks + [loader.clock];
    raised := out.Raised?;
    outcomes' := if raised then outcomes else outcomes + [out];
  }

  predicate Broken(out: Outcome) {
    out.Returned? && out.status == Failed
  }

  /** run.  The database is always what replaying the runs so far gives, whatever failed in any of them; the
      runs use up the server's script one after the other, each ending as its own statements make it end; the
      loop stops early only on an exception, or with fail_fast on a failed entity; and at no point between
      two statements would a crash leave a committed state whose change stream misses a row. */
  method Run(loader: PostgresLoader, jobs: seq<Job>, failFast: bool)
    returns (outcomes: seq<Outcome>, raised: bool, ghost past: seq<PastRun>, ghost clocks: seq<nat>)
    requires loader.pending == loader.committed && WalBuildsTables(loader.committed)
    requires forall i :: 0 <= i < |jobs| ==> Ready(loader.committed, jobs[i])
    modifies loader
    ensures loader.pending == loader.committed
    ensures Sofar(old(loader.committed), jobs, past, outcomes, loader.committed, loader.log, |old(loader.log)|,
                  loader.script, clocks, loader.clock)
    ensures clocks[0] == old(loader.clock)
    ensures |past| == |outcomes| + (if raised then 1 else 0)
    ensures raised ==> past[|outcomes|].ending.NotStarted? || jobs[|outcomes|].request.handlerFails
    ensures !raised && |outcomes| < |jobs| ==>
              failFast && outcomes != [] && outcomes[|outcomes| - 1].Returned?
              && outcomes[|outcomes| - 1].status == Failed
    ensures failFast ==>
              forall i :: 0 <= i < |outcomes| - 1 ==> outcomes[i].Returned? ==> outcomes[i].status != Failed
  {
    ghost var db, from := loader.committed, |loader.log|;
    outcomes, raised, past, clocks := [], false, [], [loader.clock];
    while |outcomes| < |jobs|
      invariant loader.pending == loader.committed && !raised && |past| == |outcomes| <= |jobs|
      invariant Sofar(db, jobs, past, outcomes, loader.committed, loader.log, from, loader.script, clocks,
                      loader.clock)
      invariant clocks[0] == old(loader.clock)
      invariant failFast ==> forall i :: 0 <= i < |outcomes| ==> !Broken(outcomes[i])
      decreases |jobs| - |outcomes|
    {
      outcomes, raised, past, clocks := Turn(loader, jobs, outcomes, db, past, from, clocks);
      if raised || (failFast && Broken(outcomes[|outcomes| - 1])) {
        return;
      }
    }
  }
}
