/** The operations a listing advertises are the operations the runtime accepts. */
module Capabilities {
  import opened BackgroundTypes
  import opened JobReduction
  import opened RuntimeSteps
  import opened Runs
  import opened RuntimeGuarantees

  datatype Offer = Offer(canPause: bool, canResume: bool, canCancel: bool)

  /** What the job row alone suggests. */
  function StatusOffer(job: Job): Offer {
    Offer(job.header.pausable && PausableStatus(job.status),
          job.status.JobPauseRequested? || job.status.JobPaused?,
          CancellableStatus(job.status))
  }

  /** The list view withdraws pause and cancel while a task is committing. */
  ghost function ListOffer(db: Db, j: nat): Offer
    requires j < |db.jobs|
  {
    var offer := StatusOffer(db.jobs[j]);
    if Committing(db.tasks, j) then offer.(canPause := false, canCancel := false) else offer
  }

  /** The detail view withdraws only cancel. */
  ghost function DetailOffer(db: Db, j: nat): Offer
    requires j < |db.jobs|
  {
    var offer := StatusOffer(db.jobs[j]);
    if Committing(db.tasks, j) then offer.(canCancel := false) else offer
  }

  /** In every reachable state the list offers a pause exactly when PauseJob accepts it, a resume
      exactly when ResumeJob accepts it, and a cancellation exactly when CancelJob accepts it and
      none is pending. */
  lemma ListOfferExact(db: Db, j: nat)
    requires Reachable(db) && j < |db.jobs|
    ensures ListOffer(db, j).canPause <==> PauseVerdict(db, j).Ok?
    ensures ListOffer(db, j).canResume <==> ResumeVerdict(db, j).Ok?
    ensures ListOffer(db, j).canCancel <==> CancelJobVerdict(db, j).Ok? && !db.jobs[j].status.JobCancelRequested?
  {
    hide Reachable, ProgressOf, Rows;
    StoredJobIsReduction(db, j);
  }

  /** In every reachable state the detail view offers resume and cancel as the list does; its pause offer
      is right unless a pausable job is committing, and then it is a pause the runtime refuses. */
  lemma DetailOfferUnsound(db: Db, j: nat)
    requires Reachable(db) && j < |db.jobs|
    ensures DetailOffer(db, j).canResume == ListOffer(db, j).canResume
    ensures DetailOffer(db, j).canCancel == ListOffer(db, j).canCancel
    ensures (DetailOffer(db, j).canPause <==> PauseVerdict(db, j).Ok?)
        <==> !(Committing(db.tasks, j) && db.jobs[j].header.pausable)
    ensures Committing(db.tasks, j) && db.jobs[j].header.pausable ==>
              DetailOffer(db, j).canPause && PauseVerdict(db, j) == CommitStarted
  {
    hide Reachable, ProgressOf, Rows;
    StoredJobIsReduction(db, j);
    if Committing(db.tasks, j) {
      CommittingJob(db, j);
    }
  }

  lemma CommittingJob(db: Db, j: nat)
    requires Reachable(db) && j < |db.jobs| && Committing(db.tasks, j)
    ensures db.jobs[j].status.JobRunning? && OpenJob(db, j)
  {
    hide Reachable, ProgressOf, Rows, Apply, Run;
    StoredJobIsReduction(db, j);
    ReachableInv(db);
    Pieces(db);
    RowsMembers(db.tasks, j);
    var r :| r in db.tasks && r.jobId == j && r.commitStarted && InFlight(r.status);
    var t :| 0 <= t < |db.tasks| && db.tasks[t] == r;
    assert OpenJob(db, j);
    assert r in Rows(db.tasks, j);
  }
}
