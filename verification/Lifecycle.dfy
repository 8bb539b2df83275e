/** Archive items and their queue jobs: attempts, the error handler, the periodic cleanup and the type rename. */
module Lifecycle {
  import opened Models
  import opened Strings

  datatype JobState = Available | Running | Retryable | Scheduled | Pending | Discarded | Completed | Cancelled

  /** A river_job row of kind "archive"; its arguments name the item by short id and type. */
  datatype Job = Job(shortID: string, typ: string, state: JobState, attempt: nat, maxAttempts: nat)

  const HOUR := 3600

  predicate Unfinished(item: Item) {
    item.status == PENDING || item.status == PROCESSING
  }

  predicate KnownStatus(item: Item) {
    Unfinished(item) || item.status == COMPLETED || item.status == FAILED
  }

  /** The item a lookup by short id and exact type finds. */
  predicate IsNamed(shortIDs: seq<string>, item: Item, shortID: string, typ: string) {
    item.captureID < |shortIDs| && shortIDs[item.captureID] == shortID && item.typ == typ
  }

  predicate FirstNamed(shortIDs: seq<string>, items: seq<Item>, shortID: string, typ: string, i: nat) {
    i < |items| && IsNamed(shortIDs, items[i], shortID, typ)
    && forall k :: 0 <= k < i ==> !IsNamed(shortIDs, items[k], shortID, typ)
  }

  // ----- Cleanup

  /** How cleanup pairs a job with an item: by the type as each row spells it. */
  predicate Paired(shortIDs: seq<string>, item: Item, job: Job) {
    IsNamed(shortIDs, item, job.shortID, job.typ)
  }

  predicate Active(job: Job) {
    job.state.Available? || job.state.Running? || job.state.Retryable? || job.state.Scheduled?
  }

  predicate HasActive(shortIDs: seq<string>, jobs: seq<Job>, item: Item) {
    exists j :: 0 <= j < |jobs| && Paired(shortIDs, item, jobs[j]) && Active(jobs[j])
  }

  predicate HasRunning(shortIDs: seq<string>, jobs: seq<Job>, item: Item) {
    exists j :: 0 <= j < |jobs| && Paired(shortIDs, item, jobs[j]) && jobs[j].state.Running?
  }

  predicate HasDiscarded(shortIDs: seq<string>, jobs: seq<Job>, item: Item) {
    exists j :: 0 <= j < |jobs| && Paired(shortIDs, item, jobs[j]) && jobs[j].state.Discarded?
  }

  predicate Old(item: Item, now: int) {
    item.updatedAt < now - HOUR
  }

  datatype Rule = OrphanedPending | OrphanedProcessing | DiscardedJob

  /** The WHERE clause of each bulk update. */
  predicate Orphaned(rule: Rule, shortIDs: seq<string>, jobs: seq<Job>, item: Item, now: int) {
    item.captureID < |shortIDs| &&
    match rule
    case OrphanedPending => item.status == PENDING && Old(item, now) && !HasActive(shortIDs, jobs, item)
    case OrphanedProcessing => item.status == PROCESSING && Old(item, now) && !HasRunning(shortIDs, jobs, item)
    case DiscardedJob =>
      Unfinished(item) && HasDiscarded(shortIDs, jobs, item) && !HasActive(shortIDs, jobs, item)
  }

  predicate Doomed(shortIDs: seq<string>, jobs: seq<Job>, item: Item, now: int) {
    || Orphaned(OrphanedPending, shortIDs, jobs, item, now)
    || Orphaned(OrphanedProcessing, shortIDs, jobs, item, now)
    || Orphaned(DiscardedJob, shortIDs, jobs, item, now)
  }

  function FailedAt(item: Item, now: int): Item {
    item.(status := FAILED, updatedAt := now)
  }

  /** What a whole cleanup makes of one item. */
  function Cleaned(shortIDs: seq<string>, jobs: seq<Job>, item: Item, now: int): Item {
    if Doomed(shortIDs, jobs, item, now) then FailedAt(item, now) else item
  }

  lemma StatusesDiffer()
    ensures COMPLETED != PROCESSING && COMPLETED != PENDING && PROCESSING != PENDING
    ensures FAILED != COMPLETED && FAILED != PROCESSING && FAILED != PENDING
  {
    assert COMPLETED[0] == 'c' && PENDING[1] == 'e' && PROCESSING[1] == 'r' && FAILED[0] == 'f';
  }

  /** A completed item survives, and so does an item with a running job of its own type name. */
  lemma CleanupSpares(shortIDs: seq<string>, jobs: seq<Job>, item: Item, now: int)
    ensures item.status == COMPLETED ==> Cleaned(shortIDs, jobs, item, now) == item
    ensures HasRunning(shortIDs, jobs, item) ==> Cleaned(shortIDs, jobs, item, now) == item
  {
    StatusesDiffer();
    if HasRunning(shortIDs, jobs, item) {
      var j :| 0 <= j < |jobs| && Paired(shortIDs, item, jobs[j]) && jobs[j].state.Running?;
      assert Active(jobs[j]);
    }
  }

  /** After a cleanup, every old unfinished item still has a job to finish it. */
  lemma CleanupLeavesNoOrphans(shortIDs: seq<string>, jobs: seq<Job>, item: Item, now: int)
    requires item.captureID < |shortIDs|
    ensures var after := Cleaned(shortIDs, jobs, item, now);
            && (after.status == PENDING && Old(after, now) ==> HasActive(shortIDs, jobs, after))
            && (after.status == PROCESSING && Old(after, now) ==> HasRunning(shortIDs, jobs, after))
            && (Unfinished(after) && HasDiscarded(shortIDs, jobs, after) ==> HasActive(shortIDs, jobs, after))
  {
    StatusesDiffer();
  }

  /** A job names the item by its short id and type, in one of these states. */
  predicate HasJobIn(shortIDs: seq<string>, jobs: seq<Job>, item: Item, states: set<JobState>)
    requires item.captureID < |shortIDs|
  {
    exists j :: 0 <= j < |jobs| && jobs[j].shortID == shortIDs[item.captureID] && jobs[j].typ == item.typ && jobs[j].state in states
  }

  lemma JobsFound(shortIDs: seq<string>, jobs: seq<Job>, item: Item)
    requires item.captureID < |shortIDs|
    ensures HasActive(shortIDs, jobs, item) <==> HasJobIn(shortIDs, jobs, item, {Available, Running, Retryable, Scheduled})
    ensures HasRunning(shortIDs, jobs, item) <==> HasJobIn(shortIDs, jobs, item, {Running})
    ensures HasDiscarded(shortIDs, jobs, item) <==> HasJobIn(shortIDs, jobs, item, {Discarded})
  {
    forall j | 0 <= j < |jobs|
      ensures Active(jobs[j]) <==> jobs[j].state in {Available, Running, Retryable, Scheduled}
      ensures Paired(shortIDs, item, jobs[j]) <==> jobs[j].shortID == shortIDs[item.captureID] && jobs[j].typ == item.typ
    {
    }
  }

  /**
   * What cleanup fails, by status, age in seconds and job states: a pending item without a job that can still run, if it
   * is over an hour old or a job of it was discarded; a processing item over an hour old without a running job, or of a
   * discarded job without one that can still run. It changes nothing else.
   */
  lemma CleanupFailsExactly(shortIDs: seq<string>, jobs: seq<Job>, item: Item, now: int)
    requires item.captureID < |shortIDs|
    ensures var live := HasJobIn(shortIDs, jobs, item, {Available, Running, Retryable, Scheduled});
            var discarded := HasJobIn(shortIDs, jobs, item, {Discarded});
            var late := now - item.updatedAt > 3600;
            Cleaned(shortIDs, jobs, item, now) ==
              if || (item.status == "pending" && !live && (late || discarded))
                 || (item.status == "processing" && !live && discarded)
                 || (item.status == "processing" && !HasJobIn(shortIDs, jobs, item, {Running}) && late)
              then item.(status := "failed", updatedAt := now) else item
  {
    JobsFound(shortIDs, jobs, item);
  }

  /** A second cleanup at the same instant changes nothing. */
  lemma CleanupTwice(shortIDs: seq<string>, jobs: seq<Job>, item: Item, now: int)
    ensures Cleaned(shortIDs, jobs, Cleaned(shortIDs, jobs, item, now), now) == Cleaned(shortIDs, jobs, item, now)
  {
    StatusesDiffer();
  }

  /** The job a worker would run for the item: the worker normalizes the job's type first. */
  predicate Serves(shortIDs: seq<string>, item: Item, job: Job) {
    IsNamed(shortIDs, item, job.shortID, NormalizeArchiveType(job.typ))
  }

  predicate IsServed(shortIDs: seq<string>, jobs: seq<Job>, item: Item) {
    exists j :: 0 <= j < |jobs| && Serves(shortIDs, item, jobs[j]) && jobs[j].state.Running?
  }

  /**
   * An old processing item keeps its status exactly when a running job spells its type as the item does: a running
   * job still carrying a retired type name does not save the item it is working on.
   */
  lemma CleanupSeesSpelling(shortIDs: seq<string>, jobs: seq<Job>, item: Item, now: int)
    requires item.captureID < |shortIDs| && item.status == PROCESSING && Old(item, now)
    ensures Cleaned(shortIDs, jobs, item, now).status == PROCESSING <==> HasRunning(shortIDs, jobs, item)
  {
    StatusesDiffer();
    CleanupSpares(shortIDs, jobs, item, now);
  }

  /**
   * The blind spot is real: an old item that a worker is busy with, under a job whose type still has its retired name,
   * is failed if no other running job spells its type.
   */
  lemma CleanupFailsServed(shortIDs: seq<string>, job: Job, item: Item, now: int)
    requires item.captureID < |shortIDs| && item.typ == YT_DLP && item.status == PROCESSING && Old(item, now)
    requires job.shortID == shortIDs[item.captureID] && job.typ == YOUTUBE && job.state.Running?
    ensures IsServed(shortIDs, [job], item) && Cleaned(shortIDs, [job], item, now).status == FAILED
  {
    RetiredName();
    assert Serves(shortIDs, item, [job][0]);
    assert |YOUTUBE| != |YT_DLP|;
    CleanupSeesSpelling(shortIDs, [job], item, now);
  }

  /** With normalized jobs, cleanup never fails an item a worker is busy with. */
  lemma CleanupSparesServed(shortIDs: seq<string>, jobs: seq<Job>, item: Item, now: int)
    requires forall j :: 0 <= j < |jobs| && jobs[j].state.Running? ==> NormalizeArchiveType(jobs[j].typ) == jobs[j].typ
    requires IsServed(shortIDs, jobs, item)
    ensures Cleaned(shortIDs, jobs, item, now) == item
  {
    var j :| 0 <= j < |jobs| && Serves(shortIDs, item, jobs[j]) && jobs[j].state.Running?;
    assert Paired(shortIDs, item, jobs[j]);
    CleanupSpares(shortIDs, jobs, item, now);
  }

  // ----- The type rename

  function Renamed(typ: string): string {
    if typ == YOUTUBE then YT_DLP else typ
  }

  /** Jobs the rename covers: those that can still run. */
  predicate Live(job: Job) {
    Active(job) || job.state.Pending?
  }

  function RenamedItem(item: Item): Item {
    item.(typ := Renamed(item.typ))
  }

  function RenamedJob(job: Job): Job {
    if Live(job) then job.(typ := Renamed(job.typ)) else job
  }

  /** Items and their live jobs move together: every pair stays a pair, so no item is orphaned. */
  lemma RenameKeepsPairs(shortIDs: seq<string>, item: Item, job: Job)
    requires Live(job) && Paired(shortIDs, item, job)
    ensures Paired(shortIDs, RenamedItem(item), RenamedJob(job))
  {
  }

  /** Renaming only one side would part them. */
  lemma HalfARenameParts(shortIDs: seq<string>, item: Item, job: Job)
    requires Paired(shortIDs, item, job) && item.typ == YOUTUBE
    ensures !Paired(shortIDs, RenamedItem(item), job) && !Paired(shortIDs, item, job.(typ := Renamed(job.typ)))
  {
    assert |YOUTUBE| != |YT_DLP|;
  }

  /** Renaming normalizes a name that is its own canonical form or exactly the retired one, and is done after one time. */
  lemma RenamedIsNormal(typ: string)
    requires typ == YOUTUBE || NormalizeArchiveType(typ) == typ
    ensures Renamed(typ) == NormalizeArchiveType(typ) && NormalizeArchiveType(Renamed(typ)) == Renamed(typ)
    ensures Renamed(Renamed(typ)) == Renamed(typ)
  {
    NormalizeTwice(YOUTUBE);
    assert |YOUTUBE| != |YT_DLP|;
    RetiredName();
  }

  lemma RetiredName()
    ensures NormalizeArchiveType(YOUTUBE) == YT_DLP && NormalizeArchiveType(YT_DLP) == YT_DLP
  {
    TrimLaw(YOUTUBE);
    LowerLaw(YOUTUBE);
    assert ToLower(YOUTUBE) == YOUTUBE;
    NormalizeTwice(YOUTUBE);
  }
}
