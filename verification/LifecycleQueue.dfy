/** The item and job tables as workers, River and the cleanup change them. */
module LifecycleQueue {
  import opened Models
  import opened Lifecycle

  /** How one attempt goes; a panic can strike before or after the result is saved. */
  datatype Outcome = Succeeds | Fails | PanicsEarly | PanicsLate

  datatype Ending = Returned(err: bool) | Panicked

  /** An archive_item_logs row, without its text. */
  datatype LogRow = LogRow(item: nat, attempt: nat)

  class Queue {
    var shortIDs: seq<string>
    var items: seq<Item>
    var jobs: seq<Job>
    var logs: seq<LogRow>
    /** How often a bulk statement has failed. */
    ghost var faults: nat

    method Fails() returns (b: bool)
      modifies this`faults
      ensures faults == old(faults) + (if b then 1 else 0)
    {
      b := *;
      if b {
        faults := faults + 1;
      }
    }

    predicate Valid()
      reads this
    {
      && (forall i :: 0 <= i < |shortIDs| ==> shortIDs[i] != "")
      && (forall i :: 0 <= i < |items| ==> items[i].captureID < |shortIDs| && KnownStatus(items[i]))
    }

    constructor (shortIDs: seq<string>, items: seq<Item>, jobs: seq<Job>)
      ensures this.shortIDs == shortIDs && this.items == items && this.jobs == jobs && logs == []
    {
      this.shortIDs, this.items, this.jobs, logs := shortIDs, items, jobs, [];
    }

    predicate IsFirst(shortID: string, typ: string, i: nat)
      reads this
    {
      FirstNamed(shortIDs, items, shortID, typ, i)
    }

    predicate NoneNamed(shortID: string, typ: string)
      reads this
    {
      forall i :: 0 <= i < |items| ==> !IsNamed(shortIDs, items[i], shortID, typ)
    }

    method SetStatus(i: nat, status: string, now: int)
      requires Valid() && i < |items| && status in {PENDING, PROCESSING, COMPLETED, FAILED}
      modifies this`items
      ensures Valid() && items == old(items)[i := old(items)[i].(status := status, updatedAt := now)]
    {
      items := items[i := items[i].(status := status, updatedAt := now)];
    }

    method AppendLog(i: nat, attempt: nat)
      modifies this`logs
      ensures logs == old(logs) + [LogRow(i, attempt)]
    {
      logs := logs + [LogRow(i, attempt)];
    }

    /** What the rest of the server may do meanwhile: change statuses and add rows, never retype or remove an item. */
    predicate Later(before: seq<Item>)
      reads this
    {
      |before| <= |items| && forall i :: 0 <= i < |before| ==>
        items[i].captureID == before[i].captureID && items[i].typ == before[i].typ
    }

    /** Other workers, cleanups and submissions run while an archiver works on item i, which shows as processing. */
    method Others(i: nat)
      requires Valid() && i < |items| && items[i].status == PROCESSING
      modifies this`items
      ensures Valid() && Later(old(items))
    {
      var rounds: nat := *;
      while rounds > 0
        invariant Valid() && Later(old(items))
      {
        var k: nat, capture: nat, typ: string, now: int := *, *, *, *;
        var status: string := *;
        if k < |items| && status in {PENDING, PROCESSING, COMPLETED, FAILED} {
          SetStatus(k, status, now);
        } else if k >= |items| && capture < |shortIDs| {
          items := items + [Item(capture, typ, PENDING, now, "", "", "", "")];
        }
        rounds := rounds - 1;
      }
    }

    method FindItem(shortID: string, typ: string) returns (found: Option<nat>)
      ensures found.Some? ==> IsFirst(shortID, typ, found.value)
      ensures found.None? ==> NoneNamed(shortID, typ)
    {
      for i := 0 to |items|
        invariant forall k :: 0 <= k < i ==> !IsNamed(shortIDs, items[k], shortID, typ)
      {
        if IsNamed(shortIDs, items[i], shortID, typ) {
          return Some(i);
        }
      }
      return None;
    }

    /** Work: one attempt of a job, with everything else running while the archiver does. */
    method Work(job: Job, outcome: Outcome, now: int) returns (ending: Ending, worked: Option<nat>)
      requires Valid()
      modifies this`items, this`logs
      ensures Valid() && Later(old(items))
      ensures worked.None? ==> ending == Returned(true) && items == old(items)
      ensures worked.None? <==> old(NoneNamed(job.shortID, NormalizeArchiveType(job.typ)))
      ensures worked.Some? ==> IsFirst(job.shortID, NormalizeArchiveType(job.typ), worked.value)
      ensures worked.Some? ==> ending == match outcome
                                          case Succeeds => Returned(false)
                                          case Fails => Returned(true)
                                          case _ => Panicked
      ensures worked.Some? && (outcome.Succeeds? || outcome.PanicsLate?) ==> items[worked.value].status == COMPLETED
      ensures worked.Some? && outcome.Fails? && job.attempt >= job.maxAttempts ==> items[worked.value].status == FAILED
      ensures logs == old(logs) + (if worked.Some? && outcome.Fails? && job.attempt >= job.maxAttempts
                                   then [LogRow(worked.value, job.attempt)] else [])
    {
      var typ := NormalizeArchiveType(job.typ);
      worked := FindItem(job.shortID, typ);
      if worked.None? {
        return Returned(true), None;
      }
      var i := worked.value;
      SetStatus(i, PROCESSING, now);
      Others(i);
      ending := Conclude(i, job, outcome, now);
    }

    /** What the worker writes once the archiver is done with item i. */
    method Conclude(i: nat, job: Job, outcome: Outcome, now: int) returns (ending: Ending)
      requires Valid() && i < |items|
      modifies this`items, this`logs
      ensures Valid() && Later(old(items)) && |items| == |old(items)|
      ensures ending == match outcome
                        case Succeeds => Returned(false)
                        case Fails => Returned(true)
                        case _ => Panicked
      ensures outcome.Succeeds? || outcome.PanicsLate? ==> items[i].status == COMPLETED
      ensures outcome.Fails? && job.attempt >= job.maxAttempts ==> items[i].status == FAILED
      ensures outcome.PanicsEarly? || (outcome.Fails? && job.attempt < job.maxAttempts) ==> items == old(items)
      ensures forall k :: 0 <= k < |items| && k != i ==> items[k] == old(items)[k]
      ensures logs == old(logs) + (if outcome.Fails? && job.attempt >= job.maxAttempts then [LogRow(i, job.attempt)] else [])
    {
      match outcome
      case Succeeds =>
        SetStatus(i, COMPLETED, now);
        ending := Returned(false);
      case Fails =>
        if job.attempt >= job.maxAttempts {
          SetStatus(i, FAILED, now);
          AppendLog(i, job.attempt);
        }
        ending := Returned(true);
      case PanicsEarly =>
        ending := Panicked;
      case PanicsLate =>
        SetStatus(i, COMPLETED, now);
        ending := Panicked;
    }

    /** The first unfinished item a job's raw arguments name, as the error handler looks it up. */
    predicate IsFirstUnfinished(job: Job, i: nat)
      reads this
    {
      i < |items| && IsNamed(shortIDs, items[i], job.shortID, job.typ) && Unfinished(items[i])
      && forall k :: 0 <= k < i ==> !(IsNamed(shortIDs, items[k], job.shortID, job.typ) && Unfinished(items[k]))
    }

    /** markArchiveItemAsFailed. */
    method MarkArchiveItemAsFailed(job: Job, now: int) returns (failed: Option<nat>)
      requires Valid()
      modifies this`items, this`logs
      ensures Valid()
      ensures failed.Some? ==> old(IsFirstUnfinished(job, failed.value))
      ensures failed.Some? ==> items == old(items)[failed.value := FailedAt(old(items)[failed.value], now)]
                               && logs == old(logs) + [LogRow(failed.value, job.attempt)]
      ensures failed.None? ==> items == old(items) && logs == old(logs)
      ensures failed.None? && job.typ != "" ==>
                forall i :: 0 <= i < |items| ==> !(IsNamed(shortIDs, items[i], job.shortID, job.typ) && Unfinished(items[i]))
    {
      if job.shortID == "" || job.typ == "" {
        return None;
      }
      for i := 0 to |items|
        invariant items == old(items) && logs == old(logs)
        invariant forall k :: 0 <= k < i ==> !(IsNamed(shortIDs, items[k], job.shortID, job.typ) && Unfinished(items[k]))
      {
        if IsNamed(shortIDs, items[i], job.shortID, job.typ) && Unfinished(items[i]) {
          items := items[i := FailedAt(items[i], now)];
          AppendLog(i, job.attempt);
          return Some(i);
        }
      }
      return None;
    }

    /** HandleError and HandlePanic: the same policy, on the final attempt only. */
    method HandleEnd(job: Job, now: int) returns (failed: Option<nat>)
      requires Valid()
      modifies this`items, this`logs
      ensures Valid() && |items| == |old(items)| && Later(old(items))
      ensures failed.Some? ==> job.attempt >= job.maxAttempts && old(IsFirstUnfinished(job, failed.value))
      ensures failed.Some? ==> items == old(items)[failed.value := FailedAt(old(items)[failed.value], now)]
      ensures failed.None? ==> items == old(items)
      ensures failed.None? && job.attempt >= job.maxAttempts && job.typ != "" ==>
                forall i :: 0 <= i < |items| ==> !(IsNamed(shortIDs, items[i], job.shortID, job.typ) && Unfinished(items[i]))
      ensures forall i :: 0 <= i < |items| && old(items)[i].status == COMPLETED ==> items[i] == old(items)[i]
    {
      failed := None;
      StatusesDiffer();
      if job.attempt >= job.maxAttempts {
        failed := MarkArchiveItemAsFailed(job, now);
      }
    }

    /**
     * One attempt under River: the worker, then the error or panic handler. After a final attempt the item is
     * completed or failed, unless the attempt panicked unsaved under a retired type name.
     */
    method RunAttempt(job: Job, outcome: Outcome, now: int) returns (worked: Option<nat>)
      requires Valid()
      modifies this`items, this`logs
      ensures Valid() && Later(old(items))
      ensures worked.Some? ==> IsFirst(job.shortID, NormalizeArchiveType(job.typ), worked.value)
      ensures worked.Some? && (outcome.Succeeds? || outcome.PanicsLate?) ==> items[worked.value].status == COMPLETED
      ensures worked.Some? && job.attempt >= job.maxAttempts && outcome.Fails? ==> items[worked.value].status == FAILED
      ensures worked.Some? && job.attempt >= job.maxAttempts && job.typ != "" && NormalizeArchiveType(job.typ) == job.typ ==>
                items[worked.value].status in {COMPLETED, FAILED}
    {
      StatusesDiffer();
      var ending;
      ending, worked := Work(job, outcome, now);
      if ending.Panicked? || ending.err {
        var failed := HandleEnd(job, now);
      }
    }

    /**
     * An item left processing by a panic on a final attempt is picked up by the handler exactly when the job spells
     * the item's own type name.
     */
    method HandlePanickedItem(job: Job, i: nat, now: int)
      requires Valid() && job.attempt >= job.maxAttempts && job.typ != ""
      requires IsFirst(job.shortID, NormalizeArchiveType(job.typ), i) && Unfinished(items[i])
      modifies this`items, this`logs
      ensures Valid() && i < |items|
      ensures items[i].status == FAILED <==> NormalizeArchiveType(job.typ) == job.typ
      ensures NormalizeArchiveType(job.typ) != job.typ ==> items[i] == old(items[i])
    {
      StatusesDiffer();
      var failed := HandleEnd(job, now);
    }

    // ----- Cleanup

    /** One bulk update: every matching row fails and gets one log row, or the statement fails and nothing changes. */
    method BulkFail(rule: Rule, now: int) returns (ok: bool)
      requires Valid()
      modifies this`items, this`logs, this`faults
      ensures Valid() && |items| == |old(items)| && faults == old(faults) + (if ok then 0 else 1)
      ensures forall i :: 0 <= i < |items| ==>
                items[i] == if ok && Orphaned(rule, shortIDs, jobs, old(items)[i], now) then FailedAt(old(items)[i], now)
                            else old(items)[i]
      ensures |logs| >= |old(logs)| && logs[..|old(logs)|] == old(logs)
      ensures forall i :: 0 <= i < |items| ==>
                (LogRow(i, 0) in logs[|old(logs)|..] <==> ok && Orphaned(rule, shortIDs, jobs, old(items)[i], now))
    {
      var fails := Fails();
      if fails {
        return false;
      }
      for i := 0 to |items|
        invariant Valid() && |items| == |old(items)| && faults == old(faults)
        invariant forall k :: 0 <= k < i ==>
                    items[k] == if Orphaned(rule, shortIDs, jobs, old(items)[k], now) then FailedAt(old(items)[k], now)
                                else old(items)[k]
        invariant forall k :: i <= k < |items| ==> items[k] == old(items)[k]
        invariant |logs| >= |old(logs)| && logs[..|old(logs)|] == old(logs)
        invariant forall k: nat :: LogRow(k, 0) in logs[|old(logs)|..] <==>
                    k < i && Orphaned(rule, shortIDs, jobs, old(items)[k], now)
      {
        if Orphaned(rule, shortIDs, jobs, items[i], now) {
          items := items[i := FailedAt(items[i], now)];
          ghost var before := logs;
          AppendLog(i, 0);
          assert logs[|old(logs)|..] == before[|old(logs)|..] + [LogRow(i, 0)];
        }
      }
      return true;
    }

    /** RunCleanup: the three updates in turn, each on its own; all together they clean every item. */
    method RunCleanup(now: int) returns (ok: bool)
      requires Valid()
      modifies this`items, this`logs, this`faults
      ensures Valid() && |items| == |old(items)| && faults >= old(faults) && (ok <==> faults == old(faults))
      ensures forall i :: 0 <= i < |items| ==>
                items[i] == old(items)[i] || items[i] == Cleaned(shortIDs, jobs, old(items)[i], now)
      ensures ok ==> forall i :: 0 <= i < |items| ==> items[i] == Cleaned(shortIDs, jobs, old(items)[i], now)
    {
      StatusesDiffer();
      var ok1 := BulkFail(OrphanedPending, now);
      var ok2 := BulkFail(OrphanedProcessing, now);
      var ok3 := BulkFail(DiscardedJob, now);
      ok := ok1 && ok2 && ok3;
    }

    // ----- The type rename

    /** migrateLegacyArchiveTypes: items and live jobs in one transaction. */
    method MigrateLegacyArchiveTypes() returns (ok: bool)
      requires Valid()
      modifies this`items, this`jobs, this`faults
      ensures Valid() && |items| == |old(items)| && |jobs| == |old(jobs)|
      ensures faults == old(faults) + (if ok then 0 else 1)
      ensures !ok ==> items == old(items) && jobs == old(jobs)
      ensures ok ==> forall i :: 0 <= i < |items| ==> items[i] == RenamedItem(old(items)[i])
      ensures ok ==> forall j :: 0 <= j < |jobs| ==> jobs[j] == RenamedJob(old(jobs)[j])
      ensures ok ==> forall i :: 0 <= i < |items| ==>
                items[i] == old(items)[i].(typ := if old(items)[i].typ == "youtube" then "yt-dlp" else old(items)[i].typ)
      ensures ok ==> forall j :: 0 <= j < |jobs| ==>
                if old(jobs)[j].typ == "youtube" && !(old(jobs)[j].state in {Discarded, Completed, Cancelled})
                then jobs[j] == old(jobs)[j].(typ := "yt-dlp") else jobs[j] == old(jobs)[j]
    {
      var fails := Fails();
      if fails {
        return false;
      }
      for i := 0 to |items|
        invariant Valid() && |items| == |old(items)| && jobs == old(jobs) && faults == old(faults)
        invariant forall k :: 0 <= k < i ==> items[k] == RenamedItem(old(items)[k])
        invariant forall k :: i <= k < |items| ==> items[k] == old(items)[k]
      {
        if items[i].typ == YOUTUBE {
          items := items[i := items[i].(typ := YT_DLP)];
        }
      }
      for j := 0 to |jobs|
        invariant Valid() && |items| == |old(items)| && |jobs| == |old(jobs)| && faults == old(faults)
        invariant forall i :: 0 <= i < |items| ==> items[i] == RenamedItem(old(items)[i])
        invariant forall k :: 0 <= k < j ==> jobs[k] == RenamedJob(old(jobs)[k])
        invariant forall k :: j <= k < |jobs| ==> jobs[k] == old(jobs)[k]
      {
        if jobs[j].typ == YOUTUBE && Live(jobs[j]) {
          jobs := jobs[j := jobs[j].(typ := YT_DLP)];
        }
      }
      return true;
    }
  }
}
