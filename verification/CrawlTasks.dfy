/**
 The crawl-task protocol: the guarded updates of `backend/app/repositories/crawl.py`, the state
 machine of `backend/app/crawler/state.py` and the review closing of
 `backend/app/repositories/reviews.py`, each as one atomic step on a task row.

 `TaskRow` is a row of the table, `CrawlTask` the object the repositories update in place. The
 methods of the class are proved to do what the functions on rows say; what holds of every run
 is proved of those functions. A `Run` is of steps that each see the current row. State
 transitions and the sweep work on loaded objects, which a `RacyRun` lets be out of date.
 */
module CrawlTasks {
  import opened Wrappers

  datatype Status =
    | Pending | Queued | Running | CallingCoze | CozeRunning | Normalizing | SavingDocuments
    | WaitingReview | Completed | PartialFailed | Failed | Cancelled

  function StatusName(s: Status): string {
    match s
    case Pending => "pending"
    case Queued => "queued"
    case Running => "running"
    case CallingCoze => "calling_coze"
    case CozeRunning => "coze_running"
    case Normalizing => "normalizing"
    case SavingDocuments => "saving_documents"
    case WaitingReview => "waiting_review"
    case Completed => "completed"
    case PartialFailed => "partial_failed"
    case Failed => "failed"
    case Cancelled => "cancelled"
  }

  datatype Counts = Counts(
    discovered: int, fetched: int, success: int, urlDuplicate: int, contentDuplicate: int,
    semanticDuplicate: int, failed: int, accepted: int, rejected: int, pendingReview: int)
  {
    /** The non-negativity constraints of the table. */
    predicate NonNegative() {
      && discovered >= 0 && fetched >= 0 && success >= 0 && urlDuplicate >= 0 && contentDuplicate >= 0
      && semanticDuplicate >= 0 && failed >= 0 && accepted >= 0 && rejected >= 0 && pendingReview >= 0
    }
  }

  const WORKER_LOST_MAX_RECOVERIES: string := "WORKER_LOST_MAX_RECOVERIES"
  const RECOVERY_EXHAUSTED: string := "Worker recovery attempts were exhausted"
  const WORKER_LOST_RECOVERED: string := "WORKER_LOST_RECOVERED"
  const RECOVERED_FOR_RETRY: string := "recovered_for_retry"

  function NoProgress(): Counts {
    Counts(0, 0, 0, 0, 0, 0, 0, 0, 0, 0)
  }

  datatype TaskRow = TaskRow(
    status: Status,
    stage: string,
    startedAt: Option<int>,
    finishedAt: Option<int>,
    completedAt: Option<int>,
    retryCount: int,
    errorMessage: Option<string>,
    providerStatus: Option<string>,
    providerErrorCode: Option<string>,
    providerErrorMessage: Option<string>,
    providerTaskId: Option<string>,
    cozeExecutionId: Option<string>,
    nextRetryAt: Option<int>,
    counts: Counts)

  /** What a worker reports of the task it holds. */
  datatype Progress = Progress(
    counts: Counts,
    providerErrorCode: Option<string>,
    providerErrorMessage: Option<string>,
    providerTaskId: Option<string>,
    cozeExecutionId: Option<string>,
    nextRetryAt: Option<int>)

  /** The table of allowed transitions. */
  predicate Edge(source: Status, target: Status) {
    match source
    case Pending => target.Queued? || target.Running? || target.Failed? || target.Cancelled?
    case Queued => target.Running? || target.CallingCoze? || target.Failed? || target.Cancelled?
    case Running =>
      target.CallingCoze? || target.SavingDocuments? || target.Completed? || target.Failed? || target.Cancelled?
    case CallingCoze => target.CozeRunning? || target.Normalizing? || target.Failed? || target.Cancelled?
    case CozeRunning => target.Normalizing? || target.Failed? || target.Cancelled?
    case Normalizing => target.SavingDocuments? || target.Failed? || target.Cancelled?
    case SavingDocuments => target.WaitingReview? || target.Completed? || target.PartialFailed? || target.Failed?
    case WaitingReview => target.Completed? || target.PartialFailed? || target.Failed? || target.Cancelled?
    case PartialFailed => target.Pending? || target.WaitingReview? || target.Completed?
    case Failed => target.Pending?
    case Cancelled => target.Pending?
    case Completed => false
  }

  function InvalidTransition(source: Status, target: Status): string {
    "cannot transition crawl task from " + StatusName(source) + " to " + StatusName(target)
  }

  predicate Finished(s: Status) {
    (s.Completed? || s.PartialFailed? || s.Failed? || s.Cancelled?)
  }

  predicate Claimable(s: Status) {
    s == Pending || s == Queued
  }

  /** The statuses in which a worker holds the task, which the sweep looks for. */
  predicate InWork(s: Status) {
    (s.Running? || s.CallingCoze? || s.CozeRunning? || s.Normalizing? || s.SavingDocuments?)
  }

  /** The pairs of statuses between which the workers and the queue advance a task. */
  predicate WorkerPair(expected: Status, target: Status) {
    || (expected == Pending && target == Queued)
    || (expected == Running && (target.Running? || target.CallingCoze? || target.SavingDocuments?))
    || (expected == CallingCoze && target == CozeRunning)
    || (expected == CozeRunning && target == Normalizing)
    || (expected == Normalizing && target == SavingDocuments)
  }

  // ---------------------------------------------------------------- the steps, on rows

  function ClaimRow(row: TaskRow, now: int): TaskRow {
    if Claimable(row.status) then
      row.(status := Running, stage := StatusName(Running), startedAt := Some(now), finishedAt := None,
           completedAt := None, errorMessage := None)
    else row
  }

  function AdvanceRow(
    row: TaskRow, expected: Status, target: Status, stage: Option<string>, providerStatus: string): TaskRow
  {
    if row.status == expected then
      row.(status := target,
           stage := if stage.Some? && stage.value != "" then stage.value else StatusName(target),
           providerStatus := Some(providerStatus))
    else row
  }

  function CancelRow(
    row: TaskRow, expected: Status, providerStatus: string, providerError: Option<string>, now: int): TaskRow
  {
    if row.status == expected then
      row.(status := Cancelled, stage := StatusName(Cancelled), providerStatus := Some(providerStatus),
           providerErrorMessage := providerError, finishedAt := Some(now), completedAt := Some(now),
           errorMessage := None)
    else row
  }

  predicate Stale(row: TaskRow, cutoff: int) {
    InWork(row.status) && row.startedAt.Some? && row.startedAt.value < cutoff
  }

  function RecoverRow(row: TaskRow, maxAttempts: int, now: int): TaskRow {
    if row.retryCount >= maxAttempts then
      row.(status := Failed, stage := StatusName(Failed), finishedAt := Some(now), completedAt := Some(now),
           counts := row.counts.(failed := row.counts.failed + 1),
           errorMessage := Some(WORKER_LOST_MAX_RECOVERIES),
           providerErrorCode := Some(WORKER_LOST_MAX_RECOVERIES),
           providerErrorMessage := Some(RECOVERY_EXHAUSTED))
    else
      row.(status := Pending, stage := StatusName(Pending), startedAt := None, finishedAt := None, completedAt := None,
           errorMessage := Some(WORKER_LOST_RECOVERED), providerStatus := Some(RECOVERED_FOR_RETRY),
           providerErrorCode := None, providerErrorMessage := None, providerTaskId := None,
           cozeExecutionId := None, nextRetryAt := None, retryCount := row.retryCount + 1,
           counts := NoProgress())
  }

  /** A row put back to pending, as before its first claim. */
  function ResetRow(row: TaskRow): TaskRow {
    row.(status := Pending, stage := StatusName(Pending), startedAt := None, finishedAt := None,
         completedAt := None, errorMessage := None, providerStatus := None, providerErrorCode := None,
         providerErrorMessage := None, providerTaskId := None, cozeExecutionId := None,
         nextRetryAt := None, counts := NoProgress())
  }

  function StartRow(row: TaskRow, now: int): TaskRow {
    row.(status := Running, stage := StatusName(Running), startedAt := Some(now), finishedAt := None,
         errorMessage := None)
  }

  function ReviewRow(row: TaskRow): TaskRow {
    row.(status := WaitingReview, stage := StatusName(WaitingReview), finishedAt := None, completedAt := None,
         providerErrorCode := None, providerErrorMessage := None, nextRetryAt := None)
  }

  function FinishRow(row: TaskRow, target: Status, error: Option<string>, now: int): TaskRow {
    row.(status := target, stage := StatusName(target), finishedAt := Some(now), completedAt := Some(now),
         errorMessage := error)
  }

  /** What an allowed transition does to the row. */
  function MoveRow(row: TaskRow, target: Status, error: Option<string>, now: int): TaskRow {
    match target
    case Running => StartRow(row, now)
    case WaitingReview => ReviewRow(row)
    case Completed | PartialFailed | Failed | Cancelled => FinishRow(row, target, error, now)
    case Pending => ResetRow(row)
    case _ => row.(status := target, stage := StatusName(target))
  }

  function TransitionRow(row: TaskRow, target: Status, error: Option<string>, now: int): TaskRow {
    if Edge(row.status, target) then MoveRow(row, target, error, now) else row
  }

  /** The operator's retry: back to pending, one attempt more. */
  function RetryRow(row: TaskRow, now: int): TaskRow {
    if Edge(row.status, Pending) then
      var moved := MoveRow(row, Pending, None, now);
      moved.(retryCount := moved.retryCount + 1)
    else row
  }

  function CloseRow(row: TaskRow, now: int): TaskRow {
    row.(status := Completed, stage := StatusName(Completed), providerStatus := Some(StatusName(Completed)),
         finishedAt := Some(now), completedAt := Some(now), errorMessage := None,
         providerErrorCode := None, providerErrorMessage := None, nextRetryAt := None)
  }

  /** Reconciliation with the documents of the task, which closes it when none is undecided. */
  function ReconcileRow(row: TaskRow, accepted: nat, rejected: nat, total: nat, now: int): TaskRow {
    if row.status != WaitingReview then row
    else
      var pending := if total - accepted - rejected > 0 then total - accepted - rejected else 0;
      var counted := row.(counts := row.counts.(accepted := accepted, rejected := rejected, pendingReview := pending));
      if total > 0 && pending == 0 then CloseRow(counted, now) else counted
  }

  /** A provider's result that arrives for a cancelled task leaves a note on it and nothing else. */
  function DiscardRow(row: TaskRow, providerStatus: string): TaskRow {
    if row.status == Cancelled then
      row.(providerStatus := Some(providerStatus), stage := StatusName(Cancelled))
    else row
  }

  /** A worker's report on the task it holds, or on a partly failed one whose failures it tries again. */
  function RecordRow(row: TaskRow, progress: Progress): TaskRow {
    if InWork(row.status) || row.status == PartialFailed then
      row.(counts := progress.counts, providerErrorCode := progress.providerErrorCode,
           providerErrorMessage := progress.providerErrorMessage, providerTaskId := progress.providerTaskId,
           cozeExecutionId := progress.cozeExecutionId, nextRetryAt := progress.nextRetryAt)
    else row
  }

  // ---------------------------------------------------------------- the task object

  class CrawlTask {
    const id: int
    var status: Status
    var stage: string
    var startedAt: Option<int>
    var finishedAt: Option<int>
    var completedAt: Option<int>
    var retryCount: int
    var errorMessage: Option<string>
    var providerStatus: Option<string>
    var providerErrorCode: Option<string>
    var providerErrorMessage: Option<string>
    var providerTaskId: Option<string>
    var cozeExecutionId: Option<string>
    var nextRetryAt: Option<int>
    var counts: Counts

    function Row(): TaskRow
      reads this
    {
      TaskRow(status, stage, startedAt, finishedAt, completedAt, retryCount, errorMessage, providerStatus,
              providerErrorCode, providerErrorMessage, providerTaskId, cozeExecutionId, nextRetryAt, counts)
    }

    constructor (id: int)
      ensures this.id == id
      ensures Row() == NEW_TASK
    {
      this.id := id;
      status, stage := Pending, StatusName(Pending);
      startedAt, finishedAt, completedAt := None, None, None;
      retryCount := 0;
      errorMessage, providerStatus, providerErrorCode, providerErrorMessage := None, None, None, None;
      providerTaskId, cozeExecutionId, nextRetryAt := None, None, None;
      counts := NoProgress();
    }

    method Claim(now: int) returns (claimed: bool)
      modifies this
      ensures claimed == Claimable(old(status))
      ensures Row() == ClaimRow(old(Row()), now)
    {
      hide StatusName;
      claimed := status == Pending || status == Queued;
      if claimed {
        Start(now);
        completedAt := None;
      }
    }

    method AdvanceIfStatus(expected: Status, target: Status, providerStatus: string, targetStage: Option<string>)
      returns (advanced: bool)
      modifies this
      ensures advanced == (old(status) == expected)
      ensures Row() == AdvanceRow(old(Row()), expected, target, targetStage, providerStatus)
    {
      hide StatusName;
      advanced := status == expected;
      if advanced {
        status := target;
        stage := if targetStage.Some? && targetStage.value != "" then targetStage.value else StatusName(target);
        this.providerStatus := Some(providerStatus);
      }
    }

    method CancelIfStatus(expected: Status, providerStatus: string, providerError: Option<string>, now: int)
      returns (cancelled: bool)
      modifies this
      ensures cancelled == (old(status) == expected)
      ensures Row() == CancelRow(old(Row()), expected, providerStatus, providerError, now)
    {
      hide StatusName;
      cancelled := status == expected;
      if cancelled {
        Finish(Cancelled, None, now);
        this.providerStatus, providerErrorMessage := Some(providerStatus), providerError;
      }
    }

    method Transition(target: Status, error: Option<string>, now: int) returns (outcome: Result<(), string>)
      modifies this
      ensures outcome.Ok? <==> Edge(old(status), target)
      ensures Row() == TransitionRow(old(Row()), target, error, now)
    {
      hide StatusName, InvalidTransition, Edge, StartRow, ReviewRow, FinishRow, ResetRow;
      if !Edge(status, target) {
        return Err(InvalidTransition(status, target));
      }
      outcome := Ok(());
      match target
      case Running => Start(now);
      case WaitingReview => AwaitReview();
      case Completed | PartialFailed | Failed | Cancelled => Finish(target, error, now);
      case Pending => Reset();
      case _ => status, stage := target, StatusName(target);
    }

    method Start(now: int)
      modifies this
      ensures Row() == StartRow(old(Row()), now)
    {
      hide StatusName;
      status, stage := Running, StatusName(Running);
      startedAt, finishedAt, errorMessage := Some(now), None, None;
    }

    method AwaitReview()
      modifies this
      ensures Row() == ReviewRow(old(Row()))
    {
      hide StatusName;
      status, stage := WaitingReview, StatusName(WaitingReview);
      finishedAt, completedAt := None, None;
      ClearProviderErrors();
    }

    method ClearProviderErrors()
      modifies this
      ensures Row() ==
        old(Row()).(providerErrorCode := None, providerErrorMessage := None, nextRetryAt := None)
    {
      providerErrorCode, providerErrorMessage, nextRetryAt := None, None, None;
    }

    method Finish(target: Status, error: Option<string>, now: int)
      modifies this
      ensures Row() == FinishRow(old(Row()), target, error, now)
    {
      hide StatusName;
      status, stage := target, StatusName(target);
      finishedAt, completedAt, errorMessage := Some(now), Some(now), error;
    }

    method Reset()
      modifies this
      ensures Row() == ResetRow(old(Row()))
    {
      hide StatusName, NoProgress;
      status, stage := Pending, StatusName(Pending);
      startedAt, finishedAt, completedAt, errorMessage := None, None, None, None;
      ClearProviderErrors();
      providerStatus, providerTaskId, cozeExecutionId := None, None, None;
      counts := NoProgress();
    }

    /** What reconciliation does to a task, given the counts of its documents. */
    method Reconcile(accepted: nat, rejected: nat, total: nat, now: int)
      modifies this
      ensures Row() == ReconcileRow(old(Row()), accepted, rejected, total, now)
    {
      hide StatusName, CloseRow;
      if status == WaitingReview {
        var pending := if total - accepted - rejected > 0 then total - accepted - rejected else 0;
        counts := counts.(accepted := accepted, rejected := rejected, pendingReview := pending);
        if total > 0 && pending == 0 {
          Close(now);
        }
      }
    }

    method Discard(providerStatus: string) returns (cancelled: bool)
      modifies this
      ensures cancelled == (old(status) == Cancelled)
      ensures Row() == DiscardRow(old(Row()), providerStatus)
    {
      hide StatusName;
      cancelled := status == Cancelled;
      if cancelled {
        this.providerStatus, stage := Some(providerStatus), StatusName(Cancelled);
      }
    }

    method Record(progress: Progress)
      modifies this
      ensures Row() == RecordRow(old(Row()), progress)
    {
      if InWork(status) || status == PartialFailed {
        counts := progress.counts;
        providerErrorCode, providerErrorMessage := progress.providerErrorCode, progress.providerErrorMessage;
        providerTaskId, cozeExecutionId := progress.providerTaskId, progress.cozeExecutionId;
        nextRetryAt := progress.nextRetryAt;
      }
    }

    method Close(now: int)
      modifies this
      ensures Row() == CloseRow(old(Row()), now)
    {
      hide StatusName;
      Finish(Completed, None, now);
      providerStatus := Some(StatusName(Completed));
      ClearProviderErrors();
    }

    /** What the sweep does to one stale task. */
    method Recover(maxAttempts: int, now: int) returns (exhausted: bool)
      modifies this
      ensures exhausted == (old(Row()).retryCount >= maxAttempts)
      ensures Row() == RecoverRow(old(Row()), maxAttempts, now)
    {
      hide StatusName, NoProgress, WORKER_LOST_MAX_RECOVERIES, RECOVERY_EXHAUSTED, WORKER_LOST_RECOVERED,
        RECOVERED_FOR_RETRY;
      exhausted := retryCount >= maxAttempts;
      if exhausted {
        Finish(Failed, Some(WORKER_LOST_MAX_RECOVERIES), now);
        counts := counts.(failed := counts.failed + 1);
        providerErrorCode := Some(WORKER_LOST_MAX_RECOVERIES);
        providerErrorMessage := Some(RECOVERY_EXHAUSTED);
      } else {
        Reset();
        errorMessage, providerStatus := Some(WORKER_LOST_RECOVERED), Some(RECOVERED_FOR_RETRY);
        retryCount := retryCount + 1;
      }
    }
  }

  const NEW_TASK := TaskRow(
    Pending, StatusName(Pending), None, None, None, 0, None, None, None, None, None, None, None, NoProgress())

  // ---------------------------------------------------------------- the recovery sweep

  predicate StartsBefore(a: CrawlTask, b: CrawlTask)
    reads a, b
    requires a.startedAt.Some? && b.startedAt.Some?
  {
    a.startedAt.value < b.startedAt.value || (a.startedAt.value == b.startedAt.value && a.id < b.id)
  }

  /** The rows the sweep's query returns: the stale ones, oldest first, at most `limit` of them. */
  ghost predicate OldestStale(tasks: set<CrawlTask>, chosen: seq<CrawlTask>, cutoff: int, limit: nat)
    reads tasks
  {
    && (forall i | 0 <= i < |chosen| :: chosen[i] in tasks && Stale(chosen[i].Row(), cutoff))
    && (forall i, j | 0 <= i < j < |chosen| :: StartsBefore(chosen[i], chosen[j]))
    && |chosen| <= limit
    && (forall t | t in tasks && Stale(t.Row(), cutoff) && t !in chosen ::
      |chosen| == limit && forall i | 0 <= i < |chosen| :: StartsBefore(chosen[i], t))
  }

  function IdsWhere(tasks: seq<CrawlTask>, rows: seq<TaskRow>, maxAttempts: int, exhausted: bool): seq<int>
    requires |tasks| == |rows|
  {
    if tasks == [] then []
    else
      var n := |tasks| - 1;
      IdsWhere(tasks[..n], rows[..n], maxAttempts, exhausted)
      + (if (rows[n].retryCount >= maxAttempts) == exhausted then [tasks[n].id] else [])
  }

  lemma IdsWhereLast(tasks: seq<CrawlTask>, rows: seq<TaskRow>, maxAttempts: int, exhausted: bool,
                                        n: nat)
    requires |tasks| == |rows| && n < |tasks|
    ensures IdsWhere(tasks[..n + 1], rows[..n + 1], maxAttempts, exhausted)
         == IdsWhere(tasks[..n], rows[..n], maxAttempts, exhausted)
            + (if (rows[n].retryCount >= maxAttempts) == exhausted then [tasks[n].id] else [])
  {
    assert tasks[..n + 1][..n] == tasks[..n] && rows[..n + 1][..n] == rows[..n];
  }

  function Rows(tasks: seq<CrawlTask>): (rows: seq<TaskRow>)
    reads tasks
    ensures |rows| == |tasks|
    ensures forall i | 0 <= i < |tasks| :: rows[i] == tasks[i].Row()
  {
    seq(|tasks|, i requires 0 <= i < |tasks| reads tasks => tasks[i].Row())
  }

  /**
   The sweep over stale tasks, taken as one atomic step: each is either put back to pending or, its
   attempts used up, failed. No chosen task is stale afterwards.
   */
  method RecoverStaleTasks(
    tasks: set<CrawlTask>, chosen: seq<CrawlTask>, cutoff: int, maxAttempts: int, limit: nat, now: int)
    returns (recovered: seq<int>, exhausted: seq<int>)
    requires OldestStale(tasks, chosen, cutoff, limit)
    modifies chosen
    ensures forall i | 0 <= i < |chosen| :: chosen[i].Row() == RecoverRow(old(chosen[i].Row()), maxAttempts, now)
    ensures forall i | 0 <= i < |chosen| :: !Stale(chosen[i].Row(), cutoff)
    ensures forall t | t in tasks && Stale(t.Row(), cutoff) ::
      |chosen| == limit && forall i | 0 <= i < |chosen| :: old(chosen[i].startedAt).value <= t.startedAt.value
    ensures recovered == IdsWhere(chosen, old(Rows(chosen)), maxAttempts, false)
    ensures exhausted == IdsWhere(chosen, old(Rows(chosen)), maxAttempts, true)
  {
    hide RecoverRow, IdsWhere, StatusName, OldestStale, StartsBefore, Stale, Rows, CrawlTask.Row;
    recovered, exhausted := [], [];
    ghost var rows := Rows(chosen);
    ChosenAreDistinct(tasks, chosen, cutoff, limit);
    OthersStartedLater(tasks, chosen, cutoff, limit);
    IdsWhereNone(maxAttempts, false);
    IdsWhereNone(maxAttempts, true);
    for n := 0 to |chosen|
      invariant forall i | 0 <= i < n :: chosen[i].Row() == RecoverRow(rows[i], maxAttempts, now)
      invariant forall i | n <= i < |chosen| :: chosen[i].Row() == rows[i]
      invariant recovered == IdsWhere(chosen[..n], rows[..n], maxAttempts, false)
      invariant exhausted == IdsWhere(chosen[..n], rows[..n], maxAttempts, true)
    {
      IdsWhereLast(chosen, rows, maxAttempts, false, n);
      IdsWhereLast(chosen, rows, maxAttempts, true, n);
      var lost := chosen[n].Recover(maxAttempts, now);
      if lost {
        exhausted := exhausted + [chosen[n].id];
      } else {
        recovered := recovered + [chosen[n].id];
      }
    }
    assert chosen[..|chosen|] == chosen && rows[..|rows|] == rows;
    forall i | 0 <= i < |chosen| ensures !Stale(chosen[i].Row(), cutoff) {
      NotStaleOnceRecovered(rows[i], maxAttempts, now, cutoff);
    }
    forall t | t in tasks && Stale(t.Row(), cutoff)
      ensures |chosen| == limit && forall i | 0 <= i < |chosen| :: old(chosen[i].startedAt).value <= t.startedAt.value
    {
      assert t !in chosen;
      assert old(Stale(t.Row(), cutoff)) && old(t.startedAt) == t.startedAt;
    }
  }

  lemma OthersStartedLater(tasks: set<CrawlTask>, chosen: seq<CrawlTask>, cutoff: int, limit: nat)
    requires OldestStale(tasks, chosen, cutoff, limit)
    ensures forall i | 0 <= i < |chosen| :: chosen[i].startedAt.Some?
    ensures forall t | t in tasks && Stale(t.Row(), cutoff) && t !in chosen ::
      && t.startedAt.Some? && |chosen| == limit
      && forall i | 0 <= i < |chosen| :: chosen[i].startedAt.value <= t.startedAt.value
  {
    forall i | 0 <= i < |chosen| ensures chosen[i].startedAt.Some? {
      assert Stale(chosen[i].Row(), cutoff);
    }
    forall t | t in tasks && Stale(t.Row(), cutoff) && t !in chosen
      ensures t.startedAt.Some? && |chosen| == limit
      ensures forall i | 0 <= i < |chosen| :: chosen[i].startedAt.value <= t.startedAt.value
    {
      assert forall i | 0 <= i < |chosen| :: StartsBefore(chosen[i], t);
    }
  }

  lemma ChosenAreDistinct(tasks: set<CrawlTask>, chosen: seq<CrawlTask>, cutoff: int, limit: nat)
    requires OldestStale(tasks, chosen, cutoff, limit)
    ensures forall i, j | 0 <= i < j < |chosen| :: chosen[i] != chosen[j]
  {
    forall i, j | 0 <= i < j < |chosen| ensures chosen[i] != chosen[j] {
      assert Stale(chosen[i].Row(), cutoff) && Stale(chosen[j].Row(), cutoff);
      assert StartsBefore(chosen[i], chosen[j]);
    }
  }

  lemma NotStaleOnceRecovered(row: TaskRow, maxAttempts: int, now: int, cutoff: int)
    ensures !Stale(RecoverRow(row, maxAttempts, now), cutoff)
  {
  }

  lemma IdsWhereNone(maxAttempts: int, exhausted: bool)
    ensures IdsWhere([], [], maxAttempts, exhausted) == []
  {
  }

  // ---------------------------------------------------------------- runs

  /** One atomic step on a task, with the clock reading it uses. */
  datatype Event =
    | Claim(now: int)
    | Advance(expected: Status, target: Status, targetStage: Option<string>, provider: string)
    | Cancel(expected: Status, provider: string, providerError: Option<string>, now: int)
    | Recover(cutoff: int, maxAttempts: int, now: int)
    | Transition(target: Status, error: Option<string>, now: int)
    | Retry(now: int)
    | Reconcile(accepted: nat, rejected: nat, total: nat, now: int)
    | Discard(provider: string)
    | Record(progress: Progress)

  function Apply(row: TaskRow, event: Event): TaskRow {
    match event
    case Claim(now) => ClaimRow(row, now)
    case Advance(expected, target, stage, provider) => AdvanceRow(row, expected, target, stage, provider)
    case Cancel(expected, provider, error, now) => CancelRow(row, expected, provider, error, now)
    case Recover(cutoff, maxAttempts, now) => if Stale(row, cutoff) then RecoverRow(row, maxAttempts, now) else row
    case Transition(target, error, now) => TransitionRow(row, target, error, now)
    case Retry(now) => RetryRow(row, now)
    case Reconcile(accepted, rejected, total, now) => ReconcileRow(row, accepted, rejected, total, now)
    case Discard(provider) => DiscardRow(row, provider)
    case Record(progress) => RecordRow(row, progress)
  }

  /**
   What the callers keep to: worker advances, cancels from a status the table lets be cancelled, and
   counters that are not negative.
   */
  predicate Allowed(event: Event) {
    match event
    case Advance(expected, target, _, _) => WorkerPair(expected, target)
    case Cancel(expected, _, _, _) => Edge(expected, Cancelled)
    case Record(progress) => progress.counts.NonNegative()
    case _ => true
  }

  function TimeOf(event: Event, clock: int): int {
    match event
    case Advance(_, _, _, _) => clock
    case Claim(now) => now
    case Cancel(_, _, _, now) => now
    case Recover(_, _, now) => now
    case Transition(_, _, now) => now
    case Retry(now) => now
    case Reconcile(_, _, _, now) => now
    case Discard(_) => clock
    case Record(_) => clock
  }

  /** An interleaving of allowed steps by any number of processes, with a clock that never goes back. */
  predicate Run(events: seq<Event>, clock: int)
    decreases |events|
  {
    events == [] ||
    (Allowed(events[0]) && clock <= TimeOf(events[0], clock) && Run(events[1..], TimeOf(events[0], clock)))
  }

  function After(row: TaskRow, events: seq<Event>): TaskRow
    decreases |events|
  {
    if events == [] then row else After(Apply(row, events[0]), events[1..])
  }

  function ClockAfter(events: seq<Event>, clock: int): int
    decreases |events|
  {
    if events == [] then clock else ClockAfter(events[1..], TimeOf(events[0], clock))
  }

  // ---------------------------------------------------------------- timestamps

  /** `finish_not_before_start`, the check constraint of the table. */
  predicate FinishNotBeforeStart(row: TaskRow) {
    row.finishedAt.Some? && row.startedAt.Some? ==> row.startedAt.value <= row.finishedAt.value
  }

  predicate TimesUpTo(row: TaskRow, clock: int) {
    && (row.startedAt.Some? ==> row.startedAt.value <= clock)
    && (row.finishedAt.Some? ==> row.finishedAt.value <= clock)
  }

  /** The finish time is set exactly in the four finished statuses. */
  predicate FinishLinked(row: TaskRow) {
    && (row.finishedAt.Some? <==> Finished(row.status))
    && row.completedAt == row.finishedAt
  }

  /** Nothing is left of an earlier attempt: no times, no progress and no trace of a provider. */
  predicate Fresh(row: TaskRow) {
    && row.startedAt.None? && row.finishedAt.None? && row.completedAt.None?
    && row.counts == Counts(0, 0, 0, 0, 0, 0, 0, 0, 0, 0)
    && row.providerTaskId.None? && row.cozeExecutionId.None? && row.nextRetryAt.None?
    && row.providerErrorCode.None? && row.providerErrorMessage.None?
  }

  predicate NoProviderError(row: TaskRow) {
    row.providerErrorCode.None? && row.providerErrorMessage.None? && row.nextRetryAt.None?
  }

  predicate Consistent(row: TaskRow, clock: int) {
    && FinishLinked(row) && FinishNotBeforeStart(row) && TimesUpTo(row, clock)
    && (Claimable(row.status) ==> Fresh(row)) && (row.status == WaitingReview ==> NoProviderError(row))
    && row.retryCount >= 0 && row.counts.NonNegative()
  }

  lemma ConsistentMove(row: TaskRow, target: Status, error: Option<string>, now: int, clock: int)
    requires Consistent(row, clock) && clock <= now && Edge(row.status, target)
    ensures Consistent(MoveRow(row, target, error, now), now)
  {
    hide StatusName;
  }

  lemma ConsistentReconcile(row: TaskRow, accepted: nat, rejected: nat, total: nat, now: int, clock: int)
    requires Consistent(row, clock) && clock <= now
    ensures Consistent(ReconcileRow(row, accepted, rejected, total, now), now)
  {
    hide StatusName;
  }

  lemma ConsistentRecover(row: TaskRow, maxAttempts: int, now: int, cutoff: int, clock: int)
    requires Consistent(row, clock) && clock <= now && Stale(row, cutoff)
    ensures Consistent(RecoverRow(row, maxAttempts, now), now)
  {
    hide StatusName;
  }

  lemma ConsistentStep(row: TaskRow, event: Event, clock: int)
    requires Consistent(row, clock) && Allowed(event) && clock <= TimeOf(event, clock)
    ensures Consistent(Apply(row, event), TimeOf(event, clock))
  {
    hide StatusName, MoveRow, ReconcileRow, RecoverRow;
    match event
    case Recover(cutoff, maxAttempts, now) =>
      if Stale(row, cutoff) { ConsistentRecover(row, maxAttempts, now, cutoff, clock); }
    case Reconcile(accepted, rejected, total, now) => ConsistentReconcile(row, accepted, rejected, total, now, clock);
    case Transition(target, error, now) =>
      if Edge(row.status, target) { ConsistentMove(row, target, error, now, clock); }
    case Retry(now) =>
      if Edge(row.status, Pending) { ConsistentMove(row, Pending, None, now, clock); RetryFields(row, now); }
    case _ =>
  }

  lemma RetryFields(row: TaskRow, now: int)
    ensures MoveRow(row, Pending, None, now).retryCount == row.retryCount
  {
  }

  /**
   Under every interleaving of steps on the current row, each reading the clock when it is written,
   the timestamps and counters of a task stay consistent, so no check constraint on them ever fires.
   */
  lemma {:induction false} RunsAreConsistent(row: TaskRow, events: seq<Event>, clock: int)
    requires Consistent(row, clock) && Run(events, clock)
    ensures Consistent(After(row, events), ClockAfter(events, clock))
    decreases |events|
  {
    if events != [] {
      ConsistentStep(row, events[0], clock);
      RunsAreConsistent(Apply(row, events[0]), events[1..], TimeOf(events[0], clock));
    }
  }

  /** A recovery that gives up counts one failure more and nothing else; the attempts stay used up. */
  lemma ExhaustedRecoveryCountsOnce(row: TaskRow, event: Event)
    requires event.Recover? && Stale(row, event.cutoff) && row.retryCount >= event.maxAttempts
    ensures var next := Apply(row, event);
      && next.status == Failed && next.retryCount == row.retryCount && next.startedAt == row.startedAt
      && next.counts.failed == row.counts.failed + 1
      && next.counts == row.counts.(failed := next.counts.failed)
  {
    hide StatusName;
  }

  /** An advance that finds the status it expects writes the provider status and stage it is given. */
  lemma AdvanceReports(row: TaskRow, event: Event)
    requires event.Advance? && event.expected == row.status
    ensures var next := Apply(row, event);
      && next.status == event.target && next.providerStatus == Some(event.provider)
      && (next.stage == StatusName(event.target) || Some(next.stage) == event.targetStage)
      && (event.targetStage == None || event.targetStage == Some("") ==> next.stage == StatusName(event.target))
      && (event.targetStage.Some? && event.targetStage.value != "" ==> next.stage == event.targetStage.value)
      && next == row.(status := next.status, stage := next.stage, providerStatus := next.providerStatus)
  {
    hide StatusName;
  }

  // ---------------------------------------------------------------- transitions of stale objects

  /** The column an update writes: a changed attribute, else what the row holds by now. */
  function Written<T(==)>(loaded: T, changed: T, current: T): T {
    if changed != loaded then changed else current
  }

  /**
   The row after a unit of work that changed an object loaded earlier is flushed: only the
   attributes that differ from the loaded ones are written.
   */
  function WriteBack(loaded: TaskRow, changed: TaskRow, current: TaskRow): TaskRow {
    var l, c, r := loaded.counts, changed.counts, current.counts;
    TaskRow(
      Written(loaded.status, changed.status, current.status),
      Written(loaded.stage, changed.stage, current.stage),
      Written(loaded.startedAt, changed.startedAt, current.startedAt),
      Written(loaded.finishedAt, changed.finishedAt, current.finishedAt),
      Written(loaded.completedAt, changed.completedAt, current.completedAt),
      Written(loaded.retryCount, changed.retryCount, current.retryCount),
      Written(loaded.errorMessage, changed.errorMessage, current.errorMessage),
      Written(loaded.providerStatus, changed.providerStatus, current.providerStatus),
      Written(loaded.providerErrorCode, changed.providerErrorCode, current.providerErrorCode),
      Written(loaded.providerErrorMessage, changed.providerErrorMessage, current.providerErrorMessage),
      Written(loaded.providerTaskId, changed.providerTaskId, current.providerTaskId),
      Written(loaded.cozeExecutionId, changed.cozeExecutionId, current.cozeExecutionId),
      Written(loaded.nextRetryAt, changed.nextRetryAt, current.nextRetryAt),
      Counts(
        Written(l.discovered, c.discovered, r.discovered),
        Written(l.fetched, c.fetched, r.fetched),
        Written(l.success, c.success, r.success),
        Written(l.urlDuplicate, c.urlDuplicate, r.urlDuplicate),
        Written(l.contentDuplicate, c.contentDuplicate, r.contentDuplicate),
        Written(l.semanticDuplicate, c.semanticDuplicate, r.semanticDuplicate),
        Written(l.failed, c.failed, r.failed),
        Written(l.accepted, c.accepted, r.accepted),
        Written(l.rejected, c.rejected, r.rejected),
        Written(l.pendingReview, c.pendingReview, r.pendingReview)))
  }

  /** The columns that the statements below are about. */
  lemma WrittenTimes(loaded: TaskRow, changed: TaskRow, current: TaskRow)
    ensures var row := WriteBack(loaded, changed, current);
      && row.status == Written(loaded.status, changed.status, current.status)
      && row.startedAt == Written(loaded.startedAt, changed.startedAt, current.startedAt)
      && row.finishedAt == Written(loaded.finishedAt, changed.finishedAt, current.finishedAt)
      && row.completedAt == Written(loaded.completedAt, changed.completedAt, current.completedAt)
  {
  }

  /** A transition checked on an object loaded earlier and written over the row as it is by now. */
  function StaleTransitionRow(
    loaded: TaskRow, current: TaskRow, target: Status, error: Option<string>, now: int): TaskRow
  {
    if Edge(loaded.status, target) then WriteBack(loaded, MoveRow(loaded, target, error, now), current) else current
  }

  /**
   The sweep on a task that it found stale when it loaded it. Its query locks nothing, so the row
   may be another by the time the object is written.
   */
  function StaleRecoverRow(loaded: TaskRow, current: TaskRow, cutoff: int, maxAttempts: int, now: int): TaskRow {
    if Stale(loaded, cutoff) then WriteBack(loaded, RecoverRow(loaded, maxAttempts, now), current) else current
  }

  /** The note of a discarded result, on an object that was refreshed and found cancelled some time before. */
  function StaleDiscardRow(loaded: TaskRow, current: TaskRow, providerStatus: string): TaskRow {
    WriteBack(loaded, DiscardRow(loaded, providerStatus), current)
  }

  /** A report written to an object that was loaded some time before. */
  function StaleRecordRow(loaded: TaskRow, current: TaskRow, progress: Progress): TaskRow {
    WriteBack(loaded, RecordRow(loaded, progress), current)
  }

  datatype RacyEvent =
    | Atomic(event: Event)
    | StaleTransition(loaded: TaskRow, target: Status, error: Option<string>, at: int)
    | StaleRecover(loaded: TaskRow, cutoff: int, maxAttempts: int, at: int)
    | StaleDiscard(loaded: TaskRow, provider: string)
    | StaleRecord(loaded: TaskRow, progress: Progress)

  function RacyApply(row: TaskRow, racy: RacyEvent): TaskRow {
    match racy
    case Atomic(event) => Apply(row, event)
    case StaleTransition(loaded, target, error, at) => StaleTransitionRow(loaded, row, target, error, at)
    case StaleRecover(loaded, cutoff, maxAttempts, at) => StaleRecoverRow(loaded, row, cutoff, maxAttempts, at)
    case StaleDiscard(loaded, provider) => StaleDiscardRow(loaded, row, provider)
    case StaleRecord(loaded, progress) => StaleRecordRow(loaded, row, progress)
  }

  /** The clock reading of a step, or the clock itself for a step that reads none. */
  function RacyTime(racy: RacyEvent, clock: int): int {
    match racy
    case Atomic(event) => TimeOf(event, clock)
    case StaleTransition(_, _, _, at) => at
    case StaleRecover(_, _, _, at) => at
    case StaleDiscard(_, _) => clock
    case StaleRecord(_, _) => clock
  }

  /**
   Steps as before, and steps on objects loaded at any time; no stale transition starts a task. Each
   clock reading is taken to be made when its step is written.
   */
  predicate RacyRun(events: seq<RacyEvent>, clock: int)
    decreases |events|
  {
    events == [] ||
    (&& clock <= RacyTime(events[0], clock)
     && (events[0].Atomic? ==> Allowed(events[0].event))
     && (events[0].StaleTransition? ==> events[0].target != Running)
     && RacyRun(events[1..], RacyTime(events[0], clock)))
  }

  function RacyAfter(row: TaskRow, events: seq<RacyEvent>): TaskRow
    decreases |events|
  {
    if events == [] then row else RacyAfter(RacyApply(row, events[0]), events[1..])
  }

  lemma OrderedMove(loaded: TaskRow, row: TaskRow, target: Status, error: Option<string>, now: int, clock: int)
    requires FinishNotBeforeStart(row) && TimesUpTo(row, clock) && clock <= now && target != Running
    ensures var next := StaleTransitionRow(loaded, row, target, error, now);
      FinishNotBeforeStart(next) && TimesUpTo(next, now)
  {
    hide StatusName, Edge, WriteBack;
    WrittenTimes(loaded, MoveRow(loaded, target, error, now), row);
  }

  lemma OrderedRecover(loaded: TaskRow, row: TaskRow, cutoff: int, maxAttempts: int, now: int, clock: int)
    requires FinishNotBeforeStart(row) && TimesUpTo(row, clock) && clock <= now
    ensures var next := StaleRecoverRow(loaded, row, cutoff, maxAttempts, now);
      FinishNotBeforeStart(next) && TimesUpTo(next, now)
  {
    hide StatusName;
  }

  lemma OrderedStep(row: TaskRow, event: Event, clock: int)
    requires FinishNotBeforeStart(row) && TimesUpTo(row, clock)
    requires Allowed(event) && clock <= TimeOf(event, clock)
    ensures FinishNotBeforeStart(Apply(row, event)) && TimesUpTo(Apply(row, event), TimeOf(event, clock))
  {
    hide StatusName, Edge;
  }

  /** A stale discard changes nothing but the note, whatever the row is by then. */
  lemma DiscardOnlyMarks(loaded: TaskRow, row: TaskRow, provider: string)
    ensures var next := StaleDiscardRow(loaded, row, provider);
      next == row.(providerStatus := next.providerStatus, stage := next.stage)
  {
    hide StatusName;
  }

  /** Nor does a stale report touch more than what it reports. */
  lemma RecordOnlyReports(loaded: TaskRow, row: TaskRow, progress: Progress)
    ensures var next := StaleRecordRow(loaded, row, progress);
      next == row.(counts := next.counts, providerErrorCode := next.providerErrorCode,
                   providerErrorMessage := next.providerErrorMessage, providerTaskId := next.providerTaskId,
                   cozeExecutionId := next.cozeExecutionId, nextRetryAt := next.nextRetryAt)
  {
  }

  lemma OrderSurvivesMarks(row: TaskRow, next: TaskRow, clock: int)
    requires FinishNotBeforeStart(row) && TimesUpTo(row, clock)
    requires next.startedAt == row.startedAt && next.finishedAt == row.finishedAt
    ensures FinishNotBeforeStart(next) && TimesUpTo(next, clock)
  {
  }

  /**
   Even when steps are decided on stale objects, no task ever finishes before it starts, as long as
   each step reads the clock when it is written: then the check constraint holds in every racy run.
   */
  lemma {:induction false} RacyRunsKeepOrder(row: TaskRow, events: seq<RacyEvent>, clock: int)
    requires FinishNotBeforeStart(row) && TimesUpTo(row, clock) && RacyRun(events, clock)
    ensures FinishNotBeforeStart(RacyAfter(row, events))
    decreases |events|
  {
    hide StaleTransitionRow, StaleRecoverRow, StaleDiscardRow, StaleRecordRow, Apply, FinishNotBeforeStart, TimesUpTo,
      Allowed;
    if events != [] {
      match events[0]
      case Atomic(event) =>
        OrderedStep(row, event, clock);
        RacyRunsKeepOrder(Apply(row, event), events[1..], TimeOf(event, clock));
      case StaleTransition(loaded, target, error, at) =>
        OrderedMove(loaded, row, target, error, at, clock);
        RacyRunsKeepOrder(StaleTransitionRow(loaded, row, target, error, at), events[1..], at);
      case StaleRecover(loaded, cutoff, maxAttempts, at) =>
        OrderedRecover(loaded, row, cutoff, maxAttempts, at, clock);
        RacyRunsKeepOrder(StaleRecoverRow(loaded, row, cutoff, maxAttempts, at), events[1..], at);
      case StaleDiscard(loaded, provider) =>
        DiscardOnlyMarks(loaded, row, provider);
        OrderSurvivesMarks(row, StaleDiscardRow(loaded, row, provider), clock);
        RacyRunsKeepOrder(StaleDiscardRow(loaded, row, provider), events[1..], clock);
      case StaleRecord(loaded, progress) =>
        RecordOnlyReports(loaded, row, progress);
        OrderSurvivesMarks(row, StaleRecordRow(loaded, row, progress), clock);
        RacyRunsKeepOrder(StaleRecordRow(loaded, row, progress), events[1..], clock);
    }
  }

  lemma MovedTimes(row: TaskRow, target: Status, error: Option<string>, now: int)
    ensures var next := MoveRow(row, target, error, now);
      && next.status == target
      && (Finished(target) ==> next.finishedAt == next.completedAt == Some(now))
      && (!Finished(target) ==> next.finishedAt.None? || next.finishedAt == row.finishedAt)
      && (!Finished(target) ==> next.completedAt.None? || next.completedAt == row.completedAt)
      && (target == WaitingReview || target == Pending ==> next.finishedAt.None? && next.completedAt.None?)
  {
    hide StatusName;
  }

  /**
   A stale transition leaves the finish time linked to the status exactly when it finishes the
   task, or the row has not finished since, or the loaded object was a finished one.
   */
  lemma StaleTransitionLinkedExactly(
    loaded: TaskRow, current: TaskRow, target: Status, error: Option<string>, now: int)
    requires FinishLinked(loaded) && FinishLinked(current)
    requires Edge(loaded.status, target) && loaded.finishedAt != Some(now)
    ensures FinishLinked(StaleTransitionRow(loaded, current, target, error, now))
      <==> Finished(target) || !Finished(current.status) || Finished(loaded.status)
  {
    hide StatusName, WriteBack, MoveRow;
    MovedTimes(loaded, target, error, now);
    WrittenTimes(loaded, MoveRow(loaded, target, error, now), current);
    assert loaded.status != target;
  }

  /**
   Where the link fails: a worker loads a task it is saving, the sweep fails that task, and the
   worker then moves its own object to waiting for review.
   */
  lemma StaleTransitionUnlinks() returns (loaded: TaskRow, swept: TaskRow, final: TaskRow)
    ensures Consistent(loaded, 5) && Stale(loaded, 9)
    ensures swept == RecoverRow(loaded, 3, 10) && Consistent(swept, 10)
    ensures final == StaleTransitionRow(loaded, swept, WaitingReview, None, 11)
    ensures final.status == WaitingReview && final.finishedAt == Some(10) && !FinishLinked(final)
  {
    hide StatusName;
    loaded := NEW_TASK.(status := SavingDocuments, startedAt := Some(5), retryCount := 3);
    swept := RecoverRow(loaded, 3, 10);
    final := StaleTransitionRow(loaded, swept, WaitingReview, None, 11);
  }

  /** A recovery of a stale object keeps the link exactly when it fails the task or the row has not finished since. */
  lemma StaleRecoverLinkedExactly(loaded: TaskRow, current: TaskRow, cutoff: int, maxAttempts: int, now: int)
    requires FinishLinked(loaded) && FinishLinked(current) && Stale(loaded, cutoff)
    ensures FinishLinked(StaleRecoverRow(loaded, current, cutoff, maxAttempts, now))
      <==> loaded.retryCount >= maxAttempts || !Finished(current.status)
  {
    hide StatusName;
    assert loaded.finishedAt.None? && loaded.completedAt.None?;
  }

  /** Not a stale step that gives an unfinished status to a row which has finished since. */
  predicate SparesLink(row: TaskRow, racy: RacyEvent) {
    match racy
    case Atomic(_) => true
    case StaleTransition(loaded, target, _, _) =>
      !Edge(loaded.status, target) || Finished(target) || !Finished(row.status) || Finished(loaded.status)
    case StaleRecover(loaded, cutoff, maxAttempts, _) =>
      !Stale(loaded, cutoff) || loaded.retryCount >= maxAttempts || !Finished(row.status)
    case StaleDiscard(_, _) => true
    case StaleRecord(_, _) => true
  }

  /** What a step is taken to be: allowed, or of an object whose finish time was linked and is past. */
  predicate LoadedLinked(racy: RacyEvent) {
    match racy
    case Atomic(event) => Allowed(event)
    case StaleTransition(loaded, _, _, at) => FinishLinked(loaded) && loaded.finishedAt != Some(at)
    case StaleRecover(loaded, _, _, _) => FinishLinked(loaded)
    case StaleDiscard(_, _) => true
    case StaleRecord(_, _) => true
  }

  lemma LinkSparedExactly(row: TaskRow, racy: RacyEvent)
    requires FinishLinked(row) && LoadedLinked(racy)
    ensures FinishLinked(RacyApply(row, racy)) <==> SparesLink(row, racy)
  {
    hide StatusName, Apply, StaleTransitionRow, StaleRecoverRow, StaleDiscardRow, StaleRecordRow;
    match racy
    case Atomic(event) => GuardedStepKeepsLink(row, event);
    case StaleTransition(loaded, target, error, at) =>
      if Edge(loaded.status, target) {
        StaleTransitionLinkedExactly(loaded, row, target, error, at);
      } else {
        NoStaleTransition(loaded, row, target, error, at);
      }
    case StaleRecover(loaded, cutoff, maxAttempts, at) =>
      if Stale(loaded, cutoff) {
        StaleRecoverLinkedExactly(loaded, row, cutoff, maxAttempts, at);
      } else {
        NoStaleRecover(loaded, row, cutoff, maxAttempts, at);
      }
    case StaleDiscard(loaded, provider) => DiscardOnlyMarks(loaded, row, provider);
    case StaleRecord(loaded, progress) => RecordOnlyReports(loaded, row, progress);
  }

  lemma GuardedStepKeepsLink(row: TaskRow, event: Event)
    requires FinishLinked(row) && Allowed(event)
    ensures FinishLinked(Apply(row, event))
  {
    hide StatusName;
  }

  lemma NoStaleTransition(loaded: TaskRow, row: TaskRow, target: Status, error: Option<string>, now: int)
    requires !Edge(loaded.status, target)
    ensures StaleTransitionRow(loaded, row, target, error, now) == row
  {
  }

  lemma NoStaleRecover(loaded: TaskRow, row: TaskRow, cutoff: int, maxAttempts: int, now: int)
    requires !Stale(loaded, cutoff)
    ensures StaleRecoverRow(loaded, row, cutoff, maxAttempts, now) == row
  {
  }

  predicate LinkedThroughout(row: TaskRow, events: seq<RacyEvent>)
    decreases |events|
  {
    FinishLinked(row) && (events == [] || LinkedThroughout(RacyApply(row, events[0]), events[1..]))
  }

  predicate LinkSparedThroughout(row: TaskRow, events: seq<RacyEvent>)
    decreases |events|
  {
    events == []
    || (SparesLink(row, events[0]) && LinkSparedThroughout(RacyApply(row, events[0]), events[1..]))
  }

  /** As long as the link has not been lost, the objects that are loaded have it. */
  predicate LoadedWhileLinked(row: TaskRow, events: seq<RacyEvent>)
    decreases |events|
  {
    events == []
    || (&& LoadedLinked(events[0])
        && (var next := RacyApply(row, events[0]); FinishLinked(next) ==> LoadedWhileLinked(next, events[1..])))
  }

  /**
   Over every racy run, the finish time stays linked to the status throughout exactly when no stale
   step meets a row that has finished since it was loaded, unless that step finishes the task itself.
   */
  lemma {:induction false} LinkLastsExactly(row: TaskRow, events: seq<RacyEvent>)
    requires FinishLinked(row) && LoadedWhileLinked(row, events)
    ensures LinkedThroughout(row, events) <==> LinkSparedThroughout(row, events)
    decreases |events|
  {
    hide RacyApply, SparesLink, LoadedLinked, FinishLinked;
    if events != [] {
      var next := RacyApply(row, events[0]);
      LinkSparedExactly(row, events[0]);
      if FinishLinked(next) { LinkLastsExactly(next, events[1..]); }
    }
  }

  /** The sweep loads a task that a worker is saving; the worker completes it; the sweep puts it back to pending. */
  lemma StaleRecoverUnlinks() returns (loaded: TaskRow, completed: TaskRow, final: TaskRow)
    ensures Consistent(loaded, 5) && Stale(loaded, 9)
    ensures completed == TransitionRow(loaded, Completed, None, 10) && Consistent(completed, 10)
    ensures final == StaleRecoverRow(loaded, completed, 9, 3, 11)
    ensures final.status == Pending && final.finishedAt == Some(10) && !FinishLinked(final)
  {
    hide StatusName;
    loaded := NEW_TASK.(status := SavingDocuments, startedAt := Some(5));
    completed := TransitionRow(loaded, Completed, None, 10);
    final := StaleRecoverRow(loaded, completed, 9, 3, 11);
  }

  /** The report changes no column but to what a fresh task has there. */
  predicate ReportsNothing(loaded: TaskRow, progress: Progress) {
    var l, c := loaded.counts, progress.counts;
    && (forall k | 0 <= k < 10 :: Counters(c)[k] == Counters(l)[k] || Counters(c)[k] == 0)
    && (progress.providerErrorCode == loaded.providerErrorCode || progress.providerErrorCode.None?)
    && (progress.providerErrorMessage == loaded.providerErrorMessage || progress.providerErrorMessage.None?)
    && (progress.providerTaskId == loaded.providerTaskId || progress.providerTaskId.None?)
    && (progress.cozeExecutionId == loaded.cozeExecutionId || progress.cozeExecutionId.None?)
    && (progress.nextRetryAt == loaded.nextRetryAt || progress.nextRetryAt.None?)
  }

  function Counters(c: Counts): (counters: seq<int>)
    ensures |counters| == 10
  {
    [c.discovered, c.fetched, c.success, c.urlDuplicate, c.contentDuplicate, c.semanticDuplicate, c.failed,
     c.accepted, c.rejected, c.pendingReview]
  }

  /**
   A worker whose task was requeued writes its report over the fresh row: it stays fresh exactly when
   the report has nothing to say.
   */
  lemma StaleRecordFreshExactly(loaded: TaskRow, current: TaskRow, progress: Progress)
    requires InWork(loaded.status) && Fresh(current)
    ensures Fresh(StaleRecordRow(loaded, current, progress)) <==> ReportsNothing(loaded, progress)
  {
    var l, c := Counters(loaded.counts), Counters(progress.counts);
    var written := StaleRecordRow(loaded, current, progress).counts;
    assert forall k | 0 <= k < 10 :: Counters(written)[k] == if c[k] == l[k] then 0 else c[k];
    ZeroCounters(written);
  }

  lemma ZeroCounters(c: Counts)
    ensures c == Counts(0, 0, 0, 0, 0, 0, 0, 0, 0, 0) <==> forall k | 0 <= k < 10 :: Counters(c)[k] == 0
  {
    var s := Counters(c);
    assert s[0] == c.discovered && s[1] == c.fetched && s[2] == c.success && s[3] == c.urlDuplicate;
    assert s[4] == c.contentDuplicate && s[5] == c.semanticDuplicate && s[6] == c.failed;
    assert s[7] == c.accepted && s[8] == c.rejected && s[9] == c.pendingReview;
  }

  /** The sweep requeues a task; its old worker then counts an article on the pending row. */
  lemma StaleRecordSoils() returns (loaded: TaskRow, progress: Progress, swept: TaskRow, final: TaskRow)
    ensures Consistent(loaded, 5) && Stale(loaded, 9) && swept == RecoverRow(loaded, 3, 10) && Fresh(swept)
    ensures final == StaleRecordRow(loaded, swept, progress)
    ensures final.status == Pending && final.counts.fetched == 1 && !Fresh(final)
  {
    hide StatusName;
    loaded := NEW_TASK.(status := Running, startedAt := Some(5));
    swept := RecoverRow(loaded, 3, 10);
    progress := Progress(NoProgress().(fetched := 1), None, None, None, None, None);
    final := StaleRecordRow(loaded, swept, progress);
  }

  // ---------------------------------------------------------------- clock readings made before the write

  /** The step sets the finish time, to its own clock reading. */
  predicate Finishes(row: TaskRow, racy: RacyEvent) {
    match racy
    case Atomic(Cancel(expected, _, _, _)) => row.status == expected
    case Atomic(Recover(cutoff, maxAttempts, _)) => Stale(row, cutoff) && row.retryCount >= maxAttempts
    case Atomic(Transition(target, _, _)) => Edge(row.status, target) && Finished(target)
    case Atomic(Reconcile(accepted, rejected, total, _)) =>
      row.status == WaitingReview && total > 0 && accepted + rejected >= total
    case Atomic(_) => false
    case StaleTransition(loaded, target, _, _) => Edge(loaded.status, target) && Finished(target)
    case StaleRecover(loaded, cutoff, maxAttempts, _) => Stale(loaded, cutoff) && loaded.retryCount >= maxAttempts
    case StaleDiscard(_, _) => false
    case StaleRecord(_, _) => false
  }

  /** The step does not set a finish time that is before the start of the row it is written over. */
  predicate ReadInTime(row: TaskRow, racy: RacyEvent) {
    Finishes(row, racy) && row.startedAt.Some? ==> row.startedAt.value <= RacyTime(racy, 0)
  }

  /** A stale transition starts no task and the object it finishes was not finished at the same reading before. */
  predicate OrdinaryStale(racy: RacyEvent) {
    match racy
    case Atomic(_) => true
    case StaleTransition(loaded, target, _, at) => target != Running && loaded.finishedAt != Some(at)
    case StaleRecover(loaded, _, _, at) => loaded.finishedAt != Some(at)
    case StaleDiscard(_, _) => true
    case StaleRecord(_, _) => true
  }

  lemma GuardedReadExactly(row: TaskRow, event: Event)
    requires FinishNotBeforeStart(row)
    ensures FinishNotBeforeStart(Apply(row, event)) <==> ReadInTime(row, Atomic(event))
  {
    hide StatusName, MoveRow, Edge;
    match event
    case Transition(target, error, now) => MoveReadExactly(row, target, error, now);
    case Retry(now) => MoveReadExactly(row, Pending, None, now);
    case _ =>
  }

  lemma MoveReadExactly(row: TaskRow, target: Status, error: Option<string>, now: int)
    requires FinishNotBeforeStart(row)
    ensures FinishNotBeforeStart(MoveRow(row, target, error, now))
      <==> (Finished(target) && row.startedAt.Some? ==> row.startedAt.value <= now)
  {
    hide StatusName;
  }

  lemma StaleReadExactly(row: TaskRow, racy: RacyEvent)
    requires FinishNotBeforeStart(row) && OrdinaryStale(racy) && !racy.Atomic?
    ensures FinishNotBeforeStart(RacyApply(row, racy)) <==> ReadInTime(row, racy)
  {
    hide StatusName, Apply, WriteBack;
    match racy
    case StaleTransition(loaded, target, error, at) => WrittenTimes(loaded, MoveRow(loaded, target, error, at), row);
    case StaleRecover(loaded, _, maxAttempts, at) => WrittenTimes(loaded, RecoverRow(loaded, maxAttempts, at), row);
    case StaleDiscard(loaded, provider) => WrittenTimes(loaded, DiscardRow(loaded, provider), row);
    case StaleRecord(loaded, progress) => WrittenTimes(loaded, RecordRow(loaded, progress), row);
  }

  predicate OrderedThroughout(row: TaskRow, events: seq<RacyEvent>)
    decreases |events|
  {
    FinishNotBeforeStart(row) && (events == [] || OrderedThroughout(RacyApply(row, events[0]), events[1..]))
  }

  predicate ReadInTimeThroughout(row: TaskRow, events: seq<RacyEvent>)
    decreases |events|
  {
    events == []
    || (ReadInTime(row, events[0]) && ReadInTimeThroughout(RacyApply(row, events[0]), events[1..]))
  }

  /**
   With clock readings of any age and in any order: over every racy run the check constraint holds
   throughout exactly when no step finishes the task with a reading from before the start that the
   row has by then.
   */
  lemma {:induction false} OrderLastsExactly(row: TaskRow, events: seq<RacyEvent>)
    requires FinishNotBeforeStart(row) && forall i | 0 <= i < |events| :: OrdinaryStale(events[i])
    ensures OrderedThroughout(row, events) <==> ReadInTimeThroughout(row, events)
    decreases |events|
  {
    hide RacyApply, ReadInTime, OrdinaryStale, FinishNotBeforeStart;
    if events != [] {
      var next := RacyApply(row, events[0]);
      assert forall i | 0 <= i < |events[1..]| :: events[1..][i] == events[i + 1];
      ReadExactly(row, events[0]);
      if FinishNotBeforeStart(next) { OrderLastsExactly(next, events[1..]); }
    }
  }

  lemma ReadExactly(row: TaskRow, racy: RacyEvent)
    requires FinishNotBeforeStart(row) && OrdinaryStale(racy)
    ensures FinishNotBeforeStart(RacyApply(row, racy)) <==> ReadInTime(row, racy)
  {
    hide StatusName, Apply, ReadInTime, FinishNotBeforeStart;
    match racy
    case Atomic(event) => GuardedReadExactly(row, event);
    case _ => StaleReadExactly(row, racy);
  }

  /**
   Where the constraint fires: a worker decides at 10 to fail the task it loaded, the sweep requeues
   the task at 11, another worker claims it at 12, and then the decision is written.
   */
  lemma EarlyTransitionBreaksOrder() returns (loaded: TaskRow, events: seq<RacyEvent>)
    ensures Consistent(loaded, 5) && loaded.status == Running
    ensures events == [Atomic(Recover(9, 3, 11)), Atomic(Claim(12)), StaleTransition(loaded, Failed, None, 10)]
    ensures RacyAfter(loaded, events[..2]).status == Running && !FinishNotBeforeStart(RacyAfter(loaded, events))
  {
    hide StatusName, WriteBack, RacyAfter;
    loaded := NEW_TASK.(status := Running, startedAt := Some(5));
    events := [Atomic(Recover(9, 3, 11)), Atomic(Claim(12)), StaleTransition(loaded, Failed, None, 10)];
    WrittenTimes(loaded, MoveRow(loaded, Failed, None, 10), ClaimRow(RecoverRow(loaded, 3, 11), 12));
    AfterTwo(loaded, events[0], events[1]);
    AfterLast(loaded, events[..2], events[2]);
    assert events[..2] == [events[0], events[1]] && events == events[..2] + [events[2]];
  }

  /** The guarded cancel can do it too: read at 10 for a running task, written once it runs again since 12. */
  lemma EarlyCancelBreaksOrder() returns (row: TaskRow, cancelled: TaskRow)
    ensures Consistent(row, 12) && row.status == Running && row.startedAt == Some(12)
    ensures cancelled == Apply(row, Cancel(Running, "", None, 10)) && !FinishNotBeforeStart(cancelled)
  {
    hide StatusName;
    row := NEW_TASK.(status := Running, startedAt := Some(12));
    cancelled := Apply(row, Cancel(Running, "", None, 10));
  }

  lemma {:induction false} AfterLast(row: TaskRow, events: seq<RacyEvent>, last: RacyEvent)
    ensures RacyAfter(row, events + [last]) == RacyApply(RacyAfter(row, events), last)
    decreases |events|
  {
    hide RacyApply;
    if events == [] {
      assert [] + [last] == [last] && [last][1..] == [];
      assert RacyAfter(RacyApply(row, last), []) == RacyApply(row, last);
    } else {
      AfterLast(RacyApply(row, events[0]), events[1..], last);
      assert (events + [last])[1..] == events[1..] + [last];
    }
  }

  lemma AfterTwo(row: TaskRow, first: RacyEvent, second: RacyEvent)
    ensures RacyAfter(row, [first, second]) == RacyApply(RacyApply(row, first), second)
  {
    hide RacyApply;
    AfterLast(row, [first], second);
    AfterLast(row, [], first);
    assert [] + [first] == [first] && [first] + [second] == [first, second];
    assert RacyAfter(row, []) == row;
  }

  // ---------------------------------------------------------------- termination

  /** How far a task is from finishing. Entering the local crawl is a stage of running. */
  function Rank(row: TaskRow): nat {
    match row.status
    case Pending => 9
    case Queued => 8
    case Running => if row.stage == StatusName(Running) then 7 else 6
    case CallingCoze => 5
    case CozeRunning => 4
    case Normalizing => 3
    case SavingDocuments => 2
    case WaitingReview => 1
    case _ => 0
  }

  function AttemptsLeft(row: TaskRow, maxAttempts: int): nat {
    if row.retryCount < maxAttempts then maxAttempts - row.retryCount else 0
  }

  /** The lexicographic pair of attempts left and rank, as one number. */
  function Measure(row: TaskRow, maxAttempts: int): nat {
    10 * AttemptsLeft(row, maxAttempts) + Rank(row)
  }

  /** Not the operator: neither a retry nor a move out of a failed, partly failed or cancelled task. */
  predicate Automatic(row: TaskRow, event: Event, maxAttempts: int) {
    && Allowed(event)
    && !event.Retry?
    && (event.Transition? ==> !Finished(row.status))
    && (event.Recover? ==> event.maxAttempts == maxAttempts)
    && (event.Advance? && event.target == Running ==>
        event.targetStage.Some? && event.targetStage.value != "" && event.targetStage.value != StatusName(Running))
  }

  predicate AutomaticRun(row: TaskRow, events: seq<Event>, maxAttempts: int)
    decreases |events|
  {
    events == [] ||
    (Automatic(row, events[0], maxAttempts) && AutomaticRun(Apply(row, events[0]), events[1..], maxAttempts))
  }

  predicate Moves(row: TaskRow, event: Event) {
    var next := Apply(row, event);
    next.status != row.status || next.retryCount != row.retryCount || Rank(next) != Rank(row)
  }

  function MoveCount(row: TaskRow, events: seq<Event>): nat
    decreases |events|
  {
    if events == [] then 0
    else (if Moves(row, events[0]) then 1 else 0) + MoveCount(Apply(row, events[0]), events[1..])
  }

  lemma MoveDecreases(row: TaskRow, event: Event, maxAttempts: int)
    requires Automatic(row, event, maxAttempts)
    ensures Measure(Apply(row, event), maxAttempts) <= Measure(row, maxAttempts)
    ensures Moves(row, event) ==> Measure(Apply(row, event), maxAttempts) < Measure(row, maxAttempts)
  {
    hide StatusName, TransitionRow;
    match event
    case Transition(target, error, now) => TransitionDecreases(row, target, error, now);
    case _ =>
  }

  lemma TransitionDecreases(row: TaskRow, target: Status, error: Option<string>, now: int)
    requires !Finished(row.status)
    ensures var next := TransitionRow(row, target, error, now);
      && next.retryCount == row.retryCount && Rank(next) <= Rank(row)
      && (next.status != row.status || Rank(next) != Rank(row) ==> Rank(next) < Rank(row))
  {
    hide StatusName;
  }

  /** Without the operator a task makes at most as many moves as its measure, whatever the interleaving. */
  lemma {:induction false} TasksTerminate(row: TaskRow, events: seq<Event>, maxAttempts: int)
    requires AutomaticRun(row, events, maxAttempts)
    ensures MoveCount(row, events) + Measure(After(row, events), maxAttempts) <= Measure(row, maxAttempts)
    ensures Measure(row, maxAttempts) <= 10 * AttemptsLeft(row, maxAttempts) + 9
    decreases |events|
  {
    hide Apply, Rank, Moves, Automatic, StatusName;
    RankAtMostNine(row);
    if events != [] {
      MoveDecreases(row, events[0], maxAttempts);
      TasksTerminate(Apply(row, events[0]), events[1..], maxAttempts);
    }
  }

  lemma RankAtMostNine(row: TaskRow)
    ensures Rank(row) <= 9
  {
  }

  /** The sweep puts the task back to pending. */
  predicate Requeues(row: TaskRow, event: Event) {
    event.Recover? && Stale(row, event.cutoff) && row.retryCount < event.maxAttempts
  }

  function RequeueCount(row: TaskRow, events: seq<Event>): nat
    decreases |events|
  {
    if events == [] then 0
    else (if Requeues(row, events[0]) then 1 else 0) + RequeueCount(Apply(row, events[0]), events[1..])
  }

  lemma AttemptsStep(row: TaskRow, event: Event, maxAttempts: int)
    requires Automatic(row, event, maxAttempts)
    ensures AttemptsLeft(Apply(row, event), maxAttempts) + (if Requeues(row, event) then 1 else 0)
      == AttemptsLeft(row, maxAttempts)
  {
    hide StatusName;
  }

  /** Without the operator every recovery to pending uses up one of the attempts left, and nothing else does. */
  lemma {:induction false} RecoveriesUseAttempts(row: TaskRow, events: seq<Event>, maxAttempts: int)
    requires AutomaticRun(row, events, maxAttempts)
    ensures RequeueCount(row, events) + AttemptsLeft(After(row, events), maxAttempts) == AttemptsLeft(row, maxAttempts)
    decreases |events|
  {
    hide Apply, Automatic, AttemptsLeft, Requeues;
    if events != [] {
      AttemptsStep(row, events[0], maxAttempts);
      RecoveriesUseAttempts(Apply(row, events[0]), events[1..], maxAttempts);
    }
  }

  predicate NoClaimOrStart(event: Event) {
    !event.Claim? && !(event.Transition? && event.target == Running)
  }

  /** The worker that started the task, if any, has given it up. */
  predicate AtRest(row: TaskRow) {
    row.startedAt.None? || row.status == WaitingReview || Finished(row.status)
  }

  lemma RestStep(row: TaskRow, event: Event)
    requires AtRest(row) && Allowed(event) && NoClaimOrStart(event)
    ensures AtRest(Apply(row, event))
  {
    hide StatusName;
  }

  lemma {:induction false} RestLasts(row: TaskRow, events: seq<Event>)
    requires AtRest(row) && forall i | 0 <= i < |events| :: Allowed(events[i]) && NoClaimOrStart(events[i])
    ensures AtRest(After(row, events))
    decreases |events|
  {
    hide Apply, AtRest, Allowed, NoClaimOrStart;
    if events != [] {
      assert forall i | 0 <= i < |events[1..]| :: events[1..][i] == events[i + 1];
      RestStep(row, events[0]);
      RestLasts(Apply(row, events[0]), events[1..]);
    }
  }

  /** Once recovered, a task is not found stale again, at any cutoff, before it is claimed or started. */
  lemma RecoveredUntilClaimed(row: TaskRow, maxAttempts: int, now: int, events: seq<Event>, cutoff: int)
    requires forall i | 0 <= i < |events| :: Allowed(events[i]) && NoClaimOrStart(events[i])
    ensures !Stale(After(RecoverRow(row, maxAttempts, now), events), cutoff)
  {
    hide StatusName, After, Allowed, NoClaimOrStart;
    RestLasts(RecoverRow(row, maxAttempts, now), events);
  }

  /** A recovery of a stale object to pending uses up an attempt exactly when no other has counted one since. */
  lemma StaleRecoverUsesAttemptExactly(loaded: TaskRow, current: TaskRow, cutoff: int, maxAttempts: int, now: int)
    requires Stale(loaded, cutoff) && loaded.retryCount < maxAttempts
    ensures AttemptsLeft(StaleRecoverRow(loaded, current, cutoff, maxAttempts, now), maxAttempts) + 1
        == AttemptsLeft(current, maxAttempts)
      <==> loaded.retryCount == current.retryCount
  {
    hide StatusName;
  }

  predicate RacyAutomatic(row: TaskRow, racy: RacyEvent, maxAttempts: int) {
    match racy
    case Atomic(event) => Automatic(row, event, maxAttempts)
    case StaleRecover(_, _, max, _) => max == maxAttempts
    case _ => true
  }

  /** The sweep puts the task back to pending, perhaps over a row that has changed since it was loaded. */
  predicate RacyRequeues(row: TaskRow, racy: RacyEvent) {
    match racy
    case Atomic(event) => Requeues(row, event)
    case StaleRecover(loaded, cutoff, maxAttempts, _) => Stale(loaded, cutoff) && loaded.retryCount < maxAttempts
    case _ => false
  }

  /** Each requeue uses up one of the attempts left, and no other step does. */
  predicate AttemptsUsedThroughout(row: TaskRow, events: seq<RacyEvent>, maxAttempts: int)
    decreases |events|
  {
    events == [] ||
    (var next := RacyApply(row, events[0]);
     && AttemptsLeft(next, maxAttempts) + (if RacyRequeues(row, events[0]) then 1 else 0)
          == AttemptsLeft(row, maxAttempts)
     && AttemptsUsedThroughout(next, events[1..], maxAttempts))
  }

  /** What a sweep requeues was loaded with the attempts that the row has by then. */
  predicate CountIsCurrent(row: TaskRow, racy: RacyEvent) {
    racy.StaleRecover? && RacyRequeues(row, racy) ==> racy.loaded.retryCount == row.retryCount
  }

  predicate CountsAreCurrent(row: TaskRow, events: seq<RacyEvent>)
    decreases |events|
  {
    events == [] || (CountIsCurrent(row, events[0]) && CountsAreCurrent(RacyApply(row, events[0]), events[1..]))
  }

  lemma RequeueUsesAttemptExactly(row: TaskRow, racy: RacyEvent, maxAttempts: int)
    requires RacyAutomatic(row, racy, maxAttempts)
    ensures AttemptsLeft(RacyApply(row, racy), maxAttempts) + (if RacyRequeues(row, racy) then 1 else 0)
        == AttemptsLeft(row, maxAttempts)
      <==> CountIsCurrent(row, racy)
  {
    hide StatusName, Apply, Automatic, Requeues, Edge;
    match racy
    case Atomic(event) => AttemptsStep(row, event, maxAttempts);
    case StaleRecover(loaded, cutoff, _, at) =>
      if RacyRequeues(row, racy) { StaleRecoverUsesAttemptExactly(loaded, row, cutoff, maxAttempts, at); }
    case _ =>
  }

  predicate RacyAutomaticRun(row: TaskRow, events: seq<RacyEvent>, maxAttempts: int)
    decreases |events|
  {
    events == [] ||
    (&& RacyAutomatic(row, events[0], maxAttempts)
     && RacyAutomaticRun(RacyApply(row, events[0]), events[1..], maxAttempts))
  }

  /** Over racy runs attempts are used up one by one exactly when no sweep requeues with an outdated count. */
  lemma {:induction false} AttemptsLastExactly(row: TaskRow, events: seq<RacyEvent>, maxAttempts: int)
    requires RacyAutomaticRun(row, events, maxAttempts)
    ensures AttemptsUsedThroughout(row, events, maxAttempts) <==> CountsAreCurrent(row, events)
    decreases |events|
  {
    hide RacyApply, RacyAutomatic, RacyRequeues, CountIsCurrent, AttemptsLeft;
    if events != [] {
      RequeueUsesAttemptExactly(row, events[0], maxAttempts);
      AttemptsLastExactly(RacyApply(row, events[0]), events[1..], maxAttempts);
    }
  }

  /** Two sweeps load a task; one requeues it, it is claimed, and the other requeues it for the same attempt. */
  lemma OverlappingSweepsLoseAttempt() returns (loaded: TaskRow, events: seq<RacyEvent>)
    ensures Consistent(loaded, 5)
    ensures events == [Atomic(Recover(9, 3, 10)), Atomic(Claim(11)), StaleRecover(loaded, 9, 3, 12)]
    ensures AttemptsLeft(RacyAfter(loaded, events), 3) + 1 == AttemptsLeft(loaded, 3)
    ensures RacyAfter(loaded, events).status == Pending
  {
    hide StatusName;
    loaded := NEW_TASK.(status := Running, startedAt := Some(5));
    events := [Atomic(Recover(9, 3, 10)), Atomic(Claim(11)), StaleRecover(loaded, 9, 3, 12)];
    AfterTwo(loaded, events[0], events[1]);
    AfterLast(loaded, events[..2], events[2]);
    assert events[..2] == [events[0], events[1]] && events == events[..2] + [events[2]];
  }

  // ---------------------------------------------------------------- claims and cancellation

  /** A step that puts a task back to pending: a recovery, a retry or a transition. */
  predicate Resets(row: TaskRow, event: Event) {
    row.status != Pending && Apply(row, event).status == Pending
  }

  predicate Claims(row: TaskRow, event: Event) {
    event.Claim? && Claimable(row.status)
  }

  /** A step other than a claim that ends the wait of a task for a worker. */
  predicate Withdraws(row: TaskRow, event: Event) {
    !event.Claim? && Claimable(row.status) && !Claimable(Apply(row, event).status)
  }

  datatype Tally = Tally(claims: nat, withdrawals: nat, resets: nat)

  function TallyOf(row: TaskRow, events: seq<Event>): Tally
    decreases |events|
  {
    if events == [] then Tally(0, 0, 0)
    else
      var later := TallyOf(Apply(row, events[0]), events[1..]);
      Tally(
        later.claims + (if Claims(row, events[0]) then 1 else 0),
        later.withdrawals + (if Withdraws(row, events[0]) then 1 else 0),
        later.resets + (if Resets(row, events[0]) then 1 else 0))
  }

  function Waiting(row: TaskRow): nat {
    if Claimable(row.status) then 1 else 0
  }

  predicate AllAllowed(events: seq<Event>) {
    forall i | 0 <= i < |events| :: Allowed(events[i])
  }

  lemma WaitingStep(row: TaskRow, event: Event)
    requires Allowed(event)
    ensures Waiting(Apply(row, event))
      + (if Claims(row, event) then 1 else 0) + (if Withdraws(row, event) then 1 else 0)
      == Waiting(row) + (if Resets(row, event) then 1 else 0)
  {
    hide StatusName;
  }

  /**
   Claims are conserved in every interleaving: each one, and each withdrawal, uses up the initial
   wait or a reset. So a task is claimed at most once more often than it is reset.
   */
  lemma {:induction false} ClaimsAreConserved(row: TaskRow, events: seq<Event>)
    requires AllAllowed(events)
    ensures var t := TallyOf(row, events);
      && t.claims + t.withdrawals + Waiting(After(row, events)) == Waiting(row) + t.resets
      && t.claims + Waiting(After(row, events)) <= 1 + t.resets
    decreases |events|
  {
    hide Apply, Claims, Withdraws, Resets, Waiting;
    WaitingIsBit(row);
    if events != [] {
      assert AllAllowed(events[1..]) by {
        assert forall i | 0 <= i < |events[1..]| :: events[1..][i] == events[i + 1];
      }
      WaitingStep(row, events[0]);
      ClaimsAreConserved(Apply(row, events[0]), events[1..]);
    }
  }

  lemma WaitingIsBit(row: TaskRow)
    ensures Waiting(row) <= 1
  {
  }

  predicate NoReset(row: TaskRow, events: seq<Event>) {
    TallyOf(row, events).resets == 0
  }

  /** The worker stages in order; what comes after them is not told apart. */
  function StageRank(s: Status): nat {
    match s
    case Pending => 7
    case Queued => 6
    case Running => 5
    case CallingCoze => 4
    case CozeRunning => 3
    case Normalizing => 2
    case SavingDocuments => 1
    case _ => 0
  }

  lemma StagesOnlyFall(row: TaskRow, event: Event)
    requires Allowed(event) && !Resets(row, event)
    ensures StageRank(Apply(row, event).status) <= StageRank(row.status)
  {
    hide StatusName;
  }

  lemma {:induction false} StagesFallUntilReset(row: TaskRow, events: seq<Event>)
    requires AllAllowed(events) && NoReset(row, events)
    ensures StageRank(After(row, events).status) <= StageRank(row.status)
    decreases |events|
  {
    hide Apply, Claims, Withdraws, Resets, StageRank, Allowed;
    if events != [] {
      assert AllAllowed(events[1..]) by {
        assert forall i | 0 <= i < |events[1..]| :: events[1..][i] == events[i + 1];
      }
      StagesOnlyFall(row, events[0]);
      StagesFallUntilReset(Apply(row, events[0]), events[1..]);
    }
  }

  /** An advance or cancel that takes the task out of the status it expects. */
  predicate Leaves(row: TaskRow, event: Event, expected: Status) {
    && ((event.Advance? && event.expected == expected && event.target != expected)
        || (event.Cancel? && event.expected == expected))
    && row.status == expected
  }

  /**
   Of all the advances and cancels that expect the same worker stage at most one succeeds before
   the task is reset: once one has, every later one finds another status and changes nothing.
   */
  lemma AtMostOneLeaves(row: TaskRow, first: Event, between: seq<Event>, second: Event, expected: Status)
    requires Allowed(first) && AllAllowed(between) && StageRank(expected) > 0
    requires Leaves(row, first, expected)
    requires NoReset(Apply(row, first), between)
    ensures !Leaves(After(Apply(row, first), between), second, expected)
    ensures (second.Advance? || second.Cancel?) && second.expected == expected ==>
      Apply(After(Apply(row, first), between), second) == After(Apply(row, first), between)
  {
    hide StatusName, TallyOf, After;
    var left := Apply(row, first);
    assert StageRank(left.status) < StageRank(expected);
    StagesFallUntilReset(left, between);
  }

  /**
   Cancelling sticks: until it is reset, the guarded steps change nothing of a cancelled task but
   the note that a discarded result leaves.
   */
  lemma {:induction false} CancelSticks(row: TaskRow, events: seq<Event>)
    requires row.status == Cancelled && AllAllowed(events) && NoReset(row, events)
    ensures var after := After(row, events); after == row.(providerStatus := after.providerStatus, stage := after.stage)
    decreases |events|
  {
    hide StatusName, Apply, Resets, Claims, Withdraws;
    if events != [] {
      assert AllAllowed(events[1..]) by {
        assert forall i | 0 <= i < |events[1..]| :: events[1..][i] == events[i + 1];
      }
      assert Allowed(events[0]);
      CancelledStays(row, events[0]);
      CancelSticks(Apply(row, events[0]), events[1..]);
    }
  }

  lemma CancelledStays(row: TaskRow, event: Event)
    requires row.status == Cancelled && Allowed(event) && !Resets(row, event)
    ensures Apply(row, event) == if event.Discard? then DiscardRow(row, event.provider) else row
  {
    hide StatusName;
  }

  // ---------------------------------------------------------------- cancellation and stale objects

  /** The step leaves a cancelled task cancelled, as far as can be told before it is made. */
  predicate SparesCancel(racy: RacyEvent) {
    match racy
    case Atomic(event) => !event.Retry? && !(event.Transition? && event.target == Pending)
    case StaleTransition(loaded, target, _, _) => !Edge(loaded.status, target) || target == Cancelled
    case StaleRecover(loaded, cutoff, _, _) => !Stale(loaded, cutoff)
    case StaleDiscard(_, _) => true
    case StaleRecord(_, _) => true
  }

  /**
   Of a cancelled task: a transition decided on an object loaded before overwrites the cancel exactly
   when the table allows it from the loaded status and it leads elsewhere; a sweep that loaded it
   stale always does; a guarded step only when it is a reset.
   */
  lemma CancelSparedExactly(row: TaskRow, racy: RacyEvent)
    requires row.status == Cancelled && (racy.Atomic? ==> Allowed(racy.event))
    ensures RacyApply(row, racy).status == Cancelled <==> SparesCancel(racy)
  {
    hide StatusName, WriteBack;
    match racy
    case Atomic(_) =>
    case StaleTransition(loaded, target, error, at) => WrittenTimes(loaded, MoveRow(loaded, target, error, at), row);
    case StaleRecover(loaded, _, maxAttempts, at) => WrittenTimes(loaded, RecoverRow(loaded, maxAttempts, at), row);
    case StaleDiscard(loaded, provider) => WrittenTimes(loaded, DiscardRow(loaded, provider), row);
    case StaleRecord(loaded, progress) => WrittenTimes(loaded, RecordRow(loaded, progress), row);
  }

  predicate CancelledThroughout(row: TaskRow, events: seq<RacyEvent>)
    decreases |events|
  {
    row.status == Cancelled && (events == [] || CancelledThroughout(RacyApply(row, events[0]), events[1..]))
  }

  /** So over a racy run a cancel lasts throughout exactly when every step of the run spares it. */
  lemma {:induction false} CancelLastsExactly(row: TaskRow, events: seq<RacyEvent>)
    requires row.status == Cancelled && forall i | 0 <= i < |events| :: events[i].Atomic? ==> Allowed(events[i].event)
    ensures CancelledThroughout(row, events) <==> forall i | 0 <= i < |events| :: SparesCancel(events[i])
    decreases |events|
  {
    hide RacyApply, SparesCancel, Allowed;
    if events != [] {
      var next := RacyApply(row, events[0]);
      assert forall i | 0 <= i < |events[1..]| :: events[1..][i] == events[i + 1];
      CancelSparedExactly(row, events[0]);
      if next.status == Cancelled {
        CancelLastsExactly(next, events[1..]);
        assert events == [events[0]] + events[1..];
      }
    }
  }

  /** A worker loads a task it runs, an operator cancels it, and the worker then fails its own object. */
  lemma StaleTransitionOverwritesCancel() returns (row: TaskRow, events: seq<RacyEvent>)
    ensures Consistent(row, 5) && row.status == Running && RacyRun(events, 5) && |events| == 2
    ensures events[0].Atomic? && events[0].event.Cancel? && RacyApply(row, events[0]).status == Cancelled
    ensures events[1] == StaleTransition(row, Failed, None, 7)
    ensures RacyAfter(row, events).status == Failed
  {
    hide StatusName;
    row := NEW_TASK.(status := Running, startedAt := Some(5));
    events := [Atomic(Cancel(Running, "", None, 6)), StaleTransition(row, Failed, None, 7)];
    assert events[1..] == [events[1]] && events[1..][1..] == [];
    assert RacyRun([], 7) && RacyRun(events[1..], 6);
    var cancelled := RacyApply(row, events[0]);
    assert RacyAfter(RacyApply(cancelled, events[1]), []) == RacyApply(cancelled, events[1]);
    assert RacyAfter(cancelled, events[1..]) == RacyApply(cancelled, events[1]);
  }
}
