/**
 Keeping the review counters of crawl tasks in step with their documents
 (`ReviewRepository.reconcile_crawl_tasks` and the decisions of `backend/app/services/review.py`).
 */
module Reviews {
  import opened CrawlTasks
  import opened Wrappers

  datatype Decision = Approved | Rejected | Undecided(name: string)

  type Documents = map<int, Decision>

  /** A row of the lineage table; either reference can be missing. */
  datatype Link = Link(task: Option<int>, document: Option<int>)

  function LinkedTasks(lineage: seq<Link>, document: int): set<int> {
    set l | l in lineage && l.document == Some(document) && l.task.Some? :: l.task.value
  }

  /** The distinct documents of a task that are in the document table. */
  function TaskDocuments(documents: Documents, lineage: seq<Link>, task: int): set<int> {
    set l | l in lineage && l.task == Some(task) && l.document.Some? && l.document.value in documents ::
      l.document.value
  }

  function WithDecision(documents: Documents, ids: set<int>, decision: Decision): set<int> {
    set d | d in ids && d in documents && documents[d] == decision
  }

  function UndecidedOf(documents: Documents, ids: set<int>): set<int> {
    set d | d in ids && d in documents && documents[d].Undecided?
  }

  /** The counts that `GROUP BY final_status` returns. */
  function GroupedCounts(documents: Documents, ids: set<int>): map<Decision, nat> {
    map s | s in (set d | d in ids && d in documents :: documents[d]) :: |WithDecision(documents, ids, s)|
  }

  ghost function SumOfValues(counts: map<Decision, nat>): nat
    decreases |counts|
  {
    if counts == map[] then 0
    else
      var s :| s in counts;
      counts[s] + SumOfValues(counts - {s})
  }

  lemma SumStep(counts: map<Decision, nat>) returns (s: Decision)
    requires counts != map[]
    ensures s in counts && SumOfValues(counts) == counts[s] + SumOfValues(counts - {s})
    ensures |counts - {s}| < |counts|
  {
    s :| s in counts && SumOfValues(counts) == counts[s] + SumOfValues(counts - {s});
    assert (counts - {s}).Keys == counts.Keys - {s};
    assert |counts.Keys - {s}| == |counts.Keys| - 1;
  }

  /** The groups partition the documents, so their counts sum to the number of documents. */
  lemma {:induction false} GroupsSumToTotal(documents: Documents, ids: set<int>)
    requires ids <= documents.Keys
    ensures SumOfValues(GroupedCounts(documents, ids)) == |ids|
    decreases |GroupedCounts(documents, ids)|
  {
    var counts := GroupedCounts(documents, ids);
    if counts == map[] {
      NoGroupsNoDocuments(documents, ids);
    } else {
      var s := SumStep(counts);
      RemoveGroup(documents, ids, s);
      GroupSize(documents, ids, s);
      GroupsSumToTotal(documents, ids - WithDecision(documents, ids, s));
    }
  }

  lemma NoGroupsNoDocuments(documents: Documents, ids: set<int>)
    requires ids <= documents.Keys && GroupedCounts(documents, ids) == map[]
    ensures ids == {} && SumOfValues(GroupedCounts(documents, ids)) == 0
  {
    assert forall d | d in ids :: documents[d] in GroupedCounts(documents, ids);
  }

  lemma GroupSize(documents: Documents, ids: set<int>, s: Decision)
    requires s in GroupedCounts(documents, ids)
    ensures |ids - WithDecision(documents, ids, s)| == |ids| - GroupedCounts(documents, ids)[s]
  {
    var group := WithDecision(documents, ids, s);
    assert ids == (ids - group) + group;
  }

  lemma RemoveGroup(documents: Documents, ids: set<int>, s: Decision)
    requires ids <= documents.Keys
    ensures GroupedCounts(documents, ids - WithDecision(documents, ids, s)) == GroupedCounts(documents, ids) - {s}
  {
    var group := WithDecision(documents, ids, s);
    var left, right := GroupedCounts(documents, ids - group), GroupedCounts(documents, ids) - {s};
    assert left.Keys == right.Keys;
    forall t | t in left ensures left[t] == right[t] {
      assert WithDecision(documents, ids - group, t) == WithDecision(documents, ids, t);
    }
  }

  /** Approved, rejected and undecided documents make up all of them: the difference is never clamped. */
  lemma CountsPartition(documents: Documents, ids: set<int>)
    requires ids <= documents.Keys
    ensures |WithDecision(documents, ids, Approved)| + |WithDecision(documents, ids, Rejected)|
          + |UndecidedOf(documents, ids)| == |ids|
  {
    var a, r, u := WithDecision(documents, ids, Approved), WithDecision(documents, ids, Rejected),
      UndecidedOf(documents, ids);
    assert ids == a + r + u;
    assert |a + r| == |a| + |r|;
  }

  // ---------------------------------------------------------------- reconciliation

  function Reconciled(row: TaskRow, documents: Documents, ids: set<int>, now: int): TaskRow {
    ReconcileRow(row, |WithDecision(documents, ids, Approved)|, |WithDecision(documents, ids, Rejected)|, |ids|, now)
  }

  class ReviewRepository {
    var tasks: seq<CrawlTask>
    var documents: Documents
    var lineage: seq<Link>

    ghost predicate Valid()
      reads this, tasks
    {
      forall i, j | 0 <= i < j < |tasks| :: tasks[i] != tasks[j]
    }

    /** Brings the counters of the tasks linked to a document up to date, and closes those that are done. */
    method ReconcileCrawlTasks(document: int, now: int)
      requires Valid()
      modifies tasks
      ensures Valid()
      ensures forall i | 0 <= i < |tasks| ::
        tasks[i].Row() ==
          if tasks[i].id in LinkedTasks(lineage, document)
          then Reconciled(old(tasks[i].Row()), documents, TaskDocuments(documents, lineage, tasks[i].id), now)
          else old(tasks[i].Row())
    {
      hide ReconcileRow;
      ghost var rows := Rows(tasks);
      var linked := LinkedTasks(lineage, document);
      for i := 0 to |tasks|
        invariant forall k | i <= k < |tasks| :: tasks[k].Row() == rows[k]
        invariant forall k | 0 <= k < i ::
          tasks[k].Row() ==
            if tasks[k].id in linked
            then Reconciled(rows[k], documents, TaskDocuments(documents, lineage, tasks[k].id), now)
            else rows[k]
      {
        var task := tasks[i];
        if task.id in linked {
          var ids := TaskDocuments(documents, lineage, task.id);
          if task.status == WaitingReview {
            var accepted, rejected := WithDecision(documents, ids, Approved), WithDecision(documents, ids, Rejected);
            task.Reconcile(|accepted|, |rejected|, |ids|, now);
          } else {
            NotWaitingUnchanged(task.Row(), documents, ids, now);
          }
        }
      }
    }
  }

  lemma NotWaitingUnchanged(row: TaskRow, documents: Documents, ids: set<int>, now: int)
    requires row.status != WaitingReview
    ensures Reconciled(row, documents, ids, now) == row
  {
  }

  // ---------------------------------------------------------------- runs of decisions

  datatype Store = Store(rows: map<int, TaskRow>, documents: Documents, lineage: seq<Link>)

  /** The counters of a task that waits for review are the true counts over its documents. */
  predicate Counted(row: TaskRow, documents: Documents, ids: set<int>) {
    && row.counts.accepted == |WithDecision(documents, ids, Approved)|
    && row.counts.rejected == |WithDecision(documents, ids, Rejected)|
    && row.counts.pendingReview == |UndecidedOf(documents, ids)|
  }

  /** A waiting task counts its documents truly and still has one to decide, or has none at all. */
  predicate Settled(store: Store, task: int) {
    var ids := TaskDocuments(store.documents, store.lineage, task);
    task in store.rows && store.rows[task].status == WaitingReview ==>
      && Counted(store.rows[task], store.documents, ids)
      && (ids != {} ==> UndecidedOf(store.documents, ids) != {})
  }

  /** A document is decided and the tasks linked to it reconciled, in one transaction. */
  function Decide(store: Store, document: int, decision: Decision, now: int): Store
    requires document in store.documents
  {
    var documents := store.documents[document := decision];
    Store(
      map t | t in store.rows ::
        if t in LinkedTasks(store.lineage, document)
        then Reconciled(store.rows[t], documents, TaskDocuments(documents, store.lineage, t), now)
        else store.rows[t],
      documents, store.lineage)
  }

  datatype Choice = Choice(document: int, decision: Decision, now: int)

  predicate Decidable(store: Store, choices: seq<Choice>) {
    forall i | 0 <= i < |choices| :: choices[i].document in store.documents
  }

  function DecideAll(store: Store, choices: seq<Choice>): Store
    requires Decidable(store, choices)
    decreases |choices|
  {
    if choices == [] then store
    else
      var next := Decide(store, choices[0].document, choices[0].decision, choices[0].now);
      assert Decidable(next, choices[1..]) by {
        assert forall i | 0 <= i < |choices[1..]| :: choices[1..][i] == choices[i + 1];
      }
      DecideAll(next, choices[1..])
  }

  lemma DocumentsOfTask(documents: Documents, lineage: seq<Link>, task: int, document: int, decision: Decision)
    requires document in documents
    ensures TaskDocuments(documents[document := decision], lineage, task) == TaskDocuments(documents, lineage, task)
    ensures document in TaskDocuments(documents, lineage, task) <==> task in LinkedTasks(lineage, document)
  {
    var ids := TaskDocuments(documents, lineage, task);
    assert (document in ids) == exists l :: l in lineage && l.task == Some(task) && l.document == Some(document);
    assert (task in LinkedTasks(lineage, document))
      == exists l :: l in lineage && l.task == Some(task) && l.document == Some(document);
  }

  /** Reconciling makes the counters true, and closes the task exactly when every document is decided. */
  lemma ReconciledIsSettled(row: TaskRow, documents: Documents, ids: set<int>, now: int)
    requires ids <= documents.Keys && row.status == WaitingReview
    ensures var next := Reconciled(row, documents, ids, now);
      && Counted(next, documents, ids)
      && (next.status == Completed <==> ids != {} && UndecidedOf(documents, ids) == {})
      && (next.status == WaitingReview || next.status == Completed)
  {
    CountsPartition(documents, ids);
  }

  lemma OtherDocumentsUnchanged(documents: Documents, ids: set<int>, document: int, decision: Decision)
    requires document in documents && document !in ids
    ensures var after := documents[document := decision];
      && WithDecision(after, ids, Approved) == WithDecision(documents, ids, Approved)
      && WithDecision(after, ids, Rejected) == WithDecision(documents, ids, Rejected)
      && UndecidedOf(after, ids) == UndecidedOf(documents, ids)
  {
  }

  lemma DecideSettles(store: Store, document: int, decision: Decision, now: int, task: int)
    requires document in store.documents
    requires Settled(store, task) || task in LinkedTasks(store.lineage, document)
    ensures Settled(Decide(store, document, decision, now), task)
  {
    hide CloseRow;
    var documents := store.documents[document := decision];
    var ids := TaskDocuments(store.documents, store.lineage, task);
    DocumentsOfTask(store.documents, store.lineage, task, document, decision);
    if task in store.rows {
      if task in LinkedTasks(store.lineage, document) {
        if store.rows[task].status == WaitingReview {
          ReconciledIsSettled(store.rows[task], documents, ids, now);
        } else {
          NotWaitingUnchanged(store.rows[task], documents, ids, now);
        }
      } else {
        OtherDocumentsUnchanged(store.documents, ids, document, decision);
      }
    }
  }

  /**
   Over any run of decisions, a task whose counters were true, or one of whose documents is
   decided in the run, ends with true counters and, if it still waits, an undecided document.
   */
  lemma {:induction false} CountersFollowDocuments(store: Store, choices: seq<Choice>, task: int)
    requires Decidable(store, choices)
    requires Settled(store, task)
      || exists i | 0 <= i < |choices| :: task in LinkedTasks(store.lineage, choices[i].document)
    ensures Settled(DecideAll(store, choices), task)
    decreases |choices|
  {
    hide Settled, LinkedTasks, Reconciled;
    if choices != [] {
      var first := choices[0];
      var next := Decide(store, first.document, first.decision, first.now);
      assert forall i | 0 <= i < |choices[1..]| :: choices[1..][i] == choices[i + 1];
      if Settled(store, task) || task in LinkedTasks(store.lineage, first.document) {
        DecideSettles(store, first.document, first.decision, first.now, task);
      } else {
        var i :| 0 <= i < |choices| && task in LinkedTasks(store.lineage, choices[i].document);
        assert choices[1..][i - 1] == choices[i];
      }
      CountersFollowDocuments(next, choices[1..], task);
    }
  }

  // ---------------------------------------------------------------- changes without reconciling

  /**
   A document's status is changed and nothing is reconciled: when the model is unavailable
   (`services/review.py:105-108`), when the data clean-up rejects a document
   (`services/data_quality.py:49`), and when a crawl meets a known document again
   (`services/crawl.py:838`).
   */
  function Rewrite(store: Store, document: int, decision: Decision): Store {
    store.(documents := store.documents[document := decision])
  }

  /** Both approved, both rejected or both undecided, under whatever name. */
  predicate SameClass(a: Decision, b: Decision) {
    (a.Approved? && b.Approved?) || (a.Rejected? && b.Rejected?) || (a.Undecided? && b.Undecided?)
  }

  /** The documents of a class, of which the three counters are the sizes. */
  function ClassOf(documents: Documents, ids: set<int>, kind: Decision): set<int> {
    if kind.Undecided? then UndecidedOf(documents, ids) else WithDecision(documents, ids, kind)
  }

  lemma RewriteClass(documents: Documents, ids: set<int>, document: int, decision: Decision, kind: Decision)
    requires ids <= documents.Keys && document in ids
    ensures ClassOf(documents[document := decision], ids, kind) ==
      if SameClass(decision, kind) then ClassOf(documents, ids, kind) + {document}
      else ClassOf(documents, ids, kind) - {document}
    ensures document in ClassOf(documents, ids, kind) <==> SameClass(documents[document], kind)
  {
  }

  /**
   A change of status without reconciling keeps the counters of a task true exactly when the document
   stays approved, rejected or undecided as it was.
   */
  lemma UnreconciledExactly(row: TaskRow, documents: Documents, ids: set<int>, document: int, decision: Decision)
    requires ids <= documents.Keys && document in ids && Counted(row, documents, ids)
    ensures Counted(row, documents[document := decision], ids) <==> SameClass(documents[document], decision)
  {
    hide WithDecision, UndecidedOf;
    var was := documents[document];
    RewriteClass(documents, ids, document, decision, Approved);
    RewriteClass(documents, ids, document, decision, Rejected);
    RewriteClass(documents, ids, document, decision, Undecided(""));
    if !SameClass(was, decision) {
      RewriteClass(documents, ids, document, decision, decision);
      GainOne(ClassOf(documents, ids, decision), document);
    } else {
      LoseNone(ClassOf(documents, ids, Approved), document);
      LoseNone(ClassOf(documents, ids, Rejected), document);
      LoseNone(ClassOf(documents, ids, Undecided("")), document);
    }
  }

  lemma GainOne(ids: set<int>, document: int)
    requires document !in ids
    ensures |ids + {document}| == |ids| + 1
  {
  }

  lemma LoseNone(ids: set<int>, document: int)
    ensures document in ids ==> ids + {document} == ids
    ensures document !in ids ==> ids - {document} == ids
  {
  }

  /**
   A settled task is no longer settled exactly when it waits for review, the document is one of its
   own and changes its class. It then has no undecided document left exactly when the document was
   the last one and is decided by the change.
   */
  lemma RewriteUnsettlesExactly(store: Store, document: int, decision: Decision, task: int)
    requires document in store.documents && Settled(store, task)
    ensures var ids := TaskDocuments(store.documents, store.lineage, task);
      && (!Settled(Rewrite(store, document, decision), task) <==>
            && task in store.rows && store.rows[task].status == WaitingReview && document in ids
            && !SameClass(store.documents[document], decision))
      && (document in ids ==>
           (UndecidedOf(Rewrite(store, document, decision).documents, ids) == {} <==>
              !decision.Undecided? && UndecidedOf(store.documents, ids) <= {document}))
  {
    hide WithDecision, UndecidedOf, Counted;
    var ids := TaskDocuments(store.documents, store.lineage, task);
    DocumentsOfTask(store.documents, store.lineage, task, document, decision);
    if document in ids {
      RewriteClass(store.documents, ids, document, decision, Undecided(""));
      if task in store.rows && store.rows[task].status == WaitingReview {
        UnreconciledExactly(store.rows[task], store.documents, ids, document, decision);
      }
    } else {
      OtherDocumentsUnchanged(store.documents, ids, document, decision);
      if task in store.rows { CountedAlike(store, document, decision, task); }
    }
  }

  lemma CountedAlike(store: Store, document: int, decision: Decision, task: int)
    requires document in store.documents && task in store.rows
    requires document !in TaskDocuments(store.documents, store.lineage, task)
    ensures var ids := TaskDocuments(store.documents, store.lineage, task);
      Counted(store.rows[task], store.documents[document := decision], ids) ==
        Counted(store.rows[task], store.documents, ids)
  {
    OtherDocumentsUnchanged(store.documents, TaskDocuments(store.documents, store.lineage, task), document, decision);
  }

  /** The deterministic clean-up rejects the only document of a waiting task: it waits on with nothing to decide. */
  lemma CleanUpStrandsTask() returns (store: Store)
    ensures Settled(store, 1) && 7 in store.documents && store.documents[7].Undecided? && 1 in store.rows
    ensures var after := Rewrite(store, 7, Rejected); var ids := TaskDocuments(after.documents, after.lineage, 1);
      && !Settled(after, 1) && ids == {7} && UndecidedOf(after.documents, ids) == {}
      && after.rows[1].status == WaitingReview && after.rows[1].counts.pendingReview == 1
  {
    var row := NEW_TASK.(status := WaitingReview, counts := NoProgress().(pendingReview := 1));
    store := Store(map[1 := row], map[7 := Undecided("pending")], [Link(Some(1), Some(7))]);
    var ids := TaskDocuments(store.documents, store.lineage, 1);
    assert Link(Some(1), Some(7)) in store.lineage;
    assert ids == {7} && UndecidedOf(store.documents, ids) == {7};
    assert WithDecision(store.documents, ids, Approved) == {} && WithDecision(store.documents, ids, Rejected) == {};
    RewriteUnsettlesExactly(store, 7, Rejected, 1);
    DocumentsOfTask(store.documents, store.lineage, 1, 7, Rejected);
  }
}
