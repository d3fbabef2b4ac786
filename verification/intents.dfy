/**
 * The intent list and the intent editor: the status badge of a listed
 * intent, the bulk-selection set and bulk deletion, the log of a publish
 * job, and the editor that loads an intent into its form and saves the
 * form back as a draft.
 */
module Intents {
  import opened Common
  import opened JsonValues
  import opened Store
  import opened LogPanel
  import Text

  // ---------------------------------------------------------------------
  // Status badge of a listed intent
  // ---------------------------------------------------------------------

  datatype Badge = PublishedBadge | ReadyBadge | IncompleteBadge(questionCount: int)

  /** An embedded `count` of related rows; an absent relation counts as 0. */
  function CountOf(count: Option<int>): int {
    if count.Some? then count.value else 0
  }

  /**
   * The badge of a row: published intents say so; a draft is ready with
   * exactly nine questions and one answer, and incomplete otherwise.
   */
  function StatusBadge(status: Status, questionCount: Option<int>, answerCount: Option<int>): (b: Badge)
    ensures b == PublishedBadge <==> status == Published
    ensures b == ReadyBadge <==> status != Published && CountOf(questionCount) == 9 && CountOf(answerCount) == 1
    ensures b.IncompleteBadge? <==> status != Published && !(CountOf(questionCount) == 9 && CountOf(answerCount) == 1)
    ensures b.IncompleteBadge? ==> b.questionCount == CountOf(questionCount)
  {
    if status == Published then PublishedBadge
    else if CountOf(questionCount) == 9 && CountOf(answerCount) == 1 then ReadyBadge
    else IncompleteBadge(CountOf(questionCount))
  }

  // ---------------------------------------------------------------------
  // Publish job
  // ---------------------------------------------------------------------

  /** `Math.ceil(n * 1.5)`: the announced duration of a job over `count` intents, in whole seconds. */
  function EstimatedSeconds(count: nat): (seconds: nat)
    ensures 2 * seconds >= 3 * count && 2 * seconds < 3 * count + 2
  {
    (3 * count + 1) / 2
  }

  datatype PublishLine =
    | StartingJob
    | Estimate(seconds: nat)
    | Sending(count: nat)
    | JobComplete(success: Access, failed: Access)
    | ItemFailed(id: Access, error: Access)
    | ItemPublished(slug: Access)
    | JobFailed(error: Access)
    | ConnectionError(cause: Cause)

  /**
   * The line logged for one entry of `details`, or `None` when reading its
   * `status` throws (a `null` entry). Only the exact string "failed" counts
   * as a failure.
   */
  function DetailLine(d: Json): (line: Option<PublishLine>)
    ensures line.None? <==> d.Null?
    ensures line.Some? ==> (line.value.ItemFailed? <==> Prop(d, "status") == Found(Str("failed")))
  {
    var status := Prop(d, "status");
    if status.TypeError? then None
    else if status == Found(Str("failed")) then Some(ItemFailed(Prop(d, "id"), Prop(d, "error")))
    else Some(ItemPublished(Prop(d, "slug")))
  }

  /** The lines `forEach` over `details` logs, and whether it ran to the end without throwing. */
  function DetailLines(ds: seq<Json>): (r: (seq<PublishLine>, bool))
  {
    if ds == [] then ([], true)
    else
      var prev := DetailLines(ds[..|ds| - 1]);
      var line := DetailLine(ds[|ds| - 1]);
      if !prev.1 then prev
      else if line.None? then (prev.0, false)
      else (prev.0 + [line.value], true)
  }

  /** The lines a job logs after "Sending", and whether it refreshes the list and the counters. */
  function ReplyLines(reply: Reply): (r: (seq<PublishLine>, bool))
  {
    match reply
    case Unreachable(message) => ([ConnectionError(NetworkFailure(message))], false)
    case Replied(status, None) => ([ConnectionError(NonJsonReply(status))], false)
    case Replied(_, Some(data)) => DataLines(data)
  }

  /** The lines and the refresh for a reply whose body parsed as `data`. */
  function DataLines(data: Json): (seq<PublishLine>, bool)
  {
    var success := Prop(data, "success");
    if success.TypeError? then ([ConnectionError(ScriptError)], false)
    else if !Present(success) then ([JobFailed(Prop(data, "error"))], false)
    else
      var complete := JobComplete(success, Prop(data, "failed"));
      var details := Prop(data, "details");
      if !Present(details) then ([complete], true)
      else if !details.value.Arr? then ([complete, ConnectionError(ScriptError)], false)
      else
        var (lines, ok) := DetailLines(details.value.items);
        if ok then ([complete] + lines, true)
        else ([complete] + lines + [ConnectionError(ScriptError)], false)
  }

  /** The whole log of a job over `count` intents, and whether the list and the counters are refreshed. */
  function PublishLog(count: nat, reply: Reply): (r: (seq<PublishLine>, bool))
  {
    var (lines, refreshed) := ReplyLines(reply);
    ([StartingJob, Estimate(EstimatedSeconds(count)), Sending(count)] + lines, refreshed)
  }

  /** The `forEach` over `details`: one line per entry until an entry throws. */
  method LogDetails(modal: LogModal<PublishLine>, ds: seq<Json>) returns (ok: bool)
    modifies modal
    ensures modal.lines == old(modal.lines) + DetailLines(ds).0 && ok == DetailLines(ds).1
    ensures modal.shown == old(modal.shown) && modal.closeShown == old(modal.closeShown)
  {
    ghost var before := modal.lines;
    ok := true;
    var i := 0;
    while i < |ds|
      invariant 0 <= i <= |ds|
      invariant modal.lines == before + DetailLines(ds[..i]).0 && DetailLines(ds[..i]).1
      invariant modal.shown == old(modal.shown) && modal.closeShown == old(modal.closeShown)
    {
      var line := DetailLine(ds[i]);
      assert ds[..i + 1][..i] == ds[..i];
      if line.None? {
        ok := false;
        DetailLinesStuck(ds, i + 1);
        return;
      }
      modal.Log(line.value);
      i := i + 1;
    }
    assert ds[..i] == ds;
  }

  /**
   * `performBulkPublish`. Only the number of intents matters to the page:
   * the ids themselves go into the request body, which is not modelled.
   */
  method PerformBulkPublish(modal: LogModal<PublishLine>, count: nat, reply: Reply) returns (refreshed: bool)
    modifies modal
    ensures (modal.lines, refreshed) == PublishLog(count, reply)
    ensures modal.shown && modal.closeShown
  {
    modal.Open(StartingJob);
    modal.Log(Estimate(EstimatedSeconds(count)));
    modal.Log(Sending(count));
    assert modal.lines == [StartingJob, Estimate(EstimatedSeconds(count)), Sending(count)];
    refreshed := LogPublishReply(modal, reply);
    modal.Finish();
  }

  /** The part of a job that reads the reply: its lines go to the log one by one. */
  method LogPublishReply(modal: LogModal<PublishLine>, reply: Reply) returns (refreshed: bool)
    modifies modal
    ensures modal.lines == old(modal.lines) + ReplyLines(reply).0 && refreshed == ReplyLines(reply).1
    ensures modal.shown == old(modal.shown) && modal.closeShown == old(modal.closeShown)
  {
    match reply {
      case Unreachable(message) =>
        modal.Log(ConnectionError(NetworkFailure(message)));
        refreshed := false;
      case Replied(status, None) =>
        modal.Log(ConnectionError(NonJsonReply(status)));
        refreshed := false;
      case Replied(_, Some(data)) =>
        refreshed := LogPublishData(modal, data);
    }
  }

  /** The reply's body parsed: its fields decide the lines. */
  method LogPublishData(modal: LogModal<PublishLine>, data: Json) returns (refreshed: bool)
    modifies modal
    ensures modal.lines == old(modal.lines) + DataLines(data).0 && refreshed == DataLines(data).1
    ensures modal.shown == old(modal.shown) && modal.closeShown == old(modal.closeShown)
  {
    refreshed := false;
    var success := Prop(data, "success");
    if success.TypeError? {
      modal.Log(ConnectionError(ScriptError));
    } else if !Present(success) {
      modal.Log(JobFailed(Prop(data, "error")));
    } else {
      ghost var start := modal.lines;
      modal.Log(JobComplete(success, Prop(data, "failed")));
      var details := Prop(data, "details");
      var ok := true;
      if Present(details) {
        if details.value.Arr? {
          ok := LogDetails(modal, details.value.items);
          assert modal.lines == start + ([JobComplete(success, Prop(data, "failed"))] + DetailLines(details.value.items).0);
        } else {
          ok := false;
        }
        if !ok {
          modal.Log(ConnectionError(ScriptError));
        }
      }
      refreshed := ok;
    }
  }

  /** Once an entry has thrown, the entries after it are never reached. */
  lemma {:induction false} DetailLinesStuck(ds: seq<Json>, n: nat)
    requires n <= |ds| && !DetailLines(ds[..n]).1
    ensures DetailLines(ds) == DetailLines(ds[..n])
    decreases |ds| - n
  {
    if n < |ds| {
      var m := n + 1;
      assert ds[..m][..n] == ds[..n];
      DetailLinesStuck(ds, m);
    } else {
      assert ds[..n] == ds;
    }
  }

  /**
   * `forEach` over `details` logs one line per entry, in order, up to the
   * first `null` entry, and runs to the end exactly when there is none.
   */
  lemma {:induction false} DetailLinesExact(ds: seq<Json>)
    ensures DetailLines(ds).1 <==> forall k :: 0 <= k < |ds| ==> !ds[k].Null?
    ensures DetailLines(ds).1 ==> |DetailLines(ds).0| == |ds|
    ensures !DetailLines(ds).1 ==> |DetailLines(ds).0| < |ds| && ds[|DetailLines(ds).0|].Null?
    ensures forall k :: 0 <= k < |DetailLines(ds).0| ==>
      !ds[k].Null? && DetailLines(ds).0[k] == DetailLine(ds[k]).value
  {
    if ds != [] {
      var n := |ds| - 1;
      var init := ds[..n];
      DetailLinesExact(init);
      assert forall k :: 0 <= k < n ==> init[k] == ds[k];
    }
  }

  /** Every job starts with the same three lines and always ends with at least one more. */
  lemma PublishLogHeader(count: nat, reply: Reply)
    ensures |PublishLog(count, reply).0| >= 4
    ensures PublishLog(count, reply).0[..3] == [StartingJob, Estimate(EstimatedSeconds(count)), Sending(count)]
  {
  }

  /**
   * The list and the counters are refreshed exactly when the reply is a
   * JSON value with a truthy `success` whose `details`, when truthy, is an
   * array without `null` entries.
   */
  lemma PublishRefreshes(count: nat, reply: Reply)
    ensures PublishLog(count, reply).1 <==>
      reply.Replied? && reply.body.Some? && Present(Prop(reply.body.value, "success"))
      && (var details := Prop(reply.body.value, "details");
          !Present(details) || (details.value.Arr? && forall k :: 0 <= k < |details.value.items| ==> !details.value.items[k].Null?))
  {
    if reply.Replied? && reply.body.Some? {
      var details := Prop(reply.body.value, "details");
      if Present(details) && details.value.Arr? {
        DetailLinesExact(details.value.items);
      }
    }
  }

  /**
   * A job whose reply reports `success: 0` (nothing published) logs
   * "Job Failed" and refreshes nothing, because 0 is falsy.
   */
  lemma ZeroSuccessIsFailure(count: nat, fields: seq<(string, Json)>)
    requires Lookup(fields, "success") == Some(Num(0))
    ensures PublishLog(count, Replied(200, Some(Obj(fields)))).0[3] == JobFailed(Prop(Obj(fields), "error"))
    ensures !PublishLog(count, Replied(200, Some(Obj(fields)))).1
  {
  }

  // ---------------------------------------------------------------------
  // The intent list and its selection
  // ---------------------------------------------------------------------

  /** `id` flipped in or out of `s`. */
  function Toggled(s: set<Id>, id: Id): (r: set<Id>)
    ensures id in r <==> id !in s
    ensures forall x :: x != id ==> (x in r <==> x in s)
  {
    if id in s then s - {id} else s + {id}
  }

  lemma ToggleTwice(s: set<Id>, id: Id)
    ensures Toggled(Toggled(s, id), id) == s
  {
  }

  datatype DeleteOutcome = NothingSelected | Cancelled | DeleteFailed(error: DbError) | Removed

  /** How a publish request from the list ended. */
  datatype PublishRequest = NotSent | Sent(refreshed: bool)

  datatype DraftsOutcome = DraftsCancelled | DraftsUnreadable | NoDrafts | DraftsSent(count: nat, refreshed: bool)

  /** The ids of the draft intents in the store. */
  function DraftIds(intents: map<Id, Intent>): (ids: set<Id>)
    ensures forall id :: id in ids <==> id in intents && intents[id].status == Draft
  {
    set id | id in intents && intents[id].status == Draft
  }

  class IntentList {
    /** The ids of the rendered rows in display order: the values of the row checkboxes. */
    var listed: seq<Id>
    /** `selectedIntents`. */
    var selected: set<Id>

    constructor ()
      ensures listed == [] && selected == {}
    {
      listed, selected := [], {};
    }

    /** A successful `fetchIntents`: the rows are replaced and the selection is cleared. */
    method ShowRows(ids: seq<Id>)
      modifies this
      ensures listed == ids && selected == {}
    {
      listed, selected := ids, {};
    }

    /** `toggleSelection`: flips the membership of exactly `id`. */
    method ToggleSelection(id: Id)
      modifies this
      ensures selected == Toggled(old(selected), id)
      ensures listed == old(listed)
    {
      if id in selected {
        selected := selected - {id};
      } else {
        selected := selected + {id};
      }
    }

    /** `toggleSelectAll`: every listed id is added, or every listed id removed; other ids keep their state. */
    method ToggleSelectAll(checked: bool)
      modifies this
      ensures listed == old(listed)
      ensures checked ==> selected == old(selected) + set x | x in listed
      ensures !checked ==> selected == old(selected) - set x | x in listed
    {
      var i := 0;
      while i < |listed|
        invariant 0 <= i <= |listed| && listed == old(listed)
        invariant checked ==> selected == old(selected) + set x | x in listed[..i]
        invariant !checked ==> selected == old(selected) - set x | x in listed[..i]
      {
        assert listed[..i + 1] == listed[..i] + [listed[i]];
        if checked {
          selected := selected + {listed[i]};
        } else {
          selected := selected - {listed[i]};
        }
        i := i + 1;
      }
      assert listed[..i] == listed;
    }

    /**
     * `deleteSelected`: nothing without a selection or a confirmation;
     * otherwise one delete of exactly the selected intents, which either
     * fails as a whole or removes them (with their questions and answers).
     * The selection itself is left to the refresh that follows.
     */
    method DeleteSelected(kb: KnowledgeBase, confirmed: bool, fault: Option<DbError>) returns (outcome: DeleteOutcome)
      requires kb.Valid()
      modifies kb
      ensures kb.Valid()
      ensures outcome == (if selected == {} then NothingSelected
                          else if !confirmed then Cancelled
                          else if fault.Some? then DeleteFailed(fault.value)
                          else Removed)
      ensures outcome == Removed ==> kb.State() == CascadeDelete(old(kb.State()), selected)
      ensures outcome != Removed ==> kb.State() == old(kb.State())
      ensures kb.nextId == old(kb.nextId)
    {
      if selected == {} {
        return NothingSelected;
      }
      if !confirmed {
        return Cancelled;
      }
      var err := kb.DeleteIntents(selected, fault);
      if err.Some? {
        return DeleteFailed(err.value);
      }
      return Removed;
    }

    /** `publishSelected`: a job over the selected intents, when there are some and the user confirms. */
    method PublishSelected(modal: LogModal<PublishLine>, confirmed: bool, reply: Reply) returns (request: PublishRequest)
      modifies modal
      ensures selected == {} || !confirmed ==> request == NotSent && unchanged(modal)
      ensures selected != {} && confirmed ==>
        request.Sent? && (modal.lines, request.refreshed) == PublishLog(|selected|, reply)
    {
      if selected == {} || !confirmed {
        return NotSent;
      }
      var refreshed := PerformBulkPublish(modal, |selected|, reply);
      return Sent(refreshed);
    }
  }

  /** `deleteIntent`: the single-row delete behind a row's Delete button. */
  method DeleteIntent(kb: KnowledgeBase, id: Id, confirmed: bool, fault: Option<DbError>) returns (outcome: DeleteOutcome)
    requires kb.Valid()
    modifies kb
    ensures kb.Valid()
    ensures outcome == (if !confirmed then Cancelled else if fault.Some? then DeleteFailed(fault.value) else Removed)
    ensures outcome == Removed ==> kb.State() == CascadeDelete(old(kb.State()), {id})
    ensures outcome != Removed ==> kb.State() == old(kb.State())
  {
    if !confirmed {
      return Cancelled;
    }
    var err := kb.DeleteIntents({id}, fault);
    if err.Some? {
      return DeleteFailed(err.value);
    }
    return Removed;
  }

  /**
   * `publishAllDrafts`: after a confirmation, reads the ids of all drafts
   * and publishes them, unless the read fails or finds none.
   */
  method PublishAllDrafts(kb: KnowledgeBase, modal: LogModal<PublishLine>, confirmed: bool, readFails: bool, reply: Reply)
    returns (outcome: DraftsOutcome)
    modifies modal
    ensures !confirmed ==> outcome == DraftsCancelled
    ensures confirmed && readFails ==> outcome == DraftsUnreadable
    ensures confirmed && !readFails && DraftIds(kb.intents) == {} ==> outcome == NoDrafts
    ensures outcome.DraftsSent? ==>
      outcome.count == |DraftIds(kb.intents)| && (modal.lines, outcome.refreshed) == PublishLog(outcome.count, reply)
    ensures !outcome.DraftsSent? ==> unchanged(modal)
    ensures confirmed && !readFails && DraftIds(kb.intents) != {} ==> outcome.DraftsSent?
  {
    if !confirmed {
      return DraftsCancelled;
    }
    if readFails {
      return DraftsUnreadable;
    }
    var drafts := DraftIds(kb.intents);
    if |drafts| == 0 {
      return NoDrafts;
    }
    var refreshed := PerformBulkPublish(modal, |drafts|, reply);
    return DraftsSent(|drafts|, refreshed);
  }

  // ---------------------------------------------------------------------
  // The editor: loading a stored intent into the form
  // ---------------------------------------------------------------------

  const EmptySlots: seq<string> := ["", "", "", "", "", "", "", "", ""]

  /** The input a listed question is written to: its `order_index`, or its 1-based position when that is 0. */
  function InputIndex(q: Question, position: nat): int {
    if q.orderIndex != 0 then q.orderIndex else position + 1
  }

  /**
   * The nine inputs after `editIntent` writes `rows`, in order, onto
   * cleared inputs: a row whose input index is not 1..9 has no input, and a
   * later row overwrites an earlier one.
   */
  function Filled(rows: seq<Question>): (slots: seq<string>)
    ensures |slots| == 9
  {
    if rows == [] then EmptySlots
    else
      var k := |rows| - 1;
      var input := InputIndex(rows[k], k);
      var prev := Filled(rows[..k]);
      if 1 <= input <= 9 then prev[input - 1 := rows[k].text] else prev
  }

  /** Some listed row carries `order_index` i. */
  ghost predicate Listed(rows: seq<Question>, i: int) {
    exists p :: 0 <= p < |rows| && rows[p].orderIndex == i
  }

  ghost predicate StrictlyOrdered(rows: seq<Question>) {
    forall a, b :: 0 <= a < b < |rows| ==> rows[a].orderIndex < rows[b].orderIndex
  }

  /**
   * For rows in strictly increasing `order_index` order, input i shows the
   * row with `order_index` i; with no such row, it shows the row at
   * position i that has `order_index` 0, if there is one, and is empty
   * otherwise.
   */
  lemma {:induction false} FilledOrdered(rows: seq<Question>)
    requires StrictlyOrdered(rows)
    ensures forall p :: 0 <= p < |rows| && 1 <= rows[p].orderIndex <= 9 ==>
      Filled(rows)[rows[p].orderIndex - 1] == rows[p].text
    ensures forall i :: 1 <= i <= 9 && !Listed(rows, i) ==>
      Filled(rows)[i - 1] == (if i - 1 < |rows| && rows[i - 1].orderIndex == 0 then rows[i - 1].text else "")
  {
    if rows != [] {
      var k := |rows| - 1;
      var init := rows[..k];
      assert forall p :: 0 <= p < k ==> init[p] == rows[p];
      FilledOrdered(init);
      var last := rows[k];
      forall i | 1 <= i <= 9 && !Listed(rows, i)
        ensures Filled(rows)[i - 1] == (if i - 1 < |rows| && rows[i - 1].orderIndex == 0 then rows[i - 1].text else "")
      {
        assert !Listed(init, i);
        if last.orderIndex != 0 {
          assert last.orderIndex != i;
        } else if i - 1 < k {
          assert rows[i - 1].orderIndex < last.orderIndex;
        }
      }
    }
  }

  /**
   * `rows` is the reply of the questions query of `editIntent`: every
   * question of intent `id`, and nothing else, ordered by `order_index`
   * (the store keeps one question per position, so strictly).
   */
  ghost predicate QuestionsReply(questions: map<Id, Question>, id: Id, rows: seq<Question>) {
    && StrictlyOrdered(rows)
    && (forall p :: 0 <= p < |rows| ==> rows[p].intentId == id && rows[p] in questions.Values)
    && (forall qid :: qid in questions && questions[qid].intentId == id ==> questions[qid] in rows)
  }

  /** `answers` is the reply of the answers query: every active answer of intent `id`, and nothing else. */
  ghost predicate AnswersReply(answers: map<Id, Answer>, id: Id, activeAnswers: seq<Answer>) {
    && (forall a :: a in activeAnswers ==> a.intentId == id && a.isActive && a in answers.Values)
    && (forall aid :: aid in answers && answers[aid].intentId == id && answers[aid].isActive ==> answers[aid] in activeAnswers)
  }

  predicate HasActiveAnswer(answers: map<Id, Answer>, id: Id) {
    exists aid :: aid in answers && answers[aid].intentId == id && answers[aid].isActive
  }

  /**
   * The loop of `editIntent` over the question rows, in order, onto
   * cleared inputs. For rows in `order_index` order, input i ends up with
   * the row at position i when one is there and otherwise is empty.
   */
  method FillInputs(rows: seq<Question>) returns (inputs: seq<string>)
    ensures inputs == Filled(rows)
    ensures StrictlyOrdered(rows) ==>
      forall p :: 0 <= p < |rows| && 1 <= rows[p].orderIndex <= 9 ==> inputs[rows[p].orderIndex - 1] == rows[p].text
  {
    inputs := EmptySlots;
    var k := 0;
    while k < |rows|
      invariant 0 <= k <= |rows|
      invariant inputs == Filled(rows[..k])
    {
      assert rows[..k + 1][..k] == rows[..k];
      var input := InputIndex(rows[k], k);
      if 1 <= input <= 9 {
        inputs := inputs[input - 1 := rows[k].text];
      }
      k := k + 1;
    }
    assert rows[..k] == rows;
    if StrictlyOrdered(rows) {
      FilledOrdered(rows);
    }
  }

  /**
   * The inputs `editIntent` fills from the questions of intent `id`: each
   * question at a position 1..9 shows its text in that input; an input
   * whose position no question of the intent holds shows the question at
   * that place in the list if it has no position, and is empty otherwise.
   */
  lemma FilledFromStore(questions: map<Id, Question>, id: Id, rows: seq<Question>)
    requires QuestionsReply(questions, id, rows)
    ensures forall qid :: qid in questions && questions[qid].intentId == id && 1 <= questions[qid].orderIndex <= 9 ==>
      Filled(rows)[questions[qid].orderIndex - 1] == questions[qid].text
    ensures forall i :: 1 <= i <= 9 && !SlotTaken(questions, id, i) ==>
      Filled(rows)[i - 1] == (if i - 1 < |rows| && rows[i - 1].orderIndex == 0 then rows[i - 1].text else "")
  {
    FilledOrdered(rows);
    forall qid | qid in questions && questions[qid].intentId == id && 1 <= questions[qid].orderIndex <= 9
      ensures Filled(rows)[questions[qid].orderIndex - 1] == questions[qid].text
    {
      var p :| 0 <= p < |rows| && rows[p] == questions[qid];
    }
    forall i | 1 <= i <= 9 && !SlotTaken(questions, id, i)
      ensures !Listed(rows, i)
    {
    }
  }

  /**
   * The answer `editIntent` shows is the text of an active answer of the
   * intent when it has one, and empty when it has none.
   */
  lemma AnswerFromStore(answers: map<Id, Answer>, id: Id, activeAnswers: seq<Answer>)
    requires AnswersReply(answers, id, activeAnswers)
    ensures var shown := if |activeAnswers| > 0 then activeAnswers[0].answerText else [];
      && (HasActiveAnswer(answers, id) ==>
            exists aid :: aid in answers && answers[aid].intentId == id && answers[aid].isActive && answers[aid].answerText == shown)
      && (!HasActiveAnswer(answers, id) ==> shown == [])
  {
    if |activeAnswers| > 0 {
      assert activeAnswers[0] in activeAnswers;
      var aid :| aid in answers && answers[aid] == activeAnswers[0];
    }
  }

  // ---------------------------------------------------------------------
  // The editor: saving the form
  // ---------------------------------------------------------------------

  /** The nine inputs as `saveDraft` reads them: trimmed. */
  function TrimmedInputs(slots: seq<string>): (values: seq<string>)
    requires |slots| == 9
    ensures |values| == 9
    ensures forall i :: 0 <= i < 9 ==> values[i] == Text.Trim(slots[i])
  {
    seq(9, i requires 0 <= i < 9 => Text.Trim(slots[i]))
  }

  /** The question sits at one of the first k positions of intent `intentId`. */
  predicate InSlots(q: Question, intentId: Id, k: int) {
    q.intentId == intentId && 1 <= q.orderIndex <= k
  }

  /**
   * Every row that existed before: at a reconciled position of the intent
   * it holds the value of its input, or is deleted when that value is
   * empty; anywhere else it is untouched.
   */
  ghost predicate OldRowsReconciled(before: map<Id, Question>, after: map<Id, Question>, intentId: Id,
                                    values: seq<string>, k: int)
    requires |values| == 9 && 0 <= k <= 9
  {
    forall id :: id in before ==>
      if InSlots(before[id], intentId, k) then
        if values[before[id].orderIndex - 1] != [] then
          id in after && after[id] == before[id].(text := values[before[id].orderIndex - 1])
        else id !in after
      else id in after && after[id] == before[id]
  }

  /** Every new row fills a reconciled position that had no row, with the non-empty value of its input. */
  ghost predicate NewRowsReconciled(before: map<Id, Question>, after: map<Id, Question>, intentId: Id,
                                    values: seq<string>, user: UserId, k: int, intentExists: bool)
    requires |values| == 9 && 0 <= k <= 9
  {
    forall id :: id in after && id !in before ==>
      intentExists && InSlots(after[id], intentId, k)
      && values[after[id].orderIndex - 1] != []
      && after[id] == Question(intentId, values[after[id].orderIndex - 1], after[id].orderIndex, true, user)
      && !SlotTaken(before, intentId, after[id].orderIndex)
  }

  /** When the intent exists, every reconciled position with a non-empty value has a row. */
  ghost predicate PositionsFilled(after: map<Id, Question>, intentId: Id, values: seq<string>, k: int, intentExists: bool)
    requires |values| == 9 && 0 <= k <= 9
  {
    intentExists ==> forall i :: 1 <= i <= k && values[i - 1] != [] ==> SlotTaken(after, intentId, i)
  }

  /** The questions table after positions 1..k of intent `intentId` are reconciled with `values`. */
  ghost predicate ReconciledUpTo(before: map<Id, Question>, after: map<Id, Question>, intentId: Id,
                                 values: seq<string>, user: UserId, k: int, intentExists: bool)
    requires |values| == 9 && 0 <= k <= 9
  {
    && OldRowsReconciled(before, after, intentId, values, k)
    && NewRowsReconciled(before, after, intentId, values, user, k, intentExists)
    && PositionsFilled(after, intentId, values, k, intentExists)
  }

  /** The row at position `orderIndex` of an intent, as the `order_index` to id table of `saveDraft` finds it. */
  function SlotRow(questions: map<Id, Question>, intentId: Id, orderIndex: int): (r: Option<Id>)
    requires SlotsUnique(questions)
    ensures r.Some? ==> r.value in questions && questions[r.value].intentId == intentId
                        && questions[r.value].orderIndex == orderIndex
    ensures r.None? <==> !SlotTaken(questions, intentId, orderIndex)
  {
    if SlotTaken(questions, intentId, orderIndex) then
      var id :| id in questions && questions[id].intentId == intentId && questions[id].orderIndex == orderIndex;
      Some(id)
    else None
  }

  /** A position no row held before the loop is still free when the loop reaches it. */
  lemma FreeSlotStaysFree(before: map<Id, Question>, current: map<Id, Question>, intentId: Id,
                          values: seq<string>, user: UserId, i: int, intentExists: bool)
    requires |values| == 9 && 1 <= i <= 9
    requires OldRowsReconciled(before, current, intentId, values, i - 1)
    requires NewRowsReconciled(before, current, intentId, values, user, i - 1, intentExists)
    requires !SlotTaken(before, intentId, i)
    ensures !SlotTaken(current, intentId, i)
  {
    forall id | id in current && current[id].intentId == intentId
      ensures current[id].orderIndex != i
    {
      if id in before {
        assert !InSlots(before[id], intentId, i - 1) ==> current[id] == before[id];
      }
    }
  }

  /** Reconciling position i when a row held it before the loop and its value is not empty: that row gets the text. */
  lemma StepUpdate(before: map<Id, Question>, current: map<Id, Question>, intentId: Id,
                   values: seq<string>, user: UserId, i: int, intentExists: bool, row: Id)
    requires |values| == 9 && 1 <= i <= 9 && SlotsUnique(before)
    requires ReconciledUpTo(before, current, intentId, values, user, i - 1, intentExists)
    requires row in before && before[row].intentId == intentId && before[row].orderIndex == i
    requires values[i - 1] != []
    ensures row in current && current[row] == before[row]
    ensures ReconciledUpTo(before, current[row := current[row].(text := values[i - 1])],
                           intentId, values, user, i, intentExists)
  {
    assert !InSlots(before[row], intentId, i - 1);
    var after := current[row := current[row].(text := values[i - 1])];
    forall id | id in before
      ensures if InSlots(before[id], intentId, i) then
        if values[before[id].orderIndex - 1] != [] then
          id in after && after[id] == before[id].(text := values[before[id].orderIndex - 1])
        else id !in after
      else id in after && after[id] == before[id]
    {
      if id != row && InSlots(before[id], intentId, i) {
        assert before[id].orderIndex != i;
      }
    }
    forall j | 1 <= j <= i && values[j - 1] != [] && intentExists
      ensures SlotTaken(after, intentId, j)
    {
      if j == i {
        assert after[row].intentId == intentId && after[row].orderIndex == i;
      } else {
        assert SlotTaken(current, intentId, j);
        var id :| id in current && current[id].intentId == intentId && current[id].orderIndex == j;
        assert id in after && after[id].intentId == intentId && after[id].orderIndex == j;
      }
    }
  }

  /** Reconciling position i when its value is empty: the row that held it, if any, is gone. */
  lemma StepDelete(before: map<Id, Question>, current: map<Id, Question>, intentId: Id,
                   values: seq<string>, user: UserId, i: int, intentExists: bool, row: Option<Id>)
    requires |values| == 9 && 1 <= i <= 9 && SlotsUnique(before)
    requires ReconciledUpTo(before, current, intentId, values, user, i - 1, intentExists)
    requires row.Some? ==> row.value in before && before[row.value].intentId == intentId && before[row.value].orderIndex == i
    requires row.None? ==> !SlotTaken(before, intentId, i)
    requires values[i - 1] == []
    ensures ReconciledUpTo(before, if row.Some? then current - {row.value} else current,
                           intentId, values, user, i, intentExists)
  {
    var after := if row.Some? then current - {row.value} else current;
    StepDeleteOld(before, current, intentId, values, i, row);
    StepDeleteNew(before, current, intentId, values, user, i, intentExists, row);
    forall j | 1 <= j <= i && values[j - 1] != [] && intentExists
      ensures SlotTaken(after, intentId, j)
    {
      assert SlotTaken(current, intentId, j);
      var id :| id in current && current[id].intentId == intentId && current[id].orderIndex == j;
      assert id in after;
    }
  }

  /** The rows that existed before, once position i with an empty value is reconciled. */
  lemma StepDeleteOld(before: map<Id, Question>, current: map<Id, Question>, intentId: Id,
                      values: seq<string>, i: int, row: Option<Id>)
    requires |values| == 9 && 1 <= i <= 9 && SlotsUnique(before)
    requires OldRowsReconciled(before, current, intentId, values, i - 1)
    requires row.Some? ==> row.value in before && before[row.value].intentId == intentId && before[row.value].orderIndex == i
    requires row.None? ==> !SlotTaken(before, intentId, i)
    requires values[i - 1] == []
    ensures OldRowsReconciled(before, if row.Some? then current - {row.value} else current, intentId, values, i)
  {
    var after := if row.Some? then current - {row.value} else current;
    forall id | id in before
      ensures if InSlots(before[id], intentId, i) then
        if values[before[id].orderIndex - 1] != [] then
          id in after && after[id] == before[id].(text := values[before[id].orderIndex - 1])
        else id !in after
      else id in after && after[id] == before[id]
    {
      if InSlots(before[id], intentId, i) && before[id].orderIndex == i {
        assert row.Some? && id == row.value;
      }
    }
  }

  /** Deleting the row at position i adds no new row. */
  lemma StepDeleteNew(before: map<Id, Question>, current: map<Id, Question>, intentId: Id,
                      values: seq<string>, user: UserId, i: int, intentExists: bool, row: Option<Id>)
    requires |values| == 9 && 1 <= i <= 9
    requires NewRowsReconciled(before, current, intentId, values, user, i - 1, intentExists)
    requires row.Some? ==> row.value in before
    ensures NewRowsReconciled(before, if row.Some? then current - {row.value} else current,
                              intentId, values, user, i, intentExists)
  {
    var after := if row.Some? then current - {row.value} else current;
    forall id | id in after && id !in before
      ensures intentExists && InSlots(after[id], intentId, i)
    {
      assert id in current && after[id] == current[id];
    }
  }

  /** Reconciling position i when no row held it and its value is not empty: one row is inserted. */
  lemma StepInsert(before: map<Id, Question>, current: map<Id, Question>, intentId: Id,
                   values: seq<string>, user: UserId, i: int, newId: Id)
    requires |values| == 9 && 1 <= i <= 9
    requires ReconciledUpTo(before, current, intentId, values, user, i - 1, true)
    requires !SlotTaken(before, intentId, i)
    requires newId !in before && newId !in current
    requires values[i - 1] != []
    ensures ReconciledUpTo(before, current[newId := Question(intentId, values[i - 1], i, true, user)],
                           intentId, values, user, i, true)
  {
    var after := current[newId := Question(intentId, values[i - 1], i, true, user)];
    forall id | id in before
      ensures if InSlots(before[id], intentId, i) then
        if values[before[id].orderIndex - 1] != [] then
          id in after && after[id] == before[id].(text := values[before[id].orderIndex - 1])
        else id !in after
      else id in after && after[id] == before[id]
    {
      assert !(InSlots(before[id], intentId, i) && before[id].orderIndex == i);
    }
    forall j | 1 <= j <= i && values[j - 1] != []
      ensures SlotTaken(after, intentId, j)
    {
      if j == i {
        assert after[newId].intentId == intentId && after[newId].orderIndex == i;
      } else {
        assert SlotTaken(current, intentId, j);
        var id :| id in current && current[id].intentId == intentId && current[id].orderIndex == j;
        assert id in after && after[id] == current[id];
      }
    }
  }

  /** An insert the store rejects (the intent is gone) leaves the table as it is. */
  lemma StepRejected(before: map<Id, Question>, current: map<Id, Question>, intentId: Id,
                     values: seq<string>, user: UserId, i: int)
    requires |values| == 9 && 1 <= i <= 9
    requires ReconciledUpTo(before, current, intentId, values, user, i - 1, false)
    requires !SlotTaken(before, intentId, i)
    ensures ReconciledUpTo(before, current, intentId, values, user, i, false)
  {
    forall id | id in before
      ensures if InSlots(before[id], intentId, i) then
        if values[before[id].orderIndex - 1] != [] then
          id in current && current[id] == before[id].(text := values[before[id].orderIndex - 1])
        else id !in current
      else id in current && current[id] == before[id]
    {
      assert !(InSlots(before[id], intentId, i) && before[id].orderIndex == i);
    }
  }

  /** The question step of `saveDraft`: positions 1..9, in order, against the rows read before the loop. */
  method ReconcileSlots(kb: KnowledgeBase, intentId: Id, slots: seq<string>, user: UserId)
    requires kb.Valid() && |slots| == 9
    modifies kb
    ensures kb.Valid()
    ensures ReconciledUpTo(old(kb.questions), kb.questions, intentId, TrimmedInputs(slots), user, 9, intentId in kb.intents)
    ensures kb.intents == old(kb.intents) && kb.answers == old(kb.answers) && kb.flags == old(kb.flags)
  {
    var existing := kb.questions;
    ghost var values := TrimmedInputs(slots);
    ghost var intentExists := intentId in kb.intents;
    var i := 1;
    while i <= 9
      invariant 1 <= i <= 10
      invariant kb.Valid() && SlotsUnique(existing)
      invariant forall id :: id in existing ==> id < kb.nextId
      invariant ReconciledUpTo(existing, kb.questions, intentId, values, user, i - 1, intentExists)
      invariant kb.intents == old(kb.intents) && kb.answers == old(kb.answers) && kb.flags == old(kb.flags)
      invariant intentExists == (intentId in kb.intents)
    {
      ghost var current := kb.questions;
      var value := Text.Trim(slots[i - 1]);
      assert value == values[i - 1];
      var row := SlotRow(existing, intentId, i);
      if value != [] {
        if row.Some? {
          StepUpdate(existing, current, intentId, values, user, i, intentExists, row.value);
          kb.UpdateQuestionText(row.value, value);
        } else {
          FreeSlotStaysFree(existing, current, intentId, values, user, i, intentExists);
          var id := kb.InsertQuestion(Question(intentId, value, i, true, user));
          if id.Some? {
            StepInsert(existing, current, intentId, values, user, i, id.value);
          } else {
            StepRejected(existing, current, intentId, values, user, i);
          }
        }
      } else {
        StepDelete(existing, current, intentId, values, user, i, intentExists, row);
        if row.Some? {
          kb.DeleteQuestion(row.value);
        }
      }
      i := i + 1;
    }
  }

  /**
   * After the loop over an existing intent, position i holds a row exactly
   * when its trimmed input is not empty, and every row at positions 1..9
   * holds the trimmed input of its position; rows of other intents and
   * rows at other positions are untouched, and no row appears there.
   */
  lemma SlotsSettled(before: map<Id, Question>, after: map<Id, Question>, intentId: Id,
                     values: seq<string>, user: UserId)
    requires |values| == 9
    requires ReconciledUpTo(before, after, intentId, values, user, 9, true)
    ensures forall i :: 1 <= i <= 9 ==> (SlotTaken(after, intentId, i) <==> values[i - 1] != [])
    ensures forall id :: id in after && InSlots(after[id], intentId, 9) ==> after[id].text == values[after[id].orderIndex - 1]
    ensures forall id :: id in before && !InSlots(before[id], intentId, 9) ==> id in after && after[id] == before[id]
    ensures forall id :: id in after && !InSlots(after[id], intentId, 9) ==> id in before && after[id] == before[id]
  {
    forall id | id in after
      ensures InSlots(after[id], intentId, 9) ==> after[id].text == values[after[id].orderIndex - 1]
      ensures !InSlots(after[id], intentId, 9) ==> id in before && after[id] == before[id]
    {
      if id in before {
        if InSlots(before[id], intentId, 9) {
          assert after[id] == before[id].(text := values[before[id].orderIndex - 1]);
        }
      }
    }
    forall i | 1 <= i <= 9 && SlotTaken(after, intentId, i)
      ensures values[i - 1] != []
    {
      var id :| id in after && after[id].intentId == intentId && after[id].orderIndex == i;
    }
  }

  /**
   * Reopening an intent after a save shows, in input i, the trimmed text
   * saved for position i, when the rows of the intent arrive in
   * `order_index` order and none of them had `order_index` 0.
   */
  lemma ReopenShowsSaved(before: map<Id, Question>, after: map<Id, Question>, intentId: Id,
                         slots: seq<string>, user: UserId, rows: seq<Question>)
    requires |slots| == 9
    requires ReconciledUpTo(before, after, intentId, TrimmedInputs(slots), user, 9, true)
    requires forall id :: id in before && before[id].intentId == intentId ==> before[id].orderIndex != 0
    requires StrictlyOrdered(rows)
    requires forall p :: 0 <= p < |rows| ==> rows[p] in after.Values && rows[p].intentId == intentId
    requires forall id :: id in after && after[id].intentId == intentId ==> after[id] in rows
    ensures Filled(rows) == TrimmedInputs(slots)
  {
    var values := TrimmedInputs(slots);
    SlotsSettled(before, after, intentId, values, user);
    forall id | id in after && after[id].intentId == intentId
      ensures after[id].orderIndex != 0
    {
      if id in before && !InSlots(before[id], intentId, 9) {
        assert after[id] == before[id];
      }
    }
    ShowSettled(after, intentId, values, rows);
  }

  /** `Filled` over the rows of an intent whose positions 1..9 hold exactly `values`. */
  lemma ShowSettled(after: map<Id, Question>, intentId: Id, values: seq<string>, rows: seq<Question>)
    requires |values| == 9
    requires forall i :: 1 <= i <= 9 ==> (SlotTaken(after, intentId, i) <==> values[i - 1] != [])
    requires forall id :: id in after && InSlots(after[id], intentId, 9) ==> after[id].text == values[after[id].orderIndex - 1]
    requires forall id :: id in after && after[id].intentId == intentId ==> after[id].orderIndex != 0
    requires StrictlyOrdered(rows)
    requires forall p :: 0 <= p < |rows| ==> rows[p] in after.Values && rows[p].intentId == intentId
    requires forall id :: id in after && after[id].intentId == intentId ==> after[id] in rows
    ensures Filled(rows) == values
  {
    FilledOrdered(rows);
    RowsPositioned(after, intentId, rows);
    forall i | 0 <= i < 9
      ensures Filled(rows)[i] == values[i]
    {
      ShowSettledAt(after, intentId, values, rows, i);
    }
  }

  /** Rows read back from a settled intent all carry a position. */
  lemma RowsPositioned(after: map<Id, Question>, intentId: Id, rows: seq<Question>)
    requires forall id :: id in after && after[id].intentId == intentId ==> after[id].orderIndex != 0
    requires forall p :: 0 <= p < |rows| ==> rows[p] in after.Values && rows[p].intentId == intentId
    ensures forall p :: 0 <= p < |rows| ==> rows[p].orderIndex != 0
  {
    forall p | 0 <= p < |rows|
      ensures rows[p].orderIndex != 0
    {
      assert rows[p] in after.Values;
    }
  }

  /** One input of `ShowSettled`: input i shows the value saved at position i + 1. */
  lemma ShowSettledAt(after: map<Id, Question>, intentId: Id, values: seq<string>, rows: seq<Question>, i: int)
    requires |values| == 9 && 0 <= i < 9
    requires SlotTaken(after, intentId, i + 1) <==> values[i] != []
    requires forall id :: id in after && InSlots(after[id], intentId, 9) ==> after[id].text == values[after[id].orderIndex - 1]
    requires forall p :: 0 <= p < |rows| ==> rows[p].orderIndex != 0
    requires forall p :: 0 <= p < |rows| ==> rows[p] in after.Values && rows[p].intentId == intentId
    requires forall id :: id in after && after[id].intentId == intentId ==> after[id] in rows
    requires forall p :: 0 <= p < |rows| && 1 <= rows[p].orderIndex <= 9 ==>
      Filled(rows)[rows[p].orderIndex - 1] == rows[p].text
    requires !Listed(rows, i + 1) ==>
      Filled(rows)[i] == (if i < |rows| && rows[i].orderIndex == 0 then rows[i].text else "")
    ensures Filled(rows)[i] == values[i]
  {
    if values[i] != [] {
      var id :| id in after && after[id].intentId == intentId && after[id].orderIndex == i + 1;
      assert after[id] in rows;
      var p :| 0 <= p < |rows| && rows[p] == after[id];
      assert rows[p].orderIndex == i + 1;
    }
  }

  /**
   * The answer step of `saveDraft`: nothing for a blank answer; otherwise
   * the text of some answer of the intent is replaced, or, with none, one
   * answer is inserted (which the store rejects when the intent is gone).
   */
  ghost predicate AnswerSaved(before: map<Id, Answer>, after: map<Id, Answer>, newId: Id,
                              intentId: Id, text: string, user: UserId, intentExists: bool)
  {
    if Text.IsBlank(text) then after == before
    else if exists a :: a in before && before[a].intentId == intentId then
      exists a :: a in before && before[a].intentId == intentId && after == before[a := before[a].(answerText := text)]
    else if intentExists then newId !in before && after == before[newId := Answer(intentId, text, true, user)]
    else after == before
  }

  method SaveAnswer(kb: KnowledgeBase, intentId: Id, text: string, user: UserId)
    requires kb.Valid()
    modifies kb
    ensures kb.Valid()
    ensures AnswerSaved(old(kb.answers), kb.answers, old(kb.nextId), intentId, text, user, intentId in kb.intents)
    ensures kb.intents == old(kb.intents) && kb.questions == old(kb.questions) && kb.flags == old(kb.flags)
  {
    Text.TrimEmptyIffBlank(text);
    if Text.Trim(text) != [] {
      if a :| a in kb.answers && kb.answers[a].intentId == intentId {
        kb.UpdateAnswerText(a, text);
      } else {
        var _ := kb.InsertAnswer(Answer(intentId, text, true, user));
      }
    }
  }

  /** What the editor's status line says. */
  datatype SaveStatus = NoStatus | Saving | DraftSaved | SaveError(message: string)

  const RequiredMessage: string := "Name and Answer are required."

  datatype SaveOutcome = NotLoggedIn | Invalid | WriteFailed(error: DbError) | Saved(intentId: Id)

  /** The intent write `saveDraft` issues for the form's name: its error, if any. */
  function IntentStepError(intents: map<Id, Intent>, current: Option<Id>, slug: string, fault: Option<DbError>): (e: Option<DbError>)
    ensures fault.Some? ==> e == fault
    ensures fault.None? && (current.None? || current.value in intents) ==>
      (e.Some? <==> SlugInUse(intents, slug, current))
    ensures fault.None? && current.Some? && current.value !in intents ==> e.None?
  {
    if current.Some? && current.value !in intents then fault
    else IntentWriteError(intents, slug, current, fault)
  }

  /** The intents table after a successful intent step. */
  function IntentStepResult(intents: map<Id, Intent>, current: Option<Id>, newId: Id, name: string, user: UserId)
    : (r: map<Id, Intent>)
    ensures current.None? ==> r == intents[newId := Intent(name, Text.Slugify(name), Draft, user)]
    ensures current.Some? ==> r.Keys == intents.Keys
    ensures forall id :: id in r && id != (if current.Some? then current.value else newId) ==> r[id] == intents[id]
    ensures var id := if current.Some? then current.value else newId;
      id in r ==> r[id].status == Draft && r[id].name == name && r[id].slug == Text.Slugify(name)
  {
    if current.None? then intents[newId := Intent(name, Text.Slugify(name), Draft, user)]
    else if current.value in intents then
      intents[current.value := intents[current.value].(name := name, slug := Text.Slugify(name), status := Draft)]
    else intents
  }

  /** The intent step of `saveDraft`: an insert for an unbound form, an update of the bound intent otherwise. */
  method WriteIntent(kb: KnowledgeBase, current: Option<Id>, name: string, user: UserId, fault: Option<DbError>)
    returns (r: Result<Id, DbError>)
    requires kb.Valid()
    modifies kb
    ensures kb.Valid()
    ensures var e := IntentStepError(old(kb.intents), current, Text.Slugify(name), fault);
      && (e.Some? ==> r == Err(e.value) && kb.State() == old(kb.State()) && kb.nextId == old(kb.nextId))
      && (e.None? ==>
            && r == Ok(if current.Some? then current.value else old(kb.nextId))
            && kb.intents == IntentStepResult(old(kb.intents), current, old(kb.nextId), name, user)
            && kb.nextId == old(kb.nextId) + (if current.None? then 1 else 0))
    ensures kb.questions == old(kb.questions) && kb.answers == old(kb.answers) && kb.flags == old(kb.flags)
  {
    var slug := Text.Slugify(name);
    if current.None? {
      r := kb.InsertIntent(Intent(name, slug, Draft, user), fault);
    } else {
      var err := kb.UpdateIntent(current.value, name, slug, Draft, fault);
      r := if err.Some? then Err(err.value) else Ok(current.value);
    }
  }

  class Editor {
    /** `currentIntentId`: the intent the form is bound to, if any. */
    var currentIntentId: Option<Id>
    var name: string
    var answer: string
    /** The inputs `q-1` .. `q-9`, at positions 0 .. 8. */
    var slots: seq<string>
    var status: SaveStatus
    var shown: bool

    ghost predicate Valid()
      reads this
    {
      |slots| == 9
    }

    constructor ()
      ensures Valid() && currentIntentId == None && !shown
      ensures name == [] && answer == [] && slots == EmptySlots && status == NoStatus
    {
      currentIntentId, name, answer, slots, status, shown := None, [], [], EmptySlots, NoStatus, false;
    }

    /** `openEditor`: an empty form bound to no intent. */
    method OpenEditor()
      modifies this
      ensures Valid() && currentIntentId == None && shown
      ensures name == [] && answer == [] && slots == EmptySlots && status == NoStatus
    {
      currentIntentId, name, answer, slots, status, shown := None, [], [], EmptySlots, NoStatus, true;
    }

    method CloseEditor()
      modifies this
      ensures !shown
      ensures currentIntentId == old(currentIntentId) && name == old(name) && answer == old(answer)
      ensures slots == old(slots) && status == old(status)
    {
      shown := false;
    }

    /** What the user types into the form. */
    method Enter(name': string, answer': string, slots': seq<string>)
      requires |slots'| == 9
      modifies this
      ensures Valid() && name == name' && answer == answer' && slots == slots'
      ensures currentIntentId == old(currentIntentId) && status == old(status) && shown == old(shown)
    {
      name, answer, slots := name', answer', slots';
    }

    /** `clearQ`: empties input i. */
    method ClearQuestion(i: int)
      requires Valid() && 1 <= i <= 9
      modifies this
      ensures Valid() && slots == old(slots)[i - 1 := []]
      ensures currentIntentId == old(currentIntentId) && name == old(name) && answer == old(answer)
      ensures status == old(status) && shown == old(shown)
    {
      slots := slots[i - 1 := []];
    }

    /**
     * `editIntent`: binds the form to `id` first, then, when the intent
     * exists, loads its name, the text of the first active answer, and the
     * question rows (the reply of the query ordered by `order_index`).
     * `rows` and `activeAnswers` are the replies of the two queries, which
     * are only sent when the intent exists.
     */
    method EditIntent(kb: KnowledgeBase, id: Id, rows: seq<Question>, activeAnswers: seq<Answer>)
      requires Valid()
      requires id in kb.intents ==> QuestionsReply(kb.questions, id, rows) && AnswersReply(kb.answers, id, activeAnswers)
      modifies this
      ensures Valid() && currentIntentId == Some(id)
      ensures id !in kb.intents ==>
        name == old(name) && answer == old(answer) && slots == old(slots)
        && status == old(status) && shown == old(shown)
      ensures id in kb.intents ==>
        name == kb.intents[id].name
        && answer == (if |activeAnswers| > 0 then activeAnswers[0].answerText else [])
        && slots == Filled(rows) && status == NoStatus && shown
      ensures id in kb.intents ==>
        forall qid :: qid in kb.questions && kb.questions[qid].intentId == id && 1 <= kb.questions[qid].orderIndex <= 9 ==>
          slots[kb.questions[qid].orderIndex - 1] == kb.questions[qid].text
      ensures id in kb.intents ==>
        forall i :: 1 <= i <= 9 && !SlotTaken(kb.questions, id, i) ==>
          slots[i - 1] == (if i - 1 < |rows| && rows[i - 1].orderIndex == 0 then rows[i - 1].text else "")
      ensures id in kb.intents && HasActiveAnswer(kb.answers, id) ==>
        exists aid :: aid in kb.answers && kb.answers[aid].intentId == id && kb.answers[aid].isActive
                      && kb.answers[aid].answerText == answer
      ensures id in kb.intents && !HasActiveAnswer(kb.answers, id) ==> answer == []
    {
      currentIntentId := Some(id);
      if id !in kb.intents {
        return;
      }
      name := kb.intents[id].name;
      answer := if |activeAnswers| > 0 then activeAnswers[0].answerText else [];
      var inputs := FillInputs(rows);
      slots, shown, status := inputs, true, NoStatus;
      FilledFromStore(kb.questions, id, rows);
      AnswerFromStore(kb.answers, id, activeAnswers);
    }

    /**
     * `saveDraft`. Without a user nothing happens; with an empty name or
     * answer nothing is written. Otherwise the intent is inserted (binding
     * the form to it) or updated, in both cases as a draft with the slug
     * of the name; a failed intent write stops there. Then the answer and
     * the nine positions are written.
     */
    method SaveDraft(kb: KnowledgeBase, user: Option<UserId>, fault: Option<DbError>) returns (outcome: SaveOutcome)
      requires Valid() && kb.Valid()
      modifies this, kb
      ensures Valid() && kb.Valid()
      ensures name == old(name) && answer == old(answer) && slots == old(slots) && shown == old(shown)
      ensures outcome == (
        if user.None? then NotLoggedIn
        else if name == [] || answer == [] then Invalid
        else
          var e := IntentStepError(old(kb.intents), old(currentIntentId), Text.Slugify(name), fault);
          if e.Some? then WriteFailed(e.value)
          else Saved(if old(currentIntentId).Some? then old(currentIntentId).value else old(kb.nextId)))
      ensures !outcome.Saved? ==> kb.State() == old(kb.State()) && currentIntentId == old(currentIntentId)
      ensures status == (match outcome
        case NotLoggedIn => old(status)
        case Invalid => SaveError(RequiredMessage)
        case WriteFailed(e) => SaveError(e.message)
        case Saved(_) => DraftSaved)
      ensures outcome.Saved? ==>
        var id := outcome.intentId;
        currentIntentId == Some(id)
        && kb.intents == IntentStepResult(old(kb.intents), old(currentIntentId), old(kb.nextId), name, user.value)
        && (id in kb.intents ==> kb.intents[id].status == Draft)
        && AnswerSaved(old(kb.answers), kb.answers, old(kb.nextId) + (if old(currentIntentId).None? then 1 else 0),
                       id, answer, user.value, id in kb.intents)
        && ReconciledUpTo(old(kb.questions), kb.questions, id, TrimmedInputs(slots), user.value, 9, id in kb.intents)
        && kb.flags == old(kb.flags)
    {
      if user.None? {
        return NotLoggedIn;
      }
      status := Saving;
      if name == [] || answer == [] {
        status := SaveError(RequiredMessage);
        return Invalid;
      }
      var r := WriteIntent(kb, currentIntentId, name, user.value, fault);
      if r.Err? {
        status := SaveError(r.error.message);
        return WriteFailed(r.error);
      }
      var intentId := r.value;
      currentIntentId := Some(intentId);
      SaveAnswer(kb, intentId, answer, user.value);
      ReconcileSlots(kb, intentId, slots, user.value);
      status := DraftSaved;
      return Saved(intentId);
    }

    /**
     * `publishIntent`: saves the form first; then, when the form is bound
     * to an intent and the user confirms, publishes that one intent and
     * closes the editor. A form bound by `editIntent` stays bound when the
     * save fails, so the job is sent anyway.
     */
    method PublishIntent(kb: KnowledgeBase, modal: LogModal<PublishLine>, user: Option<UserId>,
                         fault: Option<DbError>, confirmed: bool, reply: Reply)
      returns (saved: SaveOutcome, request: PublishRequest)
      requires Valid() && kb.Valid()
      modifies this, kb, modal
      ensures Valid() && kb.Valid()
      ensures saved.Saved? ==> currentIntentId == Some(saved.intentId)
      ensures !saved.Saved? ==> currentIntentId == old(currentIntentId)
      ensures request.Sent? <==> currentIntentId.Some? && confirmed
      ensures old(currentIntentId).Some? && confirmed ==> request.Sent?
      ensures request.Sent? ==> (modal.lines, request.refreshed) == PublishLog(1, reply) && !shown
      ensures !request.Sent? ==> unchanged(modal)
    {
      saved := SaveDraft(kb, user, fault);
      if currentIntentId.None? || !confirmed {
        return saved, NotSent;
      }
      var refreshed := PerformBulkPublish(modal, 1, reply);
      CloseEditor();
      return saved, Sent(refreshed);
    }
  }
}
