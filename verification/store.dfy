/**
 * The hosted relational store behind the dashboard, reduced to the four
 * tables the core reads and writes: intents, questions, answers and
 * duplicate flags, each keyed by a row id. Every network write the
 * dashboard issues is one method here.
 */
module Store {
  import opened Common

  type Id = nat
  type UserId = string

  datatype Status = Draft | Published
  datatype Resolution = Unresolved | Ignored | Deleted

  datatype Intent = Intent(name: string, slug: string, status: Status, createdBy: UserId)
  datatype Question = Question(intentId: Id, text: string, orderIndex: int, isActive: bool, createdBy: UserId)
  datatype Answer = Answer(intentId: Id, answerText: string, isActive: bool, createdBy: UserId)
  datatype Flag = Flag(
    sourceIntentId: Id, sourceQuestionId: Id,
    matchedIntentId: Id, matchedQuestionId: Id,
    resolution: Resolution)

  /** An error the store reports, with its SQLSTATE-style code. */
  datatype DbError = DbError(code: string, message: string)

  /** The code of a unique-constraint violation. */
  const UniqueViolation: string := "23505"
  const DuplicateSlug: DbError := DbError(UniqueViolation, "duplicate key value violates unique constraint on slug")

  /** The contents of the four tables at one moment. */
  datatype Snapshot = Snapshot(
    intents: map<Id, Intent>, questions: map<Id, Question>,
    answers: map<Id, Answer>, flags: map<Id, Flag>)

  /** No two intents share a slug (a unique constraint of the store). */
  ghost predicate SlugsUnique(intents: map<Id, Intent>) {
    forall a, b :: a in intents && b in intents && a != b ==> intents[a].slug != intents[b].slug
  }

  /** No two questions of one intent share an `order_index`. */
  ghost predicate SlotsUnique(questions: map<Id, Question>) {
    forall a, b :: a in questions && b in questions && a != b && questions[a].intentId == questions[b].intentId
      ==> questions[a].orderIndex != questions[b].orderIndex
  }

  predicate SlugInUse(intents: map<Id, Intent>, slug: string, except: Option<Id>) {
    exists id :: id in intents && intents[id].slug == slug && except != Some(id)
  }

  /** Some question of `intentId` sits at position `orderIndex`. */
  predicate SlotTaken(questions: map<Id, Question>, intentId: Id, orderIndex: int) {
    exists id :: id in questions && questions[id].intentId == intentId && questions[id].orderIndex == orderIndex
  }

  /** The error an intent insert or slug update reports, if any. */
  function IntentWriteError(intents: map<Id, Intent>, slug: string, except: Option<Id>, fault: Option<DbError>): (e: Option<DbError>)
    ensures fault.Some? ==> e == fault
    ensures fault.None? ==> (e.Some? <==> SlugInUse(intents, slug, except))
    ensures e.Some? && fault.None? ==> e.value.code == UniqueViolation
  {
    if fault.Some? then fault
    else if SlugInUse(intents, slug, except) then Some(DuplicateSlug)
    else None
  }

  /** The store after deleting the intents `ids` together with their questions and answers. */
  function CascadeDelete(s: Snapshot, ids: set<Id>): (r: Snapshot)
    ensures r.intents.Keys == s.intents.Keys - ids
    ensures forall id :: id in r.intents ==> r.intents[id] == s.intents[id]
    ensures forall id :: id in r.questions <==> id in s.questions && s.questions[id].intentId !in ids
    ensures forall id :: id in r.answers <==> id in s.answers && s.answers[id].intentId !in ids
    ensures forall id :: id in r.questions ==> r.questions[id] == s.questions[id]
    ensures forall id :: id in r.answers ==> r.answers[id] == s.answers[id]
    ensures r.flags == s.flags
  {
    Snapshot(
      s.intents - ids,
      map id | id in s.questions && s.questions[id].intentId !in ids :: s.questions[id],
      map id | id in s.answers && s.answers[id].intentId !in ids :: s.answers[id],
      s.flags)
  }

  /** The rows of a batch insert: ids from `firstId` on, `order_index` 1, 2, ... in text order. */
  function NumberedQuestions(firstId: Id, intentId: Id, texts: seq<string>, user: UserId): map<Id, Question> {
    if texts == [] then map[]
    else
      var n := |texts|;
      NumberedQuestions(firstId, intentId, texts[..n - 1], user)[firstId + n - 1 := Question(intentId, texts[n - 1], n, true, user)]
  }

  /** A batch takes the ids `firstId` .. `firstId + |texts| - 1`, the k-th text at position k + 1. */
  lemma {:induction false} NumberedRows(firstId: Id, intentId: Id, texts: seq<string>, user: UserId)
    ensures forall id :: id in NumberedQuestions(firstId, intentId, texts, user) <==> firstId <= id < firstId + |texts|
    ensures forall id :: id in NumberedQuestions(firstId, intentId, texts, user) ==>
      NumberedQuestions(firstId, intentId, texts, user)[id] == Question(intentId, texts[id - firstId], id - firstId + 1, true, user)
  {
    if texts != [] {
      var n := |texts|;
      var init := texts[..n - 1];
      NumberedRows(firstId, intentId, init, user);
      var prev := NumberedQuestions(firstId, intentId, init, user);
      var m := prev[firstId + n - 1 := Question(intentId, texts[n - 1], n, true, user)];
      assert NumberedQuestions(firstId, intentId, texts, user) == m;
      forall id | id in m
        ensures firstId <= id < firstId + n
        ensures m[id] == Question(intentId, texts[id - firstId], id - firstId + 1, true, user)
      {
        if id != firstId + n - 1 {
          assert id in prev;
          assert init[id - firstId] == texts[id - firstId];
        }
      }
    }
  }

  class KnowledgeBase {
    var intents: map<Id, Intent>
    var questions: map<Id, Question>
    var answers: map<Id, Answer>
    var flags: map<Id, Flag>
    /** The store's id sequence: every id in use is below it. */
    var nextId: Id

    /**
     * Ids are allocated from `nextId`; every question and answer refers to
     * an existing intent (foreign keys); slugs are unique (a unique
     * constraint); no two questions of an intent share an `order_index`
     * (kept by the dashboard's own writes, not by the store).
     */
    ghost predicate Valid()
      reads this
    {
      && (forall id :: id in intents ==> id < nextId)
      && (forall id :: id in questions ==> id < nextId && questions[id].intentId in intents)
      && (forall id :: id in answers ==> id < nextId && answers[id].intentId in intents)
      && (forall id :: id in flags ==> id < nextId)
      && SlugsUnique(intents)
      && SlotsUnique(questions)
    }

    function State(): Snapshot
      reads this
    {
      Snapshot(intents, questions, answers, flags)
    }

    /** The store as the page finds it when it loads. */
    constructor (intents0: map<Id, Intent>, questions0: map<Id, Question>, answers0: map<Id, Answer>,
                 flags0: map<Id, Flag>, nextId0: Id)
      requires forall id :: id in intents0 ==> id < nextId0
      requires forall id :: id in questions0 ==> id < nextId0 && questions0[id].intentId in intents0
      requires forall id :: id in answers0 ==> id < nextId0 && answers0[id].intentId in intents0
      requires forall id :: id in flags0 ==> id < nextId0
      requires SlugsUnique(intents0) && SlotsUnique(questions0)
      ensures Valid()
      ensures State() == Snapshot(intents0, questions0, answers0, flags0) && nextId == nextId0
    {
      intents, questions, answers, flags, nextId := intents0, questions0, answers0, flags0, nextId0;
    }

    /** `insert` into `intents`; fails on a fault or on a slug already in use. */
    method InsertIntent(row: Intent, fault: Option<DbError>) returns (r: Result<Id, DbError>)
      requires Valid()
      modifies this
      ensures Valid()
      ensures var e := IntentWriteError(old(intents), row.slug, None, fault);
        if e.Some? then r == Err(e.value) && State() == old(State()) && nextId == old(nextId)
        else r == Ok(old(nextId)) && intents == old(intents)[r.value := row] && nextId == old(nextId) + 1
      ensures questions == old(questions) && answers == old(answers) && flags == old(flags)
      ensures r.Ok? ==> r.value in intents && forall id :: id in questions ==> questions[id].intentId != r.value
    {
      var e := IntentWriteError(intents, row.slug, None, fault);
      if e.Some? {
        return Err(e.value);
      }
      r := Ok(nextId);
      intents := intents[nextId := row];
      nextId := nextId + 1;
    }

    /**
     * `update` of one intent's name, slug and status. An id with no row
     * matches nothing and is not an error.
     */
    method UpdateIntent(id: Id, name: string, slug: string, status: Status, fault: Option<DbError>)
      returns (err: Option<DbError>)
      requires Valid()
      modifies this
      ensures Valid()
      ensures err == (if id in old(intents) then IntentWriteError(old(intents), slug, Some(id), fault) else fault)
      ensures intents == if err.None? && id in old(intents)
        then old(intents)[id := old(intents)[id].(name := name, slug := slug, status := status)]
        else old(intents)
      ensures questions == old(questions) && answers == old(answers) && flags == old(flags)
      ensures nextId == old(nextId)
    {
      if id !in intents {
        return fault;
      }
      err := IntentWriteError(intents, slug, Some(id), fault);
      if err.None? {
        intents := intents[id := intents[id].(name := name, slug := slug, status := status)];
      }
    }

    /**
     * `delete ... in('id', ids)` on `intents`, one statement: all or
     * nothing. The questions and answers of a deleted intent go with it
     * (cascading foreign keys).
     */
    method DeleteIntents(ids: set<Id>, fault: Option<DbError>) returns (err: Option<DbError>)
      requires Valid()
      modifies this
      ensures Valid()
      ensures err == fault
      ensures fault.Some? ==> State() == old(State())
      ensures fault.None? ==> State() == CascadeDelete(old(State()), ids)
      ensures nextId == old(nextId)
    {
      err := fault;
      if fault.None? {
        intents, questions, answers := CascadeDelete(State(), ids).intents, CascadeDelete(State(), ids).questions,
          CascadeDelete(State(), ids).answers;
      }
    }

    /** `insert` into `answers`; rejected (and the error discarded) when the intent does not exist. */
    method InsertAnswer(row: Answer) returns (id: Option<Id>)
      requires Valid()
      modifies this
      ensures Valid()
      ensures row.intentId in old(intents) ==>
        id == Some(old(nextId)) && old(nextId) !in old(answers) && answers == old(answers)[old(nextId) := row]
        && nextId == old(nextId) + 1
      ensures row.intentId !in old(intents) ==> id == None && answers == old(answers) && nextId == old(nextId)
      ensures intents == old(intents) && questions == old(questions) && flags == old(flags)
    {
      if row.intentId !in intents {
        return None;
      }
      id := Some(nextId);
      answers := answers[nextId := row];
      nextId := nextId + 1;
    }

    method UpdateAnswerText(id: Id, text: string)
      requires Valid()
      modifies this
      ensures Valid()
      ensures answers == if id in old(answers) then old(answers)[id := old(answers)[id].(answerText := text)] else old(answers)
      ensures intents == old(intents) && questions == old(questions) && flags == old(flags)
      ensures nextId == old(nextId)
    {
      if id in answers {
        answers := answers[id := answers[id].(answerText := text)];
      }
    }

    /**
     * `insert` of one question into a position of its intent that no
     * question holds; rejected (and the error discarded) when the intent
     * does not exist.
     */
    method InsertQuestion(row: Question) returns (id: Option<Id>)
      requires Valid()
      requires !SlotTaken(questions, row.intentId, row.orderIndex)
      modifies this
      ensures Valid()
      ensures row.intentId in old(intents) ==>
        id == Some(old(nextId)) && old(nextId) !in old(questions) && questions == old(questions)[old(nextId) := row]
        && nextId == old(nextId) + 1
      ensures row.intentId !in old(intents) ==> id == None && questions == old(questions) && nextId == old(nextId)
      ensures intents == old(intents) && answers == old(answers) && flags == old(flags)
    {
      if row.intentId !in intents {
        return None;
      }
      id := Some(nextId);
      questions := questions[nextId := row];
      nextId := nextId + 1;
    }

    /**
     * One `insert` of a batch of questions for an intent that has none:
     * the k-th text gets `order_index` k + 1.
     */
    method InsertQuestionBatch(intentId: Id, texts: seq<string>, user: UserId)
      requires Valid() && intentId in intents
      requires forall id :: id in questions ==> questions[id].intentId != intentId
      modifies this
      ensures Valid()
      ensures nextId == old(nextId) + |texts|
      ensures questions == old(questions) + NumberedQuestions(old(nextId), intentId, texts, user)
      ensures intents == old(intents) && answers == old(answers) && flags == old(flags)
    {
      var batch := NumberedQuestions(nextId, intentId, texts, user);
      NumberedRows(nextId, intentId, texts, user);
      questions := questions + batch;
      nextId := nextId + |texts|;
    }

    method UpdateQuestionText(id: Id, text: string)
      requires Valid()
      modifies this
      ensures Valid()
      ensures questions == if id in old(questions) then old(questions)[id := old(questions)[id].(text := text)] else old(questions)
      ensures intents == old(intents) && answers == old(answers) && flags == old(flags)
      ensures nextId == old(nextId)
    {
      if id in questions {
        questions := questions[id := questions[id].(text := text)];
      }
    }

    /** Hard delete of one question; an id with no row matches nothing. */
    method DeleteQuestion(id: Id)
      requires Valid()
      modifies this
      ensures Valid()
      ensures questions == old(questions) - {id}
      ensures intents == old(intents) && answers == old(answers) && flags == old(flags)
      ensures nextId == old(nextId)
    {
      questions := questions - {id};
    }

    /** `update({ resolution })` of one flag; an id with no row matches nothing. */
    method UpdateFlagResolution(id: Id, resolution: Resolution, fault: Option<DbError>) returns (err: Option<DbError>)
      requires Valid()
      modifies this
      ensures Valid()
      ensures err == fault
      ensures flags == if fault.None? && id in old(flags)
        then old(flags)[id := old(flags)[id].(resolution := resolution)]
        else old(flags)
      ensures intents == old(intents) && questions == old(questions) && answers == old(answers)
      ensures nextId == old(nextId)
    {
      err := fault;
      if fault.None? && id in flags {
        flags := flags[id := flags[id].(resolution := resolution)];
      }
    }
  }
}
