/**
 * The JSON import panel: a parsed document is normalised to a list of
 * records, and each record is imported in turn as a draft intent with at
 * most one answer and at most nine ordered questions.
 */
module Importer {
  import opened Common
  import opened JsonValues
  import opened Store
  import Text

  // ---------------------------------------------------------------------
  // Normalising a document to a record list
  // ---------------------------------------------------------------------

  /** Why a document is refused: reading `intents` of `null` throws; a string, number or boolean is no format. */
  datatype FormatError = NullDocument | UnknownFormat

  /** The own enumerable properties object spread copies from a value: object fields, array and string indices. */
  function OwnFields(v: Json): (fields: seq<(string, Json)>)
    ensures v.Obj? ==> fields == v.fields
    ensures v.Arr? ==> |fields| == |v.items| && forall i :: 0 <= i < |v.items| ==> fields[i] == (NatText(i), v.items[i])
    ensures v.Str? ==> |fields| == |v.s| && forall i :: 0 <= i < |v.s| ==> fields[i] == (NatText(i), Str([v.s[i]]))
    ensures v.Null? || v.Bool? || v.Num? ==> fields == []
  {
    match v
    case Obj(fs) => fs
    case Arr(items) => seq(|items|, i requires 0 <= i < |items| => (NatText(i), items[i]))
    case Str(s) => seq(|s|, i requires 0 <= i < |s| => (NatText(i), Str([s[i]])))
    case _ => []
  }

  /** `{ tag: key, ...value }`: the record for one key of a keyed document. */
  function KeyedRecord(key: string, value: Json): Json {
    Obj([("tag", Str(key))] + OwnFields(value))
  }

  /**
   * A record reads a name from the value's own fields first; `tag` falls
   * back to the key, any other name to `undefined`.
   */
  lemma KeyedRecordReads(key: string, value: Json, name: string)
    ensures Prop(KeyedRecord(key, value), name) ==
      if Lookup(OwnFields(value), name).Some? then Found(Lookup(OwnFields(value), name).value)
      else if name == "tag" then Found(Str(key))
      else Missing
  {
    LookupAppend([("tag", Str(key))], OwnFields(value), name);
    assert Lookup([("tag", Str(key))], name) == if name == "tag" then Some(Str(key)) else None by {
      assert [("tag", Str(key))][..0] == [];
    }
  }

  /** The records of a keyed document, one per key, in key order. */
  function KeyedRecords(fields: seq<(string, Json)>): (records: seq<Json>)
    ensures |records| == |fields|
    ensures forall k :: 0 <= k < |fields| ==> records[k] == KeyedRecord(fields[k].0, fields[k].1)
  {
    seq(|fields|, k requires 0 <= k < |fields| => KeyedRecord(fields[k].0, fields[k].1))
  }

  /**
   * The accepted shapes: an array is the record list; an object with a
   * truthy `intents` stands for that value; any other object is keyed by
   * tag.
   */
  function Normalise(doc: Json): (r: Result<Json, FormatError>)
    ensures doc.Arr? ==> r == Ok(doc)
    ensures doc.Obj? && Present(Prop(doc, "intents")) ==> r == Ok(Prop(doc, "intents").value)
    ensures doc.Obj? && !Present(Prop(doc, "intents")) ==> r == Ok(Arr(KeyedRecords(doc.fields)))
    ensures doc.Null? ==> r == Err(NullDocument)
    ensures doc.Str? || doc.Num? || doc.Bool? ==> r == Err(UnknownFormat)
  {
    match doc
    case Null => Err(NullDocument)
    case Obj(fields) =>
      var intents := Prop(doc, "intents");
      if Present(intents) then Ok(intents.value) else Ok(Arr(KeyedRecords(fields)))
    case Arr(_) => Ok(doc)
    case _ => Err(UnknownFormat)
  }

  /** A keyed document yields a record with `tag` = key, unless the value brings its own `tag`. */
  lemma KeyedDocumentTags(fields: seq<(string, Json)>, k: int)
    requires 0 <= k < |fields|
    requires !Present(Prop(Obj(fields), "intents"))
    ensures Normalise(Obj(fields)).value.items[k] == KeyedRecord(fields[k].0, fields[k].1)
    ensures Prop(Normalise(Obj(fields)).value.items[k], "tag") ==
      if Lookup(OwnFields(fields[k].1), "tag").Some? then Found(Lookup(OwnFields(fields[k].1), "tag").value)
      else Found(Str(fields[k].0))
  {
    KeyedRecordReads(fields[k].0, fields[k].1, "tag");
  }

  // ---------------------------------------------------------------------
  // Field aliasing and coercion
  // ---------------------------------------------------------------------

  /** `a || b || ... || z`: the first truthy read, or the last read when none is truthy. */
  function FirstTruthy(candidates: seq<Access>): (r: Access)
    requires candidates != []
    ensures Present(r) <==> exists k :: 0 <= k < |candidates| && Present(candidates[k])
    ensures Present(r) ==> exists k :: 0 <= k < |candidates| && r == candidates[k] && forall j :: 0 <= j < k ==> !Present(candidates[j])
    ensures !Present(r) ==> r == candidates[|candidates| - 1]
  {
    if |candidates| == 1 || Present(candidates[0]) then candidates[0]
    else
      var r := FirstTruthy(candidates[1..]);
      assert forall k :: 1 <= k < |candidates| ==> candidates[k] == candidates[1..][k - 1];
      r
  }

  /** A string stands for a one-element list. */
  function AsList(v: Json): (l: Json)
    ensures v.Str? ==> l == Arr([v])
    ensures !v.Str? ==> l == v
  {
    if v.Str? then Arr([v]) else v
  }

  /** `item.tag || item.intent || item.name`. */
  function SlugRead(item: Json): Access {
    FirstTruthy([Prop(item, "tag"), Prop(item, "intent"), Prop(item, "name")])
  }

  /** `item.patterns || item.text || item.questions || []`, a string made a list. */
  function QuestionsValue(item: Json): (q: Json)
    requires !item.Null?
  {
    var r := FirstTruthy([Prop(item, "patterns"), Prop(item, "text"), Prop(item, "questions"), Found(Arr([]))]);
    AsList(r.value)
  }

  /** `item.responses || item.answers || item.response || item.answer || []`, a string made a list. */
  function ResponsesValue(item: Json): (q: Json)
    requires !item.Null?
  {
    var r := FirstTruthy([Prop(item, "responses"), Prop(item, "answers"), Prop(item, "response"),
                          Prop(item, "answer"), Found(Arr([]))]);
    AsList(r.value)
  }

  /** The first truthy read is the one the chain yields. */
  lemma {:induction false} FirstTruthyPicks(candidates: seq<Access>, k: int)
    requires 0 <= k < |candidates| && Present(candidates[k])
    requires forall j :: 0 <= j < k ==> !Present(candidates[j])
    ensures FirstTruthy(candidates) == candidates[k]
  {
    if k > 0 {
      assert !Present(candidates[0]);
      assert forall j :: 0 <= j < k - 1 ==> candidates[1..][j] == candidates[j + 1];
      FirstTruthyPicks(candidates[1..], k - 1);
    }
  }

  /**
   * The question list of an item is its first truthy alias among
   * `patterns`, `text` and `questions`, a string alias made a one-element
   * list, or the empty list when no alias is truthy; it is never a string.
   */
  lemma QuestionsAliasing(item: Json)
    requires !item.Null?
    ensures !QuestionsValue(item).Str?
    ensures var aliases := [Prop(item, "patterns"), Prop(item, "text"), Prop(item, "questions")];
      && (forall k :: 0 <= k < 3 ==> !Present(aliases[k])) ==> QuestionsValue(item) == Arr([])
    ensures var aliases := [Prop(item, "patterns"), Prop(item, "text"), Prop(item, "questions")];
      forall k :: 0 <= k < 3 && Present(aliases[k]) && (forall j :: 0 <= j < k ==> !Present(aliases[j])) ==>
        QuestionsValue(item) == AsList(aliases[k].value)
  {
    var candidates := [Prop(item, "patterns"), Prop(item, "text"), Prop(item, "questions"), Found(Arr([]))];
    if forall k :: 0 <= k < 3 ==> !Present(candidates[k]) {
      FirstTruthyPicks(candidates, 3);
    }
    forall k | 0 <= k < 3 && Present(candidates[k]) && (forall j :: 0 <= j < k ==> !Present(candidates[j]))
      ensures QuestionsValue(item) == AsList(candidates[k].value)
    {
      FirstTruthyPicks(candidates, k);
    }
  }

  /**
   * The response list of an item is its first truthy alias among
   * `responses`, `answers`, `response` and `answer`, a string alias made a
   * one-element list, or the empty list when no alias is truthy.
   */
  lemma ResponsesAliasing(item: Json)
    requires !item.Null?
    ensures !ResponsesValue(item).Str?
    ensures var aliases := [Prop(item, "responses"), Prop(item, "answers"), Prop(item, "response"), Prop(item, "answer")];
      && (forall k :: 0 <= k < 4 ==> !Present(aliases[k])) ==> ResponsesValue(item) == Arr([])
    ensures var aliases := [Prop(item, "responses"), Prop(item, "answers"), Prop(item, "response"), Prop(item, "answer")];
      forall k :: 0 <= k < 4 && Present(aliases[k]) && (forall j :: 0 <= j < k ==> !Present(aliases[j])) ==>
        ResponsesValue(item) == AsList(aliases[k].value)
  {
    var candidates := [Prop(item, "responses"), Prop(item, "answers"), Prop(item, "response"), Prop(item, "answer"),
                       Found(Arr([]))];
    if forall k :: 0 <= k < 4 ==> !Present(candidates[k]) {
      FirstTruthyPicks(candidates, 4);
    }
    forall k | 0 <= k < 4 && Present(candidates[k]) && (forall j :: 0 <= j < k ==> !Present(candidates[j]))
      ensures ResponsesValue(item) == AsList(candidates[k].value)
    {
      FirstTruthyPicks(candidates, k);
    }
  }

  // ---------------------------------------------------------------------
  // Importing one item
  // ---------------------------------------------------------------------

  datatype ImportLine =
    | Started
    | SkippedNoSlug
    | NoAnswersWarning(tag: Json)
    | SkippedDuplicate(slug: string)
    | CreateFailed(slug: string, message: string)
    | Imported(slug: string)
    /** The first 20 characters of the item's JSON text. */
    | Crashed(excerpt: string)
    | Done

  const MaxQuestions: nat := 9

  function Excerpt(item: Json): (e: string)
    ensures |e| <= 20
  {
    var text := Serialize(item);
    if |text| <= 20 then text else text[..20]
  }

  /** The item is warned about: its responses are an empty list. */
  predicate NoAnswers(item: Json)
    requires !item.Null?
  {
    ResponsesValue(item).Arr? && |ResponsesValue(item).items| == 0
  }

  /** The slug string and user of an item that gets as far as the intent insert. */
  function Creation(item: Json, user: Option<UserId>): (c: Option<(string, UserId)>)
    ensures c.Some? ==> !item.Null? && Present(SlugRead(item)) && SlugRead(item).value == Str(c.value.0)
                        && user == Some(c.value.1)
  {
    if item.Null? then None
    else
      var slug := SlugRead(item);
      if Present(slug) && slug.value.Str? && user.Some? then Some((slug.value.s, user.value)) else None
  }

  /** The draft intent an item creates. */
  function NewIntent(slug: string, user: UserId): (i: Intent)
    ensures i.status == Draft && i.createdBy == user
    ensures i.name == Text.UnderscoresToSpaces(slug) && i.slug == Text.Slugify(slug)
  {
    Intent(Text.UnderscoresToSpaces(slug), Text.Slugify(slug), Draft, user)
  }

  /** The answer text an item writes: its first response, when the responses are a non-empty list and it is not `null`. */
  function AnswerText(item: Json): (text: Option<string>)
    requires !item.Null?
    ensures text.Some? <==> ResponsesValue(item).Arr? && |ResponsesValue(item).items| > 0
                            && !ResponsesValue(item).items[0].Null?
    ensures text.Some? ==> text.value == ElementText(ResponsesValue(item).items[0])
    ensures NoAnswers(item) ==> text.None?
  {
    var responses := ResponsesValue(item);
    if responses.Arr? && |responses.items| > 0 && !responses.items[0].Null? then Some(ElementText(responses.items[0]))
    else None
  }

  /** `questions.slice(0, 9)`, or `None` when the questions are not a list (the call throws). */
  function QuestionBatch(item: Json): (batch: Option<seq<Json>>)
    requires !item.Null?
    ensures batch.Some? <==> QuestionsValue(item).Arr?
    ensures batch.Some? ==>
      |batch.value| <= MaxQuestions && |batch.value| <= |QuestionsValue(item).items|
      && batch.value == QuestionsValue(item).items[..|batch.value|]
      && (|batch.value| == MaxQuestions || batch.value == QuestionsValue(item).items)
  {
    var questions := QuestionsValue(item);
    if !questions.Arr? then None
    else if |questions.items| <= MaxQuestions then Some(questions.items)
    else Some(questions.items[..MaxQuestions])
  }

  /** The texts of a batch the store accepts: no `null` element. */
  function BatchTexts(batch: seq<Json>): (texts: Option<seq<string>>)
    ensures texts.Some? <==> forall k :: 0 <= k < |batch| ==> !batch[k].Null?
    ensures texts.Some? ==> |texts.value| == |batch| && forall k :: 0 <= k < |batch| ==> texts.value[k] == ElementText(batch[k])
  {
    if exists k :: 0 <= k < |batch| && batch[k].Null? then None
    else Some(seq(|batch|, k requires 0 <= k < |batch| => ElementText(batch[k])))
  }

  /** The question texts an item writes, in order: empty when there is no list or the store rejects the batch. */
  function QuestionTexts(item: Json): (texts: seq<string>)
    requires !item.Null?
    ensures |texts| <= MaxQuestions
    ensures texts != [] ==> QuestionBatch(item).Some? && BatchTexts(QuestionBatch(item).value) == Some(texts)
    ensures QuestionBatch(item).Some? && BatchTexts(QuestionBatch(item).value).Some? ==>
      texts == BatchTexts(QuestionBatch(item).value).value
  {
    var batch := QuestionBatch(item);
    if batch.None? then [] else
    var texts := BatchTexts(batch.value);
    if texts.None? then [] else texts.value
  }

  /** The outcome line of an item whose intent insert failed. */
  function FailureLine(slug: string, error: DbError): ImportLine {
    if error.code == UniqueViolation then SkippedDuplicate(slug) else CreateFailed(slug, error.message)
  }

  /**
   * The lines an item adds to the log, given the error of its intent
   * insert: a skip without a slug; otherwise an optional warning about
   * missing answers followed by exactly one outcome.
   */
  function ItemLog(item: Json, user: Option<UserId>, insertError: Option<DbError>): (lines: seq<ImportLine>)
  {
    if item.Null? then [Crashed(Excerpt(item))]
    else if !Present(SlugRead(item)) then [SkippedNoSlug]
    else
      var warning := if NoAnswers(item) then [NoAnswersWarning(SlugRead(item).value)] else [];
      var creation := Creation(item, user);
      if creation.None? then warning + [Crashed(Excerpt(item))]
      else if insertError.Some? then warning + [FailureLine(creation.value.0, insertError.value)]
      else if QuestionBatch(item).None? then warning + [Crashed(Excerpt(item))]
      else warning + [Imported(creation.value.0)]
  }

  /** The error the intent insert of an item reports against the intents table `intents`. */
  function InsertError(intents: map<Id, Intent>, item: Json, user: Option<UserId>, fault: Option<DbError>): Option<DbError> {
    var creation := Creation(item, user);
    if creation.None? then None
    else IntentWriteError(intents, Text.Slugify(creation.value.0), None, fault)
  }

  /** The line that ends an item's `try` block, normally or through the `catch`. */
  predicate Outcome(line: ImportLine) {
    line.SkippedNoSlug? || line.SkippedDuplicate? || line.CreateFailed? || line.Imported? || line.Crashed?
  }

  /**
   * Every item logs one or two lines: exactly one outcome, last, preceded
   * at most by the warning about missing answers, which is only given to
   * an item with a slug.
   */
  lemma ItemLogShape(item: Json, user: Option<UserId>, insertError: Option<DbError>)
    ensures var lines := ItemLog(item, user, insertError);
      1 <= |lines| <= 2 && Outcome(lines[|lines| - 1])
      && (|lines| == 2 <==> !item.Null? && Present(SlugRead(item)) && NoAnswers(item))
      && (|lines| == 2 ==> lines[0] == NoAnswersWarning(SlugRead(item).value))
  {
  }

  /**
   * The store once a fresh intent `intentId` has its answer (if any) at
   * the next id and its questions at the ids after that.
   */
  function WithChildren(s: Snapshot, nextId: Id, intentId: Id, owner: UserId, answer: Option<string>, texts: seq<string>): Snapshot {
    var firstQuestion := nextId + if answer.Some? then 1 else 0;
    Snapshot(s.intents,
             s.questions + NumberedQuestions(firstQuestion, intentId, texts, owner),
             if answer.Some? then s.answers[nextId := Answer(intentId, answer.value, true, owner)] else s.answers,
             s.flags)
  }

  /**
   * The children of a freshly created intent: the answer, then the batch
   * of numbered questions, each with the next free ids.
   */
  method AddChildren(kb: KnowledgeBase, intentId: Id, owner: UserId, answer: Option<string>, texts: seq<string>)
    requires kb.Valid() && intentId in kb.intents
    requires forall id :: id in kb.questions ==> kb.questions[id].intentId != intentId
    modifies kb
    ensures kb.Valid()
    ensures kb.State() == WithChildren(old(kb.State()), old(kb.nextId), intentId, owner, answer, texts)
    ensures kb.nextId == old(kb.nextId) + (if answer.Some? then 1 else 0) + |texts|
  {
    if answer.Some? {
      var _ := kb.InsertAnswer(Answer(intentId, answer.value, true, owner));
    }
    AddQuestions(kb, intentId, owner, texts);
  }

  /** The question batch of a freshly created intent; an empty batch is not sent. */
  method AddQuestions(kb: KnowledgeBase, intentId: Id, owner: UserId, texts: seq<string>)
    requires kb.Valid() && intentId in kb.intents
    requires forall id :: id in kb.questions ==> kb.questions[id].intentId != intentId
    modifies kb
    ensures kb.Valid()
    ensures kb.questions == old(kb.questions) + NumberedQuestions(old(kb.nextId), intentId, texts, owner)
    ensures kb.intents == old(kb.intents) && kb.answers == old(kb.answers) && kb.flags == old(kb.flags)
    ensures kb.nextId == old(kb.nextId) + |texts|
  {
    if texts != [] {
      kb.InsertQuestionBatch(intentId, texts, owner);
    }
  }

  /**
   * The store once a draft intent has taken the id `intentId`, its answer
   * (if any) the next id, and its questions the ids after that.
   */
  function WithItem(s: Snapshot, intentId: Id, intent: Intent, answer: Option<string>, texts: seq<string>): Snapshot {
    WithChildren(s.(intents := s.intents[intentId := intent]), intentId + 1, intentId, intent.createdBy, answer, texts)
  }

  /** The ids an imported item takes: its intent's, its answer's (if any) and one per question. */
  function IdsTaken(answer: Option<string>, texts: seq<string>): nat {
    1 + (if answer.Some? then 1 else 0) + |texts|
  }

  /** The outcome of an item that reached its intent insert, given that insert's error. */
  function CreateOutcome(item: Json, slug: string, insertError: Option<DbError>): ImportLine
    requires !item.Null?
  {
    if insertError.Some? then FailureLine(slug, insertError.value)
    else if QuestionBatch(item).None? then Crashed(Excerpt(item))
    else Imported(slug)
  }

  /**
   * The writes of the loop body from the intent insert on: the intent,
   * then, only when it was created, its answer and its questions.
   */
  method CreateWithChildren(kb: KnowledgeBase, slug: string, owner: UserId, answer: Option<string>,
                            texts: seq<string>, fault: Option<DbError>)
    returns (error: Option<DbError>)
    requires kb.Valid()
    modifies kb
    ensures kb.Valid()
    ensures error == IntentWriteError(old(kb.intents), Text.Slugify(slug), None, fault)
    ensures error.Some? ==> kb.State() == old(kb.State()) && kb.nextId == old(kb.nextId)
    ensures error.None? ==> kb.State() == WithItem(old(kb.State()), old(kb.nextId), NewIntent(slug, owner), answer, texts)
    ensures error.None? ==> kb.nextId == old(kb.nextId) + IdsTaken(answer, texts)
  {
    assert NewIntent(slug, owner).slug == Text.Slugify(slug);
    var created := kb.InsertIntent(NewIntent(slug, owner), fault);
    if created.Err? {
      return Some(created.error);
    }
    error := None;
    ghost var mid := kb.State();
    assert mid == old(kb.State()).(intents := old(kb.intents)[created.value := NewIntent(slug, owner)]);
    ghost var next := kb.nextId;
    assert next == created.value + 1;
    AddChildren(kb, created.value, owner, answer, texts);
    assert kb.State() == WithChildren(mid, next, created.value, owner, answer, texts);
  }

  /**
   * The store and its next free id after the loop body has run on `item`:
   * an item that reaches its intent insert and meets no error adds the
   * draft intent with its answer and questions; every other item leaves
   * the store as it was.
   */
  function AfterItem(s: Snapshot, next: Id, item: Json, user: Option<UserId>, fault: Option<DbError>): (Snapshot, Id)
  {
    var creation := Creation(item, user);
    if creation.Some? && InsertError(s.intents, item, user, fault).None? then
      (WithItem(s, next, NewIntent(creation.value.0, creation.value.1), AnswerText(item), QuestionTexts(item)),
       next + IdsTaken(AnswerText(item), QuestionTexts(item)))
    else (s, next)
  }

  /**
   * One pass of the loop body over `item`, with `fault` the network fault
   * of its intent insert. Writes happen only after the slug checks; the
   * answer and the questions only after a successful intent insert; a
   * question list that is not a list throws after the answer is written.
   */
  method ImportItem(kb: KnowledgeBase, item: Json, user: Option<UserId>, fault: Option<DbError>)
    returns (lines: seq<ImportLine>)
    requires kb.Valid()
    modifies kb
    ensures kb.Valid()
    ensures lines == ItemLog(item, user, InsertError(old(kb.intents), item, user, fault))
    ensures kb.State() == AfterItem(old(kb.State()), old(kb.nextId), item, user, fault).0
    ensures kb.nextId == AfterItem(old(kb.State()), old(kb.nextId), item, user, fault).1
  {
    if item.Null? {
      return [Crashed(Excerpt(item))];
    }
    var slug := SlugRead(item);
    if !Present(slug) {
      return [SkippedNoSlug];
    }
    lines := if NoAnswers(item) then [NoAnswersWarning(slug.value)] else [];
    if !slug.value.Str? || user.None? {
      assert Creation(item, user).None?;
      return lines + [Crashed(Excerpt(item))];
    }
    assert Creation(item, user) == Some((slug.value.s, user.value));
    var outcome := CreateItem(kb, item, user, fault);
    return lines + [outcome];
  }

  /** The loop body of an item that reaches its intent insert, from that insert on. */
  method CreateItem(kb: KnowledgeBase, item: Json, user: Option<UserId>, fault: Option<DbError>)
    returns (outcome: ImportLine)
    requires kb.Valid() && Creation(item, user).Some?
    modifies kb
    ensures kb.Valid()
    ensures outcome == CreateOutcome(item, Creation(item, user).value.0, InsertError(old(kb.intents), item, user, fault))
    ensures kb.State() == AfterItem(old(kb.State()), old(kb.nextId), item, user, fault).0
    ensures kb.nextId == AfterItem(old(kb.State()), old(kb.nextId), item, user, fault).1
  {
    var (s, owner) := Creation(item, user).value;
    ghost var before, next := kb.State(), kb.nextId;
    var error := CreateWithChildren(kb, s, owner, AnswerText(item), QuestionTexts(item), fault);
    assert error == InsertError(before.intents, item, user, fault);
    outcome := CreateOutcome(item, s, error);
  }

  /**
   * What an imported item leaves in the store: its intent, at most one
   * answer (at the id after the intent's), and its questions with
   * positions 1, 2, ... in list order.
   */
  lemma ImportedItemRows(s: Snapshot, intentId: Id, intent: Intent, answer: Option<string>, texts: seq<string>)
    ensures var r := WithItem(s, intentId, intent, answer, texts);
      && r.intents.Keys == s.intents.Keys + {intentId} && r.intents[intentId] == intent
      && (forall id :: id in r.answers && id !in s.answers ==>
            id == intentId + 1 && r.answers[id].intentId == intentId && answer == Some(r.answers[id].answerText))
      && (forall id :: id in r.questions && id !in s.questions ==>
            r.questions[id].intentId == intentId && 1 <= r.questions[id].orderIndex <= |texts|
            && r.questions[id].text == texts[r.questions[id].orderIndex - 1])
      && (forall position :: 1 <= position <= |texts| ==> SlotTaken(r.questions, intentId, position))
  {
    var r := WithItem(s, intentId, intent, answer, texts);
    var firstQuestion := intentId + if answer.Some? then 2 else 1;
    var batch := NumberedQuestions(firstQuestion, intentId, texts, intent.createdBy);
    NumberedRows(firstQuestion, intentId, texts, intent.createdBy);
    assert r.questions == s.questions + batch;
    forall position | 1 <= position <= |texts|
      ensures SlotTaken(r.questions, intentId, position)
    {
      var id := firstQuestion + position - 1;
      assert id in batch;
      assert r.questions[id].orderIndex == position;
    }
  }

  // ---------------------------------------------------------------------
  // The import run
  // ---------------------------------------------------------------------

  /** What `for...of` walks: the elements of an array, the characters of a string; anything else throws. */
  function Iterated(parsed: Json): (items: Option<seq<Json>>)
    ensures items.Some? <==> parsed.Arr? || parsed.Str?
    ensures parsed.Arr? ==> items == Some(parsed.items)
    ensures parsed.Str? ==>
      items.Some? && |items.value| == |parsed.s|
      && forall k :: 0 <= k < |parsed.s| ==> items.value[k] == Str([parsed.s[k]])
  {
    match parsed
    case Arr(items) => Some(items)
    case Str(s) => Some(seq(|s|, k requires 0 <= k < |s| => Str([s[k]])))
    case _ => None
  }

  function Concat(reports: seq<seq<ImportLine>>): seq<ImportLine> {
    if reports == [] then [] else Concat(reports[..|reports| - 1]) + reports[|reports| - 1]
  }

  /**
   * The error of an item's intent insert: none for an item that never
   * gets there; otherwise the network fault, or, without one, a unique
   * violation exactly when the slug is already taken. The item's last
   * line then reports it, as a duplicate skip for a unique violation.
   */
  lemma InsertErrorFrom(intents: map<Id, Intent>, item: Json, user: Option<UserId>, fault: Option<DbError>)
    ensures var e := InsertError(intents, item, user, fault);
      var creation := Creation(item, user);
      && (creation.None? ==> e.None?)
      && (creation.Some? && fault.Some? ==> e == fault)
      && (creation.Some? && fault.None? ==> (e.Some? <==> SlugInUse(intents, Text.Slugify(creation.value.0), None)))
      && (creation.Some? && e.Some? ==>
            var lines := ItemLog(item, user, e);
            lines[|lines| - 1] == FailureLine(creation.value.0, e.value)
            && (fault.None? ==> lines[|lines| - 1] == SkippedDuplicate(creation.value.0)))
  {
  }

  /** `log` after the lines of every report were appended to it one report at a time. */
  function AppendAll(log: seq<ImportLine>, reports: seq<seq<ImportLine>>): seq<ImportLine> {
    if reports == [] then log else AppendAll(log, reports[..|reports| - 1]) + reports[|reports| - 1]
  }

  lemma AppendSnoc(log: seq<ImportLine>, reports: seq<seq<ImportLine>>, lines: seq<ImportLine>)
    ensures AppendAll(log, reports + [lines]) == AppendAll(log, reports) + lines
  {
    assert (reports + [lines])[..|reports|] == reports;
  }

  /** Appending report by report leaves the log followed by all the reports' lines in order. */
  lemma {:induction false} AppendAllConcat(log: seq<ImportLine>, reports: seq<seq<ImportLine>>)
    ensures AppendAll(log, reports) == log + Concat(reports)
  {
    if reports != [] {
      var n := |reports|;
      AppendAllConcat(log, reports[..n - 1]);
      assert AppendAll(log, reports) == (log + Concat(reports[..n - 1])) + reports[n - 1];
    }
  }

  /** The store and its next free id after the loop has run on every item of `items`, item k meeting `faults(k)`. */
  function AfterItems(s: Snapshot, next: Id, items: seq<Json>, user: Option<UserId>,
                      faults: nat -> Option<DbError>): (Snapshot, Id)
  {
    if items == [] then (s, next)
    else
      var n := |items| - 1;
      var before := AfterItems(s, next, items[..n], user, faults);
      AfterItem(before.0, before.1, items[n], user, faults(n))
  }

  /**
   * The lines each item logs, in item order: item k's `ItemLog` for the
   * error its insert meets against the intents the earlier items left.
   */
  function Reports(s: Snapshot, next: Id, items: seq<Json>, user: Option<UserId>,
                   faults: nat -> Option<DbError>): (reports: seq<seq<ImportLine>>)
    ensures |reports| == |items|
  {
    if items == [] then []
    else
      var n := |items| - 1;
      Reports(s, next, items[..n], user, faults)
        + [ItemLog(items[n], user, InsertError(AfterItems(s, next, items[..n], user, faults).0.intents, items[n], user, faults(n)))]
  }

  /**
   * Every item gets its own report, in order, whatever happened to the
   * items before it: item k logs `ItemLog` for the error its insert meets
   * in the store the first k items left.
   */
  lemma {:induction false} ReportsAt(s: Snapshot, next: Id, items: seq<Json>, user: Option<UserId>,
                                     faults: nat -> Option<DbError>, k: int)
    requires 0 <= k < |items|
    ensures Reports(s, next, items, user, faults)[k] ==
      ItemLog(items[k], user, InsertError(AfterItems(s, next, items[..k], user, faults).0.intents, items[k], user, faults(k)))
  {
    var n := |items| - 1;
    var earlier := Reports(s, next, items[..n], user, faults);
    assert Reports(s, next, items, user, faults) == earlier
      + [ItemLog(items[n], user, InsertError(AfterItems(s, next, items[..n], user, faults).0.intents, items[n], user, faults(n)))];
    if k < n {
      ReportsAt(s, next, items[..n], user, faults, k);
      assert items[..n][..k] == items[..k];
      assert items[..n][k] == items[k];
    }
  }

  /**
   * A run never changes or removes a row that was there before it, never
   * touches a flag, and only ever moves the next free id forward.
   */
  lemma {:induction false} AfterItemsKeeps(s: Snapshot, next: Id, items: seq<Json>, user: Option<UserId>,
                                           faults: nat -> Option<DbError>)
    requires forall id :: id in s.intents ==> id < next
    requires forall id :: id in s.questions ==> id < next
    requires forall id :: id in s.answers ==> id < next
    ensures var (r, after) := AfterItems(s, next, items, user, faults);
      && next <= after && r.flags == s.flags
      && (forall id :: id in s.intents ==> id in r.intents && r.intents[id] == s.intents[id])
      && (forall id :: id in s.questions ==> id in r.questions && r.questions[id] == s.questions[id])
      && (forall id :: id in s.answers ==> id in r.answers && r.answers[id] == s.answers[id])
      && (forall id :: id in r.intents ==> id < after)
      && (forall id :: id in r.questions ==> id < after)
      && (forall id :: id in r.answers ==> id < after)
  {
    if items != [] {
      var n := |items| - 1;
      AfterItemsKeeps(s, next, items[..n], user, faults);
      var (b, bn) := AfterItems(s, next, items[..n], user, faults);
      var creation := Creation(items[n], user);
      if creation.Some? && InsertError(b.intents, items[n], user, faults(n)).None? {
        AfterItemKeeps(b, bn, items[n], user, faults(n));
      }
    }
  }

  /** One item's writes: they take ids from `next` on, so no row already there is changed. */
  lemma AfterItemKeeps(s: Snapshot, next: Id, item: Json, user: Option<UserId>, fault: Option<DbError>)
    requires forall id :: id in s.intents ==> id < next
    requires forall id :: id in s.questions ==> id < next
    requires forall id :: id in s.answers ==> id < next
    ensures var (r, after) := AfterItem(s, next, item, user, fault);
      && next <= after && r.flags == s.flags
      && (forall id :: id in s.intents ==> id in r.intents && r.intents[id] == s.intents[id])
      && (forall id :: id in s.questions ==> id in r.questions && r.questions[id] == s.questions[id])
      && (forall id :: id in s.answers ==> id in r.answers && r.answers[id] == s.answers[id])
      && (forall id :: id in r.intents ==> id < after)
      && (forall id :: id in r.questions ==> id < after)
      && (forall id :: id in r.answers ==> id < after)
  {
    var creation := Creation(item, user);
    if creation.Some? && InsertError(s.intents, item, user, fault).None? {
      WithItemKeeps(s, next, NewIntent(creation.value.0, creation.value.1), AnswerText(item), QuestionTexts(item));
    }
  }

  /** `WithItem` adds rows at `next` and the ids after it only. */
  lemma WithItemKeeps(s: Snapshot, next: Id, intent: Intent, answer: Option<string>, texts: seq<string>)
    requires forall id :: id in s.intents ==> id < next
    requires forall id :: id in s.questions ==> id < next
    requires forall id :: id in s.answers ==> id < next
    ensures var r := WithItem(s, next, intent, answer, texts);
      var after := next + IdsTaken(answer, texts);
      && r.flags == s.flags
      && (forall id :: id in s.intents ==> id in r.intents && r.intents[id] == s.intents[id])
      && (forall id :: id in s.questions ==> id in r.questions && r.questions[id] == s.questions[id])
      && (forall id :: id in s.answers ==> id in r.answers && r.answers[id] == s.answers[id])
      && (forall id :: id in r.intents ==> id < after)
      && (forall id :: id in r.questions ==> id < after)
      && (forall id :: id in r.answers ==> id < after)
  {
    var firstQuestion := next + 1 + if answer.Some? then 1 else 0;
    var batch := NumberedQuestions(firstQuestion, next, texts, intent.createdBy);
    NumberedRows(firstQuestion, next, texts, intent.createdBy);
    var r := WithItem(s, next, intent, answer, texts);
    assert r.questions == s.questions + batch;
    assert r.intents == s.intents[next := intent];
    assert r.answers == if answer.Some? then s.answers[next + 1 := Answer(next, answer.value, true, intent.createdBy)] else s.answers;
  }

  /**
   * An item whose slug is already taken, with no network fault, is logged
   * as a duplicate skip and leaves the store exactly as it was.
   */
  lemma DuplicateSkipped(s: Snapshot, next: Id, item: Json, user: Option<UserId>)
    requires Creation(item, user).Some?
    requires SlugInUse(s.intents, Text.Slugify(Creation(item, user).value.0), None)
    ensures AfterItem(s, next, item, user, None) == (s, next)
    ensures var lines := ItemLog(item, user, InsertError(s.intents, item, user, None));
      lines[|lines| - 1] == SkippedDuplicate(Creation(item, user).value.0)
  {
  }

  /** One more item: the fold and the reports each grow by that item's step. */
  lemma RunStep(s: Snapshot, next: Id, items: seq<Json>, user: Option<UserId>, faults: nat -> Option<DbError>, k: int)
    requires 0 <= k < |items|
    ensures var (b, bn) := AfterItems(s, next, items[..k], user, faults);
      && AfterItems(s, next, items[..k + 1], user, faults) == AfterItem(b, bn, items[k], user, faults(k))
      && Reports(s, next, items[..k + 1], user, faults) ==
         Reports(s, next, items[..k], user, faults) + [ItemLog(items[k], user, InsertError(b.intents, items[k], user, faults(k)))]
  {
    assert items[..k + 1][..k] == items[..k];
  }

  class ImportPanel {
    /** `parsedData`: the record list of the last document that was accepted. */
    var parsed: Option<Json>
    var log: seq<ImportLine>
    /** The import button is disabled while a run is in progress. */
    var busy: bool
    /** The button reads "Import Complete". */
    var complete: bool

    constructor ()
      ensures parsed == None && log == [] && !busy && !complete
    {
      parsed, log, busy, complete := None, [], false, false;
    }

    /** A parsed document arrives: an accepted shape replaces the record list; a refused one changes nothing. */
    method Load(doc: Json) returns (r: Result<Json, FormatError>)
      modifies this
      ensures r == Normalise(doc)
      ensures r.Ok? ==> parsed == Some(r.value)
      ensures r.Err? ==> parsed == old(parsed)
      ensures log == old(log) && busy == old(busy) && complete == old(complete)
    {
      r := Normalise(doc);
      if r.Ok? {
        parsed := Some(r.value);
      }
    }

    /**
     * The import button. Without a record list nothing happens. A record
     * list that cannot be walked throws before the first item: the log
     * stays at its first line and the button stays disabled. Otherwise
     * every item is imported in order against the store the earlier items
     * left, each item's lines follow the previous item's, and "Done!"
     * closes the log.
     */
    method Run(kb: KnowledgeBase, user: Option<UserId>, faults: nat -> Option<DbError>)
      requires kb.Valid()
      modifies this, kb
      ensures kb.Valid()
      ensures parsed == old(parsed)
      ensures old(parsed).None? ==>
        log == old(log) && busy == old(busy) && complete == old(complete)
        && kb.State() == old(kb.State()) && kb.nextId == old(kb.nextId)
      ensures old(parsed).Some? && Iterated(old(parsed).value).None? ==>
        log == [Started] && busy && complete == old(complete)
        && kb.State() == old(kb.State()) && kb.nextId == old(kb.nextId)
      ensures old(parsed).Some? && Iterated(old(parsed).value).Some? ==>
        var items := Iterated(old(parsed).value).value;
        && log == [Started] + Concat(Reports(old(kb.State()), old(kb.nextId), items, user, faults)) + [Done]
        && kb.State() == AfterItems(old(kb.State()), old(kb.nextId), items, user, faults).0
        && kb.nextId == AfterItems(old(kb.State()), old(kb.nextId), items, user, faults).1
        && !busy && complete
    {
      if parsed.None? {
        return;
      }
      log, busy := [Started], true;
      var items := Iterated(parsed.value);
      if items.None? {
        return;
      }
      ImportItems(kb, items.value, user, faults);
      AppendAllConcat([Started], Reports(old(kb.State()), old(kb.nextId), items.value, user, faults));
      log, busy, complete := log + [Done], false, true;
    }

    /** The loop of a run: every item in order, each against the store the earlier items left. */
    method ImportItems(kb: KnowledgeBase, items: seq<Json>, user: Option<UserId>, faults: nat -> Option<DbError>)
      requires kb.Valid()
      modifies this, kb
      ensures kb.Valid()
      ensures parsed == old(parsed) && busy == old(busy) && complete == old(complete)
      ensures log == AppendAll(old(log), Reports(old(kb.State()), old(kb.nextId), items, user, faults))
      ensures kb.State() == AfterItems(old(kb.State()), old(kb.nextId), items, user, faults).0
      ensures kb.nextId == AfterItems(old(kb.State()), old(kb.nextId), items, user, faults).1
    {
      ghost var s0, n0 := kb.State(), kb.nextId;
      var k := 0;
      while k < |items|
        invariant 0 <= k <= |items| && kb.Valid()
        invariant parsed == old(parsed) && busy == old(busy) && complete == old(complete)
        invariant log == AppendAll(old(log), Reports(s0, n0, items[..k], user, faults))
        invariant kb.State() == AfterItems(s0, n0, items[..k], user, faults).0
        invariant kb.nextId == AfterItems(s0, n0, items[..k], user, faults).1
      {
        ghost var reports := Reports(s0, n0, items[..k], user, faults);
        var lines := ImportItem(kb, items[k], user, faults(k));
        RunStep(s0, n0, items, user, faults, k);
        AppendSnoc(old(log), reports, lines);
        log := log + lines;
        k := k + 1;
      }
      assert items[..k] == items;
    }
  }
}
