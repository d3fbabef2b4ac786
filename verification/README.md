# Chatbot knowledge-base admin dashboard: a Dafny model of its core

The dashboard is a browser front end for a chatbot knowledge base kept in a
hosted relational store. An *intent* is a chatbot topic with a name, a
unique slug, a status (`draft` or `published`) and its rows. Each intent has
up to nine *questions*, at positions (`order_index`) 1..9, and one active
*answer*. This model covers three screens of the dashboard.

- **The intent list and editor** (`js/intents.js`)
  - the status badge of a row;
  - the bulk-selection set, and deleting and publishing the selection;
  - the log of a publish job;
  - the editor, which loads an intent into its nine question inputs and
    saves the form back as a draft. Saving writes the intent, then the
    answer, then each of the nine positions.
- **The JSON import panel** (`js/import.js`)
  - normalising an uploaded document to a list of records;
  - reading each record's slug, questions and answers through their
    aliases;
  - importing the records one by one as draft intents with their children.
- **The duplicate review tab** (`js/duplicates.js`)
  - listing the unresolved duplicate flags;
  - resolving a flag, which hard-deletes the flagged question when the
    resolution is `deleted`;
  - the "Scan Now" job and its log.

## Layout of the model

- **`store.dfy`** (module `Store`)
  - The store is the class `KnowledgeBase`. It holds four tables: intents,
    questions, answers and duplicate flags. Each table is a `map` from row
    id to row, and a counter hands out fresh ids.
  - Every write the dashboard issues is one method. A write whose error
    the page checks takes a `fault` parameter: the network or server error
    that the write meets, if any.
  - The store's own invariant is `Valid()`:
    - ids stay below the counter;
    - slugs are unique (a unique constraint of the store);
    - no two questions of an intent share a position.
  - Deleting an intent cascades to its questions and answers.
- **`text.dfy`** (module `Text`): the string operations.
  - The slug rule `toLowerCase().replace(/\s+/g, '_')`.
  - `trim()`.
  - `replace(/_/g, ' ')`.
  - All three work over the ASCII alphabet and the six ASCII whitespace
    characters of `\s`.
- **`json.dfy`** (module `JsonValues`): a parsed JSON value.
  - JavaScript truthiness.
  - Reading a property, with `TypeError` on `null`.
  - The JSON text of a value.
- **`log_panel.dfy`** (module `LogPanel`)
  - The log modal that the publish job and the scan share, as a class. It
    is shown, its close button is hidden or shown, and it holds a sequence
    of lines.
  - The reply of a remote endpoint.
- **`intents.dfy`, `importer.dfy`, `duplicates.dfy`**: the three screens.
  - Each handler that changes state step by step is a method that changes
    the store or the page objects.
  - Each method is proved against a specification function. Lemmas state
    what those functions promise.

Network faults, the signed-in user, the user's confirmations and the
replies of the remote services are parameters of the methods.

Three properties of the code shape the model:

- The scan never looks at the HTTP status of a reply whose body parses. A
  `{"success": true}` body with status 500 is logged as a completed scan.
- No store constraint makes `order_index` unique per intent or keeps it
  within 1..9. Uniqueness is kept by the client: it is an invariant that
  the client's writes preserve. The editor's loader handles a position of
  0 and positions above 9.
- On import, an item's answer and questions are written only after its
  intent insert succeeds. An item whose insert fails, a slug conflict
  included, leaves the store unchanged.

## Model

| member | source | states |
|---|---|---|
| Text.Slugify | js/intents.js:335 | A slug has no whitespace and no upper-case letter, and is never longer than the name it comes from |
| Text.SlugifyIdempotent | js/intents.js:335 | Deriving a slug from a slug returns the same slug |
| Text.SlugifyRun | js/import.js:97 | A whole run of whitespace between two non-blank parts becomes exactly one `_`, and the parts on either side are slugged independently |
| Text.SlugifyKeeps | js/intents.js:335 | A non-whitespace character is kept in place, only lower-cased |
| Text.ToLower | js/intents.js:335 | Lower-casing keeps the length, maps every character through `Lower` and leaves no upper-case letter |
| Text.CollapseSpaces | js/intents.js:335 | Replacing whitespace runs by `_` leaves no whitespace, adds no upper case and never lengthens the string |
| Text.Trim | js/intents.js:372 | The trimmed value is a slice of the input, with only whitespace cut on both sides, and it neither starts nor ends with whitespace |
| Text.TrimEmptyIffBlank | js/intents.js:353 | A trimmed value is empty exactly when the input is all whitespace; this is the test of `answerText.trim()` and of each question input |
| Text.TrimIdempotent | js/intents.js:372 | Trimming a trimmed value changes nothing |
| Text.UnderscoresToSpaces | js/import.js:96 | The display name of an imported tag has the same length: every `_` becomes a space and every other character is unchanged |
| JsonValues.Lookup | js/import.js:39 | A key is bound exactly when some field carries it, and the value read is one that a field with that key binds (the last one, as `JSON.parse` keeps) |
| JsonValues.LookupAppend | js/import.js:43 | Fields spread after others override them: a key bound later wins, otherwise the earlier binding is read |
| JsonValues.Prop | js/import.js:74 | Reading a property throws exactly on `null`; on an object it finds the field's value or `undefined` |
| JsonValues.Truthy | js/import.js:74 | JavaScript truthiness: `null`, `false`, 0 and "" are falsy, every array and object is truthy |
| JsonValues.Serialize | js/import.js:137 | `JSON.stringify` without escaping; `Excerpt` states the bound used on it |
| JsonValues.NatText | js/import.js:43 | The key of an array index is a non-empty string of decimal digits |
| JsonValues.ElementText | js/import.js:115 | A string list element is stored as that very string |
| Store.IntentWriteError | js/intents.js:332-349 | An intent insert or slug update fails with the network fault if there is one; otherwise it fails, with code 23505, exactly when another intent already has the slug |
| Store.CascadeDelete | js/intents.js:150 | Deleting intents removes exactly those intents and exactly the questions and answers that belong to them; every other row and every flag is kept unchanged |
| Store.NumberedRows | js/import.js:122-131 | A question batch takes consecutive ids, and the k-th text becomes an active question at position k + 1 |
| Store.KnowledgeBase.InsertIntent | js/intents.js:333-341 | The insert fails as `IntentWriteError` says and then writes nothing; otherwise the row gets a fresh id with no questions, and no other table changes |
| Store.KnowledgeBase.UpdateIntent | js/intents.js:343-348 | The update writes name, slug and status unless the slug is taken by another intent or a fault occurs; an id with no row is no error and changes nothing |
| Store.KnowledgeBase.DeleteIntents | js/intents.js:150 | A delete by id list fails as a whole on a fault; otherwise the store becomes `CascadeDelete` of the ids |
| Store.KnowledgeBase.InsertAnswer | js/intents.js:357-362 | An answer row is added under a fresh id when its intent exists; otherwise the store rejects it and nothing changes |
| Store.KnowledgeBase.UpdateAnswerText | js/intents.js:355 | Only the text of that one answer changes |
| Store.KnowledgeBase.InsertQuestion | js/intents.js:379-385 | A question is added at a free position of an existing intent under a fresh id; otherwise nothing changes |
| Store.KnowledgeBase.InsertQuestionBatch | js/import.js:130-131 | One batch insert adds exactly the numbered rows of the texts, and nothing else |
| Store.KnowledgeBase.UpdateQuestionText | js/intents.js:377 | Only the text of that one question changes |
| Store.KnowledgeBase.DeleteQuestion | js/intents.js:389 | Exactly that question row is removed; no other table changes |
| Store.KnowledgeBase.UpdateFlagResolution | js/duplicates.js:70 | On a fault nothing changes; otherwise only the resolution of that one flag changes |
| LogPanel.LogModal.Open | js/intents.js:185-187 | The modal is shown, the close button is hidden, and the log is reset to the job's first line |
| LogPanel.LogModal.Log | js/intents.js:197-203 | A line is appended after all earlier lines, and visibility is unchanged |
| LogPanel.LogModal.Finish | js/intents.js:240-243 | The close button comes back, and the lines are untouched |
| Intents.StatusBadge | js/intents.js:57-69 | A row reads Published iff its status is published; a draft is Ready iff it has exactly 9 questions and 1 answer (a missing count counts as 0), and Incomplete with its question count otherwise |
| Intents.EstimatedSeconds | js/intents.js:190 | The estimate is the least whole number of seconds at least 1.5 × the count |
| Intents.DetailLine | js/intents.js:227-230 | A detail entry throws exactly when it is `null`; otherwise it is an error line exactly when its status is the string "failed" |
| Intents.LogDetails | js/intents.js:227-230 | The `forEach` appends exactly the lines of `DetailLines` and reports whether it ran to the end |
| Intents.DetailLinesExact | js/intents.js:227-230 | The `forEach` runs to the end iff no entry is `null`. It logs one line per entry, in order, up to the first `null` entry, and the k-th line is the k-th entry's own line |
| Intents.DetailLinesStuck | js/intents.js:227-230 | Once an entry has thrown, no later entry logs anything |
| Intents.PerformBulkPublish | js/intents.js:179-244 | The modal ends shown with its close button back. Its lines and the refresh decision are exactly `PublishLog` of the count and the reply |
| Intents.LogPublishReply | js/intents.js:217-239 | An unreachable server or a body that does not parse gives one connection-error line (with the HTTP status for the second) and no refresh; a parsed body is handled by `LogPublishData` |
| Intents.LogPublishData | js/intents.js:224-236 | A parsed body appends exactly the lines of `DataLines` and refreshes exactly when it says |
| Intents.PublishLogHeader | js/intents.js:185-206 | Every publish log opens with the start line, the estimate for the count and "Sending count", and has at least one line after them |
| Intents.PublishLog | js/intents.js:185-239 | The whole publish log and the refresh decision; `PublishLogHeader` and `PublishRefreshes` state them |
| Intents.DataLines | js/intents.js:224-236 | The lines of a parsed body; `PublishRefreshes` and `ZeroSuccessIsFailure` state them |
| Intents.DetailLines | js/intents.js:227-230 | The lines of the `details` entries; `DetailLinesExact` and `DetailLinesStuck` state them |
| Intents.PublishRefreshes | js/intents.js:224-236 | The list and counters refresh iff the reply parsed, `success` is truthy, and `details` is falsy or an array with no `null` entry |
| Intents.ZeroSuccessIsFailure | js/intents.js:224 | A reply with `success: 0` is logged as "Job Failed" and refreshes nothing, since 0 is falsy |
| Intents.Toggled | js/intents.js:107-109 | Toggling flips the membership of that id and keeps every other id's membership |
| Intents.ToggleTwice | js/intents.js:107-109 | Toggling the same id twice restores the selection |
| Intents.DraftIds | js/intents.js:163 | The ids read are exactly those of draft intents |
| Intents.IntentList.ShowRows | js/intents.js:44-45 | A successful listing replaces the rows and clears the selection |
| Intents.IntentList.ToggleSelection | js/intents.js:107-111 | The selection becomes `Toggled` of the id; the rows are unchanged |
| Intents.IntentList.ToggleSelectAll | js/intents.js:113-121 | Checking adds exactly the listed ids and unchecking removes exactly the listed ids; ids that are not listed keep their state |
| Intents.IntentList.DeleteSelected | js/intents.js:142-158 | An empty selection or a refusal writes nothing. A fault fails the whole delete and writes nothing. Otherwise exactly the selected intents are deleted, with their questions and answers |
| Intents.IntentList.PublishSelected | js/intents.js:136-140 | Without a selection or a confirmation nothing is sent and the modal is untouched; otherwise the job runs over `size` intents |
| Intents.DeleteIntent | js/intents.js:92-104 | A refusal writes nothing and a fault leaves the store as it was; otherwise exactly that intent goes, with its questions and answers |
| Intents.PublishAllDrafts | js/intents.js:160-168 | A refusal, a failed read or no drafts sends nothing and leaves the modal untouched; otherwise the job runs over exactly the number of drafts |
| Intents.FilledOrdered | js/intents.js:301-308 | For rows in increasing position order, input i shows the row at position i. With none there, it shows the i-th row when that row has position 0, and is empty otherwise |
| Intents.FillInputs | js/intents.js:301-308 | The loop fills exactly `Filled` of the rows, and for ordered rows each row at a position 1..9 shows in that input |
| Intents.FilledFromStore | js/intents.js:287-308 | For the reply of the questions query, each question of the intent at a position 1..9 shows in that input. An input whose position no question holds shows the list's row at that place if it has position 0, and is empty otherwise |
| Intents.AnswerFromStore | js/intents.js:288-297 | For the reply of the answers query, the answer shown is the text of an active answer of the intent when it has one, and "" otherwise |
| Intents.Filled | js/intents.js:301-308 | The nine inputs after the rows are written in order. `FilledOrdered` states what each input shows |
| Intents.InputIndex | js/intents.js:303 | `order_index \|\| (idx + 1)`: a row's own position, or its place in the list when that is 0 |
| Intents.TrimmedInputs | js/intents.js:372 | The save reads each of the nine inputs trimmed |
| Intents.SlotRow | js/intents.js:367-373 | The position-to-id table finds a row of the intent at that position exactly when one exists |
| Intents.FreeSlotStaysFree | js/intents.js:371-391 | A position that had no row before the loop still has none when the loop reaches it |
| Intents.StepUpdate | js/intents.js:375-377 | A position that had a row and gets a non-empty value updates that row's text, and the loop invariant extends to this position |
| Intents.StepDelete | js/intents.js:387-389 | A position that had a row and gets an empty value deletes that row, and the loop invariant extends to this position |
| Intents.StepDeleteOld | js/intents.js:387-389 | After the delete, every row that existed before the loop is reconciled up to this position |
| Intents.StepDeleteNew | js/intents.js:387-389 | After the delete, every row inserted by the loop is still reconciled |
| Intents.StepInsert | js/intents.js:378-385 | A free position with a non-empty value gets exactly one new row, and the loop invariant extends to this position |
| Intents.StepRejected | js/intents.js:378-385 | An insert for an intent that no longer exists adds nothing, and the invariant still extends |
| Intents.ReconcileSlots | js/intents.js:366-391 | After the nine steps, rows at positions 1..9 hold their trimmed inputs. Emptied positions lose their rows, and filled free positions of an existing intent gain one. Rows elsewhere, answers and intents are untouched |
| Intents.SlotsSettled | js/intents.js:371-391 | For an existing intent, position i holds a row iff its trimmed input is non-empty, and each row holds its position's input. Rows of other intents or positions stay and none appear |
| Intents.ShowSettled | js/intents.js:301-308 | Loading an intent whose positions hold exactly the given values, in position order, fills the nine inputs with exactly those values |
| Intents.ShowSettledAt | js/intents.js:301-308 | Input i alone shows the value saved at position i + 1 |
| Intents.ReopenShowsSaved | js/intents.js:281-313 | Reopening a saved intent shows the trimmed inputs that were saved, when its rows arrive in position order and none had position 0 |
| Intents.SaveAnswer | js/intents.js:351-364 | A blank answer writes nothing. Otherwise some existing answer of the intent gets the text, or, if there is none, one answer is inserted (rejected when the intent is gone). No other table changes |
| Intents.AnswerSaved | js/intents.js:351-364 | A blank answer changes nothing. An existing answer gets the text. Otherwise one answer is inserted when the intent exists. `SaveAnswer` ensures this |
| Intents.IntentStepError | js/intents.js:332-349 | The intent step fails with the fault, or else exactly when the slug is used by a different intent. Updating an id that no longer exists never fails |
| Intents.IntentStepResult | js/intents.js:332-349 | A new form inserts a draft with the name, its slug and the user under the next id. A bound form keeps the set of intent ids and rewrites that one intent as a draft |
| Intents.WriteIntent | js/intents.js:332-349 | A failed intent step changes nothing. Otherwise the intents table becomes `IntentStepResult` and the call returns the id the form is bound to, with questions, answers and flags unchanged |
| Intents.Editor.OpenEditor | js/intents.js:266-274 | The form is shown empty, bound to no intent, with no status |
| Intents.Editor.CloseEditor | js/intents.js:276-279 | Only visibility changes; the form keeps its contents and binding |
| Intents.Editor.ClearQuestion | js/intents.js:262-264 | Only input i is emptied |
| Intents.Editor.EditIntent | js/intents.js:281-313 | The form is bound to the id in every case, and a missing intent leaves the fields alone. For an existing intent the form shows its name. Each of its questions at a position 1..9 shows in that input. An input whose position no question holds is empty, unless the row at that place in the list has position 0. The answer is an active answer's text when the intent has one, and "" otherwise |
| Intents.Editor.SaveDraft | js/intents.js:315-404 | No user means nothing happens; an empty name or answer writes nothing and shows the "required" error; a failed intent step writes nothing and shows the store's message. Otherwise the form is bound to the intent, which is a draft with the name's slug, the answer is saved, the nine positions are reconciled, flags are untouched and the status reads "Draft Saved" |
| Intents.Editor.PublishIntent | js/intents.js:170-177 | The job is sent iff, after the save, the form is bound to an intent and the user confirms. A form bound before the save is sent even when the save fails. A sent job runs over one intent and closes the editor, and otherwise the modal is untouched |
| Importer.OwnFields | js/import.js:43 | Spreading copies an object's fields. An array gives field `k` for element k and a string gives field `k` for its k-th character, in order. `null`, numbers and booleans give nothing |
| Importer.KeyedRecordReads | js/import.js:43 | A keyed record reads a name from the value's own fields first; `tag` falls back to the key and any other name is `undefined` |
| Importer.KeyedRecords | js/import.js:43 | A keyed document gives one record per key, in key order |
| Importer.KeyedRecord | js/import.js:43 | `{ tag: k, ...json[k] }`; `KeyedRecordReads` states what it reads |
| Importer.Normalise | js/import.js:41-48 | An array is the record list. An object with truthy `intents` stands for that value, and any other object is keyed by tag. `null` throws, and strings, numbers and booleans are an unknown format |
| Importer.KeyedDocumentTags | js/import.js:43 | In a keyed document, record k is the key as `tag` followed by the value's own fields. Its `tag` is the key unless the value has an own `tag` field of any value, falsy ones included, which then wins |
| Importer.FirstTruthy | js/import.js:74-81 | An `a \|\| b \|\| c` chain yields the first truthy read, or the last read when none is truthy |
| Importer.FirstTruthyPicks | js/import.js:74-81 | When candidate k is truthy and none before it is, the chain yields candidate k |
| Importer.AsList | js/import.js:78 | A string becomes a one-element list; any other value is kept |
| Importer.QuestionsAliasing | js/import.js:77-78 | The question list is never a string. It is `[]` when `patterns`, `text` and `questions` are all falsy. Otherwise it is the first truthy alias, in that order, with a string made a one-element list |
| Importer.ResponsesAliasing | js/import.js:81-82 | The response list is never a string. It is `[]` when `responses`, `answers`, `response` and `answer` are all falsy. Otherwise it is the first truthy alias, in that order, with a string made a one-element list |
| Importer.SlugRead | js/import.js:74 | The slug read is `tag \|\| intent \|\| name`, throwing on `null`; `FirstTruthy` states its result |
| Importer.QuestionsValue | js/import.js:77-78 | The questions read through their aliases; `QuestionsAliasing` states its result |
| Importer.ResponsesValue | js/import.js:81-82 | The responses read through their aliases; `ResponsesAliasing` states its result |
| Importer.Excerpt | js/import.js:137 | The crash line shows at most 20 characters |
| Importer.Creation | js/import.js:74-99 | An item reaches the intent insert only when it is not `null`, has a truthy slug that is a string, and a user is signed in |
| Importer.NewIntent | js/import.js:95-100 | The created intent is a draft owned by the user. Its name is the tag with `_` turned to spaces, and its slug is the tag's slug |
| Importer.AnswerText | js/import.js:112-119 | An answer is written iff the responses are a non-empty list, and it is the first response. An item warned about having no answers writes none |
| Importer.QuestionBatch | js/import.js:122 | The batch exists iff the questions are a list, and it is at most its first nine elements, in order |
| Importer.BatchTexts | js/import.js:122-131 | The store accepts the batch iff no element is `null`, and then stores each element's text in order |
| Importer.QuestionTexts | js/import.js:121-132 | An item writes at most nine question texts. Whenever its batch exists and has no `null` element, it writes exactly that batch's texts in order. Any texts it writes come from such a batch |
| Importer.ItemLogShape | js/import.js:84-139 | Every item logs one or two lines. It ends with exactly one outcome (skip, duplicate, error, imported or crash), preceded at most by the no-answers warning, which only an item with a slug gets | |
| Importer.ItemLog | js/import.js:72-139 | The lines of one item for a given insert error; `ItemLogShape` and `InsertErrorFrom` state their shape |
| Importer.FailureLine | js/import.js:102-108 | A failed insert is a duplicate skip for code 23505 and an error line with the store's message otherwise; `InsertErrorFrom` states when each occurs |
| Importer.AddChildren | js/import.js:111-132 | The children of a fresh intent are its answer (if any) under the next id and then its numbered questions |
| Importer.AddQuestions | js/import.js:130-131 | An empty batch writes nothing; otherwise exactly the numbered rows are added |
| Importer.CreateWithChildren | js/import.js:93-132 | A failed intent insert writes nothing at all. A successful one leaves exactly the draft intent with its answer and questions |
| Importer.ImportItem | js/import.js:72-139 | The lines are `ItemLog` for the error its insert meets against the store's intents. The store and the next id become `AfterItem` of the old ones |
| Importer.CreateItem | js/import.js:93-134 | From the intent insert on, the outcome line is `CreateOutcome` for the insert error against the store's intents, and the store and the next id become `AfterItem` of the old ones |
| Importer.AfterItem | js/import.js:93-134 | An item that reaches its insert without an error adds its draft intent, answer and questions and takes `IdsTaken` ids. Every other item leaves the store and the next id alone |
| Importer.WithItemKeeps | js/import.js:93-132 | An imported item's rows take the ids from the next free id on, so every row and flag already there is kept and all ids stay below the new next id |
| Importer.AfterItemKeeps | js/import.js:72-139 | One loop body never changes or removes an existing row or flag, and moves the next free id forward only |
| Importer.DuplicateSkipped | js/import.js:102-108 | An item whose slug is taken, with no network fault, is logged as a skipped duplicate and leaves the store exactly as it was |
| Importer.ImportedItemRows | js/import.js:93-132 | An imported item adds its intent, at most one answer (its first response) and questions at positions 1..k in list order, each holding the text at that position |
| Importer.Iterated | js/import.js:71 | The loop walks the elements of an array, or the characters of a string one by one; any other value throws |
| Importer.InsertErrorFrom | js/import.js:95-109 | An item that never reaches the insert has no insert error. With a fault, the error is the fault. Without one, there is an error exactly when the slug is taken. The item's last line reports the error, as a duplicate skip when there is no fault |
| Importer.AppendAllConcat | js/import.js:71-140 | Appending each item's report in turn leaves the log followed by all reports in item order |
| Importer.AfterItems | js/import.js:71-140 | The store and the next id after the loop has run on every item in order, each item against the store the earlier items left |
| Importer.Reports | js/import.js:71-140 | There is one report per item, in item order |
| Importer.ReportsAt | js/import.js:71-140 | Item k's report is its `ItemLog` for the insert error it meets in the store the first k items left |
| Importer.RunStep | js/import.js:71-140 | One more item extends the fold by that item's `AfterItem` and the reports by that item's `ItemLog` |
| Importer.AfterItemsKeeps | js/import.js:71-140 | A run never changes or removes a row or flag that was there before it, and only moves the next free id forward |
| Importer.ImportPanel.Load | js/import.js:37-54 | An accepted shape replaces the record list; a refused one keeps the previous one; the log and the button are untouched |
| Importer.ImportPanel.Run | js/import.js:60-146 | Without a record list nothing happens. A list that cannot be walked leaves only the start line, the button disabled and the store unchanged. Otherwise the log is the start line, every item's report in order and "Done!". The store and the next id are `AfterItems` of the old ones, and the button is enabled and reads "Import Complete" |
| Importer.ImportPanel.ImportItems | js/import.js:71-140 | The log gains `Reports` of the items in order, and the store and the next id become `AfterItems` of the old ones |
| Duplicates.OpenFlags | js/duplicates.js:15 | The listing selects exactly the unresolved flags, as stored |
| Duplicates.ShowListing | js/duplicates.js:6-26 | A failed query shows the error. An empty result shows "no duplicates". Otherwise exactly the unresolved flags are shown |
| Duplicates.ResolveFlag | js/duplicates.js:66-85 | The store becomes `ResolveEffect`, and the lists are refreshed exactly when the flag update did not fail |
| Duplicates.ResolveEffect | js/duplicates.js:66-80 | The store after a resolution; `ResolveTouchesOneFlag`, `ResolveDeletesOnlySource` and `ResolveTwice` state it |
| Duplicates.ResolveTouchesOneFlag | js/duplicates.js:70-71 | Only that flag's resolution changes; intents, answers and other flags stay. A failed update changes nothing at all |
| Duplicates.ResolveDeletesOnlySource | js/duplicates.js:73-80 | Only `deleted`, with a successful re-read, removes a question: exactly the source question. The matched question and all other rows stay |
| Duplicates.ResolveTwice | js/duplicates.js:66-80 | Resolving again with the same resolution after a complete resolution changes nothing |
| Duplicates.ResolvedLeavesListing | js/duplicates.js:15 | A completed resolution takes exactly that flag off the listing |
| Duplicates.ScanOutcomes | js/duplicates.js:115-140 | Every scan log opens with the same two lines. A truthy `success` logs four more, the last being the warning iff `flagsCreated > 0`, and refreshes. Every other outcome logs exactly one failure line and refreshes nothing. A refused request logs its message, and a body that does not parse logs the parser's message, with no status |
| Duplicates.ScanLog | js/duplicates.js:113-140 | The whole scan log and the refresh decision; `ScanOutcomes` states it |
| Duplicates.ScanDataLines | js/duplicates.js:122-137 | The lines of a parsed body; `ScanOutcomes` and `ScanFailureReason` state them |
| Duplicates.Positive | js/duplicates.js:127 | `flagsCreated > 0`; the limits are listed under Left out |
| Duplicates.ScanFailureReason | js/duplicates.js:136 | A failed scan shows its `details`, or "Unknown error" when they are falsy |
| Duplicates.ScanNow | js/duplicates.js:87-145 | The lines and the refresh are exactly `ScanLog` of the reply. In every outcome the close button is back and both buttons that exist read "Scan Now" and are enabled again |
| Duplicates.LogReply | js/duplicates.js:115-140 | An unreachable service logs its message, and an unparsable body logs the parser's message with no status. Both give one connection error and no refresh. A parsed body is handled by `LogData` |
| Duplicates.LogData | js/duplicates.js:122-137 | A parsed body appends exactly the lines of `ScanDataLines` and refreshes exactly when it says |
| Duplicates.SetButtons | js/duplicates.js:108-111 | Every button that exists takes the same caption and disabled state |
| Duplicates.ScanButton.Set | js/duplicates.js:109 | The button takes that caption and disabled state |

## Left out

- Listing intents is not modelled: the query, search, ordering and table
  markup of `fetchIntents`. Only its effect on the rows and the selection
  is, as `ShowRows`. The badge is modelled from the embedded counts.
- `updateBulkToolbar`, `generateQuestionInputs`, `fetchStats` and the
  dashboard counters are not modelled. They are display only. The refreshes
  they trigger are modelled as booleans.
- The request bodies and endpoints of the publish and scan calls are not
  modelled, nor what the remote services do. Their replies are parameters.
- `FileReader`, MIME checks and `JSON.parse` are not modelled: the import
  panel receives the parsed value. The preview text is not modelled either.
- JSON numbers are integers. Floating point is not modelled.
- Object keys keep their document order. The model does not move
  integer-like keys to the front, as `Object.keys` does, and a key bound
  twice yields one record per binding.
- Log lines are values. Time stamps, colours, emoji and HTML markup are not
  modelled, and the similarity of a flag is not shown.
- Requests are not interleaved: each handler runs to completion against the
  store before the next one starts.
- Store reads never fail. A write whose error the page ignores (answers,
  questions, a question delete) cannot fail with a fault.
- The store rejects an answer or question whose text is `null` (a not-null
  column). This is a modelling assumption about the schema.
- A deleted question's flags are not deleted; the flag table is not tied to
  the question table.
- A missing page element (a handler that returns early because a container
  is absent) is not modelled, apart from the two optional scan buttons.
- `js/auth.js`, `js/dashboard.js` and `js/supabaseClient.js` are not part of
  this model.
- Importer.NoAnswers: `responses.length === 0` on an object with its own
  `length` field is not modelled. Such a value counts as having no length.
- Importer.Excerpt: states only the 20-character bound. The text comes from
  `JsonValues.Serialize`, which does not escape quotes or control characters
  inside strings.
- JsonValues.ElementText: states only the string case. Other values are
  stored as their unescaped JSON text, as above.
- Duplicates.Positive: models `flagsCreated > 0` for numbers, booleans and
  strings of decimal digits around whitespace. Other strings and
  one-element arrays that JavaScript converts to a positive number count as
  not positive.
- Duplicates.ScanNow: the intermediate state, with the buttons disabled
  and reading "Scanning..." while the request runs, is set but not stated
  in the contract, which speaks only of the final state.
- Intents.Filled: states only that there are nine inputs. What each input
  shows is stated by `FilledOrdered` for rows in strictly increasing
  position order, which is the order the query asks for.
- Text.Slugify, Text.Trim: the model uses ASCII only. The six ASCII
  whitespace characters are `\s`, and `A`..`Z` are the upper-case letters.
  JavaScript also counts non-ASCII spaces such as U+00A0 as `\s` and
  lower-cases non-ASCII capitals, so such names slug and trim differently.
- The parser's message for a scan reply that does not parse is not
  modelled: its wording is the engine's.
- Intents.Editor.PublishIntent: states the publish outcome and the binding,
  not the save's writes, which `SaveDraft` states.
