/**
 * The duplicate review tab: the list of open duplicate flags, resolving a
 * flag (and, for `deleted`, removing the draft question it points at), and
 * the "Scan Now" job that asks the analysis service for new flags.
 */
module Duplicates {
  import opened Common
  import opened JsonValues
  import opened Store
  import opened LogPanel
  import Text

  // ---------------------------------------------------------------------
  // Listing
  // ---------------------------------------------------------------------

  /** The rows the listing query selects: the flags still `unresolved`. */
  function OpenFlags(flags: map<Id, Flag>): (listed: map<Id, Flag>)
    ensures forall id :: id in listed <==> id in flags && flags[id].resolution == Unresolved
    ensures forall id :: id in listed ==> listed[id] == flags[id]
  {
    map id | id in flags && flags[id].resolution == Unresolved :: flags[id]
  }

  /** What the listing container shows. */
  datatype Listing = LoadError | NoDuplicates | Cards(flags: map<Id, Flag>)

  /** The listing for the flags table, or for the error the query met. */
  function ShowListing(flags: map<Id, Flag>, fault: Option<DbError>): (l: Listing)
    ensures fault.Some? <==> l == LoadError
    ensures l == NoDuplicates <==> fault.None? && OpenFlags(flags) == map[]
    ensures l.Cards? ==> l.flags == OpenFlags(flags) && l.flags != map[]
  {
    if fault.Some? then LoadError
    else
      var listed := OpenFlags(flags);
      if listed == map[] then NoDuplicates else Cards(listed)
  }

  // ---------------------------------------------------------------------
  // Resolving a flag
  // ---------------------------------------------------------------------

  /**
   * The store after resolving flag `id`: with `fault` the flag update
   * fails and nothing changes; otherwise the flag (if any) takes the new
   * resolution, and for `Deleted` the flag is read again and, unless that
   * read comes back empty (`rereadFails`), its source question is deleted.
   */
  function ResolveEffect(s: Snapshot, id: Id, resolution: Resolution, fault: Option<DbError>, rereadFails: bool): Snapshot {
    if fault.Some? || id !in s.flags then s
    else
      var flag := s.flags[id];
      var questions := if resolution == Deleted && !rereadFails then s.questions - {flag.sourceQuestionId} else s.questions;
      Snapshot(s.intents, questions, s.answers, s.flags[id := flag.(resolution := resolution)])
  }

  /**
   * The two writes of a resolution, one after the other and not in one
   * transaction. The lists are refreshed unless the first write failed.
   */
  method ResolveFlag(kb: KnowledgeBase, id: Id, resolution: Resolution, fault: Option<DbError>, rereadFails: bool)
    returns (refreshed: bool)
    requires kb.Valid()
    modifies kb
    ensures kb.Valid()
    ensures refreshed <==> fault.None?
    ensures kb.State() == ResolveEffect(old(kb.State()), id, resolution, fault, rereadFails)
    ensures kb.nextId == old(kb.nextId)
  {
    var err := kb.UpdateFlagResolution(id, resolution, fault);
    if err.Some? {
      return false;
    }
    if resolution == Deleted {
      if id in kb.flags && !rereadFails {
        kb.DeleteQuestion(kb.flags[id].sourceQuestionId);
      }
    }
    return true;
  }

  /**
   * A resolution changes no other flag and no field of the flag but its
   * resolution; a failed flag update changes nothing at all.
   */
  lemma ResolveTouchesOneFlag(s: Snapshot, id: Id, resolution: Resolution, fault: Option<DbError>, rereadFails: bool)
    ensures var r := ResolveEffect(s, id, resolution, fault, rereadFails);
      && r.flags.Keys == s.flags.Keys
      && (forall other :: other in s.flags && other != id ==> r.flags[other] == s.flags[other])
      && (id in s.flags && fault.None? ==> r.flags[id] == s.flags[id].(resolution := resolution))
      && (fault.Some? ==> r == s)
      && r.intents == s.intents && r.answers == s.answers
  {
  }

  /**
   * Only `Deleted` removes a question, and only the flag's source
   * question: the matched question and every other row stay as they are.
   */
  lemma ResolveDeletesOnlySource(s: Snapshot, id: Id, resolution: Resolution, fault: Option<DbError>, rereadFails: bool)
    ensures var r := ResolveEffect(s, id, resolution, fault, rereadFails);
      && (resolution != Deleted || fault.Some? || rereadFails || id !in s.flags ==> r.questions == s.questions)
      && (resolution == Deleted && fault.None? && !rereadFails && id in s.flags ==>
            r.questions.Keys == s.questions.Keys - {s.flags[id].sourceQuestionId})
      && (forall q :: q in r.questions ==> q in s.questions && r.questions[q] == s.questions[q])
      && (id in s.flags && s.flags[id].matchedQuestionId != s.flags[id].sourceQuestionId
          && s.flags[id].matchedQuestionId in s.questions ==>
            s.flags[id].matchedQuestionId in r.questions)
  {
  }

  /**
   * There is no guard on the current resolution, and resolving again with
   * the same value after a complete resolution changes nothing, whatever
   * the second attempt meets.
   */
  lemma {:induction false} ResolveTwice(s: Snapshot, id: Id, resolution: Resolution, fault: Option<DbError>, rereadFails: bool)
    ensures var once := ResolveEffect(s, id, resolution, None, false);
      ResolveEffect(once, id, resolution, fault, rereadFails) == once
  {
    var once := ResolveEffect(s, id, resolution, None, false);
    if fault.None? && id in s.flags {
      var flag := s.flags[id];
      assert once.flags[id] == flag.(resolution := resolution);
      assert once.flags[id := once.flags[id].(resolution := resolution)] == once.flags;
      if resolution == Deleted && !rereadFails {
        assert once.questions - {flag.sourceQuestionId} == once.questions;
      }
    }
  }

  /** A completed resolution takes the flag off the listing and leaves the rest of the listing as it was. */
  lemma ResolvedLeavesListing(s: Snapshot, id: Id, resolution: Resolution, rereadFails: bool)
    requires resolution != Unresolved
    ensures var r := ResolveEffect(s, id, resolution, None, rereadFails);
      OpenFlags(r.flags) == OpenFlags(s.flags) - {id}
  {
    var r := ResolveEffect(s, id, resolution, None, rereadFails);
    assert OpenFlags(r.flags).Keys == OpenFlags(s.flags).Keys - {id};
  }

  // ---------------------------------------------------------------------
  // The scan job
  // ---------------------------------------------------------------------

  datatype ScanLine =
    | ScanStarting
    | Requesting
    | ScanComplete
    | DraftsChecked(drafts: Access)
    | FlagsFound(flags: Access)
    | CheckTheList
    | Clean
    /** `data.details`, or the text "Unknown error" when that is falsy. */
    | ScanFailed(reason: Json)
    | ScanConnectionError(cause: Cause)

  datatype ScanLabel = Scanning | ScanNowLabel

  /** A scan button: the tab's or the dashboard's; a page may have either, both or neither. */
  class ScanButton {
    var caption: ScanLabel
    var disabled: bool

    constructor ()
      ensures caption == ScanNowLabel && !disabled
    {
      caption, disabled := ScanNowLabel, false;
    }

    method Set(l: ScanLabel, d: bool)
      modifies this
      ensures caption == l && disabled == d
    {
      caption, disabled := l, d;
    }
  }

  /** The decimal digits. */
  predicate IsDigit(c: char) {
    '0' <= c <= '9'
  }

  /**
   * `x > 0` for the value of `flagsCreated`: a number above zero, `true`,
   * or a string of decimal digits (after trimming) that is not all zeros.
   */
  predicate Positive(a: Access) {
    a.Found? &&
    match a.value
    case Num(n) => n > 0
    case Bool(b) => b
    case Str(s) =>
      var t := Text.Trim(s);
      t != [] && (forall i :: 0 <= i < |t| ==> IsDigit(t[i])) && exists i :: 0 <= i < |t| && t[i] != '0'
    case _ => false
  }

  /** The lines a scan logs after "Requesting", and whether the listing and the counters are refreshed. */
  function ScanReplyLines(reply: Reply): (r: (seq<ScanLine>, bool))
  {
    match reply
    case Unreachable(message) => ([ScanConnectionError(NetworkFailure(message))], false)
    case Replied(_, None) => ([ScanConnectionError(UnreadableBody)], false)
    case Replied(_, Some(data)) => ScanDataLines(data)
  }

  /** The lines and the refresh for a reply whose body parsed as `data`. */
  function ScanDataLines(data: Json): (seq<ScanLine>, bool)
  {
    var success := Prop(data, "success");
    if success.TypeError? then ([ScanConnectionError(ScriptError)], false)
    else if Present(success) then
      var flagsCreated := Prop(data, "flagsCreated");
      ([ScanComplete, DraftsChecked(Prop(data, "draftsChecked")), FlagsFound(flagsCreated),
        if Positive(flagsCreated) then CheckTheList else Clean], true)
    else
      var details := Prop(data, "details");
      ([ScanFailed(if Present(details) then details.value else Str("Unknown error"))], false)
  }

  /** The whole log of a scan, and whether it refreshes. */
  function ScanLog(reply: Reply): (r: (seq<ScanLine>, bool))
  {
    var (lines, refreshed) := ScanReplyLines(reply);
    ([ScanStarting, Requesting] + lines, refreshed)
  }

  /**
   * Every scan log opens with the same two lines. A successful reply logs
   * four more, the last of them the warning exactly when new flags were
   * found, and refreshes; every other outcome logs exactly one failure
   * line and refreshes nothing: the request's own error message when it
   * was refused, the parser's message (with no status) when the body did
   * not parse.
   */
  lemma ScanOutcomes(reply: Reply)
    ensures var (lines, refreshed) := ScanLog(reply);
      && lines[..2] == [ScanStarting, Requesting]
      && (refreshed <==> reply.Replied? && reply.body.Some? && Present(Prop(reply.body.value, "success")))
      && (refreshed ==> |lines| == 6 && lines[2] == ScanComplete
                        && (lines[5] == CheckTheList <==> Positive(Prop(reply.body.value, "flagsCreated")))
                        && (lines[5] == Clean <==> !Positive(Prop(reply.body.value, "flagsCreated"))))
      && (!refreshed ==> |lines| == 3 && (lines[2].ScanFailed? || lines[2].ScanConnectionError?))
      && (reply.Unreachable? ==> lines[2] == ScanConnectionError(NetworkFailure(reply.message)))
      && (reply.Replied? && reply.body.None? ==> lines[2] == ScanConnectionError(UnreadableBody))
  {
  }

  /** A reply that says it failed is reported with its `details`, or "Unknown error" when those are falsy. */
  lemma ScanFailureReason(data: Json, httpStatus: int)
    requires data.Obj? && !Present(Prop(data, "success"))
    ensures var lines := ScanLog(Replied(httpStatus, Some(data))).0;
      lines[2] == ScanFailed(if Present(Prop(data, "details")) then Prop(data, "details").value else Str("Unknown error"))
  {
  }

  /**
   * `scanNow`: the modal opens with its close button hidden, the buttons
   * read "Scanning..." and are disabled while the request runs, the reply
   * decides the lines, and in every outcome the buttons are enabled again
   * and the close button comes back.
   */
  method ScanNow(modal: LogModal<ScanLine>, btn: ScanButton?, dashBtn: ScanButton?, reply: Reply)
    returns (refreshed: bool)
    modifies modal, btn, dashBtn
    ensures (modal.lines, refreshed) == ScanLog(reply)
    ensures modal.shown && modal.closeShown
    ensures btn != null ==> btn.caption == ScanNowLabel && !btn.disabled
    ensures dashBtn != null ==> dashBtn.caption == ScanNowLabel && !dashBtn.disabled
  {
    modal.Open(ScanStarting);
    SetButtons(btn, dashBtn, Scanning, true);
    modal.Log(Requesting);
    assert modal.lines == [ScanStarting, Requesting];
    refreshed := LogReply(modal, reply);
    SetButtons(btn, dashBtn, ScanNowLabel, false);
    modal.Finish();
  }

  /** The part of a scan that reads the reply: its lines go to the log one by one. */
  method LogReply(modal: LogModal<ScanLine>, reply: Reply) returns (refreshed: bool)
    modifies modal
    ensures modal.lines == old(modal.lines) + ScanReplyLines(reply).0 && refreshed == ScanReplyLines(reply).1
    ensures modal.shown == old(modal.shown) && modal.closeShown == old(modal.closeShown)
  {
    match reply {
      case Unreachable(message) =>
        modal.Log(ScanConnectionError(NetworkFailure(message)));
        refreshed := false;
      case Replied(_, None) =>
        modal.Log(ScanConnectionError(UnreadableBody));
        refreshed := false;
      case Replied(_, Some(data)) =>
        refreshed := LogData(modal, data);
    }
  }

  /** The reply's body parsed: its fields decide the lines. */
  method LogData(modal: LogModal<ScanLine>, data: Json) returns (refreshed: bool)
    modifies modal
    ensures modal.lines == old(modal.lines) + ScanDataLines(data).0 && refreshed == ScanDataLines(data).1
    ensures modal.shown == old(modal.shown) && modal.closeShown == old(modal.closeShown)
  {
    refreshed := false;
    var success := Prop(data, "success");
    if success.TypeError? {
      modal.Log(ScanConnectionError(ScriptError));
    } else if Present(success) {
      var flagsCreated := Prop(data, "flagsCreated");
      var verdict := if Positive(flagsCreated) then CheckTheList else Clean;
      assert ScanDataLines(data).0 == [ScanComplete, DraftsChecked(Prop(data, "draftsChecked")), FlagsFound(flagsCreated), verdict];
      ghost var start := modal.lines;
      modal.Log(ScanComplete);
      modal.Log(DraftsChecked(Prop(data, "draftsChecked")));
      modal.Log(FlagsFound(flagsCreated));
      if Positive(flagsCreated) {
        modal.Log(CheckTheList);
      } else {
        modal.Log(Clean);
      }
      assert modal.lines == start + [ScanComplete, DraftsChecked(Prop(data, "draftsChecked")), FlagsFound(flagsCreated), verdict];
      refreshed := true;
    } else {
      var details := Prop(data, "details");
      modal.Log(ScanFailed(if Present(details) then details.value else Str("Unknown error")));
    }
  }

  /** `setBtn`: both buttons that exist take the same caption and state. */
  method SetButtons(btn: ScanButton?, dashBtn: ScanButton?, caption: ScanLabel, disabled: bool)
    modifies btn, dashBtn
    ensures btn != null ==> btn.caption == caption && btn.disabled == disabled
    ensures dashBtn != null ==> dashBtn.caption == caption && dashBtn.disabled == disabled
  {
    if btn != null {
      btn.Set(caption, disabled);
    }
    if dashBtn != null {
      dashBtn.Set(caption, disabled);
    }
  }
}
