/**
 * The log modal that the publish job and the duplicate scan share
 * (`log-modal`, its line container and its close button), and the reply
 * of a remote endpoint as the page receives it.
 */
module LogPanel {
  import opened Common
  import opened JsonValues

  /**
   * What `fetch` followed by `res.json()` delivers: no reply at all (the
   * request was rejected, with the error's message), or an HTTP status
   * with a body that parsed as JSON or did not.
   */
  datatype Reply = Unreachable(message: string) | Replied(httpStatus: int, body: Option<Json>)

  /** Why a job ends in a "Connection Error" line. */
  datatype Cause =
    | NetworkFailure(message: string)
    /** The body did not parse; the line carries the HTTP status. */
    | NonJsonReply(httpStatus: int)
    /** The body did not parse and the parser's own message is logged as is (its wording is the engine's, not modelled). */
    | UnreadableBody
    /** A property read or a call on the reply threw a `TypeError`. */
    | ScriptError

  /**
   * The modal as a job drives it: shown, with its close button hidden
   * while the job runs, and the lines logged so far (time stamps and
   * colours are not modelled).
   */
  class LogModal<L> {
    var shown: bool
    var closeShown: bool
    var lines: seq<L>

    constructor ()
      ensures !shown && closeShown && lines == []
    {
      shown, closeShown, lines := false, true, [];
    }

    /** Shows the modal, hides the close button and replaces the log by its first line. */
    method Open(first: L)
      modifies this
      ensures shown && !closeShown && lines == [first]
    {
      shown, closeShown, lines := true, false, [first];
    }

    method Log(line: L)
      modifies this
      ensures lines == old(lines) + [line]
      ensures shown == old(shown) && closeShown == old(closeShown)
    {
      lines := lines + [line];
    }

    /** The `finally` of a job: the close button comes back. */
    method Finish()
      modifies this
      ensures closeShown
      ensures shown == old(shown) && lines == old(lines)
    {
      closeShown := true;
    }
  }
}
