/**
 * Turning std::io::Error values into messages that name the operation and
 * the path and add a hint for the common failure causes.
 */
module Helpers {
  import opened Common
  import opened Paths
  import opened Fs

  const HINT_PERMISSION := " — permission denied; check ownership and write permissions."
  const HINT_CROSS_DEVICE := " — cross-filesystem; atomic rename not possible."
  const HINT_BUSY := " — resource busy; ensure no other process is writing."
  const HINT_NOT_FOUND := " — path not found; verify it exists."
  const HINT_EXISTS_CODE := " — already exists; pick a unique name or remove the target."
  const HINT_EXISTS_KIND := " — already exists; remove or choose a unique name."
  const HINT_RETRY := " — busy/timed out; retry after the current write finishes."

  /** Every hint a message can end with. */
  const HINTS: set<string> :=
    {HINT_PERMISSION, HINT_CROSS_DEVICE, HINT_BUSY, HINT_NOT_FOUND, HINT_EXISTS_CODE,
     HINT_EXISTS_KIND, HINT_RETRY}

  /** The hint for an error: chosen by its raw Unix code when it has one, else by its kind. */
  function Hint(e: IoError): (h: string)
    ensures h == "" || h in HINTS
  {
    match e.code
    case Some(c) =>
      if c == EACCES || c == EPERM then HINT_PERMISSION
      else if c == EXDEV then HINT_CROSS_DEVICE
      else if c == EBUSY then HINT_BUSY
      else if c == ENOENT then HINT_NOT_FOUND
      else if c == EEXIST then HINT_EXISTS_CODE
      else ""
    case None =>
      match e.kind
      case PermissionDenied => HINT_PERMISSION
      case NotFound => HINT_NOT_FOUND
      case AlreadyExists => HINT_EXISTS_KIND
      case WouldBlock => HINT_RETRY
      case TimedOut => HINT_RETRY
      case _ => ""
  }

  function Context(op: string, path: Path, e: IoError): string {
    op + " '" + Display(path) + "': " + ErrorText(e)
  }

  /** build_message: the operation, the path and the error, then at most one hint. */
  function BuildMessage(op: string, path: Path, e: IoError): (msg: string)
    ensures StartsWith(msg, Context(op, path, e))
    ensures var h := msg[|Context(op, path, e)|..]; h == "" || h in HINTS
    ensures msg[|Context(op, path, e)|..] == Hint(e)
  {
    Context(op, path, e) + Hint(e)
  }

  /** The message an anyhow error built by io_error_with_help carries. */
  datatype HelpError = HelpError(message: string)

  /**
   * io_error_with_help applied to an error: the message names the operation,
   * the path and the error, and ends with the error's hint and nothing else.
   */
  function IoErrorWithHelp(op: string, path: Path, e: IoError): (r: HelpError)
    ensures StartsWith(r.message, op + " '" + Display(path) + "': " + ErrorText(e))
    ensures r.message[|Context(op, path, e)|..] == Hint(e)
    ensures |r.message| == |Context(op, path, e)| + |Hint(e)|
  {
    HelpError(BuildMessage(op, path, e))
  }

  /** io_error_with_help_io: keeps the kind, carries the message, has no raw code. */
  function IoErrorWithHelpIo(op: string, path: Path, e: IoError): (r: IoError)
    ensures r.kind == e.kind && r.code.None?
    ensures ErrorText(r) == BuildMessage(op, path, e)
  {
    Custom(e.kind, BuildMessage(op, path, e))
  }

  /** When a raw code is present the kind plays no part in the hint. */
  lemma CodeDecidesHint(e1: IoError, e2: IoError)
    requires e1.code.Some? && e1.code == e2.code
    ensures Hint(e1) == Hint(e2)
  {
  }

  /** A raw code outside the five handled groups gets no hint. */
  lemma UnhandledCodeNoHint(op: string, path: Path, e: IoError)
    requires e.code.Some?
    requires e.code.value !in {EACCES, EPERM, EXDEV, EBUSY, ENOENT, EEXIST}
    ensures BuildMessage(op, path, e) == Context(op, path, e)
  {
  }

  /**
   * For an OS error the code-based and the kind-based hints agree on
   * permission and not-found errors, but the already-exists wording differs,
   * and EXDEV and EBUSY have hints that their kinds do not.
   */
  lemma CodeAndKindHints(c: int)
    ensures c in {EACCES, EPERM, ENOENT} ==>
      Hint(OsError(c)) == Hint(Custom(KindOfCode(c), ""))
    ensures Hint(OsError(EEXIST)) != Hint(Custom(KindOfCode(EEXIST), ""))
    ensures Hint(OsError(EXDEV)) != "" && Hint(Custom(KindOfCode(EXDEV), "")) == ""
    ensures Hint(OsError(EBUSY)) != "" && Hint(Custom(KindOfCode(EBUSY), "")) == ""
  {
  }

  /** A kind-only NotFound error gets the not-found hint right after its own text. */
  lemma NotFoundFallbackHint(op: string, path: Path, text: string)
    ensures BuildMessage(op, path, Custom(NotFound, text)) == op + " '" + Display(path) + "': " + text + HINT_NOT_FOUND
  {
  }

  // ---------------------------------------------------------------------
  // lock::io_error_with_help, the variant the movers use

  function OsCodeSuffix(e: IoError): string {
    match e.code
    case Some(c) => " (os error " + (if c >= 0 then Decimal(c) else "-" + Decimal(-c)) + ")"
    case None => ""
  }

  /**
   * As written: the error's display already ends with " (os error N)" for
   * an OS error, and the code is appended once more.
   */
  function LockIoErrorWithHelpAsWritten(action: string, path: Path, e: IoError): (r: IoError)
    ensures r.kind == e.kind && r.code.None?
    ensures StartsWith(ErrorText(r), Context(action, path, e))
    ensures ErrorText(r)[|Context(action, path, e)|..] == OsCodeSuffix(e)
  {
    Custom(e.kind, action + " '" + Display(path) + "': " + ErrorText(e) + OsCodeSuffix(e))
  }

  /**
   * The evidently intended message: the operation, the path and the error's
   * own display (which already names the OS code), keeping the error's kind.
   */
  function LockIoErrorWithHelp(action: string, path: Path, e: IoError): (r: IoError)
    ensures r.kind == e.kind && r.code.None?
    ensures ErrorText(r) == Context(action, path, e)
  {
    Custom(e.kind, action + " '" + Display(path) + "': " + ErrorText(e))
  }

  /**
   * The corrected helper's message is build_message's without the hint, while
   * the as-written one carries the OS code a second time.
   */
  lemma LockHelpAgainstBuildMessage(action: string, path: Path, e: IoError)
    ensures BuildMessage(action, path, e) == ErrorText(LockIoErrorWithHelp(action, path, e)) + Hint(e)
    ensures ErrorText(LockIoErrorWithHelpAsWritten(action, path, e))
      == ErrorText(LockIoErrorWithHelp(action, path, e)) + OsCodeSuffix(e)
    ensures e.code.Some? ==>
      ErrorText(LockIoErrorWithHelpAsWritten(action, path, e)) != ErrorText(LockIoErrorWithHelp(action, path, e))
  {
  }

  /**
   * With EACCES the error's display already ends with the code, and the
   * as-written helper appends the same code again.
   */
  lemma AsWrittenRepeatsCode(action: string, path: Path)
    ensures var e := OsError(EACCES);
      ErrorText(e) == "Permission denied (os error 13)"
      && ErrorText(LockIoErrorWithHelpAsWritten(action, path, e))
         == Context(action, path, e) + " (os error 13)"
  {
    DecimalThirteen();
    var e := OsError(EACCES);
    assert OsCodeSuffix(e) == " (os error 13)";
  }

  lemma DecimalThirteen()
    ensures Decimal(13) == "13"
  {
    assert DigitChar(1) == '1';
    assert DigitChar(3) == '3';
    assert Decimal(1) == "1";
    assert Decimal(13) == Decimal(1) + [DigitChar(3)];
  }
}
