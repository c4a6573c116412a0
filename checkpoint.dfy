/**
 * The state file: `load_state`, `save_state` and the removal done when no
 * plant is left to process.  It holds `{"last_processed_plant_code": code}`.
 */
module Checkpoint {
  import opened Wrappers

  /**
   * The state file: missing, unreadable (not JSON, not an object, an I/O
   * error), or a JSON object whose `last_processed_plant_code` is
   * `lastCode` (`None` when the key is absent or null).
   */
  datatype FileState = Absent | Unreadable | Stored(lastCode: Option<string>)

  /**
   * How `save_state` fares: the file was written; `os.makedirs` failed;
   * `open(path, 'w')` failed, before the file was touched; or `json.dump` or
   * the flush on closing failed after `open` had emptied the file.
   */
  datatype SaveOutcome = Written | DirectoryFailed | OpenFailed | WriteFailed

  /**
   * The state file after `save_state(code)`.  A write that fails after the
   * file was opened for writing leaves it empty or holding a proper prefix
   * of the JSON text, which is not valid JSON.
   */
  function AfterSave(f: FileState, code: string, outcome: SaveOutcome): FileState
  {
    match outcome
    case Written => Saved(code)
    case WriteFailed => Unreadable
    case _ => f
  }

  /** What `save_state(code)` writes. */
  function Saved(code: string): FileState
  {
    Stored(Some(code))
  }

  /** What `load_state` returns for a file: its code when that is present and non-empty. */
  function LoadedCode(f: FileState): (c: Option<string>)
    ensures c.Some? ==> c.value != "" && f == Stored(c)
    ensures c.None? <==> !f.Stored? || f.lastCode.None? || f.lastCode.value == ""
  {
    match f
    case Stored(Some(code)) => if code != "" then Some(code) else None
    case _ => None
  }

  /** `load_state` after `save_state(code)` returns `code` exactly when the code is truthy. */
  lemma SaveLoadRoundTrip(code: string)
    ensures LoadedCode(Saved(code)).Some? <==> code != ""
    ensures code != "" ==> LoadedCode(Saved(code)) == Some(code)
  {
  }

  /**
   * What the next `load_state` returns after `save_state(code)`: the code
   * when it was written and is truthy; `None` after a write that failed
   * once the file was emptied; otherwise what it returned before.
   */
  lemma SaveThenLoad(f: FileState, code: string, outcome: SaveOutcome)
    ensures LoadedCode(AfterSave(f, code, outcome)) ==
              match outcome
              case Written => if code != "" then Some(code) else None
              case WriteFailed => None
              case _ => LoadedCode(f)
  {
  }

  class CheckpointFile {
    var contents: FileState

    constructor (initial: FileState)
      ensures contents == initial
    {
      contents := initial;
    }

    /** `load_state` */
    method Load() returns (c: Option<string>)
      ensures c == LoadedCode(contents)
      ensures c.Some? ==> contents == Saved(c.value) && c.value != ""
    {
      match contents
      case Absent =>
        c := None;              // FileNotFoundError
      case Unreadable =>
        c := None;              // JSONDecodeError or any other error
      case Stored(code) =>
        if code.Some? && code.value != "" {
          c := code;
        } else {
          c := None;            // key absent or empty
        }
    }

    /** `save_state(code)`; a failure is only logged. */
    method Save(code: string, outcome: SaveOutcome)
      modifies this
      ensures contents == AfterSave(old(contents), code, outcome)
      ensures outcome == WriteFailed ==> LoadedCode(contents) == None
    {
      match outcome {
        case Written =>
          contents := Saved(code);
        case WriteFailed =>
          contents := Unreadable;   // truncated by open(path, 'w'), then left partial
        case _ =>
      }
    }

    /** `if os.path.exists(path): os.remove(path)`; `ok` is false when the removal raises. */
    method Remove(fails: bool) returns (ok: bool)
      modifies this
      ensures ok <==> old(contents).Absent? || !fails
      ensures contents == if ok then Absent else old(contents)
    {
      if contents.Absent? {
        ok := true;
      } else if fails {
        ok := false;
      } else {
        contents := Absent;
        ok := true;
      }
    }
  }
}
