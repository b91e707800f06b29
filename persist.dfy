/** The two persisted stores are JSON files read once at the start of a run and
    overwritten in full. Only what a load can observe of a file is modelled. */
module Persist {
  import opened Values

  /** A file as `load_json` finds it: absent, present but not readable as JSON
      (corrupt, truncated, unreadable), or holding a parsed document. */
  datatype FileContent<T> = Missing | Unreadable | Parsed(data: T)

  /** How a `save_json` call ends: the document is written; the file cannot be
      opened for writing (the old content stays); or the write stops part-way
      after the file was truncated. Errors while opening or writing are printed
      and swallowed; a failure to create the directory happens before the
      `try` and is not modelled. */
  datatype WriteOutcome = Written | OpenFailed | Interrupted

  /** `load_json(path, default)`: an existing, well-formed file yields its content;
      a missing or corrupt file yields the default, and [] when no default is given. */
  function LoadJson<T>(file: FileContent<seq<T>>, default: Option<seq<T>>): (r: seq<T>)
    ensures file.Parsed? ==> r == file.data
    ensures !file.Parsed? ==> r == default.GetOr([])
  {
    match file
    case Parsed(data) => data
    case _ => default.GetOr([])
  }

  /** `save_json(path, data)`: the file content after the call. */
  function SaveJson<T>(file: FileContent<T>, data: T, outcome: WriteOutcome): (r: FileContent<T>)
    ensures outcome == Written ==> r == Parsed(data)
    ensures outcome == OpenFailed ==> r == file
    ensures outcome == Interrupted ==> r.Unreadable?
  {
    match outcome
    case Written => Parsed(data)
    case OpenFailed => file
    case Interrupted => Unreadable
  }

  /** A completed save is read back unchanged by the next run, whatever the default. */
  lemma SaveThenLoad<T>(file: FileContent<seq<T>>, data: seq<T>, default: Option<seq<T>>)
    ensures LoadJson(SaveJson(file, data, Written), default) == data
  {
  }

  /** An interrupted save silently loses the whole history: the next run starts
      from the default collection. */
  lemma InterruptedSaveLosesHistory<T>(file: FileContent<seq<T>>, data: seq<T>, default: Option<seq<T>>)
    ensures LoadJson(SaveJson(file, data, Interrupted), default) == default.GetOr([])
  {
  }
}
