/** The failure taxonomy of the pass and the file-content resolver: path
    joining and a whole-file text read against an abstract file system. */
module Files {

  /** The five conditions on which the pass aborts the whole transform. */
  datatype Error =
    | MissingArgument
    | InvalidArgumentType
    | MissingCwd
    | FileNotFound
    | ReadFailure

  /** A value that may be absent, as the working directory may be. */
  datatype Option<+T> = None | Some(value: T)

  /** The value of a step that can abort; usable with `:-`. */
  datatype Result<+T> = Ok(value: T) | Err(error: Error) {
    predicate IsFailure() {
      Err?
    }

    function PropagateFailure<U>(): Result<U>
      requires Err?
    {
      Err(error)
    }

    function Extract(): T
      requires Ok?
    {
      value
    }
  }

  /** What the file system holds at an existing path: either text that reads
      back whole, or something that exists but cannot be read as text. */
  datatype FileEntry = Unreadable | Readable(text: string)

  /** Paths that do not exist are absent from the map. */
  type FileSystem = map<string, FileEntry>

  predicate IsAbsolute(path: string) {
    |path| > 0 && path[0] == '/'
  }

  /** POSIX path joining as a path buffer's `join` does it: an absolute
      argument replaces the base; otherwise one separator is put between a
      non-empty base that does not already end in one and the argument. */
  function JoinPath(base: string, path: string): (r: string)
    ensures IsAbsolute(path) ==> r == path
    ensures !IsAbsolute(path) ==>
      (|r| == |base| + |path| || (|r| == |base| + 1 + |path| && r[|base|] == '/'))
      && base <= r && r[|r| - |path|..] == path
    ensures !IsAbsolute(path) ==>
      (|r| == |base| + 1 + |path| <==> |base| > 0 && base[|base| - 1] != '/')
  {
    if IsAbsolute(path) then path
    else if |base| > 0 && base[|base| - 1] != '/' then base + "/" + path
    else base + path
  }

  /** Existence check, then a whole-file text read. */
  function ReadFile(fs: FileSystem, path: string): (r: Result<string>)
    ensures r == Err(FileNotFound) <==> path !in fs
    ensures r == Err(ReadFailure) <==> path in fs && fs[path].Unreadable?
    ensures r.Ok? <==> path in fs && fs[path].Readable?
    ensures r.Ok? ==> r.value == fs[path].text
  {
    if path !in fs then Err(FileNotFound)
    else match fs[path]
      case Unreadable => Err(ReadFailure)
      case Readable(text) => Ok(text)
  }
}
