/**
 * `ScanStateStore`: the size and modification time last seen for each scanned file,
 * keyed by path, so that a rescan can tell which files changed. Reading the state
 * file is reduced to what `load` can find there.
 */
module ScanState {
  import opened Wrappers

  /** What the store remembers of a file. */
  datatype FileState = FileState(size: int, mtime: int)

  /** What `load` finds at the state file's path. */
  datatype StateFile =
    | Missing                                   // no file at that path
    | Unreadable                                // reading the bytes throws an IOException
    | Empty                                     // a file of zero bytes
    | Malformed                                 // bytes that do not parse as a map: an IOException
    | JsonNull                                  // the JSON literal `null`, which parses to a null map
    | Parsed(entries: map<string, FileState>)   // a map that parses

  /**
   * The state after `load`: the parsed map replaces the state; a `null` document
   * clears it and then fails in `putAll`; anything else leaves it as it was.
   */
  function AfterLoad(state: map<string, FileState>, file: StateFile): map<string, FileState> {
    match file
    case Parsed(entries) => entries
    case JsonNull => map[]
    case _ => state
  }

  /** `load` changes the state only when the file holds a map, or `null`. */
  lemma LoadChangesOnlyOnParse(state: map<string, FileState>, file: StateFile)
    ensures AfterLoad(state, file) != state ==> file.Parsed? || file.JsonNull?
    ensures file.Parsed? ==> AfterLoad(state, file) == file.entries
  {
  }

  /** Loading the same file twice leaves what loading it once left. */
  lemma LoadIdempotent(state: map<string, FileState>, file: StateFile)
    ensures AfterLoad(AfterLoad(state, file), file) == AfterLoad(state, file)
  {
  }

  /** After a successful parse, the state no longer depends on what it was before. */
  lemma LoadForgetsEarlierState(s1: map<string, FileState>, s2: map<string, FileState>, entries: map<string, FileState>)
    ensures AfterLoad(s1, Parsed(entries)) == AfterLoad(s2, Parsed(entries))
  {
  }

  class ScanStateStore {
    var state: map<string, FileState>

    /** Starts empty; the constructor's own `load` is `Load` applied to this empty store. */
    constructor ()
      ensures state == map[]
    {
      state := map[];
    }

    /**
     * `load`: replaces the whole state with the file's map when the file exists, is
     * non-empty and parses; a missing, empty, unreadable or unparsable file changes
     * nothing. A `null` document clears the state and the NullPointerException from
     * `putAll` escapes.
     */
    method Load(file: StateFile) returns (o: Outcome)
      modifies this
      ensures state == AfterLoad(old(state), file)
      ensures o == (if file.JsonNull? then Failed(NullKey) else Done)
      ensures !file.Parsed? && !file.JsonNull? ==> state == old(state)
    {
      match file {
        case Parsed(entries) =>
          state := map[];
          state := state + entries;
          o := Done;
        case JsonNull =>
          state := map[];
          o := Failed(NullKey);
        case _ =>
          o := Done;
      }
    }

    /** `get`: the state remembered for `path`, or nothing. */
    function Get(path: string): (r: Option<FileState>)
      reads this
      ensures r.Some? <==> path in state
      ensures r.Some? ==> r.value == state[path]
    {
      if path in state then Some(state[path]) else None
    }

    /** `put`: remembers `fileState` for `path`, overwriting what was there; no other path changes. */
    method Put(path: string, fileState: FileState)
      modifies this
      ensures state == old(state)[path := fileState]
      ensures Get(path) == Some(fileState)
      ensures forall p :: p != path ==> Get(p) == old(Get(p))
    {
      state := state[path := fileState];
    }

    /** `remove`: forgets `path`; no other path changes. */
    method Remove(path: string)
      modifies this
      ensures state == old(state) - {path}
      ensures Get(path) == None
      ensures forall p :: p != path ==> Get(p) == old(Get(p))
    {
      state := state - {path};
    }

    /**
     * `snapshot`: a copy of the state. The copy is a value, so later `Put` and
     * `Remove` calls cannot reach it.
     */
    method Snapshot() returns (r: map<string, FileState>)
      ensures r == state
      ensures forall p :: p in r <==> Get(p).Some?
      ensures forall p :: p in r ==> Get(p) == Some(r[p])
    {
      r := state;
    }
  }
}
