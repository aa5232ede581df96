/** The path collection of the utility library (ts/api/tsutil/source/path.c):
    an ordered list of search directories with the length of the longest,
    and the search for a unit file through them. Which files exist is an
    input. */
module Path {

  /** struct tsutil_path_collection: the stored copies of the paths, first
      to last, and max_path_length. */
  datatype Collection = Collection(paths: seq<seq<char>>, maxLength: nat)

  /** TSUtil_AppendPath / TSUtil_PrependPath outcome: the collection and the
      caller's string afterwards (PrependPath may shorten it), or
      TSUTIL_ERROR_MEMORY, or a read before the string for an empty path. */
  datatype Added = Added(collection: Collection, callerName: seq<char>) | NoMemory | Unsafe

  /** TSUtil_InitializePathCollection (path.c:18-23). */
  function Init(): (c: Collection)
    ensures c.paths == [] && c.maxLength == 0
    ensures Exact(c)
  {
    Collection([], 0)
  }

  /** max_path_length bounds every stored path. */
  predicate Exact(c: Collection)
  {
    forall i :: 0 <= i < |c.paths| ==> |c.paths[i]| <= c.maxLength
  }

  /** max_path_length bounds every stored path but for one trailing
      character. */
  predicate Slack(c: Collection)
  {
    forall i :: 0 <= i < |c.paths| ==> |c.paths[i]| <= c.maxLength + 1
  }

  /** TSUtil_AppendPath (path.c:43-75): a copy goes to the end and the
      maximum grows to its length if longer. */
  function Append(c: Collection, name: seq<char>, allocOk: bool): (r: Added)
    ensures !r.Unsafe? && (r.NoMemory? <==> !allocOk)
    ensures r.Added? ==> r.collection.paths == c.paths + [name] && r.callerName == name
    ensures r.Added? ==> r.collection.maxLength == (if |name| > c.maxLength then |name| else c.maxLength)
    ensures r.Added? && Exact(c) ==> Exact(r.collection)
    ensures r.Added? && Slack(c) ==> Slack(r.collection)
  {
    if !allocOk then NoMemory
    else
      var m := if |name| > c.maxLength then |name| else c.maxLength;
      Added(Collection(c.paths + [name], m), name)
  }

  /** TSUtil_PrependPath (path.c:77-114): a copy goes to the front; the
      length counted is that of the name without one trailing '/', which
      is cut from the caller's string only after the copy was taken. An
      empty name reads the byte before it. */
  function Prepend(c: Collection, name: seq<char>, allocOk: bool): (r: Added)
    ensures r.NoMemory? <==> !allocOk
    ensures r.Unsafe? <==> allocOk && |name| == 0
    ensures r.Added? ==> r.collection.paths == [name] + c.paths
    ensures r.Added? ==> (r.callerName == name[..|name| - 1] <==> name[|name| - 1] == '/')
    ensures r.Added? ==> r.collection.maxLength >= |r.callerName| && r.collection.maxLength >= c.maxLength
    ensures r.Added? && Slack(c) ==> Slack(r.collection)
  {
    if !allocOk then NoMemory
    else if |name| == 0 then Unsafe
    else
      var caller := if name[|name| - 1] == '/' then name[..|name| - 1] else name;
      var m := if |caller| > c.maxLength then |caller| else c.maxLength;
      Added(Collection([name] + c.paths, m), caller)
  }

  /** Kept as written: after a path ending in '/' is prepended, the stored
      copy is one character longer than max_path_length. */
  lemma PrependUndercounts()
    ensures var r := Prepend(Init(), "a/", true);
            r.Added? && r.collection.maxLength == 1 && |r.collection.paths[0]| == 2 && !Exact(r.collection)
  {
  }

  // ---------------------------------------------------------------------
  // TSUtil_FindUnitFile (path.c:116-154)

  /** The search buffer's size: max_path_length plus the name, the
      extension, two sizeof("/") and one. */
  function BufferSize(c: Collection, name: seq<char>, extension: seq<char>): nat
  {
    c.maxLength + |name| + |extension| + 5
  }

  /** The file tried in a directory: path "/" name extension. */
  function Candidate(dir: seq<char>, name: seq<char>, extension: seq<char>): seq<char>
  {
    dir + "/" + name + extension
  }

  datatype Found = Found(path: seq<char>) | NotFound | NoBuffer

  /** The first directory, in collection order, whose candidate exists. */
  function Search(paths: seq<seq<char>>, name: seq<char>, extension: seq<char>, existing: set<seq<char>>): (r: Found)
    ensures !r.NoBuffer?
    ensures r.NotFound? <==> forall i :: 0 <= i < |paths| ==> Candidate(paths[i], name, extension) !in existing
    ensures r.Found? ==>
              exists i :: (0 <= i < |paths| && r.path == Candidate(paths[i], name, extension) &&
                           r.path in existing &&
                           forall j :: 0 <= j < i ==> Candidate(paths[j], name, extension) !in existing)
  {
    if |paths| == 0 then NotFound
    else if Candidate(paths[0], name, extension) in existing then Found(Candidate(paths[0], name, extension))
    else
      var r := Search(paths[1..], name, extension, existing);
      assert forall i :: 1 <= i < |paths| ==> paths[i] == paths[1..][i - 1];
      if r.Found? then
        var k :| 0 <= k < |paths[1..]| && r.path == Candidate(paths[1..][k], name, extension) &&
                 forall j :: 0 <= j < k ==> Candidate(paths[1..][j], name, extension) !in existing;
        assert forall j :: 1 <= j < k + 1 ==> paths[j] == paths[1..][j - 1];
        r
      else r
  }

  /** TSUtil_FindUnitFile: TSUTIL_ERROR_MEMORY when the buffer cannot be
      had, else the first existing candidate or TSUTIL_ERROR_NOT_FOUND. */
  function FindUnitFile(c: Collection, name: seq<char>, extension: seq<char>, existing: set<seq<char>>, allocOk: bool): (r: Found)
    ensures r.NoBuffer? <==> !allocOk
    ensures allocOk ==> r == Search(c.paths, name, extension, existing)
  {
    if !allocOk then NoBuffer else Search(c.paths, name, extension, existing)
  }

  /** Every candidate, with its terminating NUL, fits the search buffer as
      long as paths exceed max_path_length by at most one character, which
      Append and Prepend maintain. */
  lemma CandidatesFit(c: Collection, name: seq<char>, extension: seq<char>, i: nat)
    requires Slack(c) && i < |c.paths|
    ensures |Candidate(c.paths[i], name, extension)| + 1 <= BufferSize(c, name, extension)
  {
  }

  /** A collection built from Init by appends and prepends keeps the slack
      the search buffer needs. */
  lemma {:induction false} BuiltCollectionsFit(ops: seq<(bool, seq<char>)>)
    ensures var c := Build(ops); Slack(c)
    decreases |ops|
  {
    if |ops| > 0 {
      BuiltCollectionsFit(ops[..|ops| - 1]);
    }
  }

  /** Applies appends (true) and prepends (false) from Init, skipping
      those that fail. */
  function Build(ops: seq<(bool, seq<char>)>): (c: Collection)
    decreases |ops|
  {
    if |ops| == 0 then Init()
    else
      var c := Build(ops[..|ops| - 1]);
      var (append, name) := ops[|ops| - 1];
      var r := if append then Append(c, name, true) else Prepend(c, name, true);
      if r.Added? then r.collection else c
  }
}
