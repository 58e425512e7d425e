/**
 * The entry point of the library: preparing a request (the range
 * expression, the key list, whether diffs are wanted) and the synchronous
 * `gitLogSync`, which parses the log and then attaches a diff to every
 * commit in order.  Running git is a parameter: `fetchLog` stands for
 * `git log` with a range and a format, `fetchDiff` for `git diff-tree` on a
 * commit hash.
 */
module GitLog {
  import opened Wrappers
  import opened Errors
  import opened Text
  import opened OrderedSets
  import opened Results
  import opened CommitBuilder
  import opened Diff

  // ---- range expressions ----

  const DefaultEnd: string := "HEAD"
  const RangeDots: string := ".."

  /** `getRangeString`: `start..end` when a start is given, otherwise the end alone; the end defaults to `HEAD`. */
  function RangeString(startRef: Option<string>, endRef: Option<string>): (range: string)
    ensures EndsWith(range, endRef.GetOr(DefaultEnd))
    ensures startRef.Some? ==> StartsWith(range, startRef.value + RangeDots)
    ensures startRef.Some? ==> |range| == |startRef.value| + |RangeDots| + |endRef.GetOr(DefaultEnd)|
    ensures startRef.None? ==> range == endRef.GetOr(DefaultEnd)
  {
    match startRef
    case Some(start) => start + RangeDots + endRef.GetOr(DefaultEnd)
    case None => endRef.GetOr(DefaultEnd)
  }

  /** How git reads a range expression: the text before the first `..` is the start, the rest the end. */
  function ReadRange(range: string): (Option<string>, string) {
    match IndexOf(range, RangeDots)
    case None => (None, range)
    case Some(i) => (Some(range[..i]), range[i + 2..])
  }

  /**
   * The range expression names the requested refs: reading it back gives the
   * start ref (exclusive) and the end ref, `HEAD` when none was given.  A
   * start ref must not itself contain `..` or end in `.`, which would move
   * the first `..`.
   */
  lemma RangeRoundTrip(startRef: Option<string>, endRef: Option<string>)
    requires startRef.Some? ==> Free(startRef.value, RangeDots) && !EndsWith(startRef.value, ".")
    requires startRef.None? ==> Free(endRef.GetOr(DefaultEnd), RangeDots)
    ensures ReadRange(RangeString(startRef, endRef)) == (startRef, endRef.GetOr(DefaultEnd))
  {
    if startRef.Some? {
      var a, e := startRef.value, endRef.GetOr(DefaultEnd);
      var s := a + RangeDots + e;
      assert OccursAt(s, RangeDots, |a|) by {
        assert s[|a|..|a| + 2] == RangeDots;
      }
      forall j: nat | j < |a| ensures !OccursAt(s, RangeDots, j) {
        if j + 1 < |a| {
          assert s[j..j + 2] == a[j..j + 2];
          assert !OccursAt(a, RangeDots, j);
        } else {
          assert s[j] == a[|a| - 1];
          assert a[|a| - 1..] == [a[|a| - 1]];
        }
      }
      assert IndexOf(s, RangeDots) == Some(|a|);
      assert s[..|a|] == a;
      assert s[|a| + 2..] == e;
    }
  }

  // ---- preparing a request ----

  /** `new Set(includeKeys)` with `"diff"` deleted: the names handed to the commit builder. */
  function OptionalNames(includeKeys: Option<seq<string>>): seq<string> {
    Unlisted(Dedup(includeKeys.GetOr([])), ["diff"])
  }

  /** The attribute a requested name denotes; a name outside the table makes the builder throw. */
  function ResolveName(name: string): (r: Result<Attr, Error>)
    ensures r.Success? ==> Name(r.value) == name
    ensures r.Failure? <==> forall a: Attr :: Name(a) != name
    ensures r.Failure? ==> r.error == UnknownAttribute(name)
  {
    match AttrNamed(name)
    case Some(a) => Success(a)
    case None => Failure(UnknownAttribute(name))
  }

  /** The requested attributes in request order, or the first name that is not an attribute. */
  function ResolveKeys(names: seq<string>): Result<seq<Attr>, Error> {
    MapAll(names, ResolveName)
  }

  /** What `prepare` hands back. */
  datatype Prepared = Prepared(commitBuilder: CommitBuilder, includeDiff: bool, rangeString: string)

  /**
   * `prepare`: the requested names as a set, `"diff"` deleted from it and
   * remembered as a flag, a commit builder over the rest, and the range
   * expression.
   */
  method Prepare(startRef: Option<string>, endRef: Option<string>, includeKeys: Option<seq<string>>)
    returns (r: Result<Prepared, Error>)
    ensures r.Success? <==> ResolveKeys(OptionalNames(includeKeys)).Success?
    ensures r.Failure? ==> r.error == ResolveKeys(OptionalNames(includeKeys)).error
    ensures r.Success? ==> fresh(r.value.commitBuilder)
    ensures r.Success? ==> (r.value.includeDiff <==> "diff" in includeKeys.GetOr([]))
    ensures r.Success? ==> r.value.commitBuilder.keys == KeyList(ResolveKeys(OptionalNames(includeKeys)).value)
    ensures r.Success? ==> r.value.commitBuilder.formatString == FormatString(r.value.commitBuilder.keys)
    ensures r.Success? ==> r.value.rangeString == RangeString(startRef, endRef)
  {
    var requested := FromSeq(includeKeys.GetOr([]));
    DedupFacts(includeKeys.GetOr([]));
    var optionalKeys, includeDiff := Delete(requested, "diff");
    var keys: seq<Attr> := [];
    for i := 0 to |optionalKeys|
      invariant ResolveKeys(optionalKeys[..i]) == Success(keys)
    {
      MapAllSnoc(optionalKeys, i, ResolveName);
      var a := ResolveName(optionalKeys[i]);
      if a.Failure? {
        MapAllPrefixFails(optionalKeys, i + 1, ResolveName);
        return Failure(a.error);
      }
      keys := keys + [a.value];
    }
    assert optionalKeys[..|optionalKeys|] == optionalKeys;
    var commitBuilder := new CommitBuilder(keys);
    return Success(Prepared(commitBuilder, includeDiff, RangeString(startRef, endRef)));
  }

  /**
   * The names handed to the builder: every requested name but `"diff"`, each
   * once, in first-request order.
   */
  lemma OptionalNamesFacts(includeKeys: Option<seq<string>>)
    ensures "diff" !in OptionalNames(includeKeys)
    ensures NoDup(OptionalNames(includeKeys))
    ensures forall n :: n in OptionalNames(includeKeys) <==> n in includeKeys.GetOr([]) && n != "diff"
  {
    var requested := Dedup(includeKeys.GetOr([]));
    DedupFacts(includeKeys.GetOr([]));
    UnlistedFacts(requested, ["diff"]);
    UnlistedNoDup(requested, ["diff"]);
  }

  lemma {:induction false} UnlistedNoDup<T>(s: seq<T>, excluded: seq<T>)
    requires NoDup(s)
    ensures NoDup(Unlisted(s, excluded))
  {
    if s != [] {
      var init := s[..|s| - 1];
      assert NoDup(init);
      UnlistedNoDup(init, excluded);
      UnlistedFacts(init, excluded);
    }
  }

  /**
   * The key list of a prepared builder: the defaults, then the attributes
   * requested by name, without repeats; duplicates collapse and `"diff"`
   * never reaches it.
   */
  lemma PreparedKeys(includeKeys: Option<seq<string>>)
    requires ResolveKeys(OptionalNames(includeKeys)).Success?
    ensures var keys := KeyList(ResolveKeys(OptionalNames(includeKeys)).value);
      NoDup(keys) && forall a :: a in keys <==> a in DefaultKeys || Name(a) in includeKeys.GetOr([])
  {
    var names := OptionalNames(includeKeys);
    var attrs := ResolveKeys(names).value;
    ResolvedMembers(names);
    OptionalNamesFacts(includeKeys);
    KeyListShape(attrs);
    NoAttrNamedDiff();
  }

  lemma NoAttrNamedDiff()
    ensures forall a: Attr :: Name(a) != "diff"
  {
    assert AttrNamed("diff") == None;
  }

  /** The resolved attributes are exactly those whose names were requested. */
  lemma ResolvedMembers(names: seq<string>)
    requires ResolveKeys(names).Success?
    ensures forall a :: a in ResolveKeys(names).value <==> Name(a) in names
  {
    var attrs := ResolveKeys(names).value;
    MapAllSuccess(names, ResolveName);
    forall a ensures a in attrs <==> Name(a) in names {
      if Name(a) in names {
        var i :| 0 <= i < |names| && names[i] == Name(a);
        NameInjective(attrs[i], a);
      }
    }
  }

  lemma NameInjective(a: Attr, b: Attr)
    requires Name(a) == Name(b)
    ensures a == b
  {
    NameRoundTrip(a);
    NameRoundTrip(b);
  }

  /** Without requested keys a builder asks for the default keys alone. */
  lemma NoRequestDefaults()
    ensures ResolveKeys(OptionalNames(None)) == Success([])
    ensures KeyList([]) == DefaultKeys
  {
    assert DefaultKeys + [] == DefaultKeys;
    DedupOfNoDup(DefaultKeys);
  }

  // ---- gitLogSync ----

  /** What a git run gives back: its standard output, or the exit status it failed with (`None` when killed by a signal). */
  type Run = Result<string, Option<int>>

  /** The hash a commit's diff is requested for. */
  function HashOf(c: Commit): string {
    if FullHash in c.attrs && c.attrs[FullHash].Plain? then c.attrs[FullHash].text else ""
  }

  /** `Object.assign(commit, { diff })` with the diff read from `git diff-tree` on the commit's hash. */
  function AttachDiff(fetchDiff: string -> Run, c: Commit): Result<Commit, Error> {
    match fetchDiff(HashOf(c))
    case Failure(code) => Failure(ProcessFailed(code))
    case Success(raw) => Success(c.(diff := Some(DiffOf(Lines(raw)))))
  }

  /** The step of the diff loop as a function value, for walking the whole log. */
  function WithDiff(fetchDiff: string -> Run): Commit -> Result<Commit, Error> {
    c => AttachDiff(fetchDiff, c)
  }

  /** The loop of `gitLogSync`: every commit of the log, in order, gets its diff. */
  method AttachDiffs(log: array<Commit>, fetchDiff: string -> Run) returns (failure: Option<Error>)
    modifies log
    ensures failure.None? ==> MapAll(old(log[..]), WithDiff(fetchDiff)) == Success(log[..])
    ensures failure.Some? ==> MapAll(old(log[..]), WithDiff(fetchDiff)) == Failure(failure.value)
    ensures failure.Some? ==> exists i :: (0 <= i < log.Length
      && MapAll(old(log[..])[..i], WithDiff(fetchDiff)) == Success(log[..i])
      && log[i..] == old(log[..])[i..])
  {
    ghost var original := log[..];
    ghost var f := WithDiff(fetchDiff);
    for i := 0 to log.Length
      invariant log[i..] == original[i..]
      invariant MapAll(original[..i], f) == Success(log[..i])
    {
      var commit := log[i];
      assert f(original[i]) == AttachDiff(fetchDiff, commit);
      var raw := fetchDiff(HashOf(commit));
      if raw.Failure? {
        MapAllStopsAt(original, i, f);
        return Some(ProcessFailed(raw.error));
      }
      var diff := Parse(raw.value);
      var updated := commit.(diff := Some(diff));
      ghost var before := log[..];
      MapAllStep(original, i, f, before[..i], updated);
      log[i] := updated;
      SpliceAt(before, log[..], i, updated);
    }
    assert original[..log.Length] == original;
    assert log[..log.Length] == log[..];
    return None;
  }

  /** Replacing element `i` leaves the elements before and after it alone. */
  lemma SpliceAt(before: seq<Commit>, after: seq<Commit>, i: nat, x: Commit)
    requires i < |before| && after == before[i := x]
    ensures after[..i + 1] == before[..i] + [x]
    ensures after[i + 1..] == before[i + 1..]
  {
  }

  /** What `gitLogSync` returns, or the error it throws. */
  function LogSync(startRef: Option<string>, endRef: Option<string>, includeKeys: Option<seq<string>>,
                   fetchLog: (string, string) -> Run,
                   fetchDiff: string -> Run): Result<seq<Commit>, Error>
  {
    match ResolveKeys(OptionalNames(includeKeys))
    case Failure(e) => Failure(e)
    case Success(optional) =>
      var keys := KeyList(optional);
      match fetchLog(RangeString(startRef, endRef), FormatString(keys))
      case Failure(code) => Failure(ProcessFailed(code))
      case Success(data) =>
        match ParseLog(keys, data)
        case Failure(e) => Failure(e)
        case Success(log) =>
          if "diff" in includeKeys.GetOr([]) then MapAll(log, WithDiff(fetchDiff)) else Success(log)
  }

  /** `gitLogSync`: prepare, fetch and parse the log, then attach the diffs when `"diff"` was requested. */
  method GitLogSync(startRef: Option<string>, endRef: Option<string>, includeKeys: Option<seq<string>>,
                    fetchLog: (string, string) -> Run,
                    fetchDiff: string -> Run) returns (r: Result<seq<Commit>, Error>)
    ensures r == LogSync(startRef, endRef, includeKeys, fetchLog, fetchDiff)
  {
    var prepared := Prepare(startRef, endRef, includeKeys);
    if prepared.Failure? {
      return Failure(prepared.error);
    }
    var Prepared(commitBuilder, includeDiff, rangeString) := prepared.value;
    var data := fetchLog(rangeString, commitBuilder.formatString);
    if data.Failure? {
      return Failure(ProcessFailed(data.error));
    }
    var log := commitBuilder.BuildAll(data.value);
    if log.Failure? || !includeDiff {
      return log;
    }
    var commits := new Commit[|log.value|](i requires 0 <= i < |log.value| => log.value[i]);
    assert commits[..] == log.value;
    var failure := AttachDiffs(commits, fetchDiff);
    if failure.Some? {
      return Failure(failure.value);
    }
    return Success(commits[..]);
  }

  /** With `"diff"` requested and the log parsed, the result is the diff walk over the parsed log. */
  lemma LogSyncWalks(startRef: Option<string>, endRef: Option<string>, includeKeys: Option<seq<string>>,
                     fetchLog: (string, string) -> Run,
                     fetchDiff: string -> Run, data: string, log: seq<Commit>)
    requires "diff" in includeKeys.GetOr([])
    requires ResolveKeys(OptionalNames(includeKeys)).Success?
    requires fetchLog(RangeString(startRef, endRef), FormatString(KeyList(ResolveKeys(OptionalNames(includeKeys)).value))) == Success(data)
    requires ParseLog(KeyList(ResolveKeys(OptionalNames(includeKeys)).value), data) == Success(log)
    ensures LogSync(startRef, endRef, includeKeys, fetchLog, fetchDiff) == MapAll(log, WithDiff(fetchDiff))
  {
  }

  /**
   * With `"diff"` requested, a successful log keeps its length and order,
   * every commit keeps its attributes and gains the diff read for its hash.
   */
  lemma LogSyncDiffs(startRef: Option<string>, endRef: Option<string>, includeKeys: Option<seq<string>>,
                     fetchLog: (string, string) -> Run,
                     fetchDiff: string -> Run, data: string, log: seq<Commit>)
    requires "diff" in includeKeys.GetOr([])
    requires ResolveKeys(OptionalNames(includeKeys)).Success?
    requires fetchLog(RangeString(startRef, endRef), FormatString(KeyList(ResolveKeys(OptionalNames(includeKeys)).value))) == Success(data)
    requires ParseLog(KeyList(ResolveKeys(OptionalNames(includeKeys)).value), data) == Success(log)
    requires LogSync(startRef, endRef, includeKeys, fetchLog, fetchDiff).Success?
    ensures |LogSync(startRef, endRef, includeKeys, fetchLog, fetchDiff).value| == |log|
    ensures forall i :: 0 <= i < |log| ==>
      && LogSync(startRef, endRef, includeKeys, fetchLog, fetchDiff).value[i].attrs == log[i].attrs
      && fetchDiff(HashOf(log[i])).Success?
      && LogSync(startRef, endRef, includeKeys, fetchLog, fetchDiff).value[i].diff == Some(DiffOf(Lines(fetchDiff(HashOf(log[i])).value)))
  {
    LogSyncWalks(startRef, endRef, includeKeys, fetchLog, fetchDiff, data, log);
    DiffWalkSucceeds(log, fetchDiff);
  }

  /** A diff walk that succeeds gives every commit, in order, the diff read for its hash. */
  lemma DiffWalkSucceeds(log: seq<Commit>, fetchDiff: string -> Run)
    requires MapAll(log, WithDiff(fetchDiff)).Success?
    ensures |MapAll(log, WithDiff(fetchDiff)).value| == |log|
    ensures forall i :: 0 <= i < |log| ==>
      && MapAll(log, WithDiff(fetchDiff)).value[i].attrs == log[i].attrs
      && fetchDiff(HashOf(log[i])).Success?
      && MapAll(log, WithDiff(fetchDiff)).value[i].diff == Some(DiffOf(Lines(fetchDiff(HashOf(log[i])).value)))
  {
    MapAllSuccess(log, WithDiff(fetchDiff));
  }

  /** Without `"diff"` the parsed log is returned as it is. */
  lemma LogSyncWithoutDiffs(startRef: Option<string>, endRef: Option<string>, includeKeys: Option<seq<string>>,
                            fetchLog: (string, string) -> Run,
                            fetchDiff: string -> Run, data: string)
    requires "diff" !in includeKeys.GetOr([])
    requires ResolveKeys(OptionalNames(includeKeys)).Success?
    requires fetchLog(RangeString(startRef, endRef), FormatString(KeyList(ResolveKeys(OptionalNames(includeKeys)).value))) == Success(data)
    ensures LogSync(startRef, endRef, includeKeys, fetchLog, fetchDiff) == ParseLog(KeyList(ResolveKeys(OptionalNames(includeKeys)).value), data)
  {
  }

  /**
   * A requested name outside the attribute table fails the call before git
   * runs: the error names the first such name in request order.
   */
  lemma LogSyncKeyFailure(startRef: Option<string>, endRef: Option<string>, includeKeys: Option<seq<string>>,
                          fetchLog: (string, string) -> Run,
                          fetchDiff: string -> Run)
    requires ResolveKeys(OptionalNames(includeKeys)).Failure?
    ensures LogSync(startRef, endRef, includeKeys, fetchLog, fetchDiff) == Failure(ResolveKeys(OptionalNames(includeKeys)).error)
    ensures exists name :: (name in includeKeys.GetOr([]) && name != "diff"
      && (forall a: Attr :: Name(a) != name)
      && LogSync(startRef, endRef, includeKeys, fetchLog, fetchDiff).error == UnknownAttribute(name))
  {
    var names := OptionalNames(includeKeys);
    MapAllFailure(names, ResolveName);
    OptionalNamesFacts(includeKeys);
    var i :| 0 <= i < |names| && ResolveName(names[i]) == Failure(ResolveKeys(names).error);
    assert names[i] in names;
  }

  /** A failing `git log` fails the call with the status git exited with. */
  lemma LogSyncLogFailure(startRef: Option<string>, endRef: Option<string>, includeKeys: Option<seq<string>>,
                          fetchLog: (string, string) -> Run,
                          fetchDiff: string -> Run, code: Option<int>)
    requires ResolveKeys(OptionalNames(includeKeys)).Success?
    requires fetchLog(RangeString(startRef, endRef), FormatString(KeyList(ResolveKeys(OptionalNames(includeKeys)).value))) == Failure(code)
    ensures LogSync(startRef, endRef, includeKeys, fetchLog, fetchDiff) == Failure(ProcessFailed(code))
  {
  }

  /** A log that does not parse fails the call with the parse error, before any diff is fetched. */
  lemma LogSyncParseFailure(startRef: Option<string>, endRef: Option<string>, includeKeys: Option<seq<string>>,
                            fetchLog: (string, string) -> Run,
                            fetchDiff: string -> Run, data: string)
    requires ResolveKeys(OptionalNames(includeKeys)).Success?
    requires fetchLog(RangeString(startRef, endRef), FormatString(KeyList(ResolveKeys(OptionalNames(includeKeys)).value))) == Success(data)
    requires ParseLog(KeyList(ResolveKeys(OptionalNames(includeKeys)).value), data).Failure?
    ensures LogSync(startRef, endRef, includeKeys, fetchLog, fetchDiff) == ParseLog(KeyList(ResolveKeys(OptionalNames(includeKeys)).value), data)
  {
  }

  /**
   * The call succeeds when the keys resolve, `git log` succeeds, its output
   * parses and, with `"diff"` requested, every commit's diff fetch succeeds.
   */
  lemma LogSyncSucceeds(startRef: Option<string>, endRef: Option<string>, includeKeys: Option<seq<string>>,
                        fetchLog: (string, string) -> Run,
                        fetchDiff: string -> Run, data: string, log: seq<Commit>)
    requires ResolveKeys(OptionalNames(includeKeys)).Success?
    requires fetchLog(RangeString(startRef, endRef), FormatString(KeyList(ResolveKeys(OptionalNames(includeKeys)).value))) == Success(data)
    requires ParseLog(KeyList(ResolveKeys(OptionalNames(includeKeys)).value), data) == Success(log)
    requires "diff" in includeKeys.GetOr([]) ==> forall i :: 0 <= i < |log| ==> fetchDiff(HashOf(log[i])).Success?
    ensures LogSync(startRef, endRef, includeKeys, fetchLog, fetchDiff).Success?
  {
    if "diff" in includeKeys.GetOr([]) {
      LogSyncWalks(startRef, endRef, includeKeys, fetchLog, fetchDiff, data, log);
      var f := WithDiff(fetchDiff);
      forall i | 0 <= i < |log| ensures f(log[i]).Success? {
      }
      MapAllFailure(log, f);
    }
  }

  /** A failing diff fetch fails the whole call with the error of the first commit whose fetch fails. */
  lemma LogSyncDiffFailure(startRef: Option<string>, endRef: Option<string>, includeKeys: Option<seq<string>>,
                           fetchLog: (string, string) -> Run,
                           fetchDiff: string -> Run, data: string, log: seq<Commit>)
    requires "diff" in includeKeys.GetOr([])
    requires ResolveKeys(OptionalNames(includeKeys)).Success?
    requires fetchLog(RangeString(startRef, endRef), FormatString(KeyList(ResolveKeys(OptionalNames(includeKeys)).value))) == Success(data)
    requires ParseLog(KeyList(ResolveKeys(OptionalNames(includeKeys)).value), data) == Success(log)
    requires exists i :: 0 <= i < |log| && fetchDiff(HashOf(log[i])).Failure?
    ensures LogSync(startRef, endRef, includeKeys, fetchLog, fetchDiff).Failure?
    ensures exists i :: (0 <= i < |log|
      && fetchDiff(HashOf(log[i])).Failure?
      && LogSync(startRef, endRef, includeKeys, fetchLog, fetchDiff).error == ProcessFailed(fetchDiff(HashOf(log[i])).error)
      && forall j :: 0 <= j < i ==> fetchDiff(HashOf(log[j])).Success?)
  {
    LogSyncWalks(startRef, endRef, includeKeys, fetchLog, fetchDiff, data, log);
    DiffWalkFails(log, fetchDiff);
  }

  /** A diff walk fails with the error of the first commit whose fetch fails. */
  lemma DiffWalkFails(log: seq<Commit>, fetchDiff: string -> Run)
    requires exists i :: 0 <= i < |log| && fetchDiff(HashOf(log[i])).Failure?
    ensures MapAll(log, WithDiff(fetchDiff)).Failure?
    ensures exists i :: (0 <= i < |log|
      && fetchDiff(HashOf(log[i])).Failure?
      && MapAll(log, WithDiff(fetchDiff)).error == ProcessFailed(fetchDiff(HashOf(log[i])).error)
      && forall j :: 0 <= j < i ==> fetchDiff(HashOf(log[j])).Success?)
  {
    var f := WithDiff(fetchDiff);
    var i :| 0 <= i < |log| && fetchDiff(HashOf(log[i])).Failure?;
    assert f(log[i]).Failure?;
    MapAllFailure(log, f);
    var k :| 0 <= k < |log| && f(log[k]) == Failure(MapAll(log, f).error)
      && forall j :: 0 <= j < k ==> f(log[j]).Success?;
    assert forall j :: 0 <= j < k ==> fetchDiff(HashOf(log[j])).Success?;
  }
}
