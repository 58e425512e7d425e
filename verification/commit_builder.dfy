/**
 * The record format shared by the `git log --format=...` string the library
 * builds and the parser that reads git's output back.
 *
 * One table (`Sources`) gives, for every commit attribute, the git
 * placeholder tokens to request and the builder that turns the returned
 * fields into the attribute's value.  The format string and the parser walk
 * the same ordered key list over that table, so each key consumes exactly the
 * fields its tokens produced.
 */
module CommitBuilder {
  import opened Wrappers
  import opened Errors
  import opened Text
  import opened OrderedSets

  /** ASCII record separator: ends the output of one commit. */
  const RecordSeparator: char := '\U{1E}'
  /** ASCII unit separator: precedes every field of a commit. */
  const UnitSeparator: char := '\U{1F}'

  datatype Attr =
    | FullHash | PartialHash | Author | AuthorTime | Committer | CommitTime | Subject | Body | Tags
    | Refs | FullBody | TreeHash | PartialTreeHash | ParentHashes | PartialParentHashes
    | GpgKey | GpgSigner | GpgStatus

  /** The property name under which an attribute appears on a commit object. */
  function Name(a: Attr): string {
    match a
    case FullHash => "fullHash"
    case PartialHash => "partialHash"
    case Author => "author"
    case AuthorTime => "authorTime"
    case Committer => "committer"
    case CommitTime => "commitTime"
    case Subject => "subject"
    case Body => "body"
    case Tags => "tags"
    case Refs => "refs"
    case FullBody => "fullBody"
    case TreeHash => "treeHash"
    case PartialTreeHash => "partialTreeHash"
    case ParentHashes => "parentHashes"
    case PartialParentHashes => "partialParentHashes"
    case GpgKey => "gpgKey"
    case GpgSigner => "gpgSigner"
    case GpgStatus => "gpgStatus"
  }

  /** Looks a requested key name up in the attribute table. */
  function AttrNamed(name: string): (r: Option<Attr>)
    ensures r.Some? ==> Name(r.value) == name
    ensures r.None? ==> forall a: Attr :: Name(a) != name
  {
    if name == "fullHash" then Some(FullHash)
    else if name == "partialHash" then Some(PartialHash)
    else if name == "author" then Some(Author)
    else if name == "authorTime" then Some(AuthorTime)
    else if name == "committer" then Some(Committer)
    else if name == "commitTime" then Some(CommitTime)
    else if name == "subject" then Some(Subject)
    else if name == "body" then Some(Body)
    else if name == "tags" then Some(Tags)
    else if name == "refs" then Some(Refs)
    else if name == "fullBody" then Some(FullBody)
    else if name == "treeHash" then Some(TreeHash)
    else if name == "partialTreeHash" then Some(PartialTreeHash)
    else if name == "parentHashes" then Some(ParentHashes)
    else if name == "partialParentHashes" then Some(PartialParentHashes)
    else if name == "gpgKey" then Some(GpgKey)
    else if name == "gpgSigner" then Some(GpgSigner)
    else if name == "gpgStatus" then Some(GpgStatus)
    else None
  }

  /** Every attribute is found under its own name, so no two attributes share a name. */
  lemma NameRoundTrip(a: Attr)
    ensures AttrNamed(Name(a)) == Some(a)
  {
  }


  /** How the fields requested for an attribute become its value. */
  datatype Builder = Verbatim | PersonPair | Date | Parents | TagList | RefList | Signer

  /** The number of fields a builder takes. */
  function Arity(b: Builder): nat {
    if b == PersonPair then 2 else 1
  }

  datatype Source = Source(builder: Builder, tokens: seq<string>)

  /** The attribute table: the placeholder tokens git is asked for, and the builder of each attribute. */
  function Sources(a: Attr): (src: Source)
    ensures |src.tokens| == Arity(src.builder)
  {
    match a
    case FullHash => Source(Verbatim, ["%H"])
    case PartialHash => Source(Verbatim, ["%h"])
    case Author => Source(PersonPair, ["%an", "%ae"])
    case AuthorTime => Source(Date, ["%at"])
    case Committer => Source(PersonPair, ["%cn", "%ce"])
    case CommitTime => Source(Date, ["%ct"])
    case Subject => Source(Verbatim, ["%s"])
    case Body => Source(Verbatim, ["%b"])
    case Tags => Source(TagList, ["%D"])
    case Refs => Source(RefList, ["%D"])
    case FullBody => Source(Verbatim, ["%B"])
    case TreeHash => Source(Verbatim, ["%T"])
    case PartialTreeHash => Source(Verbatim, ["%t"])
    case ParentHashes => Source(Parents, ["%P"])
    case PartialParentHashes => Source(Parents, ["%p"])
    case GpgKey => Source(Verbatim, ["%GK"])
    case GpgSigner => Source(Signer, ["%GS"])
    case GpgStatus => Source(Verbatim, ["%G?"])
  }

  /** The attributes every commit has, in the order git is asked for them. */
  const DefaultKeys: seq<Attr> := [FullHash, PartialHash, Author, AuthorTime, Committer, CommitTime, Subject, Body, Tags]

  datatype Person = Person(name: string, email: string)

  /** The value of one attribute on a commit object. */
  datatype Value =
    | Plain(text: string)
    | Who(person: Person)
    /** A `Date`, as milliseconds since the epoch; `None` is an invalid date (NaN). */
    | Time(millis: Option<int>)
    | Names(names: seq<string>)
    /** `null` when the signer field does not parse. */
    | MaybeSigner(signer: Option<Person>)

  /** The files a commit touches, by status. */
  datatype GitDiff = GitDiff(added: set<string>, deleted: set<string>, modified: set<string>, touched: set<string>)

  /** A commit object: the attributes that were assigned, and the diff attached afterwards when one was requested. */
  datatype Commit = Commit(attrs: map<Attr, Value>, diff: Option<GitDiff>)

  // ---- the builders ----

  /** `{ name, email }` from the two fields of a person. */
  function BuildPerson(name: string, email: string): (p: Person)
    ensures p.name == name && p.email == email
  {
    Person(name, email)
  }

  /** `new Date(parseInt(epoch, 10) * 1000)`: Unix seconds to milliseconds. */
  function BuildDate(epoch: string): (millis: Option<int>)
    ensures millis.Some? <==> |epoch| > 0 && IsDigit(epoch[0])
    ensures millis.Some? ==> millis.value >= 0 && millis.value % 1000 == 0
  {
    match ParseInt(epoch)
    case None => None
    case Some(seconds) => Some(seconds * 1000)
  }

  /** The timestamp git prints for a Unix time is read back as that time in milliseconds. */
  lemma BuildDateOfDecimal(seconds: nat)
    ensures BuildDate(Decimal(seconds)) == Some(seconds * 1000)
  {
    ParseIntDecimal(seconds);
  }

  /** `raw.split(' ')`: the parent hashes; a root commit's empty field gives `[""]`. */
  function BuildParents(raw: string): (parents: seq<string>)
    ensures |parents| >= 1
    ensures Join(parents, " ") == raw
    ensures forall k :: 0 <= k < |parents| ==> ' ' !in parents[k]
    ensures raw == "" ==> parents == [""]
  {
    JoinSplit(raw, " ");
    SplitPiecesWithout(raw, ' ');
    Split(raw, " ")
  }

  const TagPrefix: string := "tag: "

  /** The decoration entries that are tags, with the `tag: ` prefix removed, in order. */
  function TagNames(entries: seq<string>): seq<string> {
    if entries == [] then []
    else
      (if StartsWith(entries[0], TagPrefix) then [entries[0][|TagPrefix|..]] else [])
      + TagNames(entries[1..])
  }

  /** The decoration entries that are not tags, in order. */
  function OtherRefs(entries: seq<string>): seq<string> {
    if entries == [] then []
    else (if StartsWith(entries[0], TagPrefix) then [] else [entries[0]]) + OtherRefs(entries[1..])
  }

  /**
   * Tags and refs partition the decoration entries: every entry lands in
   * exactly one of them, tags being the entries with the `tag: ` prefix.
   */
  lemma {:induction false} DecorationPartition(entries: seq<string>)
    ensures |TagNames(entries)| + |OtherRefs(entries)| == |entries|
    ensures forall t :: t in TagNames(entries) <==> TagPrefix + t in entries
    ensures forall r :: r in OtherRefs(entries) <==> r in entries && !StartsWith(r, TagPrefix)
  {
    if entries != [] {
      var e, rest := entries[0], entries[1..];
      DecorationPartition(rest);
      assert entries == [e] + rest;
      forall t ensures t in TagNames(entries) <==> TagPrefix + t in entries {
        assert StartsWith(TagPrefix + t, TagPrefix) && (TagPrefix + t)[|TagPrefix|..] == t;
        if StartsWith(e, TagPrefix) {
          assert e == TagPrefix + e[|TagPrefix|..];
        }
      }
    }
  }

  /** Filtering distributes over concatenation: tags and refs keep the order of the entries. */
  lemma DecorationAppend(a: seq<string>, b: seq<string>)
    ensures TagNames(a + b) == TagNames(a) + TagNames(b)
    ensures OtherRefs(a + b) == OtherRefs(a) + OtherRefs(b)
  {
    TagNamesAppend(a, b);
    OtherRefsAppend(a, b);
  }

  lemma {:induction false} TagNamesAppend(a: seq<string>, b: seq<string>)
    ensures TagNames(a + b) == TagNames(a) + TagNames(b)
  {
    if a == [] {
      assert a + b == b;
    } else {
      var e, rest := a[0], a[1..];
      TagNamesAppend(rest, b);
      assert (a + b)[0] == e && (a + b)[1..] == rest + b;
      var tag := if StartsWith(e, TagPrefix) then [e[|TagPrefix|..]] else [];
      calc {
        TagNames(a + b);
        tag + TagNames(rest + b);
        tag + (TagNames(rest) + TagNames(b));
        (tag + TagNames(rest)) + TagNames(b);
      }
    }
  }

  lemma {:induction false} OtherRefsAppend(a: seq<string>, b: seq<string>)
    ensures OtherRefs(a + b) == OtherRefs(a) + OtherRefs(b)
  {
    if a == [] {
      assert a + b == b;
    } else {
      var e, rest := a[0], a[1..];
      OtherRefsAppend(rest, b);
      assert (a + b)[0] == e && (a + b)[1..] == rest + b;
      var ref := if StartsWith(e, TagPrefix) then [] else [e];
      calc {
        OtherRefs(a + b);
        ref + OtherRefs(rest + b);
        ref + (OtherRefs(rest) + OtherRefs(b));
        (ref + OtherRefs(rest)) + OtherRefs(b);
      }
    }
  }

  /** One entry is a tag, prefix removed, or a ref, never both. */
  lemma DecorationEntry(e: string)
    ensures StartsWith(e, TagPrefix) ==> TagNames([e]) == [e[|TagPrefix|..]] && OtherRefs([e]) == []
    ensures StartsWith(e, TagPrefix) ==> TagPrefix + TagNames([e])[0] == e
    ensures !StartsWith(e, TagPrefix) ==> TagNames([e]) == [] && OtherRefs([e]) == [e]
  {
    assert [e][1..] == [];
    if StartsWith(e, TagPrefix) {
      assert e == e[..|TagPrefix|] + e[|TagPrefix|..];
    }
  }

  /**
   * `ix` lists, in increasing order, exactly the positions of the entries
   * that carry the `tag: ` prefix (`tagged`) or that do not (`!tagged`).
   */
  predicate Positions(entries: seq<string>, ix: seq<nat>, tagged: bool) {
    && (forall k :: 0 <= k < |ix| ==> ix[k] < |entries|)
    && (forall k, l :: 0 <= k < l < |ix| ==> ix[k] < ix[l])
    && (forall i :: 0 <= i < |entries| ==> (i in ix <==> StartsWith(entries[i], TagPrefix) == tagged))
  }

  /** Appending an entry appends its position when it is of the kind listed. */
  lemma PositionsSnoc(init: seq<string>, e: string, ix: seq<nat>, tagged: bool)
    requires Positions(init, ix, tagged)
    ensures StartsWith(e, TagPrefix) == tagged ==> Positions(init + [e], ix + [|init|], tagged)
    ensures StartsWith(e, TagPrefix) != tagged ==> Positions(init + [e], ix, tagged)
  {
    var entries, n := init + [e], |init|;
    assert n !in ix;
    forall i | 0 <= i < n ensures entries[i] == init[i] && (i in ix + [n] <==> i in ix) {
    }
  }

  /** `tags` are the entries at the tag positions `ix`, in that order, each without its `tag: ` prefix. */
  predicate TagsAt(entries: seq<string>, tags: seq<string>, ix: seq<nat>) {
    && Positions(entries, ix, true)
    && |ix| == |tags|
    && forall k :: 0 <= k < |ix| ==> TagPrefix + tags[k] == entries[ix[k]]
  }

  /** `refs` are the entries at the other positions `ix`, in that order. */
  predicate RefsAt(entries: seq<string>, refs: seq<string>, ix: seq<nat>) {
    && Positions(entries, ix, false)
    && |ix| == |refs|
    && forall k :: 0 <= k < |ix| ==> refs[k] == entries[ix[k]]
  }

  /** The tags are the tag entries in the order they appear, repeats kept. */
  lemma {:induction false} TagOrder(entries: seq<string>)
    ensures exists ix :: TagsAt(entries, TagNames(entries), ix)
  {
    if entries == [] {
      var ix: seq<nat> := [];
      assert TagsAt(entries, TagNames(entries), ix);
    } else {
      var init, e := entries[..|entries| - 1], entries[|entries| - 1];
      assert entries == init + [e];
      TagOrder(init);
      var ix :| TagsAt(init, TagNames(init), ix);
      TagsSnoc(init, e, ix);
    }
  }

  lemma TagsSnoc(init: seq<string>, e: string, ix: seq<nat>)
    requires TagsAt(init, TagNames(init), ix)
    ensures TagsAt(init + [e], TagNames(init + [e]), if StartsWith(e, TagPrefix) then ix + [|init|] else ix)
  {
    DecorationAppend(init, [e]);
    DecorationEntry(e);
    TagsAtSnoc(init, e, TagNames(init), ix);
  }

  lemma TagsAtSnoc(init: seq<string>, e: string, tags: seq<string>, ix: seq<nat>)
    requires TagsAt(init, tags, ix)
    ensures StartsWith(e, TagPrefix) ==> TagsAt(init + [e], tags + [e[|TagPrefix|..]], ix + [|init|])
    ensures !StartsWith(e, TagPrefix) ==> TagsAt(init + [e], tags, ix)
  {
    PositionsSnoc(init, e, ix, true);
    if StartsWith(e, TagPrefix) {
      assert TagPrefix + e[|TagPrefix|..] == e;
    }
    var entries := init + [e];
    forall k | 0 <= k < |ix| ensures entries[ix[k]] == init[ix[k]] {
    }
  }

  /** The refs are the other entries in the order they appear, repeats kept. */
  lemma {:induction false} RefOrder(entries: seq<string>)
    ensures exists ix :: RefsAt(entries, OtherRefs(entries), ix)
  {
    if entries == [] {
      var ix: seq<nat> := [];
      assert RefsAt(entries, OtherRefs(entries), ix);
    } else {
      var init, e := entries[..|entries| - 1], entries[|entries| - 1];
      assert entries == init + [e];
      RefOrder(init);
      var ix :| RefsAt(init, OtherRefs(init), ix);
      RefsSnoc(init, e, ix);
    }
  }

  lemma RefsSnoc(init: seq<string>, e: string, ix: seq<nat>)
    requires RefsAt(init, OtherRefs(init), ix)
    ensures RefsAt(init + [e], OtherRefs(init + [e]), if StartsWith(e, TagPrefix) then ix else ix + [|init|])
  {
    DecorationAppend(init, [e]);
    DecorationEntry(e);
    RefsAtSnoc(init, e, OtherRefs(init), ix);
  }

  lemma RefsAtSnoc(init: seq<string>, e: string, refs: seq<string>, ix: seq<nat>)
    requires RefsAt(init, refs, ix)
    ensures StartsWith(e, TagPrefix) ==> RefsAt(init + [e], refs, ix)
    ensures !StartsWith(e, TagPrefix) ==> RefsAt(init + [e], refs + [e], ix + [|init|])
  {
    PositionsSnoc(init, e, ix, false);
    var entries := init + [e];
    forall k | 0 <= k < |ix| ensures entries[ix[k]] == init[ix[k]] {
    }
  }

  /**
   * `%D` split on `", "`, keeping the entries prefixed `tag: `, prefix
   * removed: the tag entries in their order, repeats kept.
   */
  function BuildTags(raw: string): (tags: seq<string>)
    ensures forall t :: t in tags <==> TagPrefix + t in Split(raw, ", ")
    ensures exists ix :: TagsAt(Split(raw, ", "), tags, ix)
  {
    DecorationPartition(Split(raw, ", "));
    TagOrder(Split(raw, ", "));
    TagNames(Split(raw, ", "))
  }

  /** `%D` split on `", "`, keeping the entries not prefixed `tag: `, in their order, repeats kept. */
  function BuildRefs(raw: string): (refs: seq<string>)
    ensures forall r :: r in refs <==> r in Split(raw, ", ") && !StartsWith(r, TagPrefix)
    ensures |BuildTags(raw)| + |refs| == |Split(raw, ", ")|
    ensures exists ix :: RefsAt(Split(raw, ", "), refs, ix)
  {
    DecorationPartition(Split(raw, ", "));
    RefOrder(Split(raw, ", "));
    OtherRefs(Split(raw, ", "))
  }

  /** The characters JavaScript's `.` does not match. */
  predicate IsLineTerminator(c: char) {
    c == '\n' || c == '\r' || c == '\U{2028}' || c == '\U{2029}'
  }

  predicate OnOneLine(s: string) {
    forall i :: 0 <= i < |s| ==> !IsLineTerminator(s[i])
  }

  /**
   * `/^(.*?) <(.*?)>/` matches `s` with the name `s[..n]` and the email
   * `s[n + 2..j]`.
   */
  predicate SignerAt(s: string, n: nat, j: nat) {
    n + 2 <= j < |s| && OnOneLine(s[..n]) && s[n..n + 2] == " <" && OnOneLine(s[n + 2..j]) && s[j] == '>'
  }

  /** The first `>` at or after `k`, provided no line terminator comes first. */
  function CloseFrom(s: string, k: nat): (r: Option<nat>)
    requires k <= |s|
    ensures r.Some? ==> k <= r.value < |s| && s[r.value] == '>' && OnOneLine(s[k..r.value])
    ensures r.Some? ==> forall j :: k <= j < r.value ==> s[j] != '>'
    ensures r.None? ==> forall j :: k <= j < |s| && s[j] == '>' ==> !OnOneLine(s[k..j])
    decreases |s| - k
  {
    if k == |s| || IsLineTerminator(s[k]) then None
    else if s[k] == '>' then Some(k)
    else
      CloseFrom(s, k + 1)
  }

  /** The lazy regular-expression search for a signer, trying name lengths from `n` upwards. */
  function SignerFrom(s: string, n: nat): (r: Option<Person>)
    requires n <= |s|
    decreases |s| - n
  {
    if n + 2 > |s| then None
    else if s[n..n + 2] == " <" && CloseFrom(s, n + 2).Some? then
      Some(Person(s[..n], s[n + 2..CloseFrom(s, n + 2).value]))
    else if IsLineTerminator(s[n]) then None
    else SignerFrom(s, n + 1)
  }

  /**
   * When the search finds `p`, the name is the shortest of at least `n`
   * characters that starts a match, and the email the shortest for it.
   */
  lemma {:induction false} SignerFromFound(s: string, n: nat, p: Person)
    requires n <= |s| && OnOneLine(s[..n]) && SignerFrom(s, n) == Some(p)
    ensures n <= |p.name| && SignerAt(s, |p.name|, |p.name| + 2 + |p.email|)
    ensures p.name == s[..|p.name|] && p.email == s[|p.name| + 2..|p.name| + 2 + |p.email|]
    ensures forall m: nat, j: nat :: n <= m < |p.name| ==> !SignerAt(s, m, j)
    ensures forall j: nat :: j < |p.name| + 2 + |p.email| ==> !SignerAt(s, |p.name|, j)
    decreases |s| - n
  {
    if s[n..n + 2] == " <" && CloseFrom(s, n + 2).Some? {
      SignerFound(s, n, CloseFrom(s, n + 2).value);
    } else {
      NoSignerAt(s, n);
      OnOneLineExtend(s, n);
      SignerFromFound(s, n + 1, p);
    }
  }

  /** The search finds nothing exactly when no name of at least `n` characters starts a match. */
  lemma {:induction false} SignerFromNone(s: string, n: nat)
    requires n <= |s| && OnOneLine(s[..n]) && SignerFrom(s, n).None?
    ensures forall m: nat, j: nat :: n <= m ==> !SignerAt(s, m, j)
    decreases |s| - n
  {
    if n + 2 > |s| {
    } else if IsLineTerminator(s[n]) {
      NoSignerPastBreak(s, n);
    } else {
      NoSignerAt(s, n);
      OnOneLineExtend(s, n);
      SignerFromNone(s, n + 1);
    }
  }

  /** The first `>` after ` <` closes the shortest email for the name `s[..n]`. */
  lemma SignerFound(s: string, n: nat, j: nat)
    requires n + 2 <= |s| && OnOneLine(s[..n]) && s[n..n + 2] == " <" && CloseFrom(s, n + 2) == Some(j)
    ensures SignerAt(s, n, j)
    ensures forall k: nat :: k < j ==> !SignerAt(s, n, k)
  {
  }

  /** No match takes the name `s[..n]` when ` <` does not follow it or no `>` closes it on the line. */
  lemma NoSignerAt(s: string, n: nat)
    requires n + 2 <= |s| && !(s[n..n + 2] == " <" && CloseFrom(s, n + 2).Some?)
    ensures forall j: nat :: !SignerAt(s, n, j)
  {
  }

  /** No name may run across a line terminator. */
  lemma NoSignerPastBreak(s: string, n: nat)
    requires n + 2 <= |s| && IsLineTerminator(s[n])
    ensures forall m: nat, j: nat :: n <= m ==> !SignerAt(s, m, j)
  {
  }

  lemma OnOneLineExtend(s: string, n: nat)
    requires n < |s| && OnOneLine(s[..n]) && !IsLineTerminator(s[n])
    ensures OnOneLine(s[..n + 1])
  {
    assert forall i :: 0 <= i < n + 1 ==> s[..n + 1][i] == s[i];
  }

  /** A match splits the field into the name, ` <`, the email, `>` and the rest. */
  lemma SignerSplice(s: string, p: Person)
    requires SignerAt(s, |p.name|, |p.name| + 2 + |p.email|)
    requires p.name == s[..|p.name|] && p.email == s[|p.name| + 2..|p.name| + 2 + |p.email|]
    ensures s == p.name + " <" + p.email + ">" + s[|p.name| + 3 + |p.email|..]
  {
    var n, j := |p.name|, |p.name| + 2 + |p.email|;
    assert s == s[..n] + s[n..n + 2] + s[n + 2..j] + [s[j]] + s[j + 1..];
  }

  /** `raw.match(/^(.*?) <(.*?)>/)`: the signer's name and email, or `null` when the pattern does not match. */
  function BuildSigner(raw: string): (signer: Option<Person>)
    ensures signer.Some? ==> SignerAt(raw, |signer.value.name|, |signer.value.name| + 2 + |signer.value.email|)
    ensures signer.Some? ==> raw == signer.value.name + " <" + signer.value.email + ">" + raw[|signer.value.name| + 3 + |signer.value.email|..]
    ensures signer.Some? ==> forall m: nat, j: nat :: m < |signer.value.name| ==> !SignerAt(raw, m, j)
    ensures signer.Some? ==> forall j: nat :: j < |signer.value.name| + 2 + |signer.value.email| ==> !SignerAt(raw, |signer.value.name|, j)
    ensures signer.None? <==> forall m: nat, j: nat :: !SignerAt(raw, m, j)
  {
    var r := SignerFrom(raw, 0);
    if r.Some? then
      SignerFromFound(raw, 0, r.value);
      SignerSplice(raw, r.value);
      r
    else
      SignerFromNone(raw, 0);
      r
  }

  /** The value of attribute `a` from the fields read for it. */
  /**
   * One attribute's value from its fields: the attribute's builder applied
   * to them, or the one field itself when it has none.
   */
  function Build(a: Attr, args: seq<string>): (v: Value)
    requires |args| == |Sources(a).tokens|
    ensures v.Plain? <==> Sources(a).builder == Verbatim
    ensures v.Plain? ==> v.text == args[0]
    ensures v.Who? <==> Sources(a).builder == PersonPair
    ensures v.Who? ==> v.person.name == args[0] && v.person.email == args[1]
    ensures v.Time? <==> Sources(a).builder == Date
    ensures v.Names? <==> Sources(a).builder in {Parents, TagList, RefList}
    ensures v.MaybeSigner? <==> Sources(a).builder == Signer
  {
    match Sources(a).builder
    case Verbatim => Plain(args[0])
    case PersonPair => Who(BuildPerson(args[0], args[1]))
    case Date => Time(BuildDate(args[0]))
    case Parents => Names(BuildParents(args[0]))
    case TagList => Names(BuildTags(args[0]))
    case RefList => Names(BuildRefs(args[0]))
    case Signer => MaybeSigner(BuildSigner(args[0]))
  }

  // ---- the key list and the format string ----

  /** The 9 default keys, then the optional keys, each key once, in first-mention order. */
  function KeyList(optionalKeys: seq<Attr>): seq<Attr> {
    Dedup(DefaultKeys + optionalKeys)
  }

  /** The key list starts with the defaults, then the new optional keys in request order, without repeats. */
  lemma KeyListShape(optionalKeys: seq<Attr>)
    ensures |KeyList(optionalKeys)| >= |DefaultKeys|
    ensures KeyList(optionalKeys)[..|DefaultKeys|] == DefaultKeys
    ensures KeyList(optionalKeys)[|DefaultKeys|..] == Dedup(Unlisted(optionalKeys, DefaultKeys))
    ensures NoDup(KeyList(optionalKeys))
    ensures forall k :: k in KeyList(optionalKeys) <==> k in DefaultKeys || k in optionalKeys
  {
    DedupAppend(DefaultKeys, optionalKeys);
    DedupOfNoDup(DefaultKeys);
    DedupFacts(DefaultKeys + optionalKeys);
  }

  /** The number of fields the key list asks git for. */
  function TokenCount(keys: seq<Attr>): nat {
    if keys == [] then 0 else |Sources(keys[0]).tokens| + TokenCount(keys[1..])
  }

  /** The placeholder tokens of all keys, key by key. */
  function FlatTokens(keys: seq<Attr>): (tokens: seq<string>)
    ensures |tokens| == TokenCount(keys)
  {
    if keys == [] then [] else Sources(keys[0]).tokens + FlatTokens(keys[1..])
  }

  lemma {:induction false} FlatTokensAppend(a: seq<Attr>, b: seq<Attr>)
    ensures FlatTokens(a + b) == FlatTokens(a) + FlatTokens(b)
    ensures TokenCount(a + b) == TokenCount(a) + TokenCount(b)
  {
    FlatTokensConcat(a, b);
    assert |FlatTokens(a + b)| == |FlatTokens(a)| + |FlatTokens(b)|;
  }

  lemma FlatTokensCons(k: Attr, rest: seq<Attr>, keys: seq<Attr>)
    requires keys == [k] + rest
    ensures FlatTokens(keys) == Sources(k).tokens + FlatTokens(rest)
  {
    assert keys[0] == k && keys[1..] == rest;
  }

  lemma AppendNext(base: seq<string>, more: seq<string>, j: nat)
    requires j < |more|
    ensures base + more[..j] + [more[j]] == base + more[..j + 1]
  {
    assert more[..j + 1] == more[..j] + [more[j]];
  }

  lemma FlatTokensSnoc(keys: seq<Attr>, i: nat)
    requires i < |keys|
    ensures FlatTokens(keys[..i + 1]) == FlatTokens(keys[..i]) + Sources(keys[i]).tokens
  {
    var before, at := keys[..i], [keys[i]];
    assert keys[..i + 1] == before + at;
    FlatTokensAppend(before, at);
    FlatTokensCons(keys[i], [], at);
    assert Sources(keys[i]).tokens + [] == Sources(keys[i]).tokens;
  }

  lemma {:induction false} TokenCountAppend(a: seq<Attr>, b: seq<Attr>)
    ensures TokenCount(a + b) == TokenCount(a) + TokenCount(b)
  {
    if a == [] {
      assert a + b == b;
    } else {
      TokenCountAppend(a[1..], b);
      assert (a + b)[0] == a[0];
      assert (a + b)[1..] == a[1..] + b;
    }
  }

  lemma ConcatAssoc(x: seq<string>, y: seq<string>, z: seq<string>)
    ensures x + (y + z) == x + y + z
  {
  }

  lemma {:induction false} FlatTokensConcat(a: seq<Attr>, b: seq<Attr>)
    ensures FlatTokens(a + b) == FlatTokens(a) + FlatTokens(b)
  {
    if a == [] {
      assert a + b == b;
    } else {
      var head, rest := a[0], a[1..];
      var s := Sources(head).tokens;
      calc {
        FlatTokens(a + b);
        { FlatTokensCons(head, rest + b, a + b); }
        s + FlatTokens(rest + b);
        { FlatTokensConcat(rest, b); }
        s + (FlatTokens(rest) + FlatTokens(b));
        { ConcatAssoc(s, FlatTokens(rest), FlatTokens(b)); }
        s + FlatTokens(rest) + FlatTokens(b);
        { FlatTokensCons(head, rest, a); }
        FlatTokens(a) + FlatTokens(b);
      }
    }
  }



  /** The format string: a unit separator before every token and a record separator at the end. */
  function FormatString(keys: seq<Attr>): string {
    [UnitSeparator] + Join(FlatTokens(keys), [UnitSeparator]) + [RecordSeparator]
  }

  /** The generator `placeholderTokens`: every token of every key, in key order. */
  method PlaceholderTokens(keys: seq<Attr>) returns (tokens: seq<string>)
    ensures tokens == FlatTokens(keys)
  {
    tokens := [];
    for i := 0 to |keys|
      invariant tokens == FlatTokens(keys[..i])
    {
      var source := Sources(keys[i]);
      for j := 0 to |source.tokens|
        invariant tokens == FlatTokens(keys[..i]) + source.tokens[..j]
      {
        AppendNext(FlatTokens(keys[..i]), source.tokens, j);
        tokens := tokens + [source.tokens[j]];
      }
      assert source.tokens[..|source.tokens|] == source.tokens;
      FlatTokensSnoc(keys, i);
    }
    assert keys[..|keys|] == keys;
  }

  // ---- the parser ----

  /** The index of the first field that key `j` reads. */
  function Offset(keys: seq<Attr>, j: nat): nat
    requires j <= |keys|
  {
    TokenCount(keys[..j])
  }

  lemma OffsetStep(keys: seq<Attr>, j: nat)
    requires j < |keys|
    ensures Offset(keys, j) + |Sources(keys[j]).tokens| == Offset(keys, j + 1) <= TokenCount(keys)
  {
    var before, at, after := keys[..j], [keys[j]], keys[j + 1..];
    assert keys[..j + 1] == before + at;
    assert keys == before + at + after;
    TokenCountAppend(before, at);
    TokenCountAppend(before + at, after);
    TokenCountSingle(keys[j]);
  }

  lemma TokenCountSingle(k: Attr)
    ensures TokenCount([k]) == |Sources(k).tokens|
  {
    assert [k][1..] == [];
  }

  lemma OffsetCons(keys: seq<Attr>, j: nat)
    requires 1 <= j <= |keys|
    ensures Offset(keys, j) == |Sources(keys[0]).tokens| + Offset(keys[1..], j - 1)
  {
    assert keys[..j][1..] == keys[1..][..j - 1];
  }

  /** The fields that key `j` of the list reads from a record. */
  function FieldsOfKey(keys: seq<Attr>, fields: seq<string>, j: nat): (args: seq<string>)
    requires j < |keys| && |fields| >= TokenCount(keys)
    ensures |args| == |Sources(keys[j]).tokens|
  {
    OffsetStep(keys, j);
    fields[Offset(keys, j)..Offset(keys, j + 1)]
  }

  /**
   * The token list and the parser's field walk agree: the fields key `j`
   * reads are the positions of the tokens key `j` asked for.
   */
  lemma TokensAlign(keys: seq<Attr>, j: nat)
    requires j < |keys|
    ensures |FlatTokens(keys)| == TokenCount(keys)
    ensures FieldsOfKey(keys, FlatTokens(keys), j) == Sources(keys[j]).tokens
  {
    var before, at, after := keys[..j], [keys[j]], keys[j + 1..];
    assert keys[..j + 1] == before + at;
    assert keys == before + at + after;
    FlatTokensAppend(before, at);
    FlatTokensAppend(before + at, after);
    FlatTokensCons(keys[j], [], at);
    assert FlatTokens(at) == Sources(keys[j]).tokens;
    OffsetStep(keys, j);
    SliceMiddle(FlatTokens(before), FlatTokens(at), FlatTokens(after));
  }

  lemma SliceMiddle(x: seq<string>, y: seq<string>, z: seq<string>)
    ensures (x + y + z)[|x|..|x| + |y|] == y
  {
  }


  /** The loop of `buildCommit`: each key in turn shifts its fields off the front and assigns its value. */
  function Consume(keys: seq<Attr>, fields: seq<string>, commit: map<Attr, Value>): Result<map<Attr, Value>, Error>
    decreases |keys|
  {
    if keys == [] then Success(commit)
    else
      var n := |Sources(keys[0]).tokens|;
      if |fields| < n then Failure(ShortRecord)
      else Consume(keys[1..], fields[n..], commit[keys[0] := Build(keys[0], fields[..n])])
  }

  /** The walk succeeds exactly when the record has at least as many fields as the keys have tokens. */
  lemma {:induction false} ConsumeSucceeds(keys: seq<Attr>, fields: seq<string>, commit: map<Attr, Value>)
    ensures Consume(keys, fields, commit).Success? <==> |fields| >= TokenCount(keys)
    ensures Consume(keys, fields, commit).Failure? ==> Consume(keys, fields, commit).error == ShortRecord
    decreases |keys|
  {
    if keys != [] {
      var n := |Sources(keys[0]).tokens|;
      if |fields| >= n {
        ConsumeSucceeds(keys[1..], fields[n..], commit[keys[0] := Build(keys[0], fields[..n])]);
      }
    }
  }

  /** The walk assigns every key of the list from exactly its own fields and leaves other entries alone. */
  lemma {:induction false} ConsumeAssigns(keys: seq<Attr>, fields: seq<string>, commit: map<Attr, Value>)
    requires NoDup(keys) && |fields| >= TokenCount(keys)
    ensures Consume(keys, fields, commit).Success?
    ensures forall k :: k in Consume(keys, fields, commit).value <==> k in commit || k in keys
    ensures forall k :: k in commit && k !in keys ==> Consume(keys, fields, commit).value[k] == commit[k]
    ensures forall j :: 0 <= j < |keys| ==> Consume(keys, fields, commit).value[keys[j]] == Build(keys[j], FieldsOfKey(keys, fields, j))
    decreases |keys|
  {
    ConsumeSucceeds(keys, fields, commit);
    if keys != [] {
      var k0, rest := keys[0], keys[1..];
      var n := |Sources(k0).tokens|;
      var commit' := commit[k0 := Build(k0, fields[..n])];
      assert NoDup(rest);
      ConsumeAssigns(rest, fields[n..], commit');
      var m := Consume(keys, fields, commit).value;
      assert m == Consume(rest, fields[n..], commit').value;
      assert k0 !in rest;
      OffsetStep(keys, 0);
      assert keys[..0] == [];
      assert m[k0] == Build(k0, FieldsOfKey(keys, fields, 0));
      forall j | 1 <= j < |keys| ensures m[keys[j]] == Build(keys[j], FieldsOfKey(keys, fields, j)) {
        FieldsOfKeyCons(keys, fields, j);
      }
    }
  }

  /** The fields of key `j` are those of key `j - 1` of the rest, once the first key has taken its own. */
  lemma FieldsOfKeyCons(keys: seq<Attr>, fields: seq<string>, j: nat)
    requires 1 <= j < |keys| && |fields| >= TokenCount(keys)
    ensures |fields[|Sources(keys[0]).tokens|..]| >= TokenCount(keys[1..])
    ensures FieldsOfKey(keys, fields, j) == FieldsOfKey(keys[1..], fields[|Sources(keys[0]).tokens|..], j - 1)
  {
    var rest, n := keys[1..], |Sources(keys[0]).tokens|;
    assert TokenCount(keys) == n + TokenCount(rest);
    var lo, hi := Offset(rest, j - 1), Offset(rest, j);
    OffsetCons(keys, j);
    OffsetCons(keys, j + 1);
    OffsetStep(rest, j - 1);
    assert FieldsOfKey(keys, fields, j) == fields[n + lo..n + hi];
    assert FieldsOfKey(rest, fields[n..], j - 1) == fields[n..][lo..hi];
    SliceOfSuffix(fields, n, lo, hi);
  }

  lemma SliceOfSuffix(fields: seq<string>, n: nat, lo: nat, hi: nat)
    requires n <= |fields| && lo <= hi <= |fields| - n
    ensures fields[n..][lo..hi] == fields[n + lo..n + hi]
  {
  }

  /** The attributes of a record whose fields suffice: every key assigned from its own fields. */
  function Decode(keys: seq<Attr>, fields: seq<string>): (attrs: map<Attr, Value>)
    requires |fields| >= TokenCount(keys)
    ensures NoDup(keys) ==> forall k :: k in attrs <==> k in keys
    ensures NoDup(keys) ==> forall j :: 0 <= j < |keys| ==> attrs[keys[j]] == Build(keys[j], FieldsOfKey(keys, fields, j))
  {
    ConsumeSucceeds(keys, fields, map[]);
    if NoDup(keys) then
      ConsumeAssigns(keys, fields, map[]);
      Consume(keys, fields, map[]).value
    else Consume(keys, fields, map[]).value
  }

  /**
   * Each key reads the fields at its own offset: a key without a builder
   * keeps its one field as it is, a person key pairs a name field with an
   * email field, a time key reads epoch seconds.
   */
  lemma DecodeAt(keys: seq<Attr>, fields: seq<string>, j: nat)
    requires NoDup(keys) && j < |keys| && |fields| >= TokenCount(keys)
    ensures Offset(keys, j) + |Sources(keys[j]).tokens| <= |fields|
    ensures var o, v := Offset(keys, j), Decode(keys, fields)[keys[j]];
      match Sources(keys[j]).builder
      case Verbatim => v == Plain(fields[o])
      case PersonPair => v == Who(Person(fields[o], fields[o + 1]))
      case Date => v == Time(BuildDate(fields[o]))
      case Parents => v == Names(BuildParents(fields[o]))
      case TagList => v == Names(BuildTags(fields[o]))
      case RefList => v == Names(BuildRefs(fields[o]))
      case Signer => v == MaybeSigner(BuildSigner(fields[o]))
  {
    OffsetStep(keys, j);
    var o, k := Offset(keys, j), keys[j];
    assert Decode(keys, fields)[k] == Build(k, fields[o..o + |Sources(k).tokens|]);
    BuildAt(k, fields, o);
  }

  /** The value built from the fields at offset `o`, builder by builder. */
  lemma BuildAt(a: Attr, fields: seq<string>, o: nat)
    requires o + |Sources(a).tokens| <= |fields|
    ensures var v := Build(a, fields[o..o + |Sources(a).tokens|]);
      match Sources(a).builder
      case Verbatim => v == Plain(fields[o])
      case PersonPair => v == Who(Person(fields[o], fields[o + 1]))
      case Date => v == Time(BuildDate(fields[o]))
      case Parents => v == Names(BuildParents(fields[o]))
      case TagList => v == Names(BuildTags(fields[o]))
      case RefList => v == Names(BuildRefs(fields[o]))
      case Signer => v == MaybeSigner(BuildSigner(fields[o]))
  {
  }


  /** `rawData.split(UNIT_SEPARATOR).slice(1)`: the fields of one record. */
  function FieldsOf(rawData: string): seq<string> {
    Split(rawData, [UnitSeparator])[1..]
  }

  /** `buildCommit`. */
  function ParseRecord(keys: seq<Attr>, rawData: string): Result<Commit, Error> {
    match Consume(keys, FieldsOf(rawData), map[])
    case Success(attrs) => Success(Commit(attrs, None))
    case Failure(e) => Failure(e)
  }

  /**
   * A record is read exactly when it has at least as many fields as the keys
   * have tokens, and then into the decoded attributes, with no diff yet.
   */
  lemma ParseRecordDecodes(keys: seq<Attr>, rawData: string)
    ensures ParseRecord(keys, rawData).Success? <==> |FieldsOf(rawData)| >= TokenCount(keys)
    ensures ParseRecord(keys, rawData).Failure? ==> ParseRecord(keys, rawData).error == ShortRecord
    ensures ParseRecord(keys, rawData).Success? ==> ParseRecord(keys, rawData).value == Commit(Decode(keys, FieldsOf(rawData)), None)
  {
    ConsumeSucceeds(keys, FieldsOf(rawData), map[]);
  }

  /** `records.map(buildCommit)`, stopping at the first record that fails. */
  function ParseRecords(keys: seq<Attr>, records: seq<string>): Result<seq<Commit>, Error> {
    if records == [] then Success([])
    else
      match ParseRecord(keys, records[0])
      case Failure(e) => Failure(e)
      case Success(c) => Prefixed([c], ParseRecords(keys, records[1..]))
  }

  function Prefixed(commits: seq<Commit>, r: Result<seq<Commit>, Error>): Result<seq<Commit>, Error> {
    match r
    case Success(cs) => Success(commits + cs)
    case Failure(e) => Failure(e)
  }

  /** One record more: its commit goes in front of the rest, or its failure is the result. */
  lemma ParseRecordsStep(keys: seq<Attr>, records: seq<string>, i: nat)
    requires i < |records|
    ensures ParseRecords(keys, records[i..]) ==
      match ParseRecord(keys, records[i])
      case Failure(e) => Failure(e)
      case Success(c) => Prefixed([c], ParseRecords(keys, records[i + 1..]))
  {
    assert records[i..][0] == records[i];
    assert records[i..][1..] == records[i + 1..];
  }

  lemma PrefixedAssoc(a: seq<Commit>, b: seq<Commit>, r: Result<seq<Commit>, Error>)
    ensures Prefixed(a, Prefixed(b, r)) == Prefixed(a + b, r)
  {
    if r.Success? {
      assert a + (b + r.value) == a + b + r.value;
    }
  }

  lemma PrefixedEmpty(r: Result<seq<Commit>, Error>)
    ensures Prefixed([], r) == r
  {
    if r.Success? {
      assert [] + r.value == r.value;
    }
  }

  /** `buildAll`: the segments before the last record separator, each parsed as a record. */
  function ParseLog(keys: seq<Attr>, rawData: string): Result<seq<Commit>, Error> {
    var segments := Split(rawData, [RecordSeparator]);
    ParseRecords(keys, segments[..|segments| - 1])
  }

  // ---- the round trip ----

  /** Text that cannot be mistaken for a delimiter. */
  predicate Clean(s: string) {
    UnitSeparator !in s && RecordSeparator !in s
  }

  /** What git prints for one commit before its record separator: a lead, then a unit separator before each value. */
  function RecordText(lead: string, values: seq<string>): string {
    lead + [UnitSeparator] + Join(values, [UnitSeparator])
  }

  function Records(leads: seq<string>, values: seq<seq<string>>): (records: seq<string>)
    requires |leads| == |values|
    ensures |records| == |leads|
  {
    seq(|leads|, i requires 0 <= i < |leads| => RecordText(leads[i], values[i]))
  }

  lemma {:induction false} JoinClean(parts: seq<string>)
    requires forall k :: 0 <= k < |parts| ==> Clean(parts[k])
    ensures RecordSeparator !in Join(parts, [UnitSeparator])
  {
    if |parts| > 1 {
      JoinClean(parts[1..]);
    }
  }

  /** The fields of a printed record are the values printed. */
  lemma FieldsOfRecordText(lead: string, values: seq<string>)
    requires Clean(lead) && |values| >= 1
    requires forall k :: 0 <= k < |values| ==> Clean(values[k])
    ensures FieldsOf(RecordText(lead, values)) == values
    ensures RecordSeparator !in RecordText(lead, values)
  {
    SplitCons(lead, UnitSeparator, Join(values, [UnitSeparator]));
    SplitJoin(values, UnitSeparator);
    JoinClean(values);
  }

  lemma {:induction false} ParseRecordsEach(keys: seq<Attr>, records: seq<string>, commits: seq<Commit>)
    requires |records| == |commits|
    requires forall i :: 0 <= i < |records| ==> ParseRecord(keys, records[i]) == Success(commits[i])
    ensures ParseRecords(keys, records) == Success(commits)
  {
    if records != [] {
      ParseRecordsEach(keys, records[1..], commits[1..]);
      assert commits == [commits[0]] + commits[1..];
    }
  }

  /**
   * Round trip: git output holding K records, each terminated by a record
   * separator and each with exactly the fields the keys asked for, parses
   * into exactly K commits, the i-th decoded from the i-th record's values.
   * Whatever follows the last record separator is never parsed.
   */
  lemma ParseLogRoundTrip(keys: seq<Attr>, leads: seq<string>, values: seq<seq<string>>, tail: string)
    requires |leads| == |values| && TokenCount(keys) >= 1
    requires forall i :: 0 <= i < |leads| ==> Clean(leads[i]) && |values[i]| == TokenCount(keys)
    requires forall i, k :: 0 <= i < |values| && 0 <= k < |values[i]| ==> Clean(values[i][k])
    requires RecordSeparator !in tail
    ensures ParseLog(keys, Terminated(Records(leads, values), [RecordSeparator]) + tail)
         == Success(seq(|values|, i requires 0 <= i < |values| => Commit(Decode(keys, values[i]), None)))
  {
    var records := Records(leads, values);
    var commits := seq(|values|, i requires 0 <= i < |values| => Commit(Decode(keys, values[i]), None));
    forall i | 0 <= i < |records|
      ensures RecordSeparator !in records[i]
      ensures ParseRecord(keys, records[i]) == Success(commits[i])
    {
      FieldsOfRecordText(leads[i], values[i]);
      ConsumeSucceeds(keys, values[i], map[]);
    }
    SplitTerminated(records, RecordSeparator, tail);
    SplitWithout(tail, RecordSeparator);
    var segments := Split(Terminated(records, [RecordSeparator]) + tail, [RecordSeparator]);
    assert segments[..|segments| - 1] == records;
    ParseRecordsEach(keys, records, commits);
  }

  lemma {:induction false} FlatTokensClean(keys: seq<Attr>)
    ensures forall k :: 0 <= k < |FlatTokens(keys)| ==> Clean(FlatTokens(keys)[k])
  {
    if keys != [] {
      FlatTokensClean(keys[1..]);
      var src := Sources(keys[0]);
      assert forall k :: 0 <= k < |src.tokens| ==> Clean(src.tokens[k]);
    }
  }

  lemma FormatStringIsRecord(keys: seq<Attr>)
    ensures FormatString(keys) == Terminated(Records([""], [FlatTokens(keys)]), [RecordSeparator]) + ""
  {
    var body := Join(FlatTokens(keys), [UnitSeparator]);
    var record := RecordText("", FlatTokens(keys));
    calc {
      Terminated(Records([""], [FlatTokens(keys)]), [RecordSeparator]) + "";
      { assert Records([""], [FlatTokens(keys)]) == [record]; }
      Terminated([record], [RecordSeparator]) + "";
      { TerminatedOne(record, [RecordSeparator]); }
      record + [RecordSeparator] + "";
      { assert record == [UnitSeparator] + body; }
      [UnitSeparator] + body + [RecordSeparator] + "";
      [UnitSeparator] + body + [RecordSeparator];
    }
  }



  /**
   * The format string is itself read as exactly one record whose fields are
   * the placeholder tokens: no token contains a delimiter.
   */
  lemma FormatStringSelfParse(keys: seq<Attr>)
    requires TokenCount(keys) >= 1
    ensures ParseLog(keys, FormatString(keys)) == Success([Commit(Decode(keys, FlatTokens(keys)), None)])
  {
    var tokens := FlatTokens(keys);
    FlatTokensClean(keys);
    FormatStringIsRecord(keys);
    assert forall i, k :: 0 <= i < |[tokens]| && 0 <= k < |[tokens][i]| ==> Clean([tokens][i][k]);
    ParseLogRoundTrip(keys, [""], [tokens], "");
    var one := seq(1, i requires 0 <= i < 1 => Commit(Decode(keys, [tokens][i]), None));
    assert one == [Commit(Decode(keys, tokens), None)];
  }

  /**
   * Reading the placeholder tokens back, every key is built from its own
   * tokens: the builder and the parser walk the same keys over the same
   * table, so no key reads another key's fields.
   */
  lemma PlaceholdersAlign(keys: seq<Attr>)
    requires NoDup(keys)
    ensures forall j :: 0 <= j < |keys| ==> Decode(keys, FlatTokens(keys))[keys[j]] == Build(keys[j], Sources(keys[j]).tokens)
  {
    forall j | 0 <= j < |keys| ensures Decode(keys, FlatTokens(keys))[keys[j]] == Build(keys[j], Sources(keys[j]).tokens) {
      TokensAlign(keys, j);
    }
  }

  /**
   * The builder object: the key list and the format string are fixed when it
   * is made; `BuildAll` parses git's output with the same key list.
   */
  class CommitBuilder {
    const keys: seq<Attr>
    const formatString: string

    constructor (optionalKeys: seq<Attr>)
      ensures keys == KeyList(optionalKeys)
      ensures formatString == FormatString(keys)
    {
      var ks := FromSeq(DefaultKeys + optionalKeys);
      var tokens := PlaceholderTokens(ks);
      keys := ks;
      formatString := [UnitSeparator] + Join(tokens, [UnitSeparator]) + [RecordSeparator];
    }

    /** `buildCommit`: drops the field before the first unit separator, then lets every key shift its fields. */
    method BuildCommit(rawData: string) returns (r: Result<Commit, Error>)
      ensures r == ParseRecord(keys, rawData)
    {
      var fields := Split(rawData, [UnitSeparator])[1..];
      var commit: map<Attr, Value> := map[];
      for i := 0 to |keys|
        invariant Consume(keys, FieldsOf(rawData), map[]) == Consume(keys[i..], fields, commit)
      {
        assert keys[i..][1..] == keys[i + 1..];
        var source := Sources(keys[i]);
        if |fields| < |source.tokens| {
          return Failure(ShortRecord);
        }
        var args := fields[..|source.tokens|];
        fields := fields[|source.tokens|..];
        commit := commit[keys[i] := Build(keys[i], args)];
      }
      return Success(Commit(commit, None));
    }

    /** `buildAll`: splits on the record separator, drops the last segment and builds each record in order. */
    method BuildAll(rawData: string) returns (r: Result<seq<Commit>, Error>)
      ensures r == ParseLog(keys, rawData)
    {
      var segments := Split(rawData, [RecordSeparator]);
      var records := segments[..|segments| - 1];
      var commits: seq<Commit> := [];
      assert records[0..] == records;
      PrefixedEmpty(ParseRecords(keys, records));
      for i := 0 to |records|
        invariant ParseRecords(keys, records) == Prefixed(commits, ParseRecords(keys, records[i..]))
      {
        ParseRecordsStep(keys, records, i);
        var c := BuildCommit(records[i]);
        if c.Failure? {
          return Failure(c.error);
        }
        PrefixedAssoc(commits, [c.value], ParseRecords(keys, records[i + 1..]));
        commits := commits + [c.value];
      }
      assert records[|records|..] == [];
      assert commits + [] == commits;
      return Success(commits);
    }
  }
}
