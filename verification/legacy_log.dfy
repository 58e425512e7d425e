/**
 * The older newline-delimited reader: one `git log` call prints the
 * metadata of a commit, one placeholder per line, and a second call prints
 * its body.  The fields are read back by line position.
 */
module LegacyLog {
  import opened Wrappers
  import opened Errors
  import opened Text
  import opened CommitBuilder

  const Newline: char := '\n'

  /** The metadata format: nine placeholders, each followed by `%n`. */
  const MetadataFormat: string := "%H%n%h%n%an%n%ae%n%at%n%cn%n%ce%n%ct%n%s%n"

  /** The body format. */
  const BodyFormat: string := "%b"

  /** The placeholders of the metadata format, in line order. */
  const MetadataTokens: seq<string> := ["%H", "%h", "%an", "%ae", "%at", "%cn", "%ce", "%ct", "%s"]

  /** A commit as the legacy reader builds it. */
  datatype LegacyCommit = LegacyCommit(
    body: string,
    fullHash: string,
    partialHash: string,
    author: Person,
    authorTime: Option<int>,
    committer: Person,
    commitTime: Option<int>,
    subject: string)

  /**
   * `rawBody.substr(0, rawBody.length - eolLength)`: the body without its
   * last `eolLength` characters; a negative length gives the empty string.
   */
  function TrimEol(rawBody: string, eolLength: nat): (body: string)
    ensures |body| == if |rawBody| >= eolLength then |rawBody| - eolLength else 0
    ensures body == rawBody[..|body|]
  {
    if |rawBody| >= eolLength then rawBody[..|rawBody| - eolLength] else ""
  }

  /** `createCommitObject`: the metadata lines read by position, the body trimmed of its line ending. */
  function CreateCommitObject(metadata: string, rawBody: string, eol: string): (r: Result<LegacyCommit, Error>)
    ensures r.Success? <==> |Split(metadata, [Newline])| >= |MetadataTokens|
    ensures r.Failure? ==> r.error == ShortRecord
  {
    var data := Split(metadata, [Newline]);
    if |data| < |MetadataTokens| then Failure(ShortRecord)
    else
      Success(LegacyCommit(
        TrimEol(rawBody, |eol|),
        data[0],
        data[1],
        BuildPerson(data[2], data[3]),
        BuildDate(data[4]),
        BuildPerson(data[5], data[6]),
        BuildDate(data[7]),
        data[8]))
  }

  /** The metadata format asks for its nine placeholders, one per line. */
  lemma MetadataFormatShape()
    ensures |MetadataTokens| == 9
    ensures MetadataFormat == Terminated(MetadataTokens, "%n")
  {
    var a, b, c := ["%H", "%h", "%an"], ["%ae", "%at", "%cn"], ["%ce", "%ct", "%s"];
    MetadataTokensThirds(a, b, c);
    TerminatedAppend(a + b, c, "%n");
    TerminatedAppend(a, b, "%n");
    TerminatedThree(a, "%H", "%h", "%an", "%n");
    TerminatedThree(b, "%ae", "%at", "%cn", "%n");
    TerminatedThree(c, "%ce", "%ct", "%s", "%n");
    FirstThird();
    SecondThird();
    LastThird();
    MetadataFormatChunks();
  }

  /**
   * The legacy placeholders are the tokens the current attribute table
   * gives the first seven default keys, from the full hash to the subject.
   */
  lemma MetadataTokensAreDefaults()
    ensures MetadataTokens == FlatTokens(DefaultKeys[..7])
  {
    var front, back := [FullHash, PartialHash, Author], [AuthorTime, Committer, CommitTime, Subject];
    assert DefaultKeys[..7] == front + back;
    BackTokens();
    FrontTokens(front, back);
  }

  // ---- steps about the literal formats ----

  /*
   * Each lemma below states one fact about the literal format strings and
   * token lists used by the two lemmas above.  They say nothing new about
   * the program; they are split this finely only so that every proof step
   * stays small for the solver.
   */

  lemma MetadataTokensThirds(a: seq<string>, b: seq<string>, c: seq<string>)
    requires a == ["%H", "%h", "%an"] && b == ["%ae", "%at", "%cn"] && c == ["%ce", "%ct", "%s"]
    ensures MetadataTokens == a + b + c
  {
  }

  lemma FirstThird()
    ensures "%H" + "%n" + "%h" + "%n" + "%an" + "%n" == "%H%n%h%n%an%n"
  {
  }

  lemma SecondThird()
    ensures "%ae" + "%n" + "%at" + "%n" + "%cn" + "%n" == "%ae%n%at%n%cn%n"
  {
  }

  lemma LastThird()
    ensures "%ce" + "%n" + "%ct" + "%n" + "%s" + "%n" == "%ce%n%ct%n%s%n"
  {
  }

  lemma MetadataFormatChunks()
    ensures MetadataFormat == "%H%n%h%n%an%n" + "%ae%n%at%n%cn%n" + "%ce%n%ct%n%s%n"
  {
    FirstTwoThirds();
    MetadataFormatHalves();
  }

  lemma FirstTwoThirds()
    ensures "%H%n%h%n%an%n" + "%ae%n%at%n%cn%n" == "%H%n%h%n%an%n%ae%n%at%n%cn%n"
  {
  }

  lemma MetadataFormatHalves()
    ensures MetadataFormat == "%H%n%h%n%an%n%ae%n%at%n%cn%n" + "%ce%n%ct%n%s%n"
  {
  }

  lemma TerminatedThree(t: seq<string>, x: string, y: string, z: string, sep: string)
    requires t == [x, y, z]
    ensures Terminated(t, sep) == x + sep + y + sep + z + sep
  {
    assert t[1..] == [y, z];
    assert [y, z][1..] == [z];
    assert [z][1..] == [];
    assert z + sep + "" == z + sep;
    assert Terminated([z], sep) == z + sep;
    assert Terminated([y, z], sep) == y + sep + (z + sep);
  }

  lemma BackTokens()
    ensures FlatTokens([AuthorTime, Committer, CommitTime, Subject]) == ["%at", "%cn", "%ce", "%ct", "%s"]
  {
    assert FlatTokens([Subject]) == ["%s"];
    assert FlatTokens([CommitTime, Subject]) == ["%ct", "%s"];
    assert FlatTokens([Committer, CommitTime, Subject]) == ["%cn", "%ce", "%ct", "%s"];
  }

  lemma FrontTokens(front: seq<Attr>, back: seq<Attr>)
    requires front == [FullHash, PartialHash, Author]
    requires FlatTokens(back) == ["%at", "%cn", "%ce", "%ct", "%s"]
    ensures FlatTokens(front + back) == MetadataTokens
  {
    FlatTokensAppend(front, back);
    FrontLiteral();
    TokenHalves();
  }

  lemma FrontLiteral()
    ensures FlatTokens([FullHash, PartialHash, Author]) == ["%H", "%h", "%an", "%ae"]
  {
    assert FlatTokens([Author]) == ["%an", "%ae"];
    assert FlatTokens([PartialHash, Author]) == ["%h", "%an", "%ae"];
  }

  lemma TokenHalves()
    ensures ["%H", "%h", "%an", "%ae"] + ["%at", "%cn", "%ce", "%ct", "%s"] == MetadataTokens
  {
  }

  /**
   * Round trip: git's answer to the metadata format is nine newline-ended
   * lines (followed by anything), and its answer to the body format is the
   * body followed by a line ending.  Each line lands in its field, the times
   * are read as seconds, and the body comes back without the line ending.
   */
  lemma CreateCommitRoundTrip(lines: seq<string>, tail: string, body: string, eol: string)
    requires |lines| == |MetadataTokens|
    requires forall k :: 0 <= k < |lines| ==> Newline !in lines[k]
    ensures CreateCommitObject(Terminated(lines, [Newline]) + tail, body + eol, eol)
         == Success(LegacyCommit(
              body, lines[0], lines[1], Person(lines[2], lines[3]), BuildDate(lines[4]),
              Person(lines[5], lines[6]), BuildDate(lines[7]), lines[8]))
  {
    var data := Split(Terminated(lines, [Newline]) + tail, [Newline]);
    SplitTerminated(lines, Newline, tail);
    assert data[..|lines|] == lines;
    TrimEolOf(body, eol);
  }

  /** Trimming a body that ends with the line ending gives the body. */
  lemma TrimEolOf(body: string, eol: string)
    ensures TrimEol(body + eol, |eol|) == body
  {
    assert (body + eol)[..|body|] == body;
  }

  /** A time line holding the decimal seconds of a Unix time is read as that time in milliseconds. */
  lemma CreateCommitTimes(lines: seq<string>, tail: string, body: string, eol: string, authored: nat, committed: nat)
    requires |lines| == |MetadataTokens|
    requires forall k :: 0 <= k < |lines| ==> Newline !in lines[k]
    requires lines[4] == Decimal(authored) && lines[7] == Decimal(committed)
    ensures CreateCommitObject(Terminated(lines, [Newline]) + tail, body + eol, eol).Success?
    ensures CreateCommitObject(Terminated(lines, [Newline]) + tail, body + eol, eol).value.authorTime == Some(authored * 1000)
    ensures CreateCommitObject(Terminated(lines, [Newline]) + tail, body + eol, eol).value.commitTime == Some(committed * 1000)
  {
    CreateCommitRoundTrip(lines, tail, body, eol);
    BuildDateOfDecimal(authored);
    BuildDateOfDecimal(committed);
  }
}
