/**
 * The reader of `git diff-tree --name-status` output: one line per file,
 * a status letter, a tab, and the path.  Every path lands in `touched`; a
 * path lands in `added`, `deleted` or `modified` only from a line whose
 * status is exactly `A`, `D` or `M`.
 */
module Diff {
  import opened Wrappers
  import opened Text
  import opened CommitBuilder

  const Newline: char := '\n'
  const Tab: char := '\t'

  /** `rawData.split('\n').slice(0, -1)`: the lines that end in a newline; what follows the last newline is dropped. */
  function Lines(rawData: string): seq<string> {
    var pieces := Split(rawData, [Newline]);
    pieces[..|pieces| - 1]
  }

  /** The tab-separated fields of a line. */
  function Columns(line: string): (cols: seq<string>)
    ensures |cols| >= 1
  {
    Split(line, [Tab])
  }

  /** The line has a second column, so destructuring `[mode, path]` binds a path. */
  predicate HasPath(line: string) {
    |Columns(line)| >= 2
  }

  function ModeOf(line: string): string {
    Columns(line)[0]
  }

  function PathOf(line: string): string
    requires HasPath(line)
  {
    Columns(line)[1]
  }

  const NoFiles: GitDiff := GitDiff({}, {}, {}, {})

  /** One turn of the loop: the line's path is touched, and filed under its status when that is `A`, `D` or `M`. */
  function AddLine(d: GitDiff, line: string): GitDiff {
    if !HasPath(line) then d
    else
      var mode, path := ModeOf(line), PathOf(line);
      GitDiff(
        if mode == "A" then d.added + {path} else d.added,
        if mode == "D" then d.deleted + {path} else d.deleted,
        if mode == "M" then d.modified + {path} else d.modified,
        d.touched + {path})
  }

  /** The sets after the loop has run over `lines`, one line after another. */
  function DiffOf(lines: seq<string>): GitDiff {
    if lines == [] then NoFiles
    else AddLine(DiffOf(lines[..|lines| - 1]), lines[|lines| - 1])
  }

  /** `parse`: four empty sets filled by a loop over the lines. */
  method Parse(rawData: string) returns (diff: GitDiff)
    ensures diff == DiffOf(Lines(rawData))
  {
    var files := Lines(rawData);
    var added: set<string> := {};
    var deleted: set<string> := {};
    var modified: set<string> := {};
    var touched: set<string> := {};
    for i := 0 to |files|
      invariant GitDiff(added, deleted, modified, touched) == DiffOf(files[..i])
    {
      assert files[..i + 1][..i] == files[..i];
      var cols := Split(files[i], [Tab]);
      if |cols| >= 2 {
        var mode, path := cols[0], cols[1];
        touched := touched + {path};
        if mode == "A" {
          added := added + {path};
        } else if mode == "D" {
          deleted := deleted + {path};
        } else if mode == "M" {
          modified := modified + {path};
        }
      }
    }
    assert files[..|files|] == files;
    diff := GitDiff(added, deleted, modified, touched);
  }

  /** A line of `lines` with a path, with the given status when `mode` is given. */
  predicate Listed(lines: seq<string>, mode: Option<string>, path: string) {
    exists l :: l in lines && HasPath(l) && PathOf(l) == path && (mode.Some? ==> ModeOf(l) == mode.value)
  }

  /**
   * What each set holds: `touched` every path on a line, and `added`,
   * `deleted`, `modified` exactly the paths on a line whose status is
   * `A`, `D`, `M`.
   */
  lemma {:induction false} DiffOfMembers(lines: seq<string>)
    ensures forall p :: p in DiffOf(lines).touched <==> Listed(lines, None, p)
    ensures forall p :: p in DiffOf(lines).added <==> Listed(lines, Some("A"), p)
    ensures forall p :: p in DiffOf(lines).deleted <==> Listed(lines, Some("D"), p)
    ensures forall p :: p in DiffOf(lines).modified <==> Listed(lines, Some("M"), p)
  {
    if lines != [] {
      var init, last := lines[..|lines| - 1], lines[|lines| - 1];
      DiffOfMembers(init);
      assert lines == init + [last];
      forall p, mode: Option<string> ensures Listed(lines, mode, p) <==> Listed(init, mode, p) || (HasPath(last) && PathOf(last) == p && (mode.Some? ==> ModeOf(last) == mode.value)) {
        if Listed(lines, mode, p) {
          var l :| l in lines && HasPath(l) && PathOf(l) == p && (mode.Some? ==> ModeOf(l) == mode.value);
          if l != last {
            assert l in init;
          }
        }
      }
    }
  }

  /** Every path in `added`, `deleted` or `modified` is also in `touched`. */
  lemma TouchedCoversAll(lines: seq<string>)
    ensures DiffOf(lines).added + DiffOf(lines).deleted + DiffOf(lines).modified <= DiffOf(lines).touched
  {
    DiffOfMembers(lines);
  }

  /**
   * The result depends only on which lines occur, not on their order or
   * repetition: the outputs are sets.
   */
  lemma SameLinesSameDiff(lines1: seq<string>, lines2: seq<string>)
    requires forall l :: l in lines1 <==> l in lines2
    ensures DiffOf(lines1) == DiffOf(lines2)
  {
    DiffOfMembers(lines1);
    DiffOfMembers(lines2);
    var d1, d2 := DiffOf(lines1), DiffOf(lines2);
    assert forall p, mode :: Listed(lines1, mode, p) <==> Listed(lines2, mode, p);
    assert d1.touched == d2.touched;
    assert d1.added == d2.added;
    assert d1.deleted == d2.deleted;
    assert d1.modified == d2.modified;
  }

  /** Output without a newline, in particular the empty output of a commit that touches nothing, has no lines. */
  lemma NoNewlineNoFiles(rawData: string)
    requires Newline !in rawData
    ensures Lines(rawData) == []
    ensures DiffOf(Lines(rawData)) == NoFiles
  {
    SplitWithout(rawData, Newline);
  }

  /** Newline-terminated lines are read back exactly; an unterminated tail is ignored. */
  lemma LinesRoundTrip(lines: seq<string>, tail: string)
    requires forall k :: 0 <= k < |lines| ==> Newline !in lines[k]
    requires Newline !in tail
    ensures Lines(Terminated(lines, [Newline]) + tail) == lines
  {
    SplitTerminated(lines, Newline, tail);
    SplitWithout(tail, Newline);
  }

  /** A line made of a status, a tab and a tab-free path has exactly that status and path. */
  lemma ColumnsOfLine(mode: string, path: string)
    requires Tab !in mode && Tab !in path
    ensures Columns(mode + [Tab] + path) == [mode, path]
    ensures HasPath(mode + [Tab] + path) && ModeOf(mode + [Tab] + path) == mode && PathOf(mode + [Tab] + path) == path
  {
    SplitCons(mode, Tab, path);
    SplitWithout(path, Tab);
  }

  /**
   * For instance, a modified file `a` and a file `b` renamed to `c`: the
   * rename's status is not `A`, `D` or `M`, so its first path is only touched.
   */
  lemma ModifiedAndRenamed()
    ensures DiffOf(Lines("M\ta\nR100\tb\tc\n")) == GitDiff({}, {}, {"a"}, {"a", "b"})
  {
    ExampleLines();
    ColumnsOfLine("M", "a");
    assert "M" + [Tab] + "a" == "M\ta";
    RenameColumns();
    TwoLines("M\ta", "R100\tb\tc");
  }

  lemma ExampleLines()
    ensures Lines("M\ta\nR100\tb\tc\n") == ["M\ta", "R100\tb\tc"]
  {
    var first, second := "M\ta", "R100\tb\tc";
    var parts := [first, second];
    assert parts[1..] == [second];
    assert [second][1..] == [];
    assert Terminated([second], [Newline]) == second + [Newline];
    assert Terminated(parts, [Newline]) == first + [Newline] + (second + [Newline]);
    assert "M\ta\nR100\tb\tc\n" == Terminated(parts, [Newline]) + "";
    LinesRoundTrip(parts, "");
  }

  lemma RenameColumns()
    ensures HasPath("R100\tb\tc") && ModeOf("R100\tb\tc") == "R100" && PathOf("R100\tb\tc") == "b"
  {
    assert "R100\tb\tc" == "R100" + [Tab] + ("b" + [Tab] + "c");
    SplitCons("R100", Tab, "b" + [Tab] + "c");
    ColumnsOfLine("b", "c");
  }

  lemma TwoLines(first: string, second: string)
    requires HasPath(first) && ModeOf(first) == "M" && PathOf(first) == "a"
    requires HasPath(second) && ModeOf(second) == "R100" && PathOf(second) == "b"
    ensures DiffOf([first, second]) == GitDiff({}, {}, {"a"}, {"a", "b"})
  {
    assert [first, second][..1] == [first];
    assert [first][..0] == [];
    assert DiffOf([first]) == GitDiff({}, {}, {"a"}, {"a"});
  }
}
