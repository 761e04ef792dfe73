/**
 * `GitWorktreeManager`: which `git worktree` arguments `add` and `remove` issue, and how
 * `list` reads the records out of `git worktree list --porcelain`. The git calls themselves
 * are not modelled: their results come in as parameters.
 */
module Worktree {
  import opened Wrappers
  import opened Strings

  const WorktreeTag: string := "worktree "
  const HeadTag: string := "HEAD "
  const BranchTag: string := "branch "

  /** A listed worktree; `head` and `branch` are absent when no line set them. */
  datatype WorktreeInfo = WorktreeInfo(path: string, head: Option<string>, branch: Option<string>)

  /** The record being filled in while lines are read. */
  datatype Partial = Partial(path: Option<string>, head: Option<string>, branch: Option<string>)

  /** `if (current.path)`: a record is only emitted with a non-empty path. */
  predicate HasPath(c: Partial) {
    c.path.Some? && c.path.value != ""
  }

  function Finish(c: Partial): WorktreeInfo
    requires HasPath(c)
  {
    WorktreeInfo(c.path.value, c.head, c.branch)
  }

  /** The emitted records and the record being filled in. */
  datatype ScanState = ScanState(done: seq<WorktreeInfo>, current: Partial)

  const Start: ScanState := ScanState([], Partial(None, None, None))

  function Flush(st: ScanState): seq<WorktreeInfo> {
    if HasPath(st.current) then st.done + [Finish(st.current)] else st.done
  }

  /** What one line does to the state. */
  function Step(st: ScanState, line: string): ScanState {
    if StartsWith(line, WorktreeTag) then ScanState(Flush(st), Partial(Some(line[|WorktreeTag|..]), None, None))
    else if StartsWith(line, HeadTag) then st.(current := st.current.(head := Some(line[|HeadTag|..])))
    else if StartsWith(line, BranchTag) then st.(current := st.current.(branch := Some(line[|BranchTag|..])))
    else st
  }

  function Run(st: ScanState, lines: seq<string>): ScanState {
    if |lines| == 0 then st else Step(Run(st, lines[..|lines| - 1]), lines[|lines| - 1])
  }

  /** The records `list` returns for the given output lines. */
  function ParsePorcelain(lines: seq<string>): seq<WorktreeInfo> {
    Flush(Run(Start, lines))
  }

  /** `list`, given the text git printed. */
  method List(raw: string) returns (worktrees: seq<WorktreeInfo>)
    ensures worktrees == ParsePorcelain(Split(raw, '\n'))
  {
    var lines := Split(raw, '\n');
    worktrees := [];
    var current := Partial(None, None, None);
    for i := 0 to |lines|
      invariant ScanState(worktrees, current) == Run(Start, lines[..i])
    {
      var line := lines[i];
      assert lines[..i + 1][..i] == lines[..i];
      if StartsWith(line, WorktreeTag) {
        if current.path.Some? && current.path.value != "" {
          worktrees := worktrees + [WorktreeInfo(current.path.value, current.head, current.branch)];
        }
        current := Partial(Some(line[9..]), None, None);
      } else if StartsWith(line, HeadTag) {
        current := current.(head := Some(line[5..]));
      } else if StartsWith(line, BranchTag) {
        current := current.(branch := Some(line[7..]));
      }
    }
    assert lines[..|lines|] == lines;
    if current.path.Some? && current.path.value != "" {
      worktrees := worktrees + [WorktreeInfo(current.path.value, current.head, current.branch)];
    }
  }

  /**
   * `add`: check out an existing local branch into `path`, or create the branch with `-b`.
   * `localBranches` is what `branchLocal()` reported.
   */
  function AddArgs(branch: string, path: string, localBranches: seq<string>): (args: seq<string>)
    ensures branch in localBranches ==> args == ["worktree", "add", path, branch]
    ensures branch !in localBranches ==> args == ["worktree", "add", "-b", branch, path]
  {
    if branch in localBranches then ["worktree", "add", path, branch]
    else ["worktree", "add", "-b", branch, path]
  }

  /** `remove`: the argument list, with `--force` pushed only when forcing. */
  function RemoveArgs(path: string, force: bool): (args: seq<string>)
    ensures |args| == if force then 4 else 3
    ensures args[..3] == ["worktree", "remove", path]
    ensures force ==> args[3] == "--force"
  {
    ["worktree", "remove", path] + if force then ["--force"] else []
  }

  // ----- Properties of the porcelain parser -----

  lemma {:induction false} RunAppend(st: ScanState, a: seq<string>, b: seq<string>)
    ensures Run(st, a + b) == Run(Run(st, a), b)
  {
    if |b| == 0 {
      assert a + b == a;
    } else {
      RunAppend(st, a, b[..|b| - 1]);
      assert (a + b)[..|a + b| - 1] == a + b[..|b| - 1];
    }
  }

  /** No line of `block` opens a record. */
  predicate NoRecordStart(block: seq<string>) {
    forall k :: 0 <= k < |block| ==> !StartsWith(block[k], WorktreeTag)
  }

  /** The value of the last line of `block` tagged `tag`, or `d` when there is none. */
  function LastTagged(block: seq<string>, tag: string, d: Option<string>): Option<string> {
    if |block| == 0 then d
    else if StartsWith(block[|block| - 1], tag) then Some(block[|block| - 1][|tag|..])
    else LastTagged(block[..|block| - 1], tag, d)
  }

  /** Lines that open no record only set fields of the current one; later lines win. */
  lemma {:induction false} RunBlock(st: ScanState, block: seq<string>)
    requires NoRecordStart(block)
    ensures Run(st, block) == st.(current := st.current.(
              head := LastTagged(block, HeadTag, st.current.head),
              branch := LastTagged(block, BranchTag, st.current.branch)))
  {
    if |block| > 0 {
      var front := block[..|block| - 1];
      RunBlock(st, front);
      var line := block[|block| - 1];
      assert !StartsWith(line, WorktreeTag);
      if StartsWith(line, HeadTag) {
        assert !StartsWith(line, BranchTag) by {
          assert line[0] == 'H';
        }
      }
    }
  }

  /** Fields seen before the first `worktree ` line never reach the output. */
  lemma Preamble(block: seq<string>)
    requires NoRecordStart(block)
    ensures ParsePorcelain(block) == []
  {
    RunBlock(Start, block);
  }

  /**
   * A `worktree <p>` line followed by lines that open no record adds one record after those
   * of the earlier lines: path `p`, and the last `HEAD ` and `branch ` values of the block.
   */
  lemma RecordAfter(pre: seq<string>, p: string, block: seq<string>)
    requires p != "" && NoRecordStart(block)
    ensures ParsePorcelain(pre + [WorktreeTag + p] + block)
            == ParsePorcelain(pre) + [WorktreeInfo(p, LastTagged(block, HeadTag, None), LastTagged(block, BranchTag, None))]
  {
    OpenRecord(pre, p, block);
  }

  /** A `worktree ` line with nothing after it drops the fields that follow it. */
  lemma EmptyPathDropped(pre: seq<string>, block: seq<string>)
    requires NoRecordStart(block)
    ensures ParsePorcelain(pre + [WorktreeTag] + block) == ParsePorcelain(pre)
  {
    assert WorktreeTag + "" == WorktreeTag;
    OpenRecord(pre, "", block);
  }

  lemma OpenRecord(pre: seq<string>, p: string, block: seq<string>)
    requires NoRecordStart(block)
    ensures Run(Start, pre + [WorktreeTag + p] + block)
            == ScanState(ParsePorcelain(pre), Partial(Some(p), LastTagged(block, HeadTag, None), LastTagged(block, BranchTag, None)))
  {
    var line := WorktreeTag + p;
    RunAppend(Start, pre + [line], block);
    RunAppend(Start, pre, [line]);
    assert StartsWith(line, WorktreeTag) && line[|WorktreeTag|..] == p;
    assert Run(Run(Start, pre), [line]) == Step(Run(Run(Start, pre), []), line);
    RunBlock(Run(Start, pre + [line]), block);
  }

  /** The path of each `worktree ` line with a non-empty remainder, in input order. */
  function RecordPaths(lines: seq<string>): seq<string> {
    if |lines| == 0 then []
    else
      var line := lines[|lines| - 1];
      RecordPaths(lines[..|lines| - 1])
      + (if StartsWith(line, WorktreeTag) && line[|WorktreeTag|..] != "" then [line[|WorktreeTag|..]] else [])
  }

  function Paths(ws: seq<WorktreeInfo>): seq<string> {
    if |ws| == 0 then [] else Paths(ws[..|ws| - 1]) + [ws[|ws| - 1].path]
  }

  lemma {:induction false} PathsSnoc(ws: seq<WorktreeInfo>, w: WorktreeInfo)
    ensures Paths(ws + [w]) == Paths(ws) + [w.path]
  {
    assert (ws + [w])[..|ws|] == ws;
  }

  /** The paths of the emitted records and of the current one, if it will be emitted. */
  function PendingPaths(st: ScanState): seq<string> {
    Paths(st.done) + (if HasPath(st.current) then [st.current.path.value] else [])
  }

  lemma FlushPaths(st: ScanState)
    ensures Paths(Flush(st)) == PendingPaths(st)
  {
    if HasPath(st.current) {
      PathsSnoc(st.done, Finish(st.current));
    }
  }

  lemma StepPaths(st: ScanState, line: string)
    ensures PendingPaths(Step(st, line)) == PendingPaths(st)
            + (if StartsWith(line, WorktreeTag) && line[|WorktreeTag|..] != "" then [line[|WorktreeTag|..]] else [])
  {
    if StartsWith(line, WorktreeTag) {
      FlushPaths(st);
    } else if StartsWith(line, HeadTag) || StartsWith(line, BranchTag) {
      assert Step(st, line).done == st.done && Step(st, line).current.path == st.current.path;
    }
  }

  lemma {:induction false} RunPaths(lines: seq<string>)
    ensures PendingPaths(Run(Start, lines)) == RecordPaths(lines)
  {
    if |lines| > 0 {
      RunPaths(lines[..|lines| - 1]);
      StepPaths(Run(Start, lines[..|lines| - 1]), lines[|lines| - 1]);
    }
  }

  /** The records come out in input order, one per `worktree ` line with a non-empty path. */
  lemma RecordOrder(lines: seq<string>)
    ensures Paths(ParsePorcelain(lines)) == RecordPaths(lines)
  {
    RunPaths(lines);
    FlushPaths(Run(Start, lines));
  }

  /** There is one record per `worktree ` line with a non-empty remainder. */
  lemma RecordCount(lines: seq<string>)
    ensures |ParsePorcelain(lines)| == |RecordPaths(lines)|
  {
    RecordOrder(lines);
    PathsLength(ParsePorcelain(lines));
  }

  lemma {:induction false} PathsLength(ws: seq<WorktreeInfo>)
    ensures |Paths(ws)| == |ws|
  {
    if |ws| > 0 {
      PathsLength(ws[..|ws| - 1]);
    }
  }

  // ----- Properties of the argument choice -----

  /** How `git worktree add` reads its arguments: the branch, the path, and whether `-b` asks for a new branch. */
  function ReadAdd(args: seq<string>): Option<(string, string, bool)> {
    if |args| == 4 && args[..2] == ["worktree", "add"] && args[2] != "-b" then Some((args[3], args[2], false))
    else if |args| == 5 && args[..3] == ["worktree", "add", "-b"] then Some((args[3], args[4], true))
    else None
  }

  /** `add` names the branch and the path, and creates the branch exactly when it is not a local one. */
  lemma AddArgsRead(branch: string, path: string, localBranches: seq<string>)
    requires path != "-b"
    ensures ReadAdd(AddArgs(branch, path, localBranches)) == Some((branch, path, branch !in localBranches))
  {
  }

  /** How `git worktree remove` reads its arguments: the path and whether to force. */
  function ReadRemove(args: seq<string>): Option<(string, bool)> {
    if |args| == 3 && args[..2] == ["worktree", "remove"] then Some((args[2], false))
    else if |args| == 4 && args[..2] == ["worktree", "remove"] && args[3] == "--force" then Some((args[2], true))
    else None
  }

  /**
   * `remove` names the path and forces exactly when asked to, and it is the only argument
   * list `git worktree remove` reads that way.
   */
  lemma RemoveArgsRead(path: string, force: bool, args: seq<string>)
    ensures ReadRemove(RemoveArgs(path, force)) == Some((path, force))
    ensures ReadRemove(args) == Some((path, force)) ==> args == RemoveArgs(path, force)
  {
  }
}
