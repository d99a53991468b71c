/**
 * The agent loop of controller.py: the targeted test command derived from the
 * failing test ids, the numbered context windows handed to the proposer, the
 * planning phase, the per-step attempt and retry loop around `txn_patch`, and
 * the choice of the final patch.
 *
 * The LLM replies, the scheduler, the probe runner, `combine` and
 * `git diff base..HEAD` are oracles; the repository is the `Repository` object
 * the transaction executor works on.
 */
module Controller {
  import opened Wrappers
  import opened Text
  import opened Slices
  import opened Json
  import opened Types
  import opened Config
  import opened AstIndex
  import opened Vcs
  import opened Tnr
  import opened Proposer
  import opened Investigator
  import opened Planner

  // ---------------------------------------------------------------------------
  // `_derive_test_cmd`

  /** `sep` occurs in `s` at index `i`. */
  predicate Occurs(s: string, sep: string, i: nat) {
    i + |sep| <= |s| && s[i..i + |sep|] == sep
  }

  /** `sep` does not occur anywhere in `s`: no position of `s` starts with it. */
  predicate Free(s: string, sep: string)
    requires |sep| > 0
    decreases |s|
  {
    |s| < |sep| || (s[..|sep|] != sep && Free(s[1..], sep))
  }

  /** `Free` says exactly that `sep` occurs at no index of `s`. */
  lemma {:induction false} FreeMeansNoOccurrence(s: string, sep: string)
    requires |sep| > 0
    ensures Free(s, sep) <==> forall i: nat :: !Occurs(s, sep, i)
    decreases |s|
  {
    if |s| >= |sep| {
      FreeMeansNoOccurrence(s[1..], sep);
      assert Occurs(s, sep, 0) <==> s[..|sep|] == sep;
      forall i: nat ensures Occurs(s, sep, i + 1) <==> Occurs(s[1..], sep, i) {
        OccursShift(s, sep, i);
      }
      if !Free(s, sep) && !Occurs(s, sep, 0) {
        var i: nat :| Occurs(s[1..], sep, i);
        assert Occurs(s, sep, i + 1);
      }
      if Free(s, sep) {
        forall i: nat ensures !Occurs(s, sep, i) {
          if i > 0 {
            assert !Occurs(s[1..], sep, i - 1);
          }
        }
      }
    }
  }

  /** An occurrence one position into `s` is an occurrence in `s[1..]`. */
  lemma OccursShift(s: string, sep: string, i: nat)
    requires s != []
    ensures Occurs(s, sep, i + 1) <==> Occurs(s[1..], sep, i)
  {
    if i + 1 + |sep| <= |s| {
      var a := s[i + 1..i + 1 + |sep|];
      var b := s[1..][i..i + |sep|];
      assert forall j :: 0 <= j < |sep| ==> a[j] == b[j];
      assert a == b;
    }
  }

  /** `str.split` cuts nothing out of a text in which the separator does not occur. */
  lemma {:induction false} SplitWithoutSeparator(s: string, sep: string)
    requires |sep| > 0 && Free(s, sep)
    ensures Split(s, sep) == [s]
    decreases |s|
  {
    if |s| >= |sep| {
      SplitKept(s, sep);
      SplitWithoutSeparator(s[1..], sep);
      assert [s[0]] + s[1..] == s;
    }
  }

  /** `s.split(sep)[-1]` */
  function LastPiece(s: string, sep: string): string
    requires |sep| > 0
  {
    var p := Split(s, sep);
    p[|p| - 1]
  }

  /** The last piece of `s.split(sep)` ends `s` and holds no separator; a single piece is `s` itself. */
  lemma {:induction false} SplitLastPiece(s: string, sep: string)
    requires |sep| > 0
    ensures EndsWith(s, LastPiece(s, sep)) && Free(LastPiece(s, sep), sep)
    ensures |Split(s, sep)| == 1 ==> LastPiece(s, sep) == s
    decreases |s|
  {
    if |s| < |sep| {
      assert s[|s| - |s|..] == s;
    } else if s[..|sep|] == sep {
      SplitLastPiece(s[|sep|..], sep);
      SplitCut(s, sep);
      LastPieceSkip(s, sep, s[|sep|..]);
    } else {
      SplitLastPiece(s[1..], sep);
      LastPieceStep(s, sep);
    }
  }

  lemma LastPieceSkip(s: string, sep: string, rest: string)
    requires 0 < |sep| <= |s| && rest == s[|sep|..] && Split(s, sep) == [""] + Split(rest, sep)
    requires EndsWith(rest, LastPiece(rest, sep)) && Free(LastPiece(rest, sep), sep)
    ensures EndsWith(s, LastPiece(s, sep)) && Free(LastPiece(s, sep), sep) && |Split(s, sep)| > 1
  {
    LastPieceIs(s, sep);
    LastPieceIs(rest, sep);
    LastOfPrepend("", Split(rest, sep), Split(s, sep));
    PieceAfterCut(s, sep, LastPiece(s, sep), LastPiece(rest, sep));
  }

  /** `last` is the last piece of `s` and `rest` that of what follows the separator `s` starts with. */
  lemma PieceAfterCut(s: string, sep: string, last: string, rest: string)
    requires 0 < |sep| <= |s| && EndsWith(s[|sep|..], rest) && Free(rest, sep) && last == rest
    ensures EndsWith(s, last) && Free(last, sep)
  {
    EndsWithOfSuffix(s, |sep|, rest);
  }

  lemma EndsWithOfSuffix(s: string, k: nat, t: string)
    requires k <= |s| && EndsWith(s[k..], t)
    ensures EndsWith(s, t)
  {
    var u := s[k..];
    assert |t| <= |u|;
    var a := s[|s| - |t|..];
    var b := u[|u| - |t|..];
    assert forall j :: 0 <= j < |t| ==> a[j] == b[j];
    assert a == b;
  }

  lemma LastPieceStep(s: string, sep: string)
    requires |sep| > 0 && |s| >= |sep| && s[..|sep|] != sep
    requires EndsWith(s[1..], LastPiece(s[1..], sep)) && Free(LastPiece(s[1..], sep), sep)
    requires |Split(s[1..], sep)| == 1 ==> LastPiece(s[1..], sep) == s[1..]
    ensures EndsWith(s, LastPiece(s, sep)) && Free(LastPiece(s, sep), sep)
    ensures |Split(s, sep)| == 1 ==> LastPiece(s, sep) == s
  {
    LastPieceCons(s, sep);
    LastPieceIs(s, sep);
    LastPieceIs(s[1..], sep);
    PieceAfterFirst(s, sep, LastPiece(s, sep), LastPiece(s[1..], sep), |Split(s[1..], sep)| == 1);
  }

  /**
   * `last` is the last piece of `s` and `rest` that of `s[1..]`, where `s`
   * does not start with the separator; `single` says `s[1..]` has no other.
   */
  lemma PieceAfterFirst(s: string, sep: string, last: string, rest: string, single: bool)
    requires |sep| > 0 && |s| >= |sep| && s[..|sep|] != sep
    requires EndsWith(s[1..], rest) && Free(rest, sep)
    requires single ==> rest == s[1..] && last == [s[0]] + rest
    requires !single ==> last == rest
    ensures EndsWith(s, last) && Free(last, sep) && (single ==> last == s)
  {
    if single {
      WholeText(s);
    } else {
      EndsWithOfSuffix(s, 1, rest);
    }
  }

  /** How the last piece of `s` relates to that of `s[1..]` when `s` does not start with the separator. */
  lemma LastPieceCons(s: string, sep: string)
    requires |sep| > 0 && |s| >= |sep| && s[..|sep|] != sep
    ensures var t := Split(s[1..], sep);
      var p := Split(s, sep);
      |p| == |t| && (|t| > 1 ==> p[|p| - 1] == t[|t| - 1]) && (|t| == 1 ==> p[|p| - 1] == [s[0]] + t[|t| - 1])
  {
    var t := Split(s[1..], sep);
    var p := Split(s, sep);
    SplitKept(s, sep);
    LastOfCons(s[0], t, p, p[|p| - 1], t[|t| - 1]);
  }

  lemma LastPieceIs(s: string, sep: string)
    requires |sep| > 0
    ensures LastPiece(s, sep) == Split(s, sep)[|Split(s, sep)| - 1]
  {
  }

  /** A text ends with itself, and is its first character followed by the rest. */
  lemma WholeText(s: string)
    requires s != []
    ensures [s[0]] + s[1..] == s && EndsWith(s, s)
  {
    assert s[|s| - |s|..] == s;
  }

  /** `nodeid.split("::")[-1]`: the test function's name. */
  function TestName(nodeid: string): string {
    LastPiece(nodeid, "::")
  }

  /** The name is the tail of the id after its last "::", and the whole id when it has none. */
  lemma TestNameIsTail(nodeid: string)
    ensures EndsWith(nodeid, TestName(nodeid)) && Free(TestName(nodeid), "::")
    ensures Free(nodeid, "::") ==> TestName(nodeid) == nodeid
  {
    SplitLastPiece(nodeid, "::");
    if Free(nodeid, "::") {
      SplitWithoutSeparator(nodeid, "::");
    }
  }

  /** The names collected from the failing test ids: empty ids and empty names are skipped. */
  function TestNames(failing: seq<string>): (r: seq<string>)
    ensures forall n :: n in r ==> n != ""
    decreases |failing|
  {
    if failing == [] then []
    else
      var rest := TestNames(failing[1..]);
      if failing[0] != "" && TestName(failing[0]) != "" then [TestName(failing[0])] + rest else rest
  }

  /** Each collected name comes from a non-empty id, and every non-empty name of a non-empty id is collected. */
  lemma {:induction false} TestNamesFrom(failing: seq<string>)
    ensures forall n :: n in TestNames(failing) <==>
      exists k :: 0 <= k < |failing| && failing[k] != "" && n == TestName(failing[k]) && n != ""
    decreases |failing|
  {
    if failing != [] {
      TestNamesFrom(failing[1..]);
      forall n ensures n in TestNames(failing) <==>
        exists k :: 0 <= k < |failing| && failing[k] != "" && n == TestName(failing[k]) && n != ""
      {
        if n in TestNames(failing[1..]) {
          var k :| 0 <= k < |failing[1..]| && failing[1..][k] != "" && n == TestName(failing[1..][k]) && n != "";
          assert failing[k + 1] == failing[1..][k];
        }
        if exists k :: 0 <= k < |failing| && failing[k] != "" && n == TestName(failing[k]) && n != "" {
          var k :| 0 <= k < |failing| && failing[k] != "" && n == TestName(failing[k]) && n != "";
          if k > 0 {
            assert failing[1..][k - 1] == failing[k];
          }
        }
      }
    }
  }

  /** Python's `<` on strings: code point by code point, a proper prefix first. */
  predicate Less(a: string, b: string)
    decreases |a|
  {
    if a == [] then b != []
    else if b == [] then false
    else a[0] < b[0] || (a[0] == b[0] && Less(a[1..], b[1..]))
  }

  lemma {:induction false} LessIrreflexive(a: string)
    ensures !Less(a, a)
    decreases |a|
  {
    if a != [] {
      LessIrreflexive(a[1..]);
    }
  }

  lemma {:induction false} LessTransitive(a: string, b: string, c: string)
    requires Less(a, b) && Less(b, c)
    ensures Less(a, c)
    decreases |a|
  {
    if a != [] && a[0] == b[0] && b[0] == c[0] {
      LessTransitive(a[1..], b[1..], c[1..]);
    }
  }

  lemma {:induction false} LessTotal(a: string, b: string)
    requires a != b
    ensures Less(a, b) || Less(b, a)
    decreases |a|
  {
    if a != [] && b != [] && a[0] == b[0] {
      assert a == [a[0]] + a[1..] && b == [b[0]] + b[1..];
      LessTotal(a[1..], b[1..]);
    }
  }

  /** The elements of a list, as `set(names)` has them. */
  function Elems(s: seq<string>): set<string> {
    set x | x in s
  }

  /** Strictly increasing: sorted and without duplicates. */
  predicate StrictlySorted(s: seq<string>) {
    forall i, j :: 0 <= i < j < |s| ==> Less(s[i], s[j])
  }

  /** Adds `x` to a strictly sorted list at its place, unless it is already there. */
  function InsertUnique(x: string, s: seq<string>): (r: seq<string>)
    ensures Elems(r) == Elems(s) + {x}
    decreases |s|
  {
    if s == [] then [x]
    else if x == s[0] then s
    else if Less(x, s[0]) then [x] + s
    else
      var t := InsertUnique(x, s[1..]);
      assert Elems([s[0]] + t) == {s[0]} + Elems(t);
      assert Elems(s) == {s[0]} + Elems(s[1..]);
      [s[0]] + t
  }

  lemma {:induction false} InsertUniqueSorted(x: string, s: seq<string>)
    requires StrictlySorted(s)
    ensures StrictlySorted(InsertUnique(x, s))
    decreases |s|
  {
    if s != [] && x != s[0] && !Less(x, s[0]) {
      LessTotal(x, s[0]);
      InsertUniqueSorted(x, s[1..]);
      var t := InsertUnique(x, s[1..]);
      var r := [s[0]] + t;
      forall i, j | 0 <= i < j < |r| ensures Less(r[i], r[j]) {
        if i == 0 {
          assert r[j] == t[j - 1];
          assert t[j - 1] in Elems(t);
          if t[j - 1] != x {
            var m :| 0 <= m < |s[1..]| && s[1..][m] == t[j - 1];
            assert s[m + 1] == t[j - 1];
          }
        }
      }
    } else if s != [] && x != s[0] {
      forall i, j | 0 <= i < j < |[x] + s| ensures Less(([x] + s)[i], ([x] + s)[j]) {
        if i == 0 && j > 1 {
          LessTransitive(x, s[0], s[j - 1]);
        }
      }
    }
  }

  /** `sorted(set(names))`, built by inserting the names one after the other. */
  function SortedSet(names: seq<string>): (r: seq<string>)
    ensures Elems(r) == Elems(names)
    decreases |names|
  {
    if names == [] then []
    else
      var init := names[..|names| - 1];
      assert Elems(names)
        == Elems(init) + {names[|names| - 1]};
      InsertUnique(names[|names| - 1], SortedSet(init))
  }

  lemma {:induction false} SortedSetSorted(names: seq<string>)
    ensures StrictlySorted(SortedSet(names))
    decreases |names|
  {
    if names != [] {
      SortedSetSorted(names[..|names| - 1]);
      InsertUniqueSorted(names[|names| - 1], SortedSet(names[..|names| - 1]));
    }
  }

  lemma ElemsEmpty(s: seq<string>)
    ensures Elems(s) == {} <==> s == []
  {
    if s != [] {
      assert s[0] in Elems(s);
    }
  }

  /** A strictly sorted list is fixed by its elements. */
  lemma {:induction false} StrictlySortedUnique(a: seq<string>, b: seq<string>)
    requires StrictlySorted(a) && StrictlySorted(b)
    requires Elems(a) == Elems(b)
    ensures a == b
    decreases |a|
  {
    ElemsEmpty(a);
    ElemsEmpty(b);
    if a != [] && b != [] {
      assert a[0] in Elems(b);
      assert b[0] in Elems(a);
      var i :| 0 <= i < |b| && b[i] == a[0];
      var j :| 0 <= j < |a| && a[j] == b[0];
      if a[0] != b[0] {
        assert i > 0 && j > 0;
        assert Less(b[0], b[i]) && Less(a[0], a[j]);
        LessTransitive(a[0], b[0], a[0]);
        LessIrreflexive(a[0]);
      }
      forall x ensures x in Elems(a[1..]) <==> x in Elems(b[1..]) {
        if x in Elems(a[1..]) {
          var m :| 0 <= m < |a[1..]| && a[1..][m] == x;
          assert Less(a[0], x) && x in Elems(b);
          var n :| 0 <= n < |b| && b[n] == x;
          if n == 0 { LessIrreflexive(x); }
          assert b[1..][n - 1] == x;
        }
        if x in Elems(b[1..]) {
          var m :| 0 <= m < |b[1..]| && b[1..][m] == x;
          assert Less(b[0], x) && x in Elems(a);
          var n :| 0 <= n < |a| && a[n] == x;
          if n == 0 { LessIrreflexive(x); }
          assert a[1..][n - 1] == x;
        }
      }
      StrictlySortedUnique(a[1..], b[1..]);
      assert a == [a[0]] + a[1..] && b == [b[0]] + b[1..];
    }
  }

  /** `sorted(set(names))` depends on the set of names only, not on their order or repetitions. */
  lemma SortedSetOfSameNames(a: seq<string>, b: seq<string>)
    requires Elems(a) == Elems(b)
    ensures SortedSet(a) == SortedSet(b)
  {
    SortedSetSorted(a);
    SortedSetSorted(b);
    StrictlySortedUnique(SortedSet(a), SortedSet(b));
  }

  function TargetedCommand(expr: string): string {
    "pytest -q -k \"" + expr + "\""
  }

  /**
   * `_derive_test_cmd`: with targeted tests on and at least one name among the
   * failing test ids, a `-k` expression of the sorted distinct names; otherwise
   * the TaskContext's own command.
   */
  function DeriveTestCmd(ctx: TaskContext, cfg: Config): string {
    var names := TestNames(ctx.failingTests);
    if cfg.gates.targetedTests && ctx.failingTests != [] && names != [] then
      TargetedCommand(Join(SortedSet(names), " or "))
    else ctx.testCmd
  }

  /** The fallback and the targeted form, with the names sorted, distinct and exactly those of the ids. */
  lemma DeriveTestCmdShape(ctx: TaskContext, cfg: Config)
    ensures var names := TestNames(ctx.failingTests);
      (!cfg.gates.targetedTests || names == []) ==> DeriveTestCmd(ctx, cfg) == ctx.testCmd
    ensures var names := TestNames(ctx.failingTests);
      cfg.gates.targetedTests && names != [] ==>
        exists sorted: seq<string> ::
          DeriveTestCmd(ctx, cfg) == TargetedCommand(Join(sorted, " or "))
          && StrictlySorted(sorted)
          && (forall n :: n in sorted <==>
                exists k :: 0 <= k < |ctx.failingTests| && ctx.failingTests[k] != ""
                  && n == TestName(ctx.failingTests[k]) && n != "")
  {
    var names := TestNames(ctx.failingTests);
    TestNamesFrom(ctx.failingTests);
    if cfg.gates.targetedTests && names != [] {
      var sorted := SortedSet(names);
      SortedSetSorted(names);
      assert ctx.failingTests != [];
      forall n ensures n in sorted <==> n in names {
        assert n in sorted <==> n in Elems(sorted);
        assert n in names <==> n in Elems(names);
      }
    }
  }

  /** Reordering or repeating the failing ids does not change the command. */
  lemma DeriveTestCmdOrderFree(ctx: TaskContext, failing: seq<string>, cfg: Config)
    requires forall id :: id in failing <==> id in ctx.failingTests
    ensures DeriveTestCmd(ctx.(failingTests := failing), cfg) == DeriveTestCmd(ctx, cfg)
  {
    var a := TestNames(ctx.failingTests);
    var b := TestNames(failing);
    TestNamesFrom(ctx.failingTests);
    TestNamesFrom(failing);
    forall n ensures n in Elems(a) <==> n in Elems(b) {
      if n in a {
        var k :| 0 <= k < |ctx.failingTests| && ctx.failingTests[k] != "" && n == TestName(ctx.failingTests[k]) && n != "";
        assert ctx.failingTests[k] in failing;
        var m :| 0 <= m < |failing| && failing[m] == ctx.failingTests[k];
        assert n in b;
      }
      if n in b {
        var k :| 0 <= k < |failing| && failing[k] != "" && n == TestName(failing[k]) && n != "";
        assert failing[k] in ctx.failingTests;
        var m :| 0 <= m < |ctx.failingTests| && ctx.failingTests[m] == failing[k];
        assert n in a;
      }
    }
    SortedSetOfSameNames(a, b);
  }

  /** The context rebinding of each step: a non-empty derived command that differs replaces the TaskContext's. */
  function Rebind(ctx: TaskContext, cfg: Config): (r: TaskContext)
    ensures r == ctx.(testCmd := r.testCmd)
  {
    var derived := DeriveTestCmd(ctx, cfg);
    if derived != "" && derived != ctx.testCmd then ctx.(testCmd := derived) else ctx
  }

  /** Rebinding twice is rebinding once: the context changes at most once across the steps. */
  lemma RebindOnce(ctx: TaskContext, cfg: Config)
    ensures Rebind(Rebind(ctx, cfg), cfg) == Rebind(ctx, cfg)
    ensures Rebind(ctx, cfg).testCmd == DeriveTestCmd(ctx, cfg)
  {
    var derived := DeriveTestCmd(ctx, cfg);
    var r := Rebind(ctx, cfg);
    assert TestNames(r.failingTests) == TestNames(ctx.failingTests);
    assert DeriveTestCmd(r, cfg) == derived;
  }

  // ---------------------------------------------------------------------------
  // `_load_context`

  /** The files handed to the proposer, in order: a path and its numbered windows. */
  type CtxFiles = seq<(string, string)>

  /** `f"{n:>4}: {line}"` */
  function Label(n: nat, line: string): string {
    PadLeft(NatToString(n), 4) + ": " + line
  }

  /** The lines of a window, each labelled with its 1-based number in the file. */
  function Numbered(lines: seq<string>, start: nat): (r: seq<string>)
    ensures |r| == |lines|
    ensures forall k :: 0 <= k < |lines| ==> r[k] == Label(start + k + 1, lines[k])
    decreases |lines|
  {
    if lines == [] then [] else [Label(start + 1, lines[0])] + Numbered(lines[1..], start + 1)
  }

  /** One span's window of a file: a "LINES a-b:" heading, then the numbered lines. */
  function Snippet(raw: string, span: AstSpan, padding: int): string {
    Window(Lines(ReadText(raw)), span, padding)
  }

  /** The window of a span over a file's lines (`Snippet` of a file is the window over its lines). */
  function Window(lines: seq<string>, span: AstSpan, padding: int): string {
    var start := WindowStart(span.startLine, padding);
    var end := WindowEnd(span.endLine, padding, |lines|);
    "LINES " + NatToString(start + 1) + "-" + IntToString(end) + ":\n"
      + Join(Numbered(PySlice(lines, start, end), start), "\n")
  }

  /** A window inside the file shows exactly the padded span's lines, each under its own number. */
  lemma SnippetWindow(lines: seq<string>, span: AstSpan, padding: int)
    requires WindowStart(span.startLine, padding) <= WindowEnd(span.endLine, padding, |lines|)
    ensures var start := WindowStart(span.startLine, padding);
      var end := WindowEnd(span.endLine, padding, |lines|);
      var shown := Numbered(PySlice(lines, start, end), start);
      |shown| == end - start
      && (forall k :: 0 <= k < end - start ==> shown[k] == Label(start + k + 1, lines[start + k]))
      && Window(lines, span, padding)
         == "LINES " + NatToString(start + 1) + "-" + IntToString(end) + ":\n" + Join(shown, "\n")
  {
    var start := WindowStart(span.startLine, padding);
    var end := WindowEnd(span.endLine, padding, |lines|);
    NumberedWindow(lines, start, end);
    WindowHeading(lines, span, padding, start, end);
  }

  /** The heading and the numbered lines, in that order. */
  lemma WindowHeading(lines: seq<string>, span: AstSpan, padding: int, start: nat, end: int)
    requires start == WindowStart(span.startLine, padding) && end == WindowEnd(span.endLine, padding, |lines|)
    ensures Window(lines, span, padding)
         == "LINES " + NatToString(start + 1) + "-" + IntToString(end) + ":\n" + Join(Numbered(PySlice(lines, start, end), start), "\n")
  {
  }

  /** The numbered lines `start..end` of a file: one per line, each under its own number. */
  lemma NumberedWindow(lines: seq<string>, start: nat, end: int)
    requires start <= end <= |lines|
    ensures var shown := Numbered(PySlice(lines, start, end), start);
      |shown| == end - start && forall k :: 0 <= k < end - start ==> shown[k] == Label(start + k + 1, lines[start + k])
  {
    assert PySlice(lines, start, end) == lines[start..end];
  }

  /** `grouped.setdefault(f, []).append(x)` on the ordered association list of snippets. */
  function AddSnippet(g: seq<(string, seq<string>)>, f: string, x: string): (r: seq<(string, seq<string>)>)
    decreases |g|
  {
    if g == [] then [(f, [x])]
    else if g[0].0 == f then [(f, g[0].1 + [x])] + g[1..]
    else [g[0]] + AddSnippet(g[1..], f, x)
  }

  /** The snippets grouped by file, files in the order they first appear among the spans that exist. */
  function Grouped(tree: Tree, spans: seq<AstSpan>, padding: int): seq<(string, seq<string>)>
    decreases |spans|
  {
    if spans == [] then []
    else
      var g := Grouped(tree, spans[..|spans| - 1], padding);
      var sp := spans[|spans| - 1];
      if sp.file in tree then AddSnippet(g, sp.file, Snippet(tree[sp.file], sp, padding)) else g
  }

  /** `_load_context`: each file's snippets joined by a blank line. */
  function LoadContext(tree: Tree, step: PlanStep, padding: int): CtxFiles
  {
    var g := Grouped(tree, step.targetSpans, padding);
    seq(|g|, k requires 0 <= k < |g| => (g[k].0, Join(g[k].1, "\n\n")))
  }

  /** The reference: the snippets of the spans on file `f`, in span order. */
  function SnippetsOf(tree: Tree, spans: seq<AstSpan>, f: string, padding: int): seq<string>
    requires f in tree
    decreases |spans|
  {
    if spans == [] then []
    else
      var sp := spans[|spans| - 1];
      SnippetsOf(tree, spans[..|spans| - 1], f, padding)
        + (if sp.file == f then [Snippet(tree[f], sp, padding)] else [])
  }

  /** A file has snippets exactly when one of the spans is on it. */
  lemma {:induction false} SnippetsOfSpans(tree: Tree, spans: seq<AstSpan>, f: string, padding: int)
    requires f in tree
    ensures SnippetsOf(tree, spans, f, padding) != [] <==> exists k :: 0 <= k < |spans| && spans[k].file == f
    decreases |spans|
  {
    if spans != [] {
      var init := spans[..|spans| - 1];
      SnippetsOfSpans(tree, init, f, padding);
      if exists k :: 0 <= k < |init| && init[k].file == f {
        var k :| 0 <= k < |init| && init[k].file == f;
        assert spans[k] == init[k];
      }
      if exists k :: 0 <= k < |spans| && spans[k].file == f {
        var k :| 0 <= k < |spans| && spans[k].file == f;
        if k < |init| {
          assert init[k] == spans[k];
        }
      }
    }
  }

  /** The files of a grouping. */
  function Keys(g: seq<(string, seq<string>)>): set<string>
    decreases |g|
  {
    if g == [] then {} else {g[0].0} + Keys(g[1..])
  }

  /** The snippets a grouping holds for `f`, none if it has no entry. */
  function GroupOf(g: seq<(string, seq<string>)>, f: string): seq<string>
    decreases |g|
  {
    if g == [] then [] else if g[0].0 == f then g[0].1 else GroupOf(g[1..], f)
  }

  /** No file has two entries. */
  predicate Distinct(g: seq<(string, seq<string>)>)
    decreases |g|
  {
    g == [] || (g[0].0 !in Keys(g[1..]) && Distinct(g[1..]))
  }

  lemma {:induction false} AddSnippetKeys(g: seq<(string, seq<string>)>, f: string, x: string)
    ensures Keys(AddSnippet(g, f, x)) == Keys(g) + {f}
    decreases |g|
  {
    if g != [] && g[0].0 != f {
      AddSnippetKeys(g[1..], f, x);
    } else if g != [] {
      assert AddSnippet(g, f, x)[1..] == g[1..];
    }
  }

  lemma {:induction false} AddSnippetGroup(g: seq<(string, seq<string>)>, f: string, x: string, h: string)
    ensures GroupOf(AddSnippet(g, f, x), h) == GroupOf(g, h) + (if h == f then [x] else [])
    decreases |g|
  {
    if g != [] && g[0].0 != f {
      AddSnippetGroup(g[1..], f, x, h);
    } else if g != [] {
      assert AddSnippet(g, f, x)[1..] == g[1..];
    }
  }

  lemma {:induction false} AddSnippetDistinct(g: seq<(string, seq<string>)>, f: string, x: string)
    requires Distinct(g)
    ensures Distinct(AddSnippet(g, f, x))
    decreases |g|
  {
    if g != [] && g[0].0 != f {
      AddSnippetDistinct(g[1..], f, x);
      AddSnippetKeys(g[1..], f, x);
    } else if g != [] {
      assert AddSnippet(g, f, x)[1..] == g[1..];
    }
  }

  /** The grouping holds exactly the existing files with spans, each with its snippets, each once. */
  lemma {:induction false} GroupedContents(tree: Tree, spans: seq<AstSpan>, padding: int)
    ensures var g := Grouped(tree, spans, padding);
      Distinct(g)
      && (forall f :: f in Keys(g) <==> f in tree && SnippetsOf(tree, spans, f, padding) != [])
      && (forall f :: f in tree ==> GroupOf(g, f) == SnippetsOf(tree, spans, f, padding))
    decreases |spans|
  {
    if spans != [] {
      var init := spans[..|spans| - 1];
      var sp := spans[|spans| - 1];
      var g := Grouped(tree, init, padding);
      GroupedContents(tree, init, padding);
      if sp.file in tree {
        var x := Snippet(tree[sp.file], sp, padding);
        AddSnippetDistinct(g, sp.file, x);
        AddSnippetKeys(g, sp.file, x);
        forall f ensures GroupOf(AddSnippet(g, sp.file, x), f) == GroupOf(g, f) + (if f == sp.file then [x] else []) {
          AddSnippetGroup(g, sp.file, x, f);
        }
      }
    }
  }

  lemma {:induction false} KeysAt(g: seq<(string, seq<string>)>, f: string)
    ensures f in Keys(g) <==> exists i :: 0 <= i < |g| && g[i].0 == f
    decreases |g|
  {
    if g != [] {
      KeysAt(g[1..], f);
      if exists i :: 0 <= i < |g[1..]| && g[1..][i].0 == f {
        var i :| 0 <= i < |g[1..]| && g[1..][i].0 == f;
        assert g[i + 1] == g[1..][i];
      }
      if exists i :: 0 <= i < |g| && g[i].0 == f {
        var i :| 0 <= i < |g| && g[i].0 == f;
        if i > 0 {
          assert g[1..][i - 1] == g[i];
        }
      }
    }
  }

  lemma {:induction false} DistinctAt(g: seq<(string, seq<string>)>, i: nat)
    requires Distinct(g) && i < |g|
    ensures GroupOf(g, g[i].0) == g[i].1
    ensures forall j :: 0 <= j < |g| && j != i ==> g[j].0 != g[i].0
    decreases |g|
  {
    if i == 0 {
      forall j | 0 < j < |g| ensures g[j].0 != g[0].0 {
        KeysAt(g[1..], g[0].0);
        assert g[1..][j - 1] == g[j];
      }
    } else {
      DistinctAt(g[1..], i - 1);
      assert g[1..][i - 1] == g[i];
      KeysAt(g[1..], g[0].0);
      assert g[0].0 != g[i].0;
      forall j | 0 <= j < |g| && j != i ensures g[j].0 != g[i].0 {
        if j > 0 {
          assert g[1..][j - 1] == g[j];
        }
      }
    }
  }

  /**
   * `_load_context` lists each existing file of the step's spans exactly once,
   * skips the missing ones, and gives each file its spans' windows in span
   * order, separated by blank lines.
   */
  lemma LoadContextContents(tree: Tree, step: PlanStep, padding: int)
    ensures var r := LoadContext(tree, step, padding);
      (forall i, j :: 0 <= i < j < |r| ==> r[i].0 != r[j].0)
      && (forall f :: (exists i :: 0 <= i < |r| && r[i].0 == f) <==>
            f in tree && exists k :: 0 <= k < |step.targetSpans| && step.targetSpans[k].file == f)
      && (forall i :: 0 <= i < |r| ==>
            r[i].0 in tree && r[i].1 == Join(SnippetsOf(tree, step.targetSpans, r[i].0, padding), "\n\n"))
  {
    var spans := step.targetSpans;
    var g := Grouped(tree, spans, padding);
    var r := LoadContext(tree, step, padding);
    GroupedContents(tree, spans, padding);
    forall i | 0 <= i < |r|
      ensures r[i].0 in tree && r[i].1 == Join(SnippetsOf(tree, spans, r[i].0, padding), "\n\n")
      ensures forall j :: 0 <= j < |r| && j != i ==> r[j].0 != r[i].0
    {
      DistinctAt(g, i);
      KeysAt(g, g[i].0);
    }
    forall f ensures (exists i :: 0 <= i < |r| && r[i].0 == f) <==>
      f in tree && exists k :: 0 <= k < |spans| && spans[k].file == f
    {
      KeysAt(g, f);
      if f in tree {
        SnippetsOfSpans(tree, spans, f, padding);
      }
      if exists i :: 0 <= i < |r| && r[i].0 == f {
        var i :| 0 <= i < |r| && r[i].0 == f;
        assert g[i].0 == f;
      }
      if exists i :: 0 <= i < |g| && g[i].0 == f {
        var i :| 0 <= i < |g| && g[i].0 == f;
        assert r[i].0 == f;
      }
    }
  }

  // ---------------------------------------------------------------------------
  // The outside world of `run_controller`

  /** What `combine.combine_to_failure_pattern` reports that the controller uses. */
  datatype FailureSummary = FailureSummary(summary: string, invariants: seq<string>)

  /**
   * The LLM's replies: to the recall prompt, to each probe, to the synthesis
   * prompt for the probed candidates, to the planning prompt for an
   * understanding, to the landmark prompt for a failure pattern, and to the
   * `n`-th proposer prompt for a step and its context files.
   */
  datatype Llm = Llm(
    parse: Parser,
    recall: string,
    probe: ProbeReply,
    synthesize: seq<Candidate> -> string,
    plan: Understanding -> string,
    landmarks: FailureSummary -> string,
    propose: (PlanStep, CtxFiles, nat) -> string)

  /** The investigation machinery: the scheduler, the probe runner and `combine`. */
  datatype Investigation = Investigation(next: Scheduler, run: Runner, combine: Board -> FailureSummary)

  datatype ControllerResult = ControllerResult(
    finalPatch: string,
    transactions: seq<TransactionResult>,
    understanding: Understanding,
    plan: seq<PlanStep>)

  // ---------------------------------------------------------------------------
  // Planning

  predicate LandmarksOn(cfg: Config) {
    cfg.search.useLandmarks && cfg.search.investigationsEnabled
  }

  /** `cfg.limits.slice_padding_lines // 8 or 10` (floor division, as Dafny's for a positive divisor). */
  function QuantumOps(cfg: Config): int {
    var q := cfg.limits.slicePaddingLines / 8;
    if q == 0 then 10 else q
  }

  /** `max(1, cfg.search.diffs_per_step)`: the probe budget of the investigations. */
  function ProbeBudget(cfg: Config): (b: int)
    ensures b >= 1 && b >= cfg.search.diffsPerStep
  {
    if cfg.search.diffsPerStep >= 1 then cfg.search.diffsPerStep else 1
  }

  /** The plan without investigations: recall, probe, synthesize, plan, truncate to `max_steps`. */
  function PlanBySynthesis(cfg: Config, llm: Llm): (r: Result<(Understanding, seq<PlanStep>), Error>)
    ensures r.Ok? && cfg.search.maxSteps >= 0 ==> |r.value.1| <= cfg.search.maxSteps
  {
    match RecallCandidates(llm.recall, llm.parse)
    case Err(e) => Err(e)
    case Ok(cands) =>
      match ProbeAll(cands, llm.probe, llm.parse)
      case Err(e) => Err(e)
      case Ok(probed) =>
        match Synthesize(llm.synthesize(probed), llm.parse)
        case Err(e) => Err(e)
        case Ok(u) =>
          match Plan(llm.plan(u), llm.parse)
          case Err(e) => Err(e)
          case Ok(steps) => Ok((u, Take(steps, cfg.search.maxSteps)))
  }

  /** The plan from a failure pattern: at most three landmarks, as steps, truncated to `max_steps`. */
  function PlanByLandmarks(failure: FailureSummary, cfg: Config, llm: Llm): (r: Result<(Understanding, seq<PlanStep>), Error>)
    ensures r.Ok? ==> r.value.0 == Understanding(failure.summary, failure.invariants, [])
    ensures r.Ok? ==> |r.value.1| <= 3 && (cfg.search.maxSteps >= 0 ==> |r.value.1| <= cfg.search.maxSteps)
    ensures r.Ok? ==> forall k :: 0 <= k < |r.value.1| ==>
      r.value.1[k].check == "tests" && StartsWith(r.value.1[k].idealOutcome, LandmarkPrefix)
  {
    match PlanLandmarks(llm.landmarks(failure), llm.parse, 3)
    case Err(e) => Err(e)
    case Ok(lms) =>
      var steps := LandmarksToSteps(lms);
      var plan := Take(steps, cfg.search.maxSteps);
      assert forall k :: 0 <= k < |plan| ==> plan[k] == steps[k];
      Ok((Understanding(failure.summary, failure.invariants, []), plan))
  }

  /**
   * The planning half of `run_controller`: recall and probe the candidates,
   * then either run the investigations and plan landmarks, or synthesize an
   * understanding and plan from it.
   */
  method Prepare(cfg: Config, llm: Llm, inv: Investigation) returns (r: Result<(Understanding, seq<PlanStep>), Error>)
    ensures !LandmarksOn(cfg) ==> r == PlanBySynthesis(cfg, llm)
    ensures LandmarksOn(cfg) && RecallCandidates(llm.recall, llm.parse).Err? ==>
      r == Err(RecallCandidates(llm.recall, llm.parse).error)
    ensures LandmarksOn(cfg) && r.Ok? ==>
      exists failure :: r == PlanByLandmarks(failure, cfg, llm)
  {
    var cands := RecallCandidates(llm.recall, llm.parse);
    if cands.Err? {
      return Err(cands.error);
    }
    var probed := Probe(cands.value, llm.probe, llm.parse);
    if probed.Err? {
      return Err(probed.error);
    }
    if LandmarksOn(cfg) {
      var board, _ := RunInvestigations(probed.value, ProbeBudget(cfg), QuantumOps(cfg), 60, inv.next, inv.run);
      if board.Err? {
        return Err(board.error);
      }
      r := PlanByLandmarks(inv.combine(board.value), cfg, llm);
    } else {
      var u := Synthesize(llm.synthesize(probed.value), llm.parse);
      if u.Err? {
        return Err(u.error);
      }
      var steps := Plan(llm.plan(u.value), llm.parse);
      if steps.Err? {
        return Err(steps.error);
      }
      r := Ok((u.value, Take(steps.value, cfg.search.maxSteps)));
    }
  }

  // ---------------------------------------------------------------------------
  // The step loop, as a function of the repository state

  /** `max(1, cfg.search.retries_per_step)`: the main attempts of a step. */
  function AttemptCount(cfg: Config): (n: nat)
    ensures n >= 1 && n >= cfg.search.retriesPerStep
  {
    if cfg.search.retriesPerStep >= 1 then cfg.search.retriesPerStep else 1
  }

  /** `max(1, cfg.search.finalists)`: how many proposals go into a transaction. */
  function Finalists(cfg: Config): (n: nat)
    ensures n >= 1 && n >= cfg.search.finalists
  {
    if cfg.search.finalists >= 1 then cfg.search.finalists else 1
  }

  /** The `n`-th proposer call of a step and its shortlist: the first `Finalists` proposals. */
  function Shortlist(step: PlanStep, files: CtxFiles, cfg: Config, llm: Llm, n: nat): (r: Result<seq<DiffProposal>, Error>)
    ensures var all := Propose(step, cfg, llm.propose(step, files, n), llm.parse);
      (r.Err? <==> all.Err?) && (r.Err? ==> r.error == all.error)
      && (r.Ok? ==> all.Ok? && |r.value| <= Finalists(cfg) && |r.value| <= |all.value|
                    && r.value == all.value[..|r.value|]
                    && (|r.value| < Finalists(cfg) ==> r.value == all.value))
  {
    match Propose(step, cfg, llm.propose(step, files, n), llm.parse)
    case Err(e) => Err(e)
    case Ok(ps) =>
      TakeNonNegative(ps, Finalists(cfg));
      Ok(Take(ps, Finalists(cfg)))
  }

  /** The failures the retry regenerates proposals for. */
  const RecoverableMarkers: seq<string> :=
    ["validation failed", "git apply failed", "static checks failed", "targeted tests failed"]

  /** Some log line holds one of the recoverable markers. */
  predicate Recoverable(logs: seq<string>) {
    exists k, m :: 0 <= k < |logs| && 0 <= m < |RecoverableMarkers| && Contains(logs[k], RecoverableMarkers[m])
  }

  /**
   * A step's progress: its transactions, the logs of its last transaction,
   * whether it committed, whether the retry ran, and the proposer calls made
   * so far in the run.
   */
  datatype Progress = Progress(
    txns: seq<TransactionResult>,
    lastLogs: seq<string>,
    committed: bool,
    retried: bool,
    calls: nat)

  /** One main attempt: shortlist proposals and, when there are any, run a transaction over them. */
  function Attempt(ctx: TaskContext, step: PlanStep, files: CtxFiles, cfg: Config, env: Env, llm: Llm,
                   p: Progress, s: RepoState): (r: (Result<Progress, Error>, RepoState))
    requires s.Valid()
    ensures r.1.Valid()
  {
    match Shortlist(step, files, cfg, llm, p.calls)
    case Err(e) => (Err(e), s)
    case Ok(short) =>
      if short == [] then (Ok(p.(calls := p.calls + 1)), s)
      else
        var (o, t) := Txn(ctx, step, short, cfg, env, s);
        (AfterTxn(p, o), t)
  }

  /** The progress once an attempt's transaction ended with `o`: an error, or one more transaction and call. */
  function AfterTxn(p: Progress, o: Outcome): Result<Progress, Error> {
    match o
    case Raised(e) => Err(e)
    case Done(res) => Ok(p.(txns := p.txns + [res], lastLogs := res.logs, committed := res.committed, calls := p.calls + 1))
  }

  /** The main attempts of a step, from attempt `a` on, until the attempt budget is spent. */
  function MainAttempts(ctx: TaskContext, step: PlanStep, files: CtxFiles, cfg: Config, env: Env, llm: Llm,
                        a: nat, p: Progress, s: RepoState): (r: (Result<Progress, Error>, RepoState))
    requires s.Valid()
    ensures r.1.Valid()
    decreases AttemptCount(cfg) - a, 2
  {
    if a >= AttemptCount(cfg) then (Ok(p), s)
    else NextAttempt(ctx, step, files, cfg, env, llm, a, p, s)
  }

  /** Main attempt `a`, and what follows it. */
  function NextAttempt(ctx: TaskContext, step: PlanStep, files: CtxFiles, cfg: Config, env: Env, llm: Llm,
                       a: nat, p: Progress, s: RepoState): (r: (Result<Progress, Error>, RepoState))
    requires s.Valid() && a < AttemptCount(cfg)
    ensures r.1.Valid()
    decreases AttemptCount(cfg) - a, 1
  {
    AfterAttempt(ctx, step, files, cfg, env, llm, a, Attempt(ctx, step, files, cfg, env, llm, p, s))
  }

  /** After main attempt `a` ended with `m`: an error or the first commit ends the attempts, otherwise the next one runs. */
  function AfterAttempt(ctx: TaskContext, step: PlanStep, files: CtxFiles, cfg: Config, env: Env, llm: Llm,
                        a: nat, m: (Result<Progress, Error>, RepoState)): (r: (Result<Progress, Error>, RepoState))
    requires m.1.Valid() && a < AttemptCount(cfg)
    ensures r.1.Valid()
    decreases AttemptCount(cfg) - a, 0
  {
    match m.0
    case Err(e) => (Err(e), m.1)
    case Ok(q) =>
      if q.committed then (Ok(q), m.1)
      else MainAttempts(ctx, step, files, cfg, env, llm, a + 1, q, m.1)
  }

  /**
   * The reason-aware retry: when nothing committed and a last log is
   * recoverable, one more attempt, which leaves the logs of the main attempts
   * as the step's last logs.
   */
  function Retry(ctx: TaskContext, step: PlanStep, files: CtxFiles, cfg: Config, env: Env, llm: Llm,
                 p: Progress, s: RepoState): (r: (Result<Progress, Error>, RepoState))
    requires s.Valid()
    ensures r.1.Valid()
  {
    if p.committed || p.lastLogs == [] || !Recoverable(p.lastLogs) then (Ok(p), s)
    else
      var (m, t) := Attempt(ctx, step, files, cfg, env, llm, p, s);
      match m
      case Err(e) => (Err(e), t)
      case Ok(q) => (Ok(q.(retried := true, lastLogs := p.lastLogs)), t)
  }

  /** One step of the plan: the main attempts, then the retry. */
  function RunStep(ctx: TaskContext, step: PlanStep, files: CtxFiles, cfg: Config, env: Env, llm: Llm,
                   calls: nat, s: RepoState): (r: (Result<Progress, Error>, RepoState))
    requires s.Valid()
    ensures r.1.Valid()
  {
    var (m, t) := MainAttempts(ctx, step, files, cfg, env, llm, 0, Progress([], [], false, false, calls), s);
    match m
    case Err(e) => (Err(e), t)
    case Ok(p) => Retry(ctx, step, files, cfg, env, llm, p, t)
  }

  /** The steps of the plan from `k` on. */
  function StepsFrom(ctx: TaskContext, plan: seq<PlanStep>, k: nat, cfg: Config, env: Env, llm: Llm,
                     txns: seq<TransactionResult>, calls: nat, s: RepoState)
    : (r: (Result<(seq<TransactionResult>, nat), Error>, RepoState))
    requires s.Valid()
    ensures r.1.Valid()
    decreases |plan| - k, 2
  {
    if k >= |plan| then (Ok((txns, calls)), s)
    else NextStep(ctx, plan, k, cfg, env, llm, txns, calls, s)
  }

  /** Step `k`: load the context from the working tree, rebind the test command, run the step; then what follows. */
  function NextStep(ctx: TaskContext, plan: seq<PlanStep>, k: nat, cfg: Config, env: Env, llm: Llm,
                    txns: seq<TransactionResult>, calls: nat, s: RepoState)
    : (r: (Result<(seq<TransactionResult>, nat), Error>, RepoState))
    requires s.Valid() && k < |plan|
    ensures r.1.Valid()
    decreases |plan| - k, 1
  {
    var files := LoadContext(s.tree, plan[k], cfg.limits.slicePaddingLines);
    var c := Rebind(ctx, cfg);
    AfterStep(c, plan, k, cfg, env, llm, txns, RunStep(c, plan[k], files, cfg, env, llm, calls, s))
  }

  /** After step `k` ended with `m`: an error ends the run, otherwise its transactions are kept and the next step runs. */
  function AfterStep(ctx: TaskContext, plan: seq<PlanStep>, k: nat, cfg: Config, env: Env, llm: Llm,
                     txns: seq<TransactionResult>, m: (Result<Progress, Error>, RepoState))
    : (r: (Result<(seq<TransactionResult>, nat), Error>, RepoState))
    requires m.1.Valid() && k < |plan|
    ensures r.1.Valid()
    decreases |plan| - k, 0
  {
    match m.0
    case Err(e) => (Err(e), m.1)
    case Ok(p) => StepsFrom(ctx, plan, k + 1, cfg, env, llm, txns + p.txns, p.calls, m.1)
  }

  /** The final patch: `git diff base..HEAD`, or when that is empty the last transaction's applied diff. */
  function FinalPatch(diff: string, txns: seq<TransactionResult>): string {
    if diff == "" && txns != [] && txns[|txns| - 1].appliedDiff.Some? then
      txns[|txns| - 1].appliedDiff.value.unifiedDiff
    else diff
  }

  // ---------------------------------------------------------------------------
  // run_controller on the repository object

  /** One main attempt on the repository, as `Attempt` describes it. */
  method AttemptOn(repo: Repository, ctx: TaskContext, step: PlanStep, files: CtxFiles, cfg: Config, env: Env,
                   llm: Llm, p: Progress) returns (r: Result<Progress, Error>)
    requires repo.Valid()
    modifies repo
    ensures repo.Valid()
    ensures (r, repo.State()) == Attempt(ctx, step, files, cfg, env, llm, p, old(repo.State()))
  {
    var short := Shortlist(step, files, cfg, llm, p.calls);
    if short.Err? {
      return Err(short.error);
    }
    if short.value == [] {
      return Ok(p.(calls := p.calls + 1));
    }
    var o := TxnPatch(repo, ctx, step, short.value, cfg, env);
    if o.Raised? {
      return Err(o.error);
    }
    r := Ok(p.(txns := p.txns + [o.result], lastLogs := o.result.logs, committed := o.result.committed,
               calls := p.calls + 1));
  }

  /** The main attempts of a step on the repository, as `MainAttempts` describes them. */
  method MainAttemptsOn(repo: Repository, ctx: TaskContext, step: PlanStep, files: CtxFiles, cfg: Config, env: Env,
                        llm: Llm, calls: nat) returns (r: Result<Progress, Error>)
    requires repo.Valid()
    modifies repo
    ensures repo.Valid()
    ensures (r, repo.State())
      == MainAttempts(ctx, step, files, cfg, env, llm, 0, Progress([], [], false, false, calls), old(repo.State()))
  {
    ghost var s0 := repo.State();
    var p := Progress([], [], false, false, calls);
    var a := 0;
    while a < AttemptCount(cfg)
      invariant repo.Valid()
      invariant MainAttempts(ctx, step, files, cfg, env, llm, a, p, repo.State())
             == MainAttempts(ctx, step, files, cfg, env, llm, 0, Progress([], [], false, false, calls), s0)
      decreases AttemptCount(cfg) - a
    {
      ghost var s := repo.State();
      var m := AttemptOn(repo, ctx, step, files, cfg, env, llm, p);
      AttemptsContinue(ctx, step, files, cfg, env, llm, a, p, s, (m, repo.State()));
      if m.Err? {
        return Err(m.error);
      }
      p := m.value;
      if p.committed {
        return Ok(p);
      }
      a := a + 1;
    }
    r := Ok(p);
  }

  /** The retry of a step on the repository, as `Retry` describes it. */
  method RetryOn(repo: Repository, ctx: TaskContext, step: PlanStep, files: CtxFiles, cfg: Config, env: Env,
                 llm: Llm, p: Progress) returns (r: Result<Progress, Error>)
    requires repo.Valid()
    modifies repo
    ensures repo.Valid()
    ensures (r, repo.State()) == Retry(ctx, step, files, cfg, env, llm, p, old(repo.State()))
  {
    if p.committed || p.lastLogs == [] || !Recoverable(p.lastLogs) {
      return Ok(p);
    }
    var m := AttemptOn(repo, ctx, step, files, cfg, env, llm, p);
    if m.Err? {
      return Err(m.error);
    }
    r := Ok(m.value.(retried := true, lastLogs := p.lastLogs));
  }

  /** One step on the repository, as `RunStep` describes it. */
  method RunStepOn(repo: Repository, ctx: TaskContext, step: PlanStep, files: CtxFiles, cfg: Config, env: Env,
                   llm: Llm, calls: nat) returns (r: Result<Progress, Error>)
    requires repo.Valid()
    modifies repo
    ensures repo.Valid()
    ensures (r, repo.State()) == RunStep(ctx, step, files, cfg, env, llm, calls, old(repo.State()))
  {
    var m := MainAttemptsOn(repo, ctx, step, files, cfg, env, llm, calls);
    if m.Err? {
      return Err(m.error);
    }
    r := RetryOn(repo, ctx, step, files, cfg, env, llm, m.value);
  }

  /** The steps of the plan on the repository, as `StepsFrom` describes them. */
  method RunSteps(repo: Repository, ctx: TaskContext, plan: seq<PlanStep>, cfg: Config, env: Env, llm: Llm)
    returns (r: Result<(seq<TransactionResult>, nat), Error>)
    requires repo.Valid()
    modifies repo
    ensures repo.Valid()
    ensures (r, repo.State()) == StepsFrom(ctx, plan, 0, cfg, env, llm, [], 0, old(repo.State()))
  {
    ghost var s0 := repo.State();
    var c := ctx;
    var txns: seq<TransactionResult> := [];
    var calls := 0;
    var k := 0;
    while k < |plan|
      invariant k <= |plan| && repo.Valid()
      invariant StepsFrom(c, plan, k, cfg, env, llm, txns, calls, repo.State())
             == StepsFrom(ctx, plan, 0, cfg, env, llm, [], 0, s0)
      decreases |plan| - k
    {
      ghost var s := repo.State();
      ghost var c0 := c;
      var files := LoadContext(repo.tree, plan[k], cfg.limits.slicePaddingLines);
      c := Rebind(c, cfg);
      var p := RunStepOn(repo, c, plan[k], files, cfg, env, llm, calls);
      StepsContinue(c0, plan, k, cfg, env, llm, txns, calls, s, (p, repo.State()));
      if p.Err? {
        return Err(p.error);
      }
      txns := txns + p.value.txns;
      calls := p.value.calls;
      k := k + 1;
    }
    r := Ok((txns, calls));
  }

  /**
   * `run_controller`: take the baseline, plan, run the steps, and pick the
   * final patch from `git diff baseline..HEAD` (the oracle `diff` over the two
   * commits' trees).
   */
  method RunController(repo: Repository, ctx: TaskContext, config: Option<Config>, env: Env, llm: Llm,
                       inv: Investigation, diff: (Tree, Tree) -> string) returns (r: Result<ControllerResult, Error>)
    requires repo.Valid()
    modifies repo
    ensures repo.Valid()
    ensures var cfg := if config.Some? then config.value else Default();
      r.Ok? ==>
        var (steps, s) := StepsFrom(ctx, r.value.plan, 0, cfg, env, llm, [], 0, old(repo.State()));
        steps.Ok? && s == repo.State() && r.value.transactions == steps.value.0
        && |old(repo.commits)| <= |repo.commits| && repo.commits[..|old(repo.commits)|] == old(repo.commits)
        && r.value.finalPatch
           == FinalPatch(diff(repo.commits[old(repo.head)], repo.commits[repo.head]), r.value.transactions)
    ensures r.Ok? ==> forall j :: 0 <= j < |r.value.transactions| ==> Reported(r.value.transactions[j])
    ensures var cfg := if config.Some? then config.value else Default();
      r.Ok? && !LandmarksOn(cfg) ==> PlanBySynthesis(cfg, llm) == Ok((r.value.understanding, r.value.plan))
    ensures var cfg := if config.Some? then config.value else Default();
      r.Ok? && LandmarksOn(cfg) ==>
        exists failure :: PlanByLandmarks(failure, cfg, llm) == Ok((r.value.understanding, r.value.plan))
  {
    var cfg := if config.Some? then config.value else Default();
    var baseline := repo.Checkpoint();
    ghost var s0 := repo.State();
    var prepared := Prepare(cfg, llm, inv);
    if prepared.Err? {
      return Err(prepared.error);
    }
    var (understanding, plan) := prepared.value;
    var steps := RunSteps(repo, ctx, plan, cfg, env, llm);
    if steps.Err? {
      return Err(steps.error);
    }
    StepsKeepHistory(ctx, plan, 0, cfg, env, llm, [], 0, s0);
    StepsShape(ctx, plan, 0, cfg, env, llm, [], 0, s0);
    var txns := steps.value.0;
    var patch := FinalPatch(diff(repo.commits[baseline], repo.commits[repo.head]), txns);
    r := Ok(ControllerResult(patch, txns, understanding, plan));
  }

  // ---------------------------------------------------------------------------
  // What the loop promises

  /** A transaction's history only grows: the commits before it are kept as they were. */
  lemma TxnKeepsHistory(ctx: TaskContext, step: PlanStep, proposals: seq<DiffProposal>, cfg: Config, env: Env,
                        s: RepoState)
    requires s.Valid()
    ensures var t := Txn(ctx, step, proposals, cfg, env, s).1;
      |s.commits| <= |t.commits| && t.commits[..|s.commits|] == s.commits
  {
    var (o, t) := Txn(ctx, step, proposals, cfg, env, s);
    TxnCommitsOnlyAfterGates(ctx, step, proposals, cfg, env, s);
    TxnNoCommitReverts(ctx, step, proposals, cfg, env, s);
    TxnRaisedKeepsHistory(ctx, step, proposals, cfg, env, s);
    if o.Done? && o.result.committed {
      var muPre := Baseline(ctx, cfg, env, s).0;
      var j :| 0 <= j < |proposals| && j < Budget(cfg) && o.result.appliedDiff == Some(proposals[j])
          && (CommittedFrom(ctx, step, cfg, env, muPre, s, proposals[j], s.tree, t)
              || CommittedFrom(ctx, step, cfg, env, muPre, s, proposals[j], s.HeadTree(), t));
      assert (s.commits + [t.tree])[..|s.commits|] == s.commits;
    }
  }

  /** A transaction that ends with a result reports an applied diff exactly when it committed. */
  lemma TxnReportsApplied(ctx: TaskContext, step: PlanStep, proposals: seq<DiffProposal>, cfg: Config, env: Env,
                          s: RepoState)
    requires s.Valid()
    ensures var o := Txn(ctx, step, proposals, cfg, env, s).0;
      o.Done? ==> (o.result.committed <==> o.result.appliedDiff.Some?)
  {
    TxnCommitsOnlyAfterGates(ctx, step, proposals, cfg, env, s);
    TxnNoCommitReverts(ctx, step, proposals, cfg, env, s);
  }

  predicate Reported(t: TransactionResult) {
    t.committed <==> t.appliedDiff.Some?
  }

  /** `t` keeps the history of `s`: its commits start with those of `s`. */
  predicate Extends(s: RepoState, t: RepoState) {
    |s.commits| <= |t.commits| && t.commits[..|s.commits|] == s.commits
  }

  lemma ExtendsTrans(s: RepoState, t: RepoState, u: RepoState)
    requires Extends(s, t) && Extends(t, u)
    ensures Extends(s, u)
  {
    assert u.commits[..|s.commits|] == u.commits[..|t.commits|][..|s.commits|];
  }

  lemma TxnExtends(ctx: TaskContext, step: PlanStep, proposals: seq<DiffProposal>, cfg: Config, env: Env,
                   s: RepoState)
    requires s.Valid()
    ensures Extends(s, Txn(ctx, step, proposals, cfg, env, s).1)
  {
    TxnKeepsHistory(ctx, step, proposals, cfg, env, s);
  }

  lemma AttemptKeepsHistory(ctx: TaskContext, step: PlanStep, files: CtxFiles, cfg: Config, env: Env, llm: Llm,
                             p: Progress, s: RepoState)
    requires s.Valid()
    ensures Extends(s, Attempt(ctx, step, files, cfg, env, llm, p, s).1)
  {
    var short := Shortlist(step, files, cfg, llm, p.calls);
    if short.Ok? && short.value != [] {
      TxnExtends(ctx, step, short.value, cfg, env, s);
    } else {
      ExtendsRefl(s);
    }
  }

  /** Main attempt `a` ended with `m`: the attempts end there on an error or a commit, and go on from `m` otherwise. */
  lemma AttemptsContinue(ctx: TaskContext, step: PlanStep, files: CtxFiles, cfg: Config, env: Env, llm: Llm,
                         a: nat, p: Progress, s: RepoState, m: (Result<Progress, Error>, RepoState))
    requires s.Valid() && a < AttemptCount(cfg) && m == Attempt(ctx, step, files, cfg, env, llm, p, s)
    ensures MainAttempts(ctx, step, files, cfg, env, llm, a, p, s)
         == if m.0.Ok? && !m.0.value.committed then MainAttempts(ctx, step, files, cfg, env, llm, a + 1, m.0.value, m.1) else m
  {
    MainAttemptsUnfold(ctx, step, files, cfg, env, llm, a, p, s);
    AfterAttemptUnfold(ctx, step, files, cfg, env, llm, a, m);
  }

  lemma MainAttemptsUnfold(ctx: TaskContext, step: PlanStep, files: CtxFiles, cfg: Config, env: Env, llm: Llm,
                           a: nat, p: Progress, s: RepoState)
    requires s.Valid() && a < AttemptCount(cfg)
    ensures MainAttempts(ctx, step, files, cfg, env, llm, a, p, s) == AfterAttempt(ctx, step, files, cfg, env, llm, a, Attempt(ctx, step, files, cfg, env, llm, p, s))
  {
  }

  lemma AfterAttemptUnfold(ctx: TaskContext, step: PlanStep, files: CtxFiles, cfg: Config, env: Env, llm: Llm,
                           a: nat, m: (Result<Progress, Error>, RepoState))
    requires m.1.Valid() && a < AttemptCount(cfg)
    ensures AfterAttempt(ctx, step, files, cfg, env, llm, a, m)
         == if m.0.Ok? && !m.0.value.committed then MainAttempts(ctx, step, files, cfg, env, llm, a + 1, m.0.value, m.1) else m
  {
  }

  /** The main attempts keep the history, because every attempt does. */
  lemma {:induction false} MainAttemptsKeepHistory(ctx: TaskContext, step: PlanStep, files: CtxFiles, cfg: Config, env: Env, llm: Llm,
                                                   a: nat, p: Progress, s: RepoState)
    requires s.Valid()
    ensures Extends(s, MainAttempts(ctx, step, files, cfg, env, llm, a, p, s).1)
    decreases AttemptCount(cfg) - a, 2
  {
    if a < AttemptCount(cfg) {
      NextAttemptKeepsHistory(ctx, step, files, cfg, env, llm, a, p, s);
    } else {
      ExtendsRefl(s);
    }
  }

  lemma {:induction false} NextAttemptKeepsHistory(ctx: TaskContext, step: PlanStep, files: CtxFiles, cfg: Config, env: Env, llm: Llm,
                                                  a: nat, p: Progress, s: RepoState)
    requires s.Valid() && a < AttemptCount(cfg)
    ensures Extends(s, NextAttempt(ctx, step, files, cfg, env, llm, a, p, s).1)
    decreases AttemptCount(cfg) - a, 1
  {
    AttemptKeepsHistory(ctx, step, files, cfg, env, llm, p, s);
    AfterAttemptKeepsHistory(ctx, step, files, cfg, env, llm, a, s, Attempt(ctx, step, files, cfg, env, llm, p, s));
  }

  lemma {:induction false} AfterAttemptKeepsHistory(ctx: TaskContext, step: PlanStep, files: CtxFiles, cfg: Config, env: Env, llm: Llm,
                                                   a: nat, s: RepoState, m: (Result<Progress, Error>, RepoState))
    requires m.1.Valid() && a < AttemptCount(cfg) && Extends(s, m.1)
    ensures Extends(s, AfterAttempt(ctx, step, files, cfg, env, llm, a, m).1)
    decreases AttemptCount(cfg) - a, 0
  {
    if m.0.Ok? && !m.0.value.committed {
      MainAttemptsKeepHistory(ctx, step, files, cfg, env, llm, a + 1, m.0.value, m.1);
      ExtendsTrans(s, m.1, MainAttempts(ctx, step, files, cfg, env, llm, a + 1, m.0.value, m.1).1);
    }
  }

  lemma ExtendsRefl(s: RepoState)
    ensures Extends(s, s)
  {
  }

  lemma RunStepKeepsHistory(ctx: TaskContext, step: PlanStep, files: CtxFiles, cfg: Config, env: Env, llm: Llm,
                            calls: nat, s: RepoState)
    requires s.Valid()
    ensures Extends(s, RunStep(ctx, step, files, cfg, env, llm, calls, s).1)
  {
    var (m, t) := MainAttempts(ctx, step, files, cfg, env, llm, 0, Progress([], [], false, false, calls), s);
    MainAttemptsKeepHistory(ctx, step, files, cfg, env, llm, 0, Progress([], [], false, false, calls), s);
    if m.Ok? {
      var p := m.value;
      if !(p.committed || p.lastLogs == [] || !Recoverable(p.lastLogs)) {
        AttemptKeepsHistory(ctx, step, files, cfg, env, llm, p, t);
        ExtendsTrans(s, t, Attempt(ctx, step, files, cfg, env, llm, p, t).1);
      }
    }
  }

  /** Step `k` ended with `m`: the run ends there on an error and goes on from `m` otherwise. */
  lemma StepsContinue(ctx: TaskContext, plan: seq<PlanStep>, k: nat, cfg: Config, env: Env, llm: Llm,
                      txns: seq<TransactionResult>, calls: nat, s: RepoState, m: (Result<Progress, Error>, RepoState))
    requires s.Valid() && k < |plan|
    requires m == RunStep(Rebind(ctx, cfg), plan[k], LoadContext(s.tree, plan[k], cfg.limits.slicePaddingLines),
                          cfg, env, llm, calls, s)
    ensures StepsFrom(ctx, plan, k, cfg, env, llm, txns, calls, s)
         == if m.0.Ok? then StepsFrom(Rebind(ctx, cfg), plan, k + 1, cfg, env, llm, txns + m.0.value.txns, m.0.value.calls, m.1)
            else (Err(m.0.error), m.1)
  {
    StepsUnfold(ctx, plan, k, cfg, env, llm, txns, calls, s);
    AfterStepUnfold(Rebind(ctx, cfg), plan, k, cfg, env, llm, txns, m);
  }

  lemma StepsUnfold(ctx: TaskContext, plan: seq<PlanStep>, k: nat, cfg: Config, env: Env, llm: Llm,
                    txns: seq<TransactionResult>, calls: nat, s: RepoState)
    requires s.Valid() && k < |plan|
    ensures StepsFrom(ctx, plan, k, cfg, env, llm, txns, calls, s)
         == AfterStep(Rebind(ctx, cfg), plan, k, cfg, env, llm, txns,
                      RunStep(Rebind(ctx, cfg), plan[k], LoadContext(s.tree, plan[k], cfg.limits.slicePaddingLines),
                              cfg, env, llm, calls, s))
  {
  }

  lemma AfterStepUnfold(ctx: TaskContext, plan: seq<PlanStep>, k: nat, cfg: Config, env: Env, llm: Llm,
                        txns: seq<TransactionResult>, m: (Result<Progress, Error>, RepoState))
    requires m.1.Valid() && k < |plan|
    ensures AfterStep(ctx, plan, k, cfg, env, llm, txns, m)
         == if m.0.Ok? then StepsFrom(ctx, plan, k + 1, cfg, env, llm, txns + m.0.value.txns, m.0.value.calls, m.1)
            else (Err(m.0.error), m.1)
  {
  }

  /** The run keeps the history it started from, so the baseline commit is still there for the final diff. */
  lemma {:induction false} StepsKeepHistory(ctx: TaskContext, plan: seq<PlanStep>, k: nat, cfg: Config, env: Env, llm: Llm,
                                            txns: seq<TransactionResult>, calls: nat, s: RepoState)
    requires s.Valid()
    ensures Extends(s, StepsFrom(ctx, plan, k, cfg, env, llm, txns, calls, s).1)
    decreases |plan| - k, 2
  {
    if k < |plan| {
      NextStepKeepsHistory(ctx, plan, k, cfg, env, llm, txns, calls, s);
    } else {
      ExtendsRefl(s);
    }
  }

  lemma {:induction false} NextStepKeepsHistory(ctx: TaskContext, plan: seq<PlanStep>, k: nat, cfg: Config, env: Env, llm: Llm,
                                               txns: seq<TransactionResult>, calls: nat, s: RepoState)
    requires s.Valid() && k < |plan|
    ensures Extends(s, NextStep(ctx, plan, k, cfg, env, llm, txns, calls, s).1)
    decreases |plan| - k, 1
  {
    var files := LoadContext(s.tree, plan[k], cfg.limits.slicePaddingLines);
    var c := Rebind(ctx, cfg);
    RunStepKeepsHistory(c, plan[k], files, cfg, env, llm, calls, s);
    AfterStepKeepsHistory(c, plan, k, cfg, env, llm, txns, s, RunStep(c, plan[k], files, cfg, env, llm, calls, s));
  }

  lemma {:induction false} AfterStepKeepsHistory(ctx: TaskContext, plan: seq<PlanStep>, k: nat, cfg: Config, env: Env, llm: Llm,
                                                txns: seq<TransactionResult>, s: RepoState,
                                                m: (Result<Progress, Error>, RepoState))
    requires m.1.Valid() && k < |plan| && Extends(s, m.1)
    ensures Extends(s, AfterStep(ctx, plan, k, cfg, env, llm, txns, m).1)
    decreases |plan| - k, 0
  {
    if m.0.Ok? {
      var p := m.0.value;
      StepsKeepHistory(ctx, plan, k + 1, cfg, env, llm, txns + p.txns, p.calls, m.1);
      ExtendsTrans(s, m.1, StepsFrom(ctx, plan, k + 1, cfg, env, llm, txns + p.txns, p.calls, m.1).1);
    }
  }

  // ---------------------------------------------------------------------------
  // The shape of a step

  /** Every transaction reports an applied diff exactly when it committed, and only the last may have committed. */
  predicate WellFormedTxns(txns: seq<TransactionResult>) {
    forall k :: 0 <= k < |txns| ==> Reported(txns[k]) && (k < |txns| - 1 ==> !txns[k].committed)
  }

  /** A step's progress says it committed exactly when its last transaction did. */
  predicate CommitsLast(p: Progress) {
    WellFormedTxns(p.txns) && (p.committed <==> (p.txns != [] && p.txns[|p.txns| - 1].committed))
  }

  lemma AppendUncommitted(txns: seq<TransactionResult>, t: TransactionResult)
    requires WellFormedTxns(txns) && (txns != [] ==> !txns[|txns| - 1].committed) && Reported(t)
    ensures WellFormedTxns(txns + [t])
  {
  }

  /**
   * What one attempt makes of a progress `p` that has not committed: one more
   * proposer call and at most one more transaction; the logs are those of the
   * last transaction.
   */
  predicate Grows(p: Progress, q: Progress) {
    CommitsLast(q) && q.retried == p.retried && q.calls == p.calls + 1
    && |p.txns| <= |q.txns| <= |p.txns| + 1 && q.txns[..|p.txns|] == p.txns
    && (q.txns == p.txns ==> q.lastLogs == p.lastLogs && !q.committed)
    && (q.txns != p.txns ==> q.lastLogs == q.txns[|q.txns| - 1].logs)
  }

  /** One attempt grows the progress, and adds a transaction exactly when its shortlist is non-empty. */
  lemma AttemptShape(ctx: TaskContext, step: PlanStep, files: CtxFiles, cfg: Config, env: Env, llm: Llm,
                     p: Progress, s: RepoState)
    requires s.Valid() && CommitsLast(p) && !p.committed
    ensures var m := Attempt(ctx, step, files, cfg, env, llm, p, s).0;
      m.Ok? ==>
        Grows(p, m.value)
        && (|m.value.txns| == |p.txns| + 1 <==> Shortlist(step, files, cfg, llm, p.calls).value != [])
  {
    var short := Shortlist(step, files, cfg, llm, p.calls);
    if short.Ok? && short.value != [] {
      TxnReportsApplied(ctx, step, short.value, cfg, env, s);
      AfterTxnShape(p, Txn(ctx, step, short.value, cfg, env, s).0);
    }
  }

  /** A reported transaction after uncommitted ones extends the progress by itself and one call. */
  lemma AfterTxnShape(p: Progress, o: Outcome)
    requires CommitsLast(p) && !p.committed && (o.Done? ==> Reported(o.result))
    ensures var m := AfterTxn(p, o);
      m.Ok? ==>
        CommitsLast(m.value) && m.value.retried == p.retried && m.value.calls == p.calls + 1
        && |m.value.txns| == |p.txns| + 1 && m.value.txns[..|p.txns|] == p.txns
        && m.value.lastLogs == m.value.txns[|m.value.txns| - 1].logs
  {
    if o.Done? {
      AppendUncommitted(p.txns, o.result);
      assert (p.txns + [o.result])[..|p.txns|] == p.txns;
    }
  }

  /**
   * `m` is what at most `n` main attempts make of `p`: at most `n` more
   * proposer calls and transactions, at least one call when `n > 0`, the old
   * transactions kept, and the logs of the last transaction.
   */
  predicate Shaped(p: Progress, n: nat, m: Progress) {
    CommitsLast(m) && m.retried == p.retried
    && p.calls <= m.calls <= p.calls + n && (n > 0 ==> p.calls < m.calls)
    && |p.txns| <= |m.txns| <= |p.txns| + n && m.txns[..|p.txns|] == p.txns
    && (m.txns == p.txns ==> m.lastLogs == p.lastLogs)
    && (m.txns != p.txns ==> m.lastLogs == m.txns[|m.txns| - 1].logs)
  }

  lemma GrowsShaped(p: Progress, q: Progress, n: nat)
    requires Grows(p, q) && n >= 1
    ensures Shaped(p, n, q)
  {
  }

  lemma ShapedAfterGrows(p: Progress, q: Progress, v: Progress, n: nat)
    requires Grows(p, q) && n >= 1 && Shaped(q, n - 1, v)
    ensures Shaped(p, n, v)
  {
    assert v.txns[..|p.txns|] == v.txns[..|q.txns|][..|p.txns|];
    if v.txns == p.txns {
      assert q.txns == p.txns;
    }
  }

  /** The main attempts from `a` on make at most `AttemptCount - a` calls and transactions. */
  lemma {:induction false} MainAttemptsShape(ctx: TaskContext, step: PlanStep, files: CtxFiles, cfg: Config, env: Env, llm: Llm,
                                             a: nat, p: Progress, s: RepoState)
    requires s.Valid() && a <= AttemptCount(cfg) && CommitsLast(p) && !p.committed
    ensures var m := MainAttempts(ctx, step, files, cfg, env, llm, a, p, s).0;
      m.Ok? ==> Shaped(p, AttemptCount(cfg) - a, m.value)
    decreases AttemptCount(cfg) - a, 2
  {
    if a < AttemptCount(cfg) {
      NextAttemptShape(ctx, step, files, cfg, env, llm, a, p, s);
    } else {
      assert p.txns[..|p.txns|] == p.txns;
    }
  }

  lemma {:induction false} NextAttemptShape(ctx: TaskContext, step: PlanStep, files: CtxFiles, cfg: Config, env: Env, llm: Llm,
                                            a: nat, p: Progress, s: RepoState)
    requires s.Valid() && a < AttemptCount(cfg) && CommitsLast(p) && !p.committed
    ensures var m := NextAttempt(ctx, step, files, cfg, env, llm, a, p, s).0;
      m.Ok? ==> Shaped(p, AttemptCount(cfg) - a, m.value)
    decreases AttemptCount(cfg) - a, 1
  {
    AttemptShape(ctx, step, files, cfg, env, llm, p, s);
    AfterAttemptShape(ctx, step, files, cfg, env, llm, a, p, Attempt(ctx, step, files, cfg, env, llm, p, s));
  }

  lemma {:induction false} AfterAttemptShape(ctx: TaskContext, step: PlanStep, files: CtxFiles, cfg: Config, env: Env, llm: Llm,
                                             a: nat, p: Progress, m: (Result<Progress, Error>, RepoState))
    requires m.1.Valid() && a < AttemptCount(cfg) && CommitsLast(p) && !p.committed
    requires m.0.Ok? ==> Grows(p, m.0.value)
    ensures var r := AfterAttempt(ctx, step, files, cfg, env, llm, a, m).0;
      r.Ok? ==> Shaped(p, AttemptCount(cfg) - a, r.value)
    decreases AttemptCount(cfg) - a, 0
  {
    if m.0.Ok? {
      var q := m.0.value;
      if q.committed {
        GrowsShaped(p, q, AttemptCount(cfg) - a);
      } else {
        MainAttemptsShape(ctx, step, files, cfg, env, llm, a + 1, q, m.1);
        var r := MainAttempts(ctx, step, files, cfg, env, llm, a + 1, q, m.1).0;
        if r.Ok? {
          ShapedAfterGrows(p, q, r.value, AttemptCount(cfg) - a);
        }
      }
    }
  }

  lemma RetryShape(ctx: TaskContext, step: PlanStep, files: CtxFiles, cfg: Config, env: Env, llm: Llm,
                   p: Progress, s: RepoState)
    requires s.Valid() && CommitsLast(p) && !p.retried
    ensures var r := Retry(ctx, step, files, cfg, env, llm, p, s).0;
      r.Ok? ==>
        CommitsLast(r.value) && r.value.lastLogs == p.lastLogs
        && (r.value.retried <==> r.value.calls == p.calls + 1)
        && (r.value.retried ==> !p.committed && Recoverable(p.lastLogs))
        && (!r.value.retried ==> r.value == p)
        && |p.txns| <= |r.value.txns| <= |p.txns| + 1 && r.value.txns[..|p.txns|] == p.txns
  {
    if !(p.committed || p.lastLogs == [] || !Recoverable(p.lastLogs)) {
      AttemptShape(ctx, step, files, cfg, env, llm, p, s);
    }
  }

  /**
   * A step makes at least one and at most `AttemptCount + 1` proposer calls and
   * transactions; only its last transaction may commit; every transaction
   * reports its applied diff exactly when it committed; and the retry runs only
   * after main attempts that committed nothing and whose last logs name a
   * recoverable failure.
   */
  lemma RunStepShape(ctx: TaskContext, step: PlanStep, files: CtxFiles, cfg: Config, env: Env, llm: Llm,
                     calls: nat, s: RepoState)
    requires s.Valid()
    ensures var r := RunStep(ctx, step, files, cfg, env, llm, calls, s).0;
      r.Ok? ==>
        CommitsLast(r.value)
        && calls + 1 <= r.value.calls <= calls + AttemptCount(cfg) + 1
        && |r.value.txns| <= AttemptCount(cfg) + 1
        && (r.value.retried ==> Recoverable(r.value.lastLogs))
  {
    var p0 := Progress([], [], false, false, calls);
    var (m, t) := MainAttempts(ctx, step, files, cfg, env, llm, 0, p0, s);
    MainAttemptsShape(ctx, step, files, cfg, env, llm, 0, p0, s);
    if m.Ok? {
      RetryShape(ctx, step, files, cfg, env, llm, m.value, t);
    }
  }

  /** Every step of the plan is processed, each with at least one proposer call, and every transaction is well formed. */
  lemma {:induction false} StepsShape(ctx: TaskContext, plan: seq<PlanStep>, k: nat, cfg: Config, env: Env, llm: Llm,
                                      txns: seq<TransactionResult>, calls: nat, s: RepoState)
    requires s.Valid() && k <= |plan|
    requires forall j :: 0 <= j < |txns| ==> Reported(txns[j])
    ensures var r := StepsFrom(ctx, plan, k, cfg, env, llm, txns, calls, s).0;
      r.Ok? ==>
        calls + (|plan| - k) <= r.value.1 <= calls + (|plan| - k) * (AttemptCount(cfg) + 1)
        && |txns| <= |r.value.0| && r.value.0[..|txns|] == txns
        && (forall j :: 0 <= j < |r.value.0| ==> Reported(r.value.0[j]))
    decreases |plan| - k, 2
  {
    if k < |plan| {
      NextStepShape(ctx, plan, k, cfg, env, llm, txns, calls, s);
    } else {
      assert txns[..|txns|] == txns;
    }
  }

  lemma {:induction false} NextStepShape(ctx: TaskContext, plan: seq<PlanStep>, k: nat, cfg: Config, env: Env, llm: Llm,
                                         txns: seq<TransactionResult>, calls: nat, s: RepoState)
    requires s.Valid() && k < |plan|
    requires forall j :: 0 <= j < |txns| ==> Reported(txns[j])
    ensures var r := NextStep(ctx, plan, k, cfg, env, llm, txns, calls, s).0;
      r.Ok? ==>
        calls + (|plan| - k) <= r.value.1 <= calls + (|plan| - k) * (AttemptCount(cfg) + 1)
        && |txns| <= |r.value.0| && r.value.0[..|txns|] == txns
        && (forall j :: 0 <= j < |r.value.0| ==> Reported(r.value.0[j]))
    decreases |plan| - k, 1
  {
    var files := LoadContext(s.tree, plan[k], cfg.limits.slicePaddingLines);
    var c := Rebind(ctx, cfg);
    RunStepShape(c, plan[k], files, cfg, env, llm, calls, s);
    AfterStepShape(c, plan, k, cfg, env, llm, txns, calls, RunStep(c, plan[k], files, cfg, env, llm, calls, s));
  }

  lemma {:induction false} AfterStepShape(ctx: TaskContext, plan: seq<PlanStep>, k: nat, cfg: Config, env: Env, llm: Llm,
                                          txns: seq<TransactionResult>, calls: nat,
                                          m: (Result<Progress, Error>, RepoState))
    requires m.1.Valid() && k < |plan|
    requires forall j :: 0 <= j < |txns| ==> Reported(txns[j])
    requires m.0.Ok? ==>
      CommitsLast(m.0.value) && calls + 1 <= m.0.value.calls <= calls + AttemptCount(cfg) + 1
    ensures var r := AfterStep(ctx, plan, k, cfg, env, llm, txns, m).0;
      r.Ok? ==>
        calls + (|plan| - k) <= r.value.1 <= calls + (|plan| - k) * (AttemptCount(cfg) + 1)
        && |txns| <= |r.value.0| && r.value.0[..|txns|] == txns
        && (forall j :: 0 <= j < |r.value.0| ==> Reported(r.value.0[j]))
    decreases |plan| - k, 0
  {
    if m.0.Ok? {
      var p := m.0.value;
      ReportedAppend(txns, p);
      StepsShape(ctx, plan, k + 1, cfg, env, llm, txns + p.txns, p.calls, m.1);
      var r := StepsFrom(ctx, plan, k + 1, cfg, env, llm, txns + p.txns, p.calls, m.1).0;
      if r.Ok? {
        StepCounts(txns, p.txns, r.value.0, calls, p.calls, r.value.1, AttemptCount(cfg), |plan| - (k + 1));
      }
    }
  }

  lemma ReportedAppend(txns: seq<TransactionResult>, p: Progress)
    requires forall j :: 0 <= j < |txns| ==> Reported(txns[j])
    requires CommitsLast(p)
    ensures forall j :: 0 <= j < |txns + p.txns| ==> Reported((txns + p.txns)[j])
  {
    forall j | 0 <= j < |txns + p.txns|
      ensures Reported((txns + p.txns)[j])
    {
      if j >= |txns| {
        assert (txns + p.txns)[j] == p.txns[j - |txns|];
      }
    }
  }

  /** The counts of one step of `n` attempts and a retry, followed by `rest` more steps. */
  lemma StepCounts(txns: seq<TransactionResult>, more: seq<TransactionResult>, out: seq<TransactionResult>,
                   calls: nat, mid: nat, total: nat, n: nat, rest: nat)
    requires calls + 1 <= mid <= calls + n + 1
    requires mid + rest <= total <= mid + rest * (n + 1)
    requires |txns + more| <= |out| && out[..|txns + more|] == txns + more
    ensures calls + (rest + 1) <= total <= calls + (rest + 1) * (n + 1)
    ensures |txns| <= |out| && out[..|txns|] == txns
  {
    assert out[..|txns|] == out[..|txns + more|][..|txns|];
    assert (rest + 1) * (n + 1) == n + 1 + rest * (n + 1);
  }

  /** The steps rebind the TaskContext once: starting from the rebound context changes nothing. */
  lemma StepsRebindOnce(ctx: TaskContext, plan: seq<PlanStep>, k: nat, cfg: Config, env: Env, llm: Llm,
                        txns: seq<TransactionResult>, calls: nat, s: RepoState)
    requires s.Valid()
    ensures StepsFrom(Rebind(ctx, cfg), plan, k, cfg, env, llm, txns, calls, s)
         == StepsFrom(ctx, plan, k, cfg, env, llm, txns, calls, s)
  {
    RebindOnce(ctx, cfg);
  }

  /**
   * The final patch is the diff over the run unless that is empty; then it is
   * the applied diff of the last transaction, and that transaction committed.
   */
  lemma FinalPatchChoice(diff: string, txns: seq<TransactionResult>)
    requires forall j :: 0 <= j < |txns| ==> Reported(txns[j])
    ensures diff != "" ==> FinalPatch(diff, txns) == diff
    ensures FinalPatch(diff, txns) != diff ==>
      txns != [] && txns[|txns| - 1].committed && txns[|txns| - 1].appliedDiff.Some?
      && FinalPatch(diff, txns) == txns[|txns| - 1].appliedDiff.value.unifiedDiff
    ensures diff == "" && txns != [] && txns[|txns| - 1].committed ==>
      txns[|txns| - 1].appliedDiff.Some?
      && FinalPatch(diff, txns) == txns[|txns| - 1].appliedDiff.value.unifiedDiff
  {
    if txns != [] {
      assert Reported(txns[|txns| - 1]);
    }
  }
}
