/**
 * The checks a proposed diff must pass before it is applied (validate.py).
 * Each check either passes or names the first rule the diff breaks.
 */
module Validate {
  import opened Wrappers
  import opened Text
  import opened Slices
  import opened Types

  /** The rules, one per `ValidationError` the module raises. */
  datatype Rejection =
    | NotADiff
    | NoHunk
    | DoubleColon
    | NoFileHeader
    | TooManyFiles
    | OutsideAllowed
    | TooManyLines
    | MissesTargets

  function Message(r: Rejection): string {
    match r
    case NotADiff => "Diff must start with 'diff --git'."
    case NoHunk => "Diff must contain a hunk header '@@'."
    case DoubleColon => "Suspicious double-colon in definition header."
    case NoFileHeader => "Diff must touch at least one file header."
    case TooManyFiles => "Diff touches too many files."
    case OutsideAllowed => "Diff touches files outside of allowed set."
    case TooManyLines => "Diff changes too many lines."
    case MissesTargets => "Diff does not touch any target span files."
  }

  // ---------------------------------------------------------------------------
  // require_unified_diff

  /** An added `def` or `class` line whose header ends in "::". */
  predicate SuspiciousHeader(line: string) {
    var s := Strip(line);
    (StartsWith(s, "+def") || StartsWith(s, "+class")) && EndsWith(s, "::")
  }

  /** The loop of `require_unified_diff`: some line is a suspicious header. */
  predicate AnySuspicious(lines: seq<string>) {
    exists k :: 0 <= k < |lines| && SuspiciousHeader(lines[k])
  }

  /** `require_unified_diff`: `None` when the text looks like a unified diff. */
  function RequireUnifiedDiff(diff: string): (r: Option<Rejection>)
    ensures r == None <==>
      StartsWith(diff, "diff --git") && Contains(diff, "@@")
      && forall k :: 0 <= k < |Lines(diff)| ==> !SuspiciousHeader(Lines(diff)[k])
    ensures r.Some? ==> r.value in {NotADiff, NoHunk, DoubleColon}
    ensures !StartsWith(diff, "diff --git") ==> r == Some(NotADiff)
    ensures StartsWith(diff, "diff --git") && !Contains(diff, "@@") ==> r == Some(NoHunk)
  {
    if !StartsWith(diff, "diff --git") then Some(NotADiff)
    else if !Contains(diff, "@@") then Some(NoHunk)
    else if AnySuspicious(Lines(diff)) then Some(DoubleColon)
    else None
  }

  // ---------------------------------------------------------------------------
  // _count_changed_loc

  predicate IsChangeLine(line: string) {
    StartsWith(line, "+") || StartsWith(line, "-")
  }

  /** How many of `lines` start with "+" or "-". */
  function CountChanged(lines: seq<string>): (n: nat)
    ensures n <= |lines|
    ensures n == 0 <==> forall k :: 0 <= k < |lines| ==> !IsChangeLine(lines[k])
    ensures n == |lines| <==> forall k :: 0 <= k < |lines| ==> IsChangeLine(lines[k])
    decreases |lines|
  {
    if lines == [] then 0
    else
      var rest := CountChanged(lines[1..]);
      assert forall k :: 1 <= k < |lines| ==> lines[k] == lines[1..][k - 1];
      (if IsChangeLine(lines[0]) then 1 else 0) + rest
  }

  /** The count over two runs of lines is the sum of their counts. */
  lemma {:induction false} CountChangedAppend(a: seq<string>, b: seq<string>)
    ensures CountChanged(a + b) == CountChanged(a) + CountChanged(b)
    decreases |a|
  {
    if a == [] {
      assert a + b == b;
    } else {
      assert (a + b)[0] == a[0];
      assert (a + b)[1..] == a[1..] + b;
      CountChangedAppend(a[1..], b);
    }
  }

  /** `_count_changed_loc`: "---" and "+++" header lines count too. */
  function CountChangedLoc(diff: string): nat {
    CountChanged(Lines(diff))
  }

  // ---------------------------------------------------------------------------
  // _touched_files

  /**
   * The b-side path of `^diff --git a/(\S+) b/(\S+)` matched at the start of
   * `line`, a piece of the text between two "\n" (where `^` matches in
   * multi-line mode). Both paths are maximal runs of non-whitespace.
   */
  function HeaderFile(line: string): (r: Option<string>)
    ensures r.Some? ==> r.value != [] && NoSpace(r.value)
  {
    if !StartsWith(line, "diff --git a/") then None
    else
      var rest := line[13..];
      var a := Word(rest);
      var after := rest[|a|..];
      if a == [] || !StartsWith(after, " b/") then None
      else
        var b := Word(after[3..]);
        WordNoSpace(after[3..]);
        if b == [] then None else Some(b)
  }

  /** A line whose pieces parse as a header yields its b-path. */
  lemma HeaderFileOfParts(line: string, a: string, b: string)
    requires StartsWith(line, "diff --git a/") && Word(line[13..]) == a && a != []
    requires StartsWith(line[13..][|a|..], " b/") && Word(line[13..][|a|..][3..]) == b && b != []
    ensures HeaderFile(line) == Some(b)
  {
  }

  /** A rendered header yields its b-path, whatever follows it on the line. */
  lemma HeaderFileOfRendered(a: string, b: string, tail: string)
    requires a != [] && NoSpace(a) && b != [] && NoSpace(b)
    requires tail == [] || IsSpace(tail[0])
    ensures HeaderFile("diff --git a/" + a + " b/" + b + tail) == Some(b)
  {
    var after := " b/" + b + tail;
    var line := "diff --git a/" + (a + after);
    RenderedSplit(a, b, tail);
    PrefixedLine(a + after);
    WordThenRest(a, after);
    BPathPart(b, tail);
    HeaderFileOfParts(line, a, b);
  }

  lemma RenderedSplit(a: string, b: string, tail: string)
    ensures "diff --git a/" + a + " b/" + b + tail == "diff --git a/" + (a + (" b/" + b + tail))
  {
  }

  lemma PrefixedLine(rest: string)
    ensures StartsWith("diff --git a/" + rest, "diff --git a/") && ("diff --git a/" + rest)[13..] == rest
  {
  }

  lemma WordThenRest(w: string, rest: string)
    requires NoSpace(w) && (rest == [] || IsSpace(rest[0]))
    ensures Word(w + rest) == w && (w + rest)[|w|..] == rest
  {
    WordOfNoSpace(w, rest);
  }

  lemma BPathPart(b: string, tail: string)
    requires NoSpace(b) && (tail == [] || IsSpace(tail[0]))
    ensures StartsWith(" b/" + b + tail, " b/") && Word((" b/" + b + tail)[3..]) == b
  {
    assert (" b/" + b + tail)[3..] == b + tail;
    WordOfNoSpace(b, tail);
  }

  /** The b-paths of the header lines among `lines`. */
  function HeaderFiles(lines: seq<string>): set<string> {
    set k | 0 <= k < |lines| && HeaderFile(lines[k]).Some? :: HeaderFile(lines[k]).value
  }

  /** `_touched_files`: the b-paths of every header line. */
  function TouchedFiles(diff: string): set<string> {
    HeaderFiles(Split(diff, "\n"))
  }

  // ---------------------------------------------------------------------------
  // ensure_within_limits

  /**
   * `ensure_within_limits`: the checks in their fixed order, stopping at the
   * first that fails. The parameters are the ones the function declares.
   */
  function EnsureWithinLimits(
    diff: string, allowedFiles: set<string>, maxLoc: int, maxFiles: int, targetSpans: seq<AstSpan>
  ): (r: Option<Rejection>)
    ensures r == None <==>
      RequireUnifiedDiff(diff) == None
      && TouchedFiles(diff) != {}
      && |TouchedFiles(diff)| <= maxFiles
      && TouchedFiles(diff) <= allowedFiles
      && CountChangedLoc(diff) <= maxLoc
      && exists f :: f in TouchedFiles(diff) && f in SpanFiles(targetSpans)
  {
    var shape := RequireUnifiedDiff(diff);
    if shape.Some? then shape
    else
      var files := TouchedFiles(diff);
      MeetIff(files, SpanFiles(targetSpans));
      if files == {} then Some(NoFileHeader)
      else if |files| > maxFiles then Some(TooManyFiles)
      else if !(files <= allowedFiles) then Some(OutsideAllowed)
      else if CountChangedLoc(diff) > maxLoc then Some(TooManyLines)
      else if files * SpanFiles(targetSpans) == {} then Some(MissesTargets)
      else None
  }

  /** Two sets meet exactly when some element lies in both. */
  lemma MeetIff(a: set<string>, b: set<string>)
    ensures a * b != {} <==> exists x :: x in a && x in b
  {
    if a * b != {} {
      var x :| x in a * b;
      assert x in a && x in b;
    }
    if exists x :: x in a && x in b {
      var x :| x in a && x in b;
      assert x in a * b;
    }
  }

  /** A rejection for a later rule means every earlier rule passed. */
  lemma EnsureWithinLimitsOrder(
    diff: string, allowedFiles: set<string>, maxLoc: int, maxFiles: int, targetSpans: seq<AstSpan>)
    ensures var r := EnsureWithinLimits(diff, allowedFiles, maxLoc, maxFiles, targetSpans);
      var files := TouchedFiles(diff);
      (r.Some? && r.value !in {NotADiff, NoHunk, DoubleColon} ==> RequireUnifiedDiff(diff) == None)
      && (r.Some? && r.value in {TooManyFiles, OutsideAllowed, TooManyLines, MissesTargets} ==> files != {})
      && (r.Some? && r.value in {OutsideAllowed, TooManyLines, MissesTargets} ==> |files| <= maxFiles)
      && (r.Some? && r.value in {TooManyLines, MissesTargets} ==> files <= allowedFiles)
      && (r == Some(MissesTargets) ==> CountChangedLoc(diff) <= maxLoc)
  {
  }

  /** A well-shaped diff naming a file outside the allowlist is refused for that reason, whatever its size. */
  lemma OutsideAllowedRejected(
    diff: string, allowedFiles: set<string>, maxLoc: int, maxFiles: int, targetSpans: seq<AstSpan>, f: string)
    requires RequireUnifiedDiff(diff) == None
    requires |TouchedFiles(diff)| <= maxFiles
    requires f in TouchedFiles(diff) && f !in allowedFiles
    ensures EnsureWithinLimits(diff, allowedFiles, maxLoc, maxFiles, targetSpans) == Some(OutsideAllowed)
  {
  }

  /**
   * With the allowlist equal to the target spans' files, the last check never
   * fires: a non-empty file set inside the allowlist meets the span files.
   */
  lemma {:induction false} TargetCheckRedundant(
    diff: string, maxLoc: int, maxFiles: int, targetSpans: seq<AstSpan>)
    ensures EnsureWithinLimits(diff, SpanFiles(targetSpans), maxLoc, maxFiles, targetSpans) != Some(MissesTargets)
  {
    var files := TouchedFiles(diff);
    if RequireUnifiedDiff(diff) == None && files != {} && files <= SpanFiles(targetSpans) {
      InsideMeets(files, SpanFiles(targetSpans));
    }
  }

  lemma InsideMeets(a: set<string>, b: set<string>)
    requires a != {} && a <= b
    ensures a * b != {}
  {
    var x :| x in a;
    assert x in a * b;
  }

  // ---------------------------------------------------------------------------
  // A one-file diff of added and removed lines

  /** The header line git writes for a change to `f`. */
  function RenderHeader(f: string): string {
    "diff --git a/" + f + " b/" + f
  }

  predicate GoodBody(body: seq<string>) {
    forall k :: 0 <= k < |body| ==> IsChangeLine(body[k]) && NoLineBreak(body[k]) && !SuspiciousHeader(body[k])
  }

  /** A one-file diff: the header, "@@", then change lines. */
  function SingleFileDiff(f: string, body: seq<string>): string {
    Join([RenderHeader(f), "@@"] + body, "\n") + "\n"
  }

  lemma HeaderNoLineBreak(f: string)
    requires NoSpace(f)
    ensures NoLineBreak(RenderHeader(f))
  {
    var h := RenderHeader(f);
    forall k | 0 <= k < |h| ensures !IsLineBreak(h[k]) {
      if 13 <= k < 13 + |f| { assert h[k] == f[k - 13]; }
      else if 16 + |f| <= k { assert h[k] == f[k - 16 - |f|]; }
    }
  }

  lemma SingleFileDiffLines(f: string, body: seq<string>)
    requires NoSpace(f) && forall k :: 0 <= k < |body| ==> NoLineBreak(body[k])
    ensures Lines(SingleFileDiff(f, body)) == [RenderHeader(f), "@@"] + body
    ensures Split(SingleFileDiff(f, body), "\n") == [RenderHeader(f), "@@"] + body + [""]
  {
    var ls := [RenderHeader(f), "@@"] + body;
    HeaderNoLineBreak(f);
    assert AllNoLineBreak(ls) by {
      forall k | 0 <= k < |ls| ensures NoLineBreak(ls[k]) {
        if k >= 2 { assert ls[k] == body[k - 2]; }
      }
    }
    LinesOfJoinNewline(ls);
    JoinSnoc(ls, "", "\n");
    assert Join(ls, "\n") + "\n" + "" == Join(ls, "\n") + "\n";
    forall k | 0 <= k < |ls + [""]| ensures '\n' !in (ls + [""])[k] {
      if k < |ls| {
        var l := ls[k];
        assert (ls + [""])[k] == l;
        assert NoLineBreak(l);
      }
    }
    SplitNewlineOfJoin(ls + [""]);
  }

  lemma ChangeLineNotHeader(l: string)
    requires IsChangeLine(l)
    ensures HeaderFile(l) == None
  {
    assert l[0] == l[..1][0];
  }

  lemma SingleFileDiffTouched(f: string, body: seq<string>)
    requires f != [] && NoSpace(f)
    requires forall k :: 0 <= k < |body| ==> IsChangeLine(body[k]) && NoLineBreak(body[k])
    ensures TouchedFiles(SingleFileDiff(f, body)) == {f}
  {
    SingleFileDiffLines(f, body);
    var ls := [RenderHeader(f), "@@"] + body + [""];
    HeaderFileOfRendered(f, f, "");
    assert RenderHeader(f) + "" == RenderHeader(f);
    assert HeaderFile(ls[0]) == Some(f);
    forall k | 1 <= k < |ls| ensures HeaderFile(ls[k]) == None {
      if 2 <= k < |ls| - 1 {
        assert ls[k] == body[k - 2];
        ChangeLineNotHeader(body[k - 2]);
      }
    }
    assert HeaderFiles(ls) == {f};
  }

  lemma SingleFileDiffCount(f: string, body: seq<string>)
    requires NoSpace(f)
    requires forall k :: 0 <= k < |body| ==> IsChangeLine(body[k]) && NoLineBreak(body[k])
    ensures CountChangedLoc(SingleFileDiff(f, body)) == |body|
  {
    SingleFileDiffLines(f, body);
    CountChangedAppend([RenderHeader(f), "@@"], body);
    assert !IsChangeLine(RenderHeader(f)) && !IsChangeLine("@@");
    assert CountChanged([RenderHeader(f), "@@"]) == 0;
  }

  /** The text of `Join(["@@"] + body, "\n") + "\n"` starts with "@@". */
  lemma HunkStartsWithMarker(body: seq<string>)
    ensures StartsWith(Join(["@@"] + body, "\n") + "\n", "@@")
  {
    var ls := ["@@"] + body;
    if body == [] {
      assert Join(ls, "\n") == "@@";
    } else {
      assert ls[1..] == body;
      assert Join(ls, "\n") == "@@" + "\n" + Join(body, "\n");
    }
  }

  lemma SingleFileDiffStart(f: string, body: seq<string>)
    ensures StartsWith(SingleFileDiff(f, body), "diff --git")
    ensures Contains(SingleFileDiff(f, body), "@@")
  {
    var h := RenderHeader(f);
    var ls := [h, "@@"] + body;
    var rest := Join(["@@"] + body, "\n") + "\n";
    assert ls[1..] == ["@@"] + body;
    assert SingleFileDiff(f, body) == (h + "\n") + rest;
    HunkStartsWithMarker(body);
    assert Contains(rest, "@@");
    ContainsPrepend(h + "\n", rest, "@@");
    assert ((h + "\n") + rest)[..10] == h[..10];
  }

  /** A line whose first character is neither blank nor "+" is no suspicious header. */
  lemma NotSuspicious(l: string)
    requires l != [] && !IsSpace(l[0]) && l[0] != '+'
    ensures !SuspiciousHeader(l)
  {
    var s := Strip(l);
    StripKeepsPrefix(l, 1);
    assert s[0] == l[0];
    assert "+def"[0] == '+' && "+class"[0] == '+';
  }

  /** An added comment line is no suspicious header. */
  lemma CommentNotSuspicious(l: string)
    requires |l| >= 2 && l[0] == '+' && l[1] == '#'
    ensures !SuspiciousHeader(l)
  {
    var s := Strip(l);
    StripKeepsPrefix(l, 2);
    assert s[1] == s[..2][1] == l[..2][1] == '#';
    NoHeaderAfterHash(s);
  }

  lemma NoHeaderAfterHash(s: string)
    requires |s| >= 2 && s[1] == '#'
    ensures !StartsWith(s, "+def") && !StartsWith(s, "+class")
  {
    if |s| >= 4 {
      assert s[..4][1] == '#' != "+def"[1];
    }
    if |s| >= 6 {
      assert s[..6][1] == '#' != "+class"[1];
    }
  }

  lemma HeaderNotSuspicious(f: string)
    ensures !SuspiciousHeader(RenderHeader(f))
  {
    assert RenderHeader(f)[0] == 'd';
    NotSuspicious(RenderHeader(f));
  }

  lemma NoneSuspicious(a: string, b: string, body: seq<string>)
    requires !SuspiciousHeader(a) && !SuspiciousHeader(b)
    requires forall k :: 0 <= k < |body| ==> !SuspiciousHeader(body[k])
    ensures !AnySuspicious([a, b] + body)
  {
    AllOfConsTwo(x => !SuspiciousHeader(x), a, b, body);
  }

  lemma SingleFileDiffNoSuspicious(f: string, body: seq<string>)
    requires forall k :: 0 <= k < |body| ==> !SuspiciousHeader(body[k])
    ensures !AnySuspicious([RenderHeader(f), "@@"] + body)
  {
    HeaderNotSuspicious(f);
    NotSuspicious("@@");
    NoneSuspicious(RenderHeader(f), "@@", body);
  }

  lemma SingleFileDiffShape(f: string, body: seq<string>)
    requires NoSpace(f)
    requires forall k :: 0 <= k < |body| ==> NoLineBreak(body[k]) && !SuspiciousHeader(body[k])
    ensures RequireUnifiedDiff(SingleFileDiff(f, body)) == None
  {
    SingleFileDiffLines(f, body);
    SingleFileDiffStart(f, body);
    SingleFileDiffNoSuspicious(f, body);
  }

  /**
   * A one-file diff whose change lines name no suspicious definition passes
   * every check whose limits it meets.
   */
  lemma SingleFileDiffPasses(
    f: string, body: seq<string>, allowedFiles: set<string>, maxLoc: int, maxFiles: int, targetSpans: seq<AstSpan>)
    requires f != [] && NoSpace(f) && GoodBody(body)
    requires f in allowedFiles && f in SpanFiles(targetSpans)
    requires 1 <= maxFiles && |body| <= maxLoc
    ensures EnsureWithinLimits(SingleFileDiff(f, body), allowedFiles, maxLoc, maxFiles, targetSpans) == None
  {
    SingleFileDiffShape(f, body);
    SingleFileDiffTouched(f, body);
    SingleFileDiffCount(f, body);
    assert f in TouchedFiles(SingleFileDiff(f, body));
  }
}
