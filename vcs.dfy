/**
 * The diff plumbing of vcs.py: the normaliser that completes file headers,
 * the positional hunk applier that stands in when `git apply` refuses a diff,
 * and the repository operations the transaction uses. A working tree is a map
 * from file path to the file's raw content; `ReadText` gives what `read_text`
 * returns for it. `git apply` is an oracle that either produces the new tree
 * or refuses.
 */
module Vcs {
  import opened Wrappers
  import opened Text
  import opened Slices
  import opened Json

  type Tree = map<string, string>

  predicate IsHeader(line: string) {
    StartsWith(line, "diff --git")
  }

  // ---------------------------------------------------------------------------
  // _normalize_diff

  /** `r` with `output` in front of its lines. */
  function PrependOk(output: seq<string>, r: Result<seq<string>, Error>): Result<seq<string>, Error> {
    match r
    case Ok(rest) => Ok(output + rest)
    case Err(e) => Err(e)
  }

  /** Where the normaliser resumes after the header at `i`: past the "--- " and "+++ " lines that follow it. */
  function FrameEnd(lines: seq<string>, i: nat): (next: nat)
    requires i < |lines|
    ensures i < next <= |lines| && next <= i + 3
  {
    var j := if i + 1 < |lines| && StartsWith(lines[i + 1], "--- ") then i + 2 else i + 1;
    if j < |lines| && StartsWith(lines[j], "+++ ") then j + 1 else j
  }

  /** The three lines emitted for the header at `i`; `a` and `b` are its third and fourth fields. */
  function Frame(lines: seq<string>, i: nat, a: string, b: string): (frame: seq<string>)
    requires i < |lines|
    ensures |frame| == 3 && frame[0] == lines[i]
    ensures StartsWith(frame[1], "--- ") && StartsWith(frame[2], "+++ ")
  {
    var minusKept := i + 1 < |lines| && StartsWith(lines[i + 1], "--- ");
    var minus := if minusKept then lines[i + 1] else "--- " + a;
    var j := if minusKept then i + 2 else i + 1;
    var plus := if j < |lines| && StartsWith(lines[j], "+++ ") then lines[j] else "+++ " + b;
    [lines[i], minus, plus]
  }

  /** The lines the normaliser emits from line `i` on, or the IndexError a short header raises. */
  function NormalizeFrom(lines: seq<string>, i: nat): Result<seq<string>, Error>
    requires i <= |lines|
    decreases |lines| - i
  {
    if i == |lines| then Ok([])
    else if !IsHeader(lines[i]) then
      PrependOk([lines[i]], NormalizeFrom(lines, i + 1))
    else
      var parts := SplitWs(lines[i]);
      if |parts| < 4 then Err(IndexError)
      else PrependOk(Frame(lines, i, parts[2], parts[3]), NormalizeFrom(lines, FrameEnd(lines, i)))
  }

  /** Joining the emitted lines, with a final "\n" restored when the input had one. */
  function Rejoin(diff: string, output: seq<string>): (text: string)
    ensures EndsWith(diff, "\n") ==> EndsWith(text, "\n")
  {
    var text := Join(output, "\n");
    if EndsWith(diff, "\n") && !EndsWith(text, "\n") then text + "\n" else text
  }

  /** `_normalize_diff` */
  function NormalizeDiff(diff: string): Result<string, Error> {
    var output :- NormalizeFrom(Lines(diff), 0);
    Ok(Rejoin(diff, output))
  }

  lemma PrependOkAppend(a: seq<string>, b: seq<string>, r: Result<seq<string>, Error>)
    ensures PrependOk(a, PrependOk(b, r)) == PrependOk(a + b, r)
    ensures PrependOk([], r) == r
  {
    if r.Ok? {
      assert a + (b + r.value) == (a + b) + r.value;
      assert [] + r.value == r.value;
    }
  }

  /** The normaliser's handling of the header at `i`: it copies the "--- " and "+++ " lines that follow, or makes them up. */
  method EmitHeader(lines: seq<string>, i: nat, parts: seq<string>) returns (emitted: seq<string>, next: nat)
    requires i < |lines| && |parts| >= 4
    ensures emitted == Frame(lines, i, parts[2], parts[3]) && next == FrameEnd(lines, i)
  {
    emitted := [lines[i]];
    next := i + 1;
    if next < |lines| && StartsWith(lines[next], "--- ") {
      emitted := emitted + [lines[next]];
      next := next + 1;
    } else {
      emitted := emitted + ["--- " + parts[2]];
    }
    if next < |lines| && StartsWith(lines[next], "+++ ") {
      emitted := emitted + [lines[next]];
      next := next + 1;
    } else {
      emitted := emitted + ["+++ " + parts[3]];
    }
  }

  /** The normaliser's loop, proved to compute `NormalizeDiff`. */
  method Normalize(diff: string) returns (r: Result<string, Error>)
    ensures r == NormalizeDiff(diff)
  {
    var lines := Lines(diff);
    var output: seq<string> := [];
    var i := 0;
    PrependOkAppend([], [], NormalizeFrom(lines, 0));
    while i < |lines|
      invariant 0 <= i <= |lines|
      invariant NormalizeFrom(lines, 0) == PrependOk(output, NormalizeFrom(lines, i))
      decreases |lines| - i
    {
      var line := lines[i];
      if IsHeader(line) {
        if |SplitWs(line)| < 4 {
          return Err(IndexError);
        }
        var emitted, next := EmitHeader(lines, i, SplitWs(line));
        assert NormalizeFrom(lines, i) == PrependOk(emitted, NormalizeFrom(lines, next));
        i := next;
        PrependOkAppend(output, emitted, NormalizeFrom(lines, i));
        output := output + emitted;
        continue;
      }
      PrependOkAppend(output, [line], NormalizeFrom(lines, i + 1));
      output := output + [line];
      i := i + 1;
    }
    assert output + [] == output;
    var text := Join(output, "\n");
    if EndsWith(diff, "\n") && !EndsWith(text, "\n") {
      text := text + "\n";
    }
    return Ok(text);
  }

  /** A header line carrying the four fields the normaliser reads. */
  predicate FullHeader(line: string) {
    IsHeader(line) && |SplitWs(line)| >= 4
  }

  /** Every header has four fields and is followed by a "--- " line and a "+++ " line. */
  predicate Framed(x: seq<string>)
    decreases |x|
  {
    x == [] ||
    if IsHeader(x[0]) then
      |x| >= 3 && FullHeader(x[0]) && StartsWith(x[1], "--- ") && StartsWith(x[2], "+++ ") && Framed(x[3..])
    else Framed(x[1..])
  }

  /** A line starting with "-" or "+" is not a header. */
  lemma NotHeader(l: string, p: string)
    requires |p| >= 1 && p[0] != 'd' && StartsWith(l, p)
    ensures !IsHeader(l)
  {
    assert l[0] == p[0];
  }

  /** The normaliser's output is framed: it has inserted every missing "---"/"+++" line. */
  lemma {:induction false} NormalizeFromFramed(lines: seq<string>, i: nat)
    requires i <= |lines|
    requires NormalizeFrom(lines, i).Ok?
    ensures Framed(NormalizeFrom(lines, i).value)
    decreases |lines| - i
  {
    if i < |lines| {
      var out := NormalizeFrom(lines, i).value;
      if !IsHeader(lines[i]) {
        NormalizeFromFramed(lines, i + 1);
        assert out[1..] == NormalizeFrom(lines, i + 1).value;
      } else {
        var parts := SplitWs(lines[i]);
        var next := FrameEnd(lines, i);
        NormalizeFromFramed(lines, next);
        var frame := Frame(lines, i, parts[2], parts[3]);
        NotHeader(frame[1], "--- ");
        NotHeader(frame[2], "+++ ");
        assert out == frame + NormalizeFrom(lines, next).value;
        assert out[3..] == NormalizeFrom(lines, next).value;
      }
    }
  }

  /** Framed lines are a fixed point of the normaliser. */
  lemma {:induction false} NormalizeFromFixed(x: seq<string>, i: nat)
    requires i <= |x| && Framed(x[i..])
    ensures NormalizeFrom(x, i) == Ok(x[i..])
    decreases |x| - i
  {
    if i < |x| {
      if !IsHeader(x[i]) {
        FixedLineStep(x, i);
        NormalizeFromFixed(x, i + 1);
      } else {
        FixedHeaderStep(x, i);
        NormalizeFromFixed(x, i + 3);
      }
    }
  }

  /** A framed run that starts with an ordinary line: the line, then a framed run. */
  lemma FixedLineStep(x: seq<string>, i: nat)
    requires i < |x| && !IsHeader(x[i]) && Framed(x[i..])
    ensures Framed(x[i + 1..]) && x[i..] == [x[i]] + x[i + 1..]
  {
    var s := x[i..];
    assert s[0] == x[i];
    assert s[1..] == x[i + 1..];
  }

  /** A framed run that starts with a header: its three lines, kept as they are, then a framed run. */
  lemma FixedHeaderStep(x: seq<string>, i: nat)
    requires i < |x| && IsHeader(x[i]) && Framed(x[i..])
    ensures i + 3 <= |x| && Framed(x[i + 3..]) && |SplitWs(x[i])| >= 4 && FrameEnd(x, i) == i + 3
    ensures Frame(x, i, SplitWs(x[i])[2], SplitWs(x[i])[3]) == [x[i], x[i + 1], x[i + 2]]
    ensures x[i..] == [x[i], x[i + 1], x[i + 2]] + x[i + 3..]
  {
    var s := x[i..];
    assert s[0] == x[i] && s[1] == x[i + 1] && s[2] == x[i + 2];
    assert s[3..] == x[i + 3..];
    TakeThree(x, i);
  }

  /** The header's frame holds no line break when its two fields hold no whitespace. */
  lemma FrameNoBreak(lines: seq<string>, i: nat, a: string, b: string)
    requires i < |lines| && AllNoLineBreak(lines) && NoSpace(a) && NoSpace(b)
    ensures AllNoLineBreak(Frame(lines, i, a, b))
  {
    NoSpaceNoLineBreak(a);
    NoSpaceNoLineBreak(b);
    var f := Frame(lines, i, a, b);
    assert NoLineBreak(f[0]);
    assert NoLineBreak(f[1]) by {
      if !(i + 1 < |lines| && f[1] == lines[i + 1]) {
        assert f[1] == "--- " + a;
        assert forall k :: 4 <= k < |f[1]| ==> f[1][k] == a[k - 4];
      }
    }
    assert NoLineBreak(f[2]) by {
      if !(i + 1 < |lines| && f[2] == lines[i + 1]) && !(i + 2 < |lines| && f[2] == lines[i + 2]) {
        assert f[2] == "+++ " + b;
        assert forall k :: 4 <= k < |f[2]| ==> f[2][k] == b[k - 4];
      }
    }
  }

  /** The normaliser emits no line holding a line break, given lines without them. */
  lemma {:induction false} NormalizeFromNoBreak(lines: seq<string>, i: nat)
    requires i <= |lines| && AllNoLineBreak(lines)
    requires NormalizeFrom(lines, i).Ok?
    ensures AllNoLineBreak(NormalizeFrom(lines, i).value)
    decreases |lines| - i
  {
    if i < |lines| {
      var out := NormalizeFrom(lines, i).value;
      if !IsHeader(lines[i]) {
        NormalizeFromNoBreak(lines, i + 1);
        AllNoLineBreakAppend([lines[i]], NormalizeFrom(lines, i + 1).value);
      } else {
        var parts := SplitWs(lines[i]);
        var next := FrameEnd(lines, i);
        NormalizeFromNoBreak(lines, next);
        SplitWsNoSpace(lines[i]);
        FrameNoBreak(lines, i, parts[2], parts[3]);
        AllNoLineBreakAppend(Frame(lines, i, parts[2], parts[3]), NormalizeFrom(lines, next).value);
      }
    }
  }

  /** Dropping a final empty line keeps the lines framed. */
  lemma {:induction false} FramedDropLast(x: seq<string>)
    requires |x| >= 1 && x[|x| - 1] == "" && Framed(x)
    ensures Framed(x[..|x| - 1])
    decreases |x|
  {
    if |x| > 1 {
      if IsHeader(x[0]) {
        assert |x[2]| >= 4;
        FramedDropLast(x[3..]);
        FramedHeaderFront(x);
      } else {
        FramedDropLast(x[1..]);
        FramedOtherFront(x);
      }
    }
  }

  lemma FramedHeaderFront(x: seq<string>)
    requires |x| >= 4 && IsHeader(x[0]) && FullHeader(x[0]) && StartsWith(x[1], "--- ") && StartsWith(x[2], "+++ ")
    requires Framed(x[3..][..|x[3..]| - 1])
    ensures Framed(x[..|x| - 1])
  {
    var y := x[..|x| - 1];
    FrontOfSuffix(x, 3);
    assert y[0] == x[0] && y[1] == x[1] && y[2] == x[2];
  }

  lemma FramedOtherFront(x: seq<string>)
    requires |x| >= 2 && !IsHeader(x[0]) && Framed(x[1..][..|x[1..]| - 1])
    ensures Framed(x[..|x| - 1])
  {
    var y := x[..|x| - 1];
    FrontOfSuffix(x, 1);
    assert y[0] == x[0];
  }

  /** "" and "\n" are left as they are. */
  lemma NormalizeShortFixed(n: string)
    requires n == "" || n == "\n"
    ensures NormalizeDiff(n) == Ok(n)
  {
    if n == "" {
      assert Lines(n) == [];
    } else {
      assert Segments(n) == ["", ""];
      assert Lines(n) == [""];
      assert !IsHeader("");
      assert NormalizeFrom([""], 1) == Ok([]);
      assert [""] + [] == [""];
      assert NormalizeFrom([""], 0) == Ok([""]);
      assert Join([""], "\n") == "";
    }
  }

  /** Lines ending in two empty lines join to text ending in "\n". */
  lemma JoinEndsWithEmpty(x: seq<string>)
    ensures |x| >= 2 && x[|x| - 1] == "" ==> EndsWith(Join(x, "\n"), "\n")
  {
    if |x| >= 2 && x[|x| - 1] == "" {
      JoinSnoc(x[..|x| - 1], "", "\n");
      assert x[..|x| - 1] + [""] == x;
    }
  }

  /** The text rejoined from lines whose last line is not empty does not end in a line break. */
  lemma JoinNotEndingInBreak(x: seq<string>)
    requires |x| >= 1 && x[|x| - 1] != "" && AllNoLineBreak(x)
    ensures !EndsWith(Join(x, "\n"), "\n")
  {
    JoinEndsWithLast(x);
    assert NoLineBreak(x[|x| - 1]);
  }

  /** Text whose lines are framed and which rejoins to itself is a fixed point. */
  lemma FixedWhenFramed(n: string, xs: seq<string>)
    requires Lines(n) == xs && Framed(xs) && Rejoin(n, xs) == n
    ensures NormalizeDiff(n) == Ok(n)
  {
    assert xs[0..] == xs;
    NormalizeFromFixed(xs, 0);
  }

  /** Joined framed lines whose last line is not blank are a fixed point, with or without a final "\n". */
  lemma FixedWhenLastNotBlank(n: string, out: seq<string>)
    requires |out| >= 1 && out[|out| - 1] != "" && AllNoLineBreak(out) && Framed(out)
    requires n == Join(out, "\n") || n == Join(out, "\n") + "\n"
    ensures NormalizeDiff(n) == Ok(n)
  {
    JoinNotEndingInBreak(out);
    if n == Join(out, "\n") {
      LinesOfJoin(out);
    } else {
      LinesOfJoinNewline(out);
    }
    FixedWhenFramed(n, out);
  }

  /** Joined framed lines ending in one blank line are a fixed point. */
  lemma FixedWhenLastBlank(n: string, out: seq<string>)
    requires |out| >= 2 && out[|out| - 1] == "" && out[|out| - 2] != ""
    requires AllNoLineBreak(out) && Framed(out) && n == Join(out, "\n")
    ensures NormalizeDiff(n) == Ok(n)
  {
    BlankLastFramed(out);
    FixedWhenFramed(n, out[..|out| - 1]);
  }

  /** Without their final empty line, the lines are framed, are the lines of the joined text and rejoin to it. */
  lemma BlankLastFramed(out: seq<string>)
    requires |out| >= 2 && out[|out| - 1] == "" && out[|out| - 2] != ""
    requires AllNoLineBreak(out) && Framed(out)
    ensures var xs, n := out[..|out| - 1], Join(out, "\n");
      Lines(n) == xs && Framed(xs) && Rejoin(n, xs) == n
  {
    var xs := out[..|out| - 1];
    DropBlankLast(out);
    RejoinWithNewline(xs);
    LinesOfJoinNewline(xs);
    FramedDropLast(out);
  }

  /** Dropping a final empty line takes away the last "\n" of the joined text and keeps the other lines. */
  lemma DropBlankLast(out: seq<string>)
    requires |out| >= 2 && out[|out| - 1] == "" && out[|out| - 2] != "" && AllNoLineBreak(out)
    ensures var xs := out[..|out| - 1];
      |xs| >= 1 && xs[|xs| - 1] != "" && AllNoLineBreak(xs) && Join(out, "\n") == Join(xs, "\n") + "\n"
  {
    var xs := out[..|out| - 1];
    FrontLast(out);
    JoinSnoc(xs, out[|out| - 1], "\n");
    forall k | 0 <= k < |xs| ensures NoLineBreak(xs[k]) { assert xs[k] == out[k]; }
  }

  /** Lines whose last one is not empty, joined and followed by "\n", rejoin to the same text. */
  lemma RejoinWithNewline(xs: seq<string>)
    requires |xs| >= 1 && xs[|xs| - 1] != "" && AllNoLineBreak(xs)
    ensures Rejoin(Join(xs, "\n") + "\n", xs) == Join(xs, "\n") + "\n"
  {
    JoinNotEndingInBreak(xs);
    EndsWithAppended(Join(xs, "\n"), "\n");
  }

  /** Joined framed lines, with or without a final "\n", are a fixed point unless they end in a blank line. */
  lemma FixedWhenJoined(n: string, out: seq<string>)
    requires AllNoLineBreak(out) && Framed(out) && !EndsWith(n, "\n\n")
    requires n == Join(out, "\n") || n == Join(out, "\n") + "\n"
    requires EndsWith(Join(out, "\n"), "\n") ==> n == Join(out, "\n")
    ensures NormalizeDiff(n) == Ok(n)
  {
    if |out| == 0 {
      NormalizeShortFixed(n);
    } else if out[|out| - 1] != "" {
      FixedWhenLastNotBlank(n, out);
    } else if |out| == 1 {
      assert Join(out, "\n") == out[0];
      NormalizeShortFixed(n);
    } else {
      var xs := out[..|out| - 1];
      var e := "";
      JoinSnoc(xs, e, "\n");
      assert xs + [e] == out;
      JoinEndsWithEmpty(xs);
      if |xs| == 1 && xs[0] == "" {
        assert Join(xs, "\n") == e;
        NormalizeShortFixed(n);
      } else if xs[|xs| - 1] == "" {
        assert false;
      } else {
        FixedWhenLastBlank(n, out);
      }
    }
  }

  /**
   * Normalising a normalised diff changes nothing, unless the text ends in
   * a blank line ("\n\n"): `splitlines` then loses one empty line per pass.
   */
  lemma NormalizeIdempotent(d: string, n: string)
    requires NormalizeDiff(d) == Ok(n) && !EndsWith(n, "\n\n")
    ensures NormalizeDiff(n) == Ok(n)
  {
    var out := NormalizeFrom(Lines(d), 0).value;
    LinesHaveNoLineBreak(d);
    NormalizeFromNoBreak(Lines(d), 0);
    NormalizeFromFramed(Lines(d), 0);
    FixedWhenJoined(n, out);
  }

  /** The blank-line exception is real: a line followed by two blank lines loses one per pass. */
  lemma NormalizeLosesBlankLine(x: string)
    requires x != "" && NoLineBreak(x) && !IsHeader(x)
    ensures NormalizeDiff(x + "\n\n\n") == Ok(x + "\n\n")
    ensures NormalizeDiff(x + "\n\n") == Ok(x + "\n")
  {
    var e := "";
    assert AllNoLineBreak([x, e, e]);
    assert [x, e, e][1..] == [e, e] && [e, e][1..] == [e];
    assert Join([e, e], "\n") == e + "\n" + Join([e], "\n");
    assert e + "\n" + e == "\n";
    assert Join([x, e, e], "\n") == x + "\n\n";
    LinesOfJoinNewline([x, e, e]);
    assert x + "\n\n" + "\n" == x + "\n\n\n";
    NormalizeFromPassthrough([x, e, e], 0);
    assert AllNoLineBreak([x, e]);
    assert [x, e][1..] == [e];
    assert Join([x, e], "\n") == x + "\n";
    LinesOfJoinNewline([x, e]);
    NormalizeFromPassthrough([x, e], 0);
  }

  /** Without header lines the normaliser copies every line. */
  lemma {:induction false} NormalizeFromPassthrough(lines: seq<string>, i: nat)
    requires i <= |lines|
    requires forall k :: i <= k < |lines| ==> !IsHeader(lines[k])
    ensures NormalizeFrom(lines, i) == Ok(lines[i..])
    decreases |lines| - i
  {
    if i < |lines| {
      NormalizeFromPassthrough(lines, i + 1);
      assert lines[i..] == [lines[i]] + lines[i + 1..];
    }
  }

  // ---------------------------------------------------------------------------
  // _apply_hunks

  /** `Path.read_text()`: universal newlines turn "\r\n" and a lone "\r" into "\n". */
  function ReadText(raw: string): (text: string)
    ensures '\r' !in text
    decreases |raw|
  {
    if raw == [] then []
    else if raw[0] == '\r' && |raw| >= 2 && raw[1] == '\n' then "\n" + ReadText(raw[2..])
    else if raw[0] == '\r' then "\n" + ReadText(raw[1..])
    else [raw[0]] + ReadText(raw[1..])
  }

  /** An added line, given the "\n" it lacks. */
  function AddNewline(text: string): (r: string)
    ensures EndsWith(r, "\n")
  {
    if EndsWith(text, "\n") then text else text + "\n"
  }

  /**
   * The lines `_apply_hunks` writes for `hunk`, reading `original` from line
   * `cursor` on: "@@" lines are skipped, a context line copies the line under
   * the cursor without comparing it, a "-" line skips one, a "+" line adds its
   * text; what is left of `original` comes last.
   */
  function Patch(original: seq<string>, hunk: seq<string>, cursor: nat): seq<string>
    decreases |hunk|
  {
    if hunk == [] then (if cursor <= |original| then original[cursor..] else [])
    else
      var line := hunk[0];
      if StartsWith(line, "@@") then Patch(original, hunk[1..], cursor)
      else if StartsWith(line, " ") then
        if cursor < |original| then [original[cursor]] + Patch(original, hunk[1..], cursor + 1)
        else Patch(original, hunk[1..], cursor)
      else if StartsWith(line, "-") then Patch(original, hunk[1..], cursor + 1)
      else if StartsWith(line, "+") then [AddNewline(line[1..])] + Patch(original, hunk[1..], cursor)
      else Patch(original, hunk[1..], cursor)
  }

  /** The loop of `_apply_hunks`, proved to produce the lines of `Patch`. */
  method ApplyHunkLines(original: seq<string>, hunk: seq<string>) returns (output: seq<string>)
    ensures output == Patch(original, hunk, 0)
  {
    var cursor := 0;
    output := [];
    var i := 0;
    while i < |hunk|
      invariant 0 <= i <= |hunk|
      invariant output + Patch(original, hunk[i..], cursor) == Patch(original, hunk, 0)
      decreases |hunk| - i
    {
      var line := hunk[i];
      assert hunk[i..][1..] == hunk[i + 1..];
      if StartsWith(line, "@@") {
      } else if StartsWith(line, " ") {
        if cursor < |original| {
          output := output + [original[cursor]];
          cursor := cursor + 1;
        }
      } else if StartsWith(line, "-") {
        cursor := cursor + 1;
      } else if StartsWith(line, "+") {
        output := output + [AddNewline(line[1..])];
      }
      i := i + 1;
    }
    if cursor <= |original| {
      output := output + original[cursor..];
    }
  }

  /** `_apply_hunks` on a tree: the file must exist; its new text is the patched lines. */
  function ApplyHunks(tree: Tree, path: string, hunk: seq<string>): (r: Result<Tree, Error>)
    ensures r.Err? <==> path !in tree
  {
    if path !in tree then Err(OsError(path))
    else Ok(tree[path := Concat(Patch(KeepEnds(ReadText(tree[path])), hunk, 0))])
  }

  /** Applying hunks rewrites one existing file and leaves every other file as it was. */
  lemma ApplyHunksFrame(tree: Tree, path: string, hunk: seq<string>)
    requires path in tree
    ensures ApplyHunks(tree, path, hunk).value.Keys == tree.Keys
    ensures forall p :: p in tree && p != path ==> ApplyHunks(tree, path, hunk).value[p] == tree[p]
  {
  }

  /** "@@" lines and added lines only: the added texts go in front of the whole file. */
  lemma {:induction false} PatchPlusOnly(original: seq<string>, hunk: seq<string>, cursor: nat)
    requires cursor <= |original|
    requires forall k :: 0 <= k < |hunk| ==> StartsWith(hunk[k], "@@") || StartsWith(hunk[k], "+")
    ensures Patch(original, hunk, cursor) == Added(hunk) + original[cursor..]
    decreases |hunk|
  {
    if hunk != [] {
      if !StartsWith(hunk[0], "@@") {
        assert !StartsWith(hunk[0], " ") && !StartsWith(hunk[0], "-") by {
          assert hunk[0][0] == '+';
        }
      }
      PatchPlusOnly(original, hunk[1..], cursor);
    }
  }

  /** On a file, such a hunk puts the added lines in front of its text. */
  lemma ApplyHunksPrepends(tree: Tree, path: string, hunk: seq<string>)
    requires path in tree
    requires forall k :: 0 <= k < |hunk| ==> StartsWith(hunk[k], "@@") || StartsWith(hunk[k], "+")
    ensures ApplyHunks(tree, path, hunk) == Ok(tree[path := Concat(Added(hunk)) + ReadText(tree[path])])
  {
    var original := KeepEnds(ReadText(tree[path]));
    PatchPlusOnly(original, hunk, 0);
    assert original[0..] == original;
    ConcatAppend(Added(hunk), original);
    ConcatKeepEnds(ReadText(tree[path]));
  }

  /** The texts of the "+" lines of a hunk, each ending in "\n". */
  function Added(hunk: seq<string>): (r: seq<string>)
    ensures |r| <= |hunk|
    decreases |hunk|
  {
    if hunk == [] then []
    else if StartsWith(hunk[0], "+") then [AddNewline(hunk[0][1..])] + Added(hunk[1..])
    else Added(hunk[1..])
  }

  /** The kind of each line decides the result: a context line's text is never compared with the file. */
  lemma {:induction false} PatchIgnoresContextText(original: seq<string>, hunk: seq<string>, k: nat, other: string, cursor: nat)
    requires k < |hunk| && StartsWith(hunk[k], " ") && StartsWith(other, " ")
    ensures Patch(original, hunk[k := other], cursor) == Patch(original, hunk, cursor)
    decreases |hunk|
  {
    var h := hunk[k := other];
    assert h[0] == if k == 0 then other else hunk[0];
    if k == 0 {
      assert !StartsWith(other, "@@") && !StartsWith(hunk[0], "@@") by {
        assert other[0] == ' ' && hunk[0][0] == ' ';
      }
      assert h[1..] == hunk[1..];
    } else {
      assert h[1..] == hunk[1..][k - 1 := other];
      if StartsWith(hunk[0], "@@") || (StartsWith(hunk[0], " ") && cursor >= |original|)
        || (!StartsWith(hunk[0], " ") && !StartsWith(hunk[0], "-") && !StartsWith(hunk[0], "+")) {
        PatchIgnoresContextText(original, hunk[1..], k - 1, other, cursor);
      } else if StartsWith(hunk[0], " ") || StartsWith(hunk[0], "-") {
        PatchIgnoresContextText(original, hunk[1..], k - 1, other, cursor + 1);
      } else {
        PatchIgnoresContextText(original, hunk[1..], k - 1, other, cursor);
      }
    }
  }

  /** Context lines alone, no more of them than the file has lines, give the file back. */
  lemma {:induction false} PatchContextOnly(original: seq<string>, hunk: seq<string>, cursor: nat)
    requires cursor + |hunk| <= |original|
    requires forall k :: 0 <= k < |hunk| ==> StartsWith(hunk[k], " ")
    ensures Patch(original, hunk, cursor) == original[cursor..]
    decreases |hunk|
  {
    if hunk != [] {
      assert !StartsWith(hunk[0], "@@") by { assert hunk[0][0] == ' '; }
      PatchContextOnly(original, hunk[1..], cursor + 1);
      assert original[cursor..] == [original[cursor]] + original[cursor + 1..];
    }
  }

  /** A "-" line as the first change removes the file's first line, whatever its text says. */
  lemma PatchRemovesFirst(original: seq<string>, removed: string)
    requires original != [] && StartsWith(removed, "-")
    ensures Patch(original, [removed], 0) == original[1..]
  {
    assert !StartsWith(removed, "@@") && !StartsWith(removed, " ") by { assert removed[0] == '-'; }
    assert [removed][1..] == [];
  }

  // ---------------------------------------------------------------------------
  // _manual_apply

  /** The first line at or after `i` that does not start with `p`. */
  function SkipPrefixed(lines: seq<string>, i: nat, p: string): (j: nat)
    requires i <= |lines|
    ensures i <= j <= |lines|
    ensures j < |lines| ==> !StartsWith(lines[j], p)
    decreases |lines| - i
  {
    if i < |lines| && StartsWith(lines[i], p) then SkipPrefixed(lines, i + 1, p) else i
  }

  /** The next header at or after `i`, or the end: where a file's hunk lines stop. */
  function SectionEnd(lines: seq<string>, i: nat): (j: nat)
    requires i <= |lines|
    ensures i <= j <= |lines|
    ensures j < |lines| ==> IsHeader(lines[j])
    decreases |lines| - i
  {
    if i < |lines| && !IsHeader(lines[i]) then SectionEnd(lines, i + 1) else i
  }

  /** `parts[3][2:]`: the header's "b/" path without its first two characters. */
  function TargetPath(field: string): string {
    if |field| >= 2 then field[2..] else ""
  }

  /** A tree as the applier leaves it, and the error it stopped at, if any. */
  datatype Applied = Applied(tree: Tree, error: Option<Error>)

  /**
   * `_manual_apply` from line `i`: each header names its target in its fourth
   * field; the "---" and "+++" lines after it are skipped and the lines up to
   * the next header are that file's hunk. Files are written one after the other,
   * so an error leaves the earlier ones written.
   */
  function ManualFrom(lines: seq<string>, i: nat, tree: Tree): Applied
    requires i <= |lines|
    decreases |lines| - i, 1
  {
    if i == |lines| then Applied(tree, None)
    else if !IsHeader(lines[i]) then ManualFrom(lines, i + 1, tree)
    else
      var parts := SplitWs(lines[i]);
      if |parts| < 4 then Applied(tree, Some(IndexError))
      else ManualSection(lines, i, TargetPath(parts[3]), tree)
  }

  /** The section of the header at `i`, whose target is `path`, and what follows it. */
  function ManualSection(lines: seq<string>, i: nat, path: string, tree: Tree): Applied
    requires i < |lines|
    decreases |lines| - i, 0
  {
    var start := SectionStart(lines, i);
    var end := SectionEnd(lines, start);
    var r := ApplyHunks(tree, path, lines[start..end]);
    if r.Err? then Applied(tree, Some(r.error)) else ManualFrom(lines, end, r.value)
  }

  /** Where the hunk lines of the header at `i` start: past the "---" lines and then the "+++" lines. */
  function SectionStart(lines: seq<string>, i: nat): (start: nat)
    requires i < |lines|
    ensures i < start <= |lines|
  {
    SkipPrefixed(lines, SkipPrefixed(lines, i + 1, "---"), "+++")
  }

  /** The inner loops of `_manual_apply`: skip the file header lines, then collect the hunk. */
  method ReadSection(lines: seq<string>, header: nat) returns (hunk: seq<string>, end: nat)
    requires header < |lines|
    ensures end == SectionEnd(lines, SectionStart(lines, header))
    ensures hunk == lines[SectionStart(lines, header)..end]
  {
    var i := header + 1;
    while i < |lines| && StartsWith(lines[i], "---")
      invariant header < i <= |lines|
      invariant SkipPrefixed(lines, i, "---") == SkipPrefixed(lines, header + 1, "---")
      decreases |lines| - i
    {
      i := i + 1;
    }
    var afterMinus := i;
    while i < |lines| && StartsWith(lines[i], "+++")
      invariant afterMinus <= i <= |lines|
      invariant SkipPrefixed(lines, i, "+++") == SkipPrefixed(lines, afterMinus, "+++")
      decreases |lines| - i
    {
      i := i + 1;
    }
    var start := i;
    hunk := [];
    while i < |lines| && !IsHeader(lines[i])
      invariant start <= i <= |lines|
      invariant hunk == lines[start..i]
      invariant SectionEnd(lines, i) == SectionEnd(lines, start)
      decreases |lines| - i
    {
      hunk := hunk + [lines[i]];
      i := i + 1;
    }
    end := i;
  }

  /** The loop of `_manual_apply`, proved to compute `ManualFrom`. */
  method ManualApply(diff: string, tree0: Tree) returns (result: Applied)
    ensures result == ManualFrom(Lines(diff), 0, tree0)
  {
    var lines := Lines(diff);
    var tree := tree0;
    var i := 0;
    while i < |lines|
      invariant 0 <= i <= |lines|
      invariant ManualFrom(lines, i, tree) == ManualFrom(lines, 0, tree0)
      decreases |lines| - i
    {
      if !IsHeader(lines[i]) {
        i := i + 1;
        continue;
      }
      var parts := SplitWs(lines[i]);
      if |parts| < 4 {
        return Applied(tree, Some(IndexError));
      }
      var path := TargetPath(parts[3]);
      assert ManualFrom(lines, i, tree) == ManualSection(lines, i, path, tree);
      var hunk, end := ReadSection(lines, i);
      if path !in tree {
        return Applied(tree, Some(OsError(path)));
      }
      var output := ApplyHunkLines(KeepEnds(ReadText(tree[path])), hunk);
      tree := tree[path := Concat(output)];
      i := end;
    }
    return Applied(tree, None);
  }

  /** The manual applier rewrites existing files only: it never creates or deletes one. */
  lemma {:induction false} ManualFromKeepsFiles(lines: seq<string>, i: nat, tree: Tree)
    requires i <= |lines|
    ensures ManualFrom(lines, i, tree).tree.Keys == tree.Keys
    decreases |lines| - i
  {
    if i < |lines| {
      if !IsHeader(lines[i]) {
        ManualFromKeepsFiles(lines, i + 1, tree);
      } else {
        var parts := SplitWs(lines[i]);
        if |parts| >= 4 {
          var end := SectionEnd(lines, SectionStart(lines, i));
          var r := ApplyHunks(tree, TargetPath(parts[3]), lines[SectionStart(lines, i)..end]);
          if r.Ok? {
            ApplyHunksFrame(tree, TargetPath(parts[3]), lines[SectionStart(lines, i)..end]);
            ManualFromKeepsFiles(lines, end, r.value);
          }
        }
      }
    }
  }

  /** After a header, one "--- " line and one "+++ " line, the hunk runs to the end. */
  lemma SingleSectionBounds(lines: seq<string>)
    requires |lines| >= 3 && StartsWith(lines[1], "--- ") && StartsWith(lines[2], "+++ ")
    requires |lines| == 3 || !StartsWith(lines[3], "+++")
    requires forall k :: 3 <= k < |lines| ==> !IsHeader(lines[k])
    ensures SectionStart(lines, 0) == 3 && SectionEnd(lines, 3) == |lines|
  {
    HeaderLinesSkipped(lines);
    SectionEndNoHeader(lines, 3);
  }

  lemma HeaderLinesSkipped(lines: seq<string>)
    requires |lines| >= 3 && StartsWith(lines[1], "--- ") && StartsWith(lines[2], "+++ ")
    requires |lines| == 3 || !StartsWith(lines[3], "+++")
    ensures SectionStart(lines, 0) == 3
  {
    assert StartsWith(lines[1], "---");
    assert !StartsWith(lines[2], "---") by { assert lines[2][0] == '+'; }
    assert SkipPrefixed(lines, 1, "---") == 2;
    assert StartsWith(lines[2], "+++");
    assert SkipPrefixed(lines, 2, "+++") == 3;
  }

  /** A framed one-file diff: the manual applier applies its hunk lines to the file its header names. */
  lemma ManualSingleFile(lines: seq<string>, path: string, tree: Tree)
    requires |lines| >= 3 && FullHeader(lines[0]) && path == TargetPath(SplitWs(lines[0])[3])
    requires StartsWith(lines[1], "--- ") && StartsWith(lines[2], "+++ ")
    requires |lines| == 3 || !StartsWith(lines[3], "+++")
    requires forall k :: 3 <= k < |lines| ==> !IsHeader(lines[k])
    ensures var r := ApplyHunks(tree, path, lines[3..]);
      ManualFrom(lines, 0, tree) == if r.Ok? then Applied(r.value, None) else Applied(tree, Some(r.error))
  {
    SingleSectionBounds(lines);
    ManualOneSection(lines, path, tree);
  }

  lemma ManualOneSection(lines: seq<string>, path: string, tree: Tree)
    requires |lines| >= 3 && FullHeader(lines[0]) && path == TargetPath(SplitWs(lines[0])[3])
    requires SectionStart(lines, 0) == 3 && SectionEnd(lines, 3) == |lines|
    ensures var r := ApplyHunks(tree, path, lines[3..]);
      ManualFrom(lines, 0, tree) == if r.Ok? then Applied(r.value, None) else Applied(tree, Some(r.error))
  {
    ManualFromHeader(lines, tree);
    ManualSectionIs(lines, 0, path, tree, 3, |lines|);
  }

  /** At a full header the applier handles that file's section. */
  lemma ManualFromHeader(lines: seq<string>, tree: Tree)
    requires |lines| >= 1 && FullHeader(lines[0])
    ensures ManualFrom(lines, 0, tree) == ManualSection(lines, 0, TargetPath(SplitWs(lines[0])[3]), tree)
  {
  }

  /** A section that runs to the end of the diff: its hunks are applied, and the applier stops. */
  lemma ManualSectionIs(lines: seq<string>, i: nat, path: string, tree: Tree, start: nat, end: nat)
    requires i < |lines| && start == SectionStart(lines, i) && end == SectionEnd(lines, start) && end == |lines|
    ensures var r := ApplyHunks(tree, path, lines[start..]);
      ManualSection(lines, i, path, tree) == if r.Ok? then Applied(r.value, None) else Applied(tree, Some(r.error))
  {
    assert lines[start..end] == lines[start..];
  }

  lemma {:induction false} SectionEndNoHeader(lines: seq<string>, i: nat)
    requires i <= |lines|
    requires forall k :: i <= k < |lines| ==> !IsHeader(lines[k])
    ensures SectionEnd(lines, i) == |lines|
    decreases |lines| - i
  {
    if i < |lines| {
      SectionEndNoHeader(lines, i + 1);
    }
  }

  // ---------------------------------------------------------------------------
  // apply_diff

  /**
   * `apply_diff`: normalise, hand the result to `git apply`, and apply it by
   * hand when git refuses. `gitApply` stands for `git apply -` on the working
   * tree: the new tree, or None when git exits with an error.
   */
  function ApplyDiff(diff: string, tree: Tree, gitApply: (string, Tree) -> Option<Tree>): (r: Applied)
    ensures NormalizeDiff(diff).Err? ==> r == Applied(tree, Some(NormalizeDiff(diff).error))
    ensures NormalizeDiff(diff).Ok? && gitApply(NormalizeDiff(diff).value, tree).Some? ==>
      r == Applied(gitApply(NormalizeDiff(diff).value, tree).value, None)
    ensures NormalizeDiff(diff).Ok? && gitApply(NormalizeDiff(diff).value, tree).None? ==>
      r.tree.Keys == tree.Keys
  {
    match NormalizeDiff(diff)
    case Err(e) => Applied(tree, Some(e))
    case Ok(normalized) =>
      match gitApply(normalized, tree)
      case Some(t) => Applied(t, None)
      case None =>
        ManualFromKeepsFiles(Lines(normalized), 0, tree);
        ManualFrom(Lines(normalized), 0, tree)
  }

  // ---------------------------------------------------------------------------
  // The repository the git wrappers act on

  /**
   * A repository as the transaction sees it: the working tree, every commit's
   * tree (a commit is named by its position), their messages, and HEAD. The
   * index always equals HEAD's tree here: `revert` resets it, `commit` stages
   * everything before committing, and neither `git apply` (without `--index`)
   * nor the manual applier touches it.
   */
  datatype RepoState = RepoState(tree: Tree, commits: seq<Tree>, messages: seq<string>, head: nat)
  {
    predicate Valid() {
      |commits| == |messages| && head < |commits|
    }

    /** HEAD's tree. */
    function HeadTree(): Tree
      requires Valid()
    {
      commits[head]
    }
  }

  /** `revert`: `git reset --hard rev` and `git clean -fd` leave exactly `rev`'s tree, with HEAD at `rev`. */
  function RevertTo(s: RepoState, rev: nat): (r: RepoState)
    requires s.Valid() && rev < |s.commits|
    ensures r.Valid() && r.tree == s.commits[rev] && r.head == rev
    ensures r.commits == s.commits && r.messages == s.messages
  {
    s.(tree := s.commits[rev], head := rev)
  }

  /**
   * `commit`: stage everything and commit it. Git refuses when the working tree
   * equals HEAD's tree (nothing to commit), which `commit` raises.
   */
  function CommitAll(s: RepoState, message: string): (r: Result<RepoState, Error>)
    requires s.Valid()
    ensures r.Err? <==> s.tree == s.HeadTree()
    ensures r.Err? ==> r.error == CommitFailed
    ensures r.Ok? ==> r.value.Valid() && r.value.tree == s.tree && r.value.HeadTree() == s.tree
    ensures r.Ok? ==> r.value.commits == s.commits + [s.tree] && r.value.messages == s.messages + [message]
  {
    if s.tree == s.HeadTree() then Err(CommitFailed)
    else Ok(RepoState(s.tree, s.commits + [s.tree], s.messages + [message], |s.commits|))
  }

  /** The repository as an object whose git operations update it in place. */
  class Repository {
    var tree: Tree
    var commits: seq<Tree>
    var messages: seq<string>
    var head: nat

    function State(): RepoState
      reads this
    {
      RepoState(tree, commits, messages, head)
    }

    ghost predicate Valid()
      reads this
    {
      State().Valid()
    }

    /** A repository whose only commit holds `initial`, checked out. */
    constructor (initial: Tree, message: string)
      ensures Valid() && State() == RepoState(initial, [initial], [message], 0)
    {
      tree := initial;
      commits := [initial];
      messages := [message];
      head := 0;
    }

    /** `checkpoint`: HEAD's commit. */
    method Checkpoint() returns (rev: nat)
      requires Valid()
      ensures rev == head && rev < |commits|
    {
      rev := head;
    }

    method Revert(rev: nat)
      requires Valid() && rev < |commits|
      modifies this
      ensures Valid() && State() == RevertTo(old(State()), rev)
    {
      tree := commits[rev];
      head := rev;
    }

    method Commit(message: string) returns (err: Option<Error>)
      requires Valid()
      modifies this
      ensures Valid()
      ensures var r := CommitAll(old(State()), message);
        if r.Ok? then err == None && State() == r.value else err == Some(r.error) && State() == old(State())
    {
      if tree == commits[head] {
        return Some(CommitFailed);
      }
      commits := commits + [tree];
      messages := messages + [message];
      head := |commits| - 1;
      return None;
    }

    /** `apply_diff` on the working tree; an error is raised after any files already written. */
    method Apply(diff: string, gitApply: (string, Tree) -> Option<Tree>) returns (err: Option<Error>)
      requires Valid()
      modifies this
      ensures Valid()
      ensures var a := ApplyDiff(diff, old(tree), gitApply);
        State() == old(State()).(tree := a.tree) && err == a.error
    {
      var normalized := Normalize(diff);
      if normalized.Err? {
        return Some(normalized.error);
      }
      var applied := gitApply(normalized.value, tree);
      if applied.Some? {
        tree := applied.value;
        return None;
      }
      var a := ManualApply(normalized.value, tree);
      tree := a.tree;
      err := a.error;
    }
  }
}
