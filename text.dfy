/**
 * The string operations of Python's `str` that the agent relies on, over Dafny
 * strings (sequences of characters). Line splitting follows `str.splitlines`.
 */
module Text {

  // ---------------------------------------------------------------------------
  // Prefixes, suffixes, containment

  predicate StartsWith(s: string, p: string) {
    |p| <= |s| && s[..|p|] == p
  }

  predicate EndsWith(s: string, p: string) {
    |p| <= |s| && s[|s| - |p|..] == p
  }

  /** Text followed by a suffix ends with that suffix. */
  lemma EndsWithAppended(s: string, p: string)
    ensures EndsWith(s + p, p)
  {
    assert (s + p)[|s + p| - |p|..] == p;
  }

  /** `p in s` */
  predicate Contains(s: string, p: string)
    decreases |s|
  {
    StartsWith(s, p) || (s != [] && Contains(s[1..], p))
  }

  /** A prefix of `s` is contained in `s + t`. */
  lemma ContainsAppend(s: string, t: string, p: string)
    requires Contains(s, p)
    ensures Contains(s + t, p)
    decreases |s|
  {
    if StartsWith(s, p) {
      assert (s + t)[..|p|] == s[..|p|];
    } else {
      assert (s + t)[1..] == s[1..] + t;
      ContainsAppend(s[1..], t, p);
    }
  }

  /** Containment seen from the left: `p` occurs in `u + s` when it occurs in `s`. */
  lemma ContainsPrepend(u: string, s: string, p: string)
    requires Contains(s, p)
    ensures Contains(u + s, p)
    decreases |u|
  {
    if u == [] {
      assert u + s == s;
    } else {
      assert (u + s)[1..] == u[1..] + s;
      ContainsPrepend(u[1..], s, p);
    }
  }

  // ---------------------------------------------------------------------------
  // Joining

  /** `sep.join(parts)` */
  function Join(parts: seq<string>, sep: string): string
    decreases |parts|
  {
    if |parts| == 0 then ""
    else if |parts| == 1 then parts[0]
    else parts[0] + sep + Join(parts[1..], sep)
  }

  /** `"".join(parts)` */
  function Concat(parts: seq<string>): string
    decreases |parts|
  {
    if parts == [] then "" else parts[0] + Concat(parts[1..])
  }

  lemma ConcatAppend(a: seq<string>, b: seq<string>)
    ensures Concat(a + b) == Concat(a) + Concat(b)
    decreases |a|
  {
    if a == [] {
      assert a + b == b;
    } else {
      assert (a + b)[0] == a[0];
      assert (a + b)[1..] == a[1..] + b;
      ConcatAppend(a[1..], b);
    }
  }

  lemma JoinSnoc(parts: seq<string>, x: string, sep: string)
    requires |parts| >= 1
    ensures Join(parts + [x], sep) == Join(parts, sep) + sep + x
    decreases |parts|
  {
    if |parts| > 1 {
      assert (parts + [x])[1..] == parts[1..] + [x];
      JoinSnoc(parts[1..], x, sep);
    }
  }

  // ---------------------------------------------------------------------------
  // Lines: `str.splitlines()`

  /** The characters `str.splitlines` breaks at; "\r\n" is a single break. */
  predicate IsLineBreak(c: char) {
    var n := c as int;
    (10 <= n <= 13) || (28 <= n <= 30) || n == 0x85 || n == 0x2028 || n == 0x2029
  }

  /** The pieces between line breaks: always at least one, the last one after the final break. */
  function Segments(s: string): (r: seq<string>)
    ensures |r| >= 1
    decreases |s|
  {
    if s == [] then [""]
    else if s[0] == '\r' && |s| >= 2 && s[1] == '\n' then [""] + Segments(s[2..])
    else if IsLineBreak(s[0]) then [""] + Segments(s[1..])
    else
      var t := Segments(s[1..]);
      [[s[0]] + t[0]] + t[1..]
  }

  /** `s.splitlines()`: the pieces, without the empty piece after a final break. */
  function Lines(s: string): seq<string> {
    var g := Segments(s);
    if g[|g| - 1] == "" then g[..|g| - 1] else g
  }

  predicate NoLineBreak(s: string) {
    forall k :: 0 <= k < |s| ==> !IsLineBreak(s[k])
  }

  predicate AllNoLineBreak(parts: seq<string>) {
    forall k :: 0 <= k < |parts| ==> NoLineBreak(parts[k])
  }

  lemma AllNoLineBreakAppend(a: seq<string>, b: seq<string>)
    requires AllNoLineBreak(a) && AllNoLineBreak(b)
    ensures AllNoLineBreak(a + b)
  {
    forall k | 0 <= k < |a + b| ensures NoLineBreak((a + b)[k]) {
      if k >= |a| { assert (a + b)[k] == b[k - |a|]; }
    }
  }

  lemma {:induction false} SegmentsHaveNoLineBreak(s: string)
    ensures AllNoLineBreak(Segments(s))
    decreases |s|
  {
    if s != [] {
      if s[0] == '\r' && |s| >= 2 && s[1] == '\n' {
        SegmentsHaveNoLineBreak(s[2..]);
      } else {
        SegmentsHaveNoLineBreak(s[1..]);
        if !IsLineBreak(s[0]) {
          var t := Segments(s[1..]);
          assert NoLineBreak(t[0]);
          var h := [s[0]] + t[0];
          assert forall k :: 1 <= k < |h| ==> h[k] == t[0][k - 1];
          assert NoLineBreak(h);
        }
      }
    }
  }

  lemma LinesHaveNoLineBreak(s: string)
    ensures AllNoLineBreak(Lines(s))
  {
    SegmentsHaveNoLineBreak(s);
  }

  lemma {:induction false} SegmentsOfLine(x: string)
    requires NoLineBreak(x)
    ensures Segments(x) == [x]
    decreases |x|
  {
    if x != [] {
      assert NoLineBreak(x[1..]) by {
        forall k | 0 <= k < |x[1..]| ensures !IsLineBreak(x[1..][k]) { assert x[1..][k] == x[k + 1]; }
      }
      SegmentsOfLine(x[1..]);
      assert [x[0]] + x[1..] == x;
    }
  }

  /** A line without breaks followed by "\n" is the first segment. */
  lemma {:induction false} SegmentsCons(x: string, t: string)
    requires NoLineBreak(x)
    ensures Segments(x + "\n" + t) == [x] + Segments(t)
    decreases |x|
  {
    if x == [] {
      assert x + "\n" + t == ['\n'] + t;
      assert (['\n'] + t)[1..] == t;
    } else {
      var s := x + "\n" + t;
      assert s[0] == x[0];
      assert s[1..] == x[1..] + "\n" + t;
      assert NoLineBreak(x[1..]) by {
        forall k | 0 <= k < |x[1..]| ensures !IsLineBreak(x[1..][k]) { assert x[1..][k] == x[k + 1]; }
      }
      SegmentsCons(x[1..], t);
      assert [x[0]] + x[1..] == x;
    }
  }

  /** Splitting undoes joining with "\n" when no part holds a break. */
  lemma {:induction false} SegmentsOfJoin(parts: seq<string>)
    requires |parts| >= 1 && AllNoLineBreak(parts)
    ensures Segments(Join(parts, "\n")) == parts
    decreases |parts|
  {
    if |parts| == 1 {
      SegmentsOfLine(parts[0]);
    } else {
      assert NoLineBreak(parts[0]);
      SegmentsOfJoin(parts[1..]);
      SegmentsCons(parts[0], Join(parts[1..], "\n"));
      assert [parts[0]] + parts[1..] == parts;
    }
  }

  /** `"\n".join(parts).splitlines()` gives `parts` back when the last part is not empty. */
  lemma LinesOfJoin(parts: seq<string>)
    requires |parts| >= 1 && AllNoLineBreak(parts) && parts[|parts| - 1] != ""
    ensures Lines(Join(parts, "\n")) == parts
  {
    SegmentsOfJoin(parts);
  }

  /** ... and so does the same text with one more "\n" at the end. */
  lemma LinesOfJoinNewline(parts: seq<string>)
    requires |parts| >= 1 && AllNoLineBreak(parts)
    ensures Lines(Join(parts, "\n") + "\n") == parts
  {
    JoinSnoc(parts, "", "\n");
    assert Join(parts, "\n") + "\n" == Join(parts + [""], "\n");
    assert AllNoLineBreak(parts + [""]) by {
      forall k | 0 <= k < |parts + [""]| ensures NoLineBreak((parts + [""])[k]) {
        if k < |parts| { assert (parts + [""])[k] == parts[k]; }
      }
    }
    SegmentsOfJoin(parts + [""]);
    assert (parts + [""])[..|parts|] == parts;
  }

  /** Joining lines that end in a non-empty line gives text ending in that line's last character. */
  lemma {:induction false} JoinEndsWithLast(parts: seq<string>)
    requires |parts| >= 1 && parts[|parts| - 1] != ""
    ensures |Join(parts, "\n")| >= 1
    ensures Join(parts, "\n")[|Join(parts, "\n")| - 1] == parts[|parts| - 1][|parts[|parts| - 1]| - 1]
    decreases |parts|
  {
    if |parts| > 1 {
      JoinEndsWithLast(parts[1..]);
    }
  }

  // ---------------------------------------------------------------------------
  // Lines that keep their terminator: `s.splitlines(keepends=True)`

  /** Index of the first line break in `s`, or `|s|` when there is none. */
  function BreakIndex(s: string): (i: nat)
    ensures i <= |s|
    ensures forall k :: 0 <= k < i ==> !IsLineBreak(s[k])
    ensures i < |s| ==> IsLineBreak(s[i])
    decreases |s|
  {
    if s == [] then 0
    else if IsLineBreak(s[0]) then 0
    else 1 + BreakIndex(s[1..])
  }

  /** Where the first line of `s`, with its terminator, ends. */
  function LineEnd(s: string): (e: nat)
    requires s != []
    ensures 0 < e <= |s|
  {
    var i := BreakIndex(s);
    if i == |s| then |s|
    else if s[i] == '\r' && i + 1 < |s| && s[i + 1] == '\n' then i + 2
    else i + 1
  }

  function KeepEnds(s: string): seq<string>
    decreases |s|
  {
    if s == [] then [] else [s[..LineEnd(s)]] + KeepEnds(s[LineEnd(s)..])
  }

  /** The kept-ends lines concatenate back to the text. */
  lemma {:induction false} ConcatKeepEnds(s: string)
    ensures Concat(KeepEnds(s)) == s
    decreases |s|
  {
    if s != [] {
      var e := LineEnd(s);
      ConcatKeepEnds(s[e..]);
      assert s[..e] + s[e..] == s;
    }
  }

  // ---------------------------------------------------------------------------
  // Whitespace, `str.split()` and `str.strip()`

  /** `c.isspace()` */
  predicate IsSpace(c: char) {
    var n := c as int;
    (9 <= n <= 13) || (28 <= n <= 32) || n == 0x85 || n == 0xA0 || n == 0x1680
    || (0x2000 <= n <= 0x200A) || n == 0x2028 || n == 0x2029 || n == 0x202F
    || n == 0x205F || n == 0x3000
  }

  function TrimLeft(s: string): (r: string)
    ensures |r| <= |s| && r == s[|s| - |r|..]
    ensures r != [] ==> !IsSpace(r[0])
    decreases |s|
  {
    if s != [] && IsSpace(s[0]) then TrimLeft(s[1..]) else s
  }

  function TrimRight(s: string): (r: string)
    ensures |r| <= |s| && r == s[..|r|]
    ensures r != [] ==> !IsSpace(r[|r| - 1])
    decreases |s|
  {
    if s != [] && IsSpace(s[|s| - 1]) then TrimRight(s[..|s| - 1]) else s
  }

  /** Only trailing whitespace is trimmed. */
  lemma {:induction false} TrimRightDropsSpace(s: string, k: nat)
    requires |TrimRight(s)| <= k < |s|
    ensures IsSpace(s[k])
    decreases |s|
  {
    if s != [] && IsSpace(s[|s| - 1]) && k < |s| - 1 {
      TrimRightDropsSpace(s[..|s| - 1], k);
    }
  }

  lemma {:induction false} TrimLeftBlank(pre: string, m: string)
    requires forall k :: 0 <= k < |pre| ==> IsSpace(pre[k])
    requires m != [] && !IsSpace(m[0])
    ensures TrimLeft(pre + m) == m
    decreases |pre|
  {
    var s := pre + m;
    if pre == [] {
      assert s == m;
    } else {
      assert s[0] == pre[0] && s[1..] == pre[1..] + m;
      TrimLeftBlank(pre[1..], m);
    }
  }

  lemma {:induction false} TrimRightBlank(m: string, post: string)
    requires forall k :: 0 <= k < |post| ==> IsSpace(post[k])
    requires m != [] && !IsSpace(m[|m| - 1])
    ensures TrimRight(m + post) == m
    decreases |post|
  {
    if post == [] {
      assert m + post == m;
    } else {
      assert (m + post)[..|m + post| - 1] == m + post[..|post| - 1];
      TrimRightBlank(m, post[..|post| - 1]);
    }
  }

  /** `s.strip()` */
  function Strip(s: string): string {
    TrimRight(TrimLeft(s))
  }

  /** Stripping removes exactly the whitespace around a text that neither starts nor ends with whitespace. */
  lemma StripPadded(pre: string, m: string, post: string)
    requires forall k :: 0 <= k < |pre| ==> IsSpace(pre[k])
    requires forall k :: 0 <= k < |post| ==> IsSpace(post[k])
    requires m != [] && !IsSpace(m[0]) && !IsSpace(m[|m| - 1])
    ensures Strip(pre + m + post) == m
  {
    assert pre + m + post == pre + (m + post);
    TrimLeftBlank(pre, m + post);
    TrimRightBlank(m, post);
  }

  /** A text that neither starts nor ends with whitespace is its own stripped form. */
  lemma StripClean(m: string)
    requires m != [] && !IsSpace(m[0]) && !IsSpace(m[|m| - 1])
    ensures Strip(m) == m
  {
    StripPadded("", m, "");
    assert "" + m + "" == m;
  }

  /** Stripping keeps the text from its first character on when that character is not blank. */
  lemma StripKeepsPrefix(s: string, n: nat)
    requires n <= |s|
    requires forall k :: 0 <= k < n ==> !IsSpace(s[k])
    ensures |Strip(s)| >= n && Strip(s)[..n] == s[..n]
  {
    if n > 0 {
      assert TrimLeft(s) == s;
      if |TrimRight(s)| < n {
        TrimRightDropsSpace(s, |TrimRight(s)|);
      }
    }
  }

  /** The longest prefix without whitespace. */
  function Word(s: string): (w: string)
    ensures |w| <= |s| && w == s[..|w|]
    ensures |w| < |s| ==> IsSpace(s[|w|])
    ensures s != [] && !IsSpace(s[0]) ==> |w| >= 1
    decreases |s|
  {
    if s == [] || IsSpace(s[0]) then "" else [s[0]] + Word(s[1..])
  }

  predicate NoSpace(s: string) {
    forall k :: 0 <= k < |s| ==> !IsSpace(s[k])
  }

  lemma {:induction false} WordNoSpace(s: string)
    ensures NoSpace(Word(s))
    decreases |s|
  {
    if s != [] && !IsSpace(s[0]) {
      WordNoSpace(s[1..]);
      var w := Word(s);
      assert w == [s[0]] + Word(s[1..]);
      assert forall k :: 1 <= k < |w| ==> w[k] == Word(s[1..])[k - 1];
    }
  }

  /** `s.split()`: the maximal runs of non-whitespace characters. */
  function SplitWs(s: string): seq<string>
    decreases |s|
  {
    var t := TrimLeft(s);
    if t == [] then []
    else
      var w := Word(t);
      [w] + SplitWs(t[|w|..])
  }

  /** Every field `str.split()` returns is a run of non-whitespace characters. */
  lemma {:induction false} SplitWsNoSpace(s: string)
    ensures forall k :: 0 <= k < |SplitWs(s)| ==> NoSpace(SplitWs(s)[k])
    decreases |s|
  {
    var t := TrimLeft(s);
    if t != [] {
      var w := Word(t);
      var rest := SplitWs(t[|w|..]);
      WordNoSpace(t);
      SplitWsNoSpace(t[|w|..]);
      var r := SplitWs(s);
      assert r == [w] + rest;
      forall k | 0 <= k < |r| ensures NoSpace(r[k]) {
        if k > 0 { assert r[k] == rest[k - 1]; }
      }
    }
  }

  /** Line breaks are whitespace, so a run of non-whitespace holds no line break. */
  lemma NoSpaceNoLineBreak(s: string)
    requires NoSpace(s)
    ensures NoLineBreak(s)
  {
  }

  lemma WordOfNoSpace(w: string, rest: string)
    requires NoSpace(w)
    requires rest == [] || IsSpace(rest[0])
    ensures Word(w + rest) == w
    decreases |w|
  {
    if w != [] {
      assert (w + rest)[1..] == w[1..] + rest;
      WordOfNoSpace(w[1..], rest);
    }
  }

  /** Splitting text that starts with a word followed by one whitespace character. */
  lemma SplitWsCons(w: string, c: char, rest: string)
    requires w != [] && NoSpace(w) && IsSpace(c)
    ensures SplitWs(w + [c] + rest) == [w] + SplitWs(rest)
  {
    var s := w + [c] + rest;
    assert TrimLeft(s) == s;
    assert s == w + ([c] + rest);
    WordOfNoSpace(w, [c] + rest);
    assert s[|w|..] == [c] + rest;
    assert TrimLeft([c] + rest) == TrimLeft(rest) by {
      assert ([c] + rest)[1..] == rest;
    }
  }

  /** Two words separated by a tab split into those two. */
  lemma SplitWsTwo(b: string, c: string)
    requires b != [] && NoSpace(b) && c != [] && NoSpace(c)
    ensures SplitWs(b + ['\t'] + c) == [b, c]
  {
    SplitWsCons(b, '\t', c);
    SplitWsWord(c);
  }

  /** Three tab-separated words split into those three. */
  lemma SplitWsThree(a: string, b: string, c: string)
    requires a != [] && NoSpace(a) && b != [] && NoSpace(b) && c != [] && NoSpace(c)
    ensures SplitWs(a + ['\t'] + (b + ['\t'] + c)) == [a, b, c]
  {
    SplitWsCons(a, '\t', b + ['\t'] + c);
    SplitWsTwo(b, c);
  }

  /** A single word splits to itself. */
  lemma SplitWsWord(w: string)
    requires w != [] && NoSpace(w)
    ensures SplitWs(w) == [w]
  {
    assert TrimLeft(w) == w;
    WordOfNoSpace(w, "");
    assert w + "" == w;
    assert Word(w) == w;
    assert w[|w|..] == [];
    assert SplitWs([]) == [];
  }

  // ---------------------------------------------------------------------------
  // `str.split(sep)` with a non-empty separator

  function Split(s: string, sep: string): (r: seq<string>)
    requires |sep| > 0
    ensures |r| >= 1
    decreases |s|, 2
  {
    if |s| < |sep| then [s] else SplitAtHead(s, sep)
  }

  /** `Split` of a text at least as long as the separator: cut at its head, or keep its first character. */
  function SplitAtHead(s: string, sep: string): (r: seq<string>)
    requires |sep| > 0 && |s| >= |sep|
    ensures |r| >= 1
    decreases |s|, 1
  {
    if s[..|sep|] == sep then [""] + Split(s[|sep|..], sep) else SplitKeepFirst(s, sep)
  }

  /** The first character of a text that does not start with the separator joins the first piece of the rest. */
  function SplitKeepFirst(s: string, sep: string): (r: seq<string>)
    requires |sep| > 0 && |s| >= 1
    ensures |r| >= 1
    decreases |s|, 0
  {
    var t := Split(s[1..], sep);
    [[s[0]] + t[0]] + t[1..]
  }

  /** A text that starts with the separator: an empty first piece, then the pieces of the rest. */
  lemma SplitCut(s: string, sep: string)
    requires |sep| > 0 && |s| >= |sep| && s[..|sep|] == sep
    ensures Split(s, sep) == [""] + Split(s[|sep|..], sep)
  {
    assert Split(s, sep) == SplitAtHead(s, sep);
  }

  /** A text that does not start with the separator: its first character joins the first piece of the rest. */
  lemma SplitKept(s: string, sep: string)
    requires |sep| > 0 && |s| >= |sep| && s[..|sep|] != sep
    ensures var t := Split(s[1..], sep);
      Split(s, sep) == [[s[0]] + t[0]] + t[1..]
  {
    assert Split(s, sep) == SplitAtHead(s, sep);
    assert SplitAtHead(s, sep) == SplitKeepFirst(s, sep);
  }

  /** A piece without "\n" followed by "\n" is the first piece of `split("\n")`. */
  lemma {:induction false} SplitNewlineCons(x: string, t: string)
    requires '\n' !in x
    ensures Split(x + "\n" + t, "\n") == [x] + Split(t, "\n")
    decreases |x|
  {
    var s := x + "\n" + t;
    if x == [] {
      assert s == "\n" + t;
      assert s[..1] == "\n";
      assert s[1..] == t;
      SplitCut(s, "\n");
    } else {
      assert s[..1] == [x[0]];
      assert s[1..] == x[1..] + "\n" + t;
      assert x[0] in x;
      assert forall c :: c in x[1..] ==> c in x;
      SplitKept(s, "\n");
      SplitNewlineCons(x[1..], t);
      assert [x[0]] + x[1..] == x;
    }
  }

  lemma {:induction false} SplitNewlineOfPiece(x: string)
    requires '\n' !in x
    ensures Split(x, "\n") == [x]
    decreases |x|
  {
    if x != [] {
      assert x[..1] == [x[0]];
      assert x[0] in x;
      assert forall c :: c in x[1..] ==> c in x;
      SplitKept(x, "\n");
      SplitNewlineOfPiece(x[1..]);
      assert [x[0]] + x[1..] == x;
    }
  }

  /** `split("\n")` undoes joining with "\n" when no part holds a "\n". */
  lemma {:induction false} SplitNewlineOfJoin(parts: seq<string>)
    requires |parts| >= 1
    requires forall k :: 0 <= k < |parts| ==> '\n' !in parts[k]
    ensures Split(Join(parts, "\n"), "\n") == parts
    decreases |parts|
  {
    if |parts| == 1 {
      SplitNewlineOfPiece(parts[0]);
    } else {
      SplitNewlineOfJoin(parts[1..]);
      SplitNewlineCons(parts[0], Join(parts[1..], "\n"));
      assert [parts[0]] + parts[1..] == parts;
    }
  }

  // ---------------------------------------------------------------------------
  // Digits and decimal rendering

  predicate IsDigit(c: char) {
    '0' <= c <= '9'
  }

  predicate AllDigits(s: string) {
    forall k :: 0 <= k < |s| ==> IsDigit(s[k])
  }

  /** `s.isdigit()` restricted to ASCII digits. */
  predicate IsDigits(s: string) {
    |s| >= 1 && AllDigits(s)
  }

  /** `int(s)` for a string of digits. */
  function DigitsValue(s: string): nat
    requires AllDigits(s)
    decreases |s|
  {
    if s == [] then 0
    else DigitsValue(s[..|s| - 1]) * 10 + (s[|s| - 1] as int - '0' as int)
  }

  function DigitChar(d: nat): char
    requires d < 10
  {
    ('0' as int + d) as char
  }

  /** `str(n)` for a natural number. */
  function NatToString(n: nat): string
    decreases n
  {
    if n < 10 then [DigitChar(n)] else NatToString(n / 10) + [DigitChar(n % 10)]
  }

  /** `str(i)` for an integer. */
  function IntToString(i: int): string {
    if i < 0 then "-" + NatToString(-i) else NatToString(i)
  }

  /** Every character of `s` is ASCII. */
  predicate IsAscii(s: string) {
    forall k :: 0 <= k < |s| ==> s[k] as int < 128
  }

  /** Digits with single underscores between them: the digit part `int()` reads in base 10. */
  predicate IsDigitGroups(s: string) {
    |s| >= 1 && IsDigit(s[0]) && forall k :: 0 <= k < |s| ==> GroupChar(s, k)
  }

  /** The character at `k` is a digit, or an underscore followed by a digit. */
  predicate GroupChar(s: string, k: nat)
    requires k < |s|
  {
    IsDigit(s[k]) || (s[k] == '_' && k + 1 < |s| && IsDigit(s[k + 1]))
  }

  /** `s` without its underscores. */
  function DropUnderscores(s: string): (r: string)
    ensures |r| <= |s|
    decreases |s|
  {
    if s == [] then [] else (if s[0] == '_' then "" else [s[0]]) + DropUnderscores(s[1..])
  }

  lemma {:induction false} DropUnderscoresDigits(s: string)
    requires forall k :: 0 <= k < |s| ==> IsDigit(s[k]) || s[k] == '_'
    ensures AllDigits(DropUnderscores(s))
    ensures |s| >= 1 && IsDigit(s[0]) ==> IsDigits(DropUnderscores(s))
    decreases |s|
  {
    if s != [] {
      DropUnderscoresDigits(s[1..]);
    }
  }

  lemma {:induction false} DropUnderscoresAppend(a: string, b: string)
    ensures DropUnderscores(a + b) == DropUnderscores(a) + DropUnderscores(b)
    decreases |a|
  {
    if a != [] {
      assert (a + b)[1..] == a[1..] + b;
      DropUnderscoresAppend(a[1..], b);
    } else {
      assert a + b == b;
    }
  }

  lemma {:induction false} DropUnderscoresOfDigits(s: string)
    requires AllDigits(s)
    ensures DropUnderscores(s) == s
    decreases |s|
  {
    if s != [] {
      DropUnderscoresOfDigits(s[1..]);
      assert [s[0]] + s[1..] == s;
    }
  }

  lemma DigitGroupsDigits(s: string)
    requires IsDigitGroups(s)
    ensures IsDigits(DropUnderscores(s))
  {
    forall k | 0 <= k < |s|
      ensures IsDigit(s[k]) || s[k] == '_'
    {
      assert GroupChar(s, k);
    }
    DropUnderscoresDigits(s);
  }

  lemma DigitsAreGroups(d: string)
    requires IsDigits(d)
    ensures IsDigitGroups(d) && DropUnderscores(d) == d && IsAscii(d)
  {
    DropUnderscoresOfDigits(d);
  }

  /** Two runs of digits joined by one underscore form digit groups that read as the digits joined. */
  lemma DigitGroupsOfJoin(a: string, b: string)
    requires IsDigits(a) && IsDigits(b)
    ensures var s := a + "_" + b;
      IsDigitGroups(s) && IsAscii(s) && IsDigit(s[|s| - 1])
  {
    var s := a + "_" + b;
    forall k | 0 <= k < |s|
      ensures s[k] as int < 128 && GroupChar(s, k)
    {
      if k < |a| {
        assert s[k] == a[k];
      } else if k == |a| {
        assert s[k] == '_' && s[k + 1] == b[0];
      } else {
        assert s[k] == b[k - |a| - 1];
      }
    }
    assert s[|s| - 1] == b[|b| - 1];
  }

  lemma DropUnderscoresOfJoin(a: string, b: string)
    requires AllDigits(a) && AllDigits(b)
    ensures DropUnderscores(a + "_" + b) == a + b
  {
    DropUnderscoresAppend(a + "_", b);
    DropUnderscoresAppend(a, "_");
    DropUnderscoresOfDigits(a);
    DropUnderscoresOfDigits(b);
    assert DropUnderscores("_") == "";
  }

  /** The sign `int()` and `float()` read in front of a number, and the text after it. */
  function SignSplit(t: string): (r: (bool, string))
    ensures r.1 == t || (|t| >= 1 && r.1 == t[1..])
  {
    if |t| >= 1 && (t[0] == '+' || t[0] == '-') then (t[0] == '-', t[1..]) else (false, t)
  }

  lemma SignSplitUnsigned(t: string)
    requires |t| >= 1 && IsDigit(t[0])
    ensures SignSplit(t) == (false, t)
  {
  }

  /** `10 ** n` */
  function Pow10(n: nat): (r: nat)
    ensures r >= 1
  {
    if n == 0 then 1 else 10 * Pow10(n - 1)
  }

  /** Rendering a number and reading it back gives the number. */
  lemma {:induction false} NatToStringRoundTrip(n: nat)
    ensures IsDigits(NatToString(n))
    ensures DigitsValue(NatToString(n)) == n
    decreases n
  {
    if n >= 10 {
      NatToStringRoundTrip(n / 10);
      var s := NatToString(n);
      assert s[..|s| - 1] == NatToString(n / 10);
    }
  }

  lemma NatToStringNoSpace(n: nat)
    ensures NoSpace(NatToString(n)) && NatToString(n) != []
  {
    NatToStringRoundTrip(n);
  }

  // ---------------------------------------------------------------------------
  // Case and padding

  /** `s.lower()` on ASCII letters; other characters are kept. */
  function Lower(s: string): (r: string)
    ensures |r| == |s|
  {
    seq(|s|, k requires 0 <= k < |s| =>
      if 'A' <= s[k] <= 'Z' then (s[k] as int + 32) as char else s[k])
  }

  /** `f"{s:>width}"`: right-aligned in a field of `width` characters. */
  function PadLeft(s: string, width: nat): (r: string)
    ensures |r| == if |s| < width then width else |s|
    ensures EndsWith(r, s)
  {
    seq(if |s| < width then width - |s| else 0, _ => ' ') + s
  }

  // ---------------------------------------------------------------------------
  // Searching

  /** `s.find(c)`: the first index of `c`, or -1. */
  function Find(s: string, c: char): (i: int)
    ensures -1 <= i < |s|
    ensures i >= 0 ==> s[i] == c && forall k :: 0 <= k < i ==> s[k] != c
    ensures i == -1 ==> c !in s
    decreases |s|
  {
    if s == [] then -1
    else if s[0] == c then 0
    else var j := Find(s[1..], c); if j == -1 then -1 else j + 1
  }

  /** The first `c` after a run of characters other than `c` is found right after the run. */
  lemma FindAfter(d: string, c: char, rest: string)
    requires c !in d && rest != [] && rest[0] == c
    ensures Find(d + rest, c) == |d|
  {
    var s := d + rest;
    assert s[|d|] == c;
    assert forall k :: 0 <= k < |d| ==> s[k] == d[k];
  }

  lemma FindAbsent(s: string, c: char)
    requires c !in s
    ensures Find(s, c) == -1
  {
  }

  /** `s.rfind(c)`: the last index of `c`, or -1. */
  function RFind(s: string, c: char): (i: int)
    ensures -1 <= i < |s|
    ensures i >= 0 ==> s[i] == c && forall k :: i < k < |s| ==> s[k] != c
    ensures i == -1 ==> c !in s
    decreases |s|
  {
    if s == [] then -1
    else if s[|s| - 1] == c then |s| - 1
    else RFind(s[..|s| - 1], c)
  }
}

/** Python's slicing of lists and strings, including negative indices. */
module Slices {

  function Clamp(i: int, n: nat): (r: nat)
    ensures r <= n
  {
    if i < 0 then (if i + n < 0 then 0 else i + n) else if i > n then n else i
  }

  /** `s[a:b]` */
  function PySlice<T>(s: seq<T>, a: int, b: int): (r: seq<T>)
    ensures |r| <= |s|
  {
    var lo := Clamp(a, |s|);
    var hi := Clamp(b, |s|);
    if lo >= hi then [] else s[lo..hi]
  }

  /** `s[:m]` for `m >= 0` keeps the first `min(m, len(s))` items. */
  lemma PySliceFront<T>(s: seq<T>, m: int)
    requires m >= 0
    ensures PySlice(s, 0, m) == s[..if m < |s| then m else |s|]
  {
  }

  function Take<T>(s: seq<T>, n: int): (r: seq<T>)
    ensures |r| <= |s|
  {
    PySlice(s, 0, n)
  }

  /** For a non-negative bound, `s[:n]` is the first `min(n, len(s))` elements. */
  lemma TakeNonNegative<T>(s: seq<T>, n: int)
    requires n >= 0
    ensures Take(s, n) == s[..if n < |s| then n else |s|]
  {
  }

  /** Dropping the last element commutes with dropping the first `k`. */
  lemma FrontOfSuffix<T>(s: seq<T>, k: nat)
    requires k < |s|
    ensures s[..|s| - 1][k..] == s[k..][..|s[k..]| - 1]
  {
  }

  /** A non-empty sequence is its front followed by its last element. */
  lemma FrontLast<T>(s: seq<T>)
    requires |s| >= 1
    ensures s[..|s| - 1] + [s[|s| - 1]] == s
  {
  }

  /** The tail of `[x] + s` is `s`. */
  lemma TailOfCons<T>(x: T, s: seq<T>)
    ensures ([x] + s)[1..] == s
  {
  }

  /** A non-empty sequence with one more element: its head, then its tail with the element. */
  lemma ConsSnoc<T>(s: seq<T>, x: T)
    requires |s| >= 1
    ensures s + [x] == [s[0]] + (s[1..] + [x])
  {
  }

  /** A non-empty sequence with one more element keeps its head, and its tail gets the element. */
  lemma SnocTail<T>(s: seq<T>, x: T)
    requires |s| >= 1
    ensures (s + [x])[0] == s[0] && (s + [x])[1..] == s[1..] + [x]
  {
  }

  /** A prefix one longer is the prefix and the next element. */
  lemma PrefixSnoc<T>(s: seq<T>, j: nat)
    requires j < |s|
    ensures s[..j + 1] == s[..j] + [s[j]]
  {
  }

  /** A property of `a`, `b` and every element of `body` holds of every element of `[a, b] + body`. */
  lemma AllOfConsTwo<T>(P: T -> bool, a: T, b: T, body: seq<T>)
    requires P(a) && P(b) && forall k :: 0 <= k < |body| ==> P(body[k])
    ensures forall k :: 0 <= k < |[a, b] + body| ==> P(([a, b] + body)[k])
  {
    var s := [a, b] + body;
    forall k | 0 <= k < |s| ensures P(s[k]) {
      if k >= 2 {
        assert s[k] == body[k - 2];
      }
    }
  }

  /** The three elements from `i` on, then the rest. */
  lemma TakeThree<T>(x: seq<T>, i: nat)
    requires i + 3 <= |x|
    ensures x[i..] == [x[i], x[i + 1], x[i + 2]] + x[i + 3..]
  {
    var r := [x[i], x[i + 1], x[i + 2]] + x[i + 3..];
    assert |r| == |x[i..]|;
    forall k | 0 <= k < |r| ensures r[k] == x[i..][k] {
      if k >= 3 {
        assert r[k] == x[i + 3..][k - 3];
      }
    }
  }

  /**
   * `p` is `t` with `x` put in front of its head; `lp` and `lt` are their last
   * elements: they are the same past a single element, and differ by `x` in it.
   */
  lemma LastOfCons<T>(x: T, t: seq<seq<T>>, p: seq<seq<T>>, lp: seq<T>, lt: seq<T>)
    requires |t| >= 1 && p == [[x] + t[0]] + t[1..] && lp == p[|p| - 1] && lt == t[|t| - 1]
    ensures |p| == |t| && (|t| > 1 ==> lp == lt) && (|t| == 1 ==> lp == [x] + lt)
  {
  }

  /** Putting an element in front keeps the last element. */
  lemma LastOfPrepend<T>(x: T, q: seq<T>, p: seq<T>)
    requires |q| >= 1 && p == [x] + q
    ensures |p| > 1 && p[|p| - 1] == q[|q| - 1]
  {
  }

  lemma AppendAssoc<T>(a: seq<T>, b: seq<T>, c: seq<T>)
    ensures (a + b) + c == a + (b + c)
  {
  }
}
