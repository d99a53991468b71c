/**
 * The queries of the AST index of ast_index.py: symbol and call-site lookups
 * and slicing a span out of a cached file. Building the index (walking the
 * repository and parsing it with Python's `ast`) is not part of this model: the
 * index is given, with each file cached as its lines with their endings.
 */
module AstIndex {
  import opened Wrappers
  import opened Text
  import opened Slices
  import opened Json
  import opened Types

  /** The index: definitions and call sites by name, and each file's `splitlines(keepends=True)`. */
  datatype Index = Index(
    symbols: map<string, seq<AstSpan>>,
    calls: map<string, seq<AstSpan>>,
    fileCache: map<string, seq<string>>)

  /** `lookup_symbol`: the spans recorded for a name, none for an unknown name. */
  function LookupSymbol(idx: Index, symbol: string): (r: seq<AstSpan>)
    ensures symbol in idx.symbols ==> r == idx.symbols[symbol]
    ensures symbol !in idx.symbols ==> r == []
  {
    if symbol in idx.symbols then idx.symbols[symbol] else []
  }

  /** `lookup_calls`: the call sites recorded for a name, none for an unknown name. */
  function LookupCalls(idx: Index, name: string): (r: seq<AstSpan>)
    ensures name in idx.calls ==> r == idx.calls[name]
    ensures name !in idx.calls ==> r == []
  {
    if name in idx.calls then idx.calls[name] else []
  }

  /** The window `slice` and `_load_context` cut: the start is clamped at 0, the end at the line count. */
  function WindowStart(startLine: int, padding: int): (start: nat)
    ensures start >= startLine - 1 - padding
    ensures start == startLine - 1 - padding || start == 0
  {
    if startLine - 1 - padding > 0 then startLine - 1 - padding else 0
  }

  function WindowEnd(endLine: int, padding: int, n: nat): (end: int)
    ensures end <= n && end <= endLine + padding
    ensures end == n || end == endLine + padding
  {
    if endLine + padding < n then endLine + padding else n
  }

  /** `slice`: the cached lines of the padded window, concatenated; a file not in the cache is a KeyError. */
  function Slice(idx: Index, file: string, startLine: int, endLine: int, padding: int): (r: Result<string, Error>)
    ensures r.Err? <==> file !in idx.fileCache
    ensures r.Err? ==> r.error == KeyError(file)
  {
    if file !in idx.fileCache then Err(KeyError(file))
    else
      var lines := idx.fileCache[file];
      Ok(Concat(PySlice(lines, WindowStart(startLine, padding), WindowEnd(endLine, padding, |lines|))))
  }

  /** Inside the file, the slice is exactly the window's lines. */
  lemma SliceWindow(idx: Index, file: string, startLine: int, endLine: int, padding: int)
    requires file in idx.fileCache
    requires var n := |idx.fileCache[file]|;
      0 <= WindowStart(startLine, padding) <= WindowEnd(endLine, padding, n)
    ensures var lines := idx.fileCache[file];
      Slice(idx, file, startLine, endLine, padding)
        == Ok(Concat(lines[WindowStart(startLine, padding)..WindowEnd(endLine, padding, |lines|)]))
  {
    var lines := idx.fileCache[file];
    var lo := WindowStart(startLine, padding);
    var hi := WindowEnd(endLine, padding, |lines|);
    if lo == hi {
      assert lines[lo..hi] == [];
    }
  }

  /** A window whose end does not pass its start (and is not negative) slices nothing. */
  lemma SliceEmptyWindow(idx: Index, file: string, startLine: int, endLine: int, padding: int)
    requires file in idx.fileCache
    requires 0 <= WindowEnd(endLine, padding, |idx.fileCache[file]|) <= WindowStart(startLine, padding)
    ensures Slice(idx, file, startLine, endLine, padding) == Ok("")
  {
  }

  /**
   * A window end below zero is not clamped: Python counts it from the end of
   * the file, so the slice runs from the window's start to that many lines
   * before the end, and is empty when that point is not past the start.
   */
  lemma SliceNegativeEnd(idx: Index, file: string, startLine: int, endLine: int, padding: int)
    requires file in idx.fileCache
    requires WindowEnd(endLine, padding, |idx.fileCache[file]|) < 0
    ensures var lines := idx.fileCache[file];
      var start := WindowStart(startLine, padding);
      var stop := |lines| + WindowEnd(endLine, padding, |lines|);
      Slice(idx, file, startLine, endLine, padding)
        == if start < stop then Ok(Concat(lines[start..stop])) else Ok("")
  {
    var lines := idx.fileCache[file];
    var start := WindowStart(startLine, padding);
    var end := WindowEnd(endLine, padding, |lines|);
    var stop := |lines| + end;
    assert Slice(idx, file, startLine, endLine, padding) == Ok(Concat(PySlice(lines, start, end)));
    if stop < 0 {
      assert Clamp(end, |lines|) == 0;
    } else {
      assert Clamp(end, |lines|) == stop;
      if start <= stop {
        assert Clamp(start, |lines|) == start;
      }
    }
  }

  /** A window ending before line 1 still returns lines: in a two-line file it is the first line. */
  lemma SliceBeforeFirstLine()
    ensures var idx := Index(map[], map[], map["m.py" := ["a\n", "b\n"]]);
      Slice(idx, "m.py", 1, -1, 0) == Ok("a\n")
  {
    var lines := ["a\n", "b\n"];
    var idx := Index(map[], map[], map["m.py" := lines]);
    SliceNegativeEnd(idx, "m.py", 1, -1, 0);
    assert lines[0..1] == ["a\n"];
    assert Concat(["a\n"]) == "a\n" + Concat([]) == "a\n";
  }

  /** The cached lines keep their endings, so a window covering the whole file gives back its text. */
  lemma SliceWholeFile(idx: Index, file: string, text: string, startLine: int, endLine: int, padding: int)
    requires file in idx.fileCache && idx.fileCache[file] == KeepEnds(text)
    requires startLine - 1 - padding <= 0 && endLine + padding >= |KeepEnds(text)|
    ensures Slice(idx, file, startLine, endLine, padding) == Ok(text)
  {
    var lines := KeepEnds(text);
    ConcatKeepEnds(text);
    if lines == [] {
      assert PySlice(lines, 0, 0) == [];
    } else {
      assert PySlice(lines, 0, |lines|) == lines[0..|lines|] == lines;
    }
  }

  // ---------------------------------------------------------------------------
  // `_CallVisitor._call_name`

  /** The callee expressions a call site can have, as far as the index distinguishes them. */
  datatype Callee =
    | Name(id: string)                       // `f(...)`
    | Attribute(value: Callee, attr: string) // `obj.f(...)`
    | OtherCallee                            // a subscript, a call, a lambda, ...

  /** `_call_name`: a name's identifier, an attribute's name, otherwise nothing. */
  function CallName(callee: Callee): (r: Option<string>)
    ensures r.Some? <==> callee.Name? || callee.Attribute?
    ensures callee.Name? ==> r == Some(callee.id)
    ensures callee.Attribute? ==> r == Some(callee.attr)
  {
    match callee
    case Name(id) => Some(id)
    case Attribute(_, attr) => Some(attr)
    case OtherCallee => None
  }
}
