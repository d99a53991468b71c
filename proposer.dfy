/**
 * The diff proposer of proposer.py: the span summary and context text it puts
 * in the prompt, and the shaping of the language model's reply into
 * `DiffProposal` records. Loading the prompt template, filling it in and
 * calling the model are not modelled: the reply text and the JSON parser are
 * inputs.
 */
module Proposer {
  import opened Wrappers
  import opened Text
  import opened Slices
  import opened Json
  import opened Types
  import opened Config

  // ---------------------------------------------------------------------------
  // `_format_span_summary`

  /** The symbol part of a span's line: a blank and the symbol, when the symbol is a non-empty string. */
  function SymbolSuffix(symbol: Option<string>): (r: string)
    ensures r == "" <==> symbol.None? || symbol.value == ""
  {
    if symbol.Some? && symbol.value != "" then " " + symbol.value else ""
  }

  /** "- file:start-end (node_type[ symbol])" */
  function SpanLine(span: AstSpan): string {
    "- " + span.file + ":" + IntToString(span.startLine) + "-" + IntToString(span.endLine)
      + " (" + span.nodeType + SymbolSuffix(span.symbol) + ")"
  }

  function SpanLines(spans: seq<AstSpan>): (r: seq<string>)
    ensures |r| == |spans|
    ensures forall k :: 0 <= k < |spans| ==> r[k] == SpanLine(spans[k])
    decreases |spans|
  {
    if spans == [] then [] else [SpanLine(spans[0])] + SpanLines(spans[1..])
  }

  const NoSpans: string := "- (no target spans provided)"

  /** `_format_span_summary`: one line per target span, or a placeholder line when there are none. */
  function FormatSpanSummary(step: PlanStep): string {
    if step.targetSpans == [] then NoSpans else Join(SpanLines(step.targetSpans), "\n")
  }

  /** A span whose file, node type and symbol hold no line break. */
  predicate PlainSpan(span: AstSpan) {
    NoLineBreak(span.file) && NoLineBreak(span.nodeType)
    && (span.symbol.Some? ==> NoLineBreak(span.symbol.value))
  }

  lemma IntToStringNoLineBreak(i: int)
    ensures NoLineBreak(IntToString(i))
  {
    var s := IntToString(i);
    if i >= 0 {
      NatToStringNoSpace(i);
    } else {
      NatToStringNoSpace(-i);
      assert s == "-" + NatToString(-i);
      forall k | 0 <= k < |s| ensures !IsLineBreak(s[k]) {
        if k > 0 { assert s[k] == NatToString(-i)[k - 1]; }
      }
    }
  }

  lemma NoLineBreakAppend(a: string, b: string)
    requires NoLineBreak(a) && NoLineBreak(b)
    ensures NoLineBreak(a + b)
  {
    forall k | 0 <= k < |a + b| ensures !IsLineBreak((a + b)[k]) {
      if k >= |a| { assert (a + b)[k] == b[k - |a|]; }
    }
  }

  lemma SpanLineNoLineBreak(span: AstSpan)
    requires PlainSpan(span)
    ensures NoLineBreak(SpanLine(span)) && SpanLine(span) != ""
  {
    IntToStringNoLineBreak(span.startLine);
    IntToStringNoLineBreak(span.endLine);
    var sfx := SymbolSuffix(span.symbol);
    if sfx != "" {
      assert NoLineBreak(" ");
      NoLineBreakAppend(" ", span.symbol.value);
    }
    assert NoLineBreak("- ") && NoLineBreak(":") && NoLineBreak("-") && NoLineBreak(" (") && NoLineBreak(")");
    var a := "- " + span.file;
    NoLineBreakAppend("- ", span.file);
    var b := a + ":";
    NoLineBreakAppend(a, ":");
    var c := b + IntToString(span.startLine);
    NoLineBreakAppend(b, IntToString(span.startLine));
    var d := c + "-";
    NoLineBreakAppend(c, "-");
    var e := d + IntToString(span.endLine);
    NoLineBreakAppend(d, IntToString(span.endLine));
    var f := e + " (";
    NoLineBreakAppend(e, " (");
    var g := f + span.nodeType;
    NoLineBreakAppend(f, span.nodeType);
    var h := g + sfx;
    NoLineBreakAppend(g, sfx);
    NoLineBreakAppend(h, ")");
    assert SpanLine(span) == h + ")";
  }

  /**
   * The summary has one line per span, in order, each rendering its span; with
   * no spans it is the single placeholder line.
   */
  lemma SpanSummaryLines(step: PlanStep)
    requires forall k :: 0 <= k < |step.targetSpans| ==> PlainSpan(step.targetSpans[k])
    ensures step.targetSpans == [] ==> Lines(FormatSpanSummary(step)) == [NoSpans]
    ensures step.targetSpans != [] ==> Lines(FormatSpanSummary(step)) == SpanLines(step.targetSpans)
  {
    if step.targetSpans == [] {
      assert NoLineBreak(NoSpans);
      LinesOfJoin([NoSpans]);
    } else {
      var ls := SpanLines(step.targetSpans);
      forall k | 0 <= k < |ls| ensures NoLineBreak(ls[k]) && ls[k] != "" {
        SpanLineNoLineBreak(step.targetSpans[k]);
      }
      LinesOfJoin(ls);
    }
  }

  /** The symbol shows up exactly when it is a non-empty string: otherwise the line ends with "(node_type)". */
  lemma SpanLineSymbol(span: AstSpan)
    ensures (span.symbol.None? || span.symbol.value == "") ==> EndsWith(SpanLine(span), " (" + span.nodeType + ")")
    ensures span.symbol.Some? && span.symbol.value != "" ==>
      EndsWith(SpanLine(span), " (" + span.nodeType + " " + span.symbol.value + ")")
  {
    var head := "- " + span.file + ":" + IntToString(span.startLine) + "-" + IntToString(span.endLine);
    var tail := " (" + span.nodeType + SymbolSuffix(span.symbol) + ")";
    assert SpanLine(span) == head + tail;
    assert SpanLine(span)[|SpanLine(span)| - |tail|..] == tail;
  }

  // ---------------------------------------------------------------------------
  // The context text

  /** One context block: "FILE: <file>", a newline, then the file's context text. */
  function ContextBlock(file: (string, string)): string {
    "FILE: " + file.0 + "\n" + file.1
  }

  function ContextBlocks(ctxFiles: seq<(string, string)>): (r: seq<string>)
    ensures |r| == |ctxFiles|
    ensures forall k :: 0 <= k < |ctxFiles| ==> r[k] == ContextBlock(ctxFiles[k])
    decreases |ctxFiles|
  {
    if ctxFiles == [] then [] else [ContextBlock(ctxFiles[0])] + ContextBlocks(ctxFiles[1..])
  }

  const NoContext: string := "(no context available)"

  /** `"\n\n".join(...) or "(no context available)"` over the context files in order. */
  function ContextText(ctxFiles: seq<(string, string)>): string {
    var joined := Join(ContextBlocks(ctxFiles), "\n\n");
    if joined == "" then NoContext else joined
  }

  /** The placeholder appears exactly when there is no context file; otherwise the text starts with the first block. */
  lemma ContextTextPlaceholder(ctxFiles: seq<(string, string)>)
    ensures ctxFiles == [] <==> ContextText(ctxFiles) == NoContext
    ensures ctxFiles != [] ==> StartsWith(ContextText(ctxFiles), ContextBlock(ctxFiles[0]))
  {
    var blocks := ContextBlocks(ctxFiles);
    if ctxFiles != [] {
      var b := ContextBlock(ctxFiles[0]);
      var joined := Join(blocks, "\n\n");
      if |blocks| > 1 {
        assert joined == b + ("\n\n" + Join(blocks[1..], "\n\n"));
      } else {
        assert joined == b;
      }
      assert joined[..|b|] == b;
      assert joined[0] == 'F' && NoContext[0] == '(';
    }
  }

  // ---------------------------------------------------------------------------
  // Shaping the reply

  const NotJson: Error := ValueError("Proposer returned non-JSON output")
  const NotAList: Error := ValueError("Proposer output must be a JSON list of proposals.")
  const NotAnObject: Error := ValueError("Each proposal must be a JSON object with diff fields.")
  const NoDiff: Error := ValueError("Proposal missing 'unified_diff' string field.")

  /** An item of the reply that becomes a proposal: an object with a string "unified_diff" and a printable step id. */
  predicate WellFormed(item: Json, step: PlanStep) {
    item.JObj? && var d := Get(item.fields, "unified_diff");
    d.Some? && d.value.JStr? && Str(GetOr(item.fields, "step_id", JStr(step.id)), "step_id").Ok?
  }

  /** The proposal a well-formed item becomes. */
  function ToProposal(item: Json, step: PlanStep): DiffProposal
    requires WellFormed(item, step)
  {
    DiffProposal(
      Str(GetOr(item.fields, "step_id", JStr(step.id)), "step_id").value,
      Get(item.fields, "unified_diff").value.s,
      GetOr(item.fields, "rationale", JNull))
  }

  /** The checks of the loop of `propose`, for one item. */
  function ShapeItem(item: Json, step: PlanStep): (r: Result<DiffProposal, Error>)
    ensures r.Ok? <==> WellFormed(item, step)
    ensures r.Ok? ==> r.value == ToProposal(item, step)
  {
    if !item.JObj? then Err(NotAnObject)
    else
      var d := Get(item.fields, "unified_diff");
      if d.None? || !d.value.JStr? then Err(NoDiff)
      else
        var stepId :- Str(GetOr(item.fields, "step_id", JStr(step.id)), "step_id");
        Ok(DiffProposal(stepId, d.value.s, GetOr(item.fields, "rationale", JNull)))
  }

  /** The loop of `propose`: every item shaped, in order, or the first item's error. */
  function ShapeItems(items: seq<Json>, step: PlanStep): (r: Result<seq<DiffProposal>, Error>)
    ensures r.Ok? <==> forall k :: 0 <= k < |items| ==> WellFormed(items[k], step)
    ensures r.Ok? ==> |r.value| == |items| && forall k :: 0 <= k < |items| ==> r.value[k] == ToProposal(items[k], step)
    decreases |items|
  {
    if items == [] then Ok([])
    else
      var p :- ShapeItem(items[0], step);
      var rest :- ShapeItems(items[1..], step);
      assert forall k :: 1 <= k < |items| ==> items[k] == items[1..][k - 1];
      Ok([p] + rest)
  }

  /**
   * `propose` after the model replied `reply`: the reply must decode to a
   * list, whose first `diffs_per_step` items each become a proposal.
   */
  function Propose(step: PlanStep, cfg: Config, reply: string, parse: Parser): (r: Result<seq<DiffProposal>, Error>)
  {
    var items := Loads(parse, reply, JArr([]));
    if items.Err? then Err(NotJson)
    else if !items.value.JArr? then Err(NotAList)
    else ShapeItems(Take(items.value.items, cfg.search.diffsPerStep), step)
  }

  /** A reply that decodes to anything but a list is a ValueError. */
  lemma ProposeRejectsNonList(step: PlanStep, cfg: Config, reply: string, parse: Parser)
    requires reply != "" && parse(reply).Some? && !parse(reply).value.JArr?
    ensures Propose(step, cfg, reply, parse) == Err(NotAList)
  {
  }

  /**
   * A list reply yields at most `diffs_per_step` proposals, the first items in
   * reply order, each carrying its item's diff, its step id (the step's own
   * when absent) and its rationale; it is accepted exactly when every item
   * kept is well formed.
   */
  lemma ProposeShapes(step: PlanStep, cfg: Config, reply: string, parse: Parser, items: seq<Json>)
    requires Loads(parse, reply, JArr([])) == Ok(JArr(items))
    ensures var kept := Take(items, cfg.search.diffsPerStep);
      var r := Propose(step, cfg, reply, parse);
      (r.Ok? <==> forall k :: 0 <= k < |kept| ==> WellFormed(kept[k], step))
      && (r.Ok? ==>
            |r.value| == |kept| <= (if cfg.search.diffsPerStep >= 0 then cfg.search.diffsPerStep else |items|)
            && forall k :: 0 <= k < |r.value| ==>
                 kept[k] == items[k]
                 && r.value[k].unifiedDiff == Get(items[k].fields, "unified_diff").value.s
                 && r.value[k].rationale == GetOr(items[k].fields, "rationale", JNull)
                 && (Get(items[k].fields, "step_id").None? ==> r.value[k].stepId == step.id))
  {
    var kept := Take(items, cfg.search.diffsPerStep);
    var lo := 0;
    var hi := Clamp(cfg.search.diffsPerStep, |items|);
    if lo < hi {
      assert kept == items[..hi];
    } else {
      assert kept == [];
    }
  }

  /** An empty reply decodes as the empty list: no proposals. */
  lemma ProposeEmptyReply(step: PlanStep, cfg: Config, parse: Parser)
    ensures Propose(step, cfg, "", parse) == Ok([])
  {
    var none: seq<Json> := [];
    assert Take(none, cfg.search.diffsPerStep) == [];
  }
}
