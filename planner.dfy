/**
 * The planner of planner.py: turning the language model's replies into an
 * `Understanding`, a list of `PlanStep`s and a list of `Landmark`s, and
 * translating landmarks into plan steps. Loading the prompt templates and
 * calling the model are not modelled: each reply text and the JSON parser are
 * inputs.
 */
module Planner {
  import opened Wrappers
  import opened Text
  import opened Slices
  import opened Json
  import opened Types

  // ---------------------------------------------------------------------------
  // `synthesize`

  /** The three values `synthesize` reads out of the reply once it is coerced to a dict. */
  datatype Raw = Raw(summary: Json, invariants: Json, dependencies: Json)

  predicate AllStrings(items: seq<Json>) {
    forall k :: 0 <= k < |items| ==> items[k].JStr?
  }

  /** The stripped items of a list of strings, blank ones dropped. */
  function NonBlank(items: seq<Json>): (r: seq<string>)
    requires AllStrings(items)
    ensures forall k :: 0 <= k < |r| ==> r[k] != ""
    decreases |items|
  {
    if items == [] then [] else Kept(items[0]) + NonBlank(items[1..])
  }

  /** `x.strip()` if it is not blank. */
  function Kept(x: Json): (r: seq<string>)
    requires x.JStr?
    ensures |r| <= 1 && forall k :: 0 <= k < |r| ==> r[k] != ""
  {
    if Strip(x.s) != "" then [Strip(x.s)] else []
  }

  /** `"; ".join(x.strip() for x in items if x.strip())` */
  function Joined(items: seq<Json>): string
    requires AllStrings(items)
  {
    Join(NonBlank(items), "; ")
  }

  /** `d.get("summary", "")`, `d.get("invariants", [])`, `d.get("dependencies", [])` */
  function RawOf(fields: seq<Field>): Raw {
    Raw(GetOr(fields, "summary", JStr("")), GetOr(fields, "invariants", JArr([])),
        GetOr(fields, "dependencies", JArr([])))
  }

  /**
   * The coercion of the decoded reply to a dict: a dict is kept; a list of
   * strings becomes their "; "-joined summary; any other list is read through
   * its first element; any other value has no `get`.
   */
  function Coerce(data: Json): (r: Result<Raw, Error>)
    ensures r.Err? ==> r.error == ShapeError || r.error.Unrepresented?
  {
    match data
    case JObj(fields) => Ok(RawOf(fields))
    case JArr(items) =>
      if AllStrings(items) then Ok(Raw(JStr(Joined(items)), JArr([]), JArr([])))
      else FirstItem(items[0])
    case _ => Err(ShapeError)
  }

  /** A list not made of strings is read through its first element: a dict's fields, or `str(first)`. */
  function FirstItem(first: Json): (r: Result<Raw, Error>)
    ensures r.Err? ==> r.error == ShapeError || r.error.Unrepresented?
  {
    match first
    case JObj(fields) => Ok(RawOf(fields))
    case _ =>
      match Str(first, "summary")
      case Ok(summary) => Ok(Raw(JStr(summary), JArr([]), JArr([])))
      case Err(e) => Err(e)
  }

  /** `Understanding(summary=str(...), invariants=list(...), dependencies=list(...))` */
  function Finish(raw: Raw): (r: Result<Understanding, Error>)
    ensures r.Err? ==> r.error == ShapeError || r.error.Unrepresented?
  {
    var summary :- Str(raw.summary, "summary");
    var invariants :- StrList(raw.invariants, "invariants");
    var dependencies :- StrList(raw.dependencies, "dependencies");
    Ok(Understanding(summary, invariants, dependencies))
  }

  function Understand(data: Json): (r: Result<Understanding, Error>)
    ensures r.Err? ==> r.error == ShapeError || r.error.Unrepresented?
  {
    var raw :- Coerce(data);
    Finish(raw)
  }

  /**
   * `synthesize`: an empty reply reads as `{}`; a reply that is not JSON becomes
   * the summary, stripped; a decoded reply is coerced and read. Only the
   * shape of a decoded reply can make it fail.
   */
  function Synthesize(response: string, parse: Parser): (r: Result<Understanding, Error>)
    ensures r.Err? ==> r.error == ShapeError || r.error.Unrepresented?
  {
    if response == "" then Understand(JObj([]))
    else match parse(response)
      case Some(data) => Understand(data)
      case None => Finish(Raw(JStr(Strip(response)), JArr([]), JArr([])))
  }

  /** An empty reply reads as `{}`: an empty summary and no invariants or dependencies. */
  lemma SynthesizeEmptyReply(parse: Parser)
    ensures Synthesize("", parse) == Ok(Understanding("", [], []))
  {
    assert Coerce(JObj([])) == Ok(Raw(JStr(""), JArr([]), JArr([])));
    FinishPlain("");
  }

  /** A reply that is not JSON is kept, stripped, as the summary. */
  lemma SynthesizeNotJson(response: string, parse: Parser)
    requires response != "" && parse(response).None?
    ensures Synthesize(response, parse) == Ok(Understanding(Strip(response), [], []))
  {
    FinishPlain(Strip(response));
  }

  /** A decoded value that is neither a dict nor a list has no `get`: synthesize fails on it. */
  lemma SynthesizeRejectsScalars(response: string, parse: Parser)
    requires response != "" && parse(response).Some?
    requires !parse(response).value.JObj? && !parse(response).value.JArr?
    ensures Synthesize(response, parse) == Err(ShapeError)
  {
  }

  /** A list whose first element is a dict is read as that dict, whatever follows. */
  lemma UnderstandFirstObject(fields: seq<Field>, rest: seq<Json>)
    ensures Understand(JArr([JObj(fields)] + rest)) == Understand(JObj(fields))
  {
    var items := [JObj(fields)] + rest;
    assert !items[0].JStr?;
  }

  /**
   * A list that is not all strings and whose first item is not a dict gives
   * `str(first)` as the summary and empty lists; a first item whose `str` the
   * model does not spell out (a float or a list) is reported as such.
   */
  lemma SynthesizeFirstNotObject(response: string, parse: Parser)
    requires response != "" && parse(response).Some? && parse(response).value.JArr?
    requires var items := parse(response).value.items;
      items != [] && !AllStrings(items) && !items[0].JObj?
    ensures var first := parse(response).value.items[0];
      Str(first, "summary").Ok? ==> Synthesize(response, parse) == Ok(Understanding(Str(first, "summary").value, [], []))
    ensures var first := parse(response).value.items[0];
      Str(first, "summary").Err? ==> Synthesize(response, parse) == Err(Unrepresented("summary"))
  {
    var first := parse(response).value.items[0];
    if Str(first, "summary").Ok? {
      FinishPlain(Str(first, "summary").value);
    }
  }

  /** A dict with a string summary and neither list gives that summary and empty lists. */
  lemma UnderstandSummaryOnly(fields: seq<Field>, summary: string)
    requires Get(fields, "summary") == Some(JStr(summary))
    requires Get(fields, "invariants").None? && Get(fields, "dependencies").None?
    ensures Understand(JObj(fields)) == Ok(Understanding(summary, [], []))
  {
  }

  lemma FinishPlain(summary: string)
    ensures Finish(Raw(JStr(summary), JArr([]), JArr([]))) == Ok(Understanding(summary, [], []))
  {
    assert StrList(JArr([]), "invariants") == Ok([]);
    assert StrList(JArr([]), "dependencies") == Ok([]);
  }

  lemma NonBlankOne(s: string)
    ensures AllStrings([JStr(s)])
    ensures NonBlank([JStr(s)]) == Kept(JStr(s))
  {
    var items := [JStr(s)];
    assert items[1..] == [];
  }

  /** A list holding one string gives that string, stripped, as the summary. */
  lemma UnderstandOneString(s: string)
    ensures Understand(JArr([JStr(s)])) == Ok(Understanding(Strip(s), [], []))
  {
    NonBlankOne(s);
    assert Joined([JStr(s)]) == Strip(s);
    assert Coerce(JArr([JStr(s)])) == Ok(Raw(JStr(Strip(s)), JArr([]), JArr([])));
    FinishPlain(Strip(s));
  }

  lemma AllStringsSnoc(items: seq<Json>, x: Json)
    requires AllStrings(items) && x.JStr?
    ensures AllStrings(items + [x])
  {
    var all := items + [x];
    forall k | 0 <= k < |all| ensures all[k].JStr? {
      if k < |items| { assert all[k] == items[k]; }
    }
  }

  lemma AllStringsTail(items: seq<Json>)
    requires AllStrings(items) && items != []
    ensures AllStrings(items[1..])
  {
    forall k | 0 <= k < |items[1..]| ensures items[1..][k].JStr? {
      assert items[1..][k] == items[k + 1];
    }
  }

  lemma {:induction false} NonBlankSnoc(items: seq<Json>, x: Json)
    requires AllStrings(items) && x.JStr?
    ensures AllStrings(items + [x])
    ensures NonBlank(items + [x]) == NonBlank(items) + Kept(x)
    decreases |items|
  {
    AllStringsSnoc(items, x);
    var all := items + [x];
    if items == [] {
      assert all == [x];
      NonBlankOne(x.s);
    } else {
      var tail := items[1..];
      SnocTail(items, x);
      AllStringsTail(items);
      NonBlankSnoc(tail, x);
      AppendAssoc(Kept(items[0]), NonBlank(tail), Kept(x));
    }
  }

  lemma CoerceStrings(items: seq<Json>)
    requires AllStrings(items)
    ensures Coerce(JArr(items)) == Ok(Raw(JStr(Joined(items)), JArr([]), JArr([])))
  {
  }

  /** Blank strings added after a list of strings change nothing. */
  lemma UnderstandBlankString(items: seq<Json>, s: string)
    requires AllStrings(items) && Strip(s) == ""
    ensures Understand(JArr(items + [JStr(s)])) == Understand(JArr(items))
  {
    AllStringsSnoc(items, JStr(s));
    CoerceStrings(items + [JStr(s)]);
    CoerceStrings(items);
    NonBlankSnoc(items, JStr(s));
    assert Kept(JStr(s)) == [];
    assert NonBlank(items + [JStr(s)]) == NonBlank(items) + [] == NonBlank(items);
  }

  // ---------------------------------------------------------------------------
  // `plan`

  /** One of `plan`'s target spans: it must be a dict, read as `Types.SpanFromFields` reads it. */
  function PlanSpan(j: Json): Result<AstSpan, Error> {
    if !j.JObj? then Err(ShapeError) else SpanFromFields(j.fields)
  }

  function DefaultStepId(k: nat): string {
    "step-" + NatToString(k + 1)
  }

  /** The `k`-th plan step, built from one item of the reply (`len(steps)` is `k` at that point). */
  function PlanStepOf(k: nat, raw: Json): Result<PlanStep, Error> {
    if !raw.JObj? then Err(ShapeError)
    else
      var f := raw.fields;
      var spanItems :- Iterate(GetOr(f, "target_spans", JArr([])));
      var spans :- MapResult(spanItems, (_, j) => PlanSpan(j), 0);
      var id :- AsString(GetOr(f, "id", JStr(DefaultStepId(k))), "id");
      var intent :- AsString(GetOr(f, "intent", JStr("")), "intent");
      var constraints :- StrList(GetOr(f, "constraints", JArr([])), "constraints");
      var idealOutcome :- AsString(GetOr(f, "ideal_outcome", JStr("")), "ideal_outcome");
      var check :- AsString(GetOr(f, "check", JStr("tests")), "check");
      Ok(PlanStep(id, intent, spans, constraints, idealOutcome, check))
  }

  /**
   * `plan`: the reply is decoded with no fallback (an empty reply is `[]`),
   * and every item it iterates to becomes one step, in order.
   */
  function Plan(response: string, parse: Parser): (r: Result<seq<PlanStep>, Error>)
    ensures response == "" ==> r == Ok([])
    ensures response != "" && parse(response).None? ==> r == Err(DecodeError)
    ensures response != "" && parse(response).Some? && parse(response).value.JArr? ==>
      var raws := parse(response).value.items;
      (r.Ok? <==> forall k :: 0 <= k < |raws| ==> PlanStepOf(k, raws[k]).Ok?)
      && (r.Ok? ==> |r.value| == |raws|)
  {
    var data :- Loads(parse, response, JArr([]));
    var raws :- Iterate(data);
    MapResult(raws, PlanStepOf, 0)
  }

  /** A step without an "id" is numbered by its position, from 1. */
  lemma PlanDefaultIds(response: string, parse: Parser, k: nat)
    requires response != "" && parse(response).Some? && parse(response).value.JArr?
    requires Plan(response, parse).Ok?
    requires k < |parse(response).value.items|
    requires var raw := parse(response).value.items[k]; raw.JObj? && Get(raw.fields, "id").None?
    ensures Plan(response, parse).value[k].id == DefaultStepId(k)
  {
    var raws := parse(response).value.items;
    assert PlanStepOf(0 + k, raws[k]).Ok?;
  }

  /** Default step ids are pairwise distinct. */
  lemma DefaultStepIdsDistinct(i: nat, j: nat)
    requires i != j
    ensures DefaultStepId(i) != DefaultStepId(j)
  {
    NatToStringRoundTrip(i + 1);
    NatToStringRoundTrip(j + 1);
    assert DefaultStepId(i)[5..] == NatToString(i + 1);
    assert DefaultStepId(j)[5..] == NatToString(j + 1);
  }

  // ---------------------------------------------------------------------------
  // `plan_landmarks`

  /**
   * The decoded reply: an empty reply is `[]`; a reply that is not JSON is
   * searched for its first "[" and last "]", and the text between them,
   * brackets included, is decoded without a fallback; with no such pair the
   * reply gives no landmarks.
   */
  function LandmarkItems(response: string, parse: Parser): (r: Result<Json, Error>)
    ensures response != "" && parse(response).Some? ==> r == Ok(parse(response).value)
  {
    if response == "" then Ok(JArr([]))
    else match parse(response)
      case Some(j) => Ok(j)
      case None =>
        var start := Find(response, '[');
        var end := RFind(response, ']');
        if start != -1 && end != -1 && end > start then
          match parse(response[start..end + 1])
          case Some(j) => Ok(j)
          case None => Err(DecodeError)
        else Ok(JArr([]))
  }

  /** `items[:max_landmarks]`, iterated: a list's first items, a string's first characters. */
  function Head(items: Json, maxLandmarks: int): (r: Result<seq<Json>, Error>)
    ensures r.Ok? && maxLandmarks >= 0 ==> |r.value| <= maxLandmarks
  {
    match items
    case JArr(xs) => Ok(PySlice(xs, 0, maxLandmarks))
    case JStr(s) => Iterate(JStr(PySlice(s, 0, maxLandmarks)))
    case _ => Err(ShapeError)
  }

  /** One of `plan_landmarks`'s target spans: the line numbers go through `int()`, there is no score. */
  function LandmarkSpan(j: Json): Result<AstSpan, Error> {
    if !j.JObj? then Err(ShapeError)
    else
      var f := j.fields;
      var file :- Lookup(f, "file");
      var startJ :- Lookup(f, "start_line");
      var startLine :- PyInt(startJ, "start_line");
      var endJ :- Lookup(f, "end_line");
      var endLine :- PyInt(endJ, "end_line");
      var nodeType :- Lookup(f, "node_type");
      var file' :- AsString(file, "file");
      var nodeType' :- AsString(nodeType, "node_type");
      var symbol :- AsOptionalString(GetOr(f, "symbol", JNull), "symbol");
      Ok(AstSpan(file', startLine, endLine, nodeType', symbol, None))
  }

  const DefaultLandmarkTest: string := "pytest -q -k 'not none'"

  function DefaultLandmarkId(k: nat): string {
    "lm-" + NatToString(k + 1)
  }

  /** The `k`-th landmark, built from one item of the reply. */
  function LandmarkOf(k: nat, raw: Json): Result<Landmark, Error> {
    if !raw.JObj? then Err(ShapeError)
    else
      var f := raw.fields;
      var spanItems :- Iterate(GetOr(f, "target_spans", JArr([])));
      var spans :- MapResult(spanItems, (_, j) => LandmarkSpan(j), 0);
      var id :- AsString(GetOr(f, "id", JStr(DefaultLandmarkId(k))), "id");
      var intent :- AsString(GetOr(f, "intent", JStr("")), "intent");
      var constraints :- StrList(GetOr(f, "constraints", JArr([])), "constraints");
      var landmarkTest :- AsString(GetOr(f, "landmark_test", JStr(DefaultLandmarkTest)), "landmark_test");
      var rollbackOn :- StrList(GetOr(f, "rollback_on", JArr([])), "rollback_on");
      var risk :- AsString(GetOr(f, "risk", JStr("unknown")), "risk");
      var confidence :- PyFloat(GetOr(f, "confidence", JFloat(0.0)), "confidence");
      Ok(Landmark(id, intent, spans, constraints, landmarkTest, rollbackOn, risk, confidence,
                  GetOr(f, "try_after", JNull)))
  }

  /** `plan_landmarks`: at most `max_landmarks` landmarks, one per leading item of the reply. */
  function PlanLandmarks(response: string, parse: Parser, maxLandmarks: int): (r: Result<seq<Landmark>, Error>)
    ensures response == "" ==> r == Ok([])
    ensures r.Ok? && maxLandmarks >= 0 ==> |r.value| <= maxLandmarks
  {
    var items :- LandmarkItems(response, parse);
    var raws :- Head(items, maxLandmarks);
    MapResult(raws, LandmarkOf, 0)
  }

  /** A reply that is not JSON and has no "[" gives no landmarks. */
  lemma PlanLandmarksNoArray(response: string, parse: Parser, maxLandmarks: int)
    requires response != "" && parse(response).None? && '[' !in response
    ensures PlanLandmarks(response, parse, maxLandmarks) == Ok([])
  {
  }

  /**
   * Prose around a JSON array is skipped: when the reply is not JSON as a
   * whole, the array between its first "[" and its last "]" is what is read.
   */
  lemma PlanLandmarksExtractsArray(pre: string, body: string, post: string, parse: Parser, maxLandmarks: int)
    requires '[' !in pre && ']' !in post
    requires |body| >= 2 && body[0] == '[' && body[|body| - 1] == ']'
    requires parse(pre + body + post).None? && parse(body).Some?
    ensures PlanLandmarks(pre + body + post, parse, maxLandmarks)
      == (var raws :- Head(parse(body).value, maxLandmarks); MapResult(raws, LandmarkOf, 0))
  {
    var response := pre + body + post;
    var start := Find(response, '[');
    var end := RFind(response, ']');
    assert response[|pre|] == '[';
    assert forall k :: 0 <= k < |pre| ==> response[k] == pre[k];
    assert start == |pre|;
    assert response[|pre| + |body| - 1] == ']';
    assert forall k :: |pre| + |body| <= k < |response| ==> response[k] == post[k - |pre| - |body|];
    assert end == |pre| + |body| - 1;
    assert response[start..end + 1] == body;
  }

  /**
   * A reply that is a JSON list gives one landmark for each of its first
   * `max_landmarks` items, and a landmark without an "id" is numbered by its
   * position, from 1.
   */
  lemma PlanLandmarksDefaultIds(response: string, parse: Parser, maxLandmarks: int, k: nat)
    requires response != "" && parse(response).Some? && parse(response).value.JArr?
    requires PlanLandmarks(response, parse, maxLandmarks).Ok?
    requires k < maxLandmarks && k < |parse(response).value.items|
    requires var raw := parse(response).value.items[k]; raw.JObj? && Get(raw.fields, "id").None?
    ensures var n := |parse(response).value.items|;
      |PlanLandmarks(response, parse, maxLandmarks).value| == (if maxLandmarks < n then maxLandmarks else n)
    ensures PlanLandmarks(response, parse, maxLandmarks).value[k].id == DefaultLandmarkId(k)
  {
    var raws := parse(response).value.items;
    PySliceFront(raws, maxLandmarks);
    var head := raws[..if maxLandmarks < |raws| then maxLandmarks else |raws|];
    assert PlanLandmarks(response, parse, maxLandmarks) == MapResult(head, LandmarkOf, 0);
    assert head[k] == raws[k];
    LandmarkOfDefaultId(k, raws[k]);
  }

  lemma LandmarkOfDefaultId(k: nat, raw: Json)
    requires raw.JObj? && Get(raw.fields, "id").None? && LandmarkOf(k, raw).Ok?
    ensures LandmarkOf(k, raw).value.id == DefaultLandmarkId(k)
  {
  }

  // ---------------------------------------------------------------------------
  // `landmarks_to_steps`

  const LandmarkPrefix: string := "landmark:"

  /**
   * `landmarks_to_steps`: one step per landmark, in order, with the landmark's
   * id, intent, spans and constraints, its test after "landmark:" as the ideal
   * outcome, and the tests as the check.
   */
  function LandmarksToSteps(lms: seq<Landmark>): (r: seq<PlanStep>)
    ensures |r| == |lms|
    ensures forall k :: 0 <= k < |lms| ==>
      r[k].id == lms[k].id && r[k].intent == lms[k].intent
      && r[k].targetSpans == lms[k].targetSpans && r[k].constraints == lms[k].constraints
      && r[k].check == "tests"
      && StartsWith(r[k].idealOutcome, LandmarkPrefix)
      && r[k].idealOutcome[|LandmarkPrefix|..] == lms[k].landmarkTest
    decreases |lms|
  {
    if lms == [] then []
    else
      var lm := lms[0];
      [PlanStep(lm.id, lm.intent, lm.targetSpans, lm.constraints, LandmarkPrefix + lm.landmarkTest, "tests")]
        + LandmarksToSteps(lms[1..])
  }
}
