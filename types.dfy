/**
 * The records the pipeline passes between its stages. The first six mirror the
 * dataclasses of types.py; Node, ProbePatch, Landmark and Pcb are the records of
 * the investigation loop and the landmark planner, with the fields the modelled
 * code reads and writes.
 */
module Types {
  import opened Wrappers
  import opened Json

  /** A located span of code; `score` is the recall score, if any. */
  datatype AstSpan = AstSpan(
    file: string,
    startLine: int,
    endLine: int,
    nodeType: string,
    symbol: Option<string>,
    score: Option<real>)

  /** An investigation candidate; `evidence` is a JSON object's fields. */
  datatype Candidate = Candidate(
    id: string,
    hypothesis: string,
    spans: seq<AstSpan>,
    evidence: seq<Field>)

  datatype Understanding = Understanding(
    summary: string,
    invariants: seq<string>,
    dependencies: seq<string>)

  datatype PlanStep = PlanStep(
    id: string,
    intent: string,
    targetSpans: seq<AstSpan>,
    constraints: seq<string>,
    idealOutcome: string,
    check: string)

  /** A proposed diff; `rationale` is passed through unchecked (JNull for None). */
  datatype DiffProposal = DiffProposal(
    stepId: string,
    unifiedDiff: string,
    rationale: Json)

  datatype TaskContext = TaskContext(
    repoPath: string,
    failingTests: seq<string>,
    testCmd: string,
    targetedExpr: Option<string>,
    instanceId: string,
    metadata: seq<Field>)

  /** A suspect location published to the blackboard. */
  datatype Node = Node(
    id: string,
    span: AstSpan,
    kind: string,
    hop: int,
    inStack: bool,
    suspicion: real)

  /** A single-action instrumentation patch run by a probe. */
  datatype ProbePatch = ProbePatch(
    id: string,
    suspectId: string,
    diff: string,
    purpose: string,
    locChanged: int,
    rationale: string)

  datatype Landmark = Landmark(
    id: string,
    intent: string,
    targetSpans: seq<AstSpan>,
    constraints: seq<string>,
    landmarkTest: string,
    rollbackOn: seq<string>,
    risk: string,
    confidence: real,
    tryAfter: Json)

  /** A probe's control block as the scheduler hands it out. */
  datatype Pcb = Pcb(
    id: string,
    suspectId: string,
    quantumOps: int,
    timeBudget: int)

  /**
   * `AstSpan(file=span["file"], start_line=span["start_line"], end_line=span["end_line"],
   * node_type=span["node_type"], symbol=span.get("symbol"), score=span.get("score"))`
   * on a dict: the four keys are required and every value is stored as it is.
   */
  function SpanFromFields(f: seq<Field>): (r: Result<AstSpan, Error>)
    ensures r.Err? ==> r.error.KeyError? || r.error.Unrepresented?
    ensures Get(f, "file").None? ==> r == Err(KeyError("file"))
  {
    var file :- Lookup(f, "file");
    var startLine :- Lookup(f, "start_line");
    var endLine :- Lookup(f, "end_line");
    var nodeType :- Lookup(f, "node_type");
    var file' :- AsString(file, "file");
    var startLine' :- AsInt(startLine, "start_line");
    var endLine' :- AsInt(endLine, "end_line");
    var nodeType' :- AsString(nodeType, "node_type");
    var symbol :- AsOptionalString(GetOr(f, "symbol", JNull), "symbol");
    var score :- AsOptionalReal(GetOr(f, "score", JNull), "score");
    Ok(AstSpan(file', startLine', endLine', nodeType', symbol, score))
  }

  /** `{span.file for span in spans}` */
  function SpanFiles(spans: seq<AstSpan>): set<string>
    decreases |spans|
  {
    if spans == [] then {} else {spans[0].file} + SpanFiles(spans[1..])
  }

  lemma {:induction false} SpanFilesMember(spans: seq<AstSpan>, f: string)
    ensures f in SpanFiles(spans) <==> exists k :: 0 <= k < |spans| && spans[k].file == f
    decreases |spans|
  {
    if spans != [] {
      SpanFilesMember(spans[1..], f);
      if f != spans[0].file && f in SpanFiles(spans) {
        var k :| 0 <= k < |spans[1..]| && spans[1..][k].file == f;
        assert spans[k + 1].file == f;
      }
      if exists k :: 0 <= k < |spans| && spans[k].file == f {
        var k :| 0 <= k < |spans| && spans[k].file == f;
        if k > 0 { assert spans[1..][k - 1].file == f; }
      }
    }
  }
}
