/**
 * The read-only investigation of investigator.py: shaping the recall reply
 * into candidates, attaching probe notes to them, turning their spans into
 * ranked suspects, building the probe marker patch, and the probe loop that
 * runs those patches in sandboxes under a scheduler. The prompts, the model,
 * the scheduler, the sandbox, the probe runner and the blackboard store are
 * not part of this model: the replies are inputs and the scheduler and the
 * runner are functions handed to the loop.
 */
module Investigator {
  import opened Wrappers
  import opened Text
  import opened Slices
  import opened Json
  import opened Types
  import opened Validate
  import opened Vcs

  // ---------------------------------------------------------------------------
  // `recall_candidates`

  /** The text of the ValueError for a reply that is not JSON; Python appends the decoder's message. */
  const NonJsonMessage: string := "Investigator returned non-JSON output"
  const NotAnObjectMessage: string := "Recall output must be a JSON object with 'candidates'."
  const NotAnArrayMessage: string := "'candidates' must be a JSON array."
  const CandidateNotObjectMessage: string := "Each candidate must be a JSON object."
  const SpansNotListMessage: string := "Candidate 'spans' must be a list."
  const SpanNotObjectMessage: string := "Each span must be a JSON object."

  /** The candidate list: the reply itself when it is a list, else a dict's "candidates" (default `[]`). */
  function RawCandidates(parsed: Json): (r: Result<seq<Json>, Error>)
    ensures r.Err? <==> !(parsed.JArr? || (parsed.JObj? && GetOr(parsed.fields, "candidates", JArr([])).JArr?))
    ensures !parsed.JArr? && !parsed.JObj? ==> r == Err(ValueError(NotAnObjectMessage))
    ensures parsed.JObj? && !GetOr(parsed.fields, "candidates", JArr([])).JArr? ==> r == Err(ValueError(NotAnArrayMessage))
  {
    match parsed
    case JArr(items) => Ok(items)
    case JObj(fields) =>
      (match GetOr(fields, "candidates", JArr([]))
       case JArr(items) => Ok(items)
       case _ => Err(ValueError(NotAnArrayMessage)))
    case _ => Err(ValueError(NotAnObjectMessage))
  }

  function RecallSpan(j: Json): (r: Result<AstSpan, Error>)
    ensures r.Err? ==> r.error.ValueError? || r.error.KeyError? || r.error.Unrepresented?
    ensures !j.JObj? ==> r == Err(ValueError(SpanNotObjectMessage))
  {
    if !j.JObj? then Err(ValueError(SpanNotObjectMessage)) else SpanFromFields(j.fields)
  }

  function DefaultCandidateId(k: nat): string {
    "cand-" + NatToString(k + 1)
  }

  /** The `k`-th candidate (`len(candidates)` is `k` when it is built). */
  function CandidateOf(k: nat, raw: Json): (r: Result<Candidate, Error>)
    ensures r.Err? ==> r.error.ValueError? || r.error.KeyError? || r.error.Unrepresented?
    ensures !raw.JObj? ==> r == Err(ValueError(CandidateNotObjectMessage))
    ensures raw.JObj? && !GetOr(raw.fields, "spans", JArr([])).JArr? ==> r == Err(ValueError(SpansNotListMessage))
  {
    if !raw.JObj? then Err(ValueError(CandidateNotObjectMessage))
    else
      var f := raw.fields;
      var rawSpans := GetOr(f, "spans", JArr([]));
      if !rawSpans.JArr? then Err(ValueError(SpansNotListMessage))
      else
        var spans :- MapResult(rawSpans.items, (_, j) => RecallSpan(j), 0);
        var id :- AsString(GetOr(f, "id", JStr(DefaultCandidateId(k))), "id");
        var hypothesis :- AsString(GetOr(f, "hypothesis", JStr("")), "hypothesis");
        var evidence := GetOr(f, "evidence", JObj([]));
        if !evidence.JObj? then Err(Unrepresented("evidence"))
        else Ok(Candidate(id, hypothesis, spans, evidence.fields))
  }

  /** The candidates of a decoded reply, one per item, in order. */
  function RecallFrom(parsed: Json): (r: Result<seq<Candidate>, Error>)
    ensures r.Err? ==> r.error.ValueError? || r.error.KeyError? || r.error.Unrepresented?
    ensures r.Ok? ==> RawCandidates(parsed).Ok? && |r.value| == |RawCandidates(parsed).value|
  {
    var raws :- RawCandidates(parsed);
    MapResult(raws, CandidateOf, 0)
  }

  /**
   * `recall_candidates`: an empty reply reads as `{}`; a reply that is not JSON
   * is a ValueError, as is every shape problem; a missing span key is a KeyError.
   */
  function RecallCandidates(response: string, parse: Parser): (r: Result<seq<Candidate>, Error>)
    ensures r.Err? ==> r.error.ValueError? || r.error.KeyError? || r.error.Unrepresented?
    ensures response != "" && parse(response).None? ==> r == Err(ValueError(NonJsonMessage))
  {
    match Loads(parse, response, JObj([]))
    case Err(_) => Err(ValueError(NonJsonMessage))
    case Ok(parsed) => RecallFrom(parsed)
  }

  /** An empty reply holds no candidates. */
  lemma RecallEmptyReply(parse: Parser)
    ensures RecallCandidates("", parse) == Ok([])
  {
    assert RawCandidates(JObj([])) == Ok([]);
  }

  /** A bare list and a dict holding that list under "candidates" give the same candidates. */
  lemma RecallListOrObject(fields: seq<Field>, items: seq<Json>)
    requires Get(fields, "candidates") == Some(JArr(items))
    ensures RecallFrom(JObj(fields)) == RecallFrom(JArr(items))
  {
  }

  /** A reply that decodes to a scalar is refused. */
  lemma RecallRejectsScalars(response: string, parse: Parser)
    requires response != "" && parse(response).Some?
    requires !parse(response).value.JArr? && !parse(response).value.JObj?
    ensures RecallCandidates(response, parse) == Err(ValueError(NotAnObjectMessage))
  {
  }

  /** A candidate that is not an object makes the whole recall fail, unless an earlier item failed first. */
  lemma RecallRejectsNonObject(items: seq<Json>, k: nat)
    requires k < |items| && !items[k].JObj?
    requires forall j :: 0 <= j < k ==> CandidateOf(j, items[j]).Ok?
    ensures RecallFrom(JArr(items)) == Err(ValueError(CandidateNotObjectMessage))
  {
    assert !CandidateOf(0 + k, items[k]).Ok?;
    var r := RecallFrom(JArr(items));
    var i :| 0 <= i < |items| && CandidateOf(0 + i, items[i]) == Err(r.error)
      && forall j :: 0 <= j < i ==> CandidateOf(0 + j, items[j]).Ok?;
    assert i == k;
  }

  /** A candidate without an "id" is numbered by its position, from 1. */
  lemma RecallDefaultIds(items: seq<Json>, k: nat)
    requires RecallFrom(JArr(items)).Ok? && k < |items|
    requires items[k].JObj? && Get(items[k].fields, "id").None?
    ensures RecallFrom(JArr(items)).value[k].id == DefaultCandidateId(k)
  {
    assert CandidateOf(0 + k, items[k]).Ok?;
  }

  // ---------------------------------------------------------------------------
  // `probe`

  /** `d.setdefault(key, value)` on the fields of a dict: a new key is added at the end. */
  function SetDefault(fields: seq<Field>, key: string, value: Json): (r: seq<Field>)
    ensures Get(fields, key).Some? ==> r == fields
    ensures Get(r, key) == Some(if Get(fields, key).Some? then Get(fields, key).value else value)
    ensures forall other :: other != key ==> Get(r, other) == Get(fields, other)
  {
    if Get(fields, key).Some? then fields
    else
      var r := fields + [Field(key, value)];
      assert forall other :: Get(r, other) == (if Get(fields, other).Some? then Get(fields, other)
        else if other == key then Some(value) else None) by {
        forall other { GetSnoc(fields, key, value, other); }
      }
      r
  }

  /** The probe prompt's reply for a candidate: it is built from the candidate's id and hypothesis. */
  type ProbeReply = (string, string) -> string

  /** One candidate, its reply's notes stored under "probe" unless that key is already there. */
  function ProbeOne(c: Candidate, reply: ProbeReply, parse: Parser): Result<Candidate, Error> {
    var notes :- Loads(parse, reply(c.id, c.hypothesis), JObj([]));
    Ok(c.(evidence := SetDefault(c.evidence, "probe", notes)))
  }

  /** The candidates probed in order; the first reply that is not JSON stops the loop. */
  function ProbeAll(cands: seq<Candidate>, reply: ProbeReply, parse: Parser): (r: Result<seq<Candidate>, Error>)
    ensures r.Ok? ==> |r.value| == |cands|
    decreases |cands|
  {
    if cands == [] then Ok([])
    else match ProbeAll(cands[..|cands| - 1], reply, parse)
      case Err(e) => Err(e)
      case Ok(init) =>
        match ProbeOne(cands[|cands| - 1], reply, parse)
        case Err(e) => Err(e)
        case Ok(c) => Ok(init + [c])
  }

  /** Once a prefix fails, the whole loop fails the same way. */
  lemma {:induction false} ProbeAllPrefixFails(cands: seq<Candidate>, n: nat, reply: ProbeReply, parse: Parser)
    requires n <= |cands| && ProbeAll(cands[..n], reply, parse).Err?
    ensures ProbeAll(cands, reply, parse) == ProbeAll(cands[..n], reply, parse)
    decreases |cands| - n
  {
    if n < |cands| {
      assert cands[..n + 1][..n] == cands[..n];
      ProbeAllPrefixFails(cands, n + 1, reply, parse);
    } else {
      assert cands[..n] == cands;
    }
  }

  /**
   * `probe`: the candidates in order, each with its notes attached; a reply
   * that is not JSON stops the loop with the decoding error.
   */
  method Probe(cands: seq<Candidate>, reply: ProbeReply, parse: Parser) returns (r: Result<seq<Candidate>, Error>)
    ensures r == ProbeAll(cands, reply, parse)
  {
    var enriched: seq<Candidate> := [];
    var i := 0;
    while i < |cands|
      invariant 0 <= i <= |cands|
      invariant ProbeAll(cands[..i], reply, parse) == Ok(enriched)
    {
      var c := cands[i];
      assert cands[..i + 1][..i] == cands[..i];
      var notes := Loads(parse, reply(c.id, c.hypothesis), JObj([]));
      if notes.Err? {
        ProbeAllPrefixFails(cands, i + 1, reply, parse);
        return Err(notes.error);
      }
      enriched := enriched + [c.(evidence := SetDefault(c.evidence, "probe", notes.value))];
      i := i + 1;
    }
    assert cands[..i] == cands;
    r := Ok(enriched);
  }

  /**
   * Probing keeps the candidates and their order, changes nothing but the
   * evidence, and sets "probe" only where it was absent.
   */
  lemma {:induction false} ProbeKeepsCandidates(cands: seq<Candidate>, reply: ProbeReply, parse: Parser)
    requires ProbeAll(cands, reply, parse).Ok?
    ensures var r := ProbeAll(cands, reply, parse).value;
      |r| == |cands|
      && forall k :: 0 <= k < |cands| ==> ProbeOne(cands[k], reply, parse) == Ok(r[k])
    decreases |cands|
  {
    if cands != [] {
      var init := cands[..|cands| - 1];
      ProbeKeepsCandidates(init, reply, parse);
      var r := ProbeAll(cands, reply, parse).value;
      var ri := ProbeAll(init, reply, parse).value;
      assert r == ri + [ProbeOne(cands[|cands| - 1], reply, parse).value];
      forall k | 0 <= k < |cands| ensures ProbeOne(cands[k], reply, parse) == Ok(r[k]) {
        if k < |init| { assert cands[k] == init[k] && r[k] == ri[k]; }
      }
    }
  }

  /** What probing does to one candidate: only its evidence changes, and "probe" is set only where it was absent. */
  lemma ProbeOneEffect(c: Candidate, reply: ProbeReply, parse: Parser)
    requires ProbeOne(c, reply, parse).Ok?
    ensures var p := ProbeOne(c, reply, parse).value;
      p.id == c.id && p.hypothesis == c.hypothesis && p.spans == c.spans
      && (Get(c.evidence, "probe").Some? ==> p == c)
      && Get(p.evidence, "probe").Some?
      && forall key :: key != "probe" ==> Get(p.evidence, key) == Get(c.evidence, key)
  {
  }

  /** A candidate whose reply is not JSON makes probing fail, unless an earlier one failed first. */
  lemma ProbeFailsOnNonJson(cands: seq<Candidate>, reply: ProbeReply, parse: Parser, k: nat)
    requires k < |cands|
    requires var t := reply(cands[k].id, cands[k].hypothesis); t != "" && parse(t).None?
    ensures ProbeAll(cands, reply, parse).Err?
  {
    assert cands[..k + 1][..k] == cands[..k] && cands[..k + 1][k] == cands[k];
    assert ProbeAll(cands[..k + 1], reply, parse).Err?;
    ProbeAllPrefixFails(cands, k + 1, reply, parse);
  }

  // ---------------------------------------------------------------------------
  // `_candidates_to_suspects`

  /** How many suspects are kept. */
  const TopSuspects: nat := 7

  /** A span's suspicion: its score, or 0.5 when it has none. */
  function Suspicion(span: AstSpan): real {
    if span.score.Some? then span.score.value else 0.5
  }

  function NodeId(c: Candidate, span: AstSpan): string {
    c.id + ":" + span.file + ":" + IntToString(span.startLine) + "-" + IntToString(span.endLine)
  }

  /** The suspect for one span of a candidate. */
  function ToNode(c: Candidate, span: AstSpan): Node {
    Node(NodeId(c, span), span, Lower(span.nodeType), 0, false, Suspicion(span))
  }

  function SpanNodes(c: Candidate): (r: seq<Node>)
    ensures |r| == |c.spans|
  {
    seq(|c.spans|, j requires 0 <= j < |c.spans| => ToNode(c, c.spans[j]))
  }

  /** Every candidate's suspects, candidate by candidate and span by span. */
  function AllNodes(cands: seq<Candidate>): seq<Node>
    decreases |cands|
  {
    if cands == [] then [] else AllNodes(cands[..|cands| - 1]) + SpanNodes(cands[|cands| - 1])
  }

  /** The suspects of one more candidate come after those of the ones before it. */
  lemma AllNodesStep(cands: seq<Candidate>, i: nat)
    requires i < |cands|
    ensures AllNodes(cands[..i + 1]) == AllNodes(cands[..i]) + SpanNodes(cands[i])
  {
    assert cands[..i + 1][..i] == cands[..i];
  }

  function TotalSpans(cands: seq<Candidate>): nat
    decreases |cands|
  {
    if cands == [] then 0 else TotalSpans(cands[..|cands| - 1]) + |cands[|cands| - 1].spans|
  }

  lemma {:induction false} AllNodesSound(cands: seq<Candidate>, n: Node)
    requires n in AllNodes(cands)
    ensures exists i, j :: 0 <= i < |cands| && 0 <= j < |cands[i].spans| && n == ToNode(cands[i], cands[i].spans[j])
    decreases |cands|
  {
    var init := cands[..|cands| - 1];
    var last := cands[|cands| - 1];
    if n in AllNodes(init) {
      AllNodesSound(init, n);
      var i, j :| 0 <= i < |init| && 0 <= j < |init[i].spans| && n == ToNode(init[i], init[i].spans[j]);
      assert cands[i] == init[i];
    } else {
      var j :| 0 <= j < |last.spans| && SpanNodes(last)[j] == n;
      assert n == ToNode(cands[|cands| - 1], cands[|cands| - 1].spans[j]);
    }
  }

  lemma {:induction false} AllNodesComplete(cands: seq<Candidate>, i: nat, j: nat)
    requires i < |cands| && j < |cands[i].spans|
    ensures ToNode(cands[i], cands[i].spans[j]) in AllNodes(cands)
    decreases |cands|
  {
    var init := cands[..|cands| - 1];
    var last := cands[|cands| - 1];
    if i < |init| {
      assert init[i] == cands[i];
      AllNodesComplete(init, i, j);
    } else {
      assert SpanNodes(last)[j] == ToNode(cands[i], cands[i].spans[j]);
    }
  }

  lemma {:induction false} AllNodesCount(cands: seq<Candidate>)
    ensures |AllNodes(cands)| == TotalSpans(cands)
    decreases |cands|
  {
    if cands != [] {
      AllNodesCount(cands[..|cands| - 1]);
    }
  }

  /** One suspect per (candidate, span) pair, and nothing else. */
  lemma AllNodesPairs(cands: seq<Candidate>)
    ensures |AllNodes(cands)| == TotalSpans(cands)
    ensures forall n :: n in AllNodes(cands) <==>
      exists i, j :: 0 <= i < |cands| && 0 <= j < |cands[i].spans| && n == ToNode(cands[i], cands[i].spans[j])
  {
    AllNodesCount(cands);
    forall n | n in AllNodes(cands)
      ensures exists i, j :: 0 <= i < |cands| && 0 <= j < |cands[i].spans| && n == ToNode(cands[i], cands[i].spans[j])
    {
      AllNodesSound(cands, n);
    }
    forall i, j | 0 <= i < |cands| && 0 <= j < |cands[i].spans|
      ensures ToNode(cands[i], cands[i].spans[j]) in AllNodes(cands)
    {
      AllNodesComplete(cands, i, j);
    }
  }

  predicate SortedDesc(s: seq<Node>) {
    forall i, j :: 0 <= i < j < |s| ==> s[i].suspicion >= s[j].suspicion
  }

  /** Puts `x` after every element at least as suspicious: later elements stay after earlier equal ones. */
  function Insert(x: Node, s: seq<Node>): (r: seq<Node>)
    ensures multiset(r) == multiset(s) + multiset{x}
    decreases |s|
  {
    if s == [] then [x]
    else if x.suspicion > s[0].suspicion then [x] + s
    else
      assert s == [s[0]] + s[1..];
      [s[0]] + Insert(x, s[1..])
  }

  /** `list.sort(key=lambda n: n.suspicion, reverse=True)`: a stable sort, most suspicious first. */
  function SortDesc(s: seq<Node>): (r: seq<Node>)
    decreases |s|
  {
    if s == [] then [] else Insert(s[|s| - 1], SortDesc(s[..|s| - 1]))
  }

  /** The elements of `s` whose suspicion is `v`, in order. */
  function WithSuspicion(s: seq<Node>, v: real): seq<Node>
    decreases |s|
  {
    if s == [] then [] else (if s[0].suspicion == v then [s[0]] else []) + WithSuspicion(s[1..], v)
  }

  lemma {:induction false} InsertSorted(x: Node, s: seq<Node>)
    requires SortedDesc(s)
    ensures SortedDesc(Insert(x, s))
    ensures |Insert(x, s)| == |s| + 1
    decreases |s|
  {
    var r := Insert(x, s);
    assert |r| == |multiset(r)| == |s| + 1;
    if s == [] {
    } else if x.suspicion > s[0].suspicion {
      SortedCons(x, s);
    } else {
      SortedTail(s);
      InsertSorted(x, s[1..]);
      InsertBelow(x, s[1..], s[0].suspicion);
      SortedCons(s[0], Insert(x, s[1..]));
    }
  }

  /** Inserting into elements no more suspicious than `b` an element no more suspicious than `b` keeps them so. */
  lemma InsertBelow(x: Node, s: seq<Node>, b: real)
    requires x.suspicion <= b && forall k :: 0 <= k < |s| ==> s[k].suspicion <= b
    ensures forall k :: 0 <= k < |Insert(x, s)| ==> Insert(x, s)[k].suspicion <= b
  {
    var t := Insert(x, s);
    forall k | 0 <= k < |t| ensures t[k].suspicion <= b {
      assert t[k] in multiset(t);
      if t[k] != x {
        assert t[k] in multiset(s);
        var m :| 0 <= m < |s| && s[m] == t[k];
      }
    }
  }

  /** A first element at least as suspicious as the head keeps a sorted sequence sorted. */
  lemma SortedCons(y: Node, s: seq<Node>)
    requires SortedDesc(s) && (s != [] ==> y.suspicion >= s[0].suspicion)
    ensures SortedDesc([y] + s)
  {
    var r := [y] + s;
    forall i, j | 0 <= i < j < |r| ensures r[i].suspicion >= r[j].suspicion {
      assert r[j] == s[j - 1];
      if i > 0 {
        assert r[i] == s[i - 1];
      } else if j > 1 {
        assert s[0].suspicion >= s[j - 1].suspicion;
      }
    }
  }

  lemma {:induction false} SortDescSorted(s: seq<Node>)
    ensures SortedDesc(SortDesc(s))
    ensures multiset(SortDesc(s)) == multiset(s)
    ensures |SortDesc(s)| == |s|
    decreases |s|
  {
    if s != [] {
      var init := s[..|s| - 1];
      SortDescSorted(init);
      InsertSorted(s[|s| - 1], SortDesc(init));
      FrontLast(s);
      assert multiset(s) == multiset(init) + multiset{s[|s| - 1]};
    }
  }

  /** The suspicion-`v` elements of `[y] + s`: `y` if it has suspicion `v`, then those of `s`. */
  lemma WithSuspicionCons(y: Node, s: seq<Node>, v: real)
    ensures WithSuspicion([y] + s, v) == (if y.suspicion == v then [y] else []) + WithSuspicion(s, v)
  {
    TailOfCons(y, s);
  }

  lemma {:induction false} WithSuspicionSnoc(s: seq<Node>, x: Node, v: real)
    ensures WithSuspicion(s + [x], v) == WithSuspicion(s, v) + (if x.suspicion == v then [x] else [])
    decreases |s|
  {
    var tail := if x.suspicion == v then [x] else [];
    if s == [] {
      assert s + [x] == [x] + [];
      WithSuspicionCons(x, [], v);
    } else {
      var head := if s[0].suspicion == v then [s[0]] else [];
      ConsSnoc(s, x);
      WithSuspicionCons(s[0], s[1..] + [x], v);
      WithSuspicionSnoc(s[1..], x, v);
      assert s == [s[0]] + s[1..];
      WithSuspicionCons(s[0], s[1..], v);
      AppendAssoc(head, WithSuspicion(s[1..], v), tail);
    }
  }

  lemma {:induction false} WithSuspicionNone(s: seq<Node>, v: real)
    requires forall k :: 0 <= k < |s| ==> s[k].suspicion < v
    ensures WithSuspicion(s, v) == []
    decreases |s|
  {
    if s != [] {
      WithSuspicionNone(s[1..], v);
    }
  }

  lemma {:induction false} WithSuspicionInsert(x: Node, s: seq<Node>, v: real)
    requires SortedDesc(s)
    ensures WithSuspicion(Insert(x, s), v) == WithSuspicion(s, v) + (if x.suspicion == v then [x] else [])
    decreases |s|
  {
    var tail := if x.suspicion == v then [x] else [];
    if s == [] {
      assert Insert(x, s) == [x] + [];
      WithSuspicionCons(x, [], v);
    } else if x.suspicion > s[0].suspicion {
      WithSuspicionCons(x, s, v);
      if x.suspicion == v {
        WithSuspicionNone(s, v);
      }
    } else {
      var head := if s[0].suspicion == v then [s[0]] else [];
      WithSuspicionCons(s[0], Insert(x, s[1..]), v);
      SortedTail(s);
      WithSuspicionInsert(x, s[1..], v);
      assert s == [s[0]] + s[1..];
      WithSuspicionCons(s[0], s[1..], v);
      AppendAssoc(head, WithSuspicion(s[1..], v), tail);
    }
  }

  lemma SortedTail(s: seq<Node>)
    requires |s| >= 1 && SortedDesc(s)
    ensures SortedDesc(s[1..])
  {
  }

  /** The sort is stable: the elements of each suspicion keep their relative order. */
  lemma {:induction false} SortDescStable(s: seq<Node>, v: real)
    ensures WithSuspicion(SortDesc(s), v) == WithSuspicion(s, v)
    decreases |s|
  {
    if s != [] {
      var init := s[..|s| - 1];
      var x := s[|s| - 1];
      var tail := if x.suspicion == v then [x] else [];
      assert s == init + [x];
      assert SortDesc(s) == Insert(x, SortDesc(init));
      assert WithSuspicion(Insert(x, SortDesc(init)), v) == WithSuspicion(SortDesc(init), v) + tail by {
        SortDescSorted(init);
        WithSuspicionInsert(x, SortDesc(init), v);
      }
      assert WithSuspicion(SortDesc(init), v) == WithSuspicion(init, v) by {
        SortDescStable(init, v);
      }
      assert WithSuspicion(init + [x], v) == WithSuspicion(init, v) + tail by {
        WithSuspicionSnoc(init, x, v);
      }
    }
  }

  /** `suspects[:k]` after the sort. */
  function TopSuspectsOf(cands: seq<Candidate>, k: int): seq<Node> {
    Take(SortDesc(AllNodes(cands)), k)
  }

  /**
   * The kept suspects are the `min(k, total)` most suspicious, most suspicious
   * first; none left out is more suspicious than one kept.
   */
  lemma TopSuspectsRanked(cands: seq<Candidate>, k: nat)
    ensures var r := TopSuspectsOf(cands, k);
      var sorted := SortDesc(AllNodes(cands));
      |r| == (if k < TotalSpans(cands) then k else TotalSpans(cands))
      && SortedDesc(r)
      && r == sorted[..|r|]
      && (forall i, j :: 0 <= i < |r| <= j < |sorted| ==> r[i].suspicion >= sorted[j].suspicion)
      && multiset(sorted) == multiset(AllNodes(cands))
  {
    AllNodesPairs(cands);
    SortDescSorted(AllNodes(cands));
    TakeNonNegative(SortDesc(AllNodes(cands)), k);
  }

  /**
   * `_candidates_to_suspects`: one suspect per (candidate, span), collected
   * by two nested loops, then sorted and cut to the first `k`.
   */
  method CandidatesToSuspects(cands: seq<Candidate>, k: int) returns (suspects: seq<Node>)
    ensures suspects == TopSuspectsOf(cands, k)
  {
    var all: seq<Node> := [];
    var i := 0;
    while i < |cands|
      invariant 0 <= i <= |cands|
      invariant all == AllNodes(cands[..i])
    {
      var cand := cands[i];
      var j := 0;
      while j < |cand.spans|
        invariant 0 <= j <= |cand.spans|
        invariant all == AllNodes(cands[..i]) + SpanNodes(cand)[..j]
      {
        PrefixSnoc(SpanNodes(cand), j);
        AppendAssoc(AllNodes(cands[..i]), SpanNodes(cand)[..j], [ToNode(cand, cand.spans[j])]);
        all := all + [ToNode(cand, cand.spans[j])];
        j := j + 1;
      }
      assert SpanNodes(cand)[..j] == SpanNodes(cand);
      AllNodesStep(cands, i);
      i := i + 1;
    }
    assert cands[..i] == cands;
    suspects := Take(SortDesc(all), k);
  }

  // ---------------------------------------------------------------------------
  // `_make_probe_patch`

  /** The one line the probe patch adds. */
  function MarkerLine(pcb: Pcb, node: Node): string {
    "+# cip_probe " + pcb.id + " for " + node.id
  }

  /** `_make_probe_patch`: a one-file diff adding the marker line to the suspect's file. */
  function MakeProbePatch(pcb: Pcb, node: Node): ProbePatch {
    ProbePatch("pp-" + pcb.id, node.id, SingleFileDiff(node.span.file, [MarkerLine(pcb, node)]),
               "instrument", 1, "trace entry")
  }

  lemma MarkerNotSuspicious(pcb: Pcb, node: Node)
    ensures IsChangeLine(MarkerLine(pcb, node)) && !SuspiciousHeader(MarkerLine(pcb, node))
  {
    var m := MarkerLine(pcb, node);
    assert m[0] == '+' && m[1] == '#';
    CommentNotSuspicious(m);
  }

  /**
   * The probe patch is a well-formed diff of exactly one changed line, the
   * count it declares, touching only the suspect's file.
   */
  lemma ProbePatchIsDiff(pcb: Pcb, node: Node)
    requires node.span.file != [] && NoSpace(node.span.file)
    requires NoLineBreak(pcb.id) && NoLineBreak(node.id)
    ensures var p := MakeProbePatch(pcb, node);
      RequireUnifiedDiff(p.diff) == None
      && CountChangedLoc(p.diff) == p.locChanged == 1
      && TouchedFiles(p.diff) == {node.span.file}
      && p.id == "pp-" + pcb.id && p.suspectId == node.id
  {
    MarkerNotSuspicious(pcb, node);
    MarkerOneLine(pcb, node);
    OneLineDiff(node.span.file, MarkerLine(pcb, node));
  }

  /** The marker line holds no line break when the ids hold none. */
  lemma MarkerOneLine(pcb: Pcb, node: Node)
    requires NoLineBreak(pcb.id) && NoLineBreak(node.id)
    ensures NoLineBreak(MarkerLine(pcb, node))
  {
    var m := MarkerLine(pcb, node);
    forall k | 0 <= k < |m| ensures !IsLineBreak(m[k]) {
      if 13 <= k < 13 + |pcb.id| { assert m[k] == pcb.id[k - 13]; }
      else if 18 + |pcb.id| <= k { assert m[k] == node.id[k - 18 - |pcb.id|]; }
    }
  }

  /** A one-file diff of one added line passes the diff check, counts one line and touches its file. */
  lemma OneLineDiff(f: string, m: string)
    requires f != [] && NoSpace(f)
    requires IsChangeLine(m) && NoLineBreak(m) && !SuspiciousHeader(m)
    ensures var d := SingleFileDiff(f, [m]);
      RequireUnifiedDiff(d) == None && CountChangedLoc(d) == 1 && TouchedFiles(d) == {f}
  {
    SingleFileDiffShape(f, [m]);
    SingleFileDiffCount(f, [m]);
    SingleFileDiffTouched(f, [m]);
  }

  /** The patch text is the header, "@@" and the marker line, each ending in a newline. */
  lemma ProbePatchText(pcb: Pcb, node: Node)
    ensures var f := node.span.file;
      MakeProbePatch(pcb, node).diff
        == "diff --git a/" + f + " b/" + f + "\n" + "@@" + "\n" + MarkerLine(pcb, node) + "\n"
  {
    var h := RenderHeader(node.span.file);
    var m := MarkerLine(pcb, node);
    var ls := [h, "@@", m];
    assert [h, "@@"] + [m] == ls;
    assert ls[1..] == ["@@", m] && ls[1..][1..] == [m];
    assert Join([m], "\n") == m;
    assert Join(["@@", m], "\n") == "@@" + "\n" + m;
    assert Join(ls, "\n") == h + "\n" + ("@@" + "\n" + m);
  }

  lemma NotEndingInNewline(t: string)
    requires t != [] && t[|t| - 1] != '\n'
    ensures !EndsWith(t, "\n")
  {
    assert t[|t| - 1..][0] == t[|t| - 1];
  }

  /** Applied to the suspect's file, the marker hunk puts the comment line in front of the file's text. */
  lemma ProbeHunkPrepends(tree: Tree, pcb: Pcb, node: Node)
    requires node.span.file in tree
    requires '\n' !in pcb.id && '\n' !in node.id
    ensures ApplyHunks(tree, node.span.file, ["@@", MarkerLine(pcb, node)])
      == Ok(tree[node.span.file := MarkerLine(pcb, node)[1..] + "\n" + ReadText(tree[node.span.file])])
  {
    var m := MarkerLine(pcb, node);
    var hunk := ["@@", m];
    assert StartsWith(m, "+");
    ApplyHunksPrepends(tree, node.span.file, hunk);
    var t := m[1..];
    if node.id == [] {
      assert t[|t| - 1] == ' ';
    } else {
      assert t[|t| - 1] == node.id[|node.id| - 1];
    }
    NotEndingInNewline(t);
    assert hunk[1..] == [m] && [m][1..] == hunk[2..];
    assert !StartsWith(hunk[0], "+") by { assert hunk[0][..1][0] == '@'; }
    assert Added(hunk) == Added([m]);
    assert Added([m]) == [AddNewline(t)] + Added(hunk[2..]);
    assert Added(hunk) == [t + "\n"];
    assert Concat([t + "\n"]) == t + "\n" + Concat([]);
    assert Concat(Added(hunk)) == t + "\n";
    assert Concat(Added(hunk)) + ReadText(tree[node.span.file]) == m[1..] + "\n" + ReadText(tree[node.span.file]);
  }

  // ---------------------------------------------------------------------------
  // `run_investigations`

  /** What the loop asks of the scheduler and the sandboxes, in order. */
  datatype Event =
    | AddPcb(pcb: Pcb)                 // `schedr.add_pcb(...)`
    | NextPcb(picked: Option<Pcb>)     // `schedr.next_pcb()` and its answer
    | CreateSandbox                    // `sbx.create(ctx.repo_path)`
    | Cleanup                          // `sb.cleanup()`
    | RecordGain(pcbId: string, gain: real)
    | Preempt(pcbId: string)
    | Boost(pcbId: string)

  /** What the blackboard store is given. */
  datatype Evidence = Evidence(probeId: Json, result: Json)
  datatype Board = Board(suspects: seq<Node>, patches: seq<ProbePatch>, evidence: seq<Evidence>)

  /** `next_pcb()`, as a function of every call made on the scheduler (and every sandbox event) so far. */
  type Scheduler = seq<Event> -> Option<Pcb>

  /** `investigative_tx` on a fresh sandbox: the artifacts and the information gain, or the error it raises. */
  type Runner = ProbePatch -> Result<(seq<Json>, real), Error>

  /** The scheduler's answer to a gain: demote a probe that gained nothing, boost one that did. */
  function Reaction(pcbId: string, gain: real): Event {
    if gain <= 0.0 then Preempt(pcbId) else Boost(pcbId)
  }

  /** `{n.id: n for n in suspects}`: a later suspect with the same id replaces an earlier one. */
  function NodeIndex(suspects: seq<Node>): (m: map<string, Node>)
    ensures forall id :: id in m <==> exists k :: 0 <= k < |suspects| && suspects[k].id == id
    decreases |suspects|
  {
    if suspects == [] then map[]
    else
      var init := suspects[..|suspects| - 1];
      var last := suspects[|suspects| - 1];
      var m := NodeIndex(init)[last.id := last];
      assert forall id :: id in m <==> exists k :: 0 <= k < |suspects| && suspects[k].id == id by {
        forall id ensures id in m <==> exists k :: 0 <= k < |suspects| && suspects[k].id == id {
          if id in NodeIndex(init) && id != last.id {
            var k :| 0 <= k < |init| && init[k].id == id;
            assert suspects[k].id == id;
          }
          if exists k :: 0 <= k < |suspects| && suspects[k].id == id {
            var k :| 0 <= k < |suspects| && suspects[k].id == id;
            if k < |init| { assert init[k].id == id; }
          }
        }
      }
      m
  }

  /** No suspect after the `k`-th has its id. */
  predicate LastWithId(suspects: seq<Node>, k: nat)
    requires k < |suspects|
  {
    forall j :: k < j < |suspects| ==> suspects[j].id != suspects[k].id
  }

  /** Each id is mapped to the last suspect that has it. */
  lemma {:induction false} NodeIndexLast(suspects: seq<Node>, k: nat)
    requires k < |suspects| && LastWithId(suspects, k)
    ensures suspects[k].id in NodeIndex(suspects) && NodeIndex(suspects)[suspects[k].id] == suspects[k]
    decreases |suspects|
  {
    var init := suspects[..|suspects| - 1];
    if k < |init| {
      assert suspects[|suspects| - 1].id != suspects[k].id;
      assert init[k] == suspects[k];
      forall j | k < j < |init| ensures init[j].id != init[k].id {
        assert init[j] == suspects[j];
      }
      NodeIndexLast(init, k);
    }
  }

  /** The PCB seeded for the `i`-th suspect. */
  function SeedPcb(i: nat, n: Node, quantumOps: int, timeoutSec: int): Pcb {
    Pcb("pcb-" + NatToString(i + 1), n.id, quantumOps, timeoutSec)
  }

  function Seeds(suspects: seq<Node>, quantumOps: int, timeoutSec: int): (r: seq<Event>)
    ensures |r| == |suspects|
  {
    seq(|suspects|, i requires 0 <= i < |suspects| => AddPcb(SeedPcb(i, suspects[i], quantumOps, timeoutSec)))
  }

  /** The number of probes the trace has run. */
  function Probes(trace: seq<Event>): nat
    decreases |trace|
  {
    if trace == [] then 0 else (if trace[0].RecordGain? then 1 else 0) + Probes(trace[1..])
  }

  /** The sandbox events of a trace, in order. */
  function SandboxEvents(trace: seq<Event>): seq<Event>
    decreases |trace|
  {
    if trace == [] then []
    else (if trace[0] == CreateSandbox || trace[0] == Cleanup then [trace[0]] else []) + SandboxEvents(trace[1..])
  }

  /** The PCBs whose probes ran, in order: each answer of the scheduler that is followed by a recorded gain. */
  function RanPcbs(trace: seq<Event>): seq<Pcb>
    decreases |trace|
  {
    if |trace| < 3 then []
    else
      (if trace[0].NextPcb? && trace[0].picked.Some? && trace[2].RecordGain? then [trace[0].picked.value] else [])
      + RanPcbs(trace[1..])
  }

  /** Every sandbox is cleaned up before the next one is created, and the last one is cleaned up too. */
  predicate Paired(events: seq<Event>) {
    |events| % 2 == 0 && forall k :: 0 <= k < |events| ==> events[k] == if k % 2 == 0 then CreateSandbox else Cleanup
  }

  /** Every recorded gain is followed at once by the scheduler's reaction to it. */
  predicate GainsAnswered(trace: seq<Event>) {
    forall k :: 0 <= k < |trace| && trace[k].RecordGain? ==>
      k + 1 < |trace| && trace[k + 1] == Reaction(trace[k].pcbId, trace[k].gain)
  }

  lemma {:induction false} ProbesAppend(a: seq<Event>, b: seq<Event>)
    ensures Probes(a + b) == Probes(a) + Probes(b)
    decreases |a|
  {
    if a != [] {
      assert (a + b)[1..] == a[1..] + b;
      ProbesAppend(a[1..], b);
    } else {
      assert a + b == b;
    }
  }

  lemma {:induction false} SandboxEventsAppend(a: seq<Event>, b: seq<Event>)
    ensures SandboxEvents(a + b) == SandboxEvents(a) + SandboxEvents(b)
    decreases |a|
  {
    if a != [] {
      assert (a + b)[1..] == a[1..] + b;
      SandboxEventsAppend(a[1..], b);
    } else {
      assert a + b == b;
    }
  }

  lemma EvenShift(k: int, n: int)
    requires n % 2 == 0
    ensures (k - n) % 2 == k % 2
  {
  }

  lemma PairedAppend(a: seq<Event>, b: seq<Event>)
    requires Paired(a) && Paired(b)
    ensures Paired(a + b)
  {
    forall k | 0 <= k < |a + b|
      ensures (a + b)[k] == if k % 2 == 0 then CreateSandbox else Cleanup
    {
      if k >= |a| {
        assert (a + b)[k] == b[k - |a|];
        EvenShift(k, |a|);
      }
    }
  }

  /** The events of one pass of the loop: ask, create, [record, react,] clean up. */
  function Step(picked: Pcb, ran: bool, gain: real): seq<Event> {
    if ran then [NextPcb(Some(picked)), CreateSandbox, RecordGain(picked.id, gain), Reaction(picked.id, gain), Cleanup]
    else [NextPcb(Some(picked)), CreateSandbox, Cleanup]
  }

  lemma StepCounts(picked: Pcb, ran: bool, gain: real)
    ensures SandboxEvents(Step(picked, ran, gain)) == [CreateSandbox, Cleanup]
    ensures Probes(Step(picked, ran, gain)) == if ran then 1 else 0
  {
    var step := Step(picked, ran, gain);
    var react := Reaction(picked.id, gain);
    assert react != CreateSandbox && react != Cleanup && !react.RecordGain?;
    var last := [Cleanup];
    assert last[1..] == [];
    assert SandboxEvents(last) == [Cleanup] && Probes(last) == 0;
    if ran {
      var s3 := [RecordGain(picked.id, gain), react, Cleanup];
      assert s3[1..][1..] == last;
      assert SandboxEvents(s3[1..]) == [Cleanup] && Probes(s3[1..]) == 0;
      assert SandboxEvents(s3) == [Cleanup] && Probes(s3) == 1;
      assert step[1..][1..] == s3;
    } else {
      assert step[1..][1..] == last;
    }
  }

  lemma StepAnswers(trace: seq<Event>, picked: Pcb, ran: bool, gain: real)
    requires GainsAnswered(trace)
    ensures GainsAnswered(trace + Step(picked, ran, gain))
  {
    var step := Step(picked, ran, gain);
    var t := trace + step;
    forall k | 0 <= k < |t| && t[k].RecordGain?
      ensures k + 1 < |t| && t[k + 1] == Reaction(t[k].pcbId, t[k].gain)
    {
      if k < |trace| {
        assert t[k] == trace[k];
        assert k + 1 < |trace|;
        assert t[k + 1] == trace[k + 1];
      } else {
        assert ran && k == |trace| + 2;
      }
    }
  }

  lemma StepFacts(trace: seq<Event>, picked: Pcb, ran: bool, gain: real)
    requires GainsAnswered(trace) && Paired(SandboxEvents(trace))
    ensures GainsAnswered(trace + Step(picked, ran, gain))
    ensures Paired(SandboxEvents(trace + Step(picked, ran, gain)))
    ensures Probes(trace + Step(picked, ran, gain)) == Probes(trace) + (if ran then 1 else 0)
  {
    StepAnswers(trace, picked, ran, gain);
    StepCounts(picked, ran, gain);
    SandboxEventsAppend(trace, Step(picked, ran, gain));
    ProbesAppend(trace, Step(picked, ran, gain));
    PairedAppend(SandboxEvents(trace), [CreateSandbox, Cleanup]);
  }

  lemma {:induction false} RanPcbsAppend(a: seq<Event>, b: seq<Event>)
    requires forall j :: 0 <= j < 2 && j < |b| ==> !b[j].RecordGain?
    ensures RanPcbs(a + b) == RanPcbs(a) + RanPcbs(b)
    decreases |a|
  {
    if a == [] {
      assert a + b == b;
    } else {
      var ab := a + b;
      assert ab[1..] == a[1..] + b;
      RanPcbsAppend(a[1..], b);
      if |a| < 3 && |ab| >= 3 {
        assert ab[2] == b[2 - |a|];
      }
      if |a| >= 3 {
        assert ab[0] == a[0] && ab[2] == a[2];
      }
    }
  }

  lemma StepRan(picked: Pcb, ran: bool, gain: real)
    ensures RanPcbs(Step(picked, ran, gain)) == if ran then [picked] else []
  {
    var step := Step(picked, ran, gain);
    if ran {
      assert RanPcbs(step[1..][1..][1..]) == [];
      assert RanPcbs(step[1..][1..]) == [];
      assert RanPcbs(step[1..]) == [];
    } else {
      assert RanPcbs(step[1..]) == [];
    }
  }

  /** One pass of the loop adds the picked PCB to those that ran exactly when its probe ran. */
  lemma StepRanAppend(trace: seq<Event>, picked: Pcb, ran: bool, gain: real)
    ensures RanPcbs(trace + Step(picked, ran, gain)) == RanPcbs(trace) + if ran then [picked] else []
  {
    var step := Step(picked, ran, gain);
    assert step[0].NextPcb? && step[1] == CreateSandbox;
    RanPcbsAppend(trace, step);
    StepRan(picked, ran, gain);
  }

  lemma StopRanAppend(trace: seq<Event>, picked: Option<Pcb>)
    ensures RanPcbs(trace + [NextPcb(picked)]) == RanPcbs(trace)
  {
    RanPcbsAppend(trace, [NextPcb(picked)]);
    assert RanPcbs(trace) + [] == RanPcbs(trace);
  }

  /** Each recorded patch is the marker patch of a PCB that ran, for the suspect that PCB names. */
  predicate PatchesOf(patches: seq<ProbePatch>, pcbs: seq<Pcb>, index: map<string, Node>) {
    |patches| == |pcbs|
    && forall i :: 0 <= i < |pcbs| ==>
      pcbs[i].suspectId in index && patches[i] == MakeProbePatch(pcbs[i], index[pcbs[i].suspectId])
  }

  lemma PatchesOfSnoc(patches: seq<ProbePatch>, pcbs: seq<Pcb>, index: map<string, Node>, pcb: Pcb)
    requires PatchesOf(patches, pcbs, index) && pcb.suspectId in index
    ensures PatchesOf(patches + [MakeProbePatch(pcb, index[pcb.suspectId])], pcbs + [pcb], index)
  {
    var ps := patches + [MakeProbePatch(pcb, index[pcb.suspectId])];
    var qs := pcbs + [pcb];
    forall i | 0 <= i < |qs|
      ensures qs[i].suspectId in index && ps[i] == MakeProbePatch(qs[i], index[qs[i].suspectId])
    {
      if i < |pcbs| {
        assert qs[i] == pcbs[i] && ps[i] == patches[i];
      }
    }
  }

  /** A last question to the scheduler that ends the loop. */
  lemma StopFacts(trace: seq<Event>, picked: Option<Pcb>)
    requires GainsAnswered(trace) && Paired(SandboxEvents(trace))
    ensures GainsAnswered(trace + [NextPcb(picked)])
    ensures Paired(SandboxEvents(trace + [NextPcb(picked)]))
    ensures Probes(trace + [NextPcb(picked)]) == Probes(trace)
  {
    var t := trace + [NextPcb(picked)];
    forall k | 0 <= k < |t| && t[k].RecordGain?
      ensures k + 1 < |t| && t[k + 1] == Reaction(t[k].pcbId, t[k].gain)
    {
      assert k < |trace| && t[k] == trace[k];
      if k + 1 < |trace| {
        assert t[k + 1] == trace[k + 1];
      }
    }
    SandboxEventsAppend(trace, [NextPcb(picked)]);
    ProbesAppend(trace, [NextPcb(picked)]);
    assert [NextPcb(picked)][1..] == [];
    assert SandboxEvents(trace) + [] == SandboxEvents(trace);
  }

  lemma SeedFacts(seeds: seq<Event>, suspects: seq<Node>, quantumOps: int, timeoutSec: int)
    requires seeds == Seeds(suspects, quantumOps, timeoutSec)
    ensures GainsAnswered(seeds) && Probes(seeds) == 0 && SandboxEvents(seeds) == [] && RanPcbs(seeds) == []
  {
    OnlySeeds(seeds);
  }

  lemma {:induction false} OnlySeeds(seeds: seq<Event>)
    requires forall k :: 0 <= k < |seeds| ==> seeds[k].AddPcb?
    ensures Probes(seeds) == 0 && SandboxEvents(seeds) == [] && RanPcbs(seeds) == []
    decreases |seeds|
  {
    if seeds != [] {
      OnlySeeds(seeds[1..]);
    }
  }

  /** The loop's view of the trace: it starts with the seeds, every gain is answered, sandboxes pair up, `n` probes ran. */
  predicate Tracked(trace: seq<Event>, seeds: seq<Event>, n: nat) {
    GainsAnswered(trace) && Paired(SandboxEvents(trace)) && Probes(trace) == n
    && |trace| >= |seeds| && trace[..|seeds|] == seeds
  }

  lemma StepTracked(trace: seq<Event>, seeds: seq<Event>, n: nat, picked: Pcb, ran: bool, gain: real)
    requires Tracked(trace, seeds, n)
    ensures Tracked(trace + Step(picked, ran, gain), seeds, n + if ran then 1 else 0)
  {
    StepFacts(trace, picked, ran, gain);
    PrefixKept(trace, seeds, Step(picked, ran, gain));
  }

  lemma StopTracked(trace: seq<Event>, seeds: seq<Event>, n: nat, picked: Option<Pcb>)
    requires Tracked(trace, seeds, n)
    ensures Tracked(trace + [NextPcb(picked)], seeds, n)
  {
    StopFacts(trace, picked);
    PrefixKept(trace, seeds, [NextPcb(picked)]);
  }

  lemma PrefixKept(trace: seq<Event>, seeds: seq<Event>, more: seq<Event>)
    requires |trace| >= |seeds| && trace[..|seeds|] == seeds
    ensures |trace + more| >= |seeds| && (trace + more)[..|seeds|] == seeds
  {
    assert (trace + more)[..|seeds|] == trace[..|seeds|];
  }

  /** The evidence entries for a probe's artifacts; an artifact that is not a dict has no `get`. */
  function EvidenceOf(artifacts: seq<Json>): Result<seq<Evidence>, Error> {
    MapResult(artifacts, (_, a: Json) =>
      if a.JObj? then Ok(Evidence(GetOr(a.fields, "probe_id", JNull), GetOr(a.fields, "result", JNull)))
      else Err(ShapeError), 0)
  }

  /**
   * The evidence the blackboard collects for the patches that ran, in order:
   * each patch's run must succeed and each of its artifacts be a dict.
   */
  function Collected(patches: seq<ProbePatch>, run: Runner): Result<seq<Evidence>, Error>
    decreases |patches|
  {
    if patches == [] then Ok([])
    else
      var earlier :- Collected(patches[..|patches| - 1], run);
      var outcome := run(patches[|patches| - 1]);
      if outcome.Err? then Err(outcome.error)
      else
        var more :- EvidenceOf(outcome.value.0);
        Ok(earlier + more)
  }

  /**
   * The probe loop from a given board, trace and probe count, as a function:
   * it returns the board or the error that escaped, and the trace of scheduler
   * and sandbox calls.
   */
  function ProbeFrom(index: map<string, Node>, maxProbes: int, next: Scheduler, run: Runner,
                     board: Board, trace: seq<Event>, probesRun: int): (Result<Board, Error>, seq<Event>)
    decreases maxProbes - probesRun
  {
    if probesRun >= maxProbes then (Ok(board), trace)
    else
      var picked := next(trace);
      if picked.None? || picked.value.suspectId !in index then (Ok(board), trace + [NextPcb(picked)])
      else
        var pcb := picked.value;
        var patch := MakeProbePatch(pcb, index[pcb.suspectId]);
        var outcome := run(patch);
        var evidence := if outcome.Ok? then EvidenceOf(outcome.value.0) else Err(outcome.error);
        if evidence.Err? then (Err(evidence.error), trace + Step(pcb, false, 0.0))
        else
          ProbeFrom(index, maxProbes, next, run,
                    board.(patches := board.patches + [patch], evidence := board.evidence + evidence.value),
                    trace + Step(pcb, true, outcome.value.1), probesRun + 1)
  }

  /** One more run's evidence extends the collected evidence. */
  lemma CollectedSnoc(patches: seq<ProbePatch>, run: Runner, evidence: seq<Evidence>, patch: ProbePatch, more: seq<Evidence>)
    requires Collected(patches, run) == Ok(evidence)
    requires run(patch).Ok? && EvidenceOf(run(patch).value.0) == Ok(more)
    ensures Collected(patches + [patch], run) == Ok(evidence + more)
  {
    assert (patches + [patch])[..|patches|] == patches;
  }

  /** The loop's trace keeps the seeds, pairs its sandboxes, answers every gain, and runs at most `maxProbes` probes. */
  lemma {:induction false} ProbeFromTracked(index: map<string, Node>, maxProbes: int, next: Scheduler, run: Runner,
                                            board: Board, trace: seq<Event>, probesRun: nat, seeds: seq<Event>)
    requires probesRun <= (if maxProbes < 0 then 0 else maxProbes) && Tracked(trace, seeds, probesRun)
    ensures var (r, t) := ProbeFrom(index, maxProbes, next, run, board, trace, probesRun);
      Probes(t) <= (if maxProbes < 0 then 0 else maxProbes) && Tracked(t, seeds, Probes(t))
    decreases maxProbes - probesRun
  {
    if probesRun < maxProbes {
      var picked := next(trace);
      if picked.None? || picked.value.suspectId !in index {
        StopTracked(trace, seeds, probesRun, picked);
      } else {
        var pcb := picked.value;
        var outcome := run(MakeProbePatch(pcb, index[pcb.suspectId]));
        var evidence := if outcome.Ok? then EvidenceOf(outcome.value.0) else Err(outcome.error);
        if evidence.Err? {
          StepTracked(trace, seeds, probesRun, pcb, false, 0.0);
        } else {
          var patch := MakeProbePatch(pcb, index[pcb.suspectId]);
          StepTracked(trace, seeds, probesRun, pcb, true, outcome.value.1);
          ProbeFromTracked(index, maxProbes, next, run,
                           board.(patches := board.patches + [patch], evidence := board.evidence + evidence.value),
                           trace + Step(pcb, true, outcome.value.1), probesRun + 1, seeds);
        }
      }
    }
  }

  /**
   * The board the loop returns keeps its suspects and holds one patch per probe
   * that ran, built from the PCB the scheduler picked and its suspect, and the
   * evidence of those runs in order.
   */
  lemma {:induction false} ProbeFromBoard(index: map<string, Node>, maxProbes: int, next: Scheduler, run: Runner,
                                          board: Board, trace: seq<Event>, probesRun: nat)
    requires Probes(trace) == probesRun == |board.patches|
    requires PatchesOf(board.patches, RanPcbs(trace), index) && Collected(board.patches, run) == Ok(board.evidence)
    ensures var (r, t) := ProbeFrom(index, maxProbes, next, run, board, trace, probesRun);
      r.Ok? ==> r.value.suspects == board.suspects && |r.value.patches| == Probes(t)
                && PatchesOf(r.value.patches, RanPcbs(t), index) && Collected(r.value.patches, run) == Ok(r.value.evidence)
    decreases maxProbes - probesRun
  {
    if probesRun < maxProbes {
      var picked := next(trace);
      if picked.None? || picked.value.suspectId !in index {
        ProbesAppend(trace, [NextPcb(picked)]);
        StopRanAppend(trace, picked);
      } else {
        var pcb := picked.value;
        var patch := MakeProbePatch(pcb, index[pcb.suspectId]);
        var outcome := run(patch);
        var evidence := if outcome.Ok? then EvidenceOf(outcome.value.0) else Err(outcome.error);
        if evidence.Ok? {
          var gain := outcome.value.1;
          var board' := board.(patches := board.patches + [patch], evidence := board.evidence + evidence.value);
          var trace' := trace + Step(pcb, true, gain);
          ProbesAppend(trace, Step(pcb, true, gain));
          StepCounts(pcb, true, gain);
          StepRanAppend(trace, pcb, true, gain);
          PatchesOfSnoc(board.patches, RanPcbs(trace), index, pcb);
          CollectedSnoc(board.patches, run, board.evidence, patch, evidence.value);
          ProbeFromBoard(index, maxProbes, next, run, board', trace', probesRun + 1);
        }
      }
    }
  }

  /** Stopping before `maxProbes` probes means the scheduler had nothing left or named an unknown suspect. */
  lemma {:induction false} ProbeFromStopsEarly(index: map<string, Node>, maxProbes: int, next: Scheduler, run: Runner,
                                               board: Board, trace: seq<Event>, probesRun: nat)
    requires Probes(trace) == probesRun
    ensures var (r, t) := ProbeFrom(index, maxProbes, next, run, board, trace, probesRun);
      r.Ok? && Probes(t) < maxProbes ==>
        |t| > 0 && t[|t| - 1].NextPcb? && (t[|t| - 1].picked.None? || t[|t| - 1].picked.value.suspectId !in index)
    decreases maxProbes - probesRun
  {
    if probesRun < maxProbes {
      var picked := next(trace);
      if picked.Some? && picked.value.suspectId in index {
        var pcb := picked.value;
        var patch := MakeProbePatch(pcb, index[pcb.suspectId]);
        var outcome := run(patch);
        var evidence := if outcome.Ok? then EvidenceOf(outcome.value.0) else Err(outcome.error);
        if evidence.Ok? {
          var gain := outcome.value.1;
          ProbesAppend(trace, Step(pcb, true, gain));
          StepCounts(pcb, true, gain);
          ProbeFromStopsEarly(index, maxProbes, next, run,
                              board.(patches := board.patches + [patch], evidence := board.evidence + evidence.value),
                              trace + Step(pcb, true, gain), probesRun + 1);
        }
      }
    }
  }

  /** The probe loop run from the seeded trace: the trace facts. */
  lemma ProbeLoopTracked(suspects: seq<Node>, seeds: seq<Event>, maxProbes: int, next: Scheduler, run: Runner,
                         r: Result<Board, Error>, trace: seq<Event>)
    requires Tracked(seeds, seeds, 0)
    requires (r, trace) == ProbeFrom(NodeIndex(suspects), maxProbes, next, run, Board(suspects, [], []), seeds, 0)
    ensures Probes(trace) <= (if maxProbes < 0 then 0 else maxProbes)
    ensures Tracked(trace, seeds, Probes(trace))
  {
    ProbeFromTracked(NodeIndex(suspects), maxProbes, next, run, Board(suspects, [], []), seeds, 0, seeds);
  }

  /** The probe loop run from the seeded trace: the board's suspects, patches and evidence. */
  lemma ProbeLoopBoard(suspects: seq<Node>, seeds: seq<Event>, maxProbes: int, next: Scheduler, run: Runner,
                       r: Result<Board, Error>, trace: seq<Event>)
    requires Probes(seeds) == 0 && RanPcbs(seeds) == []
    requires (r, trace) == ProbeFrom(NodeIndex(suspects), maxProbes, next, run, Board(suspects, [], []), seeds, 0)
    ensures r.Ok? ==> r.value.suspects == suspects && |r.value.patches| == Probes(trace)
    ensures r.Ok? ==> PatchesOf(r.value.patches, RanPcbs(trace), NodeIndex(suspects))
    ensures r.Ok? ==> Collected(r.value.patches, run) == Ok(r.value.evidence)
  {
    ProbeFromBoard(NodeIndex(suspects), maxProbes, next, run, Board(suspects, [], []), seeds, 0);
  }

  /** The probe loop run from the seeded trace: why it stopped early. */
  lemma ProbeLoopStops(suspects: seq<Node>, seeds: seq<Event>, maxProbes: int, next: Scheduler, run: Runner,
                       r: Result<Board, Error>, trace: seq<Event>)
    requires Probes(seeds) == 0
    requires (r, trace) == ProbeFrom(NodeIndex(suspects), maxProbes, next, run, Board(suspects, [], []), seeds, 0)
    ensures r.Ok? && Probes(trace) < maxProbes ==>
      |trace| > 0 && trace[|trace| - 1].NextPcb?
      && (trace[|trace| - 1].picked.None? || trace[|trace| - 1].picked.value.suspectId !in NodeIndex(suspects))
  {
    ProbeFromStopsEarly(NodeIndex(suspects), maxProbes, next, run, Board(suspects, [], []), seeds, 0);
  }

  /**
   * `run_investigations`: the suspects are published and given one PCB each;
   * then, while fewer than `maxProbes` probes have run, the scheduler picks a
   * PCB, its suspect's marker patch runs in a fresh sandbox, the patch, the
   * evidence and the gain are recorded, the PCB is preempted or boosted, and
   * the sandbox is cleaned up whether or not the run raised. The loop stops
   * when the scheduler has nothing left or names an unknown suspect.
   */
  method RunInvestigations(
    cands: seq<Candidate>, maxProbes: int, quantumOps: int, timeoutSec: int, next: Scheduler, run: Runner)
    returns (r: Result<Board, Error>, trace: seq<Event>)
    ensures Probes(trace) <= (if maxProbes < 0 then 0 else maxProbes)
    ensures Paired(SandboxEvents(trace))
    ensures GainsAnswered(trace)
    ensures var suspects := TopSuspectsOf(cands, TopSuspects);
      |trace| >= |suspects| && trace[..|suspects|] == Seeds(suspects, quantumOps, timeoutSec)
    ensures r.Ok? ==> r.value.suspects == TopSuspectsOf(cands, TopSuspects) && |r.value.patches| == Probes(trace)
    ensures r.Ok? ==> PatchesOf(r.value.patches, RanPcbs(trace), NodeIndex(TopSuspectsOf(cands, TopSuspects)))
    ensures r.Ok? ==> Collected(r.value.patches, run) == Ok(r.value.evidence)
    ensures var suspects := TopSuspectsOf(cands, TopSuspects);
      (r, trace) == ProbeFrom(NodeIndex(suspects), maxProbes, next, run, Board(suspects, [], []),
                              Seeds(suspects, quantumOps, timeoutSec), 0)
    ensures r.Ok? && Probes(trace) < maxProbes ==>
      |trace| > 0 && trace[|trace| - 1].NextPcb?
      && (trace[|trace| - 1].picked.None?
          || trace[|trace| - 1].picked.value.suspectId !in NodeIndex(TopSuspectsOf(cands, TopSuspects)))
  {
    var suspects := CandidatesToSuspects(cands, TopSuspects);
    var seeds := Seeds(suspects, quantumOps, timeoutSec);
    SeedFacts(seeds, suspects, quantumOps, timeoutSec);
    assert seeds[..|seeds|] == seeds;
    r, trace := ProbeLoop(suspects, seeds, maxProbes, next, run);
    ProbeLoopTracked(suspects, seeds, maxProbes, next, run, r, trace);
    ProbeLoopBoard(suspects, seeds, maxProbes, next, run, r, trace);
    ProbeLoopStops(suspects, seeds, maxProbes, next, run, r, trace);
  }

  /** The probe loop of `run_investigations`, after the suspects were published and seeded. */
  method ProbeLoop(suspects: seq<Node>, seeds: seq<Event>, maxProbes: int, next: Scheduler, run: Runner)
    returns (r: Result<Board, Error>, trace: seq<Event>)
    ensures (r, trace) == ProbeFrom(NodeIndex(suspects), maxProbes, next, run, Board(suspects, [], []), seeds, 0)
  {
    var board := Board(suspects, [], []);
    var index := NodeIndex(suspects);
    trace := seeds;
    var probesRun := 0;
    while probesRun < maxProbes
      invariant ProbeFrom(index, maxProbes, next, run, board, trace, probesRun)
             == ProbeFrom(index, maxProbes, next, run, Board(suspects, [], []), seeds, 0)
      decreases maxProbes - probesRun
    {
      var picked := next(trace);
      if picked.None? || picked.value.suspectId !in index {
        trace := trace + [NextPcb(picked)];
        return Ok(board), trace;
      }
      var pcb := picked.value;
      var node := index[pcb.suspectId];
      var patch := MakeProbePatch(pcb, node);
      var outcome := run(patch);
      var evidence := if outcome.Ok? then EvidenceOf(outcome.value.0) else Err(outcome.error);
      if evidence.Err? {
        trace := trace + Step(pcb, false, 0.0);
        return Err(evidence.error), trace;
      }
      var gain := outcome.value.1;
      board := board.(patches := board.patches + [patch], evidence := board.evidence + evidence.value);
      trace := trace + Step(pcb, true, gain);
      probesRun := probesRun + 1;
    }
    r := Ok(board);
  }
}
