/**
 * The transactional no-regression executor of tnr.py. A transaction takes a
 * checkpoint, then tries the proposals in order: each is validated, applied
 * to the working tree and passed through the enabled gates (mu, static checks,
 * targeted tests). The first one that passes is committed; every failure after
 * applying reverts to the checkpoint, and when nothing commits the repository is
 * reverted as well.
 *
 * `git diff --numstat`, the static checks and the targeted test run are oracles
 * over the trees they look at, and `git apply` is the oracle `ApplyDiff` falls back from.
 */
module Tnr {
  import opened Wrappers
  import opened Text
  import opened Json
  import opened Types
  import opened Config
  import opened Validate
  import opened Vcs

  // ---------------------------------------------------------------------------
  // _measure_mu

  /** One numstat line's share: half its added plus removed lines, when both counts are numbers. */
  function LineMu(line: string): nat {
    var parts := SplitWs(line);
    if |parts| >= 3 && IsDigits(parts[0]) && IsDigits(parts[1]) then
      (DigitsValue(parts[0]) + DigitsValue(parts[1])) / 2
    else 0
  }

  /** The fold `_measure_mu` runs over the lines of the numstat output. */
  function MuOf(lines: seq<string>): nat
    decreases |lines|
  {
    if lines == [] then 0 else LineMu(lines[0]) + MuOf(lines[1..])
  }

  /** `_measure_mu` on the text `git diff --numstat` printed. */
  function MeasureMu(numstat: string): nat {
    MuOf(Lines(numstat))
  }

  /** The fold adds up: the output of several files is the sum of theirs. */
  lemma {:induction false} MuOfAppend(a: seq<string>, b: seq<string>)
    ensures MuOf(a + b) == MuOf(a) + MuOf(b)
    decreases |a|
  {
    if a == [] {
      assert a + b == b;
    } else {
      assert (a + b)[1..] == a[1..] + b;
      MuOfAppend(a[1..], b);
    }
  }

  /** The line `git diff --numstat` prints for one file: added, removed and path, tab-separated. */
  function NumstatLine(added: string, removed: string, path: string): string {
    added + ['\t'] + (removed + ['\t'] + path)
  }

  /** The line for a text file with `added` and `removed` lines counts half their sum. */
  lemma NumstatLineMu(added: nat, removed: nat, path: string)
    requires path != [] && NoSpace(path)
    ensures LineMu(NumstatLine(NatToString(added), NatToString(removed), path)) == (added + removed) / 2
  {
    NatToStringNoSpace(added);
    NatToStringNoSpace(removed);
    NatToStringRoundTrip(added);
    NatToStringRoundTrip(removed);
    SplitWsThree(NatToString(added), NatToString(removed), path);
  }

  /** A binary file's line, with "-" for both counts, counts nothing. */
  lemma BinaryLineMu(path: string)
    requires path != [] && NoSpace(path)
    ensures LineMu(NumstatLine("-", "-", path)) == 0
  {
    var dash := "-";
    assert NoSpace(dash);
    SplitWsThree(dash, dash, path);
    assert !IsDigit(dash[0]);
  }

  // ---------------------------------------------------------------------------
  // TransactionResult and the oracles

  datatype TransactionResult = TransactionResult(
    committed: bool,
    appliedDiff: Option<DiffProposal>,
    muPre: nat,
    muPost: nat,
    logs: seq<string>)

  /** How `txn_patch` ends: with a result, or with an exception it does not catch. */
  datatype Outcome = Done(result: TransactionResult) | Raised(error: Error)

  /**
   * The outside world of a transaction: `git apply`, `git diff --numstat`
   * between HEAD's tree and the working tree, the static checks, and the
   * targeted test command, each returning its success flag and output.
   */
  datatype Env = Env(
    gitApply: (string, Tree) -> Option<Tree>,
    numstat: (Tree, Tree) -> string,
    staticChecks: Tree -> (bool, string),
    targetedTests: (string, Tree) -> (bool, string))

  /**
   * `_measure_mu(repo_path)`: the numstat of the working tree. Git compares it
   * with the index; the model has no index and passes HEAD's tree in its place.
   */
  function Mu(s: RepoState, env: Env): nat
    requires s.Valid()
  {
    MeasureMu(env.numstat(s.HeadTree(), s.tree))
  }

  /** `max(1, config.tnr.actions_per_txn)`: how many proposals a transaction may try. */
  function Budget(cfg: Config): (b: nat)
    ensures b >= 1 && b >= cfg.tnr.actionsPerTxn
  {
    if cfg.tnr.actionsPerTxn >= 1 then cfg.tnr.actionsPerTxn else 1
  }

  /** A log line: what failed, then the stripped output of the command. */
  function Failing(what: string, output: string): string {
    what + Strip(output)
  }

  const BudgetMessage: string := "Reached transaction action budget; stopping attempts."

  function WorsenedMessage(muPre: nat, mu: nat): string {
    "mu worsened from " + NatToString(muPre) + " to " + NatToString(mu) + "; rolling back."
  }

  // ---------------------------------------------------------------------------
  // txn_patch, as a function of the repository state

  /** mu before any proposal, and the log line a failing baseline leaves. */
  function Baseline(ctx: TaskContext, cfg: Config, env: Env, s: RepoState): (r: (nat, seq<string>))
    requires s.Valid()
    ensures cfg.gates.targetedTests ==> r.0 <= 1
    ensures !cfg.gates.targetedTests ==> r.0 == Mu(s, env) && r.1 == []
  {
    if cfg.gates.targetedTests then
      var run := env.targetedTests(ctx.testCmd, s.tree);
      if run.0 then (0, []) else (1, [Failing("baseline targeted tests failing: ", run.1)])
    else (Mu(s, env), [])
  }

  /** What one attempt leads to: the next proposal, with the logs and state so far, or the end. */
  datatype Step = Next(logs: seq<string>, state: RepoState) | Stop(outcome: Outcome, state: RepoState)

  /** `ensure_within_limits` as the transaction calls it: the step's span files are the allowed files. */
  function Validation(step: PlanStep, cfg: Config, p: DiffProposal): Option<Rejection> {
    EnsureWithinLimits(p.unifiedDiff, SpanFiles(step.targetSpans), cfg.limits.maxLocChanges,
      cfg.limits.maxFilesPerDiff, step.targetSpans)
  }

  /** Everything gates a proposal whose diff is applied, in the order the source checks it. */
  predicate GatesPass(ctx: TaskContext, cfg: Config, env: Env, muPre: nat, applied: RepoState)
    requires applied.Valid()
  {
    (!cfg.gates.targetedTests && cfg.tnr.requireMuNonworsening ==> Mu(applied, env) <= muPre)
    && (cfg.gates.staticChecks ==> env.staticChecks(applied.tree).0)
    && (cfg.gates.targetedTests ==> env.targetedTests(ctx.testCmd, applied.tree).0)
  }

  /** The gates after a successful apply, then the commit. */
  function Gate(ctx: TaskContext, step: PlanStep, p: DiffProposal, cfg: Config, env: Env,
                head: nat, muPre: nat, logs: seq<string>, applied: RepoState): (r: Step)
    requires applied.Valid() && head < |applied.commits|
    ensures r.state.Valid()
    ensures r.Next? ==> !GatesPass(ctx, cfg, env, muPre, applied) && r.state == RevertTo(applied, head)
    ensures r.Stop? && r.outcome.Done? ==>
      GatesPass(ctx, cfg, env, muPre, applied) && r.outcome.result == TransactionResult(true, Some(p), muPre, r.outcome.result.muPost, logs)
      && CommitAll(applied, "txn:" + step.id).Ok? && r.state == CommitAll(applied, "txn:" + step.id).value
    ensures r.Stop? && r.outcome.Raised? ==> r.state == applied
  {
    var targeted := cfg.gates.targetedTests;
    var requireMu := cfg.tnr.requireMuNonworsening;
    var muCandidate := if targeted then 0 else Mu(applied, env);
    if !targeted && requireMu && muCandidate > muPre then
      Next(logs + [WorsenedMessage(muPre, muCandidate)], RevertTo(applied, head))
    else if cfg.gates.staticChecks && !env.staticChecks(applied.tree).0 then
      Next(logs + [Failing("static checks failed: ", env.staticChecks(applied.tree).1)], RevertTo(applied, head))
    else if targeted && !env.targetedTests(ctx.testCmd, applied.tree).0 then
      Next(logs + [Failing("targeted tests failed: ", env.targetedTests(ctx.testCmd, applied.tree).1)], RevertTo(applied, head))
    else
      var muPost := muCandidate;
      // The second mu check (tnr.py:106) never fires: the first one already
      // rejected a worse mu, and with the targeted tests mu_post is 0.
      assert !(requireMu && muPost > muPre);
      var committed := CommitAll(applied, "txn:" + step.id);
      if committed.Err? then Stop(Raised(committed.error), applied)
      else Stop(Done(TransactionResult(true, Some(p), muPre, muPost, logs)), committed.value)
  }

  /**
   * Proposal `p`, applied to the working tree `t` of the repository `s`,
   * passed validation and every enabled gate, and `final` is its commit on top
   * of `s`'s history with the message "txn:" and the step's id.
   */
  ghost predicate CommittedFrom(ctx: TaskContext, step: PlanStep, cfg: Config, env: Env, muPre: nat,
                                s: RepoState, p: DiffProposal, t: Tree, final: RepoState)
    requires s.Valid()
  {
    var a := ApplyDiff(p.unifiedDiff, t, env.gitApply);
    var applied := s.(tree := a.tree);
    Validation(step, cfg, p).None? && a.error.None? && GatesPass(ctx, cfg, env, muPre, applied)
    && a.tree != s.HeadTree()
    && final == RepoState(a.tree, s.commits + [a.tree], s.messages + ["txn:" + step.id], |s.commits|)
  }

  /** One attempt: validate, apply, then gate. */
  function Attempt(ctx: TaskContext, step: PlanStep, p: DiffProposal, cfg: Config, env: Env,
                   head: nat, muPre: nat, logs: seq<string>, s: RepoState): (r: Step)
    requires s.Valid() && head < |s.commits|
    ensures r.state.Valid()
    ensures r.Next? ==> r.state.commits == s.commits && r.state.messages == s.messages
    ensures r.Stop? ==> Validation(step, cfg, p).None?
    ensures r.Stop? && r.outcome.Raised? ==> r.state.commits == s.commits && r.state.messages == s.messages
    ensures r.Stop? && r.outcome.Done? ==>
      r.outcome.result.committed && r.outcome.result.appliedDiff == Some(p) && r.outcome.result.muPre == muPre
      && CommittedFrom(ctx, step, cfg, env, muPre, s, p, s.tree, r.state)
    ensures r.Next? && Validation(step, cfg, p).Some? ==>
      r.state == s && r.logs == logs + ["validation failed: " + Message(Validation(step, cfg, p).value)]
    ensures r.Next? && Validation(step, cfg, p).None? ==> r.state == RevertTo(s, head)
  {
    var rejection := Validation(step, cfg, p);
    if rejection.Some? then Next(logs + ["validation failed: " + Message(rejection.value)], s)
    else
      var a := ApplyDiff(p.unifiedDiff, s.tree, env.gitApply);
      var applied := s.(tree := a.tree);
      if a.error.Some? then Stop(Raised(a.error.value), applied)
      else Gate(ctx, step, p, cfg, env, head, muPre, logs, applied)
  }

  /** The end of the loop without a commit: revert, and report mu unchanged. */
  function GiveUp(head: nat, muPre: nat, logs: seq<string>, s: RepoState): (r: (Outcome, RepoState))
    requires s.Valid() && head < |s.commits|
    ensures r.1 == RevertTo(s, head) && r.0.Done? && !r.0.result.committed
  {
    (Done(TransactionResult(false, None, muPre, muPre, logs)), RevertTo(s, head))
  }

  /** The loop from proposal `k` (attempt `k + 1`) on. */
  function TxnFrom(ctx: TaskContext, step: PlanStep, proposals: seq<DiffProposal>, cfg: Config, env: Env,
                   head: nat, muPre: nat, logs: seq<string>, k: nat, s: RepoState): (r: (Outcome, RepoState))
    requires s.Valid() && head < |s.commits|
    ensures r.1.Valid()
    decreases |proposals| - k
  {
    if k >= |proposals| then GiveUp(head, muPre, logs, s)
    else if k + 1 > Budget(cfg) then GiveUp(head, muPre, logs + [BudgetMessage], s)
    else
      var r := Attempt(ctx, step, proposals[k], cfg, env, head, muPre, logs, s);
      if r.Stop? then (r.outcome, r.state)
      else TxnFrom(ctx, step, proposals, cfg, env, head, muPre, r.logs, k + 1, r.state)
  }

  /** `txn_patch`: the checkpoint is HEAD, the baseline is measured, then the proposals are tried in order. */
  function Txn(ctx: TaskContext, step: PlanStep, proposals: seq<DiffProposal>, cfg: Config, env: Env,
               s: RepoState): (r: (Outcome, RepoState))
    requires s.Valid()
    ensures r.1.Valid()
  {
    var (muPre, logs) := Baseline(ctx, cfg, env, s);
    TxnFrom(ctx, step, proposals, cfg, env, s.head, muPre, logs, 0, s)
  }

  // ---------------------------------------------------------------------------
  // txn_patch on the repository object

  /** The gates and the commit on the repository, as `Gate` describes them. */
  method GateOn(repo: Repository, ctx: TaskContext, step: PlanStep, p: DiffProposal, cfg: Config, env: Env,
                head: nat, muPre: nat, logs: seq<string>) returns (r: Step)
    requires repo.Valid() && head < |repo.commits|
    modifies repo
    ensures repo.Valid() && repo.State() == r.state
    ensures r == Gate(ctx, step, p, cfg, env, head, muPre, logs, old(repo.State()))
  {
    var targeted := cfg.gates.targetedTests;
    var muCandidate := 0;
    if !targeted {
      muCandidate := MeasureMu(env.numstat(repo.commits[repo.head], repo.tree));
      if cfg.tnr.requireMuNonworsening && muCandidate > muPre {
        repo.Revert(head);
        return Next(logs + [WorsenedMessage(muPre, muCandidate)], repo.State());
      }
    }
    if cfg.gates.staticChecks {
      var (ok, output) := env.staticChecks(repo.tree);
      if !ok {
        repo.Revert(head);
        return Next(logs + [Failing("static checks failed: ", output)], repo.State());
      }
    }
    var muPost := muCandidate;
    if targeted {
      var (ok, output) := env.targetedTests(ctx.testCmd, repo.tree);
      muPost := if ok then 0 else 1;
      if !ok {
        repo.Revert(head);
        return Next(logs + [Failing("targeted tests failed: ", output)], repo.State());
      }
    }
    if cfg.tnr.requireMuNonworsening && muPost > muPre {
      // the second mu check of tnr.py:106 cannot fire
      assert false;
    }
    var err := repo.Commit("txn:" + step.id);
    if err.Some? {
      return Stop(Raised(err.value), repo.State());
    }
    r := Stop(Done(TransactionResult(true, Some(p), muPre, muPost, logs)), repo.State());
  }

  /** One attempt on the repository, as `Attempt` describes it. */
  method AttemptOn(repo: Repository, ctx: TaskContext, step: PlanStep, p: DiffProposal, cfg: Config, env: Env,
                   head: nat, muPre: nat, logs: seq<string>) returns (r: Step)
    requires repo.Valid() && head < |repo.commits|
    modifies repo
    ensures repo.Valid() && repo.State() == r.state
    ensures r == Attempt(ctx, step, p, cfg, env, head, muPre, logs, old(repo.State()))
  {
    var rejection := Validation(step, cfg, p);
    if rejection.Some? {
      return Next(logs + ["validation failed: " + Message(rejection.value)], repo.State());
    }
    var err := repo.Apply(p.unifiedDiff, env.gitApply);
    if err.Some? {
      return Stop(Raised(err.value), repo.State());
    }
    r := GateOn(repo, ctx, step, p, cfg, env, head, muPre, logs);
  }

  /** The baseline measurement on the repository, as `Baseline` describes it. */
  method BaselineOn(repo: Repository, ctx: TaskContext, cfg: Config, env: Env) returns (muPre: nat, logs: seq<string>)
    requires repo.Valid()
    ensures (muPre, logs) == Baseline(ctx, cfg, env, repo.State())
  {
    if cfg.gates.targetedTests {
      var (ok, output) := env.targetedTests(ctx.testCmd, repo.tree);
      if ok {
        muPre, logs := 0, [];
      } else {
        muPre, logs := 1, [Failing("baseline targeted tests failing: ", output)];
      }
    } else {
      muPre, logs := MeasureMu(env.numstat(repo.commits[repo.head], repo.tree)), [];
    }
  }

  /** `txn_patch`: its outcome and the repository it leaves are those `Txn` describes. */
  method TxnPatch(repo: Repository, ctx: TaskContext, step: PlanStep, proposals: seq<DiffProposal>,
                  cfg: Config, env: Env) returns (outcome: Outcome)
    requires repo.Valid()
    modifies repo
    ensures repo.Valid()
    ensures (outcome, repo.State()) == Txn(ctx, step, proposals, cfg, env, old(repo.State()))
  {
    ghost var s0 := repo.State();
    var head := repo.Checkpoint();
    var muPre, logs := BaselineOn(repo, ctx, cfg, env);
    var k := 0;
    while k < |proposals|
      invariant k <= |proposals|
      invariant repo.Valid() && repo.commits == s0.commits && head < |repo.commits|
      invariant TxnFrom(ctx, step, proposals, cfg, env, head, muPre, logs, k, repo.State())
             == Txn(ctx, step, proposals, cfg, env, s0)
      decreases |proposals| - k
    {
      if k + 1 > Budget(cfg) {
        TxnFromGiveUp(ctx, step, proposals, cfg, env, head, muPre, logs, k, repo.State());
        logs := logs + [BudgetMessage];
        break;
      }
      ghost var s := repo.State();
      var r := AttemptOn(repo, ctx, step, proposals[k], cfg, env, head, muPre, logs);
      TxnFromAttempt(ctx, step, proposals, cfg, env, head, muPre, logs, k, s, r);
      if r.Stop? {
        return r.outcome;
      }
      logs := r.logs;
      k := k + 1;
    }
    if k >= |proposals| {
      TxnFromGiveUp(ctx, step, proposals, cfg, env, head, muPre, logs, k, repo.State());
    }
    repo.Revert(head);
    outcome := Done(TransactionResult(false, None, muPre, muPre, logs));
  }

  /** The loop once the proposals or the budget are used up. */
  lemma TxnFromGiveUp(ctx: TaskContext, step: PlanStep, proposals: seq<DiffProposal>, cfg: Config, env: Env,
                      head: nat, muPre: nat, logs: seq<string>, k: nat, s: RepoState)
    requires s.Valid() && head < |s.commits| && (k >= |proposals| || k + 1 > Budget(cfg))
    ensures TxnFrom(ctx, step, proposals, cfg, env, head, muPre, logs, k, s)
         == GiveUp(head, muPre, if k >= |proposals| then logs else logs + [BudgetMessage], s)
  {
  }

  /** The loop after attempt `k + 1`: it stops with that attempt or goes on from its state and logs. */
  lemma TxnFromAttempt(ctx: TaskContext, step: PlanStep, proposals: seq<DiffProposal>, cfg: Config, env: Env,
                       head: nat, muPre: nat, logs: seq<string>, k: nat, s: RepoState, r: Step)
    requires s.Valid() && head < |s.commits| && k < |proposals| && k + 1 <= Budget(cfg)
    requires r == Attempt(ctx, step, proposals[k], cfg, env, head, muPre, logs, s)
    ensures r.state.Valid() && (r.Next? ==> r.state.commits == s.commits)
    ensures r.Stop? ==> TxnFrom(ctx, step, proposals, cfg, env, head, muPre, logs, k, s) == (r.outcome, r.state)
    ensures r.Next? ==>
      TxnFrom(ctx, step, proposals, cfg, env, head, muPre, logs, k, s)
      == TxnFrom(ctx, step, proposals, cfg, env, head, muPre, r.logs, k + 1, r.state)
  {
  }

  // ---------------------------------------------------------------------------
  // What a transaction promises

  /**
   * A state the loop can be in before an attempt: the checkpoint's history with
   * HEAD at the checkpoint, and either the starting working tree (nothing was
   * applied yet) or the checkpoint's tree (after a revert).
   */
  ghost predicate Between(s0: RepoState, s: RepoState) {
    s0.Valid() && s.Valid() && s.commits == s0.commits && s.messages == s0.messages && s.head == s0.head
    && (s.tree == s0.tree || s.tree == s0.HeadTree())
  }

  lemma {:induction false} TxnFromOutcomes(ctx: TaskContext, step: PlanStep, proposals: seq<DiffProposal>, cfg: Config,
                                           env: Env, muPre: nat, logs: seq<string>, k: nat, s0: RepoState, s: RepoState)
    requires Between(s0, s)
    ensures var (o, t) := TxnFrom(ctx, step, proposals, cfg, env, s0.head, muPre, logs, k, s);
      o.Done? && o.result.committed ==>
        exists j :: k <= j < |proposals| && j < Budget(cfg) && o.result.appliedDiff == Some(proposals[j])
          && (CommittedFrom(ctx, step, cfg, env, muPre, s0, proposals[j], s0.tree, t)
              || CommittedFrom(ctx, step, cfg, env, muPre, s0, proposals[j], s0.HeadTree(), t))
    ensures var (o, t) := TxnFrom(ctx, step, proposals, cfg, env, s0.head, muPre, logs, k, s);
      o.Done? && !o.result.committed ==>
        t == RevertTo(s0, s0.head) && o.result.appliedDiff == None && o.result.muPost == muPre
    ensures var (o, t) := TxnFrom(ctx, step, proposals, cfg, env, s0.head, muPre, logs, k, s);
      o.Raised? ==> t.commits == s0.commits && t.messages == s0.messages
    ensures var (o, t) := TxnFrom(ctx, step, proposals, cfg, env, s0.head, muPre, logs, k, s);
      o.Done? ==> o.result.muPre == muPre
    decreases |proposals| - k
  {
    var head := s0.head;
    if k < |proposals| && k + 1 <= Budget(cfg) {
      var r := Attempt(ctx, step, proposals[k], cfg, env, head, muPre, logs, s);
      if r.Stop? {
        if r.outcome.Done? {
          assert s.(tree := ApplyDiff(proposals[k].unifiedDiff, s.tree, env.gitApply).tree)
              == s0.(tree := ApplyDiff(proposals[k].unifiedDiff, s.tree, env.gitApply).tree);
          assert CommittedFrom(ctx, step, cfg, env, muPre, s0, proposals[k], s.tree, r.state);
        }
      } else {
        assert Between(s0, r.state);
        TxnFromOutcomes(ctx, step, proposals, cfg, env, muPre, r.logs, k + 1, s0, r.state);
      }
    }
  }

  /**
   * A commit happens only for one of the proposals within the budget that
   * passed validation and every enabled gate after being applied to the
   * working tree, and the commit is the new HEAD with message "txn:" + the step's id.
   */
  lemma TxnCommitsOnlyAfterGates(ctx: TaskContext, step: PlanStep, proposals: seq<DiffProposal>, cfg: Config,
                                 env: Env, s: RepoState)
    requires s.Valid()
    ensures var (o, t) := Txn(ctx, step, proposals, cfg, env, s);
      var muPre := Baseline(ctx, cfg, env, s).0;
      o.Done? && o.result.committed ==>
        exists j :: 0 <= j < |proposals| && j < Budget(cfg) && o.result.appliedDiff == Some(proposals[j])
          && (CommittedFrom(ctx, step, cfg, env, muPre, s, proposals[j], s.tree, t)
              || CommittedFrom(ctx, step, cfg, env, muPre, s, proposals[j], s.HeadTree(), t))
  {
    var (muPre, logs) := Baseline(ctx, cfg, env, s);
    TxnFromOutcomes(ctx, step, proposals, cfg, env, muPre, logs, 0, s, s);
  }

  /** When nothing commits, the repository is back at the checkpoint and mu is reported unchanged. */
  lemma TxnNoCommitReverts(ctx: TaskContext, step: PlanStep, proposals: seq<DiffProposal>, cfg: Config,
                           env: Env, s: RepoState)
    requires s.Valid()
    ensures var (o, t) := Txn(ctx, step, proposals, cfg, env, s);
      o.Done? && !o.result.committed ==>
        t == RevertTo(s, s.head) && o.result.appliedDiff == None
        && o.result.muPre == o.result.muPost == Baseline(ctx, cfg, env, s).0
  {
    var (muPre, logs) := Baseline(ctx, cfg, env, s);
    TxnFromOutcomes(ctx, step, proposals, cfg, env, muPre, logs, 0, s, s);
  }

  /** An attempt whose proposal validates, applies, passes the gates and changes the tree commits it. */
  lemma AttemptCommits(ctx: TaskContext, step: PlanStep, p: DiffProposal, cfg: Config, env: Env,
                       muPre: nat, logs: seq<string>, s: RepoState, final: RepoState)
    requires s.Valid() && CommittedFrom(ctx, step, cfg, env, muPre, s, p, s.tree, final)
    ensures var r := Attempt(ctx, step, p, cfg, env, s.head, muPre, logs, s);
      r.Stop? && r.outcome.Done? && r.outcome.result.committed && r.outcome.result.appliedDiff == Some(p)
      && r.state == final
  {
    var a := ApplyDiff(p.unifiedDiff, s.tree, env.gitApply);
    var applied := s.(tree := a.tree);
    assert applied.HeadTree() == s.HeadTree();
    var r := Attempt(ctx, step, p, cfg, env, s.head, muPre, logs, s);
    assert r == Gate(ctx, step, p, cfg, env, s.head, muPre, logs, applied);
    assert CommitAll(applied, "txn:" + step.id) == Ok(final);
  }

  /**
   * The converse for the first proposal: when it validates, applies cleanly,
   * passes every enabled gate and changes the tree, the transaction commits it.
   */
  lemma TxnCommitsPassingProposal(ctx: TaskContext, step: PlanStep, proposals: seq<DiffProposal>, cfg: Config,
                                  env: Env, s: RepoState, final: RepoState)
    requires s.Valid() && |proposals| > 0
    requires CommittedFrom(ctx, step, cfg, env, Baseline(ctx, cfg, env, s).0, s, proposals[0], s.tree, final)
    ensures var (o, t) := Txn(ctx, step, proposals, cfg, env, s);
      o.Done? && o.result.committed && o.result.appliedDiff == Some(proposals[0]) && t == final
  {
    var (muPre, logs) := Baseline(ctx, cfg, env, s);
    AttemptCommits(ctx, step, proposals[0], cfg, env, muPre, logs, s, final);
  }

  /** The log after proposals `k` to `j - 1` were all rejected by validation. */
  function RejectedLogs(step: PlanStep, cfg: Config, proposals: seq<DiffProposal>, logs: seq<string>, k: nat, j: nat): seq<string>
    requires j <= |proposals|
    requires forall i :: k <= i < j ==> Validation(step, cfg, proposals[i]).Some?
    decreases j - k
  {
    if k >= j then logs
    else RejectedLogs(step, cfg, proposals, logs + ["validation failed: " + Message(Validation(step, cfg, proposals[k]).value)], k + 1, j)
  }

  /** Proposals that fail validation leave the repository alone: the loop moves on with a log line each. */
  lemma {:induction false} TxnFromSkipsRejected(ctx: TaskContext, step: PlanStep, proposals: seq<DiffProposal>,
                                                cfg: Config, env: Env, head: nat, muPre: nat, logs: seq<string>,
                                                k: nat, j: nat, s: RepoState)
    requires s.Valid() && head < |s.commits| && k <= j < |proposals| && j < Budget(cfg)
    requires forall i :: k <= i < j ==> Validation(step, cfg, proposals[i]).Some?
    ensures TxnFrom(ctx, step, proposals, cfg, env, head, muPre, logs, k, s)
         == TxnFrom(ctx, step, proposals, cfg, env, head, muPre, RejectedLogs(step, cfg, proposals, logs, k, j), j, s)
    decreases j - k
  {
    if k < j {
      var r := Attempt(ctx, step, proposals[k], cfg, env, head, muPre, logs, s);
      assert r == Next(logs + ["validation failed: " + Message(Validation(step, cfg, proposals[k]).value)], s);
      TxnFromSkipsRejected(ctx, step, proposals, cfg, env, head, muPre, r.logs, k + 1, j, s);
    }
  }

  /**
   * The first proposal within the budget that passes is committed, after any
   * number of earlier proposals that validation rejected.
   */
  lemma TxnCommitsFirstPassing(ctx: TaskContext, step: PlanStep, proposals: seq<DiffProposal>, cfg: Config,
                               env: Env, s: RepoState, j: nat, final: RepoState)
    requires s.Valid() && j < |proposals| && j < Budget(cfg)
    requires forall i :: 0 <= i < j ==> Validation(step, cfg, proposals[i]).Some?
    requires CommittedFrom(ctx, step, cfg, env, Baseline(ctx, cfg, env, s).0, s, proposals[j], s.tree, final)
    ensures var (o, t) := Txn(ctx, step, proposals, cfg, env, s);
      o.Done? && o.result.committed && o.result.appliedDiff == Some(proposals[j]) && t == final
  {
    var (muPre, logs) := Baseline(ctx, cfg, env, s);
    TxnFromSkipsRejected(ctx, step, proposals, cfg, env, s.head, muPre, logs, 0, j, s);
    AttemptCommits(ctx, step, proposals[j], cfg, env, muPre, RejectedLogs(step, cfg, proposals, logs, 0, j), s, final);
  }

  /** An error that escapes the transaction leaves the history as it was: nothing was committed. */
  lemma TxnRaisedKeepsHistory(ctx: TaskContext, step: PlanStep, proposals: seq<DiffProposal>, cfg: Config,
                              env: Env, s: RepoState)
    requires s.Valid()
    ensures var (o, t) := Txn(ctx, step, proposals, cfg, env, s);
      o.Raised? ==> t.commits == s.commits && t.messages == s.messages
  {
    var (muPre, logs) := Baseline(ctx, cfg, env, s);
    TxnFromOutcomes(ctx, step, proposals, cfg, env, muPre, logs, 0, s, s);
  }

  lemma {:induction false} TxnFromBudget(ctx: TaskContext, step: PlanStep, p: seq<DiffProposal>, q: seq<DiffProposal>,
                                         cfg: Config, env: Env, head: nat, muPre: nat, logs: seq<string>, k: nat, s: RepoState)
    requires s.Valid() && head < |s.commits|
    requires |p| > Budget(cfg) && |q| > Budget(cfg) && p[..Budget(cfg)] == q[..Budget(cfg)] && k <= Budget(cfg)
    ensures TxnFrom(ctx, step, p, cfg, env, head, muPre, logs, k, s) == TxnFrom(ctx, step, q, cfg, env, head, muPre, logs, k, s)
    decreases |p| - k
  {
    if k < Budget(cfg) {
      assert p[k] == p[..Budget(cfg)][k] == q[..Budget(cfg)][k] == q[k];
      var r := Attempt(ctx, step, p[k], cfg, env, head, muPre, logs, s);
      if r.Next? {
        TxnFromBudget(ctx, step, p, q, cfg, env, head, muPre, r.logs, k + 1, r.state);
      }
    }
  }

  /**
   * Proposals past the budget are never validated or applied: two proposal
   * lists that both run past the budget and agree up to it lead to the same
   * outcome and the same repository.
   */
  lemma TxnIgnoresLaterProposals(ctx: TaskContext, step: PlanStep, p: seq<DiffProposal>, q: seq<DiffProposal>,
                                 cfg: Config, env: Env, s: RepoState)
    requires s.Valid()
    requires |p| > Budget(cfg) && |q| > Budget(cfg) && p[..Budget(cfg)] == q[..Budget(cfg)]
    ensures Txn(ctx, step, p, cfg, env, s) == Txn(ctx, step, q, cfg, env, s)
  {
    var (muPre, logs) := Baseline(ctx, cfg, env, s);
    TxnFromBudget(ctx, step, p, q, cfg, env, s.head, muPre, logs, 0, s);
  }

  /**
   * With the targeted tests on, a candidate whose targeted tests (and static
   * checks, when enabled) pass is never rolled back for mu: the attempt ends
   * there, and a commit reports mu 0.
   */
  lemma TargetedPassNeverRolledBack(ctx: TaskContext, step: PlanStep, p: DiffProposal, cfg: Config, env: Env,
                                    head: nat, muPre: nat, logs: seq<string>, applied: RepoState)
    requires applied.Valid() && head < |applied.commits|
    requires cfg.gates.targetedTests && env.targetedTests(ctx.testCmd, applied.tree).0
    requires cfg.gates.staticChecks ==> env.staticChecks(applied.tree).0
    ensures var r := Gate(ctx, step, p, cfg, env, head, muPre, logs, applied);
      r.Stop? && (r.outcome.Done? ==> r.outcome.result.muPost == 0 && r.outcome.result.logs == logs)
  {
  }

  /** With the targeted tests off and non-worsening required, a worse mu is rolled back with its log line. */
  lemma WorseMuRolledBack(ctx: TaskContext, step: PlanStep, p: DiffProposal, cfg: Config, env: Env,
                          head: nat, muPre: nat, logs: seq<string>, applied: RepoState)
    requires applied.Valid() && head < |applied.commits|
    requires !cfg.gates.targetedTests && cfg.tnr.requireMuNonworsening && Mu(applied, env) > muPre
    ensures Gate(ctx, step, p, cfg, env, head, muPre, logs, applied)
         == Next(logs + [WorsenedMessage(muPre, Mu(applied, env))], RevertTo(applied, head))
  {
  }

  // ---------------------------------------------------------------------------
  // txn_patch as written

  /** The error of tnr.py:63-70: `ensure_within_limits` declares no `padding_lines` parameter. */
  const PaddingLinesError: Error := TypeError("ensure_within_limits() got an unexpected keyword argument 'padding_lines'")

  /**
   * `txn_patch` exactly as written: the call to `ensure_within_limits` in the
   * first attempt raises before validating anything, so the repository is left
   * as the baseline found it. With no proposals the loop never runs.
   */
  function TxnAsWritten(ctx: TaskContext, step: PlanStep, proposals: seq<DiffProposal>, cfg: Config, env: Env,
                        s: RepoState): (r: (Outcome, RepoState))
    requires s.Valid()
  {
    var (muPre, logs) := Baseline(ctx, cfg, env, s);
    if |proposals| == 0 then GiveUp(s.head, muPre, logs, s)
    else (Raised(PaddingLinesError), s)
  }

  /**
   * As written, no transaction with a proposal ever commits or even applies a
   * diff, while the intended transaction commits whenever one proposal passes.
   */
  lemma PaddingLinesNeverCommits(ctx: TaskContext, step: PlanStep, proposals: seq<DiffProposal>, cfg: Config,
                                 env: Env, s: RepoState)
    requires s.Valid() && |proposals| > 0
    ensures TxnAsWritten(ctx, step, proposals, cfg, env, s) == (Raised(PaddingLinesError), s)
    ensures var (o, t) := Txn(ctx, step, proposals, cfg, env, s);
      o.Done? && o.result.committed ==> TxnAsWritten(ctx, step, proposals, cfg, env, s) != (o, t)
  {
  }
}
