/**
 * The agent's configuration (config.py): six frozen sections with fixed
 * defaults, built from a mapping by keeping only each section's known keys.
 * Reading the YAML file is I/O; `Load` takes whether the file exists and
 * the document it parses to.
 */
module Config {
  import opened Wrappers
  import opened Json

  datatype ModelConfig = ModelConfig(provider: Option<string>, name: Option<string>)

  datatype SearchConfig = SearchConfig(
    maxSteps: int,
    diffsPerStep: int,
    finalists: int,
    retriesPerStep: int,
    investigationsEnabled: bool,
    useLandmarks: bool)

  datatype LimitsConfig = LimitsConfig(maxLocChanges: int, maxFilesPerDiff: int, slicePaddingLines: int)

  datatype TnrConfig = TnrConfig(actionsPerTxn: int, requireMuNonworsening: bool)

  /** `staticChecks` is the section's `static` flag. */
  datatype GateConfig = GateConfig(staticChecks: bool, targetedTests: bool, smoke: bool)

  datatype LoggingConfig = LoggingConfig(dir: string, stream: bool)

  datatype Config = Config(
    model: ModelConfig,
    search: SearchConfig,
    limits: LimitsConfig,
    tnr: TnrConfig,
    gates: GateConfig,
    logging: LoggingConfig)

  const ModelKeys: set<string> := {"provider", "name"}
  const SearchKeys: set<string> :=
    {"max_steps", "diffs_per_step", "finalists", "retries_per_step", "investigations_enabled", "use_landmarks"}
  const LimitsKeys: set<string> := {"max_loc_changes", "max_files_per_diff", "slice_padding_lines"}
  const TnrKeys: set<string> := {"actions_per_txn", "require_mu_nonworsening"}
  const GateKeys: set<string> := {"static", "targeted_tests", "smoke"}
  const LoggingKeys: set<string> := {"dir", "stream"}
  const SectionNames: set<string> := {"model", "search", "limits", "tnr", "gates", "logging"}

  /** `Config.default()`: every section at its declared defaults. */
  function Default(): Config {
    Config(
      ModelConfig(None, None),
      SearchConfig(4, 3, 2, 1, false, false),
      LimitsConfig(12, 2, 80),
      TnrConfig(3, true),
      GateConfig(true, true, false),
      LoggingConfig(".agent_runs", false))
  }

  /** `_filter_kwargs`: the fields whose key is allowed, in their order. */
  function FilterKwargs(data: seq<Field>, allowed: set<string>): seq<Field>
    decreases |data|
  {
    if data == [] then []
    else if data[0].key in allowed then [data[0]] + FilterKwargs(data[1..], allowed)
    else FilterKwargs(data[1..], allowed)
  }

  /** Looking a key up after filtering finds it only when it is allowed, and then finds what the mapping holds. */
  lemma {:induction false} FilterKwargsGet(data: seq<Field>, allowed: set<string>, key: string)
    ensures Get(FilterKwargs(data, allowed), key) == if key in allowed then Get(data, key) else None
    decreases |data|
  {
    if data != [] {
      FilterKwargsGet(data[1..], allowed, key);
      if data[0].key in allowed {
        assert ([data[0]] + FilterKwargs(data[1..], allowed))[1..] == FilterKwargs(data[1..], allowed);
      }
    }
  }

  /** A key outside the allowed set added to the mapping leaves the filtered mapping as it was. */
  lemma {:induction false} FilterKwargsIgnoresUnknown(data: seq<Field>, allowed: set<string>, f: Field)
    requires f.key !in allowed
    ensures FilterKwargs(data + [f], allowed) == FilterKwargs(data, allowed)
    decreases |data|
  {
    if data == [] {
      assert FilterKwargs([f][1..], allowed) == [];
    } else {
      assert (data + [f])[1..] == data[1..] + [f];
      FilterKwargsIgnoresUnknown(data[1..], allowed, f);
    }
  }

  /** An integer keyword argument; a `bool` is an `int` in Python. */
  function IntArg(kw: seq<Field>, key: string, default: int): Result<int, Error> {
    match Get(kw, key)
    case None => Ok(default)
    case Some(JInt(i)) => Ok(i)
    case Some(JBool(b)) => Ok(if b then 1 else 0)
    case Some(_) => Err(Unrepresented(key))
  }

  /** A flag keyword argument, kept as the truth value the agent tests it for. */
  function BoolArg(kw: seq<Field>, key: string, default: bool): bool {
    match Get(kw, key)
    case None => default
    case Some(v) => Truthy(v)
  }

  function StrArg(kw: seq<Field>, key: string, default: string): Result<string, Error> {
    match Get(kw, key)
    case None => Ok(default)
    case Some(v) => AsString(v, key)
  }

  function OptStrArg(kw: seq<Field>, key: string): Result<Option<string>, Error> {
    match Get(kw, key)
    case None => Ok(None)
    case Some(v) => AsOptionalString(v, key)
  }

  /** `data.get(name, {})`, which must be a mapping for `.items()` to succeed. */
  function Section(data: seq<Field>, name: string): Result<seq<Field>, Error> {
    match Get(data, name)
    case None => Ok([])
    case Some(JObj(fields)) => Ok(fields)
    case Some(_) => Err(ShapeError)
  }

  function BuildSearch(kw: seq<Field>): Result<SearchConfig, Error> {
    var maxSteps :- IntArg(kw, "max_steps", 4);
    var diffs :- IntArg(kw, "diffs_per_step", 3);
    var finalists :- IntArg(kw, "finalists", 2);
    var retries :- IntArg(kw, "retries_per_step", 1);
    Ok(SearchConfig(maxSteps, diffs, finalists, retries,
      BoolArg(kw, "investigations_enabled", false), BoolArg(kw, "use_landmarks", false)))
  }

  function BuildLimits(kw: seq<Field>): Result<LimitsConfig, Error> {
    var loc :- IntArg(kw, "max_loc_changes", 12);
    var files :- IntArg(kw, "max_files_per_diff", 2);
    var padding :- IntArg(kw, "slice_padding_lines", 80);
    Ok(LimitsConfig(loc, files, padding))
  }

  function BuildTnr(kw: seq<Field>): Result<TnrConfig, Error> {
    var actions :- IntArg(kw, "actions_per_txn", 3);
    Ok(TnrConfig(actions, BoolArg(kw, "require_mu_nonworsening", true)))
  }

  function BuildGates(kw: seq<Field>): GateConfig {
    GateConfig(BoolArg(kw, "static", true), BoolArg(kw, "targeted_tests", true), BoolArg(kw, "smoke", false))
  }

  function BuildLogging(kw: seq<Field>): Result<LoggingConfig, Error> {
    var dir :- StrArg(kw, "dir", ".agent_runs");
    Ok(LoggingConfig(dir, BoolArg(kw, "stream", false)))
  }

  function BuildModel(kw: seq<Field>): Result<ModelConfig, Error> {
    var provider :- OptStrArg(kw, "provider");
    var name :- OptStrArg(kw, "name");
    Ok(ModelConfig(provider, name))
  }

  /** `Config.from_dict`: each section built from its known keys, in the source's order. */
  function FromDict(data: seq<Field>): Result<Config, Error> {
    var s :- Section(data, "search");
    var search :- BuildSearch(FilterKwargs(s, SearchKeys));
    var l :- Section(data, "limits");
    var limits :- BuildLimits(FilterKwargs(l, LimitsKeys));
    var t :- Section(data, "tnr");
    var tnr :- BuildTnr(FilterKwargs(t, TnrKeys));
    var g :- Section(data, "gates");
    var gates := BuildGates(FilterKwargs(g, GateKeys));
    var lg :- Section(data, "logging");
    var logging :- BuildLogging(FilterKwargs(lg, LoggingKeys));
    var m :- Section(data, "model");
    var model :- BuildModel(FilterKwargs(m, ModelKeys));
    Ok(Config(model, search, limits, tnr, gates, logging))
  }

  /**
   * `Config.load`: defaults when the file is absent; otherwise the parsed
   * document, with an empty document read as an empty mapping.
   */
  function Load(fileExists: bool, raw: Json): Result<Config, Error> {
    if !fileExists then Ok(Default())
    else
      var doc := if Truthy(raw) then raw else JObj([]);
      if !doc.JObj? then Err(ValueError("Config file must contain a mapping at the top level."))
      else FromDict(doc.fields)
  }

  /** An empty mapping, a missing file and an empty document all give the defaults. */
  lemma DefaultsWhenNothingConfigured(raw: Json)
    ensures FromDict([]) == Ok(Default())
    ensures Load(false, raw) == Ok(Default())
    ensures !Truthy(raw) ==> Load(true, raw) == Ok(Default())
    ensures Default().search == SearchConfig(4, 3, 2, 1, false, false)
    ensures Default().limits == LimitsConfig(12, 2, 80)
    ensures Default().tnr == TnrConfig(3, true)
    ensures Default().gates == GateConfig(true, true, false)
  {
  }

  /** A document that is present and non-empty is rejected exactly when it is not a mapping. */
  lemma LoadRejectsNonMapping(raw: Json)
    ensures Load(true, raw) == Err(ValueError("Config file must contain a mapping at the top level."))
        <==> Truthy(raw) && !raw.JObj?
  {
    if raw.JObj? {
      var r := FromDict(raw.fields);
      assert r.Err? ==> r.error != ValueError("Config file must contain a mapping at the top level.") by {
        FromDictNeverValueError(raw.fields);
      }
    }
  }

  /** `from_dict` raises nothing of its own: its failures are the ones Python raises on ill-typed values. */
  lemma FromDictNeverValueError(data: seq<Field>)
    ensures FromDict(data).Err? ==> !FromDict(data).error.ValueError?
  {
  }

  /** A top-level key that names no section is ignored. */
  lemma {:induction false} FromDictIgnoresUnknownSection(data: seq<Field>, f: Field)
    requires f.key !in SectionNames
    ensures FromDict(data + [f]) == FromDict(data)
  {
    forall name | name in SectionNames
      ensures Section(data + [f], name) == Section(data, name)
    {
      GetSnoc(data, f.key, f.value, name);
    }
  }

  /** A key a section does not declare is ignored. */
  lemma FromDictIgnoresUnknownSearchKey(s: seq<Field>, f: Field)
    requires f.key !in SearchKeys
    ensures BuildSearch(FilterKwargs(s + [f], SearchKeys)) == BuildSearch(FilterKwargs(s, SearchKeys))
  {
    FilterKwargsIgnoresUnknown(s, SearchKeys, f);
  }

  /** A configured search budget is the one the agent runs with. */
  lemma {:induction false} ConfiguredMaxSteps(data: seq<Field>, s: seq<Field>, n: int)
    requires Get(data, "search") == Some(JObj(s))
    requires Get(s, "max_steps") == Some(JInt(n))
    requires FromDict(data).Ok?
    ensures FromDict(data).value.search.maxSteps == n
  {
    FilterKwargsGet(s, SearchKeys, "max_steps");
  }
}
