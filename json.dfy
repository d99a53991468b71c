/**
 * Parsed JSON values as the agent receives them from the language-model replies,
 * and Python's coercions of them (`str`, `list`, `int`, `float`, truthiness).
 * Decoding the reply text is not modelled: it is the `Parser` oracle.
 */
module Json {
  import opened Wrappers
  import opened Text
  import opened Slices

  /** An object keeps its fields in insertion order, as a Python dict does. */
  datatype Json =
    | JNull
    | JBool(b: bool)
    | JInt(i: int)
    | JFloat(r: real)
    | JStr(s: string)
    | JArr(items: seq<Json>)
    | JObj(fields: seq<Field>)

  datatype Field = Field(key: string, value: Json)

  /** The exceptions the modelled code raises or lets escape. */
  datatype Error =
    | ValueError(msg: string)       // a `raise ValueError(...)` written in the source
    | DecodeError                   // `json.loads` rejected the text
    | ShapeError                    // a TypeError or AttributeError Python raises on a value of the wrong JSON type
    | KeyError(key: string)         // `d[key]` on a missing key
    | IndexError                    // a list index out of range
    | OsError(path: string)         // reading a file that is missing or is a directory
    | CommitFailed                  // `git commit` exits non-zero: there is nothing to commit
    | TypeError(msg: string)        // a call with a keyword argument the callee does not declare
    | Unrepresented(field: string)  // a value Python would keep unchecked, of a type the model's records do not hold,
                                    // or a string whose conversion by `int()`/`float()` the model does not decide

  /** `json.loads`: `None` when the text is not JSON. */
  type Parser = string -> Option<Json>

  /** `json.loads(text or default)`, where `whenEmpty` is what the default text decodes to. */
  function Loads(parse: Parser, text: string, whenEmpty: Json): Result<Json, Error> {
    if text == "" then Ok(whenEmpty)
    else match parse(text)
      case Some(j) => Ok(j)
      case None => Err(DecodeError)
  }

  /** `d.get(key)` (JSON objects produced by a parser have distinct keys). */
  function Get(fields: seq<Field>, key: string): Option<Json>
    decreases |fields|
  {
    if fields == [] then None
    else if fields[0].key == key then Some(fields[0].value)
    else Get(fields[1..], key)
  }

  /** `d[key]`: a KeyError when the key is missing. */
  function Lookup(fields: seq<Field>, key: string): (r: Result<Json, Error>)
    ensures r.Err? <==> Get(fields, key).None?
    ensures r.Err? ==> r.error == KeyError(key)
    ensures r.Ok? ==> Get(fields, key) == Some(r.value)
  {
    match Get(fields, key)
    case Some(v) => Ok(v)
    case None => Err(KeyError(key))
  }

  /** A key added at the end of an object is found only when no earlier field has it. */
  lemma {:induction false} GetSnoc(fields: seq<Field>, k: string, v: Json, key: string)
    ensures Get(fields + [Field(k, v)], key)
      == if Get(fields, key).Some? then Get(fields, key) else if key == k then Some(v) else None
    decreases |fields|
  {
    if fields != [] {
      assert (fields + [Field(k, v)])[1..] == fields[1..] + [Field(k, v)];
      GetSnoc(fields[1..], k, v, key);
    } else {
      assert [Field(k, v)][1..] == [];
    }
  }

  /** `d.get(key, default)` */
  function GetOr(fields: seq<Field>, key: string, default: Json): Json {
    match Get(fields, key)
    case Some(v) => v
    case None => default
  }

  function Keys(fields: seq<Field>): seq<string>
    decreases |fields|
  {
    if fields == [] then [] else [fields[0].key] + Keys(fields[1..])
  }

  /** `bool(j)` */
  predicate Truthy(j: Json) {
    match j
    case JNull => false
    case JBool(b) => b
    case JInt(i) => i != 0
    case JFloat(r) => r != 0.0
    case JStr(s) => s != ""
    case JArr(items) => items != []
    case JObj(fields) => fields != []
  }

  /** `iter(j)`: a list yields its items, a string its characters, a dict its keys. */
  function Iterate(j: Json): Result<seq<Json>, Error> {
    match j
    case JArr(items) => Ok(items)
    case JStr(s) => Ok(seq(|s|, k requires 0 <= k < |s| => JStr([s[k]])))
    case JObj(fields) => Ok(seq(|fields|, k requires 0 <= k < |fields| => JStr(fields[k].key)))
    case _ => Err(ShapeError)
  }

  /** The strings of a list of JSON values; any other element is not representable. */
  function Strings(items: seq<Json>, what: string): (r: Result<seq<string>, Error>)
    ensures r.Err? ==> r.error == Unrepresented(what)
    ensures r.Ok? ==> |r.value| == |items|
    decreases |items|
  {
    if items == [] then Ok([])
    else if !items[0].JStr? then Err(Unrepresented(what))
    else match Strings(items[1..], what)
      case Ok(rest) => Ok([items[0].s] + rest)
      case Err(e) => Err(e)
  }

  /** `list(j)` where the elements are kept as strings. */
  function StrList(j: Json, what: string): (r: Result<seq<string>, Error>)
    ensures r.Err? ==> r.error == ShapeError || r.error == Unrepresented(what)
  {
    match Iterate(j)
    case Ok(items) => Strings(items, what)
    case Err(e) => Err(e)
  }

  /** `str(j)` for the values whose rendering the model spells out. */
  function Str(j: Json, what: string): (r: Result<string, Error>)
    ensures r.Err? <==> j.JFloat? || j.JArr? || j.JObj?
    ensures r.Err? ==> r.error == Unrepresented(what)
    ensures j.JStr? ==> r == Ok(j.s)
  {
    match j
    case JStr(s) => Ok(s)
    case JInt(i) => Ok(IntToString(i))
    case JBool(b) => Ok(if b then "True" else "False")
    case JNull => Ok("None")
    case _ => Err(Unrepresented(what))
  }

  /** A field stored as it is in a `str` attribute. */
  function AsString(j: Json, what: string): Result<string, Error> {
    if j.JStr? then Ok(j.s) else Err(Unrepresented(what))
  }

  /** A field stored as it is in an `int` attribute. */
  function AsInt(j: Json, what: string): Result<int, Error> {
    if j.JInt? then Ok(j.i) else Err(Unrepresented(what))
  }

  /** A field stored as it is in an `Optional[str]` attribute. */
  function AsOptionalString(j: Json, what: string): Result<Option<string>, Error> {
    match j
    case JNull => Ok(None)
    case JStr(s) => Ok(Some(s))
    case _ => Err(Unrepresented(what))
  }

  /** A field stored as it is in an `Optional[float]` attribute. */
  function AsOptionalReal(j: Json, what: string): Result<Option<real>, Error> {
    match j
    case JNull => Ok(None)
    case JInt(i) => Ok(Some(i as real))
    case JFloat(r) => Ok(Some(r))
    case _ => Err(Unrepresented(what))
  }

  /** Truncation toward zero, as `int()` does to a float. */
  function Truncate(r: real): int {
    if r >= 0.0 then r.Floor else -((-r).Floor)
  }

  /** `int(j)` */
  function PyInt(j: Json, what: string): Result<int, Error> {
    match j
    case JInt(i) => Ok(i)
    case JBool(b) => Ok(if b then 1 else 0)
    case JFloat(r) => Ok(Truncate(r))
    case JStr(s) => IntOfText(s, what)
    case _ => Err(ShapeError)
  }

  /**
   * `int(s)` in base 10: surrounding whitespace, an optional sign, then digits
   * with single underscores between them. Other ASCII text raises ValueError.
   * Text with other characters is not decided (Python also reads non-ASCII digits).
   */
  function IntOfText(s: string, what: string): Result<int, Error> {
    var t := Strip(s);
    if !IsAscii(t) then Err(Unrepresented(what))
    else
      var (negative, body) := SignSplit(t);
      if IsDigitGroups(body) then
        DigitGroupsDigits(body);
        var v := DigitsValue(DropUnderscores(body));
        Ok(if negative then 0 - v else v)
      else Err(ValueError("invalid literal for int()"))
  }

  /** `float(j)` */
  function PyFloat(j: Json, what: string): Result<real, Error> {
    match j
    case JInt(i) => Ok(i as real)
    case JBool(b) => Ok(if b then 1.0 else 0.0)
    case JFloat(r) => Ok(r)
    case JStr(s) => FloatOfText(s, what)
    case _ => Err(ShapeError)
  }

  /**
   * `float(s)` for a plain decimal: surrounding whitespace, an optional sign,
   * digits and an optional fraction after a `.`. Every other string (an
   * exponent, underscores, `inf`, `nan`, or text `float()` rejects) is not decided.
   */
  function FloatOfText(s: string, what: string): Result<real, Error> {
    var (negative, body) := SignSplit(Strip(s));
    var dot := Find(body, '.');
    var whole := if dot < 0 then body else body[..dot];
    var fraction := if dot < 0 then "" else body[dot + 1..];
    if AllDigits(whole) && AllDigits(fraction) && |whole| + |fraction| >= 1 then
      var v := DecimalValue(whole, fraction);
      Ok(if negative then 0.0 - v else v)
    else Err(Unrepresented(what))
  }

  /** The value of the decimal `whole.fraction`. */
  function DecimalValue(whole: string, fraction: string): real
    requires AllDigits(whole) && AllDigits(fraction)
  {
    DigitsValue(whole) as real + DigitsValue(fraction) as real / Pow10(|fraction|) as real
  }

  /** A sign followed by digits: ASCII, neither starting nor ending with whitespace, and split back by `SignSplit`. */
  lemma SignedDigits(sign: string, d: string)
    requires IsDigits(d) && (sign == "" || sign == "+" || sign == "-")
    ensures var m := sign + d;
      m != [] && !IsSpace(m[0]) && !IsSpace(m[|m| - 1]) && IsAscii(m) && SignSplit(m) == (sign == "-", d)
  {
    var m := sign + d;
    assert m[|m| - 1] == d[|d| - 1];
    if sign == "" {
      assert m == d;
    } else {
      assert m[0] == sign[0] && m[1..] == d;
    }
  }

  /** `int()` of a text whose stripped form is ASCII: a sign, then digit groups. */
  lemma IntOfStripped(s: string, m: string, negative: bool, body: string, digits: string, what: string)
    requires Strip(s) == m && IsAscii(m) && SignSplit(m) == (negative, body)
    requires IsDigitGroups(body) && DropUnderscores(body) == digits && IsDigits(digits)
    ensures !negative ==> PyInt(JStr(s), what) == Ok(DigitsValue(digits))
    ensures negative ==> PyInt(JStr(s), what) == Ok(-(DigitsValue(digits) as int))
  {
  }

  /**
   * `int()` ignores the whitespace around a number and reads an explicit sign:
   * any text that strips to a sign and digits reads as their value.
   */
  lemma IntOfSignedDigits(s: string, sign: string, d: string, what: string)
    requires Strip(s) == sign + d && (sign == "" || sign == "+" || sign == "-") && IsDigits(d)
    ensures sign != "-" ==> PyInt(JStr(s), what) == Ok(DigitsValue(d))
    ensures sign == "-" ==> PyInt(JStr(s), what) == Ok(-(DigitsValue(d) as int))
  {
    SignedDigits(sign, d);
    DigitsAreGroups(d);
    IntOfStripped(s, sign + d, sign == "-", d, d, what);
  }

  /** `int()` reads digits split into groups by single underscores as the digits joined. */
  lemma IntOfGroupedDigits(s: string, a: string, b: string, what: string)
    requires Strip(s) == a + "_" + b && IsDigits(a) && IsDigits(b)
    ensures PyInt(JStr(s), what) == Ok(DigitsValue(a + b))
  {
    GroupedTextFacts(a, b);
    IntOfStripped(s, a + "_" + b, false, a + "_" + b, a + b, what);
  }

  lemma GroupedTextFacts(a: string, b: string)
    requires IsDigits(a) && IsDigits(b)
    ensures var s := a + "_" + b;
      IsAscii(s) && SignSplit(s) == (false, s) && IsDigitGroups(s)
      && DropUnderscores(s) == a + b && IsDigits(a + b)
  {
    var s := a + "_" + b;
    DigitGroupsOfJoin(a, b);
    DropUnderscoresOfJoin(a, b);
    assert s[0] == a[0];
    SignSplitUnsigned(s);
    assert forall k :: 0 <= k < |a + b| ==> (a + b)[k] == if k < |a| then a[k] else b[k - |a|];
  }

  /** `int()` reads back every rendered integer. */
  lemma IntOfRendered(i: int, what: string)
    ensures PyInt(JStr(IntToString(i)), what) == Ok(i)
  {
    var n: nat := if i < 0 then -i else i;
    var sign := if i < 0 then "-" else "";
    NatToStringRoundTrip(n);
    SignedDigits(sign, NatToString(n));
    assert IntToString(i) == sign + NatToString(n);
    StripClean(sign + NatToString(n));
    IntOfSignedDigits(IntToString(i), sign, NatToString(n), what);
  }

  /** `float()` of a text whose stripped form is a sign, then a decimal split at its first `.` into `whole` and `fraction`. */
  lemma FloatOfStripped(s: string, negative: bool, body: string, whole: string, fraction: string, what: string)
    requires SignSplit(Strip(s)) == (negative, body)
    requires (Find(body, '.') < 0 && whole == body && fraction == "")
          || (0 <= Find(body, '.') == |whole| && whole == body[..|whole|] && fraction == body[|whole| + 1..])
    requires AllDigits(whole) && AllDigits(fraction) && |whole| + |fraction| >= 1
    ensures !negative ==> PyFloat(JStr(s), what) == Ok(DecimalValue(whole, fraction))
    ensures negative ==> PyFloat(JStr(s), what) == Ok(-DecimalValue(whole, fraction))
  {
  }

  /** `float()` reads a text that strips to a sign and digits as `int()` does. */
  lemma FloatOfSignedDigits(s: string, sign: string, d: string, what: string)
    requires Strip(s) == sign + d && (sign == "" || sign == "+" || sign == "-") && IsDigits(d)
    ensures sign != "-" ==> PyFloat(JStr(s), what) == Ok(DigitsValue(d) as real)
    ensures sign == "-" ==> PyFloat(JStr(s), what) == Ok(-(DigitsValue(d) as real))
  {
    WholeTextFacts(sign, d);
    FloatOfStripped(s, sign == "-", d, d, "", what);
  }

  lemma WholeTextFacts(sign: string, d: string)
    requires (sign == "" || sign == "+" || sign == "-") && IsDigits(d)
    ensures SignSplit(sign + d) == (sign == "-", d) && Find(d, '.') < 0 && AllDigits("")
    ensures DecimalValue(d, "") == DigitsValue(d) as real
  {
    SignedDigits(sign, d);
    assert '.' !in d;
    FindAbsent(d, '.');
  }

  /** `float()` reads a text that strips to a decimal fraction `d.b` as `d + b / 10^|b|`. */
  lemma FloatOfDecimal(s: string, d: string, b: string, what: string)
    requires Strip(s) == d + "." + b && IsDigits(d) && IsDigits(b)
    ensures PyFloat(JStr(s), what) == Ok(DecimalValue(d, b))
  {
    DecimalTextFacts(d, b);
    FloatOfStripped(s, false, d + "." + b, d, b, what);
  }

  lemma DecimalTextFacts(d: string, b: string)
    requires IsDigits(d) && IsDigits(b)
    ensures var s := d + "." + b;
      SignSplit(s) == (false, s) && Find(s, '.') == |d| && s[..|d|] == d && s[|d| + 1..] == b
  {
    var s := d + ("." + b);
    assert d + "." + b == s;
    assert s[0] == d[0];
    SignSplitUnsigned(s);
    assert '.' !in d;
    FindAfter(d, '.', "." + b);
    assert s[..|d|] == d && s[|d| + 1..] == b;
  }
}
