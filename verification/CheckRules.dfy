/** The rules of the configuration checker: what one rule says about one column of a row, and how it repairs it. */
module CheckRules {
  import opened Wrappers

  datatype Value = Num(n: int) | Text(s: string)

  type Row = map<string, Value>

  /** What is thrown, or `Uninitialised` where the program reads an integer it never set. */
  datatype Error = NoOption | TypeError | NotExist(column: string) | NotNumber(column: string) | Uninitialised

  type Outcome<+T> = Result<T, Error>

  /** How strings are read as numbers: by `advance_string2number`, and by `atoi`. */
  datatype Numerals = Numerals(number: string -> real, integer: string -> int)

  /** A bound of a dynamic range: a number, or the column to take it from. */
  datatype Bound = Unset | Fixed(limit: real) | Column(name: string)

  datatype Bounds = Bounds(max: Bound, maxRate: Option<real>, min: Bound, minRate: Option<real>) {

    /** The bounds do not refer to the column they bound. */
    predicate Avoids(key: string) {
      max != Column(key) && min != Column(key)
    }
  }

  datatype Rule =
    | Input
    | Options(options: seq<Value>)
    | Range(max: Option<real>, min: Option<real>)
    | DynamicRange(bounds: Bounds)
    | FilteredOptions(options: seq<Value>, bounds: Bounds)
    | Unknown

  /** `Nothing` is a null result. */
  datatype Verdict = Nothing | Repair(value: Value)

  const HIGHEST := 2147483647.0
  const LOWEST := 0.0

  function OrElse(x: Option<real>, otherwise: real): real {
    if x.Some? then x.value else otherwise
  }

  function Scaled(x: real, rate: Option<real>): real {
    if rate.Some? then x * rate.value else x * 1.0
  }

  /** A number, or what a string is read as. */
  function NumberOf(env: Numerals, v: Value): real {
    match v
    case Num(n) => n as real
    case Text(s) => env.number(s)
  }

  /** The number a bound stands for in a row. */
  function Evaluated(env: Numerals, b: Bound, rate: Option<real>, otherwise: real, row: Row): Outcome<real> {
    match b
    case Unset => Ok(otherwise)
    case Fixed(x) => Ok(x)
    case Column(k) =>
      if k !in row then Fail(NotExist(k))
      else if row[k].Text? && NumberOf(env, row[k]) < 0.0 then Fail(NotNumber(k))
      else Ok(Scaled(NumberOf(env, row[k]), rate))
  }

  /** The maximum and the minimum; the maximum is worked out, and may fail, first. */
  function Limits(env: Numerals, b: Bounds, row: Row): Outcome<(real, real)> {
    var max :- Evaluated(env, b.max, b.maxRate, HIGHEST, row);
    var min :- Evaluated(env, b.min, b.minRate, LOWEST, row);
    Ok((max, min))
  }

  /** What a list of options of one kind compares with: a number is the empty text to a list of texts. */
  function Seen(numeric: bool, v: Value): Outcome<Value> {
    match v
    case Num(n) => Ok(if numeric then v else Text(""))
    case Text(s) => if numeric then Fail(Uninitialised) else Ok(v)
  }

  /** Whether an option equals the value; the first option of the other kind throws. */
  function Member(numeric: bool, options: seq<Value>, v: Value): Outcome<bool> {
    if options == [] then Ok(false)
    else if options[0].Num? != numeric then Fail(TypeError)
    else
      var seen :- Seen(numeric, v);
      if options[0] == seen then Ok(true) else Member(numeric, options[1..], v)
  }

  /** The options within the limits. */
  function Filtered(env: Numerals, numeric: bool, options: seq<Value>, limits: (real, real)): Outcome<seq<Value>> {
    if options == [] then Ok([])
    else if options[0].Num? != numeric then Fail(TypeError)
    else
      var rest :- Filtered(env, numeric, options[1..], limits);
      Ok(if limits.1 <= NumberOf(env, options[0]) <= limits.0 then [options[0]] + rest else rest)
  }

  function InRange(limits: (real, real), v: Value): Outcome<Verdict> {
    match v
    case Text(_) => Fail(Uninitialised)
    case Num(n) =>
      Ok(if n as real < limits.1 then Repair(Num(Truncated(limits.1)))
         else if n as real > limits.0 then Repair(Num(Truncated(limits.0)))
         else Nothing)
  }

  /** The option put in the place of a value that is not among the filtered ones. */
  function Substitute(env: Numerals, numeric: bool, options: seq<Value>, limits: (real, real), v: Value): Outcome<Verdict> {
    var seen :- Seen(numeric, v);
    if options == [] then Fail(NoOption)
    else Ok(Repair(if NumberOf(env, seen) > limits.0 then options[|options| - 1] else options[0]))
  }

  function AmongFiltered(env: Numerals, os: seq<Value>, limits: (real, real), v: Value): Outcome<Verdict> {
    if os == [] then Fail(NoOption)
    else
      var qualified :- Filtered(env, os[0].Num?, os, limits);
      var found :- Member(os[0].Num?, qualified, v);
      if found then Ok(Nothing) else Substitute(env, os[0].Num?, qualified, limits, v)
  }

  /** What the rule says about column `key` of the row. */
  function Check(env: Numerals, rule: Rule, row: Row, key: string): Outcome<Verdict>
    requires key in row
  {
    match rule
    case Input => Ok(Nothing)
    case Unknown => Ok(Nothing)
    case Options(os) =>
      if os == [] then Fail(NoOption)
      else
        var found :- Member(os[0].Num?, os, row[key]);
        Ok(if found then Nothing else Repair(os[0]))
    case Range(max, min) => InRange((OrElse(max, HIGHEST), OrElse(min, LOWEST)), row[key])
    case DynamicRange(b) =>
      var limits :- Limits(env, b, row);
      InRange(limits, row[key])
    case FilteredOptions(os, b) =>
      var limits :- Limits(env, b, row);
      AmongFiltered(env, os, limits, row[key])
  }

  /** What the rule asks of the value: to be an allowed option, or within the limits cut off to integers. */
  ghost predicate Meets(env: Numerals, rule: Rule, row: Row, key: string)
    requires key in row
  {
    match rule
    case Input => true
    case Unknown => true
    case Options(os) => Allowed(os, row[key])
    case Range(max, min) => Between((OrElse(max, HIGHEST), OrElse(min, LOWEST)), row[key])
    case DynamicRange(b) => Limits(env, b, row).Ok? && Between(Limits(env, b, row).value, row[key])
    case FilteredOptions(os, b) =>
      Limits(env, b, row).Ok? &&
      (exists o :: o in os && SeenAs(os, row[key], o) && Admits(env, Limits(env, b, row).value, o))
  }

  ghost predicate SeenAs(os: seq<Value>, v: Value, o: Value) {
    os != [] && Seen(os[0].Num?, v) == Ok(o)
  }

  ghost predicate Allowed(os: seq<Value>, v: Value) {
    exists o :: o in os && SeenAs(os, v, o)
  }

  ghost predicate Admits(env: Numerals, limits: (real, real), o: Value) {
    limits.1 <= NumberOf(env, o) <= limits.0
  }

  ghost predicate Between(limits: (real, real), v: Value) {
    v.Num? && Truncated(limits.1) <= v.n <= Truncated(limits.0)
  }

  /** The limits do not cross, as integers. */
  ghost predicate Ordered(limits: (real, real)) {
    Truncated(limits.1) <= Truncated(limits.0)
  }

  ghost predicate OrderedAt(env: Numerals, rule: Rule, row: Row) {
    match rule
    case Range(max, min) => Ordered((OrElse(max, HIGHEST), OrElse(min, LOWEST)))
    case DynamicRange(b) => Limits(env, b, row).Ok? ==> Ordered(Limits(env, b, row).value)
    case _ => true
  }

  /** A verdict that leaves the value as it is. */
  predicate Keeps(c: Outcome<Verdict>, v: Value) {
    c == Ok(Nothing) || c == Ok(Repair(v))
  }

  lemma {:induction false} MemberFinds(numeric: bool, options: seq<Value>, v: Value)
    requires Member(numeric, options, v).Ok?
    ensures options == [] ==> Member(numeric, options, v) == Ok(false)
    ensures options != [] ==> Seen(numeric, v).Ok?
    ensures options != [] ==> (Member(numeric, options, v).value <==> Seen(numeric, v).value in options)
  {
    if options != [] && options[0] != Seen(numeric, v).value {
      MemberFinds(numeric, options[1..], v);
      assert options == [options[0]] + options[1..];
    }
  }

  lemma {:induction false} FilteredIs(env: Numerals, numeric: bool, options: seq<Value>, limits: (real, real))
    requires Filtered(env, numeric, options, limits).Ok?
    ensures forall o :: o in Filtered(env, numeric, options, limits).value <==> o in options && Admits(env, limits, o)
    ensures forall o :: o in options ==> o.Num? == numeric
  {
    if options != [] {
      FilteredIs(env, numeric, options[1..], limits);
      assert options == [options[0]] + options[1..];
    }
  }

  /** A range leaves a value alone exactly when it lies between the limits cut off to integers. */
  lemma RangeKeeps(limits: (real, real), v: Value)
    requires Ordered(limits)
    ensures Keeps(InRange(limits, v), v) <==> Between(limits, v)
  {
  }

  /** Limits that do not cross are exactly those whose repairs are never repaired again to something else. */
  lemma RangeStable(limits: (real, real))
    ensures Ordered(limits) <==> forall n, v :: InRange(limits, Num(n)) == Ok(Repair(v)) ==> Keeps(InRange(limits, v), v)
  {
    if !Ordered(limits) {
      var n := if Truncated(limits.0) < Truncated(limits.1) then Truncated(limits.1) + 2 else 0;
      assert InRange(limits, Num(n)) == Ok(Repair(Num(Truncated(limits.0))));
      assert !Keeps(InRange(limits, Num(Truncated(limits.0))), Num(Truncated(limits.0)));
    }
  }

  /** A rule leaves a value alone exactly when the value meets it. */
  lemma KeepsIffMeets(env: Numerals, rule: Rule, row: Row, key: string)
    requires key in row && OrderedAt(env, rule, row) && Check(env, rule, row, key).Ok?
    ensures Keeps(Check(env, rule, row, key), row[key]) <==> Meets(env, rule, row, key)
  {
    match rule
    case Options(os) =>
      MemberFinds(os[0].Num?, os, row[key]);
      assert SeenAs(os, row[key], Seen(os[0].Num?, row[key]).value);
    case Range(max, min) => RangeKeeps((OrElse(max, HIGHEST), OrElse(min, LOWEST)), row[key]);
    case DynamicRange(b) => RangeKeeps(Limits(env, b, row).value, row[key]);
    case FilteredOptions(os, b) => FilteredKeeps(env, os, b, row, key);
    case _ =>
  }

  lemma FilteredKeeps(env: Numerals, os: seq<Value>, b: Bounds, row: Row, key: string)
    requires key in row && Check(env, FilteredOptions(os, b), row, key).Ok?
    ensures Keeps(Check(env, FilteredOptions(os, b), row, key), row[key]) <==> Meets(env, FilteredOptions(os, b), row, key)
  {
    var limits, numeric := Limits(env, b, row).value, os[0].Num?;
    var qualified := Filtered(env, numeric, os, limits).value;
    FilteredIs(env, numeric, os, limits);
    MemberFinds(numeric, qualified, row[key]);
    var seen := Seen(numeric, row[key]).value;
    assert SeenAs(os, row[key], seen);
  }

  /** A repair answers to the rule that made it: applied again it says nothing or the same. */
  lemma RepairStable(env: Numerals, rule: Rule, row: Row, key: string, v: Value)
    requires key in row && OrderedAt(env, rule, row) && Check(env, rule, row, key) == Ok(Repair(v))
    requires rule.DynamicRange? || rule.FilteredOptions? ==> rule.bounds.Avoids(key)
    ensures Keeps(Check(env, rule, row[key := v], key), v)
  {
    var repaired := row[key := v];
    match rule
    case Options(os) =>
      assert Member(os[0].Num?, os, repaired[key]) == Ok(true);
    case Range(max, min) =>
      RangeAgain((OrElse(max, HIGHEST), OrElse(min, LOWEST)), row[key], v);
    case DynamicRange(b) =>
      LimitsAvoid(env, b, row, key, v);
      RangeAgain(Limits(env, b, row).value, row[key], v);
    case FilteredOptions(os, b) =>
      LimitsAvoid(env, b, row, key, v);
      FilteredStable(env, os, Limits(env, b, row).value, row[key], v);
  }

  lemma RangeAgain(limits: (real, real), was: Value, v: Value)
    requires Ordered(limits) && InRange(limits, was) == Ok(Repair(v))
    ensures Keeps(InRange(limits, v), v)
  {
  }

  /** Limits do not depend on a column they do not name. */
  lemma LimitsAvoid(env: Numerals, b: Bounds, row: Row, key: string, v: Value)
    requires b.Avoids(key) && key in row
    ensures Limits(env, b, row[key := v]) == Limits(env, b, row)
  {
    EvaluatedAvoids(env, b.max, b.maxRate, HIGHEST, row, key, v);
    EvaluatedAvoids(env, b.min, b.minRate, LOWEST, row, key, v);
  }

  lemma EvaluatedAvoids(env: Numerals, b: Bound, rate: Option<real>, otherwise: real, row: Row, key: string, v: Value)
    requires b != Column(key) && key in row
    ensures Evaluated(env, b, rate, otherwise, row[key := v]) == Evaluated(env, b, rate, otherwise, row)
  {
    match b
    case Column(k) =>
      assert k != key;
      assert k in row ==> row[key := v][k] == row[k];
    case _ =>
  }

  lemma FilteredStable(env: Numerals, os: seq<Value>, limits: (real, real), was: Value, v: Value)
    requires AmongFiltered(env, os, limits, was) == Ok(Repair(v))
    ensures AmongFiltered(env, os, limits, v) == Ok(Nothing)
  {
    var numeric := os[0].Num?;
    FilteredIs(env, numeric, os, limits);
    MemberAgain(numeric, Filtered(env, numeric, os, limits).value, v);
  }

  /** An option of a list of one kind is found in it. */
  lemma {:induction false} MemberAgain(numeric: bool, options: seq<Value>, v: Value)
    requires forall o :: o in options ==> o.Num? == numeric
    requires v in options
    ensures Member(numeric, options, v) == Ok(true)
  {
    if options[0] != v {
      MemberAgain(numeric, options[1..], v);
    }
  }
}
