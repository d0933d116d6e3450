/** What the checker says about a value, in terms of the rule and the row alone. */
module CheckVerdicts {
  import opened Wrappers
  import opened CheckRules

  // --- limits ---

  /** What a bound stands for: a number, or that of a column times the bound's own rate. */
  ghost predicate StandsFor(env: Numerals, b: Bound, rate: Option<real>, otherwise: real, row: Row, x: real) {
    && (b == Unset ==> x == otherwise)
    && (b.Fixed? ==> x == b.limit)
    && (b.Column? ==> b.name in row && x == Numeral(env, row[b.name]) * (if rate.Some? then rate.value else 1.0))
  }

  ghost function Numeral(env: Numerals, v: Value): real {
    if v.Text? then env.number(v.s) else v.n as real
  }

  /** A bound that cannot be worked out. */
  ghost predicate Unusable(env: Numerals, b: Bound, row: Row, error: Error) {
    b.Column? &&
    ((b.name !in row && error == NotExist(b.name)) ||
     (b.name in row && row[b.name].Text? && Numeral(env, row[b.name]) < 0.0 && error == NotNumber(b.name)))
  }

  /** The limits are those of the two bounds; what is wrong with the maximum is reported before the minimum. */
  lemma LimitsMean(env: Numerals, b: Bounds, row: Row)
    ensures match Limits(env, b, row)
            case Ok(limits) =>
              StandsFor(env, b.max, b.maxRate, 2147483647.0, row, limits.0) &&
              StandsFor(env, b.min, b.minRate, 0.0, row, limits.1)
            case Fail(e) =>
              Unusable(env, b.max, row, e) ||
              ((forall f :: !Unusable(env, b.max, row, f)) && Unusable(env, b.min, row, e))
  {
  }

  // --- verdicts ---

  /** An option equals the value; for a list of texts a number is the empty text. */
  ghost predicate Equals(o: Value, v: Value) {
    o == v || (o == Text("") && v.Num?)
  }

  ghost predicate Mixed(os: seq<Value>) {
    exists i :: 0 <= i < |os| && os[i].Num? != os[0].Num?
  }

  /** An option of another kind comes before any that equals the value. */
  ghost predicate OtherKindFirst(numeric: bool, os: seq<Value>, v: Value) {
    exists i :: 0 <= i < |os| && os[i].Num? != numeric && NoneBefore(os, i, v)
  }

  ghost predicate NoneBefore(os: seq<Value>, i: nat, v: Value)
    requires i <= |os|
  {
    forall j :: 0 <= j < i ==> !Equals(os[j], v)
  }

  /** The first option takes the place of a value that is not an option. */
  ghost predicate OptionsVerdict(os: seq<Value>, v: Value, r: Outcome<Verdict>) {
    if os == [] then r == Fail(NoOption)
    else if os[0].Num? && v.Text? then r == Fail(Uninitialised)
    else if OtherKindFirst(os[0].Num?, os, v) then r == Fail(TypeError)
    else if exists o :: o in os && Equals(o, v) then r == Ok(Nothing)
    else r == Ok(Repair(os[0]))
  }

  /** Numbers below the minimum become it, those above the maximum become that, cut off to integers. */
  ghost predicate RangeVerdict(max: real, min: real, v: Value, r: Outcome<Verdict>) {
    if v.Text? then r == Fail(Uninitialised)
    else
      r.Ok? && (r.value == Nothing <==> min <= v.n as real <= max) &&
      (r.value.Repair? ==> r.value.value == Num(Truncated(if (v.n as real) < min then min else max)))
  }

  ghost predicate FirstAdmitted(env: Numerals, os: seq<Value>, limits: (real, real), o: Value) {
    exists i :: 0 <= i < |os| && os[i] == o && Admits(env, limits, o) && forall j :: 0 <= j < i ==> !Admits(env, limits, os[j])
  }

  ghost predicate LastAdmitted(env: Numerals, os: seq<Value>, limits: (real, real), o: Value) {
    exists i :: 0 <= i < |os| && os[i] == o && Admits(env, limits, o) && forall j :: i < j < |os| ==> !Admits(env, limits, os[j])
  }

  /** Of the options within the limits the last takes the place of a value above them, and the first that of any other. */
  ghost predicate FilteredVerdict(env: Numerals, os: seq<Value>, limits: (real, real), v: Value, r: Outcome<Verdict>) {
    if os == [] then r == Fail(NoOption)
    else if Mixed(os) then r == Fail(TypeError)
    else if os[0].Num? && v.Text? then r == Fail(Uninitialised)
    else if forall o :: o in os ==> !Admits(env, limits, o) then r == Fail(NoOption)
    else
      var number := if os[0].Text? && v.Num? then env.number("") else Numeral(env, v);
      r.Ok? && (r.value == Nothing <==> exists o :: o in os && Admits(env, limits, o) && Equals(o, v)) &&
      (r.value.Repair? ==> if number > limits.0 then LastAdmitted(env, os, limits, r.value.value)
                           else FirstAdmitted(env, os, limits, r.value.value))
  }

  ghost predicate IsVerdict(env: Numerals, rule: Rule, row: Row, key: string, r: Outcome<Verdict>)
    requires key in row
  {
    match rule
    case Input => r == Ok(Nothing)
    case Unknown => r == Ok(Nothing)
    case Options(os) => OptionsVerdict(os, row[key], r)
    case Range(max, min) =>
      RangeVerdict(if max.Some? then max.value else 2147483647.0, if min.Some? then min.value else 0.0, row[key], r)
    case DynamicRange(b) =>
      var limits := Limits(env, b, row);
      if limits.Fail? then r == Fail(limits.error) else RangeVerdict(limits.value.0, limits.value.1, row[key], r)
    case FilteredOptions(os, b) =>
      var limits := Limits(env, b, row);
      if limits.Fail? then r == Fail(limits.error) else FilteredVerdict(env, os, limits.value, row[key], r)
  }

  /** The verdict on every rule, value and row, errors included. */
  lemma VerdictIs(env: Numerals, rule: Rule, row: Row, key: string)
    requires key in row
    ensures IsVerdict(env, rule, row, key, Check(env, rule, row, key))
  {
    match rule
    case Options(os) => OptionsVerdictIs(env, os, row, key);
    case FilteredOptions(os, b) =>
      if Limits(env, b, row).Ok? {
        FilteredVerdictIs(env, os, Limits(env, b, row).value, row[key]);
      }
    case _ =>
  }

  lemma {:induction false} MemberIs(numeric: bool, options: seq<Value>, v: Value)
    ensures var r := Member(numeric, options, v);
            if options == [] then r == Ok(false)
            else if options[0].Num? == numeric && numeric && v.Text? then r == Fail(Uninitialised)
            else if OtherKindFirst(numeric, options, v) then r == Fail(TypeError)
            else r == Ok(exists o :: o in options && Equals(o, v))
  {
    if options != [] {
      MemberIs(numeric, options[1..], v);
      if options[0].Num? != numeric {
        assert NoneBefore(options, 0, v);
      } else {
        OtherKindLater(numeric, options, v);
        assert options == [options[0]] + options[1..];
      }
    }
  }

  lemma OtherKindLater(numeric: bool, os: seq<Value>, v: Value)
    requires os != [] && os[0].Num? == numeric
    ensures OtherKindFirst(numeric, os, v) <==> !Equals(os[0], v) && OtherKindFirst(numeric, os[1..], v)
  {
    var rest := os[1..];
    if OtherKindFirst(numeric, os, v) {
      var i :| 0 <= i < |os| && os[i].Num? != numeric && NoneBefore(os, i, v);
      assert rest[i - 1].Num? != numeric && NoneBefore(rest, i - 1, v);
    }
    if !Equals(os[0], v) && OtherKindFirst(numeric, rest, v) {
      var i :| 0 <= i < |rest| && rest[i].Num? != numeric && NoneBefore(rest, i, v);
      assert os[i + 1].Num? != numeric && forall j :: 0 < j < i + 1 ==> os[j] == rest[j - 1];
      assert NoneBefore(os, i + 1, v);
    }
  }

  lemma OptionsVerdictIs(env: Numerals, os: seq<Value>, row: Row, key: string)
    requires key in row
    ensures OptionsVerdict(os, row[key], Check(env, Options(os), row, key))
  {
    if os != [] {
      MemberIs(os[0].Num?, os, row[key]);
    }
  }

  lemma FilteredVerdictIs(env: Numerals, os: seq<Value>, limits: (real, real), v: Value)
    ensures FilteredVerdict(env, os, limits, v, AmongFiltered(env, os, limits, v))
  {
    if os != [] {
      var numeric := os[0].Num?;
      FilteredFails(env, numeric, os, limits);
      var filtered := Filtered(env, numeric, os, limits);
      if filtered.Ok? {
        FilteredIs(env, numeric, os, limits);
        if filtered.value != [] {
          FilteredEnds(env, numeric, os, limits);
        }
        MemberIs(numeric, filtered.value, v);
      }
    }
  }

  lemma {:induction false} FilteredFails(env: Numerals, numeric: bool, os: seq<Value>, limits: (real, real))
    ensures var r := Filtered(env, numeric, os, limits);
            if forall i :: 0 <= i < |os| ==> os[i].Num? == numeric then r.Ok? else r == Fail(TypeError)
  {
    if os != [] {
      FilteredFails(env, numeric, os[1..], limits);
      assert forall i :: 0 < i < |os| ==> os[i] == os[1..][i - 1];
      assert forall i :: 0 <= i < |os[1..]| ==> os[1..][i] == os[i + 1];
    }
  }

  lemma FilteredEnds(env: Numerals, numeric: bool, os: seq<Value>, limits: (real, real))
    requires Filtered(env, numeric, os, limits).Ok? && Filtered(env, numeric, os, limits).value != []
    ensures var q := Filtered(env, numeric, os, limits).value;
            FirstAdmitted(env, os, limits, q[0]) && LastAdmitted(env, os, limits, q[|q| - 1])
  {
    FilteredFirst(env, numeric, os, limits);
    FilteredLast(env, numeric, os, limits);
  }

  lemma {:induction false} FilteredFirst(env: Numerals, numeric: bool, os: seq<Value>, limits: (real, real))
    requires Filtered(env, numeric, os, limits).Ok? && Filtered(env, numeric, os, limits).value != []
    ensures FirstAdmitted(env, os, limits, Filtered(env, numeric, os, limits).value[0])
  {
    if !Admits(env, limits, os[0]) {
      FilteredFirst(env, numeric, os[1..], limits);
      FirstLater(env, os, limits, Filtered(env, numeric, os, limits).value[0]);
    }
  }

  lemma {:induction false} FilteredLast(env: Numerals, numeric: bool, os: seq<Value>, limits: (real, real))
    requires Filtered(env, numeric, os, limits).Ok? && Filtered(env, numeric, os, limits).value != []
    ensures var q := Filtered(env, numeric, os, limits).value;
            LastAdmitted(env, os, limits, q[|q| - 1])
  {
    var q := Filtered(env, numeric, os[1..], limits).value;
    if q != [] {
      FilteredLast(env, numeric, os[1..], limits);
      LastLater(env, os, limits, q[|q| - 1]);
    } else {
      NoneAdmitted(env, numeric, os[1..], limits);
      assert forall j :: 0 < j < |os| ==> os[j] == os[1..][j - 1];
    }
  }

  lemma {:induction false} NoneAdmitted(env: Numerals, numeric: bool, os: seq<Value>, limits: (real, real))
    requires Filtered(env, numeric, os, limits) == Ok([])
    ensures forall j :: 0 <= j < |os| ==> !Admits(env, limits, os[j])
  {
    if os != [] {
      NoneAdmitted(env, numeric, os[1..], limits);
      assert forall j :: 0 < j < |os| ==> os[j] == os[1..][j - 1];
    }
  }

  lemma FirstLater(env: Numerals, os: seq<Value>, limits: (real, real), o: Value)
    requires os != [] && !Admits(env, limits, os[0]) && FirstAdmitted(env, os[1..], limits, o)
    ensures FirstAdmitted(env, os, limits, o)
  {
    var i :| 0 <= i < |os[1..]| && os[1..][i] == o && Admits(env, limits, o) &&
             forall j :: 0 <= j < i ==> !Admits(env, limits, os[1..][j]);
    assert os[i + 1] == o && forall j :: 0 < j < i + 1 ==> os[j] == os[1..][j - 1];
  }

  lemma LastLater(env: Numerals, os: seq<Value>, limits: (real, real), o: Value)
    requires os != [] && LastAdmitted(env, os[1..], limits, o)
    ensures LastAdmitted(env, os, limits, o)
  {
    var i :| 0 <= i < |os[1..]| && os[1..][i] == o && Admits(env, limits, o) &&
             forall j :: i < j < |os[1..]| ==> !Admits(env, limits, os[1..][j]);
    assert os[i + 1] == o && forall j :: i + 1 < j < |os| ==> os[j] == os[1..][j - 1];
  }
}
