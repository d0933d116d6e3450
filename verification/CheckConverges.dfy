/** How soon the configuration checker reaches its fixpoint. */
module CheckConverges {
  import opened Wrappers
  import opened CheckRules
  import opened CheckPass
  import opened CheckTables

  /** The columns that a rule's bounds name, and those that select the rules of a group. */
  function Named(b: Bounds): set<string> {
    (if b.max.Column? then {b.max.name} else {}) + (if b.min.Column? then {b.min.name} else {})
  }

  function RuleReads(rule: Rule): set<string> {
    match rule
    case DynamicRange(b) => Named(b)
    case FilteredOptions(_, b) => Named(b)
    case _ => {}
  }

  function StepReads(s: Step): set<string> {
    match s.action
    case ByRule(rule) => RuleReads(rule)
    case Become(_, _) => {}
  }

  function Selectors(g: Group): set<string> {
    match g
    case Static(_) => {}
    case Dynamic(selector, _) => {selector}
    case Disabled(_, condition, _) => {condition}
  }

  ghost predicate Agree(a: Row, b: Row, key: string) {
    (key in a <==> key in b) && (key in a ==> a[key] == b[key])
  }

  /** A step depends on its own column and on the columns its bounds name. */
  lemma StepFrame(env: Numerals, a: Row, b: Row, s: Step)
    requires Agree(a, b, s.column) && forall k :: k in StepReads(s) ==> Agree(a, b, k)
    requires Write(env, a, s) == Ok(a) && a != map[] && b != map[]
    ensures Write(env, b, s) == Ok(b)
  {
    if s.column in a {
      match s.action
      case Become(_, v) =>
        assert a[s.column := v][s.column] == v;
        assert b[s.column := b[s.column]] == b;
      case ByRule(rule) =>
        CheckFrame(env, a, b, rule, s.column);
        var c := Check(env, rule, a, s.column).value;
        if c.Repair? {
          assert c.value != DELETE;
          assert a[s.column := c.value][s.column] == c.value;
          assert b[s.column := b[s.column]] == b;
        }
    }
  }

  lemma EvaluatedFrame(env: Numerals, b: Bound, rate: Option<real>, otherwise: real, r: Row, s: Row)
    requires b.Column? ==> Agree(r, s, b.name)
    ensures Evaluated(env, b, rate, otherwise, r) == Evaluated(env, b, rate, otherwise, s)
  {
    match b
    case Column(k) =>
      assert Agree(r, s, k);
      assert k in r ==> r[k] == s[k];
    case _ =>
  }

  lemma LimitsFrame(env: Numerals, b: Bounds, r: Row, s: Row)
    requires forall k :: k in Named(b) ==> Agree(r, s, k)
    ensures Limits(env, b, r) == Limits(env, b, s)
  {
    EvaluatedFrame(env, b.max, b.maxRate, HIGHEST, r, s);
    EvaluatedFrame(env, b.min, b.minRate, LOWEST, r, s);
  }

  lemma CheckFrame(env: Numerals, a: Row, b: Row, rule: Rule, key: string)
    requires key in a && Agree(a, b, key) && forall k :: k in RuleReads(rule) ==> Agree(a, b, k)
    ensures Check(env, rule, a, key) == Check(env, rule, b, key)
    ensures OrderedAt(env, rule, a) <==> OrderedAt(env, rule, b)
  {
    if rule.DynamicRange? || rule.FilteredOptions? {
      var bs := rule.bounds;
      LimitsFrame(env, bs, a, b);
    }
  }

  /** Having been taken, a step has nothing left to do. */
  lemma StepSettles(env: Numerals, row: Row, s: Step)
    requires OrderedStep(env, row, s) && s.column !in StepReads(s)
    requires Write(env, row, s).Ok? && Write(env, row, s).value != map[]
    ensures Write(env, Write(env, row, s).value, s) == Write(env, row, s)
  {
    var next := Write(env, row, s).value;
    if s.column in row {
      match s.action
      case Become(_, v) => assert next[s.column := v] == next;
      case ByRule(rule) =>
        var c := Check(env, rule, row, s.column).value;
        if c.Repair? && c.value != DELETE {
          assert rule.DynamicRange? || rule.FilteredOptions? ==> rule.bounds.Avoids(s.column);
          RepairStable(env, rule, row, s.column, c.value);
          assert next[s.column := c.value] == next;
        }
    }
  }

  /** No step's bounds name a column that some step concerns. */
  ghost predicate Apart(steps: seq<Step>) {
    forall s, t :: s in steps && t in steps ==> t.column !in StepReads(s)
  }

  /** After a run of such steps on distinct columns none of them has anything left to do. */
  lemma {:induction false} RunSettles(env: Numerals, row: Row, steps: seq<Step>)
    requires Distinct(steps) && Apart(steps) && forall s :: s in steps ==> OrderedStep(env, row, s)
    requires Run(env, row, steps).Ok? && Run(env, row, steps).value != map[]
    ensures AllKeep(env, Run(env, row, steps).value, steps)
    decreases |steps|
  {
    if steps != [] {
      var s, next, rest, r := steps[0], Write(env, row, steps[0]).value, steps[1..], Run(env, row, steps).value;
      if next == map[] {
        EmptyStays(env, rest);
        assert false;
      }
      assert s in steps && forall t :: t in rest ==> t in steps;
      forall t | t in rest
        ensures OrderedStep(env, next, t)
      {
        OrderedFrame(env, row, next, s.column, t);
      }
      RunSettles(env, next, rest);
      StepSettles(env, row, s);
      RunAgrees(env, next, rest, {s.column} + StepReads(s));
      StepFrame(env, next, r, s);
      assert forall i :: 0 < i < |steps| ==> steps[i] == rest[i - 1];
    }
  }

  lemma OrderedFrame(env: Numerals, row: Row, next: Row, key: string, t: Step)
    requires OrderedStep(env, row, t) && key !in StepReads(t)
    requires forall k :: k != key ==> Agree(row, next, k)
    ensures OrderedStep(env, next, t)
  {
    if t.action.ByRule? && t.action.rule.DynamicRange? {
      var bs := t.action.rule.bounds;
      LimitsFrame(env, bs, row, next);
    }
  }

  lemma RunAgrees(env: Numerals, row: Row, steps: seq<Step>, keys: set<string>)
    requires Run(env, row, steps).Ok? && Run(env, row, steps).value != map[]
    requires forall s :: s in steps ==> s.column !in keys
    ensures forall k :: k in keys ==> Agree(row, Run(env, row, steps).value, k)
  {
    forall k | k in keys
      ensures Agree(row, Run(env, row, steps).value, k)
    {
      RunUntouched(env, row, steps, k);
    }
  }

  /** Neither selectors nor bounds are repaired: no group concerns a column that selects rules or limits a value. */
  ghost predicate Undisturbed(env: Numerals, gs: seq<Group>) {
    && (forall g, h :: g in gs && h in gs ==> Targets(g) !! Selectors(h))
    && (forall row :: Apart(Active(env, row, gs)))
  }

  lemma {:induction false} ActiveFrame(env: Numerals, a: Row, b: Row, gs: seq<Group>)
    requires forall g, k :: g in gs && k in Selectors(g) ==> Agree(a, b, k)
    ensures Active(env, a, gs) == Active(env, b, gs)
    decreases |gs|
  {
    if gs != [] {
      assert gs[0] in gs;
      match gs[0] {
        case Static(_) =>
        case Dynamic(selector, _) => assert Agree(a, b, selector);
        case Disabled(_, condition, _) => assert Agree(a, b, condition);
      }
      ActiveFrame(env, a, b, gs[1..]);
    }
  }

  /** When no selector is repaired, the steps a pass takes are those active at its start. */
  lemma {:induction false} TakenIsActive(env: Numerals, row: Row, gs: seq<Group>, selectors: set<string>)
    requires forall g :: g in gs ==> Selectors(g) <= selectors && Targets(g) !! selectors
    requires Pass(env, row, gs).Ok? && Pass(env, row, gs).value != map[]
    ensures Taken(env, row, gs) == Active(env, row, gs)
    decreases |gs|
  {
    if gs != [] {
      var now := Selected(env, gs[0], row);
      var next := Run(env, row, now).value;
      if next == map[] {
        PassIsRun(env, next, gs[1..]);
        EmptyStays(env, Taken(env, next, gs[1..]));
        assert false;
      }
      assert gs[0] in gs;
      SelectedTargets(env, gs[0], row);
      RunAgrees(env, row, now, selectors);
      TakenIsActive(env, next, gs[1..], selectors);
      ActiveFrame(env, row, next, gs[1..]);
    }
  }

  function AllSelectors(gs: seq<Group>): set<string> {
    set g, k | g in gs && k in Selectors(g) :: k
  }

  /** One pass over a row is enough: a second one changes nothing. */
  lemma OnePassSettles(env: Numerals, row: Row, gs: seq<Group>)
    requires Independent(env, gs) && Undisturbed(env, gs) && OrderedRow(env, gs, row)
    requires Pass(env, row, gs).Ok? && Pass(env, row, gs).value != map[]
    ensures RowFixed(env, gs, Pass(env, row, gs).value)
  {
    var r, selectors := Pass(env, row, gs).value, AllSelectors(gs);
    TakenIsActive(env, row, gs, selectors);
    PassIsRun(env, row, gs);
    IndependentDistinct(env, row, gs);
    var steps := Active(env, row, gs);
    assert forall s :: s in steps ==> OrderedStep(env, row, s);
    RunSettles(env, row, steps);
    assert forall s :: s in steps ==> s.column !in selectors;
    RunAgrees(env, row, steps, selectors);
    ActiveFrame(env, row, r, gs);
    KeptByActive(env, r, gs);
  }

  ghost predicate SettledRules(env: Numerals, gs: seq<Group>, rows: seq<Row>) {
    Independent(env, gs) && Undisturbed(env, gs) && forall i :: 0 <= i < |rows| ==> OrderedRow(env, gs, rows[i])
  }

  lemma {:induction false} RowsSettle(env: Numerals, gs: seq<Group>, rows: seq<Row>)
    requires SettledRules(env, gs, rows) && CheckRows(env, gs, rows).Ok?
    ensures forall i :: 0 <= i < |CheckRows(env, gs, rows).value| ==> RowFixed(env, gs, CheckRows(env, gs, rows).value[i])
    decreases |rows|
  {
    if rows != [] {
      assert OrderedRow(env, gs, rows[0]);
      assert forall i :: 0 <= i < |rows[1..]| ==> rows[1..][i] == rows[i + 1];
      RowsSettle(env, gs, rows[1..]);
      if Pass(env, rows[0], gs).value != map[] {
        OnePassSettles(env, rows[0], gs);
      }
    }
  }

  ghost predicate SettledTable(env: Numerals, paras: seq<NamedPara>, t: Table) {
    var para := ParaOf(paras, t.name);
    para.Some? ==> SettledRules(env, para.value.Groups(), if t.items.Rows? then t.items.rows else [])
  }

  /** With rules that neither meet on a column nor feed one another, the first pass already gives a fixpoint. */
  lemma {:induction false} FirstPassSettles(env: Numerals, paras: seq<NamedPara>, tables: seq<Table>)
    requires forall i :: 0 <= i < |tables| ==> SettledTable(env, paras, tables[i])
    requires CheckAll(env, paras, tables).Ok?
    ensures CheckAll(env, paras, CheckAll(env, paras, tables).value) == CheckAll(env, paras, tables)
    decreases |tables|
  {
    if tables != [] {
      var t, rest := tables[0], tables[1..];
      assert SettledTable(env, paras, t);
      assert forall i :: 0 <= i < |rest| ==> rest[i] == tables[i + 1];
      FirstPassSettles(env, paras, rest);
      var after := CheckTable(env, paras, t).value;
      var para := ParaOf(paras, t.name);
      if para.Some? {
        RowsSettle(env, para.value.Groups(), if t.items.Rows? then t.items.rows else []);
      }
      TableFixpoint(env, paras, after);
      var all := CheckAll(env, paras, tables).value;
      assert all[0] == after && all[1..] == CheckAll(env, paras, rest).value;
    }
  }
}
