/** One pass of the configuration checker over a row, over a table, and over the whole document. */
module CheckPass {
  import opened Wrappers
  import opened CheckRules

  /** The rule for a column, and the value another column is to take. */
  datatype Entry = Entry(column: string, rule: Rule)
  datatype Change = Change(column: string, value: Value)

  datatype Case = Case(tag: string, entries: seq<Entry>)
  datatype Alteration = Alteration(tag: string, changes: seq<Change>)

  /** Static rules, rules that depend on a column, and alterations that depend on a column. */
  datatype Group =
    | Static(entries: seq<Entry>)
    | Dynamic(selector: string, cases: seq<Case>)
    | Disabled(plain: bool, condition: string, alterations: seq<Alteration>)

  /** The rules of one table, in the order in which they are looked at. */
  datatype Para = Para(fixed: seq<Entry>, dynamic: seq<Group>, disabled: seq<Group>) {

    function Groups(): seq<Group> {
      [Static(fixed)] + dynamic + disabled
    }
  }

  /** What is done to one column of a row: a rule is checked, or a value of the given kind is written. */
  datatype Action = ByRule(rule: Rule) | Become(numeric: bool, value: Value)
  datatype Step = Step(column: string, action: Action)

  const DELETE := Text("delete")

  /** One step on a row; a column that is absent is skipped, and the repair "delete" empties the row. */
  function Write(env: Numerals, row: Row, step: Step): Outcome<Row> {
    if step.column !in row then Ok(row)
    else match step.action
      case Become(numeric, v) =>
        if row[step.column].Num? != numeric || v.Num? != numeric then Fail(TypeError) else Ok(row[step.column := v])
      case ByRule(rule) =>
        var verdict :- Check(env, rule, row, step.column);
        Ok(if verdict.Nothing? then row
           else if verdict.value == DELETE then map[]
           else row[step.column := verdict.value])
  }

  function Run(env: Numerals, row: Row, steps: seq<Step>): Outcome<Row>
    decreases |steps|
  {
    if steps == [] then Ok(row)
    else
      var next :- Write(env, row, steps[0]);
      Run(env, next, steps[1..])
  }

  predicate Matches(env: Numerals, tag: string, v: Value) {
    match v
    case Num(n) => env.integer(tag) == n
    case Text(s) => tag == s
  }

  function Rules(entries: seq<Entry>): (steps: seq<Step>)
    ensures |steps| == |entries|
  {
    seq(|entries|, i requires 0 <= i < |entries| => Step(entries[i].column, ByRule(entries[i].rule)))
  }

  function Changes(changes: seq<Change>, numeric: bool): (steps: seq<Step>)
    ensures |steps| == |changes|
  {
    seq(|changes|, i requires 0 <= i < |changes| => Step(changes[i].column, Become(numeric, changes[i].value)))
  }

  function MatchingRules(env: Numerals, cases: seq<Case>, v: Value): seq<Step> {
    if cases == [] then []
    else (if Matches(env, cases[0].tag, v) then Rules(cases[0].entries) else []) + MatchingRules(env, cases[1..], v)
  }

  function MatchingChanges(env: Numerals, cases: seq<Alteration>, v: Value): seq<Step> {
    if cases == [] then []
    else (if Matches(env, cases[0].tag, v) then Changes(cases[0].changes, v.Num?) else []) +
         MatchingChanges(env, cases[1..], v)
  }

  /** The steps a group asks for; the selecting value is read once, before any of them. */
  function Selected(env: Numerals, g: Group, row: Row): seq<Step> {
    match g
    case Static(entries) => Rules(entries)
    case Dynamic(selector, cases) =>
      if selector in row then MatchingRules(env, cases, row[selector]) else []
    case Disabled(plain, condition, cases) =>
      if !plain && condition in row then MatchingChanges(env, cases, row[condition]) else []
  }

  /** A pass over a row; an empty result is a row to be dropped. */
  function Pass(env: Numerals, row: Row, gs: seq<Group>): Outcome<Row>
    decreases |gs|
  {
    if gs == [] then Ok(row)
    else
      var next :- Run(env, row, Selected(env, gs[0], row));
      Pass(env, next, gs[1..])
  }

  /** The steps that a pass takes, in order, and those that the row itself selects. */
  function Taken(env: Numerals, row: Row, gs: seq<Group>): seq<Step>
    decreases |gs|
  {
    if gs == [] then []
    else
      var next := Run(env, row, Selected(env, gs[0], row));
      Selected(env, gs[0], row) + if next.Ok? then Taken(env, next.value, gs[1..]) else []
  }

  function Active(env: Numerals, row: Row, gs: seq<Group>): seq<Step> {
    if gs == [] then [] else Selected(env, gs[0], row) + Active(env, row, gs[1..])
  }

  /** What a step asks of a row. */
  ghost predicate Satisfied(env: Numerals, row: Row, step: Step) {
    step.column in row ==>
      match step.action
      case ByRule(rule) => Check(env, rule, row, step.column).Ok? && Meets(env, rule, row, step.column)
      case Become(numeric, v) => row[step.column] == v && v.Num? == numeric
  }

  ghost predicate OrderedStep(env: Numerals, row: Row, step: Step) {
    step.action.ByRule? ==> OrderedAt(env, step.action.rule, row)
  }

  ghost predicate AllKeep(env: Numerals, row: Row, steps: seq<Step>) {
    forall i :: 0 <= i < |steps| ==> Write(env, row, steps[i]) == Ok(row)
  }

  ghost predicate AllSatisfied(env: Numerals, row: Row, steps: seq<Step>) {
    forall i :: 0 <= i < |steps| ==> Satisfied(env, row, steps[i])
  }

  /** In the run from `row` no step concerns a column that an earlier step changed. */
  ghost predicate NotUndone(env: Numerals, row: Row, steps: seq<Step>)
    decreases |steps|
  {
    steps != [] && Write(env, row, steps[0]).Ok? ==>
      var next := Write(env, row, steps[0]).value;
      (next != row ==> forall i :: 0 < i < |steps| ==> steps[i].column != steps[0].column) &&
      NotUndone(env, next, steps[1..])
  }

  /** No limits cross among the rules active on the row. */
  ghost predicate OrderedRow(env: Numerals, gs: seq<Group>, row: Row) {
    forall i :: 0 <= i < |Active(env, row, gs)| ==> OrderedStep(env, row, Active(env, row, gs)[i])
  }

  /** No two steps concern the same column. */
  ghost predicate Distinct(steps: seq<Step>) {
    forall i, j :: 0 <= i < j < |steps| ==> steps[i].column != steps[j].column
  }

  /** A repair by a text is never the text that was there. */
  lemma RepairDiffers(env: Numerals, rule: Rule, row: Row, key: string)
    requires key in row && Check(env, rule, row, key) == Ok(Repair(row[key]))
    ensures row[key].Num?
  {
    match rule
    case Options(os) => assert Member(os[0].Num?, os, row[key]) == Ok(false);
    case FilteredOptions(os, b) =>
      FilteredStable(env, os, Limits(env, b, row).value, row[key], row[key]);
    case _ =>
  }

  /** A step leaves a row alone exactly when the row satisfies it. */
  lemma KeepsIffSatisfied(env: Numerals, row: Row, step: Step)
    requires row != map[] && OrderedStep(env, row, step)
    ensures Write(env, row, step) == Ok(row) <==> Satisfied(env, row, step)
  {
    var k := step.column;
    if k in row {
      match step.action
      case Become(numeric, v) =>
        if row[k := v] == row {
          assert row[k := v][k] == v;
        }
      case ByRule(rule) =>
        var c := Check(env, rule, row, k);
        if c.Ok? {
          KeepsIffMeets(env, rule, row, k);
          if c == Ok(Repair(row[k])) {
            RepairDiffers(env, rule, row, k);
            assert row[k := row[k]] == row;
          } else if c.value.Repair? {
            assert row[k := c.value.value][k] != row[k];
          }
        }
    }
  }

  lemma {:induction false} RunConcat(env: Numerals, row: Row, a: seq<Step>, b: seq<Step>)
    ensures Run(env, row, a + b) == (if Run(env, row, a).Ok? then Run(env, Run(env, row, a).value, b) else Run(env, row, a))
    decreases |a|
  {
    if a == [] {
      assert a + b == b;
    } else {
      assert (a + b)[0] == a[0] && (a + b)[1..] == a[1..] + b;
      var next := Write(env, row, a[0]);
      if next.Ok? {
        RunConcat(env, next.value, a[1..], b);
      }
    }
  }

  /** A pass is one run over the steps that it takes. */
  lemma {:induction false} PassIsRun(env: Numerals, row: Row, gs: seq<Group>)
    ensures Pass(env, row, gs) == Run(env, row, Taken(env, row, gs))
    decreases |gs|
  {
    if gs != [] {
      var now := Selected(env, gs[0], row);
      var next := Run(env, row, now);
      if next.Ok? {
        PassIsRun(env, next.value, gs[1..]);
        RunConcat(env, row, now, Taken(env, next.value, gs[1..]));
      } else {
        assert now + [] == now;
      }
    }
  }

  /** Nothing happens to an emptied row. */
  lemma {:induction false} EmptyStays(env: Numerals, steps: seq<Step>)
    ensures Run(env, map[], steps) == Ok(map[])
    decreases |steps|
  {
    if steps != [] {
      EmptyStays(env, steps[1..]);
    }
  }

  lemma EmptyPass(env: Numerals, gs: seq<Group>)
    ensures Pass(env, map[], gs) == Ok(map[])
  {
    PassIsRun(env, map[], gs);
    EmptyStays(env, Taken(env, map[], gs));
  }

  lemma {:induction false} PassConcat(env: Numerals, row: Row, a: seq<Group>, b: seq<Group>)
    ensures Pass(env, row, a + b) == (if Pass(env, row, a).Ok? then Pass(env, Pass(env, row, a).value, b) else Pass(env, row, a))
    decreases |a|
  {
    if a == [] {
      assert a + b == b;
    } else {
      assert (a + b)[0] == a[0] && (a + b)[1..] == a[1..] + b;
      var next := Run(env, row, Selected(env, a[0], row));
      if next.Ok? {
        PassConcat(env, next.value, a[1..], b);
      }
    }
  }

  /** A run leaves a column alone that none of its steps concern, unless it empties the row. */
  lemma {:induction false} RunUntouched(env: Numerals, row: Row, steps: seq<Step>, key: string)
    requires forall i :: 0 <= i < |steps| ==> steps[i].column != key
    requires Run(env, row, steps).Ok?
    ensures var r := Run(env, row, steps).value;
            r == map[] || ((key in r <==> key in row) && (key in r ==> r[key] == row[key]))
    ensures row == map[] ==> Run(env, row, steps).value == map[]
    decreases |steps|
  {
    if steps != [] {
      RunUntouched(env, Write(env, row, steps[0]).value, steps[1..], key);
    }
  }

  /** When a run restores a row and undoes no change, no step changed it. */
  lemma {:induction false} RunKeeps(env: Numerals, row: Row, steps: seq<Step>)
    requires row != map[] && NotUndone(env, row, steps) && Run(env, row, steps) == Ok(row)
    ensures AllKeep(env, row, steps)
    decreases |steps|
  {
    if steps != [] {
      var key, next := steps[0].column, Write(env, row, steps[0]).value;
      if next != row {
        RunUntouched(env, next, steps[1..], key);
      }
      assert next == row;
      RunKeeps(env, row, steps[1..]);
      forall i | 0 <= i < |steps|
        ensures Write(env, row, steps[i]) == Ok(row)
      {
        assert i > 0 ==> steps[i] == steps[1..][i - 1];
      }
    }
  }

  lemma {:induction false} KeepRuns(env: Numerals, row: Row, steps: seq<Step>)
    requires AllKeep(env, row, steps)
    ensures Run(env, row, steps) == Ok(row)
    decreases |steps|
  {
    if steps != [] {
      assert Write(env, row, steps[0]) == Ok(row);
      assert forall i :: 0 <= i < |steps[1..]| ==> steps[1..][i] == steps[i + 1];
      KeepRuns(env, row, steps[1..]);
    }
  }

  lemma {:induction false} KeptNotUndone(env: Numerals, row: Row, steps: seq<Step>)
    requires AllKeep(env, row, steps)
    ensures NotUndone(env, row, steps)
    decreases |steps|
  {
    if steps != [] {
      assert Write(env, row, steps[0]) == Ok(row);
      assert forall i :: 0 <= i < |steps[1..]| ==> steps[1..][i] == steps[i + 1];
      KeptNotUndone(env, row, steps[1..]);
    }
  }

  /** Steps on distinct columns undo nothing. */
  lemma {:induction false} DistinctNotUndone(env: Numerals, row: Row, steps: seq<Step>)
    requires Distinct(steps)
    ensures NotUndone(env, row, steps)
    decreases |steps|
  {
    if steps != [] && Write(env, row, steps[0]).Ok? {
      assert forall i :: 0 <= i < |steps[1..]| ==> steps[1..][i] == steps[i + 1];
      DistinctNotUndone(env, Write(env, row, steps[0]).value, steps[1..]);
    }
  }

  lemma AllKeepSplit(env: Numerals, row: Row, a: seq<Step>, b: seq<Step>)
    ensures AllKeep(env, row, a + b) <==> AllKeep(env, row, a) && AllKeep(env, row, b)
  {
    if AllKeep(env, row, a + b) {
      assert forall i :: 0 <= i < |a| ==> a[i] == (a + b)[i];
      assert forall i :: 0 <= i < |b| ==> b[i] == (a + b)[|a| + i];
    }
  }

  /** A row that all its active steps leave alone is left alone by the pass. */
  lemma {:induction false} KeptByActive(env: Numerals, row: Row, gs: seq<Group>)
    requires AllKeep(env, row, Active(env, row, gs))
    ensures Pass(env, row, gs) == Ok(row) && Taken(env, row, gs) == Active(env, row, gs)
    decreases |gs|
  {
    if gs != [] {
      AllKeepSplit(env, row, Selected(env, gs[0], row), Active(env, row, gs[1..]));
      KeepRuns(env, row, Selected(env, gs[0], row));
      KeptByActive(env, row, gs[1..]);
    }
  }

  /** When no step taken changes the row, the steps taken are the active ones. */
  lemma {:induction false} KeptByTaken(env: Numerals, row: Row, gs: seq<Group>)
    requires AllKeep(env, row, Taken(env, row, gs))
    ensures Taken(env, row, gs) == Active(env, row, gs)
    decreases |gs|
  {
    if gs != [] {
      var now := Selected(env, gs[0], row);
      var next := Run(env, row, now);
      AllKeepSplit(env, row, now, if next.Ok? then Taken(env, next.value, gs[1..]) else []);
      KeepRuns(env, row, now);
      KeptByTaken(env, row, gs[1..]);
    }
  }

  /** A row satisfies every rule active on it exactly when it comes out of a pass as it went in and no step of
      the pass concerned a column that an earlier one had changed; then no step changed anything at all. */
  lemma RowFixpoint(env: Numerals, row: Row, gs: seq<Group>)
    requires row != map[] && OrderedRow(env, gs, row)
    ensures AllSatisfied(env, row, Active(env, row, gs)) <==>
              Pass(env, row, gs) == Ok(row) && NotUndone(env, row, Taken(env, row, gs))
    ensures AllSatisfied(env, row, Active(env, row, gs)) <==> AllKeep(env, row, Taken(env, row, gs))
  {
    if Pass(env, row, gs) == Ok(row) && NotUndone(env, row, Taken(env, row, gs)) {
      PassIsRun(env, row, gs);
      RunKeeps(env, row, Taken(env, row, gs));
    }
    if AllKeep(env, row, Taken(env, row, gs)) {
      KeptByTaken(env, row, gs);
    }
    SatisfiedKeeps(env, row, Active(env, row, gs));
    if AllSatisfied(env, row, Active(env, row, gs)) {
      KeptByActive(env, row, gs);
      KeptNotUndone(env, row, Taken(env, row, gs));
    }
  }

  lemma SatisfiedKeeps(env: Numerals, row: Row, steps: seq<Step>)
    requires row != map[] && forall i :: 0 <= i < |steps| ==> OrderedStep(env, row, steps[i])
    ensures AllKeep(env, row, steps) <==> AllSatisfied(env, row, steps)
  {
    forall i | 0 <= i < |steps|
      ensures Write(env, row, steps[i]) == Ok(row) <==> Satisfied(env, row, steps[i])
    {
      KeepsIffSatisfied(env, row, steps[i]);
    }
  }

  /** Column `i` of a row, as a number or a text, is what a tag names. */
  ghost predicate Named(env: Numerals, tag: string, row: Row, column: string) {
    column in row && row[column] in {Num(env.integer(tag)), Text(tag)}
  }

  /** One of the rules of one of the cases that the column names. */
  ghost predicate FromCase(env: Numerals, cases: seq<Case>, row: Row, column: string, step: Step) {
    exists c, e :: c in cases && Named(env, c.tag, row, column) && e in c.entries && step == Step(e.column, ByRule(e.rule))
  }

  /** One of the values of one of the cases that the column names; it has to be of the kind of that column. */
  ghost predicate FromAlteration(env: Numerals, cases: seq<Alteration>, row: Row, column: string, step: Step) {
    exists c, e :: c in cases && Named(env, c.tag, row, column) && e in c.changes &&
                   step == Step(e.column, Become(row[column].Num?, e.value))
  }

  /** The steps that a group selects are those of all the cases that the selecting column names. */
  lemma SelectedMeans(env: Numerals, g: Group, row: Row, step: Step)
    ensures step in Selected(env, g, row) <==>
              match g
              case Static(entries) => exists e :: e in entries && step == Step(e.column, ByRule(e.rule))
              case Dynamic(selector, cases) => FromCase(env, cases, row, selector, step)
              case Disabled(plain, condition, cases) => !plain && FromAlteration(env, cases, row, condition, step)
  {
    match g
    case Static(entries) => RulesMean(entries, step);
    case Dynamic(selector, cases) =>
      if selector in row {
        MatchingRulesMean(env, cases, row, selector, step);
      }
    case Disabled(plain, condition, cases) =>
      if condition in row {
        MatchingChangesMean(env, cases, row, condition, step);
      }
  }

  lemma RulesMean(entries: seq<Entry>, step: Step)
    ensures step in Rules(entries) <==> exists e :: e in entries && step == Step(e.column, ByRule(e.rule))
  {
    if e :| e in entries && step == Step(e.column, ByRule(e.rule)) {
      var i :| 0 <= i < |entries| && entries[i] == e;
      assert Rules(entries)[i] == step;
    }
    if step in Rules(entries) {
      var i :| 0 <= i < |entries| && Rules(entries)[i] == step;
      assert entries[i] in entries;
    }
  }

  lemma ChangesMean(changes: seq<Change>, numeric: bool, step: Step)
    ensures step in Changes(changes, numeric) <==> exists e :: e in changes && step == Step(e.column, Become(numeric, e.value))
  {
    if e :| e in changes && step == Step(e.column, Become(numeric, e.value)) {
      var i :| 0 <= i < |changes| && changes[i] == e;
      assert Changes(changes, numeric)[i] == step;
    }
    if step in Changes(changes, numeric) {
      var i :| 0 <= i < |changes| && Changes(changes, numeric)[i] == step;
      assert changes[i] in changes;
    }
  }

  lemma {:induction false} MatchingRulesMean(env: Numerals, cases: seq<Case>, row: Row, column: string, step: Step)
    requires column in row
    ensures step in MatchingRules(env, cases, row[column]) <==> FromCase(env, cases, row, column, step)
  {
    if cases != [] {
      MatchingRulesMean(env, cases[1..], row, column, step);
      RulesMean(cases[0].entries, step);
      assert cases == [cases[0]] + cases[1..];
      assert Matches(env, cases[0].tag, row[column]) <==> Named(env, cases[0].tag, row, column);
    }
  }

  lemma {:induction false} MatchingChangesMean(env: Numerals, cases: seq<Alteration>, row: Row, column: string, step: Step)
    requires column in row
    ensures step in MatchingChanges(env, cases, row[column]) <==> FromAlteration(env, cases, row, column, step)
  {
    if cases != [] {
      MatchingChangesMean(env, cases[1..], row, column, step);
      ChangesMean(cases[0].changes, row[column].Num?, step);
      assert cases == [cases[0]] + cases[1..];
      assert Matches(env, cases[0].tag, row[column]) <==> Named(env, cases[0].tag, row, column);
    }
  }

  /** Rules and cases that come first are looked at first. */
  lemma {:induction false} SelectedInOrder(env: Numerals, row: Row, column: string, a: seq<Case>, b: seq<Case>,
                                           e: seq<Entry>, f: seq<Entry>)
    ensures Selected(env, Dynamic(column, a + b), row) ==
              Selected(env, Dynamic(column, a), row) + Selected(env, Dynamic(column, b), row)
    ensures Selected(env, Static(e + f), row) == Selected(env, Static(e), row) + Selected(env, Static(f), row)
    decreases |a|
  {
    if a == [] {
      assert a + b == b;
    } else {
      assert (a + b)[0] == a[0] && (a + b)[1..] == a[1..] + b;
      SelectedInOrder(env, row, column, a[1..], b, e, f);
    }
  }

  /** The columns a group may concern, whatever the row. */
  function Targets(g: Group): set<string> {
    match g
    case Static(entries) => Columns(entries)
    case Dynamic(_, cases) => set c, e | c in cases && e in c.entries :: e.column
    case Disabled(_, _, cases) => set c, e | c in cases && e in c.changes :: e.column
  }

  function Columns(entries: seq<Entry>): set<string> {
    set e | e in entries :: e.column
  }

  /** Rules that cannot get in each other's way: no column is the concern of two groups, and within a group
      no value of the selecting column activates two steps on one column. */
  ghost predicate Independent(env: Numerals, gs: seq<Group>) {
    && (forall i, j :: 0 <= i < j < |gs| ==> Targets(gs[i]) !! Targets(gs[j]))
    && (forall i, row :: 0 <= i < |gs| ==> Distinct(Selected(env, gs[i], row)))
  }

  lemma {:induction false} MatchingTargets(env: Numerals, cases: seq<Case>, v: Value, step: Step)
    requires step in MatchingRules(env, cases, v)
    ensures exists c, e :: c in cases && e in c.entries && e.column == step.column
  {
    if step in MatchingRules(env, cases[1..], v) {
      MatchingTargets(env, cases[1..], v, step);
    } else {
      var i :| 0 <= i < |cases[0].entries| && Rules(cases[0].entries)[i] == step;
      assert cases[0].entries[i] in cases[0].entries && cases[0] in cases;
    }
  }

  lemma {:induction false} AlteredTargets(env: Numerals, cases: seq<Alteration>, v: Value, step: Step)
    requires step in MatchingChanges(env, cases, v)
    ensures exists c, e :: c in cases && e in c.changes && e.column == step.column
  {
    if step in MatchingChanges(env, cases[1..], v) {
      AlteredTargets(env, cases[1..], v, step);
    } else {
      var i :| 0 <= i < |cases[0].changes| && Changes(cases[0].changes, v.Num?)[i] == step;
      assert cases[0].changes[i] in cases[0].changes && cases[0] in cases;
    }
  }

  lemma SelectedTargets(env: Numerals, g: Group, row: Row)
    ensures forall step :: step in Selected(env, g, row) ==> step.column in Targets(g)
  {
    forall step | step in Selected(env, g, row)
      ensures step.column in Targets(g)
    {
      match g
      case Static(entries) =>
        var i :| 0 <= i < |entries| && Rules(entries)[i] == step;
        assert entries[i] in entries;
      case Dynamic(selector, cases) => MatchingTargets(env, cases, row[selector], step);
      case Disabled(_, condition, cases) => AlteredTargets(env, cases, row[condition], step);
    }
  }

  /** Independent rules take no two steps on the same column, whatever the row and its repairs. */
  lemma {:induction false} IndependentDistinct(env: Numerals, row: Row, gs: seq<Group>)
    requires Independent(env, gs)
    ensures Distinct(Taken(env, row, gs))
    ensures forall step :: step in Taken(env, row, gs) ==> exists i :: 0 <= i < |gs| && step.column in Targets(gs[i])
    decreases |gs|
  {
    if gs != [] {
      var now := Selected(env, gs[0], row);
      var next := Run(env, row, now);
      SelectedTargets(env, gs[0], row);
      var later := if next.Ok? then Taken(env, next.value, gs[1..]) else [];
      if next.Ok? {
        assert Independent(env, gs[1..]) by {
          assert forall i :: 0 <= i < |gs[1..]| ==> gs[1..][i] == gs[i + 1];
        }
        IndependentDistinct(env, next.value, gs[1..]);
      }
      forall step | step in later
        ensures step.column !in Targets(gs[0])
        ensures exists i :: 0 <= i < |gs| && step.column in Targets(gs[i])
      {
        var i :| 0 <= i < |gs[1..]| && step.column in Targets(gs[1..][i]);
        assert gs[1..][i] == gs[i + 1];
      }
      DistinctConcat(now, later, Targets(gs[0]));
    }
  }

  lemma DistinctConcat(a: seq<Step>, b: seq<Step>, t: set<string>)
    requires Distinct(a) && Distinct(b)
    requires forall s :: s in a ==> s.column in t
    requires forall s :: s in b ==> s.column !in t
    ensures Distinct(a + b)
  {
    forall i, j | 0 <= i < j < |a + b|
      ensures (a + b)[i].column != (a + b)[j].column
    {
      assert i < |a| ==> (a + b)[i] == a[i] && a[i] in a;
      assert j >= |a| ==> (a + b)[j] == b[j - |a|] && b[j - |a|] in b;
      assert j < |a| ==> (a + b)[j] == a[j];
      assert i >= |a| ==> (a + b)[i] == b[i - |a|];
    }
  }
}
