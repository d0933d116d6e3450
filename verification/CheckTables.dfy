/** The configuration checker over whole tables: fixpoints, shape, and how soon a fixpoint is reached. */
module CheckTables {
  import opened Wrappers
  import opened CheckRules
  import opened CheckPass

  /** The rows of a table; a table that loses its last row becomes null. */
  datatype Items = Null | Rows(rows: seq<Row>)
  datatype Table = Table(name: string, items: Items)
  datatype NamedPara = NamedPara(name: string, para: Para)

  function CheckRows(env: Numerals, gs: seq<Group>, rows: seq<Row>): Outcome<seq<Row>>
    decreases |rows|
  {
    if rows == [] then Ok([])
    else
      var row :- Pass(env, rows[0], gs);
      var rest :- CheckRows(env, gs, rows[1..]);
      Ok(if row == map[] then rest else [row] + rest)
  }

  function Packed(rows: seq<Row>): Items {
    if rows == [] then Null else Rows(rows)
  }

  function CheckItems(env: Numerals, para: Para, items: Items): Outcome<Items> {
    var rows :- CheckRows(env, para.Groups(), if items.Null? then [] else items.rows);
    Ok(Packed(rows))
  }

  /** The first rules given for a table. */
  function ParaOf(paras: seq<NamedPara>, name: string): (para: Option<Para>)
    ensures para.None? ==> forall i :: 0 <= i < |paras| ==> paras[i].name != name
    ensures para.Some? ==> exists i :: 0 <= i < |paras| && paras[i] == NamedPara(name, para.value) &&
                                       forall j :: 0 <= j < i ==> paras[j].name != name
  {
    if paras == [] then None
    else if paras[0].name == name then Some(paras[0].para)
    else ParaOf(paras[1..], name)
  }

  function CheckTable(env: Numerals, paras: seq<NamedPara>, t: Table): Outcome<Table> {
    match ParaOf(paras, t.name)
    case None => Ok(t)
    case Some(para) =>
      var items :- CheckItems(env, para, t.items);
      Ok(Table(t.name, items))
  }

  function CheckAll(env: Numerals, paras: seq<NamedPara>, tables: seq<Table>): Outcome<seq<Table>>
    decreases |tables|
  {
    if tables == [] then Ok([])
    else
      var t :- CheckTable(env, paras, tables[0]);
      var rest :- CheckAll(env, paras, tables[1..]);
      Ok([t] + rest)
  }

  /** `n` passes. */
  function Passes(env: Numerals, paras: seq<NamedPara>, tables: seq<Table>, n: nat): Outcome<seq<Table>> {
    if n == 0 then Ok(tables)
    else
      var before :- Passes(env, paras, tables, n - 1);
      CheckAll(env, paras, before)
  }

  ghost predicate RowFixed(env: Numerals, gs: seq<Group>, row: Row) {
    row != map[] && Pass(env, row, gs) == Ok(row)
  }

  lemma {:induction false} RowsShrink(env: Numerals, gs: seq<Group>, rows: seq<Row>)
    requires CheckRows(env, gs, rows).Ok?
    ensures |CheckRows(env, gs, rows).value| <= |rows|
    ensures map[] !in CheckRows(env, gs, rows).value
    decreases |rows|
  {
    if rows != [] {
      RowsShrink(env, gs, rows[1..]);
    }
  }

  /** Rows come out as they went in exactly when each of them does: nothing else can look like a fixpoint. */
  lemma {:induction false} RowsFixed(env: Numerals, gs: seq<Group>, rows: seq<Row>)
    ensures CheckRows(env, gs, rows) == Ok(rows) <==> forall i :: 0 <= i < |rows| ==> RowFixed(env, gs, rows[i])
    decreases |rows|
  {
    if rows != [] {
      var rest := rows[1..];
      RowsFixed(env, gs, rest);
      if CheckRows(env, gs, rest).Ok? {
        RowsShrink(env, gs, rest);
      }
      assert rows == [rows[0]] + rest;
      if CheckRows(env, gs, rows) == Ok(rows) {
        assert CheckRows(env, gs, rest) == Ok(rest);
      }
      assert (forall i :: 0 <= i < |rows| ==> RowFixed(env, gs, rows[i])) <==>
        RowFixed(env, gs, rows[0]) && forall i :: 0 <= i < |rest| ==> RowFixed(env, gs, rest[i]) by {
        assert forall i :: 0 < i < |rows| ==> rows[i] == rest[i - 1];
        assert forall i :: 0 <= i < |rest| ==> rest[i] == rows[i + 1];
      }
    }
  }

  /** What a table must be like to come out of a pass unchanged. */
  ghost predicate TableFixed(env: Numerals, paras: seq<NamedPara>, t: Table) {
    var para := ParaOf(paras, t.name);
    para.Some? && t.items.Rows? ==>
      t.items.rows != [] && forall i :: 0 <= i < |t.items.rows| ==> RowFixed(env, para.value.Groups(), t.items.rows[i])
  }

  lemma TableFixpoint(env: Numerals, paras: seq<NamedPara>, t: Table)
    ensures CheckTable(env, paras, t) == Ok(t) <==> TableFixed(env, paras, t)
  {
    var para := ParaOf(paras, t.name);
    if para.Some? && t.items.Rows? {
      RowsFixed(env, para.value.Groups(), t.items.rows);
    }
  }

  lemma {:induction false} AllFixpoint(env: Numerals, paras: seq<NamedPara>, tables: seq<Table>)
    ensures CheckAll(env, paras, tables) == Ok(tables) <==>
      forall i :: 0 <= i < |tables| ==> TableFixed(env, paras, tables[i])
    decreases |tables|
  {
    if tables != [] {
      TableFixpoint(env, paras, tables[0]);
      AllFixpoint(env, paras, tables[1..]);
      assert tables == [tables[0]] + tables[1..];
      assert forall i :: 0 < i < |tables| ==> tables[i] == tables[1..][i - 1];
      assert forall i :: 0 <= i < |tables[1..]| ==> tables[1..][i] == tables[i + 1];
    }
  }

  /** No limits cross on the rows of the table. */
  ghost predicate OrderedTable(env: Numerals, paras: seq<NamedPara>, t: Table) {
    var para := ParaOf(paras, t.name);
    para.Some? && t.items.Rows? ==>
      forall i :: 0 <= i < |t.items.rows| ==> OrderedRow(env, para.value.Groups(), t.items.rows[i])
  }

  /** The rules given for the table are independent of each other. */
  ghost predicate IndependentTable(env: Numerals, paras: seq<NamedPara>, t: Table) {
    var para := ParaOf(paras, t.name);
    para.Some? && t.items.Rows? ==> Independent(env, para.value.Groups())
  }

  /** On no row of the table a step concerns a column that an earlier one changed. */
  ghost predicate TableNotUndone(env: Numerals, paras: seq<NamedPara>, t: Table) {
    var para := ParaOf(paras, t.name);
    para.Some? && t.items.Rows? ==>
      forall i :: 0 <= i < |t.items.rows| ==> RowNotUndone(env, para.value.Groups(), t.items.rows[i])
  }

  ghost predicate RowNotUndone(env: Numerals, gs: seq<Group>, row: Row) {
    NotUndone(env, row, Taken(env, row, gs))
  }

  ghost predicate RowSatisfies(env: Numerals, gs: seq<Group>, row: Row) {
    row != map[] && AllSatisfied(env, row, Active(env, row, gs))
  }

  ghost predicate TableSatisfies(env: Numerals, paras: seq<NamedPara>, t: Table) {
    var para := ParaOf(paras, t.name);
    para.Some? && t.items.Rows? ==>
      t.items.rows != [] && forall i :: 0 <= i < |t.items.rows| ==> RowSatisfies(env, para.value.Groups(), t.items.rows[i])
  }

  /** The documents all of whose rows satisfy every rule active on them are exactly the fixpoints of the check
      in which nothing is undone on the way. */
  lemma SatisfyingFixpoints(env: Numerals, paras: seq<NamedPara>, tables: seq<Table>)
    requires forall i :: 0 <= i < |tables| ==> OrderedTable(env, paras, tables[i])
    ensures (forall i :: 0 <= i < |tables| ==> TableSatisfies(env, paras, tables[i])) <==>
              CheckAll(env, paras, tables) == Ok(tables) &&
              forall i :: 0 <= i < |tables| ==> TableNotUndone(env, paras, tables[i])
  {
    AllFixpoint(env, paras, tables);
    forall i | 0 <= i < |tables|
      ensures TableSatisfies(env, paras, tables[i]) <==>
                TableFixed(env, paras, tables[i]) && TableNotUndone(env, paras, tables[i])
    {
      SatisfiedTable(env, paras, tables[i]);
    }
  }

  lemma SatisfiedTable(env: Numerals, paras: seq<NamedPara>, t: Table)
    requires OrderedTable(env, paras, t)
    ensures TableSatisfies(env, paras, t) <==> TableFixed(env, paras, t) && TableNotUndone(env, paras, t)
  {
    var para := ParaOf(paras, t.name);
    if para.Some? && t.items.Rows? {
      var gs := para.value.Groups();
      forall i | 0 <= i < |t.items.rows|
        ensures RowSatisfies(env, gs, t.items.rows[i]) <==>
                  RowFixed(env, gs, t.items.rows[i]) && (t.items.rows[i] != map[] ==> RowNotUndone(env, gs, t.items.rows[i]))
      {
        var row := t.items.rows[i];
        assert OrderedRow(env, gs, row);
        if row != map[] {
          RowFixpoint(env, row, gs);
        }
      }
    }
  }

  /** Independent rules undo nothing, so their fixpoints are the documents that satisfy them. */
  lemma FixpointsSatisfy(env: Numerals, paras: seq<NamedPara>, tables: seq<Table>)
    requires forall i :: 0 <= i < |tables| ==> IndependentTable(env, paras, tables[i]) && OrderedTable(env, paras, tables[i])
    ensures CheckAll(env, paras, tables) == Ok(tables) <==>
      forall i :: 0 <= i < |tables| ==> TableSatisfies(env, paras, tables[i])
  {
    SatisfyingFixpoints(env, paras, tables);
    forall i | 0 <= i < |tables|
      ensures TableNotUndone(env, paras, tables[i])
    {
      IndependentNotUndone(env, paras, tables[i]);
    }
  }

  lemma IndependentNotUndone(env: Numerals, paras: seq<NamedPara>, t: Table)
    requires IndependentTable(env, paras, t)
    ensures TableNotUndone(env, paras, t)
  {
    var para := ParaOf(paras, t.name);
    if para.Some? && t.items.Rows? {
      var gs := para.value.Groups();
      forall i | 0 <= i < |t.items.rows|
        ensures RowNotUndone(env, gs, t.items.rows[i])
      {
        var row := t.items.rows[i];
        IndependentDistinct(env, row, gs);
        DistinctNotUndone(env, row, Taken(env, row, gs));
      }
    }
  }

  /** Being a fixpoint is not enough: a rule active only on the way undoes the repair of another, and the pass ends
      where it began, on a row that breaks the first rule. */
  lemma UndoneOnTheWay(env: Numerals)
    requires env.integer("5") == 5
    ensures var gs := [Static([Entry("a", Options([Num(5)]))]), Dynamic("a", [Case("5", [Entry("a", Options([Num(3)]))])])];
            var row := map["a" := Num(3)];
            RowFixed(env, gs, row) && Distinct(Active(env, row, gs)) && OrderedRow(env, gs, row) &&
            !RowNotUndone(env, gs, row) && !AllSatisfied(env, row, Active(env, row, gs))
  {
    var three, five: Value := Num(3), Num(5);
    var first, second := Entry("a", Options([five])), Entry("a", Options([three]));
    var case5 := Case("5", [second]);
    var gs := [Static([first]), Dynamic("a", [case5])];
    var row: Row := map["a" := three];
    var s1, s2 := Step("a", ByRule(Options([five]))), Step("a", ByRule(Options([three])));
    assert Rules([first]) == [s1] && Rules([second]) == [s2];
    OneOption(env, row, five, three);
    var mid := row["a" := five];
    assert Run(env, mid, []) == Ok(mid);
    assert Run(env, row, [s1]) == Ok(mid);
    assert MatchingRules(env, [case5][1..], five) == [] && MatchingRules(env, [case5][1..], three) == [];
    assert Selected(env, gs[1], mid) == [s2] && Selected(env, gs[1], row) == [];
    OneOption(env, mid, three, five);
    assert mid["a" := three] == row;
    assert Run(env, row, []) == Ok(row);
    assert Run(env, mid, [s2]) == Ok(row);
    assert gs[1..] == [gs[1]] && gs[1..][1..] == [];
    assert Pass(env, mid, [gs[1]]) == Ok(row);
    assert Pass(env, row, gs) == Ok(row);
    assert Active(env, row, [gs[1]]) == [];
    assert Active(env, row, gs) == [s1];
    assert !Satisfied(env, row, s1);
    RowFixpoint(env, row, gs);
  }

  lemma OneOption(env: Numerals, row: Row, o: Value, v: Value)
    requires "a" in row && row["a"] == v && o.Num? && v.Num? && o != v
    ensures Check(env, Options([o]), row, "a") == Ok(Repair(o))
  {
    assert Member(true, [o][1..], v) == Ok(false);
  }

  /** No repair by these steps can be the text "delete". */
  ghost predicate Sparing(env: Numerals, steps: seq<Step>) {
    forall s :: s in steps && s.action.ByRule? ==> SparingRule(env, s.action.rule)
  }

  /** The list does not begin with "delete"; where it is filtered, no limits that a row can give leave "delete" at
      either end, which is where repairs are taken from. */
  ghost predicate SparingRule(env: Numerals, rule: Rule) {
    match rule
    case Options(os) => os != [] ==> os[0] != DELETE
    case FilteredOptions(os, b) =>
      forall row: Row :: Limits(env, b, row).Ok? ==> SparesEnds(env, os, Limits(env, b, row).value)
    case _ => true
  }

  ghost predicate SparesEnds(env: Numerals, os: seq<Value>, limits: (real, real)) {
    os != [] && Filtered(env, os[0].Num?, os, limits).Ok? ==>
      var left := Filtered(env, os[0].Num?, os, limits).value;
      left != [] ==> left[0] != DELETE && left[|left| - 1] != DELETE
  }

  /** The number of the option lies outside a limit that does not depend on the row. */
  predicate Excludes(env: Numerals, b: Bounds, o: Value) {
    || (b.min.Unset? && NumberOf(env, o) < LOWEST) || (b.min.Fixed? && NumberOf(env, o) < b.min.limit)
    || (b.max.Unset? && NumberOf(env, o) > HIGHEST) || (b.max.Fixed? && NumberOf(env, o) > b.max.limit)
  }

  /** Two conditions that can be read off the rule: no option "delete", or one that a fixed limit keeps out. */
  lemma ExcludesSpares(env: Numerals, os: seq<Value>, b: Bounds)
    requires DELETE !in os || Excludes(env, b, DELETE)
    ensures SparingRule(env, FilteredOptions(os, b))
  {
    forall row: Row | Limits(env, b, row).Ok?
      ensures SparesEnds(env, os, Limits(env, b, row).value)
    {
      var limits := Limits(env, b, row).value;
      assert Excludes(env, b, DELETE) ==> !Admits(env, limits, DELETE);
      if os != [] && Filtered(env, os[0].Num?, os, limits).Ok? {
        FilteredIs(env, os[0].Num?, os, limits);
      }
    }
  }

  lemma SparingRepair(env: Numerals, rule: Rule, row: Row, key: string)
    requires SparingRule(env, rule) && key in row
    ensures Check(env, rule, row, key) != Ok(Repair(DELETE))
  {
    if rule.FilteredOptions? && Check(env, rule, row, key).Ok? && rule.options != [] {
      assert SparesEnds(env, rule.options, Limits(env, rule.bounds, row).value);
    }
  }

  /** A run keeps the columns of a row, unless it empties it; it cannot when no repair can be "delete". */
  lemma {:induction false} RunShape(env: Numerals, row: Row, steps: seq<Step>)
    requires Run(env, row, steps).Ok?
    ensures Run(env, row, steps).value == map[] || Run(env, row, steps).value.Keys == row.Keys
    ensures Sparing(env, steps) ==> Run(env, row, steps).value.Keys == row.Keys
    decreases |steps|
  {
    if steps != [] {
      var s, next := steps[0], Write(env, row, steps[0]).value;
      assert next == map[] || next.Keys == row.Keys;
      if Sparing(env, steps) {
        if s.column in row && s.action.ByRule? {
          SparingRepair(env, s.action.rule, row, s.column);
        }
        assert next.Keys == row.Keys;
        assert Sparing(env, steps[1..]);
      }
      RunShape(env, next, steps[1..]);
    }
  }

  /** A list of texts removes a row exactly when its first option is "delete" and the row's text is none of them. */
  lemma DeleteOption(env: Numerals, os: seq<Value>, row: Row, key: string)
    requires os != [] && (forall o :: o in os ==> o.Text?) && key in row && row[key].Text?
    ensures Run(env, row, [Step(key, ByRule(Options(os)))]) == Ok(map[]) <==> os[0] == Text("delete") && row[key] !in os
  {
    assert os[0] in os;
    MemberOfTexts(os, row[key]);
    assert Check(env, Options(os), row, key) == Ok(if row[key] in os then Nothing else Repair(os[0]));
    var step := Step(key, ByRule(Options(os)));
    var next := Write(env, row, step).value;
    assert Run(env, next, [step][1..]) == Ok(next);
    assert Run(env, row, [step]) == Ok(next);
    assert next == map[] ==> key !in next;
    assert next == (if row[key] in os then row else if os[0] == DELETE then map[] else row[key := os[0]]);
  }

  /** A list of texts spares every row exactly when "delete" is not its first option. */
  lemma DeletesNothing(env: Numerals, os: seq<Value>)
    requires os != [] && forall o :: o in os ==> o.Text?
    ensures SparingRule(env, Options(os)) <==>
              forall row: Row, key :: key in row && row[key].Text? ==> Run(env, row, [Step(key, ByRule(Options(os)))]) != Ok(map[])
  {
    forall row: Row, key | key in row && row[key].Text?
      ensures Run(env, row, [Step(key, ByRule(Options(os)))]) == Ok(map[]) <==> os[0] == DELETE && row[key] !in os
    {
      DeleteOption(env, os, row, key);
    }
    if os[0] == DELETE {
      var v := Fresh(os);
      var row: Row := map["k" := v];
      assert "k" in row && row["k"].Text? && row["k"] !in os;
      assert Run(env, row, [Step("k", ByRule(Options(os)))]) == Ok(map[]);
    }
  }

  /** A text that is none of the options. */
  lemma {:induction false} Fresh(os: seq<Value>) returns (v: Value)
    requires forall o :: o in os ==> o.Text?
    ensures v.Text? && v !in os && forall o :: o in os ==> |o.s| < |v.s|
  {
    if os == [] {
      v := Text("");
    } else {
      var rest := Fresh(os[1..]);
      v := Text(if |rest.s| > |os[0].s| then rest.s else os[0].s + "x");
      assert os == [os[0]] + os[1..];
    }
  }

  lemma {:induction false} MemberOfTexts(os: seq<Value>, v: Value)
    requires (forall o :: o in os ==> o.Text?) && v.Text?
    ensures Member(false, os, v) == Ok(v in os)
  {
    if os != [] {
      MemberOfTexts(os[1..], v);
      assert os[0] in os && os == [os[0]] + os[1..];
    }
  }

  /** No rule of the group can repair by "delete". */
  ghost predicate SparingGroup(env: Numerals, g: Group) {
    match g
    case Static(entries) => forall e :: e in entries ==> SparingRule(env, e.rule)
    case Dynamic(_, cases) => forall c, e :: c in cases && e in c.entries ==> SparingRule(env, e.rule)
    case Disabled(_, _, _) => true
  }

  lemma {:induction false} SparingMatching(env: Numerals, cases: seq<Case>, v: Value)
    requires forall c, e :: c in cases && e in c.entries ==> SparingRule(env, e.rule)
    ensures Sparing(env, MatchingRules(env, cases, v))
  {
    if cases != [] {
      assert forall e :: e in cases[0].entries ==> cases[0] in cases && SparingRule(env, e.rule);
      SparingMatching(env, cases[1..], v);
    }
  }

  lemma {:induction false} SparingChanges(env: Numerals, cases: seq<Alteration>, v: Value)
    ensures Sparing(env, MatchingChanges(env, cases, v))
  {
    if cases != [] {
      SparingChanges(env, cases[1..], v);
    }
  }

  lemma {:induction false} SparingTaken(env: Numerals, row: Row, gs: seq<Group>)
    requires forall g :: g in gs ==> SparingGroup(env, g)
    ensures Sparing(env, Taken(env, row, gs))
    decreases |gs|
  {
    if gs != [] {
      assert gs[0] in gs;
      match gs[0] {
        case Static(entries) =>
        case Dynamic(selector, cases) =>
          if selector in row {
            SparingMatching(env, cases, row[selector]);
          }
        case Disabled(_, condition, cases) =>
          if condition in row {
            SparingChanges(env, cases, row[condition]);
          }
      }
      var next := Run(env, row, Selected(env, gs[0], row));
      if next.Ok? {
        SparingTaken(env, next.value, gs[1..]);
      }
    }
  }

  /** Where no repair can be "delete" a table keeps its rows, in order, and each row its columns. */
  lemma {:induction false} ShapeKept(env: Numerals, gs: seq<Group>, rows: seq<Row>)
    requires CheckRows(env, gs, rows).Ok? && map[] !in rows && forall g :: g in gs ==> SparingGroup(env, g)
    ensures var after := CheckRows(env, gs, rows).value;
            |after| == |rows| && forall i :: 0 <= i < |rows| ==>
              after[i].Keys == rows[i].Keys && Pass(env, rows[i], gs) == Ok(after[i])
    decreases |rows|
  {
    if rows != [] {
      PassIsRun(env, rows[0], gs);
      SparingTaken(env, rows[0], gs);
      RunShape(env, rows[0], Taken(env, rows[0], gs));
      var row := Pass(env, rows[0], gs).value;
      assert rows[0].Keys != {} by {
        assert rows[0] in rows;
      }
      assert row != map[];
      ShapeKept(env, gs, rows[1..]);
      assert forall i :: 0 < i < |rows| ==> rows[i] == rows[1..][i - 1];
    }
  }
}
