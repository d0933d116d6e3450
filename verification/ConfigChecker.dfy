/** The configuration checker of dbtool in automatic mode: `check4type`, `check_json_func`, `check_json` and `js2db`. */
module ConfigChecker {
  import opened Wrappers
  import opened CheckRules
  import opened CheckVerdicts
  import opened CheckPass
  import opened CheckTables
  import opened CheckConverges

  /** A sequence put in front of a result. */
  ghost function Joined<T>(front: seq<T>, rest: Outcome<seq<T>>): Outcome<seq<T>> {
    if rest.Ok? then Ok(front + rest.value) else rest
  }

  lemma JoinedAssoc<T>(front: seq<T>, x: T, rest: Outcome<seq<T>>)
    ensures rest.Ok? ==> Joined(front, Ok([x] + rest.value)) == Joined(front + [x], rest)
  {
    if rest.Ok? {
      assert front + ([x] + rest.value) == front + [x] + rest.value;
    }
  }

  lemma JoinedNil<T>(rest: Outcome<seq<T>>)
    ensures Joined([], rest) == rest
  {
    if rest.Ok? {
      assert [] + rest.value == rest.value;
    }
  }

  /** Scans the options for the value. */
  method Scan(numeric: bool, options: seq<Value>, v: Value) returns (r: Outcome<bool>)
    ensures r == Member(numeric, options, v)
  {
    var i := 0;
    while i < |options|
      invariant 0 <= i <= |options|
      invariant Member(numeric, options, v) == Member(numeric, options[i..], v)
    {
      var op := options[i];
      if op.Num? != numeric {
        return Fail(TypeError);
      }
      var seen :- Seen(numeric, v);
      if op == seen {
        return Ok(true);
      }
      i := i + 1;
    }
    r := Ok(false);
  }

  /** Collects the options within the limits. */
  method Select(env: Numerals, numeric: bool, options: seq<Value>, limits: (real, real)) returns (r: Outcome<seq<Value>>)
    ensures r == Filtered(env, numeric, options, limits)
  {
    var qualified: seq<Value>, i := [], 0;
    JoinedNil(Filtered(env, numeric, options, limits));
    assert options[0..] == options;
    while i < |options|
      invariant 0 <= i <= |options|
      invariant Filtered(env, numeric, options, limits) == Joined(qualified, Filtered(env, numeric, options[i..], limits))
    {
      var op := options[i];
      if op.Num? != numeric {
        return Fail(TypeError);
      }
      var number := NumberOf(env, op);
      assert options[i..][1..] == options[i + 1..];
      JoinedAssoc(qualified, op, Filtered(env, numeric, options[i + 1..], limits));
      if number >= limits.1 && number <= limits.0 {
        qualified := qualified + [op];
      }
      i := i + 1;
    }
    assert qualified + [] == qualified;
    r := Ok(qualified);
  }

  method Check4Type(env: Numerals, rule: Rule, row: Row, key: string) returns (r: Outcome<Verdict>)
    requires key in row
    ensures IsVerdict(env, rule, row, key, r)
    ensures r == Check(env, rule, row, key)
  {
    VerdictIs(env, rule, row, key);
    var v := row[key];
    match rule
    case Input => r := Ok(Nothing);
    case Unknown => r := Ok(Nothing);
    case Options(os) =>
      if os == [] {
        return Fail(NoOption);
      }
      var found :- Scan(os[0].Num?, os, v);
      r := Ok(if found then Nothing else Repair(os[0]));
    case Range(max, min) => r := InRange((OrElse(max, HIGHEST), OrElse(min, LOWEST)), v);
    case DynamicRange(b) =>
      var limits :- Limits(env, b, row);
      r := InRange(limits, v);
    case FilteredOptions(os, b) =>
      var limits :- Limits(env, b, row);
      if os == [] {
        return Fail(NoOption);
      }
      var numeric := os[0].Num?;
      var qualified :- Select(env, numeric, os, limits);
      var found :- Scan(numeric, qualified, v);
      if found {
        r := Ok(Nothing);
      } else {
        r := Substitute(env, numeric, qualified, limits, v);
      }
  }

  /** The rules for the columns of a row, one after the other; a deleted row ends the loop. */
  method ApplyRules(env: Numerals, start: Row, entries: seq<Entry>) returns (r: Outcome<Row>)
    ensures r == Run(env, start, Rules(entries))
  {
    var row, i := start, 0;
    ghost var steps := Rules(entries);
    while i < |entries|
      invariant 0 <= i <= |entries|
      invariant Run(env, start, steps) == Run(env, row, steps[i..])
    {
      var key := entries[i].column;
      assert steps[i..][0] == steps[i] && steps[i..][1..] == steps[i + 1..];
      if key in row {
        var verdict :- Check4Type(env, entries[i].rule, row, key);
        if verdict == Repair(DELETE) {
          EmptyStays(env, steps[i + 1..]);
          return Ok(map[]);
        }
        if verdict.Repair? {
          row := row[key := verdict.value];
        }
      }
      i := i + 1;
    }
    r := Ok(row);
  }

  /** The values that the columns of a row are to take. */
  method ApplyChanges(env: Numerals, start: Row, changes: seq<Change>, numeric: bool) returns (r: Outcome<Row>)
    ensures r == Run(env, start, Changes(changes, numeric))
    ensures r.Fail? ==> r.error == TypeError
  {
    var row, i := start, 0;
    ghost var steps := Changes(changes, numeric);
    while i < |changes|
      invariant 0 <= i <= |changes|
      invariant Run(env, start, steps) == Run(env, row, steps[i..])
    {
      var key, v := changes[i].column, changes[i].value;
      assert steps[i..][0] == steps[i] && steps[i..][1..] == steps[i + 1..];
      if key in row {
        if row[key].Num? != numeric || v.Num? != numeric {
          return Fail(TypeError);
        }
        if row[key] == v {
          assert row[key := v] == row;
        } else {
          row := row[key := v];
        }
      }
      i := i + 1;
    }
    r := Ok(row);
  }

  /** The cases of a group that match the selecting value, which was read before the first of them. */
  method ApplyGroup(env: Numerals, start: Row, g: Group) returns (r: Outcome<Row>)
    ensures r == Run(env, start, Selected(env, g, start))
  {
    match g
    case Static(entries) => r := ApplyRules(env, start, entries);
    case Dynamic(selector, cases) =>
      if selector !in start {
        return Ok(start);
      }
      var row, i := start, 0;
      var v := start[selector];
      while i < |cases|
        invariant 0 <= i <= |cases|
        invariant Run(env, start, Selected(env, g, start)) == Run(env, row, MatchingRules(env, cases[i..], v))
      {
        assert cases[i..][0] == cases[i] && cases[i..][1..] == cases[i + 1..];
        if Matches(env, cases[i].tag, v) {
          RunConcat(env, row, Rules(cases[i].entries), MatchingRules(env, cases[i + 1..], v));
          row :- ApplyRules(env, row, cases[i].entries);
        } else {
          assert MatchingRules(env, cases[i..], v) == MatchingRules(env, cases[i + 1..], v);
        }
        i := i + 1;
      }
      r := Ok(row);
    case Disabled(plain, condition, cases) =>
      if plain || condition !in start {
        return Ok(start);
      }
      var row, i := start, 0;
      var v := start[condition];
      while i < |cases|
        invariant 0 <= i <= |cases|
        invariant Run(env, start, Selected(env, g, start)) == Run(env, row, MatchingChanges(env, cases[i..], v))
      {
        assert cases[i..][0] == cases[i] && cases[i..][1..] == cases[i + 1..];
        if Matches(env, cases[i].tag, v) {
          RunConcat(env, row, Changes(cases[i].changes, v.Num?), MatchingChanges(env, cases[i + 1..], v));
          row :- ApplyChanges(env, row, cases[i].changes, v.Num?);
        } else {
          assert MatchingChanges(env, cases[i..], v) == MatchingChanges(env, cases[i + 1..], v);
        }
        i := i + 1;
      }
      r := Ok(row);
  }

  method ApplyGroups(env: Numerals, start: Row, gs: seq<Group>) returns (r: Outcome<Row>)
    ensures r == Pass(env, start, gs)
  {
    var row, i := start, 0;
    while i < |gs|
      invariant 0 <= i <= |gs|
      invariant Pass(env, start, gs) == Pass(env, row, gs[i..])
    {
      assert gs[i..][0] == gs[i] && gs[i..][1..] == gs[i + 1..];
      row :- ApplyGroup(env, row, gs[i]);
      i := i + 1;
    }
    r := Ok(row);
  }

  /** One row: static rules, then dynamic ones, then alterations, as long as the row is not empty. */
  method CheckRow(env: Numerals, para: Para, start: Row) returns (r: Outcome<Row>)
    ensures r == Pass(env, start, [Static(para.fixed)] + para.dynamic + para.disabled)
  {
    PassConcat(env, start, [Static(para.fixed)] + para.dynamic, para.disabled);
    PassConcat(env, start, [Static(para.fixed)], para.dynamic);
    var row := start;
    row :- ApplyGroups(env, row, [Static(para.fixed)]);
    EmptyPass(env, para.dynamic);
    EmptyPass(env, para.disabled);
    if row == map[] {
      return Ok(row);
    }
    row :- ApplyGroups(env, row, para.dynamic);
    if row == map[] {
      return Ok(row);
    }
    row :- ApplyGroups(env, row, para.disabled);
    r := Ok(row);
  }

  /** `check_json_func`: the rows of a table, the emptied ones left out. */
  method CheckJsonFunc(env: Numerals, para: Para, items: Items) returns (r: Outcome<Items>)
    ensures r == CheckItems(env, para, items)
  {
    var rows := if items.Null? then [] else items.rows;
    var kept: seq<Row>, i := [], 0;
    ghost var gs := para.Groups();
    JoinedNil(CheckRows(env, gs, rows));
    assert rows[0..] == rows;
    while i < |rows|
      invariant 0 <= i <= |rows|
      invariant CheckRows(env, gs, rows) == Joined(kept, CheckRows(env, gs, rows[i..]))
    {
      assert rows[i..][0] == rows[i] && rows[i..][1..] == rows[i + 1..];
      var row :- CheckRow(env, para, rows[i]);
      JoinedAssoc(kept, row, CheckRows(env, gs, rows[i + 1..]));
      if row != map[] {
        kept := kept + [row];
      }
      i := i + 1;
    }
    assert kept + [] == kept;
    r := Ok(Packed(kept));
  }

  datatype Exit = Fixpoint | NoSystemPara | CycleLimit | Thrown(error: Error)

  const LIMIT := 5

  /** A configuration document: the rules held by its first table, when that is `SystemPara`, and its other tables. */
  class Document {
    const system: Option<seq<NamedPara>>
    var tables: seq<Table>

    constructor (system: Option<seq<NamedPara>>, tables: seq<Table>)
      ensures this.system == system && this.tables == tables
    {
      this.system, this.tables := system, tables;
    }

    /** `check_json`: one pass, each table's items replaced by their checked form. */
    method CheckJson(env: Numerals) returns (r: Outcome<bool>)
      modifies this`tables
      ensures system.None? ==> r == Ok(false) && tables == old(tables)
      ensures system.Some? ==> match CheckAll(env, system.value, old(tables))
                               case Ok(after) => r == Ok(true) && tables == after
                               case Fail(e) => r == Fail(e)
    {
      if system.None? {
        return Ok(false);
      }
      var paras := system.value;
      ghost var before := tables;
      var i := 0;
      JoinedNil(CheckAll(env, paras, before));
      assert before[0..] == before && tables[..0] == [];
      while i < |tables|
        invariant 0 <= i <= |tables| == |before|
        invariant tables[i..] == before[i..]
        invariant CheckAll(env, paras, before) == Joined(tables[..i], CheckAll(env, paras, before[i..]))
      {
        assert before[i..][0] == before[i] == tables[i] && before[i..][1..] == before[i + 1..];
        var table := tables[i];
        var para := ParaOf(paras, table.name);
        if para.Some? {
          var items :- CheckJsonFunc(env, para.value, table.items);
          tables := tables[i := Table(table.name, items)];
        }
        JoinedAssoc(tables[..i], tables[i], CheckAll(env, paras, before[i + 1..]));
        assert tables[..i + 1] == tables[..i] + [tables[i]];
        i := i + 1;
      }
      assert tables[..i] == tables && tables + [] == tables;
      r := Ok(true);
    }

    /** Pass `i + 1`, and whether the loop ends with it. */
    method PassAgain(env: Numerals, stand: seq<Table>, ghost start: seq<Table>, ghost i: nat) returns (stop: Option<Exit>)
      requires stand == tables && (system.Some? ==> Passes(env, system.value, start, i) == Ok(tables))
      modifies this`tables
      ensures stop == Some(NoSystemPara) <==> system.None?
      ensures stop.None? ==> Passes(env, system.value, start, i + 1) == Ok(tables) && Changed(env, system.value, start, i)
      ensures stop.Some? && system.Some? ==> !Changed(env, system.value, start, i)
      ensures stop == Some(Fixpoint) ==> Passes(env, system.value, start, i) == Ok(tables) == CheckAll(env, system.value, tables)
      ensures stop.Some? && stop.value.Thrown? ==> Passes(env, system.value, start, i + 1) == Fail(stop.value.error)
      ensures stop != Some(CycleLimit)
    {
      if system.Some? {
        PassOn(env, system.value, start, i, tables);
      }
      var rst := CheckJson(env);
      if rst.Fail? {
        return Some(Thrown(rst.error));
      }
      if !rst.value {
        return Some(NoSystemPara);
      }
      return if tables == stand then Some(Fixpoint) else None;
    }

    /** The loop of `js2db`: passes until one changes nothing, and an error after the fifth that did. */
    method Js2Db(env: Numerals) returns (r: Exit)
      modifies this`tables
      ensures r == NoSystemPara <==> system.None?
      ensures r == Fixpoint ==> system.Some? && CheckAll(env, system.value, tables) == Ok(tables)
      ensures r == Fixpoint ==> exists n :: 0 <= n < 5 && Passes(env, system.value, old(tables), n) == Ok(tables)
      ensures r == CycleLimit <==> system.Some? && Restless(env, system.value, old(tables), 5)
      ensures r.Thrown? ==> system.Some? && exists n :: 0 < n <= 5 && Passes(env, system.value, old(tables), n) == Fail(r.error)
      ensures system.Some? && SettledDocument(env, system.value, old(tables)) ==> r == Fixpoint || r.Thrown?
    {
      var i := 0;
      while i < LIMIT
        invariant 0 <= i < LIMIT
        invariant i > 0 ==> system.Some?
        invariant system.Some? ==> Passes(env, system.value, old(tables), i) == Ok(tables)
        invariant system.Some? ==> Restless(env, system.value, old(tables), i)
      {
        var stop := PassAgain(env, tables, old(tables), i);
        if stop.Some? {
          return stop.value;
        }
        if i == LIMIT - 1 {
          NeverCycles(env, system.value, old(tables));
          return CycleLimit;
        }
        i := i + 1;
      }
    }
  }

  /** One pass further. */
  lemma PassOn(env: Numerals, paras: seq<NamedPara>, start: seq<Table>, i: nat, now: seq<Table>)
    requires Passes(env, paras, start, i) == Ok(now)
    ensures Passes(env, paras, start, i + 1) == CheckAll(env, paras, now)
    ensures Changed(env, paras, start, i) <==> CheckAll(env, paras, now).Ok? && CheckAll(env, paras, now) != Ok(now)
  {
  }

  /** Pass `n + 1` changes the document. */
  ghost predicate Changed(env: Numerals, paras: seq<NamedPara>, tables: seq<Table>, n: nat) {
    var before, after := Passes(env, paras, tables, n), Passes(env, paras, tables, n + 1);
    before.Ok? && after.Ok? && before != after
  }

  /** Each of the first `n` passes changes the document. */
  ghost predicate Restless(env: Numerals, paras: seq<NamedPara>, tables: seq<Table>, n: nat) {
    forall i :: 0 <= i < n ==> Changed(env, paras, tables, i)
  }

  ghost predicate SettledDocument(env: Numerals, paras: seq<NamedPara>, tables: seq<Table>) {
    forall i :: 0 <= i < |tables| ==> SettledTable(env, paras, tables[i])
  }

  /** With settled rules the second pass changes nothing. */
  lemma NeverCycles(env: Numerals, paras: seq<NamedPara>, tables: seq<Table>)
    ensures SettledDocument(env, paras, tables) ==> !Changed(env, paras, tables, 1)
  {
    assert Passes(env, paras, tables, 0) == Ok(tables);
    assert Passes(env, paras, tables, 1) == CheckAll(env, paras, tables);
    if SettledDocument(env, paras, tables) && CheckAll(env, paras, tables).Ok? {
      FirstPassSettles(env, paras, tables);
    }
  }

  // --- rules that chase each other ---

  /** A column of `1` that is to become `2`, and a column of `2` that is to become `1`. */
  const CHASE := Dynamic("a", [Case("1", [Entry("a", Options([Num(2)]))]), Case("2", [Entry("a", Options([Num(1)]))])])
  const CHASE_PARA := Para([], [CHASE], [])
  const CHASING := [NamedPara("t", CHASE_PARA)]

  function Holding(n: int): seq<Table> {
    [Table("t", Rows([map["a" := Num(n)]]))]
  }

  /** The step for one value. */
  function To(n: int): Step {
    Step("a", ByRule(Options([Num(n)])))
  }

  lemma StepTo(env: Numerals, n: int, m: int)
    requires n != m
    ensures Run(env, map["a" := Num(n)], [To(m)]) == Ok(map["a" := Num(m)])
  {
    var row: Row := map["a" := Num(n)];
    assert Member(true, [Num(m)][1..], Num(n)) == Ok(false);
    assert Check(env, Options([Num(m)]), row, "a") == Ok(Repair(Num(m)));
    assert row["a" := Num(m)] == map["a" := Num(m)];
    assert [To(m)][1..] == [] && Run(env, map["a" := Num(m)], []) == Ok(map["a" := Num(m)]);
  }

  lemma ChasingSelects(env: Numerals, n: int)
    requires env.integer("1") == 1 && env.integer("2") == 2 && n in {1, 2}
    ensures Selected(env, CHASE, map["a" := Num(n)]) == [To(3 - n)]
  {
    var one, two := Case("1", [Entry("a", Options([Num(2)]))]), Case("2", [Entry("a", Options([Num(1)]))]);
    assert Rules(one.entries) == [To(2)] && Rules(two.entries) == [To(1)];
    assert [one, two][1..] == [two] && [two][1..] == [];
    assert MatchingRules(env, [two], Num(n)) == (if n == 2 then [To(1)] else []) + [];
    assert MatchingRules(env, [one, two], Num(n)) == (if n == 1 then [To(2)] else []) + MatchingRules(env, [two], Num(n));
  }

  lemma ChasingPass(env: Numerals, n: int)
    requires env.integer("1") == 1 && env.integer("2") == 2 && n in {1, 2}
    ensures Pass(env, map["a" := Num(n)], CHASE_PARA.Groups()) == Ok(map["a" := Num(3 - n)])
  {
    var row, next: Row := map["a" := Num(n)], map["a" := Num(3 - n)];
    ChasingSelects(env, n);
    StepTo(env, n, 3 - n);
    assert CHASE_PARA.Groups() == [Static([])] + [CHASE] && [CHASE][1..] == [];
    assert Selected(env, Static([]), row) == [] && Run(env, row, []) == Ok(row);
    assert Pass(env, next, []) == Ok(next);
    assert Pass(env, row, [CHASE]) == Ok(next);
    PassConcat(env, row, [Static([])], [CHASE]);
  }

  /** A table of one row, in a document of one table. */
  lemma OneRowTable(env: Numerals, name: string, para: Para, row: Row, next: Row)
    requires Pass(env, row, para.Groups()) == Ok(next) && next != map[]
    ensures CheckAll(env, [NamedPara(name, para)], [Table(name, Rows([row]))]) == Ok([Table(name, Rows([next]))])
  {
    assert [row][1..] == [] && CheckRows(env, para.Groups(), []) == Ok([]);
    assert CheckRows(env, para.Groups(), [row]) == Ok([next] + []);
    assert [next] + [] == [next];
    var t, u, paras := Table(name, Rows([row])), Table(name, Rows([next])), [NamedPara(name, para)];
    assert ParaOf(paras, name) == Some(para);
    assert CheckTable(env, paras, t) == Ok(u);
    assert [t][1..] == [] && CheckAll(env, paras, []) == Ok([]) && [u] + [] == [u];
  }

  lemma ChasingCheck(env: Numerals, n: int)
    requires env.integer("1") == 1 && env.integer("2") == 2 && n in {1, 2}
    ensures CheckAll(env, CHASING, Holding(n)) == Ok(Holding(3 - n))
  {
    var row, next: Row := map["a" := Num(n)], map["a" := Num(3 - n)];
    ChasingPass(env, n);
    assert next != map[] by {
      assert "a" in next;
    }
    OneRowTable(env, "t", CHASE_PARA, row, next);
  }

  /** Such rules change the document in every pass, so that `Js2Db` ends with the cycle-limit error. */
  lemma {:induction false} ChasingCycles(env: Numerals, n: nat)
    requires env.integer("1") == 1 && env.integer("2") == 2
    ensures Passes(env, CHASING, Holding(1), n) == Ok(Holding(if n % 2 == 0 then 1 else 2))
    ensures Changed(env, CHASING, Holding(1), n)
  {
    if n > 0 {
      ChasingCycles(env, n - 1);
    }
    ChasingCheck(env, 1);
    ChasingCheck(env, 2);
    HoldingDiffers();
  }

  lemma HoldingDiffers()
    ensures Holding(1) != Holding(2)
  {
    assert Holding(1)[0].items.rows[0]["a"] == Num(1) && Holding(2)[0].items.rows[0]["a"] == Num(2);
  }
}
