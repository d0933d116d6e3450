/** Table schemas of dbtool: printed as a CREATE TABLE statement, and read back from one. */
module Schema {

  datatype Column = Column(name: string, setting: string)

  const CREATE := "CREATE TABLE "
  const NPOS := -1

  function Token(c: Column): string {
    c.name + " " + c.setting
  }

  /** The columns, separated by commas. */
  function Printed(cs: seq<Column>): string {
    if cs == [] then ""
    else if |cs| == 1 then Token(cs[0])
    else Token(cs[0]) + "," + Printed(cs[1..])
  }

  function CreateSql(table: string, cs: seq<Column>): string {
    CREATE + table + "(" + Printed(cs) + ");"
  }

  lemma {:induction false} PrintedSnoc(cs: seq<Column>, c: Column)
    ensures Printed(cs + [c]) == (if cs == [] then Token(c) else Printed(cs) + "," + Token(c))
  {
    if cs != [] {
      assert (cs + [c])[1..] == cs[1..] + [c];
      PrintedSnoc(cs[1..], c);
      if |cs| > 1 {
        var rest := Printed(cs[1..]);
        assert Token(cs[0]) + "," + (rest + "," + Token(c)) == Token(cs[0]) + "," + rest + "," + Token(c);
      }
    } else {
      assert cs + [c] == [c];
    }
  }

  /** `get_create_sql`, whose text tells by its length whether a comma is due. */
  method GetCreateSql(cs: seq<Column>) returns (r: string)
    ensures r == "(" + Printed(cs) + ");"
  {
    r := "(";
    var i := 0;
    while i < |cs|
      invariant 0 <= i <= |cs|
      invariant r == "(" + Printed(cs[..i])
      invariant i > 0 ==> |r| > 1
    {
      PrintedSnoc(cs[..i], cs[i]);
      assert cs[..i + 1] == cs[..i] + [cs[i]];
      if r != "(" {
        r := r + ",";
      }
      r := r + (cs[i].name + " " + cs[i].setting);
      i := i + 1;
    }
    assert cs[..i] == cs;
    r := r + ");";
  }

  /** The statement that creates the table. */
  method CreateStatement(table: string, cs: seq<Column>) returns (sql: string)
    ensures sql == "CREATE TABLE " + table + ("(" + Printed(cs) + ");")
    ensures sql == CreateSql(table, cs)
  {
    var columns := GetCreateSql(cs);
    sql := CREATE + table + columns;
    Brackets(CREATE + table, Printed(cs));
  }

  lemma Brackets(front: string, columns: string)
    ensures front + ("(" + columns + ");") == front + "(" + columns + ");"
  {
  }

  /** The first position at or after `from` of a character, and of another one, and the last of a character. */
  function FirstOf(s: string, c: char, from: nat): (r: int)
    ensures r == NPOS || from <= r < |s|
    decreases |s| - from
  {
    if from >= |s| then NPOS else if s[from] == c then from else FirstOf(s, c, from + 1)
  }

  function FirstNotOf(s: string, c: char, from: nat): (r: int)
    ensures r == NPOS || from <= r < |s|
    decreases |s| - from
  {
    if from >= |s| then NPOS else if s[from] != c then from else FirstNotOf(s, c, from + 1)
  }

  function LastOf(s: string, c: char): (r: int)
    ensures r == NPOS || 0 <= r < |s|
  {
    if s == "" then NPOS else if s[|s| - 1] == c then |s| - 1 else LastOf(s[..|s| - 1], c)
  }

  /** No `c`, and nothing but `c`, from one position to another. */
  ghost predicate Absent(s: string, c: char, from: int, to: int)
    requires 0 <= from && to <= |s|
  {
    forall i :: from <= i < to ==> s[i] != c
  }

  ghost predicate Only(s: string, c: char, from: int, to: int)
    requires 0 <= from && to <= |s|
  {
    forall i :: from <= i < to ==> s[i] == c
  }

  function OrEnd(r: int, s: string): int {
    if r == NPOS then |s| else r
  }

  lemma {:induction false} FirstOfIs(s: string, c: char, from: nat)
    ensures Absent(s, c, from, OrEnd(FirstOf(s, c, from), s))
    ensures FirstOf(s, c, from) != NPOS ==> s[FirstOf(s, c, from)] == c
    decreases |s| - from
  {
    if from < |s| && s[from] != c {
      FirstOfIs(s, c, from + 1);
    }
  }

  lemma {:induction false} LastOfIs(s: string, c: char)
    ensures var r := LastOf(s, c);
            if r == NPOS then c !in s else s[r] == c && c !in s[r + 1..]
  {
    if s != "" && s[|s| - 1] != c {
      LastOfIs(s[..|s| - 1], c);
      assert s == s[..|s| - 1] + [s[|s| - 1]];
      var r := LastOf(s, c);
      if r != NPOS {
        assert s[r + 1..] == s[..|s| - 1][r + 1..] + [s[|s| - 1]];
      }
    }
  }

  lemma {:induction false} FirstNotOfIs(s: string, c: char, from: nat)
    ensures Only(s, c, from, OrEnd(FirstNotOf(s, c, from), s))
    ensures FirstNotOf(s, c, from) != NPOS ==> s[FirstNotOf(s, c, from)] != c
    decreases |s| - from
  {
    if from < |s| && s[from] == c {
      FirstNotOfIs(s, c, from + 1);
    }
  }

  /** The first occurrence is where `c` stands and does not before. */
  lemma FirstOfAt(s: string, c: char, from: nat, at: nat)
    requires from <= at < |s| && s[at] == c && Absent(s, c, from, at)
    ensures FirstOf(s, c, from) == at
  {
    FirstOfIs(s, c, from);
  }

  /** A substring; a negative count is a huge one. */
  function Substr(s: string, pos: nat, count: int): string
    requires pos <= |s|
  {
    if count < 0 || pos + count > |s| then s[pos..] else s[pos..pos + count]
  }

  /** The non-empty pieces between commas. */
  function Split(s: string): seq<string>
    decreases |s|
  {
    if s == "" then []
    else if s[0] == ',' then Split(s[1..])
    else
      var end := OrEnd(FirstOf(s, ',', 1), s);
      [s[..end]] + Split(s[end..])
  }

  lemma {:induction false} SplitCommas(s: string, from: nat, to: nat)
    requires from <= to <= |s| && Only(s, ',', from, to)
    ensures Split(s[from..]) == Split(s[to..])
    decreases |s| - from
  {
    if from < to {
      SplitCommas(s, from + 1, to);
      assert s[from..][1..] == s[from + 1..];
    }
  }

  /** The piece at the front. */
  lemma SplitPiece(s: string, from: nat, end: nat)
    requires from < end <= |s| && Absent(s, ',', from, end) && (end < |s| ==> s[end] == ',')
    ensures Split(s[from..]) == [s[from..end]] + Split(s[end..])
  {
    var t, n := s[from..], end - from;
    FirstOfIs(t, ',', 1);
    assert Absent(t, ',', 0, n) && (n < |t| ==> t[n] == ',');
    assert OrEnd(FirstOf(t, ',', 1), t) == n;
    assert t[..n] == s[from..end] && t[n..] == s[end..];
  }

  lemma Regroup(front: seq<string>, t: string, rest: seq<string>)
    ensures front + ([t] + rest) == front + [t] + rest
  {
  }

  /** Where the next piece begins, after the one at `at`; the end when there is none. */
  function NextPiece(s: string, at: nat): (r: int)
    requires at < |s| && s[at] != ','
    ensures at < r <= |s|
  {
    var pos := FirstOf(s, ',', at);
    if pos == NPOS then |s| else OrEnd(FirstNotOf(s, ',', pos), s)
  }

  function Piece(s: string, at: nat): string
    requires at < |s|
  {
    var pos := FirstOf(s, ',', at);
    Substr(s, at, if pos == NPOS then NPOS else pos - at)
  }

  lemma PieceIs(s: string, at: nat)
    requires at < |s|
    ensures Piece(s, at) == s[at..OrEnd(FirstOf(s, ',', at), s)]
  {
  }

  /** One piece is taken off. */
  lemma SplitStep(s: string, at: nat)
    requires at < |s| && s[at] != ','
    ensures Split(s[at..]) == [Piece(s, at)] + Split(s[NextPiece(s, at)..])
  {
    var pos := OrEnd(FirstOf(s, ',', at), s);
    PieceIs(s, at);
    FirstOfIs(s, ',', at);
    SplitPiece(s, at, pos);
    FirstNotOfIs(s, ',', pos);
    SplitCommas(s, pos, NextPiece(s, at));
  }

  /** Where the two positions go from a piece that begins at `at`. */
  lemma NextPositions(s: string, at: nat)
    requires at < |s| && s[at] != ','
    ensures var pos := FirstOf(s, ',', at);
            if pos == NPOS then NextPiece(s, at) == |s|
            else NextPiece(s, at) == OrEnd(FirstNotOf(s, ',', pos), s) &&
                 (FirstNotOf(s, ',', pos) != NPOS ==> s[FirstNotOf(s, ',', pos)] != ',')
  {
    var pos := FirstOf(s, ',', at);
    if pos != NPOS {
      FirstNotOfIs(s, ',', pos);
    }
  }

  /** What has been split off so far, and what is left from `at` on. */
  ghost predicate SplitSoFar(s: string, tokens: seq<string>, at: int)
    requires 0 <= at <= |s|
  {
    Split(s) == tokens + Split(s[at..])
  }

  lemma SplitStart(s: string)
    ensures var first := FirstNotOf(s, ',', 0);
            SplitSoFar(s, [], OrEnd(first, s)) && (first != NPOS ==> s[first] != ',')
  {
    FirstNotOfIs(s, ',', 0);
    SplitCommas(s, 0, OrEnd(FirstNotOf(s, ',', 0), s));
    assert s[0..] == s;
  }

  lemma SplitOnce(s: string, at: nat, tokens: seq<string>)
    requires at < |s| && s[at] != ',' && SplitSoFar(s, tokens, at)
    ensures SplitSoFar(s, tokens + [Piece(s, at)], NextPiece(s, at))
  {
    SplitStep(s, at);
    Regroup(tokens, Piece(s, at), Split(s[NextPiece(s, at)..]));
  }

  lemma SplitDone(s: string, tokens: seq<string>)
    requires SplitSoFar(s, tokens, |s|)
    ensures tokens == Split(s)
  {
    assert s[|s|..] == "" && tokens + [] == tokens;
  }

  /** `split`, by two positions that chase each other. */
  method SplitText(s: string) returns (tokens: seq<string>)
    ensures tokens == Split(s)
  {
    tokens := [];
    var lastPos := FirstNotOf(s, ',', 0);
    var pos := if lastPos == NPOS then NPOS else FirstOf(s, ',', lastPos);
    SplitStart(s);
    while pos != NPOS || lastPos != NPOS
      invariant lastPos == NPOS || (0 <= lastPos < |s| && s[lastPos] != ',')
      invariant pos == if lastPos == NPOS then NPOS else FirstOf(s, ',', lastPos)
      invariant SplitSoFar(s, tokens, OrEnd(lastPos, s))
      decreases |s| - OrEnd(lastPos, s)
    {
      SplitOnce(s, lastPos, tokens);
      tokens := tokens + [Substr(s, lastPos, if pos == NPOS then NPOS else pos - lastPos)];
      lastPos, pos := Chase(s, lastPos, pos);
    }
    SplitDone(s, tokens);
  }

  /** Moves the two positions on to the next piece. */
  method Chase(s: string, lastPos: nat, pos: int) returns (nextLast: int, nextPos: int)
    requires lastPos < |s| && s[lastPos] != ',' && pos == FirstOf(s, ',', lastPos)
    ensures OrEnd(nextLast, s) == NextPiece(s, lastPos)
    ensures nextLast == NPOS || (0 <= nextLast < |s| && s[nextLast] != ',')
    ensures nextPos == if nextLast == NPOS then NPOS else FirstOf(s, ',', nextLast)
  {
    NextPositions(s, lastPos);
    nextLast := if pos == NPOS then NPOS else FirstNotOf(s, ',', pos);
    nextPos := if nextLast == NPOS then NPOS else FirstOf(s, ',', nextLast);
  }

  /** A column read from its text: a text without a space is its own name and, short of its last character, its setting. */
  function ParsedColumn(t: string): Column {
    var space := FirstOf(t, ' ', 0);
    Column(if space == NPOS then t else t[..space], Substr(t, space + 1, |t| - 1))
  }

  function ParsedColumns(ts: seq<string>): (cs: seq<Column>)
    ensures |cs| == |ts| && forall i :: 0 <= i < |ts| ==> cs[i] == ParsedColumn(ts[i])
  {
    seq(|ts|, i requires 0 <= i < |ts| => ParsedColumn(ts[i]))
  }

  /** What lies between the first opening and the last closing parenthesis. */
  function Inner(sql: string): string {
    var start, end := FirstOf(sql, '(', 0), LastOf(sql, ')');
    Substr(sql, start + 1, end - start - 1)
  }

  function Parsed(sql: string): seq<Column> {
    ParsedColumns(Split(Inner(sql)))
  }

  /** `lo` is just after the first opening parenthesis, or the start; `hi` at the last closing one, or the end when there
      is none after that. */
  ghost predicate Between(sql: string, lo: int, hi: int) {
    && 0 <= lo <= hi <= |sql|
    && (if lo == 0 then '(' !in sql else sql[lo - 1] == '(' && '(' !in sql[..lo - 1])
    && (if hi == |sql| then ')' !in sql[lo..] else sql[hi] == ')' && ')' !in sql[hi + 1..])
  }

  lemma InnerMeans(sql: string)
    ensures exists lo, hi :: Between(sql, lo, hi) && Inner(sql) == sql[lo..hi]
  {
    var start, end := FirstOf(sql, '(', 0), LastOf(sql, ')');
    var lo, hi := start + 1, if end > start then end else |sql|;
    assert Inner(sql) == Substr(sql, start + 1, end - start - 1);
    SubstrBetween(sql, start, end);
    OpensAt(sql);
    ClosesAt(sql, lo);
    assert Between(sql, lo, hi);
  }

  /** A substring that ends before it begins goes on to the end. */
  lemma SubstrBetween(s: string, start: int, end: int)
    requires (-1 <= start < |s| && -1 <= end < |s|) || start == end == -1
    ensures Substr(s, start + 1, end - start - 1) == s[start + 1..if end > start then end else |s|]
  {
  }

  lemma OpensAt(sql: string)
    ensures var lo := FirstOf(sql, '(', 0) + 1;
            0 <= lo <= |sql| && if lo == 0 then '(' !in sql else sql[lo - 1] == '(' && '(' !in sql[..lo - 1]
  {
    FirstIs(sql, '(');
  }

  lemma ClosesAt(sql: string, lo: nat)
    requires lo <= |sql|
    ensures var end := LastOf(sql, ')');
            if end >= lo then sql[end] == ')' && ')' !in sql[end + 1..] else ')' !in sql[lo..]
  {
    LastOfIs(sql, ')');
    var end := LastOf(sql, ')');
    if end < lo {
      assert sql[end + 1..][lo - end - 1..] == sql[lo..];
    }
  }

  lemma FirstIs(s: string, c: char)
    ensures var r := FirstOf(s, c, 0);
            if r == NPOS then c !in s else s[r] == c && c !in s[..r]
  {
    FirstOfIs(s, c, 0);
  }

  method ReadColumn(t: string) returns (c: Column)
    ensures ' ' in t ==> ' ' !in c.name && c.name + " " + c.setting == t
    ensures ' ' !in t ==> c.name == t && c.setting == if t == "" then "" else t[..|t| - 1]
    ensures c == ParsedColumn(t)
  {
    FirstOfIs(t, ' ', 0);
    var space := FirstOf(t, ' ', 0);
    var name := if space == NPOS then t else t[..space];
    var setting := Substr(t, space + 1, |t| - 1);
    c := Column(name, setting);
  }

  /** The columns of a statement, as `get_db_tree` collects them. */
  method ReadColumns(sql: string) returns (cs: seq<Column>)
    ensures exists lo, hi :: Between(sql, lo, hi) && cs == ParsedColumns(Split(sql[lo..hi]))
    ensures cs == Parsed(sql)
  {
    InnerMeans(sql);
    var start, end := FirstOf(sql, '(', 0), LastOf(sql, ')');
    var item := Substr(sql, start + 1, end - start - 1);
    var bank := SplitText(item);
    cs := ReadAll(bank);
  }

  method ReadAll(bank: seq<string>) returns (cs: seq<Column>)
    ensures cs == ParsedColumns(bank)
  {
    cs := [];
    var i := 0;
    while i < |bank|
      invariant 0 <= i <= |bank|
      invariant cs == ParsedColumns(bank)[..i]
    {
      var c := ReadColumn(bank[i]);
      cs := cs + [c];
      i := i + 1;
    }
  }

  /** Columns that survive: no comma anywhere, and no space in a name. */
  ghost predicate Plain(c: Column) {
    ',' !in c.name && ',' !in c.setting && ' ' !in c.name
  }

  ghost predicate AllPlain(cs: seq<Column>) {
    forall i :: 0 <= i < |cs| ==> Plain(cs[i])
  }

  ghost predicate CommaFree(ts: seq<string>) {
    forall i :: 0 <= i < |ts| ==> ts[i] != "" && ',' !in ts[i]
  }

  /** The number of characters other than commas. */
  function Solid(s: string): nat {
    if s == "" then 0 else (if s[0] == ',' then 0 else 1) + Solid(s[1..])
  }

  lemma {:induction false} SolidConcat(a: string, b: string)
    ensures Solid(a + b) == Solid(a) + Solid(b)
  {
    if a == "" {
      assert a + b == b;
    } else {
      assert (a + b)[1..] == a[1..] + b;
      SolidConcat(a[1..], b);
    }
  }

  lemma {:induction false} SolidAll(s: string)
    requires ',' !in s
    ensures Solid(s) == |s|
  {
    if s != "" {
      SolidAll(s[1..]);
    }
  }

  function Lengths(ts: seq<string>): nat {
    if ts == [] then 0 else |ts[0]| + Lengths(ts[1..])
  }

  lemma PieceOnTop(t: string, ts: seq<string>)
    requires t != "" && ',' !in t && CommaFree(ts)
    ensures CommaFree([t] + ts) && Lengths([t] + ts) == |t| + Lengths(ts)
  {
    assert ([t] + ts)[1..] == ts;
  }

  /** Splitting loses nothing but commas. */
  lemma {:induction false} SplitSolid(s: string)
    ensures CommaFree(Split(s)) && Lengths(Split(s)) == Solid(s)
    decreases |s|
  {
    if s != "" {
      if s[0] == ',' {
        SplitSolid(s[1..]);
      } else {
        FirstOfIs(s, ',', 1);
        var end := OrEnd(FirstOf(s, ',', 1), s);
        SplitSolid(s[end..]);
        SolidAll(s[..end]);
        SolidConcat(s[..end], s[end..]);
        assert s == s[..end] + s[end..];
        PieceOnTop(s[..end], Split(s[end..]));
      }
    }
  }

  /** The printed columns split into their texts again. */
  lemma {:induction false} SplitPrinted(cs: seq<Column>)
    requires AllPlain(cs)
    ensures |Split(Printed(cs))| == |cs| && forall i :: 0 <= i < |cs| ==> Split(Printed(cs))[i] == Token(cs[i])
  {
    if cs != [] {
      var t, s := Token(cs[0]), Printed(cs);
      assert ',' !in t && t != "";
      assert forall i :: 0 <= i < |t| ==> s[i] == t[i];
      SplitPiece(s, 0, |t|);
      assert s[0..] == s && s[0..|t|] == t;
      if |cs| > 1 {
        assert AllPlain(cs[1..]);
        SplitPrinted(cs[1..]);
        assert s[|t|..][1..] == Printed(cs[1..]);
      } else {
        assert s[|t|..] == "";
      }
    }
  }

  lemma ParsedToken(c: Column)
    requires Plain(c)
    ensures ParsedColumn(Token(c)) == c
  {
    var t := Token(c);
    assert t[|c.name|] == ' ' && forall i :: 0 <= i < |c.name| ==> t[i] == c.name[i];
    FirstOfAt(t, ' ', 0, |c.name|);
  }

  /** Where the parentheses of a printed statement are found. */
  lemma Closing(table: string, cs: seq<Column>)
    ensures LastOf(CreateSql(table, cs), ')') == |CreateSql(table, cs)| - 2
  {
    var sql := CreateSql(table, cs);
    assert sql[|sql| - 1] == ';' && sql[..|sql| - 1][|sql| - 2] == ')';
  }

  lemma Opening(table: string, cs: seq<Column>)
    ensures var start := FirstOf(CreateSql(table, cs), '(', 0);
            0 <= start <= |CREATE| + |table| && (start == |CREATE| + |table| <==> '(' !in table)
  {
    var sql, n := CreateSql(table, cs), |CREATE| + |table|;
    FirstOfIs(sql, '(', 0);
    assert sql[n] == '(';
    assert forall i :: 0 <= i < |CREATE| ==> sql[i] == CREATE[i];
    assert forall i :: |CREATE| <= i < n ==> sql[i] == table[i - |CREATE|];
    if '(' in table {
      var i :| 0 <= i < |table| && table[i] == '(';
      assert sql[|CREATE| + i] == '(';
    }
  }

  /** What stands between a place in front of the parenthesis, or the parenthesis itself, and the closing one. */
  lemma InnerSlice(front: string, body: string, start: nat)
    requires start <= |front|
    ensures var sql := front + "(" + body + ");";
            if start == |front| then sql[start + 1..|sql| - 2] == body
            else sql[start + 1..|sql| - 2] == front[start + 1..] + "(" + body
  {
  }

  lemma InnerOf(table: string, cs: seq<Column>)
    ensures '(' !in table ==> Inner(CreateSql(table, cs)) == Printed(cs)
    ensures '(' in table ==> exists x :: Inner(CreateSql(table, cs)) == x + "(" + Printed(cs)
  {
    var sql, body, n := CreateSql(table, cs), Printed(cs), |CREATE| + |table|;
    Closing(table, cs);
    Opening(table, cs);
    var start := FirstOf(sql, '(', 0);
    InnerSlice(CREATE + table, body, start);
    if start != n {
      assert Inner(sql) == (CREATE + table)[start + 1..] + "(" + body;
    }
  }

  /** How much text the columns hold. */
  function Held(cs: seq<Column>): nat {
    if cs == [] then 0 else |cs[0].name| + |cs[0].setting| + Held(cs[1..])
  }

  lemma ParsedPlain(t: string)
    requires t != "" && ',' !in t
    ensures Plain(ParsedColumn(t)) && |ParsedColumn(t).name| + |ParsedColumn(t).setting| >= |t| - 1
  {
    FirstOfIs(t, ' ', 0);
  }

  /** Reading drops at most one character of each text. */
  lemma {:induction false} ParsedHolds(ts: seq<string>)
    requires CommaFree(ts)
    ensures Held(ParsedColumns(ts)) + |ts| >= Lengths(ts) && AllPlain(ParsedColumns(ts))
  {
    if ts != [] {
      assert ts[0] != "" && ',' !in ts[0];
      ParsedPlain(ts[0]);
      ParsedHolds(ts[1..]);
      assert ParsedColumns(ts)[1..] == ParsedColumns(ts[1..]);
      assert forall i :: 0 < i < |ts| ==> ParsedColumns(ts)[i] == ParsedColumns(ts[1..])[i - 1];
    }
  }

  lemma {:induction false} PrintedSolid(cs: seq<Column>)
    requires AllPlain(cs)
    ensures Solid(Printed(cs)) == Held(cs) + |cs|
  {
    if cs != [] {
      SolidAll(Token(cs[0]));
      if |cs| > 1 {
        assert AllPlain(cs[1..]);
        PrintedSolid(cs[1..]);
        SolidConcat(Token(cs[0]) + ",", Printed(cs[1..]));
        SolidConcat(Token(cs[0]), ",");
      } else {
        assert cs[1..] == [];
      }
    }
  }

  lemma PlainReadsBack(table: string, cs: seq<Column>)
    requires AllPlain(cs) && Inner(CreateSql(table, cs)) == Printed(cs)
    ensures Parsed(CreateSql(table, cs)) == cs
  {
    SplitPrinted(cs);
    forall i | 0 <= i < |cs|
      ensures Parsed(CreateSql(table, cs))[i] == cs[i]
    {
      assert Plain(cs[i]);
      ParsedToken(cs[i]);
    }
  }

  /** Text in front of the columns cannot disappear when they are read. */
  lemma ExtraText(x: string, cs: seq<Column>)
    requires AllPlain(cs)
    ensures ParsedColumns(Split(x + "(" + Printed(cs))) != cs
  {
    var inner := x + "(" + Printed(cs);
    SplitSolid(inner);
    ParsedHolds(Split(inner));
    SolidConcat(x + "(", Printed(cs));
    SolidConcat(x, "(");
    PrintedSolid(cs);
    assert Solid("(") == 1;
  }

  /** A printed schema reads back as itself exactly when no column has a comma, no column name a space,
      and the table name no opening parenthesis. */
  lemma RoundTrip(table: string, cs: seq<Column>)
    ensures Parsed(CreateSql(table, cs)) == cs <==> AllPlain(cs) && '(' !in table
  {
    var inner := Inner(CreateSql(table, cs));
    InnerOf(table, cs);
    SplitSolid(inner);
    ParsedHolds(Split(inner));
    if AllPlain(cs) {
      if '(' !in table {
        PlainReadsBack(table, cs);
      } else {
        var x :| inner == x + "(" + Printed(cs);
        ExtraText(x, cs);
      }
    }
  }

  /** Whatever the statement, the columns read from it survive being printed and read again. */
  lemma ReadAgain(sql: string, table: string)
    requires '(' !in table
    ensures Parsed(CreateSql(table, Parsed(sql))) == Parsed(sql)
  {
    SplitSolid(Inner(sql));
    ParsedHolds(Split(Inner(sql)));
    RoundTrip(table, Parsed(sql));
  }
}
