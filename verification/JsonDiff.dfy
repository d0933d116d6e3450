/** JSON values, and the patch between two of them as the nlohmann library computes and prints it. */
module JsonDiff {
  import Decimals

  datatype Json =
    | Null
    | Bool(b: bool)
    | Number(n: int)
    | Text(s: string)
    | Array(items: seq<Json>)
    | Object(members: map<string, Json>)

  datatype Op = Replace(path: string, value: Json) | Add(path: string, value: Json) | Remove(path: string)

  /** The order in which the members of an object are visited. */
  type Order = map<string, Json> -> seq<string>

  ghost predicate Enumerates(order: Order) {
    forall m, k :: k in order(m) <==> k in m
  }

  /** A character of a key within a JSON pointer, section 3 of RFC 6901. */
  function PointerChar(c: char): string {
    if c == '~' then "~0" else if c == '/' then "~1" else [c]
  }

  function Pointer(key: string): string {
    if key == "" then "" else PointerChar(key[0]) + Pointer(key[1..])
  }

  /** The operations that turn `s` into `t`, section 4 of RFC 6902. */
  function Diff(order: Order, s: Json, t: Json, path: string): seq<Op>
    decreases s, 1, 0
  {
    if s == t then []
    else if s.Array? && t.Array? then
      var common := if |s.items| < |t.items| then |s.items| else |t.items|;
      DiffItems(order, s, t, 0, path) + RemovedItems(path, common, |s.items|) + AddedItems(t, common, path)
    else if s.Object? && t.Object? then
      DiffMembers(order, s, t, order(s.members), path) + AddedMembers(s, t, order(t.members), path)
    else [Replace(path, t)]
  }

  function DiffItems(order: Order, s: Json, t: Json, i: nat, path: string): seq<Op>
    requires s.Array? && t.Array?
    decreases s, 0, |s.items| - i
  {
    if i >= |s.items| || i >= |t.items| then []
    else Diff(order, s.items[i], t.items[i], path + "/" + Decimals.Decimal(i)) + DiffItems(order, s, t, i + 1, path)
  }

  /** The last item first. */
  function RemovedItems(path: string, from: nat, until: nat): seq<Op>
    requires from <= until
    decreases until - from
  {
    if from == until then [] else RemovedItems(path, from + 1, until) + [Remove(path + "/" + Decimals.Decimal(from))]
  }

  function AddedItems(t: Json, from: nat, path: string): seq<Op>
    requires t.Array?
    decreases |t.items| - from
  {
    if from >= |t.items| then []
    else [Add(path + "/" + Decimals.Decimal(from), t.items[from])] + AddedItems(t, from + 1, path)
  }

  function DiffMembers(order: Order, s: Json, t: Json, keys: seq<string>, path: string): seq<Op>
    requires s.Object? && t.Object?
    decreases s, 0, |keys|
  {
    if keys == [] then []
    else
      var k := keys[0];
      (if k !in s.members then []
       else if k in t.members then Diff(order, s.members[k], t.members[k], path + "/" + Pointer(k))
       else [Remove(path + "/" + Pointer(k))]) + DiffMembers(order, s, t, keys[1..], path)
  }

  function AddedMembers(s: Json, t: Json, keys: seq<string>, path: string): seq<Op>
    requires s.Object? && t.Object?
  {
    if keys == [] then []
    else
      var k := keys[0];
      (if k in t.members && k !in s.members then [Add(path + "/" + Pointer(k), t.members[k])] else []) +
      AddedMembers(s, t, keys[1..], path)
  }

  ghost predicate Under(ops: seq<Op>, path: string) {
    forall op :: op in ops ==> path <= op.path
  }

  /** Every operation is at or below the place that is compared. */
  lemma {:induction false} DiffUnder(order: Order, s: Json, t: Json, path: string)
    ensures Under(Diff(order, s, t, path), path)
    decreases s, 1, 0
  {
    if s == t {
    } else if s.Array? && t.Array? {
      var common := if |s.items| < |t.items| then |s.items| else |t.items|;
      ItemsUnder(order, s, t, 0, path);
      RemovedUnder(path, common, |s.items|);
      AddedUnder(t, common, path);
    } else if s.Object? && t.Object? {
      MembersUnder(order, s, t, order(s.members), path);
      AddedMembersUnder(s, t, order(t.members), path);
    }
  }

  lemma {:induction false} ItemsUnder(order: Order, s: Json, t: Json, i: nat, path: string)
    requires s.Array? && t.Array?
    ensures Under(DiffItems(order, s, t, i, path), path)
    decreases s, 0, |s.items| - i
  {
    if i < |s.items| && i < |t.items| {
      DiffUnder(order, s.items[i], t.items[i], path + "/" + Decimals.Decimal(i));
      ItemsUnder(order, s, t, i + 1, path);
    }
  }

  lemma {:induction false} RemovedUnder(path: string, from: nat, until: nat)
    requires from <= until
    ensures Under(RemovedItems(path, from, until), path)
    ensures from < until ==> RemovedItems(path, from, until) != []
    decreases until - from
  {
    if from < until {
      RemovedUnder(path, from + 1, until);
    }
  }

  lemma {:induction false} AddedUnder(t: Json, from: nat, path: string)
    requires t.Array?
    ensures Under(AddedItems(t, from, path), path)
    decreases |t.items| - from
  {
    if from < |t.items| {
      AddedUnder(t, from + 1, path);
    }
  }

  lemma {:induction false} MembersUnder(order: Order, s: Json, t: Json, keys: seq<string>, path: string)
    requires s.Object? && t.Object?
    ensures Under(DiffMembers(order, s, t, keys, path), path)
    decreases s, 0, |keys|
  {
    if keys != [] {
      var k := keys[0];
      if k in s.members && k in t.members {
        DiffUnder(order, s.members[k], t.members[k], path + "/" + Pointer(k));
      }
      MembersUnder(order, s, t, keys[1..], path);
    }
  }

  lemma {:induction false} AddedMembersUnder(s: Json, t: Json, keys: seq<string>, path: string)
    requires s.Object? && t.Object?
    ensures Under(AddedMembers(s, t, keys, path), path)
  {
    if keys != [] {
      AddedMembersUnder(s, t, keys[1..], path);
    }
  }

  /** Only equal values have nothing between them, at any depth. */
  lemma {:induction false} DiffEmpty(order: Order, s: Json, t: Json, path: string)
    requires Enumerates(order)
    ensures Diff(order, s, t, path) == [] <==> s == t
    decreases s, 1, 0
  {
    if s != t && s.Array? && t.Array? {
      if |s.items| == |t.items| && DiffItems(order, s, t, 0, path) == [] {
        ItemsEmpty(order, s, t, 0, path);
        SameItems(s, t);
      } else if |t.items| < |s.items| {
        RemovedUnder(path, |t.items|, |s.items|);
      }
    } else if s != t && s.Object? && t.Object? {
      if DiffMembers(order, s, t, order(s.members), path) == [] && AddedMembers(s, t, order(t.members), path) == [] {
        MembersEmpty(order, s, t, order(s.members), path);
        AddedMembersEmpty(s, t, order(t.members), path);
        SameMembers(order, s, t);
      }
    }
  }

  lemma SameItems(s: Json, t: Json)
    requires s.Array? && t.Array? && |s.items| == |t.items|
    requires forall j :: 0 <= j < |s.items| && j < |t.items| ==> s.items[j] == t.items[j]
    ensures s == t
  {
    assert s.items == t.items;
  }

  lemma SameMembers(order: Order, s: Json, t: Json)
    requires Enumerates(order) && s.Object? && t.Object?
    requires forall k :: k in order(s.members) && k in s.members ==> k in t.members && t.members[k] == s.members[k]
    requires forall k :: k in order(t.members) && k in t.members ==> k in s.members
    ensures s == t
  {
    assert forall k :: k in s.members ==> k in order(s.members);
    assert forall k :: k in t.members ==> k in order(t.members);
    assert s.members == t.members;
  }

  lemma {:induction false} ItemsEmpty(order: Order, s: Json, t: Json, i: nat, path: string)
    requires Enumerates(order) && s.Array? && t.Array? && DiffItems(order, s, t, i, path) == []
    ensures forall j :: i <= j < |s.items| && j < |t.items| ==> s.items[j] == t.items[j]
    decreases s, 0, |s.items| - i
  {
    if i < |s.items| && i < |t.items| {
      var here, later := Diff(order, s.items[i], t.items[i], path + "/" + Decimals.Decimal(i)), DiffItems(order, s, t, i + 1, path);
      assert |here + later| == 0;
      DiffEmpty(order, s.items[i], t.items[i], path + "/" + Decimals.Decimal(i));
      ItemsEmpty(order, s, t, i + 1, path);
    }
  }

  lemma {:induction false} MembersEmpty(order: Order, s: Json, t: Json, keys: seq<string>, path: string)
    requires Enumerates(order) && s.Object? && t.Object? && DiffMembers(order, s, t, keys, path) == []
    ensures forall k :: k in keys && k in s.members ==> k in t.members && t.members[k] == s.members[k]
    decreases s, 0, |keys|
  {
    if keys != [] {
      var k := keys[0];
      if k in s.members && k in t.members {
        DiffEmpty(order, s.members[k], t.members[k], path + "/" + Pointer(k));
      }
      MembersEmpty(order, s, t, keys[1..], path);
    }
  }

  lemma {:induction false} AddedMembersEmpty(s: Json, t: Json, keys: seq<string>, path: string)
    requires s.Object? && t.Object? && AddedMembers(s, t, keys, path) == []
    ensures forall k :: k in keys && k in t.members ==> k in s.members
  {
    if keys != [] {
      AddedMembersEmpty(s, t, keys[1..], path);
    }
  }

  /** The operations between the values of one member are among those between the objects. */
  lemma {:induction false} MemberDiffs(order: Order, s: Json, t: Json, keys: seq<string>, path: string, k: string)
    requires s.Object? && t.Object? && k in keys && k in s.members && k in t.members
    ensures forall op :: op in Diff(order, s.members[k], t.members[k], path + "/" + Pointer(k)) ==>
                           op in DiffMembers(order, s, t, keys, path)
  {
    if keys[0] != k {
      MemberDiffs(order, s, t, keys[1..], path, k);
    }
  }

  // --- printing ---

  function HexDigit(n: nat): char
    requires n < 16
  {
    if n < 10 then '0' + n as char else 'a' + (n - 10) as char
  }

  /** A character within a quoted string, section 7 of RFC 8259. */
  function QuotedChar(c: char): string {
    if c == '\U{8}' then "\\b"
    else if c == '\t' then "\\t"
    else if c == '\n' then "\\n"
    else if c == '\U{C}' then "\\f"
    else if c == '\r' then "\\r"
    else if c == '\"' then "\\\""
    else if c == '\\' then "\\\\"
    else if c < ' ' then "\\u00" + [HexDigit(c as int / 16), HexDigit(c as int % 16)]
    else [c]
  }

  function Quoted(s: string): string {
    if s == "" then "" else QuotedChar(s[0]) + Quoted(s[1..])
  }

  function HexValue(c: char): nat {
    if '0' <= c <= '9' then c as int - '0' as int else if 'a' <= c <= 'f' then c as int - 'a' as int + 10 else 0
  }

  /** What a character after a backslash stands for. */
  function Meant(c: char): char {
    match c
    case 'b' => '\U{8}'
    case 't' => '\t'
    case 'n' => '\n'
    case 'f' => '\U{C}'
    case 'r' => '\r'
    case _ => c
  }

  /** The text that a quoted one stands for; of the four hexadecimal digits the first two are zeros here. */
  function Unquoted(s: string): string {
    if s == "" then ""
    else if s[0] != '\\' || |s| == 1 then [s[0]] + Unquoted(s[1..])
    else if s[1] == 'u' && |s| >= 6 then [(16 * HexValue(s[4]) + HexValue(s[5])) as char] + Unquoted(s[6..])
    else [Meant(s[1])] + Unquoted(s[2..])
  }

  /** Every text reads back from its quoted form. */
  lemma {:induction false} QuotedReadsBack(s: string)
    ensures Unquoted(Quoted(s)) == s
  {
    if s != "" {
      QuotedReadsBack(s[1..]);
      QuotedCharReadsBack(s[0], Quoted(s[1..]));
      assert [s[0]] + s[1..] == s;
    }
  }

  lemma QuotedCharReadsBack(c: char, rest: string)
    ensures Unquoted(QuotedChar(c) + rest) == [c] + Unquoted(rest)
  {
    var q := QuotedChar(c) + rest;
    if |QuotedChar(c)| == 1 {
      assert q[0] == c && q[1..] == rest;
    } else if |QuotedChar(c)| == 2 {
      assert q[0] == '\\' && q[2..] == rest && q[1] == QuotedChar(c)[1] != 'u';
    } else {
      var n := c as int;
      assert q[0] == '\\' && q[1] == 'u' && q[4] == HexDigit(n / 16) && q[5] == HexDigit(n % 16) && q[6..] == rest;
      HexReadsBack(n / 16);
      HexReadsBack(n % 16);
      assert 16 * (n / 16) + n % 16 == n;
    }
  }

  lemma HexReadsBack(n: nat)
    requires n < 16
    ensures HexValue(HexDigit(n)) == n
  {
  }

  function OpName(op: Op): string {
    match op
    case Replace(_, _) => "replace"
    case Add(_, _) => "add"
    case Remove(_) => "remove"
  }

  const OPENING := "{\"op\":\""
  const PATH := "\",\"path\":\""

  /** An operation as text; how values are printed does not matter here. */
  function OpText(dump: Json -> string, op: Op): string {
    OPENING + OpName(op) + PATH + Quoted(op.path) + "\"" + (if op.Remove? then "" else ",\"value\":" + dump(op.value)) + "}"
  }

  function OpsText(dump: Json -> string, ops: seq<Op>): string {
    if ops == [] then ""
    else if |ops| == 1 then OpText(dump, ops[0])
    else OpText(dump, ops[0]) + "," + OpsText(dump, ops[1..])
  }

  function PatchText(dump: Json -> string, ops: seq<Op>): string {
    "[" + OpsText(dump, ops) + "]"
  }

  predicate At(text: string, s: string, i: nat) {
    i + |s| <= |text| && text[i..i + |s|] == s
  }

  predicate Contains(text: string, s: string) {
    exists i :: 0 <= i <= |text| && At(text, s, i)
  }

  lemma ContainsAt(a: string, s: string, b: string)
    ensures Contains(a + s + b, s)
  {
    assert At(a + s + b, s, |a|);
  }

  lemma ContainsFirst(s: string, b: string)
    ensures Contains(s + b, s)
  {
    assert At(s + b, s, 0);
  }

  lemma ContainsLast(a: string, s: string)
    ensures Contains(a + s, s)
  {
    assert At(a + s, s, |a|);
  }

  lemma ContainsTrans(text: string, s: string, u: string)
    requires Contains(text, s) && Contains(s, u)
    ensures Contains(text, u)
  {
    var i :| 0 <= i <= |text| && At(text, s, i);
    var j :| 0 <= j <= |s| && At(s, u, j);
    forall k | 0 <= k < |u|
      ensures text[i + j + k] == u[k]
    {
      assert text[i..i + |s|][j + k] == s[j..j + |u|][k];
    }
    assert At(text, u, i + j);
  }

  lemma {:induction false} OpsTextContains(dump: Json -> string, ops: seq<Op>, op: Op)
    requires op in ops
    ensures Contains(OpsText(dump, ops), OpText(dump, op))
  {
    var t := OpText(dump, ops[0]);
    var rest := OpsText(dump, ops[1..]);
    if ops[0] == op {
      ContainsFirst(t, "," + rest);
      assert t + ("," + rest) == t + "," + rest;
      ContainsFirst(t, "");
      assert t + "" == t;
    } else {
      OpsTextContains(dump, ops[1..], op);
      ContainsLast(t + ",", rest);
      ContainsTrans(t + "," + rest, rest, OpText(dump, op));
    }
  }

  lemma PatchTextContains(dump: Json -> string, ops: seq<Op>, op: Op)
    requires op in ops
    ensures Contains(PatchText(dump, ops), OpText(dump, op))
  {
    OpsTextContains(dump, ops, op);
    ContainsAt("[", OpsText(dump, ops), "]");
    ContainsTrans(PatchText(dump, ops), OpsText(dump, ops), OpText(dump, op));
  }

  lemma {:induction false} QuotedConcat(a: string, b: string)
    ensures Quoted(a + b) == Quoted(a) + Quoted(b)
  {
    if a == "" {
      assert a + b == b;
    } else {
      assert (a + b)[1..] == a[1..] + b;
      QuotedConcat(a[1..], b);
      assert QuotedChar(a[0]) + (Quoted(a[1..]) + Quoted(b)) == QuotedChar(a[0]) + Quoted(a[1..]) + Quoted(b);
    }
  }

  /** Characters that neither a pointer nor a quoted string changes. */
  predicate PlainChar(c: char) {
    c >= ' ' && c != '~' && c != '/' && c != '\"' && c != '\\'
  }

  predicate Plain(key: string) {
    forall i :: 0 <= i < |key| ==> PlainChar(key[i])
  }

  lemma {:induction false} PlainUnchanged(key: string)
    requires Plain(key)
    ensures Pointer(key) == key && Quoted(key) == key
  {
    if key != "" {
      PlainUnchanged(key[1..]);
    }
  }

  lemma Regroup(a: string, b: string, c: string, d: string)
    ensures a + (b + c) + d == (a + b) + (c + d)
  {
  }

  lemma QuotedPath(front: string, key: string, path: string, back: string)
    requires Plain(key) && "/" + key <= path
    ensures Contains(front + Quoted(path) + back, front + ("/" + key))
  {
    var rest := path[1 + |key|..];
    PlainUnchanged(key);
    QuotedSlash(key);
    assert path == ("/" + key) + rest;
    QuotedConcat("/" + key, rest);
    Regroup(front, "/" + key, Quoted(rest), back);
    ContainsFirst(front + ("/" + key), Quoted(rest) + back);
  }

  lemma QuotedSlash(key: string)
    ensures Quoted("/" + key) == "/" + Quoted(key)
  {
    assert ("/" + key)[1..] == key;
  }

  /** What stands before the path of an operation. */
  function Front(op: Op): string {
    OPENING + OpName(op) + PATH
  }

  lemma OpTextIs(dump: Json -> string, op: Op)
    ensures exists back :: OpText(dump, op) == Front(op) + Quoted(op.path) + back
  {
    var back := "\"" + (if op.Remove? then "" else ",\"value\":" + dump(op.value)) + "}";
    assert OpText(dump, op) == Front(op) + Quoted(op.path) + back;
  }

  /** An operation at or below a plain member shows the member's name right after the start of its path. */
  lemma PathShown(dump: Json -> string, op: Op, key: string)
    requires Plain(key) && "/" + Pointer(key) <= op.path
    ensures Contains(OpText(dump, op), Front(op) + ("/" + key))
  {
    PlainUnchanged(key);
    OpTextIs(dump, op);
    var back :| OpText(dump, op) == Front(op) + Quoted(op.path) + back;
    QuotedPath(Front(op), key, op.path, back);
  }
}
