/** The "erase unchanged data" step of the configuration handlers: a member of the new configuration is dropped
    when a search of the printed patch does not find it. */
module Prune {
  import opened JsonDiff

  type Config = map<string, Json>

  /** Updating the named columns of a row. */
  function Merge(before: Config, after: Config): Config {
    before + after
  }

  /** The patch between two configurations, printed. */
  function Patch(order: Order, dump: Json -> string, before: Config, after: Config): string {
    PatchText(dump, Diff(order, Object(before), Object(after), ""))
  }

  /** The searches: for the bare name, and for a replacement at or below the name. */
  function NameOf(key: string): string {
    key
  }

  const REPLACED := "\"replace\",\"path\":\"/"

  function ReplacementOf(key: string): string {
    REPLACED + key
  }

  function Pruned(before: Config, after: Config, found: string -> bool): Config {
    map k | k in after && (k !in before || found(k)) :: after[k]
  }

  /** The loop of the handlers: `exempt` members are passed over, the others erased unless the search finds them. */
  method EraseUnchanged(order: Order, before: Config, after: Config, text: string, search: string -> string,
                        exempt: set<string>)
    returns (config: Config)
    requires Enumerates(order)
    ensures config == Pruned(before, after, k => k in exempt || Contains(text, search(k)))
  {
    config := after;
    var keys, i := order(before), 0;
    while i < |keys|
      invariant 0 <= i <= |keys|
      invariant config == map k | k in after && (k !in keys[..i] || k in exempt || Contains(text, search(k))) :: after[k]
    {
      if keys[i] !in exempt && !Contains(text, search(keys[i])) {
        config := config - {keys[i]};
      }
      assert keys[..i + 1] == keys[..i] + [keys[i]];
      i := i + 1;
    }
    assert keys[..i] == keys;
  }

  /** A member that both configurations have, with different values. */
  ghost predicate ChangedAt(before: Config, after: Config, k: string) {
    k in before && k in after && before[k] != after[k]
  }

  /** Pruning keeps the meaning exactly when the search finds every changed member. */
  lemma PruningKeeps(before: Config, after: Config, found: string -> bool)
    ensures Merge(before, Pruned(before, after, found)) == Merge(before, after) <==>
      forall k :: ChangedAt(before, after, k) ==> found(k)
  {
    var full, short := Merge(before, after), Merge(before, Pruned(before, after, found));
    if short == full {
      forall k | ChangedAt(before, after, k)
        ensures found(k)
      {
        assert full[k] == after[k] && short[k] == full[k];
      }
    }
    if forall k :: ChangedAt(before, after, k) ==> found(k) {
      forall k | k in full
        ensures short[k] == full[k]
      {
        assert ChangedAt(before, after, k) ==> found(k);
      }
    }
  }

  /** The operations of a changed member: there are some, all of them at or below it, and in the patch. */
  lemma MemberOps(order: Order, before: Config, after: Config, k: string)
    requires Enumerates(order) && ChangedAt(before, after, k)
    ensures var ops := Diff(order, before[k], after[k], "/" + Pointer(k));
            ops != [] && Under(ops, "/" + Pointer(k)) &&
            forall op :: op in ops ==> op in Diff(order, Object(before), Object(after), "")
  {
    var s, t := Object(before), Object(after);
    assert "" + "/" + Pointer(k) == "/" + Pointer(k);
    DiffEmpty(order, before[k], after[k], "/" + Pointer(k));
    DiffUnder(order, before[k], after[k], "/" + Pointer(k));
    MemberDiffs(order, s, t, order(before), "", k);
  }

  /** An operation of a plain member shows in the printed patch, with its kind before its name. */
  lemma Shown(order: Order, dump: Json -> string, before: Config, after: Config, k: string, op: Op)
    requires Plain(k) && op in Diff(order, Object(before), Object(after), "") && "/" + Pointer(k) <= op.path
    ensures Contains(Patch(order, dump, before, after), Front(op) + ("/" + k))
  {
    PatchTextContains(dump, Diff(order, Object(before), Object(after), ""), op);
    PathShown(dump, op, k);
    ContainsTrans(Patch(order, dump, before, after), OpText(dump, op), Front(op) + ("/" + k));
  }

  /** The search for names finds every changed plain member, however deep the change. */
  lemma NameFound(order: Order, dump: Json -> string, before: Config, after: Config, k: string)
    requires Enumerates(order) && Plain(k) && ChangedAt(before, after, k)
    ensures Contains(Patch(order, dump, before, after), NameOf(k))
  {
    MemberOps(order, before, after, k);
    var op := Diff(order, before[k], after[k], "/" + Pointer(k))[0];
    Shown(order, dump, before, after, k, op);
    assert Front(op) + ("/" + k) == Front(op) + "/" + k;
    ContainsLast(Front(op) + "/", k);
    ContainsTrans(Patch(order, dump, before, after), Front(op) + ("/" + k), k);
  }

  /** With plain names pruning by the bare name never loses a change. */
  lemma PruningByName(order: Order, dump: Json -> string, before: Config, after: Config)
    requires Enumerates(order) && forall k :: k in before ==> Plain(k)
    ensures Merge(before, Pruned(before, after, k => Contains(Patch(order, dump, before, after), NameOf(k)))) == Merge(before, after)
  {
    PruningKeeps(before, after, k => Contains(Patch(order, dump, before, after), NameOf(k)));
    forall k | ChangedAt(before, after, k)
      ensures Contains(Patch(order, dump, before, after), NameOf(k))
    {
      NameFound(order, dump, before, after, k);
    }
  }

  const HEAD := "{\"op\":"

  lemma FrontOfReplacement(op: Op, k: string)
    requires op.Replace?
    ensures Front(op) + ("/" + k) == HEAD + ReplacementOf(k)
  {
    assert OPENING == HEAD + "\"";
    assert REPLACED == "\"" + "replace" + PATH + "/";
    assert Front(op) + ("/" + k) == HEAD + ("\"" + "replace" + PATH + "/") + k;
  }

  /** A change by replacement is found by the narrower search too. */
  lemma ReplacementFound(order: Order, dump: Json -> string, before: Config, after: Config, k: string, op: Op)
    requires Enumerates(order) && Plain(k) && ChangedAt(before, after, k)
    requires op in Diff(order, before[k], after[k], "/" + Pointer(k)) && op.Replace?
    ensures Contains(Patch(order, dump, before, after), ReplacementOf(k))
  {
    MemberOps(order, before, after, k);
    Shown(order, dump, before, after, k, op);
    FrontOfReplacement(op, k);
    ContainsLast(HEAD, ReplacementOf(k));
    ContainsTrans(Patch(order, dump, before, after), Front(op) + ("/" + k), ReplacementOf(k));
  }

  /** Two values between which the patch is a single replacement. */
  predicate Flat(s: Json, t: Json) {
    !(s.Array? && t.Array?) && !(s.Object? && t.Object?)
  }

  /** Pruning by replacements loses no change of a flat member; members that are exempt are never lost. */
  lemma PruningByReplacement(order: Order, dump: Json -> string, before: Config, after: Config, exempt: set<string>)
    requires Enumerates(order) && forall k :: k in before ==> Plain(k)
    requires forall k :: ChangedAt(before, after, k) && k !in exempt ==> Flat(before[k], after[k])
    ensures var found := k => k in exempt || Contains(Patch(order, dump, before, after), ReplacementOf(k));
            Merge(before, Pruned(before, after, found)) == Merge(before, after)
  {
    var found := k => k in exempt || Contains(Patch(order, dump, before, after), ReplacementOf(k));
    PruningKeeps(before, after, found);
    forall k | ChangedAt(before, after, k)
      ensures found(k)
    {
      if k !in exempt {
        ReplacementFound(order, dump, before, after, k, Replace("/" + Pointer(k), after[k]));
      }
    }
  }

  /** A row as the database hands it out: under plain column names integers and strings, and nothing else. */
  ghost predicate DatabaseRow(row: Config) {
    forall k :: k in row ==> Plain(k) && (row[k].Number? || row[k].Text?)
  }

  /** Of a database row both searches find every change, whatever is sent in the place of it. */
  lemma RowPruned(order: Order, dump: Json -> string, row: Config, after: Config, exempt: set<string>)
    requires Enumerates(order) && DatabaseRow(row)
    ensures var byName := k => Contains(Patch(order, dump, row, after), NameOf(k));
            Merge(row, Pruned(row, after, byName)) == Merge(row, after)
    ensures var byReplacement := k => k in exempt || Contains(Patch(order, dump, row, after), ReplacementOf(k));
            Merge(row, Pruned(row, after, byReplacement)) == Merge(row, after)
  {
    PruningByName(order, dump, row, after);
    PruningByReplacement(order, dump, row, after, exempt);
  }
}
