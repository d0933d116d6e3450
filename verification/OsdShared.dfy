/** The attributes of the overlay rows: what keeps them the same in all ten. */
module OsdShared {
  import opened Wrappers
  import opened OsdViews

  /** The rows of the overlays have the same attributes. */
  ghost predicate SharedAttributes(osd: Table)
    requires ValidTable(osd)
  {
    forall i :: 0 <= i < SHARED ==> AttributeView(osd[i]) == AttributeView(osd[0])
  }

  ghost predicate Alike(osd: Table, a: Object) {
    ValidTable(osd) && forall i :: 0 <= i < SHARED ==> AttributeView(osd[i]) == a
  }

  ghost predicate NoAttributes(u: Object) {
    u.Keys !! ATTRIBUTE
  }

  /** No section but the attributes names a column of the attributes. */
  ghost predicate NoStray(c: Overlays) {
    && (c.channel.Some? ==> NoAttributes(c.channel.value))
    && (c.characters.Some? ==> NoStrayTexts(c.characters.value))
    && (c.dateTime.Some? ==> NoAttributes(c.dateTime.value))
  }

  ghost predicate NoStrayTexts(cs: seq<Object>) {
    forall i :: 0 <= i < |cs| ==> NoAttributes(cs[i])
  }

  ghost predicate SameAttributes(t: Table, osd: Table)
    requires ValidTable(t) && ValidTable(osd)
  {
    forall i :: 0 <= i < ROWS ==> AttributeView(t[i]) == AttributeView(osd[i])
  }

  /** A row keeps its attributes under an update that names none of them. */
  lemma AttributesKept(row: Object, u: Object)
    requires row.Keys == COLUMNS && NoAttributes(u) && (row + u).Keys == COLUMNS
    ensures AttributeView(row + u) == AttributeView(row)
  {
  }

  lemma UpdateKeepsAttributes(osd: Table, u: Object, id: int)
    requires ValidTable(osd) && NoAttributes(u)
    ensures SameAttributes(Update(osd, u, id), osd)
  {
    if 0 <= id < |osd| && Fits(u, id) {
      AttributesKept(osd[id], u);
    }
  }

  lemma SameAttributesTrans(t: Table, u: Table, v: Table)
    requires ValidTable(t) && ValidTable(u) && ValidTable(v) && SameAttributes(t, u) && SameAttributes(u, v)
    ensures SameAttributes(t, v)
  {
  }

  /** Renaming keys brings no attributes in. */
  lemma RenamedNoAttributes(o: Object, from: Key, to: Key)
    requires NoAttributes(o) && to !in ATTRIBUTE && Renamed(o, from, to).Ok?
    ensures NoAttributes(Renamed(o, from, to).value)
  {
  }

  lemma TextNoAttributes(o: Object)
    requires NoAttributes(o) && CharacterRow(o).Ok?
    ensures NoAttributes(CharacterRow(o).value.0)
  {
    RenamedNoAttributes(Shifted(o, FIRST_TEXT).value.0, TextEnabled, Enabled);
  }

  lemma ChannelNoAttributes(o: Object)
    requires NoAttributes(o) && ChannelRow(o).Ok?
    ensures NoAttributes(ChannelRow(o).value)
  {
    RenamedNoAttributes(o, ChannelName, DisplayText);
    RenamedNoAttributes(Renamed(o, ChannelName, DisplayText).value, ChannelEnabled, Enabled);
  }

  lemma DateTimeNoAttributes(o: Object)
    requires NoAttributes(o) && DateTimeRow(o).Ok?
    ensures NoAttributes(DateTimeRow(o).value)
  {
    RenamedNoAttributes(o, DateTimeEnabled, Enabled);
  }

  lemma MaskNoAttributes(o: Object)
    requires NoAttributes(o) && MaskRow(o).Ok?
    ensures NoAttributes(MaskRow(o).value.0)
  {
    var p := Shifted(o, FIRST_MASK).value.0;
    RenamedNoAttributes(p, MaskWidth, Width);
    var q := Renamed(p, MaskWidth, Width).value;
    RenamedNoAttributes(q, MaskHeight, Height);
    RenamedNoAttributes(Renamed(q, MaskHeight, Height).value, MaskEnabled, Enabled);
  }

  lemma {:induction false} TextsKeepAttributes(osd: Table, cs: seq<Object>)
    requires ValidTable(osd) && NoStrayTexts(cs) && PutCharacters(osd, cs).Ok?
    ensures ValidTable(PutCharacters(osd, cs).value) && SameAttributes(PutCharacters(osd, cs).value, osd)
    decreases |cs|
  {
    if cs != [] {
      var (o, id) := CharacterRow(cs[0]).value;
      TextNoAttributes(cs[0]);
      UpdateKeepsAttributes(osd, o, id);
      TextsKeepAttributes(Update(osd, o, id), cs[1..]);
    }
  }

  lemma {:induction false} MasksKeepAttributes(osd: Table, ms: seq<Object>)
    requires ValidTable(osd) && NoStrayTexts(ms) && PutMasks(osd, ms).Ok?
    ensures ValidTable(PutMasks(osd, ms).value) && SameAttributes(PutMasks(osd, ms).value, osd)
    decreases |ms|
  {
    if ms != [] {
      var (o, id) := MaskRow(ms[0]).value;
      MaskNoAttributes(ms[0]);
      UpdateKeepsAttributes(osd, o, id);
      MasksKeepAttributes(Update(osd, o, id), ms[1..]);
    }
  }

  /** The sections after the attributes leave every row's attributes alone, wherever the texts go. */
  lemma SectionsKeepAttributes(osd: Table, c: Overlays)
    requires ValidTable(osd) && NoStray(c) && PutSections(osd, c).Ok?
    ensures ValidTable(PutSections(osd, c).value) && SameAttributes(PutSections(osd, c).value, osd)
  {
    var t2 := osd;
    if c.channel.Some? {
      ChannelNoAttributes(c.channel.value);
      UpdateKeepsAttributes(osd, ChannelRow(c.channel.value).value, 0);
      t2 := PutChannel(osd, c.channel.value).value;
    }
    var t3 := t2;
    if c.characters.Some? {
      TextsKeepAttributes(t2, c.characters.value);
      t3 := PutCharacters(t2, c.characters.value).value;
    }
    if c.dateTime.Some? {
      DateTimeNoAttributes(c.dateTime.value);
      UpdateKeepsAttributes(t3, DateTimeRow(c.dateTime.value).value, 1);
    }
  }

  lemma AttributesOver(row: Object, a: Object)
    requires row.Keys == COLUMNS && a.Keys == ATTRIBUTE
    ensures (row + a).Keys == COLUMNS && AttributeView(row + a) == a
  {
    var t := row + a;
    assert forall k :: k in ATTRIBUTE ==> t[k] == a[k];
  }

  lemma AttributeMakesAlike(osd: Table, a: Object)
    requires ValidTable(osd) && a.Keys == ATTRIBUTE
    ensures Alike(PutAttribute(osd, a, SHARED), a)
  {
    AttributeKeys(a);
    AttributeWritten(osd, a, SHARED);
    PutAttributeValid(osd, a, SHARED);
    SpreadAlike(osd, a);
  }

  lemma SpreadAlike(osd: Table, a: Object)
    requires ValidTable(osd) && a.Keys == ATTRIBUTE && ValidTable(Spread(osd, Copies(a, SHARED), 0))
    ensures Alike(Spread(osd, Copies(a, SHARED), 0), a)
  {
    forall i | 0 <= i < SHARED
      ensures AttributeView(Spread(osd, Copies(a, SHARED), 0)[i]) == a
    {
      AttributesOver(osd[i], a);
    }
  }

  /** Attributes that all rows have already change nothing. */
  lemma AlikeUnchanged(osd: Table, a: Object)
    requires Alike(osd, a) && a.Keys == ATTRIBUTE
    ensures PutAttribute(osd, a, SHARED) == osd
  {
    AttributeKeys(a);
    AttributeWritten(osd, a, SHARED);
    AttributesSpread(osd, a);
  }

  ghost predicate Absorbs(row: Object, a: Object) {
    row + a == row
  }

  lemma AttributesSpread(osd: Table, a: Object)
    requires Alike(osd, a)
    ensures Spread(osd, Copies(a, SHARED), 0) == osd
  {
    forall i | 0 <= i < SHARED
      ensures Absorbs(osd[i], a)
    {
      AttributesAgain(osd[i], a);
    }
    SpreadAbsorbed(osd, a);
  }

  lemma SpreadAbsorbed(osd: Table, a: Object)
    requires |osd| == ROWS && forall i :: 0 <= i < SHARED ==> Absorbs(osd[i], a)
    ensures Spread(osd, Copies(a, SHARED), 0) == osd
  {
    forall i | 0 <= i < |osd|
      ensures Spread(osd, Copies(a, SHARED), 0)[i] == osd[i]
    {
      assert i < SHARED ==> Absorbs(osd[i], a);
    }
  }

  lemma AttributesAgain(row: Object, a: Object)
    requires row.Keys == COLUMNS && a == AttributeView(row)
    ensures Absorbs(row, a)
  {
  }

  lemma AlikeKept(t: Table, osd: Table, a: Object)
    requires Alike(osd, a) && ValidTable(t) && SameAttributes(t, osd)
    ensures Alike(t, a)
  {
  }

  /** Every write that carries the attributes makes them shared, unless it throws or names stray attributes. */
  lemma PutShares(s: Store, c: Overlays)
    requires ValidStore(s) && c.attribute.Some? && c.attribute.value.Keys == ATTRIBUTE && NoStray(c) && Put(s, c).Ok?
    ensures ValidStore(Put(s, c).value) && Alike(Put(s, c).value.osd, c.attribute.value)
  {
    PutValid(s, c);
    var t := PutAttribute(s.osd, c.attribute.value, SHARED);
    AttributeMakesAlike(s.osd, c.attribute.value);
    SectionsKeepAttributes(t, c);
    AlikeKept(PutSections(t, c).value, t, c.attribute.value);
  }

  /** A text with some id, whatever it is. */
  ghost predicate SomeCharacter(o: Object) {
    Id in o && o[Id].Num? && IsCharacter(o, o[Id].n)
  }

  /** Sections that are well formed where they are present. */
  ghost predicate WellFormed(c: Overlays) {
    && (c.channel.Some? ==> IsChannel(c.channel.value))
    && (c.characters.Some? ==> forall i :: 0 <= i < |c.characters.value| ==> SomeCharacter(c.characters.value[i]))
    && (c.dateTime.Some? ==> IsDateTime(c.dateTime.value))
  }

  /** Well-formed sections name no stray attributes and never throw. */
  lemma WellFormedWrites(s: Store, c: Overlays)
    requires WellFormed(c)
    ensures NoStray(c) && Put(s, c).Ok?
  {
    var t := if c.attribute.Some? then PutAttribute(s.osd, c.attribute.value, SHARED) else s.osd;
    FrontWrites(c);
    if c.channel.Some? {
      t := PutChannel(t, c.channel.value).value;
    }
    if c.characters.Some? {
      TextsWrite(t, c.characters.value);
    }
  }

  lemma FrontWrites(c: Overlays)
    requires WellFormed(c)
    ensures c.channel.Some? ==> NoAttributes(c.channel.value) && ChannelRow(c.channel.value).Ok?
    ensures c.dateTime.Some? ==> NoAttributes(c.dateTime.value) && DateTimeRow(c.dateTime.value).Ok?
  {
    if c.channel.Some? {
      ChannelWritten(c.channel.value);
    }
    if c.dateTime.Some? {
      DateTimeWritten(c.dateTime.value);
    }
  }

  lemma {:induction false} TextsWrite(osd: Table, cs: seq<Object>)
    requires forall i :: 0 <= i < |cs| ==> SomeCharacter(cs[i])
    ensures NoStrayTexts(cs) && PutCharacters(osd, cs).Ok?
    decreases |cs|
  {
    if cs != [] {
      TextWrites(cs[0]);
      var (o, id) := CharacterRow(cs[0]).value;
      TextsWrite(Update(osd, o, id), cs[1..]);
      assert forall i :: 0 < i < |cs| ==> cs[i] == cs[1..][i - 1];
    }
  }

  lemma TextWrites(o: Object)
    requires SomeCharacter(o)
    ensures NoAttributes(o) && CharacterRow(o).Ok?
  {
    CharacterWritten(o, o[Id].n);
  }
}
