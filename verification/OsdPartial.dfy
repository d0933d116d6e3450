/** Writing only the sections of an overlay configuration that differ from what is shown. */
module OsdPartial {
  import opened Wrappers
  import opened OsdViews
  import opened OsdShared

  /** No text goes to a row before the texts. */
  ghost predicate IdsFromZero(cs: seq<Object>) {
    forall i :: 0 <= i < |cs| ==> (Id in cs[i] && cs[i][Id].Num? ==> cs[i][Id].n >= 0)
  }

  /** The sections stay out of each other's way: the first names attributes only, and the texts their own rows. */
  ghost predicate Separate(c: Overlays) {
    && (c.attribute.Some? ==> c.attribute.value.Keys <= ATTRIBUTE)
    && (c.characters.Some? ==> IdsFromZero(c.characters.value))
  }

  /** `p` is `c` without some sections that are as shown. */
  ghost predicate Drops(s: Store, c: Overlays, p: Overlays)
    requires ValidStore(s)
  {
    && (p.attribute == c.attribute || (p.attribute.None? && c.attribute == Get(s).attribute))
    && (p.channel == c.channel || (p.channel.None? && c.channel == Get(s).channel))
    && (p.characters == c.characters || (p.characters.None? && c.characters == Get(s).characters))
    && (p.dateTime == c.dateTime || (p.dateTime.None? && c.dateTime == Get(s).dateTime))
    && (p.screen == c.screen || (p.screen.None? && c.screen == Get(s).screen))
  }

  // --- rows that differ in their attributes only ---

  ghost predicate SameBut(row: Object, was: Object) {
    row.Keys == was.Keys && forall k :: k in row && k !in ATTRIBUTE ==> row[k] == was[k]
  }

  ghost predicate AllSameBut(t: Table, osd: Table) {
    |t| == |osd| && forall i :: 0 <= i < |t| ==> SameBut(t[i], osd[i])
  }

  /** An update that sets columns of the row to what they are. */
  ghost predicate Repeats(row: Object, u: Object) {
    forall k :: k in u ==> k in row && u[k] == row[k]
  }

  lemma Repeated(row: Object, was: Object, u: Object)
    requires SameBut(row, was) && Repeats(was, u) && NoAttributes(u)
    ensures row + u == row
  {
    assert forall k :: k in u ==> k !in ATTRIBUTE;
  }

  lemma AttributeRow(row: Object, a: Object)
    requires a.Keys <= ATTRIBUTE && a.Keys <= row.Keys
    ensures SameBut(row + a, row)
  {
  }

  lemma AttributeKeysFit(a: Object)
    requires a.Keys <= ATTRIBUTE
    ensures a.Keys <= COLUMNS && Id !in a
  {
  }

  lemma AttributeOnly(osd: Table, a: Object)
    requires ValidTable(osd) && a.Keys <= ATTRIBUTE
    ensures ValidTable(PutAttribute(osd, a, SHARED)) && AllSameBut(PutAttribute(osd, a, SHARED), osd)
  {
    PutAttributeValid(osd, a, SHARED);
    AttributeKeysFit(a);
    AttributeWritten(osd, a, SHARED);
    SpreadAttribute(osd, a);
  }

  lemma SpreadAttribute(osd: Table, a: Object)
    requires ValidTable(osd) && a.Keys <= ATTRIBUTE
    ensures AllSameBut(Spread(osd, Copies(a, SHARED), 0), osd)
  {
    AttributeKeysFit(a);
    forall i | 0 <= i < |osd|
      ensures SameBut(Spread(osd, Copies(a, SHARED), 0)[i], osd[i])
    {
      AttributeRow(osd[i], a);
    }
  }

  lemma ChannelRepeats(row: Object)
    requires row.Keys == COLUMNS
    ensures Repeats(row, ChannelUpdate(ChannelView(row)))
  {
  }

  lemma DateTimeRepeats(row: Object)
    requires row.Keys == COLUMNS
    ensures Repeats(row, DateTimeUpdate(DateTimeView(row)))
  {
  }

  lemma CharacterRepeats(row: Object, id: int)
    requires row.Keys == COLUMNS && row[Id] == Num(id + FIRST_TEXT)
    ensures Repeats(row, CharacterUpdate(CharacterView(row, id), id + FIRST_TEXT))
  {
  }

  lemma UpdatesAvoid(o: Object, id: int)
    ensures IsCharacter(o, id) ==> NoAttributes(CharacterUpdate(o, id + FIRST_TEXT))
    ensures IsChannel(o) ==> NoAttributes(ChannelUpdate(o))
    ensures IsDateTime(o) ==> NoAttributes(DateTimeUpdate(o))
  {
  }

  // --- writing back a section ---

  lemma UpdateRepeated(t: Table, osd: Table, u: Object, i: nat)
    requires i < |t| == |osd| && SameBut(t[i], osd[i]) && Repeats(osd[i], u) && NoAttributes(u)
    ensures Update(t, u, i) == t
  {
    Repeated(t[i], osd[i], u);
  }

  lemma ChannelWrittenBack(t: Table, osd: Table)
    requires ValidTable(osd) && |t| == ROWS && SameBut(t[0], osd[0])
    ensures PutChannel(t, ChannelView(osd[0])) == Ok(t)
  {
    ChannelShownWhole(osd[0]);
    ChannelRepeats(osd[0]);
    UpdateRepeated(t, osd, ChannelUpdate(ChannelView(osd[0])), 0);
  }

  lemma ChannelShownWhole(row: Object)
    requires row.Keys == COLUMNS
    ensures ChannelRow(ChannelView(row)) == Ok(ChannelUpdate(ChannelView(row)))
    ensures NoAttributes(ChannelUpdate(ChannelView(row)))
  {
    UpdatesAvoid(ChannelView(row), 0);
    ChannelWritten(ChannelView(row));
  }

  lemma DateTimeWrittenBack(t: Table, osd: Table)
    requires ValidTable(osd) && |t| == ROWS && SameBut(t[1], osd[1])
    ensures PutDateTime(t, DateTimeView(osd[1])) == Ok(t)
  {
    DateTimeShownWhole(osd[1]);
    DateTimeRepeats(osd[1]);
    UpdateRepeated(t, osd, DateTimeUpdate(DateTimeView(osd[1])), 1);
  }

  lemma DateTimeShownWhole(row: Object)
    requires row.Keys == COLUMNS
    ensures DateTimeRow(DateTimeView(row)) == Ok(DateTimeUpdate(DateTimeView(row)))
    ensures NoAttributes(DateTimeUpdate(DateTimeView(row)))
  {
    UpdatesAvoid(DateTimeView(row), 0);
    DateTimeWritten(DateTimeView(row));
  }

  lemma TextsShownWhole(osd: Table)
    requires ValidTable(osd)
    ensures AreCharacters(CharacterViews(osd), 0)
  {
    forall j | 0 <= j < 8
      ensures IsCharacter(CharacterViews(osd)[j], j + 0)
    {
      TextShownWhole(osd[j + FIRST_TEXT], j);
    }
  }

  lemma TextShownWhole(row: Object, id: int)
    requires row.Keys == COLUMNS
    ensures IsCharacter(CharacterView(row, id), id)
    ensures NoAttributes(CharacterUpdate(CharacterView(row, id), id + FIRST_TEXT))
  {
    UpdatesAvoid(CharacterView(row, id), id);
  }

  lemma TextUpdatesAre(osd: Table)
    requires ValidTable(osd)
    ensures AreCharacters(CharacterViews(osd), 0)
    ensures var us := CharacterUpdates(CharacterViews(osd), 0);
            |us| == 8 && forall j :: 0 <= j < 8 ==> us[j] == TextUpdate(osd, j)
  {
    TextsShownWhole(osd);
    forall j | 0 <= j < 8
      ensures CharacterUpdates(CharacterViews(osd), 0)[j] == TextUpdate(osd, j)
    {
      TextShownWhole(osd[j + FIRST_TEXT], j);
    }
  }

  lemma CharactersWrittenBack(t: Table, osd: Table)
    requires ValidTable(osd) && |t| == ROWS && forall i :: FIRST_TEXT <= i < SHARED ==> SameBut(t[i], osd[i])
    ensures PutCharacters(t, CharacterViews(osd)) == Ok(t)
  {
    TextUpdatesAre(osd);
    TextUpdatesBack(t, osd, CharacterUpdates(CharacterViews(osd), 0));
    WrittenUnchanged(t, CharacterViews(osd));
  }

  lemma WrittenUnchanged(t: Table, cs: seq<Object>)
    requires |t| == ROWS && |cs| == 8 && AreCharacters(cs, 0) && Spread(t, CharacterUpdates(cs, 0), FIRST_TEXT) == t
    ensures PutCharacters(t, cs) == Ok(t)
  {
    CharactersWritten(t, cs, 0);
  }

  lemma TextUpdatesBack(t: Table, osd: Table, us: seq<Object>)
    requires ValidTable(osd) && |t| == ROWS && forall i :: FIRST_TEXT <= i < SHARED ==> SameBut(t[i], osd[i])
    requires |us| == 8 && forall j :: 0 <= j < 8 ==> us[j] == TextUpdate(osd, j)
    ensures Spread(t, us, FIRST_TEXT) == t
  {
    forall j | 0 <= j < |us|
      ensures t[j + FIRST_TEXT] + us[j] == t[j + FIRST_TEXT]
    {
      TextShownWhole(osd[j + FIRST_TEXT], j);
      CharacterRepeats(osd[j + FIRST_TEXT], j);
      Repeated(t[j + FIRST_TEXT], osd[j + FIRST_TEXT], us[j]);
    }
    SpreadSame(t, us, FIRST_TEXT);
  }

  /** What writing back the text that is shown of a row sets there. */
  ghost function TextUpdate(osd: Table, j: nat): Object
    requires ValidTable(osd) && j < 8
  {
    CharacterUpdate(CharacterView(osd[j + FIRST_TEXT], j), j + FIRST_TEXT)
  }

  /** Texts leave the rows before them alone. */
  lemma {:induction false} TextsFrame(osd: Table, cs: seq<Object>)
    requires ValidTable(osd) && IdsFromZero(cs) && PutCharacters(osd, cs).Ok?
    ensures ValidTable(PutCharacters(osd, cs).value)
    ensures forall i :: 0 <= i < FIRST_TEXT ==> PutCharacters(osd, cs).value[i] == osd[i]
    decreases |cs|
  {
    if cs != [] {
      var (o, id) := CharacterRow(cs[0]).value;
      assert id >= FIRST_TEXT;
      TextsFrame(Update(osd, o, id), cs[1..]);
    }
  }

  // --- leaving sections out ---

  /** The sections after the attributes, from a table that has the rows of `s` but for their attributes. */
  lemma SectionsDropped(s: Store, t: Table, c: Overlays, p: Overlays)
    requires ValidStore(s) && ValidTable(t) && AllSameBut(t, s.osd)
    requires Drops(s, c, p) && (c.characters.Some? ==> IdsFromZero(c.characters.value))
    ensures PutSections(t, p) == PutSections(t, c)
  {
    ChannelWrittenBack(t, s.osd);
    var r2 := if c.channel.None? then Ok(t) else PutChannel(t, c.channel.value);
    if r2.Ok? {
      var t2 := r2.value;
      CharactersWrittenBack(t2, s.osd);
      var r3 := if c.characters.None? then Ok(t2) else PutCharacters(t2, c.characters.value);
      if r3.Ok? {
        if c.characters.Some? {
          TextsFrame(t2, c.characters.value);
        }
        DateTimeWrittenBack(r3.value, s.osd);
      }
    }
  }

  lemma AllSame(osd: Table)
    ensures AllSameBut(osd, osd)
  {
  }

  lemma AfterAttributeSame(osd: Table, c: Overlays)
    requires ValidTable(osd) && (c.attribute.Some? ==> c.attribute.value.Keys <= ATTRIBUTE)
    ensures ValidTable(AfterAttribute(osd, c)) && AllSameBut(AfterAttribute(osd, c), osd)
  {
    AllSame(osd);
    if c.attribute.Some? {
      AttributeOnly(osd, c.attribute.value);
    }
  }

  lemma ScreenDropped(s: Store, c: Overlays, p: Overlays)
    requires ValidStore(s) && Drops(s, c, p)
    ensures (if p.screen.Some? then PutScreen(s.screen, p.screen.value) else s.screen) ==
            (if c.screen.Some? then PutScreen(s.screen, c.screen.value) else s.screen)
  {
    ScreenBack(s.screen);
  }

  /** With the attributes written alike, leaving out other sections that are as shown makes no difference at all. */
  lemma SameAttributeDropped(s: Store, c: Overlays, p: Overlays)
    requires ValidStore(s) && Drops(s, c, p) && Separate(c) && p.attribute == c.attribute
    ensures Put(s, p) == Put(s, c)
  {
    PutInTwo(s, c);
    PutInTwo(s, p);
    AfterAttributeSame(s.osd, c);
    SectionsDropped(s, AfterAttribute(s.osd, c), c, p);
    ScreenDropped(s, c, p);
  }

  /** Leaving out the attributes that are shown of the first row makes no difference when the rows share them, and,
      unless another section names attributes, only then. */
  lemma AttributeDropped(s: Store, c: Overlays)
    requires ValidStore(s) && c.attribute == Get(s).attribute
    ensures Put(s, c).Fail? || SharedAttributes(s.osd) ==> Put(s, c.(attribute := None)) == Put(s, c)
    ensures NoStray(c) && Put(s, c.(attribute := None)) == Put(s, c) ==> Put(s, c).Fail? || SharedAttributes(s.osd)
  {
    var p := c.(attribute := None);
    PutFails(s, c, p);
    if SharedAttributes(s.osd) {
      AttributeAsShared(s, c, p);
    } else if NoStray(c) && Put(s, c).Ok? && Put(s, p) == Put(s, c) {
      AttributeMattered(s, c, p);
    }
  }

  lemma PutFails(s: Store, c: Overlays, p: Overlays)
    requires p == c.(attribute := None)
    ensures Put(s, c).Fail? ==> Put(s, p) == Put(s, c)
  {
    PutInTwo(s, c);
    PutInTwo(s, p);
    SectionsAlike(s.osd, AfterAttribute(s.osd, c), c, p);
  }

  lemma AttributeAsShared(s: Store, c: Overlays, p: Overlays)
    requires ValidStore(s) && c.attribute == Get(s).attribute && SharedAttributes(s.osd) && p == c.(attribute := None)
    ensures Put(s, p) == Put(s, c)
  {
    AttributeShownWhole(s.osd[0]);
    AlikeUnchanged(s.osd, c.attribute.value);
    PutWithout(s, c, p);
  }

  lemma PutWithout(s: Store, c: Overlays, p: Overlays)
    requires p == c.(attribute := None) && AfterAttribute(s.osd, c) == s.osd
    ensures Put(s, p) == Put(s, c)
  {
    SectionsWithout(s.osd, c, p);
    PutInTwo(s, c);
    PutInTwo(s, p);
  }

  lemma SectionsWithout(t: Table, c: Overlays, p: Overlays)
    requires p == c.(attribute := None)
    ensures PutSections(t, p) == PutSections(t, c)
  {
  }

  lemma AttributeShownWhole(row: Object)
    requires row.Keys == COLUMNS
    ensures AttributeView(row).Keys == ATTRIBUTE
  {
  }

  /** A write with attributes shares them, and one without keeps them as they are. */
  lemma AttributeMattered(s: Store, c: Overlays, p: Overlays)
    requires ValidStore(s) && NoStray(c) && c.attribute == Get(s).attribute && p == c.(attribute := None)
    requires Put(s, c).Ok? && Put(s, p) == Put(s, c)
    ensures SharedAttributes(s.osd)
  {
    AttributeShownWhole(s.osd[0]);
    PutShares(s, c);
    SectionsKeepAttributes(s.osd, p);
    SharedBefore(Put(s, c).value.osd, s.osd, c.attribute.value);
  }

  lemma SharedBefore(t: Table, osd: Table, a: Object)
    requires ValidTable(osd) && Alike(t, a) && SameAttributes(t, osd)
    ensures SharedAttributes(osd)
  {
    forall i | 0 <= i < SHARED
      ensures AttributeView(osd[i]) == AttributeView(osd[0])
    {
      assert AttributeView(t[i]) == a && AttributeView(t[0]) == a;
    }
  }

  /** Sections fail, or not, whatever the table. */
  lemma SectionsAlike(t: Table, u: Table, c: Overlays, p: Overlays)
    requires p == c.(attribute := None)
    ensures PutSections(t, p).Fail? <==> PutSections(u, c).Fail?
    ensures PutSections(t, p).Fail? ==> PutSections(t, p) == PutSections(u, c)
  {
    var t2 := if c.channel.None? then Ok(t) else PutChannel(t, c.channel.value);
    var u2 := if c.channel.None? then Ok(u) else PutChannel(u, c.channel.value);
    if t2.Ok? && c.characters.Some? {
      TextsAlike(t2.value, u2.value, c.characters.value);
    }
  }

  lemma {:induction false} TextsAlike(t: Table, u: Table, cs: seq<Object>)
    ensures PutCharacters(t, cs).Fail? <==> PutCharacters(u, cs).Fail?
    ensures PutCharacters(t, cs).Fail? ==> PutCharacters(t, cs) == PutCharacters(u, cs)
    decreases |cs|
  {
    if cs != [] && CharacterRow(cs[0]).Ok? {
      var (o, id) := CharacterRow(cs[0]).value;
      TextsAlike(Update(t, o, id), Update(u, o, id), cs[1..]);
    }
  }

  /** Leaving out sections that are as shown makes no difference to a write, whatever else it carries, when it throws,
      or the attributes are not left out, or the overlay rows share them; and, unless another section names attributes,
      only then. */
  lemma DropUnchanged(s: Store, c: Overlays, p: Overlays)
    requires ValidStore(s) && Drops(s, c, p) && Separate(c)
    ensures Put(s, c).Fail? || p.attribute == c.attribute || SharedAttributes(s.osd) ==> Put(s, p) == Put(s, c)
    ensures NoStray(c) && Put(s, p) == Put(s, c) ==>
              Put(s, c).Fail? || p.attribute == c.attribute || SharedAttributes(s.osd)
  {
    if p.attribute == c.attribute {
      SameAttributeDropped(s, c, p);
    } else {
      SameAttributeDropped(s, c.(attribute := None), p);
      AttributeDropped(s, c);
    }
  }

  /** Writing back what is shown changes nothing exactly when the rows of the overlays share their attributes. */
  lemma GetPut(s: Store)
    requires ValidStore(s)
    ensures Put(s, Get(s)).Ok?
    ensures Put(s, Get(s)) == Ok(s) <==> SharedAttributes(s.osd)
  {
    var nothing := Overlays(None, None, None, None, None);
    ShownIsComplete(s);
    PutRows(s, Get(s));
    CompleteIsSeparate(Get(s));
    DropUnchanged(s, Get(s), nothing);
    assert Put(s, nothing) == Ok(s);
  }

  /** Complete sections name their own columns and rows. */
  lemma CompleteIsSeparate(c: Overlays)
    requires Complete(c)
    ensures Separate(c) && NoStray(c)
  {
    forall i | 0 <= i < 8
      ensures NoAttributes(c.characters.value[i]) && c.characters.value[i][Id] == Num(i)
    {
      assert IsCharacter(c.characters.value[i], i + 0);
    }
  }

  // --- sections that get in each other's way ---

  /** A text for the row of the date, which is written before the date. */
  function StrayText(x: Value): Object {
    map[Id := Num(-1), PositionX := x, TextEnabled := Num(1)]
  }

  lemma StrayTextRow(x: Value)
    ensures CharacterRow(StrayText(x)) == Ok((map[Id := Num(1), PositionX := x, Enabled := Num(1)], 1))
    ensures Fits(map[Id := Num(1), PositionX := x, Enabled := Num(1)], 1)
  {
    var p: Object := map[Id := Num(1), PositionX := x, TextEnabled := Num(1)];
    assert StrayText(x)[Id := Num(1)] == p;
    assert p[Enabled := Num(1)] - {TextEnabled} == map[Id := Num(1), PositionX := x, Enabled := Num(1)];
  }

  lemma StrayTextWritten(osd: Table, x: Value)
    requires |osd| == ROWS
    ensures PutCharacters(osd, [StrayText(x)]) == Ok(Update(osd, map[Id := Num(1), PositionX := x, Enabled := Num(1)], 1))
  {
    StrayTextRow(x);
    var t := Update(osd, map[Id := Num(1), PositionX := x, Enabled := Num(1)], 1);
    assert [StrayText(x)][1..] == [] && PutCharacters(t, []) == Ok(t);
  }

  /** Texts have to keep to their own rows: otherwise the date that is shown, written or left out, makes a difference. */
  lemma SeparateNeeded(s: Store, x: Value)
    requires ValidStore(s) && x != s.osd[1][PositionX]
    ensures var p := Overlays(None, None, Some([StrayText(x)]), None, None);
            var c := p.(dateTime := Get(s).dateTime);
            Drops(s, c, p) && !Separate(c) && Put(s, c).Ok? && Put(s, p).Ok? && Put(s, p) != Put(s, c)
  {
    var p := Overlays(None, None, Some([StrayText(x)]), None, None);
    var c := p.(dateTime := Get(s).dateTime);
    var u: Object := map[Id := Num(1), PositionX := x, Enabled := Num(1)];
    StrayTextWritten(s.osd, x);
    StrayTextRow(x);
    var t := Update(s.osd, u, 1);
    assert Put(s, p).value.osd == t && t[1] == s.osd[1] + u && t[1][PositionX] == x;
    DateTimeOver(s.osd[1], t);
    assert Put(s, c).value.osd == PutDateTime(t, DateTimeView(s.osd[1])).value;
    assert [StrayText(x)][0][Id].n < 0;
  }

  lemma DateTimeOver(row: Object, t: Table)
    requires row.Keys == COLUMNS && |t| == ROWS
    ensures var r := PutDateTime(t, DateTimeView(row));
            r.Ok? && |r.value| == ROWS && PositionX in r.value[1] && r.value[1][PositionX] == row[PositionX]
  {
    DateTimeShownWhole(row);
    DateTimeFits(DateTimeView(row));
  }
}
