/** Which column of which row each key of a configuration stands for, one by one, for both directions. */
module OsdColumns {
  import opened Wrappers
  import opened OsdViews

  // --- the sections ---

  ghost predicate ShowsPlace(o: Object, row: Object)
    requires row.Keys == COLUMNS && {PositionX, PositionY} <= o.Keys
  {
    o[PositionX] == row[PositionX] && o[PositionY] == row[PositionY]
  }

  ghost predicate ShowsAttribute(o: Object, row: Object)
    requires row.Keys == COLUMNS
  {
    o.Keys == {OsdAttribute, FontSize, FrontColorMode, FrontColor, Alignment, Boundary} && forall k :: k in o ==> o[k] == row[k]
  }

  ghost predicate ShowsChannel(o: Object, row: Object)
    requires row.Keys == COLUMNS
  {
    && o.Keys == {PositionX, PositionY, ChannelName, ChannelEnabled} && ShowsPlace(o, row)
    && o[ChannelName] == row[DisplayText] && o[ChannelEnabled] == row[Enabled]
  }

  ghost predicate ShowsDateTime(o: Object, row: Object)
    requires row.Keys == COLUMNS
  {
    && o.Keys == {PositionX, PositionY, DateStyle, TimeStyle, DisplayWeek, DateTimeEnabled} && ShowsPlace(o, row)
    && o[DateStyle] == row[DateStyle] && o[TimeStyle] == row[TimeStyle] && o[DisplayWeek] == row[DisplayWeek]
    && o[DateTimeEnabled] == row[Enabled]
  }

  ghost predicate ShowsText(o: Object, row: Object, id: int)
    requires row.Keys == COLUMNS
  {
    && o.Keys == {Id, PositionX, PositionY, DisplayText, PersistentText, TextEnabled} && ShowsPlace(o, row)
    && o[Id] == Num(id) && o[DisplayText] == row[DisplayText] && o[PersistentText] == row[PersistentText]
    && o[TextEnabled] == row[Enabled]
  }

  ghost predicate ShowsMask(o: Object, row: Object, id: int)
    requires row.Keys == COLUMNS
  {
    && o.Keys == {Id, PositionX, PositionY, MaskWidth, MaskHeight, MaskEnabled} && ShowsPlace(o, row)
    && o[Id] == Num(id) && o[MaskWidth] == row[Width] && o[MaskHeight] == row[Height] && o[MaskEnabled] == row[Enabled]
  }

  ghost predicate ShowsScreen(o: Object, screen: Object)
    requires screen.Keys == {Id, ScreenWidth, ScreenHeight}
  {
    o.Keys == {ScreenWidth, ScreenHeight} && o[ScreenWidth] == screen[ScreenWidth] && o[ScreenHeight] == screen[ScreenHeight]
  }

  // --- the configurations ---

  ghost predicate ShowsTexts(cs: seq<Object>, osd: Table)
    requires ValidTable(osd)
  {
    |cs| == 8 && forall i :: 0 <= i < 8 ==> ShowsText(cs[i], osd[2 + i], i)
  }

  ghost predicate ShowsAllMasks(ms: seq<Object>, osd: Table)
    requires ValidTable(osd)
  {
    |ms| == 4 && forall i :: 0 <= i < 4 ==> ShowsMask(ms[i], osd[10 + i], i)
  }

  /** The overlays are the rows 0 to 9 of the table. */
  ghost predicate Shows(c: Overlays, s: Store)
    requires ValidStore(s)
  {
    && c.attribute.Some? && ShowsAttribute(c.attribute.value, s.osd[0])
    && c.channel.Some? && ShowsChannel(c.channel.value, s.osd[0])
    && c.dateTime.Some? && ShowsDateTime(c.dateTime.value, s.osd[1])
    && c.characters.Some? && ShowsTexts(c.characters.value, s.osd)
    && c.screen.Some? && ShowsScreen(c.screen.value, s.screen)
  }

  /** The masks are the rows 10 to 13. */
  ghost predicate ShowsMasks(c: Masks, s: Store)
    requires ValidStore(s)
  {
    && c.masks.Some? && ShowsAllMasks(c.masks.value, s.osd)
    && c.screen.Some? && ShowsScreen(c.screen.value, s.screen)
  }

  lemma GetShows(s: Store)
    requires ValidStore(s)
    ensures Shows(Get(s), s)
  {
    AttributeShows(s.osd[0]);
    ChannelShows(s.osd[0]);
    DateTimeShows(s.osd[1]);
    TextsShow(s.osd);
    ScreenShows(s.screen);
  }

  lemma AttributeShows(row: Object)
    requires row.Keys == COLUMNS
    ensures ShowsAttribute(AttributeView(row), row)
  {
  }

  lemma ChannelShows(row: Object)
    requires row.Keys == COLUMNS
    ensures ShowsChannel(ChannelView(row), row)
  {
  }

  lemma DateTimeShows(row: Object)
    requires row.Keys == COLUMNS
    ensures ShowsDateTime(DateTimeView(row), row)
  {
  }

  lemma TextShows(row: Object, id: int)
    requires row.Keys == COLUMNS
    ensures ShowsText(CharacterView(row, id), row, id)
  {
  }

  lemma TextsShow(osd: Table)
    requires ValidTable(osd)
    ensures ShowsTexts(CharacterViews(osd), osd)
  {
    forall i | 0 <= i < 8
      ensures ShowsText(CharacterViews(osd)[i], osd[2 + i], i)
    {
      TextShows(osd[2 + i], i);
    }
  }

  lemma ScreenShows(screen: Object)
    requires screen.Keys == {Id, ScreenWidth, ScreenHeight}
    ensures ShowsScreen(ScreenView(screen), screen)
  {
  }

  lemma MaskShows(row: Object, id: int)
    requires row.Keys == COLUMNS
    ensures ShowsMask(MaskView(row, id), row, id)
  {
  }

  lemma GetPrivacyShows(s: Store)
    requires ValidStore(s)
    ensures ShowsMasks(GetPrivacy(s), s)
  {
    ScreenShows(s.screen);
    forall i | 0 <= i < 4
      ensures ShowsMask(MaskViews(s.osd)[i], s.osd[10 + i], i)
    {
      MaskShows(s.osd[10 + i], i);
    }
  }

  // --- writes ---

  /** A key is renamed with its value, unless the new name is there already: then that one stays. */
  lemma RenamedMeans(o: Object, from: Key, to: Key)
    requires from != to
    ensures match Renamed(o, from, to)
            case Fail(e) => from !in o && e == Missing(from)
            case Ok(p) =>
              from in o && p.Keys == o.Keys - {from} + {to} && p[to] == o[if to in o then to else from] &&
              forall k :: k in o && k != from && k != to ==> p[k] == o[k]
  {
  }

  /** The columns that a channel name is written to, whatever else it names: they come under their new names, once. */
  lemma ChannelRowMeans(o: Object)
    ensures ChannelRow(o).Ok? <==> ChannelName in o && ChannelEnabled in o
    ensures ChannelRow(o).Ok? ==>
              var p := ChannelRow(o).value;
              p.Keys == o.Keys - {ChannelName, ChannelEnabled} + {DisplayText, Enabled} &&
              p[DisplayText] == o[if DisplayText in o then DisplayText else ChannelName] &&
              p[Enabled] == o[if Enabled in o then Enabled else ChannelEnabled]
  {
    RenamedMeans(o, ChannelName, DisplayText);
    if ChannelName in o {
      RenamedMeans(Renamed(o, ChannelName, DisplayText).value, ChannelEnabled, Enabled);
    }
  }

  /** A text goes to the row two after its id; what is missing first is what is thrown. */
  lemma TextRowMeans(o: Object)
    ensures match CharacterRow(o)
            case Fail(e) => e == if Id !in o then Missing(Id) else if o[Id].Text? then NotANumber(Id) else Missing(TextEnabled)
            case Ok((p, row)) =>
              Id in o && o[Id] == Num(row - 2) && TextEnabled in o && p.Keys == o.Keys - {TextEnabled} + {Enabled} &&
              p[Id] == Num(row) && p[Enabled] == o[if Enabled in o then Enabled else TextEnabled]
    ensures CharacterRow(o).Ok? <==> Id in o && o[Id].Num? && TextEnabled in o
  {
    if Id in o && o[Id].Num? {
      RenamedMeans(o[Id := Num(o[Id].n + 2)], TextEnabled, Enabled);
    }
  }

  /** A mask goes to the row ten after its id. */
  lemma MaskRowMeans(o: Object)
    ensures MaskRow(o).Ok? <==> Id in o && o[Id].Num? && MaskWidth in o && MaskHeight in o && MaskEnabled in o
    ensures MaskRow(o).Ok? ==> o[Id] == Num(MaskRow(o).value.1 - 10)
  {
    if Id in o && o[Id].Num? {
      var p := o[Id := Num(o[Id].n + 10)];
      assert MaskWidth in o ==> Renamed(p, MaskWidth, Width).Ok?;
    }
  }

  /** Of the row only these columns may have changed. */
  ghost predicate SameBut(now: Object, was: Object, columns: set<Key>) {
    now.Keys == was.Keys && forall k :: k in was && k !in columns ==> now[k] == was[k]
  }

  /** A row after a write: it has the attributes, and of the others only these columns may have changed. */
  ghost predicate Takes(now: Object, was: Object, a: Object, columns: set<Key>) {
    SameBut(now, was, ATTRIBUTE + columns) && Holds(now, a)
  }

  /** The overlays take their columns and the attributes, in ten rows; nothing else has changed. */
  ghost predicate OverlaysTake(now: Table, was: Table, a: Object)
    requires |now| == |was| == 15
  {
    && Takes(now[0], was[0], a, {PositionX, PositionY, DisplayText, Enabled})
    && Takes(now[1], was[1], a, {PositionX, PositionY, DateStyle, TimeStyle, DisplayWeek, Enabled})
    && (forall i :: 2 <= i < 10 ==> Takes(now[i], was[i], a, {PositionX, PositionY, DisplayText, PersistentText, Enabled}))
    && (forall i :: 10 <= i < 15 ==> now[i] == was[i])
  }

  ghost predicate OnlyMasks(now: Table, was: Table)
    requires |now| == |was| == 15
  {
    && (forall i :: 10 <= i < 14 ==> SameBut(now[i], was[i], {PositionX, PositionY, Width, Height, Enabled}))
    && (forall i :: 0 <= i < 15 && !(10 <= i < 14) ==> now[i] == was[i])
  }

  /** A complete configuration is shown from then on, its attributes go to all ten rows, and nothing else changes. */
  lemma PutColumns(s: Store, c: Overlays)
    requires ValidStore(s) && Complete(c)
    ensures Put(s, c).Ok? && ValidStore(Put(s, c).value) && Shows(c, Put(s, c).value)
    ensures OverlaysTake(Put(s, c).value.osd, s.osd, c.attribute.value)
  {
    PutRows(s, c);
    PutGet(s, c);
    GetShows(Put(s, c).value);
    WrittenColumns(s.osd, Put(s, c).value.osd, c);
  }

  lemma WrittenColumns(was: Table, now: Table, c: Overlays)
    requires ValidTable(was) && ValidTable(now) && Complete(c) && Written(was, now, PartsOf(c))
    ensures OverlaysTake(now, was, c.attribute.value)
  {
    var a := c.attribute.value;
    ChannelTakes(now[0], was[0], a, c.channel.value);
    DateTimeTakes(now[1], was[1], a, c.dateTime.value);
    forall i | 2 <= i < 10
      ensures Takes(now[i], was[i], a, {PositionX, PositionY, DisplayText, PersistentText, Enabled})
    {
      assert IsCharacter(c.characters.value[i - 2], i - 2 + 0);
      TextTakes(now[i], was[i], a, c.characters.value[i - 2], i);
    }
  }

  lemma ChannelTakes(now: Object, was: Object, a: Object, o: Object)
    requires a.Keys == ATTRIBUTE && IsChannel(o) && now == was + a + ChannelUpdate(o) && was.Keys == COLUMNS == now.Keys
    ensures Takes(now, was, a, {PositionX, PositionY, DisplayText, Enabled})
  {
    SeparateColumns();
    UpdatedRow(now, was, a, ChannelUpdate(o), {PositionX, PositionY, DisplayText, Enabled});
  }

  lemma DateTimeTakes(now: Object, was: Object, a: Object, o: Object)
    requires a.Keys == ATTRIBUTE && IsDateTime(o) && now == was + a + DateTimeUpdate(o) && was.Keys == COLUMNS == now.Keys
    ensures Takes(now, was, a, {PositionX, PositionY, DateStyle, TimeStyle, DisplayWeek, Enabled})
  {
    SeparateColumns();
    UpdatedRow(now, was, a, DateTimeUpdate(o), {PositionX, PositionY, DateStyle, TimeStyle, DisplayWeek, Enabled});
  }

  lemma TextTakes(now: Object, was: Object, a: Object, o: Object, i: int)
    requires a.Keys == ATTRIBUTE && IsCharacter(o, i - 2) && now == was + a + CharacterUpdate(o, i)
    requires was.Keys == COLUMNS == now.Keys && was[Id] == Num(i)
    ensures Takes(now, was, a, {PositionX, PositionY, DisplayText, PersistentText, Enabled})
  {
    SeparateColumns();
    UpdatedRow(now, was, a, CharacterUpdate(o, i), {PositionX, PositionY, DisplayText, PersistentText, Enabled});
  }

  lemma SeparateColumns()
    ensures {PositionX, PositionY, DisplayText, PersistentText, DateStyle, TimeStyle, DisplayWeek, Enabled, Id} !! ATTRIBUTE
  {
  }

  /** The attributes and the columns of a section have nothing in common. */
  lemma UpdatedRow(now: Object, was: Object, a: Object, u: Object, columns: set<Key>)
    requires now == was + a + u && now.Keys == was.Keys && a.Keys == ATTRIBUTE && u.Keys <= columns + {Id}
    requires columns !! ATTRIBUTE && Id !in ATTRIBUTE && (Id in u ==> Id in was && u[Id] == was[Id])
    ensures Takes(now, was, a, columns)
  {
  }

  lemma PutMaskColumns(s: Store, c: Masks)
    requires ValidStore(s) && CompleteMasks(c)
    ensures PutPrivacy(s, c).Ok? && ValidStore(PutPrivacy(s, c).value)
    ensures ShowsMasks(c, PutPrivacy(s, c).value) && OnlyMasks(PutPrivacy(s, c).value.osd, s.osd)
  {
    PutMaskRows(s, c);
    PrivacyPutGet(s, c);
    GetPrivacyShows(PutPrivacy(s, c).value);
    SpreadColumns(s.osd, c);
  }

  lemma SpreadColumns(was: Table, c: Masks)
    requires ValidTable(was) && CompleteMasks(c)
    ensures OnlyMasks(Spread(was, MaskUpdates(c.masks.value, 0), 10), was)
  {
    var ms := c.masks.value;
    var us := MaskUpdates(ms, 0);
    var now := Spread(was, us, 10);
    forall i | 10 <= i < 14
      ensures SameBut(now[i], was[i], {PositionX, PositionY, Width, Height, Enabled})
    {
      assert IsMask(ms[i - 10], i - 10 + 0);
      MaskTakes(now[i], was[i], ms[i - 10], i);
    }
  }

  lemma MaskTakes(now: Object, was: Object, o: Object, i: int)
    requires IsMask(o, i - 10) && now == was + MaskUpdate(o, i) && was.Keys == COLUMNS && was[Id] == Num(i)
    ensures SameBut(now, was, {PositionX, PositionY, Width, Height, Enabled})
  {
    MaskRowColumns(now, was, MaskUpdate(o, i));
  }

  lemma MaskRowColumns(now: Object, was: Object, u: Object)
    requires now == was + u && u.Keys == {Id, PositionX, PositionY, Width, Height, Enabled}
    requires u.Keys <= was.Keys && was[Id] == u[Id]
    ensures SameBut(now, was, {PositionX, PositionY, Width, Height, Enabled})
  {
  }
}
