/** The OSD table and the two configurations the web interface shows of it, each a view that can be written back. */
module OsdViews {
  import opened Wrappers

  /** The columns of the OSD table, and the keys that occur only in configurations. */
  datatype Key =
    | Id | Type | Enabled | PositionX | PositionY | Width | Height | PersistentText | DisplayText | DisplayWeek
    | DateStyle | TimeStyle | TransparentColor | OsdAttribute | FontSize | FrontColorMode | FrontColor | Alignment | Boundary
    | ChannelName | ChannelEnabled | DateTimeEnabled | TextEnabled | MaskWidth | MaskHeight | MaskEnabled
    | ScreenWidth | ScreenHeight | Other(name: string)

  datatype Value = Num(n: int) | Text(s: string)

  type Object = map<Key, Value>

  datatype Error = Missing(key: Key) | NotANumber(key: Key)

  type Outcome<+T> = Result<T, Error>

  const ATTRIBUTE := {OsdAttribute, FontSize, FrontColorMode, FrontColor, Alignment, Boundary}
  const COLUMNS := {Id, Type, Enabled, PositionX, PositionY, Width, Height, PersistentText, DisplayText, DisplayWeek,
                    DateStyle, TimeStyle, TransparentColor} + ATTRIBUTE

  const ROWS := 15
  const SHARED := 10
  const FIRST_TEXT := 2
  const FIRST_MASK := 10
  const FIRST_IMAGE := 14

  type Table = seq<Object>

  ghost predicate ValidTable(osd: Table) {
    |osd| == ROWS && forall i :: 0 <= i < ROWS ==> osd[i].Keys == COLUMNS && osd[i][Id] == Num(i)
  }

  /** An update the table accepts for row `id`: known columns only, and not another id. */
  predicate Fits(o: Object, id: int) {
    o.Keys <= COLUMNS && (Id in o ==> o[Id] == Num(id))
  }

  function Update(osd: Table, o: Object, id: int): (t: Table)
    ensures |t| == |osd|
    ensures ValidTable(osd) ==> ValidTable(t)
    ensures forall i :: 0 <= i < |osd| && i != id ==> t[i] == osd[i]
  {
    if 0 <= id < |osd| && Fits(o, id) then osd[id := osd[id] + o] else osd
  }

  /** Adds a key that is not there yet. */
  function Emplace(o: Object, k: Key, v: Value): Object {
    if k in o then o else o[k := v]
  }

  /** The value of one key under another name, unless that is taken. */
  function Renamed(o: Object, from: Key, to: Key): Outcome<Object> {
    if from !in o then Fail(Missing(from)) else Ok(Emplace(o, to, o[from]) - {from})
  }

  /** The object with the id of its row. */
  function Shifted(o: Object, offset: int): Outcome<(Object, int)> {
    if Id !in o then Fail(Missing(Id))
    else if o[Id].Text? then Fail(NotANumber(Id))
    else Ok((o[Id := Num(o[Id].n + offset)], o[Id].n + offset))
  }

  // --- what is written ---

  function ChannelRow(o: Object): Outcome<Object> {
    var p :- Renamed(o, ChannelName, DisplayText);
    Renamed(p, ChannelEnabled, Enabled)
  }

  function DateTimeRow(o: Object): Outcome<Object> {
    Renamed(o, DateTimeEnabled, Enabled)
  }

  function CharacterRow(o: Object): Outcome<(Object, int)> {
    var (p, id) :- Shifted(o, FIRST_TEXT);
    var q :- Renamed(p, TextEnabled, Enabled);
    Ok((q, id))
  }

  function MaskRow(o: Object): Outcome<(Object, int)> {
    var (p, id) :- Shifted(o, FIRST_MASK);
    var q :- Renamed(p, MaskWidth, Width);
    var r :- Renamed(q, MaskHeight, Height);
    var s :- Renamed(r, MaskEnabled, Enabled);
    Ok((s, id))
  }

  function PutAttribute(osd: Table, a: Object, n: nat): Table
    decreases n
  {
    if n == 0 then osd else Update(PutAttribute(osd, a, n - 1), a, n - 1)
  }

  function PutCharacters(osd: Table, cs: seq<Object>): Outcome<Table>
    decreases |cs|
  {
    if cs == [] then Ok(osd)
    else
      var (o, id) :- CharacterRow(cs[0]);
      PutCharacters(Update(osd, o, id), cs[1..])
  }

  function PutMasks(osd: Table, ms: seq<Object>): Outcome<Table>
    decreases |ms|
  {
    if ms == [] then Ok(osd)
    else
      var (o, id) :- MaskRow(ms[0]);
      PutMasks(Update(osd, o, id), ms[1..])
  }

  datatype Overlays = Overlays(attribute: Option<Object>, channel: Option<Object>, characters: Option<seq<Object>>,
                               dateTime: Option<Object>, screen: Option<Object>)

  datatype Masks = Masks(screen: Option<Object>, masks: Option<seq<Object>>)

  /** The OSD table and the row of the screen-size table. */
  datatype Store = Store(osd: Table, screen: Object)

  ghost predicate ValidStore(s: Store) {
    ValidTable(s.osd) && s.screen.Keys == {Id, ScreenWidth, ScreenHeight} && s.screen[Id] == Num(0)
  }

  function PutScreen(screen: Object, o: Object): Object {
    if o.Keys <= {Id, ScreenWidth, ScreenHeight} && (Id in o ==> o[Id] == Num(0)) then screen + o else screen
  }

  /** The table when the attributes are written. */
  function AfterAttribute(osd: Table, c: Overlays): Table {
    if c.attribute.Some? then PutAttribute(osd, c.attribute.value, SHARED) else osd
  }

  /** Writing a configuration of overlays: its sections in the order of their names. */
  function Put(s: Store, c: Overlays): Outcome<Store> {
    var t :- PutSections(AfterAttribute(s.osd, c), c);
    Ok(Store(t, if c.screen.Some? then PutScreen(s.screen, c.screen.value) else s.screen))
  }

  /** The sections after the first. */
  function PutSections(osd: Table, c: Overlays): Outcome<Table> {
    var t2 :- if c.channel.None? then Ok(osd) else PutChannel(osd, c.channel.value);
    var t3 :- if c.characters.None? then Ok(t2) else PutCharacters(t2, c.characters.value);
    if c.dateTime.None? then Ok(t3) else PutDateTime(t3, c.dateTime.value)
  }

  function PutChannel(osd: Table, o: Object): Outcome<Table> {
    var row :- ChannelRow(o);
    Ok(Update(osd, row, 0))
  }

  function PutDateTime(osd: Table, o: Object): Outcome<Table> {
    var row :- DateTimeRow(o);
    Ok(Update(osd, row, 1))
  }

  function PutPrivacy(s: Store, c: Masks): Outcome<Store> {
    var t :- if c.masks.None? then Ok(s.osd) else PutMasks(s.osd, c.masks.value);
    Ok(Store(t, if c.screen.Some? then PutScreen(s.screen, c.screen.value) else s.screen))
  }

  /** A write is that of the attributes, then that of the other sections, then, if these do not throw, that of the screen. */
  lemma PutInTwo(s: Store, c: Overlays)
    ensures Put(s, c) == match PutSections(AfterAttribute(s.osd, c), c)
                         case Ok(t) => Ok(Store(t, if c.screen.Some? then PutScreen(s.screen, c.screen.value) else s.screen))
                         case Fail(e) => Fail(e)
  {
  }

  // --- every write keeps the tables valid ---

  lemma {:induction false} PutAttributeValid(osd: Table, a: Object, n: nat)
    requires ValidTable(osd)
    ensures ValidTable(PutAttribute(osd, a, n))
    decreases n
  {
    if n > 0 {
      PutAttributeValid(osd, a, n - 1);
    }
  }

  lemma {:induction false} PutCharactersValid(osd: Table, cs: seq<Object>)
    requires ValidTable(osd) && PutCharacters(osd, cs).Ok?
    ensures ValidTable(PutCharacters(osd, cs).value)
    decreases |cs|
  {
    if cs != [] {
      var (o, id) := CharacterRow(cs[0]).value;
      PutCharactersValid(Update(osd, o, id), cs[1..]);
    }
  }

  lemma {:induction false} PutMasksValid(osd: Table, ms: seq<Object>)
    requires ValidTable(osd) && PutMasks(osd, ms).Ok?
    ensures ValidTable(PutMasks(osd, ms).value)
    decreases |ms|
  {
    if ms != [] {
      var (o, id) := MaskRow(ms[0]).value;
      PutMasksValid(Update(osd, o, id), ms[1..]);
    }
  }

  lemma PutSectionsValid(osd: Table, c: Overlays)
    requires ValidTable(osd) && PutSections(osd, c).Ok?
    ensures ValidTable(PutSections(osd, c).value)
  {
    var t2 := if c.channel.None? then osd else PutChannel(osd, c.channel.value).value;
    if c.characters.Some? {
      PutCharactersValid(t2, c.characters.value);
    }
  }

  /** Whatever is written, malformed or not, leaves valid tables, unless it throws. */
  lemma PutValid(s: Store, c: Overlays)
    requires ValidStore(s) && Put(s, c).Ok?
    ensures ValidStore(Put(s, c).value)
  {
    if c.attribute.Some? {
      PutAttributeValid(s.osd, c.attribute.value, SHARED);
    }
    PutSectionsValid(AfterAttribute(s.osd, c), c);
  }

  lemma PutPrivacyValid(s: Store, c: Masks)
    requires ValidStore(s) && PutPrivacy(s, c).Ok?
    ensures ValidStore(PutPrivacy(s, c).value)
  {
    if c.masks.Some? {
      PutMasksValid(s.osd, c.masks.value);
    }
  }

  // --- what is shown ---

  function AttributeView(row: Object): Object
    requires row.Keys == COLUMNS
  {
    map[OsdAttribute := row[OsdAttribute], FontSize := row[FontSize], FrontColorMode := row[FrontColorMode],
        FrontColor := row[FrontColor], Alignment := row[Alignment], Boundary := row[Boundary]]
  }

  function ChannelView(row: Object): Object
    requires row.Keys == COLUMNS
  {
    map[PositionX := row[PositionX], PositionY := row[PositionY], ChannelName := row[DisplayText],
        ChannelEnabled := row[Enabled]]
  }

  function DateTimeView(row: Object): Object
    requires row.Keys == COLUMNS
  {
    map[PositionX := row[PositionX], PositionY := row[PositionY], DateStyle := row[DateStyle],
        TimeStyle := row[TimeStyle], DisplayWeek := row[DisplayWeek], DateTimeEnabled := row[Enabled]]
  }

  function CharacterView(row: Object, id: int): Object
    requires row.Keys == COLUMNS
  {
    map[Id := Num(id), PositionX := row[PositionX], PositionY := row[PositionY], DisplayText := row[DisplayText],
        PersistentText := row[PersistentText], TextEnabled := row[Enabled]]
  }

  function MaskView(row: Object, id: int): Object
    requires row.Keys == COLUMNS
  {
    map[Id := Num(id), PositionX := row[PositionX], PositionY := row[PositionY], MaskWidth := row[Width],
        MaskHeight := row[Height], MaskEnabled := row[Enabled]]
  }

  function ScreenView(screen: Object): Object
    requires screen.Keys == {Id, ScreenWidth, ScreenHeight}
  {
    map[ScreenWidth := screen[ScreenWidth], ScreenHeight := screen[ScreenHeight]]
  }

  ghost predicate AreRows(rows: seq<Object>) {
    forall i :: 0 <= i < |rows| ==> rows[i].Keys == COLUMNS
  }

  /** Rows shown as texts, numbered from zero. */
  ghost function TextViews(rows: seq<Object>): (cs: seq<Object>)
    requires AreRows(rows)
    ensures |cs| == |rows| && forall i :: 0 <= i < |rows| ==> cs[i] == CharacterView(rows[i], i)
  {
    seq(|rows|, i requires 0 <= i < |rows| => CharacterView(rows[i], i))
  }

  ghost function CharacterViews(osd: Table): (cs: seq<Object>)
    requires ValidTable(osd)
    ensures |cs| == 8 && forall i :: 0 <= i < 8 ==> cs[i] == CharacterView(osd[i + FIRST_TEXT], i)
  {
    TextViews(osd[FIRST_TEXT..SHARED])
  }

  ghost function MaskViews(osd: Table): (ms: seq<Object>)
    requires ValidTable(osd)
    ensures |ms| == 4 && forall i :: 0 <= i < 4 ==> ms[i] == MaskView(osd[i + FIRST_MASK], i)
  {
    seq(4, i requires 0 <= i < 4 => MaskView(osd[i + FIRST_MASK], i))
  }

  ghost function Get(s: Store): Overlays
    requires ValidStore(s)
  {
    Overlays(Some(AttributeView(s.osd[0])), Some(ChannelView(s.osd[0])),
             Some(CharacterViews(s.osd)), Some(DateTimeView(s.osd[1])), Some(ScreenView(s.screen)))
  }

  ghost function GetPrivacy(s: Store): Masks
    requires ValidStore(s)
  {
    Masks(Some(ScreenView(s.screen)), Some(MaskViews(s.osd)))
  }

  // --- well-formed configurations ---

  ghost predicate IsChannel(o: Object) {
    o.Keys == {PositionX, PositionY, ChannelName, ChannelEnabled}
  }

  ghost predicate IsDateTime(o: Object) {
    o.Keys == {PositionX, PositionY, DateStyle, TimeStyle, DisplayWeek, DateTimeEnabled}
  }

  ghost predicate IsCharacter(o: Object, id: int) {
    o.Keys == {Id, PositionX, PositionY, DisplayText, PersistentText, TextEnabled} && o[Id] == Num(id)
  }

  ghost predicate IsMask(o: Object, id: int) {
    o.Keys == {Id, PositionX, PositionY, MaskWidth, MaskHeight, MaskEnabled} && o[Id] == Num(id)
  }

  ghost predicate AreCharacters(cs: seq<Object>, from: int) {
    forall i :: 0 <= i < |cs| ==> IsCharacter(cs[i], i + from)
  }

  ghost predicate AreMasks(ms: seq<Object>, from: int) {
    forall i :: 0 <= i < |ms| ==> IsMask(ms[i], i + from)
  }

  /** Every section, every key, and the texts in order. */
  ghost predicate Complete(c: Overlays) {
    && c.attribute.Some? && c.attribute.value.Keys == ATTRIBUTE
    && c.channel.Some? && IsChannel(c.channel.value)
    && c.characters.Some? && |c.characters.value| == 8 && AreCharacters(c.characters.value, 0)
    && c.dateTime.Some? && IsDateTime(c.dateTime.value)
    && c.screen.Some? && c.screen.value.Keys == {ScreenWidth, ScreenHeight}
  }

  ghost predicate CompleteMasks(c: Masks) {
    && c.masks.Some? && |c.masks.value| == 4 && AreMasks(c.masks.value, 0)
    && c.screen.Some? && c.screen.value.Keys == {ScreenWidth, ScreenHeight}
  }

  // --- what the parts of a write do ---

  /** The columns that the channel name and the date set in their rows. */
  function ChannelUpdate(o: Object): Object
    requires o.Keys == {PositionX, PositionY, ChannelName, ChannelEnabled}
  {
    map[PositionX := o[PositionX], PositionY := o[PositionY], DisplayText := o[ChannelName], Enabled := o[ChannelEnabled]]
  }

  function DateTimeUpdate(o: Object): Object
    requires o.Keys == {PositionX, PositionY, DateStyle, TimeStyle, DisplayWeek, DateTimeEnabled}
  {
    map[PositionX := o[PositionX], PositionY := o[PositionY], DateStyle := o[DateStyle],
        TimeStyle := o[TimeStyle], DisplayWeek := o[DisplayWeek], Enabled := o[DateTimeEnabled]]
  }

  lemma ChannelWritten(o: Object)
    requires IsChannel(o)
    ensures ChannelRow(o) == Ok(ChannelUpdate(o))
  {
    var p := map[PositionX := o[PositionX], PositionY := o[PositionY], DisplayText := o[ChannelName],
                 ChannelEnabled := o[ChannelEnabled]];
    assert o[DisplayText := o[ChannelName]] - {ChannelName} == p;
    assert p[Enabled := o[ChannelEnabled]] - {ChannelEnabled} == ChannelUpdate(o);
  }

  lemma DateTimeWritten(o: Object)
    requires IsDateTime(o)
    ensures DateTimeRow(o) == Ok(DateTimeUpdate(o))
  {
    assert o[Enabled := o[DateTimeEnabled]] - {DateTimeEnabled} == DateTimeUpdate(o);
  }

  /** The columns that a text, and a mask, sets in its row. */
  function CharacterUpdate(o: Object, row: int): Object
    requires o.Keys == {Id, PositionX, PositionY, DisplayText, PersistentText, TextEnabled}
  {
    map[Id := Num(row), PositionX := o[PositionX], PositionY := o[PositionY], DisplayText := o[DisplayText],
        PersistentText := o[PersistentText], Enabled := o[TextEnabled]]
  }

  function MaskUpdate(o: Object, row: int): Object
    requires o.Keys == {Id, PositionX, PositionY, MaskWidth, MaskHeight, MaskEnabled}
  {
    map[Id := Num(row), PositionX := o[PositionX], PositionY := o[PositionY], Width := o[MaskWidth],
        Height := o[MaskHeight], Enabled := o[MaskEnabled]]
  }

  lemma CharacterWritten(o: Object, id: int)
    requires IsCharacter(o, id)
    ensures CharacterRow(o) == Ok((CharacterUpdate(o, id + FIRST_TEXT), id + FIRST_TEXT))
  {
    var p := o[Id := Num(id + 2)];
    assert p[Enabled := o[TextEnabled]] - {TextEnabled} == CharacterUpdate(o, id + 2);
  }

  lemma MaskWritten(o: Object, id: int)
    requires IsMask(o, id)
    ensures MaskRow(o) == Ok((MaskUpdate(o, id + FIRST_MASK), id + FIRST_MASK))
  {
    var p := o[Id := Num(id + 10)];
    var q := p[Width := o[MaskWidth]] - {MaskWidth};
    var r := q[Height := o[MaskHeight]] - {MaskHeight};
    assert r[Enabled := o[MaskEnabled]] - {MaskEnabled} == MaskUpdate(o, id + 10);
  }

  lemma CharacterFits(o: Object, id: int)
    requires IsCharacter(o, id)
    ensures Fits(CharacterUpdate(o, id + FIRST_TEXT), id + FIRST_TEXT)
  {
  }

  lemma MaskFits(o: Object, id: int)
    requires IsMask(o, id)
    ensures Fits(MaskUpdate(o, id + FIRST_MASK), id + FIRST_MASK)
  {
  }

  /** The rows from `lo` on, each updated by its own object. */
  function Spread(osd: Table, us: seq<Object>, lo: nat): (t: Table)
    ensures |t| == |osd|
    ensures forall i :: 0 <= i < |osd| ==> t[i] == if lo <= i < lo + |us| then osd[i] + us[i - lo] else osd[i]
  {
    seq(|osd|, i requires 0 <= i < |osd| => if lo <= i < lo + |us| then osd[i] + us[i - lo] else osd[i])
  }

  ghost predicate AllFit(us: seq<Object>, lo: nat) {
    forall j :: 0 <= j < |us| ==> Fits(us[j], j + lo)
  }

  lemma SpreadCons(osd: Table, us: seq<Object>, lo: nat)
    requires us != [] && lo < |osd| && Fits(us[0], lo)
    ensures Spread(Update(osd, us[0], lo), us[1..], lo + 1) == Spread(osd, us, lo)
  {
  }

  lemma SpreadValid(osd: Table, us: seq<Object>, lo: nat)
    requires ValidTable(osd) && AllFit(us, lo)
    ensures ValidTable(Spread(osd, us, lo))
  {
    forall i | 0 <= i < ROWS
      ensures Spread(osd, us, lo)[i].Keys == COLUMNS && Spread(osd, us, lo)[i][Id] == Num(i)
    {
      if lo <= i < lo + |us| {
        assert Fits(us[i - lo], i - lo + lo);
      }
    }
  }

  ghost function CharacterUpdates(cs: seq<Object>, from: nat): (us: seq<Object>)
    requires AreCharacters(cs, from)
    ensures |us| == |cs| && forall j :: 0 <= j < |cs| ==> us[j] == CharacterUpdate(cs[j], j + from + FIRST_TEXT)
  {
    seq(|cs|, j requires 0 <= j < |cs| && IsCharacter(cs[j], j + from) => CharacterUpdate(cs[j], j + from + FIRST_TEXT))
  }

  ghost function MaskUpdates(ms: seq<Object>, from: nat): (us: seq<Object>)
    requires AreMasks(ms, from)
    ensures |us| == |ms| && forall j :: 0 <= j < |ms| ==> us[j] == MaskUpdate(ms[j], j + from + FIRST_MASK)
  {
    seq(|ms|, j requires 0 <= j < |ms| && IsMask(ms[j], j + from) => MaskUpdate(ms[j], j + from + FIRST_MASK))
  }

  function Copies(a: Object, n: nat): (us: seq<Object>)
    ensures |us| == n && forall j :: 0 <= j < n ==> us[j] == a
  {
    seq(n, j => a)
  }

  lemma SpreadSnoc(osd: Table, us: seq<Object>, o: Object)
    requires |us| < |osd| && Fits(o, |us|)
    ensures Update(Spread(osd, us, 0), o, |us|) == Spread(osd, us + [o], 0)
  {
  }

  lemma SpreadNil(osd: Table, lo: nat)
    ensures Spread(osd, [], lo) == osd
  {
  }

  lemma {:induction false} AttributeWritten(osd: Table, a: Object, n: nat)
    requires n <= |osd| && a.Keys <= COLUMNS && Id !in a
    ensures AllFit(Copies(a, n), 0)
    ensures PutAttribute(osd, a, n) == Spread(osd, Copies(a, n), 0)
  {
    SpreadNil(osd, 0);
    if n > 0 {
      AttributeWritten(osd, a, n - 1);
      assert Copies(a, n) == Copies(a, n - 1) + [a];
      assert Fits(a, n - 1);
      SpreadSnoc(osd, Copies(a, n - 1), a);
    } else {
      assert Copies(a, 0) == [];
    }
  }

  /** Texts with consecutive ids are written to consecutive rows. */
  lemma {:induction false} CharactersWritten(osd: Table, cs: seq<Object>, from: nat)
    requires AreCharacters(cs, from) && from + |cs| + FIRST_TEXT <= |osd|
    ensures AllFit(CharacterUpdates(cs, from), from + FIRST_TEXT)
    ensures PutCharacters(osd, cs) == Ok(Spread(osd, CharacterUpdates(cs, from), from + FIRST_TEXT))
    decreases |cs|
  {
    SpreadNil(osd, from + FIRST_TEXT);
    if cs != [] {
      var us := CharacterUpdates(cs, from);
      assert IsCharacter(cs[0], 0 + from);
      CharacterWritten(cs[0], from);
      CharacterFits(cs[0], from);
      Shift(cs, from);
      CharactersWritten(Update(osd, us[0], from + FIRST_TEXT), cs[1..], from + 1);
      SpreadCons(osd, us, from + FIRST_TEXT);
      FitCons(us, from + FIRST_TEXT);
    }
  }

  lemma Shift(cs: seq<Object>, from: nat)
    requires cs != [] && AreCharacters(cs, from)
    ensures AreCharacters(cs[1..], from + 1)
    ensures CharacterUpdates(cs, from)[1..] == CharacterUpdates(cs[1..], from + 1)
  {
    forall i | 0 <= i < |cs[1..]|
      ensures IsCharacter(cs[1..][i], i + (from + 1))
    {
      assert IsCharacter(cs[i + 1], i + 1 + from);
    }
  }

  lemma FitCons(us: seq<Object>, lo: nat)
    requires us != [] && Fits(us[0], lo) && AllFit(us[1..], lo + 1)
    ensures AllFit(us, lo)
  {
    forall j | 0 <= j < |us|
      ensures Fits(us[j], j + lo)
    {
      assert j > 0 ==> us[j] == us[1..][j - 1] && Fits(us[1..][j - 1], j - 1 + (lo + 1));
    }
  }

  lemma {:induction false} MasksWritten(osd: Table, ms: seq<Object>, from: nat)
    requires AreMasks(ms, from) && from + |ms| + FIRST_MASK <= |osd|
    ensures AllFit(MaskUpdates(ms, from), from + FIRST_MASK)
    ensures PutMasks(osd, ms) == Ok(Spread(osd, MaskUpdates(ms, from), from + FIRST_MASK))
    decreases |ms|
  {
    SpreadNil(osd, from + FIRST_MASK);
    if ms != [] {
      var us := MaskUpdates(ms, from);
      assert IsMask(ms[0], 0 + from);
      MaskWritten(ms[0], from);
      MaskFits(ms[0], from);
      ShiftMasks(ms, from);
      MasksWritten(Update(osd, us[0], from + FIRST_MASK), ms[1..], from + 1);
      SpreadCons(osd, us, from + FIRST_MASK);
      FitCons(us, from + FIRST_MASK);
    }
  }

  lemma ShiftMasks(ms: seq<Object>, from: nat)
    requires ms != [] && AreMasks(ms, from)
    ensures AreMasks(ms[1..], from + 1)
    ensures MaskUpdates(ms, from)[1..] == MaskUpdates(ms[1..], from + 1)
  {
    forall i | 0 <= i < |ms[1..]|
      ensures IsMask(ms[1..][i], i + (from + 1))
    {
      assert IsMask(ms[i + 1], i + 1 + from);
    }
  }

  // --- the laws ---

  /** The four writes, one after the other. */
  ghost function Stages(osd: Table, a: Object, u0: Object, us: seq<Object>, u1: Object): Table {
    Update(Spread(Update(Spread(osd, Copies(a, SHARED), 0), u0, 0), us, FIRST_TEXT), u1, 1)
  }

  lemma StagesRows(osd: Table, a: Object, u0: Object, us: seq<Object>, u1: Object)
    requires |osd| == ROWS && |us| == 8 && Fits(u0, 0) && Fits(u1, 1)
    ensures var t := Stages(osd, a, u0, us, u1);
            && |t| == ROWS && t[0] == osd[0] + a + u0 && t[1] == osd[1] + a + u1
            && (forall i :: FIRST_TEXT <= i < SHARED ==> t[i] == osd[i] + a + us[i - FIRST_TEXT])
            && (forall i :: SHARED <= i < ROWS ==> t[i] == osd[i])
  {
  }

  lemma ChannelFits(o: Object)
    requires IsChannel(o)
    ensures Fits(ChannelUpdate(o), 0)
  {
  }

  lemma DateTimeFits(o: Object)
    requires IsDateTime(o)
    ensures Fits(DateTimeUpdate(o), 1)
  {
  }

  lemma AttributeKeys(a: Object)
    requires a.Keys == ATTRIBUTE
    ensures a.Keys <= COLUMNS && Id !in a
  {
  }

  lemma PutScreenIs(screen: Object, o: Object)
    requires screen.Keys == {Id, ScreenWidth, ScreenHeight} && o.Keys == {ScreenWidth, ScreenHeight}
    ensures PutScreen(screen, o) == screen + o
    ensures PutScreen(screen, o).Keys == screen.Keys && PutScreen(screen, o)[Id] == screen[Id]
  {
  }

  lemma StagesValid(osd: Table, a: Object, u0: Object, us: seq<Object>, u1: Object)
    requires ValidTable(osd) && a.Keys <= COLUMNS && Id !in a && AllFit(us, FIRST_TEXT)
    ensures ValidTable(Stages(osd, a, u0, us, u1))
  {
    AttributeWritten(osd, a, SHARED);
    SpreadValid(osd, Copies(a, SHARED), 0);
    SpreadValid(Update(Spread(osd, Copies(a, SHARED), 0), u0, 0), us, FIRST_TEXT);
  }

  /** What the sections of a complete configuration set, and that each fits its row. */
  datatype Parts = Parts(a: Object, u0: Object, us: seq<Object>, u1: Object)

  ghost function PartsOf(c: Overlays): Parts
    requires Complete(c)
  {
    Parts(c.attribute.value, ChannelUpdate(c.channel.value), CharacterUpdates(c.characters.value, 0),
          DateTimeUpdate(c.dateTime.value))
  }

  ghost predicate FittingParts(p: Parts) {
    && p.a.Keys <= COLUMNS && Id !in p.a && Fits(p.u0, 0) && Fits(p.u1, 1)
    && |p.us| == 8 && AllFit(p.us, FIRST_TEXT)
  }

  lemma PartsFit(c: Overlays)
    requires Complete(c)
    ensures FittingParts(PartsOf(c))
    ensures ChannelRow(c.channel.value) == Ok(PartsOf(c).u0) && DateTimeRow(c.dateTime.value) == Ok(PartsOf(c).u1)
  {
    AttributeKeys(c.attribute.value);
    ChannelWritten(c.channel.value);
    ChannelFits(c.channel.value);
    DateTimeWritten(c.dateTime.value);
    DateTimeFits(c.dateTime.value);
    CharactersWritten(seq(ROWS, i => map[]), c.characters.value, 0);
  }

  lemma PutBySections(s: Store, c: Overlays, p: Parts)
    requires |s.osd| == ROWS && FittingParts(p)
    requires c.attribute == Some(p.a) && c.channel.Some? && c.characters.Some? && c.dateTime.Some? && c.screen.Some?
    requires ChannelRow(c.channel.value) == Ok(p.u0) && DateTimeRow(c.dateTime.value) == Ok(p.u1)
    requires var t := Update(Spread(s.osd, Copies(p.a, SHARED), 0), p.u0, 0);
             PutCharacters(t, c.characters.value) == Ok(Spread(t, p.us, FIRST_TEXT))
    ensures Put(s, c) == Ok(Store(Stages(s.osd, p.a, p.u0, p.us, p.u1), PutScreen(s.screen, c.screen.value)))
  {
    AttributeWritten(s.osd, p.a, SHARED);
  }

  lemma PutStages(s: Store, c: Overlays)
    requires |s.osd| == ROWS && Complete(c)
    ensures var p := PartsOf(c);
            Put(s, c) == Ok(Store(Stages(s.osd, p.a, p.u0, p.us, p.u1), PutScreen(s.screen, c.screen.value)))
  {
    var p := PartsOf(c);
    PartsFit(c);
    CharactersWritten(Update(Spread(s.osd, Copies(p.a, SHARED), 0), p.u0, 0), c.characters.value, 0);
    PutBySections(s, c, p);
  }

  ghost predicate Written(before: Table, after: Table, p: Parts)
    requires |p.us| == 8
  {
    && |before| == |after| == ROWS && after[0] == before[0] + p.a + p.u0 && after[1] == before[1] + p.a + p.u1
    && (forall i :: FIRST_TEXT <= i < SHARED ==> after[i] == before[i] + p.a + p.us[i - FIRST_TEXT])
    && (forall i :: SHARED <= i < ROWS ==> after[i] == before[i])
  }

  /** A complete configuration is written row by row, and to the rows of the overlays only. */
  lemma PutRows(s: Store, c: Overlays)
    requires ValidStore(s) && Complete(c)
    ensures Put(s, c).Ok? && ValidStore(Put(s, c).value) && Written(s.osd, Put(s, c).value.osd, PartsOf(c))
    ensures Put(s, c).value.screen == s.screen + c.screen.value
  {
    var p := PartsOf(c);
    PartsFit(c);
    PutStages(s, c);
    StagesRows(s.osd, p.a, p.u0, p.us, p.u1);
    StagesValid(s.osd, p.a, p.u0, p.us, p.u1);
    PutScreenIs(s.screen, c.screen.value);
  }

  // --- the laws ---

  /** The row has what an update sets. */
  ghost predicate Holds(row: Object, u: Object) {
    forall k :: k in u ==> k in row && row[k] == u[k]
  }

  lemma WrittenRow(row: Object, a: Object, u: Object)
    requires row.Keys == COLUMNS && a.Keys <= COLUMNS && u.Keys <= COLUMNS
    ensures (row + a + u).Keys == COLUMNS && Holds(row + a + u, u)
    ensures a.Keys !! u.Keys ==> Holds(row + a + u, a)
  {
  }

  /** What is shown of a row that holds what was written is what was written. */
  lemma AttributeShown(row: Object, a: Object)
    requires row.Keys == COLUMNS && a.Keys == ATTRIBUTE && Holds(row, a)
    ensures AttributeView(row) == a
  {
  }

  lemma ChannelShown(row: Object, o: Object)
    requires row.Keys == COLUMNS && IsChannel(o) && Holds(row, ChannelUpdate(o))
    ensures ChannelView(row) == o
  {
    var u := ChannelUpdate(o);
    assert row[DisplayText] == u[DisplayText] && row[Enabled] == u[Enabled];
  }

  lemma DateTimeShown(row: Object, o: Object)
    requires row.Keys == COLUMNS && IsDateTime(o) && Holds(row, DateTimeUpdate(o))
    ensures DateTimeView(row) == o
  {
    var u := DateTimeUpdate(o);
    assert row[Enabled] == u[Enabled];
  }

  lemma CharacterShown(row: Object, o: Object, id: int)
    requires row.Keys == COLUMNS && IsCharacter(o, id) && Holds(row, CharacterUpdate(o, id + FIRST_TEXT))
    ensures CharacterView(row, id) == o
  {
    var u := CharacterUpdate(o, id + FIRST_TEXT);
    assert PositionX in u && PositionY in u && DisplayText in u && PersistentText in u && Enabled in u;
    CharacterIs(row, o, id);
  }

  lemma CharacterIs(row: Object, o: Object, id: int)
    requires row.Keys == COLUMNS && IsCharacter(o, id)
    requires row[PositionX] == o[PositionX] && row[PositionY] == o[PositionY] && row[DisplayText] == o[DisplayText]
    requires row[PersistentText] == o[PersistentText] && row[Enabled] == o[TextEnabled]
    ensures CharacterView(row, id) == o
  {
  }

  lemma MaskShown(row: Object, o: Object, id: int)
    requires row.Keys == COLUMNS && IsMask(o, id) && Holds(row, MaskUpdate(o, id + FIRST_MASK))
    ensures MaskView(row, id) == o
  {
    var u := MaskUpdate(o, id + FIRST_MASK);
    assert PositionX in u && PositionY in u && Width in u && Height in u && Enabled in u;
    MaskIs(row, o, id);
  }

  lemma MaskIs(row: Object, o: Object, id: int)
    requires row.Keys == COLUMNS && IsMask(o, id)
    requires row[PositionX] == o[PositionX] && row[PositionY] == o[PositionY]
    requires row[Width] == o[MaskWidth] && row[Height] == o[MaskHeight] && row[Enabled] == o[MaskEnabled]
    ensures MaskView(row, id) == o
  {
  }

  /** A store that shows each section of a configuration shows the configuration. */
  lemma ShownBySections(s: Store, c: Overlays)
    requires ValidStore(s)
    requires c.attribute == Some(AttributeView(s.osd[0])) && c.channel == Some(ChannelView(s.osd[0]))
    requires c.dateTime == Some(DateTimeView(s.osd[1])) && c.screen == Some(ScreenView(s.screen))
    requires c.characters.Some? && |c.characters.value| == 8
    requires forall i :: 0 <= i < 8 ==> CharacterView(s.osd[i + FIRST_TEXT], i) == c.characters.value[i]
    ensures Get(s) == c
  {
    assert Get(s).characters.value == c.characters.value;
  }

  lemma CharactersShown(before: Table, after: Table, a: Object, cs: seq<Object>)
    requires ValidTable(before) && ValidTable(after) && a.Keys == ATTRIBUTE && |cs| == 8 && AreCharacters(cs, 0)
    requires forall i :: FIRST_TEXT <= i < SHARED ==> after[i] == before[i] + a + CharacterUpdates(cs, 0)[i - FIRST_TEXT]
    ensures forall i :: 0 <= i < 8 ==> CharacterView(after[i + FIRST_TEXT], i) == cs[i]
  {
    forall i | 0 <= i < 8
      ensures CharacterView(after[i + FIRST_TEXT], i) == cs[i]
    {
      assert IsCharacter(cs[i], i + 0);
      var row, u := before[i + FIRST_TEXT], CharacterUpdates(cs, 0)[i];
      assert after[i + FIRST_TEXT] == row + a + u;
      TextWritten(row, a, cs[i], i);
    }
  }

  lemma TextWritten(row: Object, a: Object, o: Object, id: int)
    requires row.Keys == COLUMNS && a.Keys == ATTRIBUTE && IsCharacter(o, id)
    ensures (row + a + CharacterUpdate(o, id + FIRST_TEXT)).Keys == COLUMNS
    ensures CharacterView(row + a + CharacterUpdate(o, id + FIRST_TEXT), id) == o
  {
    AttributeKeys(a);
    CharacterFits(o, id);
    WrittenRow(row, a, CharacterUpdate(o, id + FIRST_TEXT));
    CharacterShown(row + a + CharacterUpdate(o, id + FIRST_TEXT), o, id);
  }

  lemma FrontWritten(row: Object, a: Object, o: Object)
    requires row.Keys == COLUMNS && a.Keys == ATTRIBUTE && IsChannel(o)
    ensures (row + a + ChannelUpdate(o)).Keys == COLUMNS
    ensures AttributeView(row + a + ChannelUpdate(o)) == a && ChannelView(row + a + ChannelUpdate(o)) == o
  {
    AttributeKeys(a);
    ChannelFits(o);
    ChannelAvoids(o);
    WrittenRow(row, a, ChannelUpdate(o));
    AttributeShown(row + a + ChannelUpdate(o), a);
    ChannelShown(row + a + ChannelUpdate(o), o);
  }

  lemma ChannelAvoids(o: Object)
    requires IsChannel(o)
    ensures ATTRIBUTE !! ChannelUpdate(o).Keys
  {
  }

  lemma DateWritten(row: Object, a: Object, o: Object)
    requires row.Keys == COLUMNS && a.Keys == ATTRIBUTE && IsDateTime(o)
    ensures (row + a + DateTimeUpdate(o)).Keys == COLUMNS && DateTimeView(row + a + DateTimeUpdate(o)) == o
  {
    AttributeKeys(a);
    DateTimeFits(o);
    WrittenRow(row, a, DateTimeUpdate(o));
    DateTimeShown(row + a + DateTimeUpdate(o), o);
  }

  lemma WrittenShown(before: Store, after: Store, c: Overlays)
    requires ValidStore(before) && ValidStore(after) && Complete(c)
    requires Written(before.osd, after.osd, PartsOf(c)) && after.screen == before.screen + c.screen.value
    ensures Get(after) == c
  {
    var a := c.attribute.value;
    FrontWritten(before.osd[0], a, c.channel.value);
    DateWritten(before.osd[1], a, c.dateTime.value);
    CharactersShown(before.osd, after.osd, a, c.characters.value);
    ScreenShown(before.screen, c.screen.value);
    ShownBySections(after, c);
  }

  lemma ScreenShown(screen: Object, o: Object)
    requires screen.Keys == {Id, ScreenWidth, ScreenHeight} && o.Keys == {ScreenWidth, ScreenHeight}
    ensures (screen + o).Keys == screen.Keys && ScreenView(screen + o) == o
  {
  }

  /** A configuration is shown as it was written exactly when it is complete and well formed. */
  lemma PutGet(s: Store, c: Overlays)
    requires ValidStore(s) && Put(s, c).Ok?
    ensures ValidStore(Put(s, c).value)
    ensures Get(Put(s, c).value) == c <==> Complete(c)
  {
    PutValid(s, c);
    if Complete(c) {
      PutRows(s, c);
      WrittenShown(s, Put(s, c).value, c);
    }
    ShownIsComplete(Put(s, c).value);
  }

  /** What is shown is complete. */
  lemma ShownIsComplete(s: Store)
    requires ValidStore(s)
    ensures Complete(Get(s))
  {
    ViewsAreWellFormed(s.osd[0], 0);
    ViewsAreWellFormed(s.osd[1], 0);
    forall i | 0 <= i < 8
      ensures IsCharacter(Get(s).characters.value[i], i + 0)
    {
      ViewsAreWellFormed(s.osd[i + FIRST_TEXT], i);
    }
  }

  lemma ViewsAreWellFormed(row: Object, id: int)
    requires row.Keys == COLUMNS
    ensures AttributeView(row).Keys == ATTRIBUTE && IsChannel(ChannelView(row)) && IsDateTime(DateTimeView(row))
    ensures IsCharacter(CharacterView(row, id), id) && IsMask(MaskView(row, id), id)
  {
  }

  lemma ScreenBack(screen: Object)
    requires screen.Keys == {Id, ScreenWidth, ScreenHeight}
    ensures screen + ScreenView(screen) == screen
  {
  }

  // --- the privacy masks ---

  lemma PutMasksIs(s: Store, c: Masks)
    requires |s.osd| == ROWS && CompleteMasks(c)
    ensures AllFit(MaskUpdates(c.masks.value, 0), FIRST_MASK)
    ensures PutPrivacy(s, c) == Ok(Store(Spread(s.osd, MaskUpdates(c.masks.value, 0), FIRST_MASK), PutScreen(s.screen, c.screen.value)))
  {
    MasksWritten(s.osd, c.masks.value, 0);
  }

  lemma ScreenWritten(s: Store, osd: Table, o: Object)
    requires ValidStore(s) && ValidTable(osd) && o.Keys == {ScreenWidth, ScreenHeight}
    ensures PutScreen(s.screen, o) == s.screen + o && ValidStore(Store(osd, s.screen + o))
  {
    PutScreenIs(s.screen, o);
  }

  ghost predicate SameRows(a: Table, b: Table, lo: int, hi: int) {
    |a| == |b| == ROWS && forall i :: 0 <= i < ROWS && lo <= i < hi ==> a[i] == b[i]
  }

  lemma SpreadFrame(osd: Table, us: seq<Object>, lo: nat)
    requires |osd| == ROWS
    ensures SameRows(Spread(osd, us, lo), osd, 0, lo) && SameRows(Spread(osd, us, lo), osd, lo + |us|, ROWS)
  {
  }

  /** A complete configuration of masks is written to the rows of the masks only. */
  lemma PutMaskRows(s: Store, c: Masks)
    requires ValidStore(s) && CompleteMasks(c)
    ensures PutPrivacy(s, c) == Ok(Store(Spread(s.osd, MaskUpdates(c.masks.value, 0), FIRST_MASK), s.screen + c.screen.value))
    ensures ValidStore(PutPrivacy(s, c).value)
    ensures SameRows(PutPrivacy(s, c).value.osd, s.osd, 0, FIRST_MASK)
    ensures SameRows(PutPrivacy(s, c).value.osd, s.osd, FIRST_IMAGE, ROWS)
  {
    var us := MaskUpdates(c.masks.value, 0);
    PutMasksIs(s, c);
    SpreadValid(s.osd, us, FIRST_MASK);
    ScreenWritten(s, Spread(s.osd, us, FIRST_MASK), c.screen.value);
    SpreadFrame(s.osd, us, FIRST_MASK);
  }

  lemma MaskWrittenRow(row: Object, o: Object, id: int)
    requires row.Keys == COLUMNS && IsMask(o, id) && (row + MaskUpdate(o, id + FIRST_MASK)).Keys == COLUMNS
    ensures MaskView(row + MaskUpdate(o, id + FIRST_MASK), id) == o
  {
    MaskShown(row + MaskUpdate(o, id + FIRST_MASK), o, id);
  }

  lemma MasksShown(before: Table, after: Table, ms: seq<Object>)
    requires ValidTable(before) && ValidTable(after) && |ms| == 4 && AreMasks(ms, 0)
    requires after == Spread(before, MaskUpdates(ms, 0), FIRST_MASK)
    ensures MaskViews(after) == ms
  {
    forall i | 0 <= i < 4
      ensures MaskViews(after)[i] == ms[i]
    {
      assert IsMask(ms[i], i + 0);
      var row, u := before[i + FIRST_MASK], MaskUpdates(ms, 0)[i];
      assert after[i + FIRST_MASK] == row + u;
      MaskWrittenRow(row, ms[i], i);
    }
  }

  /** Masks are shown as they were written exactly when the configuration is complete and well formed. */
  lemma PrivacyPutGet(s: Store, c: Masks)
    requires ValidStore(s) && PutPrivacy(s, c).Ok?
    ensures ValidStore(PutPrivacy(s, c).value)
    ensures GetPrivacy(PutPrivacy(s, c).value) == c <==> CompleteMasks(c)
  {
    PutPrivacyValid(s, c);
    if CompleteMasks(c) {
      PutMaskRows(s, c);
      MasksShown(s.osd, PutPrivacy(s, c).value.osd, c.masks.value);
      ScreenShown(s.screen, c.screen.value);
    }
    ShownMasksAreComplete(PutPrivacy(s, c).value);
  }

  lemma ShownMasksAreComplete(s: Store)
    requires ValidStore(s)
    ensures CompleteMasks(GetPrivacy(s))
  {
    forall i | 0 <= i < 4
      ensures IsMask(GetPrivacy(s).masks.value[i], i + 0)
    {
      ViewsAreWellFormed(s.osd[i + FIRST_MASK], i);
    }
  }

  lemma MaskBack(row: Object, id: int)
    requires row.Keys == COLUMNS && row[Id] == Num(id + FIRST_MASK)
    ensures row + MaskUpdate(MaskView(row, id), id + FIRST_MASK) == row
  {
  }

  lemma MasksBack(osd: Table, ms: seq<Object>)
    requires ValidTable(osd) && AreMasks(ms, 0) && |ms| == 4
    requires forall i :: 0 <= i < 4 ==> ms[i] == MaskView(osd[i + FIRST_MASK], i)
    ensures Spread(osd, MaskUpdates(ms, 0), FIRST_MASK) == osd
  {
    var us := MaskUpdates(ms, 0);
    forall i | 0 <= i < 4
      ensures osd[i + FIRST_MASK] + us[i] == osd[i + FIRST_MASK]
    {
      MaskBack(osd[i + FIRST_MASK], i);
    }
    SpreadSame(osd, us, FIRST_MASK);
  }

  lemma SpreadSame(osd: Table, us: seq<Object>, lo: nat)
    requires lo + |us| <= |osd| && forall j :: 0 <= j < |us| ==> osd[j + lo] + us[j] == osd[j + lo]
    ensures Spread(osd, us, lo) == osd
  {
    forall i | lo <= i < lo + |us|
      ensures osd[i] + us[i - lo] == osd[i]
    {
      assert osd[(i - lo) + lo] + us[i - lo] == osd[(i - lo) + lo];
    }
  }

  /** Writing back the masks that are shown changes nothing at all. */
  lemma PrivacyGetPut(s: Store)
    requires ValidStore(s)
    ensures PutPrivacy(s, GetPrivacy(s)) == Ok(s)
  {
    ShownMasksAreComplete(s);
    PutMaskRows(s, GetPrivacy(s));
    MasksBack(s.osd, MaskViews(s.osd));
    ScreenBack(s.screen);
  }

  /** A text is written to the row two after its id, whatever the id: only ids below eight stay within the overlays. */
  lemma TextTouches(osd: Table, o: Object, id: int)
    requires |osd| == ROWS && IsCharacter(o, id)
    ensures PutCharacters(osd, [o]).Ok? && |PutCharacters(osd, [o]).value| == ROWS
    ensures forall i :: 0 <= i < ROWS ==>
      PutCharacters(osd, [o]).value[i] == if i == id + FIRST_TEXT then osd[i] + CharacterUpdate(o, i) else osd[i]
  {
    CharacterWritten(o, id);
    CharacterFits(o, id);
    var t := Update(osd, CharacterUpdate(o, id + FIRST_TEXT), id + FIRST_TEXT);
    assert PutCharacters(t, [o][1..]) == Ok(t);
  }

  lemma SameMasks(a: Table, b: Table)
    requires ValidTable(a) && ValidTable(b) && SameRows(a, b, FIRST_MASK, FIRST_IMAGE)
    ensures MaskViews(a) == MaskViews(b)
  {
  }

  lemma SameTexts(a: Table, b: Table)
    requires ValidTable(a) && ValidTable(b) && SameRows(a, b, 0, SHARED)
    ensures CharacterViews(a) == CharacterViews(b)
  {
  }

  /** The two pairs keep out of each other's rows: what one shows is not changed by writing the other,
      but for the screen size, which both carry. */
  lemma PairsIndependent(s: Store, c: Overlays, m: Masks)
    requires ValidStore(s) && Complete(c) && CompleteMasks(m)
    ensures Put(s, c).Ok? && ValidStore(Put(s, c).value) && GetPrivacy(Put(s, c).value).masks == GetPrivacy(s).masks
    ensures PutPrivacy(s, m).Ok? && ValidStore(PutPrivacy(s, m).value)
    ensures Get(PutPrivacy(s, m).value).(screen := None) == Get(s).(screen := None)
  {
    OverlaysKeepMasks(s, c);
    MasksKeepOverlays(s, m);
  }

  lemma OverlaysKeepMasks(s: Store, c: Overlays)
    requires ValidStore(s) && Complete(c)
    ensures Put(s, c).Ok? && ValidStore(Put(s, c).value) && GetPrivacy(Put(s, c).value).masks == GetPrivacy(s).masks
  {
    PutRows(s, c);
    SameMasks(Put(s, c).value.osd, s.osd);
  }

  lemma MasksKeepOverlays(s: Store, m: Masks)
    requires ValidStore(s) && CompleteMasks(m)
    ensures PutPrivacy(s, m).Ok? && ValidStore(PutPrivacy(s, m).value)
    ensures Get(PutPrivacy(s, m).value).(screen := None) == Get(s).(screen := None)
  {
    PutMaskRows(s, m);
    var after := PutPrivacy(s, m).value;
    SameTexts(after.osd, s.osd);
    assert after.osd[0] == s.osd[0] && after.osd[1] == s.osd[1];
  }
}
