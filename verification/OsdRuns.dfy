/** Runs of overlay and mask writes from the tables the database starts with: whether the overlay rows keep sharing
    their attributes, on which the two laws of the overlays depend. */
module OsdRuns {
  import opened Wrappers
  import opened OsdViews
  import opened OsdShared
  import opened OsdPartial
  import opened OsdHandlers
  import opened OsdPost
  import Prune
  import J = JsonDiff

  // --- the tables at the start ---

  const DEFAULT_ATTRIBUTES: Object :=
    map[OsdAttribute := Text("transparent/not-flashing"), FontSize := Text("32*32"), FrontColorMode := Text("customize"),
        FrontColor := Text("fff799"), Alignment := Text("customize"), Boundary := Num(0)]

  /** A row with the defaults of all columns. */
  function OtherDefaults(id: int, kind: string): Object {
    map[Id := Num(id), Type := Text(kind), Enabled := Num(0), PositionX := Num(0), PositionY := Num(0), Width := Num(0),
        Height := Num(0), PersistentText := Text("true"), DisplayText := Text(""), DisplayWeek := Num(1),
        DateStyle := Text(""), TimeStyle := Text(""), TransparentColor := Num(0)]
  }

  function DefaultRow(id: int, kind: string): Object {
    OtherDefaults(id, kind) + DEFAULT_ATTRIBUTES
  }

  /** What a row is given beside its id and its type. */
  function InitialColumns(id: nat): Object {
    if id == 0 then map[Enabled := Num(1), DisplayText := Text("Camera 01"), PositionX := Num(540), PositionY := Num(432)]
    else if id == 1 then map[Enabled := Num(1), DateStyle := Text("CHR-YYYY-MM-DD"), TimeStyle := Text("24hour"),
                             PositionX := Num(16), PositionY := Num(16)]
    else if id == 14 then map[Enabled := Num(1), PositionX := Num(16), PositionY := Num(388)]
    else map[]
  }

  function InitialKind(id: nat): string {
    if id == 0 then "channelName" else if id == 1 then "dateTime" else if id < FIRST_MASK then "character"
    else if id < FIRST_IMAGE then "privacyMask" else "image"
  }

  function InitialRow(id: nat): Object {
    DefaultRow(id, InitialKind(id)) + InitialColumns(id)
  }

  function InitialTable(): (osd: Table)
    ensures |osd| == ROWS && forall i :: 0 <= i < ROWS ==> osd[i] == InitialRow(i)
  {
    seq(ROWS, i requires 0 <= i < ROWS => InitialRow(i))
  }

  const INITIAL_SCREEN: Object := map[Id := Num(0), ScreenWidth := Num(704), ScreenHeight := Num(480)]

  function Initial(): Store {
    Store(InitialTable(), INITIAL_SCREEN)
  }

  lemma OtherDefaultsAre(id: int, kind: string)
    ensures OtherDefaults(id, kind).Keys == COLUMNS - ATTRIBUTE && OtherDefaults(id, kind)[Id] == Num(id)
  {
  }

  lemma WithAttributes(row: Object, a: Object)
    requires row.Keys == COLUMNS - ATTRIBUTE && a.Keys == ATTRIBUTE
    ensures (row + a).Keys == COLUMNS && (row + a)[Id] == row[Id] && AttributeView(row + a) == a
  {
  }

  lemma DefaultRowIs(id: int, kind: string)
    ensures DefaultRow(id, kind).Keys == COLUMNS && DefaultRow(id, kind)[Id] == Num(id)
    ensures AttributeView(DefaultRow(id, kind)) == DEFAULT_ATTRIBUTES
  {
    OtherDefaultsAre(id, kind);
    WithAttributes(OtherDefaults(id, kind), DEFAULT_ATTRIBUTES);
  }

  lemma InitialColumnsAre(id: nat)
    ensures NoAttributes(InitialColumns(id)) && InitialColumns(id).Keys <= COLUMNS && Id !in InitialColumns(id)
  {
  }

  ghost predicate IsRow(row: Object, id: nat, a: Object) {
    row.Keys == COLUMNS && row[Id] == Num(id) && AttributeView(row) == a
  }

  lemma InitialRowIs(id: nat)
    requires id < ROWS
    ensures IsRow(InitialRow(id), id, DEFAULT_ATTRIBUTES)
  {
    DefaultRowIs(id, InitialKind(id));
    InitialColumnsAre(id);
    AttributesKept(DefaultRow(id, InitialKind(id)), InitialColumns(id));
  }

  lemma RowsAlike(osd: Table, a: Object)
    requires |osd| == ROWS && forall i :: 0 <= i < ROWS ==> IsRow(osd[i], i, a)
    ensures Alike(osd, a)
  {
  }

  lemma InitialAlike()
    ensures Alike(InitialTable(), DEFAULT_ATTRIBUTES)
  {
    var osd := InitialTable();
    forall i | 0 <= i < ROWS
      ensures IsRow(osd[i], i, DEFAULT_ATTRIBUTES)
    {
      InitialRowIs(i);
    }
    RowsAlike(osd, DEFAULT_ATTRIBUTES);
  }

  lemma InitialScreenIs()
    ensures INITIAL_SCREEN.Keys == {Id, ScreenWidth, ScreenHeight} && INITIAL_SCREEN[Id] == Num(0)
  {
  }

  lemma AlikeStore(osd: Table, screen: Object, a: Object)
    requires Alike(osd, a) && screen.Keys == {Id, ScreenWidth, ScreenHeight} && screen[Id] == Num(0)
    ensures ValidStore(Store(osd, screen))
  {
  }

  lemma InitialShared()
    ensures ValidStore(Initial()) && Alike(Initial().osd, DEFAULT_ATTRIBUTES)
  {
    InitialAlike();
    InitialScreenIs();
    AlikeStore(InitialTable(), INITIAL_SCREEN, DEFAULT_ATTRIBUTES);
  }

  // --- what keeps the attributes shared ---

  lemma ViewIs(row: Object)
    requires row.Keys == COLUMNS
    ensures AttributeView(row).Keys == ATTRIBUTE && forall k :: k in ATTRIBUTE ==> AttributeView(row)[k] == row[k]
  {
  }

  /** Rows with the same attributes have the same attributes after the same update. */
  lemma OverAlike(row: Object, other: Object, a: Object)
    requires row.Keys == other.Keys == (row + a).Keys == (other + a).Keys == COLUMNS && AttributeView(row) == AttributeView(other)
    ensures AttributeView(row + a) == AttributeView(other + a)
  {
    ViewIs(row);
    ViewIs(other);
    ViewIs(row + a);
    ViewIs(other + a);
    forall k | k in ATTRIBUTE
      ensures AttributeView(row + a)[k] == AttributeView(other + a)[k]
    {
      assert AttributeView(row)[k] == AttributeView(other)[k];
    }
  }

  /** The attribute section does not single out a row, or carries no attributes. */
  ghost predicate Even(a: Object) {
    Id !in a || NoAttributes(a)
  }

  lemma {:induction false} PutKeepsAttributes(osd: Table, a: Object, n: nat)
    requires ValidTable(osd) && NoAttributes(a)
    ensures ValidTable(PutAttribute(osd, a, n)) && SameAttributes(PutAttribute(osd, a, n), osd)
    decreases n
  {
    if n > 0 {
      PutKeepsAttributes(osd, a, n - 1);
      UpdateKeepsAttributes(PutAttribute(osd, a, n - 1), a, n - 1);
      SameAttributesTrans(PutAttribute(osd, a, n), PutAttribute(osd, a, n - 1), osd);
    }
  }

  lemma {:induction false} PutUnfit(osd: Table, a: Object, n: nat)
    requires !(a.Keys <= COLUMNS)
    ensures PutAttribute(osd, a, n) == osd
    decreases n
  {
    if n > 0 {
      PutUnfit(osd, a, n - 1);
    }
  }

  lemma SharedKept(t: Table, osd: Table)
    requires ValidTable(t) && ValidTable(osd) && SameAttributes(t, osd) && SharedAttributes(osd)
    ensures SharedAttributes(t)
  {
    forall i | 0 <= i < SHARED
      ensures AttributeView(t[i]) == AttributeView(t[0])
    {
      assert AttributeView(t[i]) == AttributeView(osd[i]) && AttributeView(t[0]) == AttributeView(osd[0]);
      assert AttributeView(osd[i]) == AttributeView(osd[0]);
    }
  }

  /** Writing an attribute section, even an incomplete or a refused one, keeps shared attributes shared. */
  lemma EvenKeepsShared(osd: Table, a: Object)
    requires ValidTable(osd) && SharedAttributes(osd) && Even(a)
    ensures ValidTable(PutAttribute(osd, a, SHARED)) && SharedAttributes(PutAttribute(osd, a, SHARED))
  {
    PutAttributeValid(osd, a, SHARED);
    if NoAttributes(a) {
      PutKeepsAttributes(osd, a, SHARED);
      SharedKept(PutAttribute(osd, a, SHARED), osd);
    } else if a.Keys <= COLUMNS {
      AttributeWritten(osd, a, SHARED);
      SpreadShared(osd, a);
    } else {
      PutUnfit(osd, a, SHARED);
    }
  }

  lemma SpreadShared(osd: Table, a: Object)
    requires ValidTable(osd) && SharedAttributes(osd) && ValidTable(Spread(osd, Copies(a, SHARED), 0))
    ensures SharedAttributes(Spread(osd, Copies(a, SHARED), 0))
  {
    var t := Spread(osd, Copies(a, SHARED), 0);
    forall i | 0 <= i < SHARED
      ensures AttributeView(t[i]) == AttributeView(t[0])
    {
      assert AttributeView(osd[i]) == AttributeView(osd[0]);
      assert t[i] == osd[i] + a && t[0] == osd[0] + a;
      OverAlike(osd[i], osd[0], a);
    }
  }

  // --- runs ---

  datatype Write = ToOverlays(overlays: Overlays) | ToMasks(masks: Masks)

  /** What a write leaves, also when it throws: then everything before the first missing key is written. */
  function After(s: Store, w: Write): Store {
    match w
    case ToOverlays(c) => SoundPartPut(s, c); Put(s, SoundPart(c)).value
    case ToMasks(c) => SoundMaskPartPut(s, c); PutPrivacy(s, SoundMaskPart(c)).value
  }

  function Run(s: Store, ws: seq<Write>): Store
    decreases |ws|
  {
    if ws == [] then s else Run(After(s, ws[0]), ws[1..])
  }

  /** No text, mask or front overlay names a column of the attributes. */
  ghost predicate Tidy(w: Write) {
    match w
    case ToOverlays(c) => NoStray(c) && (c.attribute.Some? ==> Even(c.attribute.value))
    case ToMasks(c) => c.masks.Some? ==> NoStrayTexts(c.masks.value)
  }

  lemma {:induction false} SoundTextsNoStray(cs: seq<Object>)
    requires NoStrayTexts(cs)
    ensures NoStrayTexts(SoundTexts(cs))
    decreases |cs|
  {
    if cs != [] && CharacterRow(cs[0]).Ok? {
      assert forall i :: 0 <= i < |cs[1..]| ==> cs[1..][i] == cs[i + 1];
      SoundTextsNoStray(cs[1..]);
    }
  }

  lemma {:induction false} SoundMasksNoStray(ms: seq<Object>)
    requires NoStrayTexts(ms)
    ensures NoStrayTexts(SoundMasks(ms))
    decreases |ms|
  {
    if ms != [] && MaskRow(ms[0]).Ok? {
      assert forall i :: 0 <= i < |ms[1..]| ==> ms[1..][i] == ms[i + 1];
      SoundMasksNoStray(ms[1..]);
    }
  }

  lemma SoundPartNoStray(c: Overlays)
    requires NoStray(c)
    ensures NoStray(SoundPart(c)) && SoundPart(c).attribute == c.attribute
  {
    if c.characters.Some? {
      SoundTextsNoStray(c.characters.value);
    }
  }

  /** A tidy write keeps the attributes shared. */
  lemma PutKeepsShared(s: Store, c: Overlays)
    requires ValidStore(s) && SharedAttributes(s.osd) && Put(s, c).Ok? && NoStray(c)
    requires c.attribute.Some? ==> Even(c.attribute.value)
    ensures ValidStore(Put(s, c).value) && SharedAttributes(Put(s, c).value.osd)
  {
    PutValid(s, c);
    PutInTwo(s, c);
    if c.attribute.Some? {
      EvenKeepsShared(s.osd, c.attribute.value);
    }
    SectionsKeepAttributes(AfterAttribute(s.osd, c), c);
    SharedKept(Put(s, c).value.osd, AfterAttribute(s.osd, c));
  }

  lemma PutMasksKeepsShared(s: Store, c: Masks)
    requires ValidStore(s) && SharedAttributes(s.osd) && PutPrivacy(s, c).Ok? && (c.masks.Some? ==> NoStrayTexts(c.masks.value))
    ensures ValidStore(PutPrivacy(s, c).value) && SharedAttributes(PutPrivacy(s, c).value.osd)
  {
    PutPrivacyValid(s, c);
    if c.masks.Some? {
      MasksKeepAttributes(s.osd, c.masks.value);
      SharedKept(PutPrivacy(s, c).value.osd, s.osd);
    }
  }

  lemma AfterKeepsShared(s: Store, w: Write)
    requires ValidStore(s) && SharedAttributes(s.osd) && Tidy(w)
    ensures ValidStore(After(s, w)) && SharedAttributes(After(s, w).osd)
  {
    match w
    case ToOverlays(c) =>
      SoundPartPut(s, c);
      SoundPartNoStray(c);
      PutKeepsShared(s, SoundPart(c));
    case ToMasks(c) =>
      SoundMaskPartPut(s, c);
      if c.masks.Some? {
        SoundMasksNoStray(c.masks.value);
      }
      PutMasksKeepsShared(s, SoundMaskPart(c));
  }

  /** Over every run of tidy writes, throwing ones included, the overlay rows keep sharing their attributes. */
  lemma {:induction false} RunKeepsShared(s: Store, ws: seq<Write>)
    requires ValidStore(s) && SharedAttributes(s.osd) && forall w :: w in ws ==> Tidy(w)
    ensures ValidStore(Run(s, ws)) && SharedAttributes(Run(s, ws).osd)
    decreases |ws|
  {
    if ws != [] {
      assert ws[0] in ws;
      AfterKeepsShared(s, ws[0]);
      RunKeepsShared(After(s, ws[0]), ws[1..]);
    }
  }

  /** After every run of tidy writes from the tables at the start, writing back what is shown changes nothing. */
  lemma WritesBack(ws: seq<Write>)
    requires forall w :: w in ws ==> Tidy(w)
    ensures ValidStore(Run(Initial(), ws)) && SharedAttributes(Run(Initial(), ws).osd)
    ensures Put(Run(Initial(), ws), Get(Run(Initial(), ws))) == Ok(Run(Initial(), ws))
  {
    InitialShared();
    RunKeepsShared(Initial(), ws);
    GetPut(Run(Initial(), ws));
  }

  /** And a post does what writing everything posted does. */
  lemma PostsAsPut(order: J.Order, dump: J.Json -> string, name: Names, ws: seq<Write>, shown: Prune.Config,
                   json: Prune.Config, c: Overlays)
    requires (forall w :: w in ws ==> Tidy(w)) && ValidStore(Run(Initial(), ws))
    requires J.Enumerates(order) && Injective(name) && Encodes(name, shown, Get(Run(Initial(), ws))) && shown.Keys == SECTIONS
    requires Encodes(name, json, c) && Separate(c)
    ensures var s := Run(Initial(), ws); Put(s, Kept(c, Named(order, dump, shown, json))) == Put(s, c)
  {
    WritesBack(ws);
    PostIsPut(order, dump, name, Run(Initial(), ws), shown, json, c);
  }

  // --- stray attributes ---

  lemma ViewOver(row: Object, u: Object)
    requires row.Keys == (row + u).Keys == COLUMNS
    ensures AttributeView(row + u) == AttributeView(row) <==> forall k :: k in u && k in ATTRIBUTE ==> u[k] == row[k]
  {
    ViewIs(row);
    ViewIs(row + u);
    if AttributeView(row + u) == AttributeView(row) {
      forall k | k in u && k in ATTRIBUTE
        ensures u[k] == row[k]
      {
        assert AttributeView(row + u)[k] == AttributeView(row)[k];
      }
    }
  }

  /** An update of one overlay row keeps the attributes shared exactly when it changes none of them. */
  lemma UpdateShares(osd: Table, u: Object, id: nat)
    requires ValidTable(osd) && SharedAttributes(osd) && id < SHARED && Fits(u, id)
    ensures SharedAttributes(Update(osd, u, id)) <==> forall k :: k in u && k in ATTRIBUTE ==> u[k] == osd[id][k]
  {
    var t, other := Update(osd, u, id), if id == 0 then 1 else 0;
    assert AttributeView(osd[other]) == AttributeView(osd[0]) && AttributeView(osd[id]) == AttributeView(osd[0]);
    ViewOver(osd[id], u);
    if SharedAttributes(t) {
      assert AttributeView(t[id]) == AttributeView(t[0]) && AttributeView(t[other]) == AttributeView(t[0]);
    }
    if AttributeView(osd[id] + u) == AttributeView(osd[id]) {
      forall i | 0 <= i < ROWS
        ensures AttributeView(t[i]) == AttributeView(osd[i])
      {
      }
      SharedKept(t, osd);
    }
  }

  /** A channel name posted on its own. */
  function ChannelOnly(o: Object): Overlays {
    Overlays(None, Some(o), None, None, None)
  }

  /** Renaming the keys of a channel name leaves its stray attributes in. */
  lemma ChannelAttributes(o: Object)
    requires ChannelRow(o).Ok?
    ensures var u := ChannelRow(o).value;
            (forall k :: k in u && k in ATTRIBUTE ==> k in o && u[k] == o[k]) &&
            (forall k :: k in o && k in ATTRIBUTE ==> k in u && u[k] == o[k])
  {
  }

  /** Posting a channel name keeps the attributes shared exactly when the table refuses it or it changes no attribute. */
  lemma ChannelShares(s: Store, o: Object)
    requires ValidStore(s) && SharedAttributes(s.osd) && ChannelRow(o).Ok?
    ensures Put(s, ChannelOnly(o)).Ok? && ValidStore(Put(s, ChannelOnly(o)).value)
    ensures SharedAttributes(Put(s, ChannelOnly(o)).value.osd) <==>
              !Fits(ChannelRow(o).value, 0) || forall k :: k in o && k in ATTRIBUTE ==> o[k] == s.osd[0][k]
  {
    PutValid(s, ChannelOnly(o));
    var u := ChannelRow(o).value;
    assert Put(s, ChannelOnly(o)).value.osd == Update(s.osd, u, 0);
    if Fits(u, 0) {
      ChannelAttributes(o);
      UpdateShares(s.osd, u, 0);
    }
  }

  /** A channel name with a font size of its own, which nothing takes out. */
  function StrayChannel(size: string): Object {
    map[ChannelName := Text("Camera"), ChannelEnabled := Num(1), FontSize := Text(size)]
  }

  lemma StrayChannelFits(size: string)
    ensures ChannelRow(StrayChannel(size)) == Ok(map[DisplayText := Text("Camera"), Enabled := Num(1), FontSize := Text(size)])
    ensures Fits(ChannelRow(StrayChannel(size)).value, 0)
  {
    var o := StrayChannel(size);
    assert o[DisplayText := o[ChannelName]] - {ChannelName} ==
      map[ChannelEnabled := Num(1), FontSize := Text(size), DisplayText := Text("Camera")];
    var p := map[ChannelEnabled := Num(1), FontSize := Text(size), DisplayText := Text("Camera")];
    assert p[Enabled := p[ChannelEnabled]] - {ChannelEnabled} ==
      map[DisplayText := Text("Camera"), Enabled := Num(1), FontSize := Text(size)];
  }

  /** The tables after such a post, at the start. */
  function Strayed(size: string): Store {
    Run(Initial(), [ToOverlays(ChannelOnly(StrayChannel(size)))])
  }

  lemma StrayedIs(size: string)
    ensures Put(Initial(), ChannelOnly(StrayChannel(size))) == Ok(Strayed(size))
  {
    var c := ChannelOnly(StrayChannel(size));
    var w := ToOverlays(c);
    StrayChannelFits(size);
    assert SoundPart(c) == c;
    SoundPartPut(Initial(), c);
    assert [w][1..] == [];
    assert Run(After(Initial(), w), []) == After(Initial(), w);
  }

  /** From any tables with shared attributes the post makes the rows differ, unless the size is theirs. */
  lemma StrayPosted(s: Store, size: string)
    requires ValidStore(s) && SharedAttributes(s.osd) && s.osd[0][FontSize] != Text(size)
    ensures var r := Put(s, ChannelOnly(StrayChannel(size)));
            r.Ok? && ValidStore(r.value) && !SharedAttributes(r.value.osd)
  {
    var o := StrayChannel(size);
    StrayChannelFits(size);
    ChannelShares(s, o);
    assert FontSize in o && FontSize in ATTRIBUTE && o[FontSize] == Text(size);
  }

  lemma AlikeAt(osd: Table, a: Object, k: Key)
    requires Alike(osd, a) && k in ATTRIBUTE
    ensures k in a && osd[0][k] == a[k] && SharedAttributes(osd)
  {
    ViewIs(osd[0]);
    assert AttributeView(osd[0]) == a;
  }

  lemma DefaultSize()
    ensures FontSize in DEFAULT_ATTRIBUTES && DEFAULT_ATTRIBUTES[FontSize] == Text("32*32")
  {
  }

  lemma AlikeSize(s: Store, a: Object, size: Value)
    requires ValidStore(s) && Alike(s.osd, a) && FontSize in a && a[FontSize] == size
    ensures SharedAttributes(s.osd) && s.osd[0][FontSize] == size
  {
    AlikeAt(s.osd, a, FontSize);
  }

  lemma InitialSize()
    ensures ValidStore(Initial()) && SharedAttributes(Initial().osd) && Initial().osd[0][FontSize] == Text("32*32")
  {
    InitialShared();
    DefaultSize();
    AlikeSize(Initial(), DEFAULT_ATTRIBUTES, Text("32*32"));
  }

  lemma StrayUntidy(size: string)
    ensures !Tidy(ToOverlays(ChannelOnly(StrayChannel(size))))
  {
    assert FontSize in StrayChannel(size).Keys && FontSize in ATTRIBUTE;
  }

  lemma StrayedDiffers(size: string)
    requires size != "32*32"
    ensures ValidStore(Strayed(size)) && !SharedAttributes(Strayed(size).osd)
  {
    InitialSize();
    StrayedIs(size);
    StrayPosted(Initial(), size);
  }

  /** From then on, writing back what is shown changes the tables. */
  lemma StrayUnshares(size: string)
    requires size != "32*32"
    ensures !Tidy(ToOverlays(ChannelOnly(StrayChannel(size))))
    ensures ValidStore(Strayed(size)) && !SharedAttributes(Strayed(size).osd)
    ensures Put(Strayed(size), Get(Strayed(size))) != Ok(Strayed(size))
  {
    StrayUntidy(size);
    StrayedDiffers(size);
    GetPut(Strayed(size));
  }

  lemma NothingNamed(order: J.Order, dump: J.Json -> string, shown: Prune.Config, k: string)
    requires |k| > 2
    ensures !Named(order, dump, shown, shown)(k)
  {
    assert Prune.Patch(order, dump, shown, shown) == "[" + "" + "]";
  }

  /** Nor is posting what is shown the same as writing it: everything is erased before. */
  lemma StrayPost(order: J.Order, dump: J.Json -> string, name: Names, size: string, shown: Prune.Config)
    requires size != "32*32" && J.Enumerates(order) && Injective(name) && shown.Keys == SECTIONS
    requires ValidStore(Strayed(size)) && Encodes(name, shown, Get(Strayed(size)))
    ensures var s := Strayed(size);
            Put(s, Kept(Get(s), Named(order, dump, shown, shown))) != Put(s, Get(s))
  {
    StrayUnshares(size);
    var s := Strayed(size);
    ShownIsComplete(s);
    CompleteIsSeparate(Get(s));
    GetPut(s);
    NothingNamed(order, dump, shown, ATTRIBUTES);
    PostIsPut(order, dump, name, s, shown, shown, Get(s));
  }
}
