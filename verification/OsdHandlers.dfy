/** The OSD handlers: what `osd_overlays_get/set` and `osd_privacy_mask_get/set` do to the table, step by step. */
module OsdHandlers {
  import opened Wrappers
  import opened OsdViews
  import opened OsdColumns

  function Only(o: Object, keep: set<Key>): Object {
    map k | k in o && k in keep :: o[k]
  }

  /** Erases every key that is not to be kept. */
  method KeepOnly(o: Object, keep: set<Key>) returns (r: Object)
    ensures r == Only(o, keep)
  {
    r := o;
    var todo := o.Keys;
    while todo != {}
      invariant todo <= o.Keys
      invariant r == map k | k in o && (k in todo || k in keep) :: o[k]
      decreases todo
    {
      var k :| k in todo;
      if k !in keep {
        r := r - {k};
      }
      todo := todo - {k};
    }
  }

  lemma ChannelOf(row: Object)
    requires row.Keys == COLUMNS
    ensures var o := Only(row, {PositionX, PositionY, Enabled, DisplayText});
            DisplayText in o && Enabled in o &&
            Emplace(Emplace(o, ChannelName, o[DisplayText]), ChannelEnabled, o[Enabled]) - {DisplayText} - {Enabled} == ChannelView(row)
  {
  }

  lemma DateTimeOf(row: Object)
    requires row.Keys == COLUMNS
    ensures var o := Only(row, {PositionX, PositionY, Enabled, DateStyle, TimeStyle, DisplayWeek});
            Enabled in o && Emplace(o, DateTimeEnabled, o[Enabled]) - {Enabled} == DateTimeView(row)
  {
  }

  lemma CharacterOf(row: Object, id: int)
    requires row.Keys == COLUMNS
    ensures var o := Emplace(Only(row, {PositionX, PositionY, Enabled, DisplayText, PersistentText, Id}) - {Id}, Id, Num(id));
            Enabled in o && Emplace(o, TextEnabled, o[Enabled]) - {Enabled} == CharacterView(row, id)
  {
  }

  /** The row of a mask as it is kept, and then under its new names. */
  function KeptMask(row: Object, id: int): Object
    requires row.Keys == COLUMNS
  {
    map[Id := Num(id), PositionX := row[PositionX], PositionY := row[PositionY], Width := row[Width],
        Height := row[Height], Enabled := row[Enabled]]
  }

  lemma KeptOf(row: Object, id: int)
    requires row.Keys == COLUMNS
    ensures Emplace(Only(row, {PositionX, PositionY, Enabled, Id, Width, Height}) - {Id}, Id, Num(id)) == KeptMask(row, id)
  {
  }

  lemma MaskNames(o: Object)
    requires o.Keys == {Id, PositionX, PositionY, Width, Height, Enabled}
    ensures Emplace(Emplace(Emplace(o, MaskWidth, o[Width]), MaskHeight, o[Height]), MaskEnabled, o[Enabled])
              - {Width} - {Height} - {Enabled} ==
            map[Id := o[Id], PositionX := o[PositionX], PositionY := o[PositionY], MaskWidth := o[Width],
                MaskHeight := o[Height], MaskEnabled := o[Enabled]]
  {
  }

  lemma CharacterShownAt(osd: Table, i: nat)
    requires ValidTable(osd) && i < 8
    ensures CharacterViews(osd)[i] == CharacterView(osd[i + FIRST_TEXT], i)
  {
  }

  lemma MaskShownAt(osd: Table, i: nat)
    requires ValidTable(osd) && i < 4
    ensures MaskViews(osd)[i] == MaskView(osd[i + FIRST_MASK], i)
  {
  }

  lemma TakeNext(views: seq<Object>, i: nat)
    requires i < |views|
    ensures views[..i + 1] == views[..i] + [views[i]]
    ensures i + 1 == |views| ==> views[..i + 1] == views
  {
  }

  /** The texts, and the masks, before the first that lacks a key. */
  function SoundTexts(cs: seq<Object>): seq<Object> {
    if cs == [] || CharacterRow(cs[0]).Fail? then [] else [cs[0]] + SoundTexts(cs[1..])
  }

  function SoundMasks(ms: seq<Object>): seq<Object> {
    if ms == [] || MaskRow(ms[0]).Fail? then [] else [ms[0]] + SoundMasks(ms[1..])
  }

  /** What of a configuration comes before the first missing key. */
  function SoundPart(c: Overlays): Overlays {
    if c.channel.Some? && ChannelRow(c.channel.value).Fail? then Overlays(c.attribute, None, None, None, None)
    else if c.characters.Some? && SoundTexts(c.characters.value) != c.characters.value
    then Overlays(c.attribute, c.channel, Some(SoundTexts(c.characters.value)), None, None)
    else if c.dateTime.Some? && DateTimeRow(c.dateTime.value).Fail?
    then Overlays(c.attribute, c.channel, c.characters, None, None)
    else c
  }

  function SoundMaskPart(c: Masks): Masks {
    if c.masks.None? then c else Masks(c.screen, Some(SoundMasks(c.masks.value)))
  }

  lemma TextStep(osd: Table, cs: seq<Object>)
    requires cs != []
    ensures var row := CharacterRow(cs[0]);
            if row.Fail? then SoundTexts(cs) == [] && PutCharacters(osd, cs) == Fail(row.error)
            else var t := Update(osd, row.value.0, row.value.1);
                 PutCharacters(osd, cs) == PutCharacters(t, cs[1..]) &&
                 PutCharacters(osd, SoundTexts(cs)) == PutCharacters(t, SoundTexts(cs[1..]))
  {
    if CharacterRow(cs[0]).Ok? {
      assert SoundTexts(cs)[0] == cs[0] && SoundTexts(cs)[1..] == SoundTexts(cs[1..]);
    }
  }

  lemma MaskStep(osd: Table, ms: seq<Object>)
    requires ms != []
    ensures var row := MaskRow(ms[0]);
            if row.Fail? then SoundMasks(ms) == [] && PutMasks(osd, ms) == Fail(row.error)
            else var t := Update(osd, row.value.0, row.value.1);
                 PutMasks(osd, ms) == PutMasks(t, ms[1..]) &&
                 PutMasks(osd, SoundMasks(ms)) == PutMasks(t, SoundMasks(ms[1..]))
  {
    if MaskRow(ms[0]).Ok? {
      assert SoundMasks(ms)[0] == ms[0] && SoundMasks(ms)[1..] == SoundMasks(ms[1..]);
    }
  }

  lemma {:induction false} SoundTextsPut(osd: Table, cs: seq<Object>)
    ensures PutCharacters(osd, SoundTexts(cs)).Ok?
    ensures PutCharacters(osd, cs).Ok? <==> SoundTexts(cs) == cs
    decreases |cs|
  {
    if cs != [] && CharacterRow(cs[0]).Ok? {
      var (o, id) := CharacterRow(cs[0]).value;
      assert SoundTexts(cs)[0] == cs[0] && SoundTexts(cs)[1..] == SoundTexts(cs[1..]) && cs == [cs[0]] + cs[1..];
      SoundTextsPut(Update(osd, o, id), cs[1..]);
    }
  }

  lemma {:induction false} SoundMasksPut(osd: Table, ms: seq<Object>)
    ensures PutMasks(osd, SoundMasks(ms)).Ok?
    ensures PutMasks(osd, ms).Ok? <==> SoundMasks(ms) == ms
    decreases |ms|
  {
    if ms != [] && MaskRow(ms[0]).Ok? {
      var (o, id) := MaskRow(ms[0]).value;
      assert SoundMasks(ms)[0] == ms[0] && SoundMasks(ms)[1..] == SoundMasks(ms[1..]) && ms == [ms[0]] + ms[1..];
      SoundMasksPut(Update(osd, o, id), ms[1..]);
    }
  }

  lemma SoundSectionsPut(osd: Table, c: Overlays)
    ensures PutSections(osd, SoundPart(c)).Ok?
    ensures PutSections(osd, c).Ok? <==> SoundPart(c) == c
  {
    if c.characters.Some? && (c.channel.Some? ==> ChannelRow(c.channel.value).Ok?) {
      SoundTextsPut(if c.channel.None? then osd else PutChannel(osd, c.channel.value).value, c.characters.value);
    }
  }

  /** The part before the first missing key can be written, and a write fails exactly when it leaves something over. */
  lemma SoundPartPut(s: Store, c: Overlays)
    ensures Put(s, SoundPart(c)).Ok?
    ensures Put(s, c).Ok? <==> SoundPart(c) == c
  {
    assert SoundPart(c).attribute == c.attribute;
    SoundSectionsPut(AfterAttribute(s.osd, c), c);
  }

  lemma SoundPartShape(c: Overlays)
    ensures SoundPart(c).attribute == c.attribute && (SoundPart(c) == c || SoundPart(c).screen.None?)
  {
  }

  /** What a write does, and what the part before the first missing key does, section by section. */
  lemma SoundPartInTwo(s: Store, c: Overlays)
    ensures var osd := AfterAttribute(s.osd, c);
            var t, sound := PutSections(osd, c), PutSections(osd, SoundPart(c));
            sound.Ok? &&
            if t.Fail? then Put(s, c) == Fail(t.error) && Put(s, SoundPart(c)) == Ok(Store(sound.value, s.screen))
            else SoundPart(c) == c &&
                 Put(s, c) == Ok(Store(t.value, if c.screen.Some? then PutScreen(s.screen, c.screen.value) else s.screen))
  {
    SoundPartShape(c);
    SoundSectionsPut(AfterAttribute(s.osd, c), c);
    PutInTwo(s, c);
    PutInTwo(s, SoundPart(c));
  }

  lemma SoundMaskPartPut(s: Store, c: Masks)
    ensures PutPrivacy(s, SoundMaskPart(c)).Ok?
    ensures PutPrivacy(s, c).Ok? <==> SoundMaskPart(c) == c
  {
    if c.masks.Some? {
      SoundMasksPut(s.osd, c.masks.value);
    }
  }

  /** A complete configuration is shown from then on, and nothing changes but the columns that it names. */
  ghost predicate TakenOver(was: Store, now: Store, c: Overlays) {
    ValidStore(was) && ValidStore(now) && Complete(c) && Shows(c, now) && OverlaysTake(now.osd, was.osd, c.attribute.value)
  }

  lemma CompletePut(s: Store, c: Overlays)
    ensures ValidStore(s) && Complete(c) ==> Put(s, c).Ok? && SoundPart(c) == c && TakenOver(s, Put(s, c).value, c)
  {
    if ValidStore(s) && Complete(c) {
      PutColumns(s, c);
      SoundPartPut(s, c);
    }
  }

  class Database {
    var osd: Table
    var screen: Object

    ghost predicate Valid()
      reads this
    {
      ValidStore(State())
    }

    ghost function State(): Store
      reads this
    {
      Store(osd, screen)
    }

    constructor (osd: Table, screen: Object)
      requires ValidStore(Store(osd, screen))
      ensures Valid() && State() == Store(osd, screen)
    {
      this.osd, this.screen := osd, screen;
    }

    /** Updates the named columns of one row of the OSD table. */
    method SetOsd(o: Object, id: int)
      modifies this`osd
      ensures osd == Update(old(osd), o, id)
    {
      osd := Update(osd, o, id);
    }

    method SetScreen(o: Object)
      modifies this`screen
      ensures screen == PutScreen(old(screen), o)
    {
      screen := PutScreen(screen, o);
    }

    method OverlaysGet() returns (c: Overlays)
      requires Valid()
      ensures Shows(c, State())
      ensures c == Get(State())
    {
      assert screen - {Id} == ScreenView(screen);
      var attribute := KeepOnly(osd[0], ATTRIBUTE);
      assert attribute == AttributeView(osd[0]);
      var channel := KeepOnly(osd[0], {PositionX, PositionY, Enabled, DisplayText});
      ChannelOf(osd[0]);
      channel := Emplace(channel, ChannelName, channel[DisplayText]);
      channel := Emplace(channel, ChannelEnabled, channel[Enabled]);
      channel := channel - {DisplayText} - {Enabled};
      var dateTime := KeepOnly(osd[1], {PositionX, PositionY, Enabled, DateStyle, TimeStyle, DisplayWeek});
      DateTimeOf(osd[1]);
      dateTime := Emplace(dateTime, DateTimeEnabled, dateTime[Enabled]) - {Enabled};
      var characters := Characters();
      c := Overlays(Some(attribute), Some(channel), Some(characters), Some(dateTime), Some(screen - {Id}));
      GetShows(State());
    }

    method Characters() returns (all: seq<Object>)
      requires Valid()
      ensures all == CharacterViews(osd)
    {
      all := [];
      ghost var views := CharacterViews(osd);
      for i := FIRST_TEXT to SHARED
        invariant all == views[..i - FIRST_TEXT]
      {
        var character := Character(osd[i], i);
        CharacterShownAt(osd, i - FIRST_TEXT);
        TakeNext(views, i - FIRST_TEXT);
        all := all + [character];
      }
    }

    static method Character(row: Object, i: nat) returns (character: Object)
      requires row.Keys == COLUMNS
      ensures character == CharacterView(row, i - FIRST_TEXT)
    {
      character := KeepOnly(row, {PositionX, PositionY, Enabled, DisplayText, PersistentText, Id});
      CharacterOf(row, i - FIRST_TEXT);
      character := Emplace(character - {Id}, Id, Num(i - FIRST_TEXT));
      character := Emplace(character, TextEnabled, character[Enabled]) - {Enabled};
    }

    method PrivacyGet() returns (c: Masks)
      requires Valid()
      ensures ShowsMasks(c, State())
      ensures c == GetPrivacy(State())
    {
      GetPrivacyShows(State());
      assert screen - {Id} == ScreenView(screen);
      var all := AllMasks();
      c := Masks(Some(screen - {Id}), Some(all));
    }

    method AllMasks() returns (all: seq<Object>)
      requires Valid()
      ensures all == MaskViews(osd)
    {
      all := [];
      ghost var views := MaskViews(osd);
      for i := FIRST_MASK to FIRST_IMAGE
        invariant all == views[..i - FIRST_MASK]
      {
        var mask := Mask(osd[i], i);
        MaskShownAt(osd, i - FIRST_MASK);
        TakeNext(views, i - FIRST_MASK);
        all := all + [mask];
      }
    }

    static method Mask(row: Object, i: nat) returns (mask: Object)
      requires row.Keys == COLUMNS
      ensures mask == MaskView(row, i - FIRST_MASK)
    {
      mask := KeepOnly(row, {PositionX, PositionY, Enabled, Id, Width, Height});
      KeptOf(row, i - FIRST_MASK);
      mask := Emplace(mask - {Id}, Id, Num(i - FIRST_MASK));
      MaskNames(mask);
      mask := Emplace(Emplace(Emplace(mask, MaskWidth, mask[Width]), MaskHeight, mask[Height]), MaskEnabled, mask[Enabled]);
      mask := mask - {Width} - {Height} - {Enabled};
    }

    /** The sections in the order of their names; a missing key throws, with what comes before it already written. */
    method OverlaysSet(c: Overlays) returns (r: Outcome<bool>)
      modifies this
      ensures r == if Put(old(State()), c).Ok? then Ok(true) else Fail(Put(old(State()), c).error)
      ensures Put(old(State()), SoundPart(c)) == Ok(State())
      ensures old(Valid()) && Complete(c) ==> r == Ok(true) && TakenOver(old(State()), State(), c)
    {
      CompletePut(State(), c);
      SoundPartInTwo(State(), c);
      if c.attribute.Some? {
        AttributeSet(c.attribute.value);
      }
      var _ :- SectionsSet(c);
      if c.screen.Some? {
        SetScreen(c.screen.value);
      }
      r := Ok(true);
    }

    /** The attributes go to all ten rows of the overlays. */
    method AttributeSet(a: Object)
      modifies this`osd
      ensures osd == PutAttribute(old(osd), a, SHARED)
    {
      for i := 0 to SHARED
        invariant osd == PutAttribute(old(osd), a, i)
      {
        SetOsd(a, i);
      }
    }

    /** The sections between the attributes and the screen size. */
    method SectionsSet(c: Overlays) returns (r: Outcome<bool>)
      modifies this`osd
      ensures r == if PutSections(old(osd), c).Ok? then Ok(true) else Fail(PutSections(old(osd), c).error)
      ensures PutSections(old(osd), SoundPart(c)) == Ok(osd)
    {
      SoundSectionsPut(osd, c);
      if c.channel.Some? {
        var channel :- ChannelRow(c.channel.value);
        SetOsd(channel, 0);
      }
      if c.characters.Some? {
        SoundTextsPut(osd, c.characters.value);
        var _ :- CharactersSet(c.characters.value);
      }
      if c.dateTime.Some? {
        var dateTime :- DateTimeRow(c.dateTime.value);
        SetOsd(dateTime, 1);
      }
      r := Ok(true);
    }

    method CharactersSet(cs: seq<Object>) returns (r: Outcome<bool>)
      modifies this`osd
      ensures r == if PutCharacters(old(osd), cs).Ok? then Ok(true) else Fail(PutCharacters(old(osd), cs).error)
      ensures PutCharacters(old(osd), SoundTexts(cs)) == Ok(osd)
    {
      var j := 0;
      while j < |cs|
        invariant 0 <= j <= |cs|
        invariant PutCharacters(old(osd), cs) == PutCharacters(osd, cs[j..])
        invariant PutCharacters(old(osd), SoundTexts(cs)) == PutCharacters(osd, SoundTexts(cs[j..]))
      {
        assert cs[j..][0] == cs[j] && cs[j..][1..] == cs[j + 1..];
        TextStep(osd, cs[j..]);
        var row :- CharacterRow(cs[j]);
        SetOsd(row.0, row.1);
        j := j + 1;
      }
      r := Ok(true);
    }

    method PrivacySet(c: Masks) returns (r: Outcome<bool>)
      modifies this
      ensures r == if PutPrivacy(old(State()), c).Ok? then Ok(true) else Fail(PutPrivacy(old(State()), c).error)
      ensures PutPrivacy(old(State()), SoundMaskPart(c)) == Ok(State())
      ensures old(Valid()) && CompleteMasks(c) ==>
                r == Ok(true) && Valid() && ShowsMasks(c, State()) && OnlyMasks(osd, old(osd))
    {
      if Valid() && CompleteMasks(c) {
        PutMaskColumns(State(), c);
      }
      SoundMaskPartPut(State(), c);
      if c.screen.Some? {
        SetScreen(c.screen.value);
      }
      if c.masks.Some? {
        SoundMasksPut(osd, c.masks.value);
        var _ :- MasksSet(c.masks.value);
      }
      r := Ok(true);
    }

    method MasksSet(ms: seq<Object>) returns (r: Outcome<bool>)
      modifies this`osd
      ensures r == if PutMasks(old(osd), ms).Ok? then Ok(true) else Fail(PutMasks(old(osd), ms).error)
      ensures PutMasks(old(osd), SoundMasks(ms)) == Ok(osd)
    {
      var j := 0;
      while j < |ms|
        invariant 0 <= j <= |ms|
        invariant PutMasks(old(osd), ms) == PutMasks(osd, ms[j..])
        invariant PutMasks(old(osd), SoundMasks(ms)) == PutMasks(osd, SoundMasks(ms[j..]))
      {
        assert ms[j..][0] == ms[j] && ms[j..][1..] == ms[j + 1..];
        MaskStep(osd, ms[j..]);
        var row :- MaskRow(ms[j]);
        SetOsd(row.0, row.1);
        j := j + 1;
      }
      r := Ok(true);
    }
  }
}
