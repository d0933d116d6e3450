/** Posting a configuration of overlays or of masks: what is shown is compared with it, the sections whose names the
    printed difference lacks are erased, and what remains is written. */
module OsdPost {
  import opened Wrappers
  import opened OsdViews
  import opened OsdShared
  import opened OsdPartial
  import Prune
  import J = JsonDiff

  /** The names of keys, no two the same. */
  type Names = Key -> string

  ghost predicate Injective(name: Names) {
    forall k, l :: name(k) == name(l) ==> k == l
  }

  function ValueJson(v: Value): J.Json {
    match v
    case Num(n) => J.Number(n)
    case Text(s) => J.Text(s)
  }

  ghost function ObjectJson(name: Names, o: Object): J.Json
    requires Injective(name)
  {
    J.Object(map k | k in o :: name(k) := ValueJson(o[k]))
  }

  ghost function ListJson(name: Names, os: seq<Object>): J.Json
    requires Injective(name)
  {
    J.Array(seq(|os|, i requires 0 <= i < |os| => ObjectJson(name, os[i])))
  }

  /** Different objects are different JSON values. */
  lemma ObjectsDiffer(name: Names, o: Object, p: Object)
    requires Injective(name) && ObjectJson(name, o) == ObjectJson(name, p)
    ensures o == p
  {
    var m, n := ObjectJson(name, o).members, ObjectJson(name, p).members;
    forall k
      ensures k in o <==> k in p
      ensures k in o ==> o[k] == p[k]
    {
      assert k in o <==> name(k) in m;
      assert k in p <==> name(k) in n;
      assert k in o ==> m[name(k)] == ValueJson(o[k]) && n[name(k)] == ValueJson(p[k]);
    }
  }

  lemma ListsDiffer(name: Names, os: seq<Object>, ps: seq<Object>)
    requires Injective(name) && ListJson(name, os) == ListJson(name, ps)
    ensures os == ps
  {
    assert |ListJson(name, os).items| == |os| && |ListJson(name, ps).items| == |ps|;
    forall i | 0 <= i < |os|
      ensures os[i] == ps[i]
    {
      assert ListJson(name, os).items[i] == ObjectJson(name, os[i]) && ListJson(name, ps).items[i] == ObjectJson(name, ps[i]);
      ObjectsDiffer(name, os[i], ps[i]);
    }
  }

  const ATTRIBUTES := "attribute"
  const CHANNEL := "channelNameOverlay"
  const CHARACTERS := "characterOverlay"
  const DATE_TIME := "dateTimeOverlay"
  const SCREEN := "normalizedScreenSize"
  const MASKS := "privacyMask"
  const SECTIONS := {ATTRIBUTES, CHANNEL, CHARACTERS, DATE_TIME, SCREEN}
  const MASK_SECTIONS := {SCREEN, MASKS}

  ghost predicate EncodesObject(name: Names, json: Prune.Config, section: string, o: Option<Object>)
    requires Injective(name)
  {
    if o.None? then section !in json else section in json && json[section] == ObjectJson(name, o.value)
  }

  ghost predicate EncodesList(name: Names, json: Prune.Config, section: string, os: Option<seq<Object>>)
    requires Injective(name)
  {
    if os.None? then section !in json else section in json && json[section] == ListJson(name, os.value)
  }

  /** The sections of a configuration as members of a JSON object, which may have others that nobody reads. */
  ghost predicate Encodes(name: Names, json: Prune.Config, c: Overlays)
    requires Injective(name)
  {
    && EncodesObject(name, json, ATTRIBUTES, c.attribute) && EncodesObject(name, json, CHANNEL, c.channel)
    && EncodesList(name, json, CHARACTERS, c.characters) && EncodesObject(name, json, DATE_TIME, c.dateTime)
    && EncodesObject(name, json, SCREEN, c.screen)
  }

  /** The sections that are found. */
  function Kept(c: Overlays, found: string -> bool): Overlays {
    Overlays(if found(ATTRIBUTES) then c.attribute else None, if found(CHANNEL) then c.channel else None,
             if found(CHARACTERS) then c.characters else None, if found(DATE_TIME) then c.dateTime else None,
             if found(SCREEN) then c.screen else None)
  }

  lemma KeptEncodes(name: Names, shown: Prune.Config, json: Prune.Config, c: Overlays, found: string -> bool)
    requires Injective(name) && shown.Keys == SECTIONS && Encodes(name, json, c)
    ensures Encodes(name, Prune.Pruned(shown, json, found), Kept(c, found))
  {
  }

  /** A section that is not found is as shown. */
  ghost predicate Finds(shown: Prune.Config, json: Prune.Config, found: string -> bool) {
    forall k :: Prune.ChangedAt(shown, json, k) ==> found(k)
  }

  lemma UnfoundObject(name: Names, shown: Prune.Config, json: Prune.Config, found: string -> bool, section: string,
                      o: Option<Object>, p: Object)
    requires Injective(name) && Finds(shown, json, found) && !found(section)
    requires EncodesObject(name, shown, section, Some(p)) && EncodesObject(name, json, section, o)
    ensures o.Some? ==> o.value == p
  {
    assert !Prune.ChangedAt(shown, json, section);
    if o.Some? {
      ObjectsDiffer(name, o.value, p);
    }
  }

  lemma UnfoundList(name: Names, shown: Prune.Config, json: Prune.Config, found: string -> bool, section: string,
                    os: Option<seq<Object>>, ps: seq<Object>)
    requires Injective(name) && Finds(shown, json, found) && !found(section)
    requires EncodesList(name, shown, section, Some(ps)) && EncodesList(name, json, section, os)
    ensures os.Some? ==> os.value == ps
  {
    assert !Prune.ChangedAt(shown, json, section);
    if os.Some? {
      ListsDiffer(name, os.value, ps);
    }
  }

  /** What is erased is shown anyway. */
  lemma KeptDrops(name: Names, s: Store, shown: Prune.Config, json: Prune.Config, c: Overlays, found: string -> bool)
    requires Injective(name) && ValidStore(s) && Encodes(name, shown, Get(s)) && Encodes(name, json, c)
    requires Finds(shown, json, found)
    ensures Drops(s, c, Kept(c, found))
    ensures Kept(c, found).attribute == c.attribute <==> c.attribute.None? || found(ATTRIBUTES)
  {
    var g := Get(s);
    if !found(ATTRIBUTES) {
      UnfoundObject(name, shown, json, found, ATTRIBUTES, c.attribute, g.attribute.value);
    }
    if !found(CHANNEL) {
      UnfoundObject(name, shown, json, found, CHANNEL, c.channel, g.channel.value);
    }
    if !found(CHARACTERS) {
      UnfoundList(name, shown, json, found, CHARACTERS, c.characters, g.characters.value);
    }
    if !found(DATE_TIME) {
      UnfoundObject(name, shown, json, found, DATE_TIME, c.dateTime, g.dateTime.value);
    }
    if !found(SCREEN) {
      UnfoundObject(name, shown, json, found, SCREEN, c.screen, g.screen.value);
    }
  }

  /** The search of the handlers for the name of a section. */
  ghost function Named(order: J.Order, dump: J.Json -> string, shown: Prune.Config, json: Prune.Config): string -> bool {
    k => J.Contains(Prune.Patch(order, dump, shown, json), Prune.NameOf(k))
  }

  lemma NamedFinds(order: J.Order, dump: J.Json -> string, shown: Prune.Config, json: Prune.Config)
    requires J.Enumerates(order) && (shown.Keys == SECTIONS || shown.Keys == MASK_SECTIONS)
    ensures Finds(shown, json, Named(order, dump, shown, json))
  {
    forall k | Prune.ChangedAt(shown, json, k)
      ensures Named(order, dump, shown, json)(k)
    {
      SectionsPlain(k);
      Prune.NameFound(order, dump, shown, json, k);
    }
  }

  lemma SectionsPlain(k: string)
    ensures k in SECTIONS || k in MASK_SECTIONS ==> J.Plain(k)
  {
  }

  /** Posting overlays, all sections or some, whole or not: erasing by the printed difference before the write gives
      what writing everything posted gives, when that throws, or no attributes were posted, or their section was found,
      or the overlay rows share their attributes; and, unless another section names attributes, only then. */
  lemma PostIsPut(order: J.Order, dump: J.Json -> string, name: Names, s: Store, shown: Prune.Config, json: Prune.Config,
                  c: Overlays)
    requires J.Enumerates(order) && Injective(name) && ValidStore(s)
    requires Encodes(name, shown, Get(s)) && shown.Keys == SECTIONS && Encodes(name, json, c) && Separate(c)
    ensures var found := Named(order, dump, shown, json);
            var same := Put(s, Kept(c, found)) == Put(s, c);
            var spared := Put(s, c).Fail? || c.attribute.None? || found(ATTRIBUTES) || SharedAttributes(s.osd);
            Encodes(name, Prune.Pruned(shown, json, found), Kept(c, found)) &&
            (spared ==> same) && (NoStray(c) && same ==> spared)
  {
    var found := Named(order, dump, shown, json);
    NamedFinds(order, dump, shown, json);
    KeptEncodes(name, shown, json, c, found);
    KeptDrops(name, s, shown, json, c, found);
    DropUnchanged(s, c, Kept(c, found));
  }

  // --- masks ---

  ghost predicate EncodesMasks(name: Names, json: Prune.Config, c: Masks)
    requires Injective(name)
  {
    EncodesObject(name, json, SCREEN, c.screen) && EncodesList(name, json, MASKS, c.masks)
  }

  function KeptMasks(c: Masks, found: string -> bool): Masks {
    Masks(if found(SCREEN) then c.screen else None, if found(MASKS) then c.masks else None)
  }

  lemma MasksDropped(s: Store, c: Masks, p: Masks)
    requires ValidStore(s)
    requires p.screen == c.screen || (p.screen.None? && c.screen == GetPrivacy(s).screen)
    requires p.masks == c.masks || (p.masks.None? && c.masks == GetPrivacy(s).masks)
    ensures PutPrivacy(s, p) == PutPrivacy(s, c)
  {
    PrivacyGetPut(s);
  }

  /** Posting masks: erasing before the write never makes a difference, whatever is posted. */
  lemma MaskPostIsPut(order: J.Order, dump: J.Json -> string, name: Names, s: Store, shown: Prune.Config,
                      json: Prune.Config, c: Masks)
    requires J.Enumerates(order) && Injective(name) && ValidStore(s)
    requires EncodesMasks(name, shown, GetPrivacy(s)) && shown.Keys == MASK_SECTIONS && EncodesMasks(name, json, c)
    ensures var found := Named(order, dump, shown, json);
            EncodesMasks(name, Prune.Pruned(shown, json, found), KeptMasks(c, found)) &&
            PutPrivacy(s, KeptMasks(c, found)) == PutPrivacy(s, c)
  {
    var found, g := Named(order, dump, shown, json), GetPrivacy(s);
    NamedFinds(order, dump, shown, json);
    if !found(SCREEN) {
      UnfoundObject(name, shown, json, found, SCREEN, c.screen, g.screen.value);
    }
    if !found(MASKS) {
      UnfoundList(name, shown, json, found, MASKS, c.masks, g.masks.value);
    }
    MasksDropped(s, c, KeptMasks(c, found));
  }
}
