/** The ROI handlers: a flag on every row of a stream that says whether any region of the stream is enabled. */
module Roi {
  import opened Wrappers

  datatype Stream = MainStream | SubStream | ThirdStream

  /** A row of the table; `rest` holds the columns that the handlers only pass on. */
  datatype Row = Row(id: int, stream: Stream, streamEnabled: int, roiId: int, roiEnabled: int, rest: map<string, string>)

  /** The columns that a request sets; the stream and its flag are erased from it, and it names no id. */
  datatype Change = Change(roiEnabled: Option<int>, rest: map<string, string>) {

    predicate Empty() {
      roiEnabled.None? && rest == map[]
    }

    function Applied(row: Row): Row {
      row.(roiEnabled := if roiEnabled.Some? then roiEnabled.value else row.roiEnabled, rest := row.rest + rest)
    }
  }

  /** The posted columns have the posted values, and the others those from before; the stream's flag is another matter. */
  ghost predicate ColumnsSet(now: Row, was: Row, c: Change) {
    && now.id == was.id && now.stream == was.stream && now.roiId == was.roiId
    && (if c.roiEnabled.Some? then Some(now.roiEnabled) == c.roiEnabled else now.roiEnabled == was.roiEnabled)
    && now.rest.Keys == was.rest.Keys + c.rest.Keys
    && (forall k :: k in c.rest ==> now.rest[k] == c.rest[k])
    && (forall k :: k in was.rest && k !in c.rest ==> now.rest[k] == was.rest[k])
  }

  /** The rows are the same but for the flags. */
  ghost predicate SameButFlag(now: Row, was: Row) {
    now.(streamEnabled := was.streamEnabled) == was
  }

  ghost predicate SameButFlags(now: Table, was: Table) {
    |now| == |was| && forall j :: 0 <= j < |now| ==> SameButFlag(now[j], was[j])
  }

  /** What a post leaves of a table: row `i` has the posted columns, and nothing else changes but flags. */
  ghost predicate IsPosted(now: Table, was: Table, i: int, c: Change) {
    && |now| == |was| && 0 <= i < |was| && ColumnsSet(now[i], was[i], c)
    && forall j :: 0 <= j < |was| && j != i ==> SameButFlag(now[j], was[j])
  }

  type Table = seq<Row>

  /** Rows are found by their ids. */
  ghost predicate ValidTable(rows: Table) {
    forall i :: 0 <= i < |rows| ==> rows[i].id == i
  }

  /** A stream named by a request; a name that is none of the three selects no row. */
  predicate On(row: Row, s: Option<Stream>) {
    s == Some(row.stream)
  }

  /** The rows of the stream, in order. */
  function Channel(rows: Table, s: Option<Stream>): seq<Row> {
    if rows == [] then []
    else Channel(rows[..|rows| - 1], s) + if On(rows[|rows| - 1], s) then [rows[|rows| - 1]] else []
  }

  function Sum(rows: seq<Row>): int {
    if rows == [] then 0 else Sum(rows[..|rows| - 1]) + rows[|rows| - 1].roiEnabled
  }

  /** What the handler takes for the flag: whether the enabling values add up to something. */
  function FlagOf(rows: Table, s: Option<Stream>): int {
    if Sum(Channel(rows, s)) == 0 then 0 else 1
  }

  /** What the flag is for: whether a region of the stream is enabled. */
  ghost predicate AnyEnabled(rows: Table, s: Option<Stream>) {
    exists i :: 0 <= i < |rows| && On(rows[i], s) && rows[i].roiEnabled != 0
  }

  /** The table with the flag of one stream brought up to date. */
  ghost function Derived(rows: Table, s: Option<Stream>): (t: Table)
    ensures |t| == |rows|
    ensures forall i :: 0 <= i < |rows| ==>
      t[i] == if On(rows[i], s) then rows[i].(streamEnabled := FlagOf(rows, s)) else rows[i]
  {
    seq(|rows|, i requires 0 <= i < |rows| => if On(rows[i], s) then rows[i].(streamEnabled := FlagOf(rows, s)) else rows[i])
  }

  /** The row of a region: the last one of the stream with its id. */
  function RegionAt(rows: Table, s: Option<Stream>, roiId: int): (i: int)
    ensures -1 <= i < |rows|
    ensures i >= 0 ==> On(rows[i], s) && rows[i].roiId == roiId
    ensures forall j :: i < j < |rows| ==> !(On(rows[j], s) && rows[j].roiId == roiId)
  {
    if rows == [] then -1
    else
      var last := rows[|rows| - 1];
      if On(last, s) && last.roiId == roiId then |rows| - 1 else RegionAt(rows[..|rows| - 1], s, roiId)
  }

  function Region(rows: Table, s: Option<Stream>, roiId: int): Option<Row> {
    var i := RegionAt(rows, s, roiId);
    if i < 0 then None else Some(rows[i])
  }

  /** The flag of every row of a stream is what the handler would now take for it. */
  ghost predicate Consistent(rows: Table, s: Option<Stream>) {
    forall i :: 0 <= i < |rows| && On(rows[i], s) ==> rows[i].streamEnabled == FlagOf(rows, s)
  }

  ghost predicate AllConsistent(rows: Table) {
    forall s :: Consistent(rows, s)
  }

  /** The flag of every row of a stream says whether a region of the stream is enabled. */
  ghost predicate Right(rows: Table, s: Option<Stream>) {
    forall i :: 0 <= i < |rows| && On(rows[i], s) ==> rows[i].streamEnabled == if AnyEnabled(rows, s) then 1 else 0
  }

  ghost predicate SameElsewhere(a: Table, b: Table, s: Option<Stream>) {
    |a| == |b| && forall i :: 0 <= i < |a| ==> a[i].stream == b[i].stream && (!On(a[i], s) ==> a[i] == b[i])
  }

  lemma SumSnoc(rows: seq<Row>, r: Row)
    ensures Sum(rows + [r]) == Sum(rows) + r.roiEnabled
  {
    assert (rows + [r])[..|rows|] == rows;
  }

  lemma ChannelSnoc(rows: Table, s: Option<Stream>)
    requires rows != []
    ensures var front, last := rows[..|rows| - 1], rows[|rows| - 1];
            Sum(Channel(rows, s)) == Sum(Channel(front, s)) + if On(last, s) then last.roiEnabled else 0
  {
    var front, last := rows[..|rows| - 1], rows[|rows| - 1];
    assert Channel(rows, s) == if On(last, s) then Channel(front, s) + [last] else Channel(front, s);
    SumSnoc(Channel(front, s), last);
  }

  ghost predicate NonNegative(rows: Table) {
    forall i :: 0 <= i < |rows| ==> rows[i].roiEnabled >= 0
  }

  /** When the enabling values of a stream do not add up to zero a region is enabled; when none of them is negative
      the converse holds too. */
  lemma {:induction false} SumMeansEnabled(rows: Table, s: Option<Stream>)
    ensures Sum(Channel(rows, s)) != 0 ==> AnyEnabled(rows, s)
    ensures NonNegative(rows) ==> Sum(Channel(rows, s)) >= 0 && (AnyEnabled(rows, s) ==> Sum(Channel(rows, s)) != 0)
  {
    if rows != [] {
      var front, last := rows[..|rows| - 1], rows[|rows| - 1];
      SumMeansEnabled(front, s);
      ChannelSnoc(rows, s);
      if AnyEnabled(front, s) {
        var i :| 0 <= i < |front| && On(front[i], s) && front[i].roiEnabled != 0;
        assert On(rows[i], s) && rows[i].roiEnabled != 0;
      }
      if AnyEnabled(rows, s) && !(On(last, s) && last.roiEnabled != 0) {
        var i :| 0 <= i < |rows| && On(rows[i], s) && rows[i].roiEnabled != 0;
        assert On(front[i], s) && front[i].roiEnabled != 0;
      }
    } else {
      assert Channel(rows, s) == [];
    }
  }

  /** The flag the handler takes is the right one exactly unless the values of enabled regions cancel out. */
  lemma RightUnlessCancelled(rows: Table, s: Option<Stream>)
    requires Consistent(rows, s)
    ensures Right(rows, s) <==> !(AnyEnabled(rows, s) && Sum(Channel(rows, s)) == 0)
  {
    SumMeansEnabled(rows, s);
    if AnyEnabled(rows, s) {
      var i :| 0 <= i < |rows| && On(rows[i], s) && rows[i].roiEnabled != 0;
      assert rows[i].streamEnabled == FlagOf(rows, s);
    }
  }

  /** The sum of a stream depends on the enabling values of its rows only. */
  lemma {:induction false} SameSum(a: Table, b: Table, s: Option<Stream>)
    requires |a| == |b|
    requires forall i :: 0 <= i < |a| ==> (On(a[i], s) <==> On(b[i], s)) && (On(a[i], s) ==> a[i].roiEnabled == b[i].roiEnabled)
    ensures Sum(Channel(a, s)) == Sum(Channel(b, s))
  {
    if a != [] {
      ChannelSnoc(a, s);
      ChannelSnoc(b, s);
      SameSum(a[..|a| - 1], b[..|b| - 1], s);
    }
  }

  lemma DerivedFlag(rows: Table, s: Option<Stream>, t: Option<Stream>)
    ensures FlagOf(Derived(rows, s), t) == FlagOf(rows, t)
  {
    SameSum(Derived(rows, s), rows, t);
  }

  /** Bringing a flag up to date makes its stream consistent, and undoes no other stream's consistency. */
  lemma DerivedConsistent(rows: Table, s: Option<Stream>)
    ensures Consistent(Derived(rows, s), s) && SameElsewhere(rows, Derived(rows, s), s)
    ensures forall t :: Consistent(rows, t) ==> Consistent(Derived(rows, s), t)
    ensures ValidTable(rows) ==> ValidTable(Derived(rows, s))
  {
    DerivedFlag(rows, s, s);
    forall t | Consistent(rows, t)
      ensures Consistent(Derived(rows, s), t)
    {
      DerivedFlag(rows, s, t);
    }
  }

  /** A change of one region of a stream. */
  function Changed(rows: Table, i: nat, c: Change): Table
    requires i < |rows|
  {
    rows[i := c.Applied(rows[i])]
  }

  lemma ChangedElsewhere(rows: Table, i: nat, c: Change, s: Option<Stream>, t: Option<Stream>)
    requires i < |rows| && On(rows[i], s) && s != t
    ensures SameElsewhere(rows, Changed(rows, i, c), s)
    ensures Consistent(rows, t) ==> Consistent(Changed(rows, i, c), t)
  {
    var d := Changed(rows, i, c);
    assert forall j :: 0 <= j < |rows| ==> (On(d[j], t) <==> On(rows[j], t)) && (On(rows[j], t) ==> d[j] == rows[j]);
    SameSum(d, rows, t);
  }

  // --- requests ---

  datatype Request = Get(stream: Option<Stream>, roiId: int) | Post(stream: Option<Stream>, roiId: int, change: Change)

  /** The table after a request; a request for a region that does not exist throws, with the flag brought up to date. */
  ghost function After(rows: Table, q: Request): Table {
    match q
    case Get(s, _) => Derived(rows, s)
    case Post(s, roiId, c) =>
      if c.Empty() then Derived(rows, s)
      else if RegionAt(rows, s, roiId) < 0 then Derived(rows, s)
      else Derived(Changed(Derived(rows, s), RegionAt(rows, s, roiId), c), s)
  }

  /** Every request keeps all flags right, and leaves the rows of other streams alone. */
  lemma RequestConsistent(rows: Table, q: Request)
    requires ValidTable(rows) && AllConsistent(rows)
    ensures ValidTable(After(rows, q)) && AllConsistent(After(rows, q)) && SameElsewhere(rows, After(rows, q), q.stream)
  {
    var s, d := q.stream, Derived(rows, q.stream);
    DerivedConsistent(rows, s);
    if q.Post? && !q.change.Empty() && RegionAt(rows, s, q.roiId) >= 0 {
      var i := RegionAt(rows, s, q.roiId);
      var e := Changed(d, i, q.change);
      assert ValidTable(e);
      DerivedConsistent(e, s);
      forall t
        ensures Consistent(Derived(e, s), t)
      {
        assert Consistent(d, t);
        if t != s {
          ChangedElsewhere(d, i, q.change, s, t);
        }
      }
    }
  }

  ghost function Run(rows: Table, qs: seq<Request>): Table
    decreases |qs|
  {
    if qs == [] then rows else Run(After(rows, qs[0]), qs[1..])
  }

  /** Over any run of requests, every flag is after every request what the handler would take for it. */
  lemma {:induction false} RunConsistent(rows: Table, qs: seq<Request>)
    requires ValidTable(rows) && AllConsistent(rows)
    ensures ValidTable(Run(rows, qs)) && AllConsistent(Run(rows, qs))
    decreases |qs|
  {
    if qs != [] {
      RequestConsistent(rows, qs[0]);
      RunConsistent(After(rows, qs[0]), qs[1..]);
    }
  }

  /** The request does not set a negative enabling value. */
  ghost predicate Enabling(q: Request) {
    q.Post? && q.change.roiEnabled.Some? ==> q.change.roiEnabled.value >= 0
  }

  /** Without negative values all flags stay right, whatever the requests. */
  lemma {:induction false} RunRight(rows: Table, qs: seq<Request>)
    requires ValidTable(rows) && AllConsistent(rows) && NonNegative(rows) && forall q :: q in qs ==> Enabling(q)
    ensures NonNegative(Run(rows, qs)) && forall s :: Right(Run(rows, qs), s)
    decreases |qs|
  {
    if qs != [] {
      RequestConsistent(rows, qs[0]);
      assert qs[0] in qs && NonNegative(After(rows, qs[0]));
      RunRight(After(rows, qs[0]), qs[1..]);
    } else {
      forall s
        ensures Right(rows, s)
      {
        assert Consistent(rows, s);
        SumMeansEnabled(rows, s);
        RightUnlessCancelled(rows, s);
      }
    }
  }

  /** The table the database starts with: four regions for each stream, all disabled. */
  function Initial(): Table {
    seq(12, i => Row(i, if i < 4 then MainStream else if i < 8 then SubStream else ThirdStream, 0, i % 4 + 1, 0, map[]))
  }

  lemma InitialConsistent()
    ensures ValidTable(Initial()) && AllConsistent(Initial()) && NonNegative(Initial())
  {
    forall s
      ensures Consistent(Initial(), s)
    {
      SumMeansEnabled(Initial(), s);
    }
  }

  /** What a request that sets the enabling value of a region leaves of the others. */
  lemma PostSets(rows: Table, s: Option<Stream>, roiId: int, x: int, i: nat)
    requires i < |rows| && On(rows[i], s) && rows[i].roiId == roiId
    requires forall j :: i < j < |rows| ==> !(On(rows[j], s) && rows[j].roiId == roiId)
    ensures var after := After(rows, Post(s, roiId, Change(Some(x), map[])));
            |after| == |rows| && forall j :: 0 <= j < |rows| ==>
              after[j].stream == rows[j].stream && after[j].roiId == rows[j].roiId &&
              after[j].roiEnabled == if j == i then x else rows[j].roiEnabled
  {
    assert RegionAt(rows, s, roiId) == i;
  }

  lemma RunTwo(rows: Table, q: Request, r: Request)
    ensures Run(rows, [q, r]) == After(After(rows, q), r)
  {
    assert [q, r][1..] == [r] && [r][1..] == [];
    assert Run(After(After(rows, q), r), []) == After(After(rows, q), r);
    assert Run(After(rows, q), [r]) == After(After(rows, q), r);
  }

  /** Row `i` is the region and the only one of its stream with this id. */
  ghost predicate IsRegion(rows: Table, s: Option<Stream>, roiId: int, i: nat) {
    i < |rows| && On(rows[i], s) && rows[i].roiId == roiId &&
    forall j :: 0 <= j < |rows| && j != i ==> !(On(rows[j], s) && rows[j].roiId == roiId)
  }

  /** Enabling one region by a value and another by its opposite makes the values cancel out. */
  lemma OppositesCancel(rows: Table, s: Option<Stream>, a: int, i: nat, b: int, j: nat, x: int)
    requires IsRegion(rows, s, a, i) && IsRegion(rows, s, b, j) && i < j && x != 0
    requires forall k :: 0 <= k < |rows| ==> rows[k].roiEnabled == 0
    ensures var after := After(After(rows, Post(s, a, Change(Some(x), map[]))), Post(s, b, Change(Some(-x), map[])));
            AnyEnabled(after, s) && Sum(Channel(after, s)) == 0
  {
    var one := After(rows, Post(s, a, Change(Some(x), map[])));
    var two := After(one, Post(s, b, Change(Some(-x), map[])));
    PostSets(rows, s, a, x, i);
    PostSets(one, s, b, -x, j);
    TwoSum(two, s, i, j);
    assert On(two[i], s) && two[i].roiEnabled == x;
  }

  /** Two requests after which, from the table at the start, the flag of a stream is wrong. */
  lemma SignsCancel(x: int, s: Stream)
    requires x != 0
    ensures var rows := Run(Initial(), [Post(Some(s), 1, Change(Some(x), map[])), Post(Some(s), 2, Change(Some(-x), map[]))]);
            AllConsistent(rows) && AnyEnabled(rows, Some(s)) && !Right(rows, Some(s))
  {
    var q, r := Post(Some(s), 1, Change(Some(x), map[])), Post(Some(s), 2, Change(Some(-x), map[]));
    InitialConsistent();
    RunConsistent(Initial(), [q, r]);
    RunTwo(Initial(), q, r);
    InitialRegions(s);
    var first := if s.MainStream? then 0 else if s.SubStream? then 4 else 8;
    OppositesCancel(Initial(), Some(s), 1, first, 2, first + 1, x);
    assert Consistent(Run(Initial(), [q, r]), Some(s));
    RightUnlessCancelled(Run(Initial(), [q, r]), Some(s));
  }

  lemma InitialRegions(s: Stream)
    ensures var first := if s.MainStream? then 0 else if s.SubStream? then 4 else 8;
            IsRegion(Initial(), Some(s), 1, first) && IsRegion(Initial(), Some(s), 2, first + 1) &&
            IsRegion(Initial(), Some(s), 3, first + 2) && IsRegion(Initial(), Some(s), 4, first + 3)
    ensures |Initial()| == 12 && forall k :: 0 <= k < 12 ==> Initial()[k].roiEnabled == 0 && Initial()[k].streamEnabled == 0
  {
  }

  /** The sum when only two rows of the stream count. */
  lemma {:induction false} TwoSum(rows: Table, s: Option<Stream>, i: nat, j: nat)
    requires forall k :: 0 <= k < |rows| && On(rows[k], s) && k != i && k != j ==> rows[k].roiEnabled == 0
    requires i < j
    ensures Sum(Channel(rows, s)) == (if i < |rows| && On(rows[i], s) then rows[i].roiEnabled else 0) +
                                     (if j < |rows| && On(rows[j], s) then rows[j].roiEnabled else 0)
  {
    if rows != [] {
      ChannelSnoc(rows, s);
      TwoSum(rows[..|rows| - 1], s, i, j);
    }
  }

  /** Further changes of flags are no matter. */
  lemma PostedThenFlags(end: Table, now: Table, was: Table, i: int, c: Change)
    requires IsPosted(now, was, i, c) && SameButFlags(end, now)
    ensures IsPosted(end, was, i, c)
  {
    assert SameButFlag(end[i], now[i]);
  }

  lemma DerivedSame(rows: Table, s: Option<Stream>)
    ensures SameButFlags(Derived(rows, s), rows)
  {
  }

  lemma ChangedPosted(rows: Table, now: Table, i: nat, c: Change)
    requires SameButFlags(now, rows) && i < |rows|
    ensures IsPosted(Changed(now, i, c), rows, i, c)
  {
    assert SameButFlag(now[i], rows[i]);
  }

  /** The rows of the stream, each once and in the order of their ids. */
  ghost predicate RowsOf(channel: seq<Row>, rows: Table, s: Option<Stream>) {
    && (forall r :: r in channel <==> r in rows && s == Some(r.stream))
    && (ValidTable(rows) ==> forall i, j :: 0 <= i < j < |channel| ==> channel[i].id < channel[j].id)
  }

  lemma {:induction false} ChannelInOrder(rows: Table, s: Option<Stream>)
    ensures RowsOf(Channel(rows, s), rows, s)
  {
    if rows != [] {
      var front, last := rows[..|rows| - 1], rows[|rows| - 1];
      ChannelInOrder(front, s);
      assert rows == front + [last];
      assert forall i :: 0 <= i < |front| ==> front[i] == rows[i];
      if ValidTable(rows) {
        forall r | r in Channel(front, s)
          ensures r.id < last.id
        {
          var i :| 0 <= i < |front| && front[i] == r;
        }
      }
    }
  }

  /** A request for a region sets what it posts, and changes flags besides; any other changes flags only. */
  lemma RequestPosts(rows: Table, q: Request)
    ensures var i := RegionAt(rows, q.stream, q.roiId);
            if q.Post? && i >= 0 then IsPosted(After(rows, q), rows, i, q.change) else SameButFlags(After(rows, q), rows)
  {
    var d, i := Derived(rows, q.stream), RegionAt(rows, q.stream, q.roiId);
    DerivedSame(rows, q.stream);
    if q.Post? && i >= 0 {
      if q.change.Empty() {
        PostedThenFlags(d, rows, rows, i, q.change);
      } else {
        var e := Changed(d, i, q.change);
        ChangedPosted(rows, d, i, q.change);
        DerivedSame(e, q.stream);
        PostedThenFlags(Derived(e, q.stream), e, rows, i, q.change);
      }
    }
  }

  /** The table that the answer to a request is read from. */
  ghost function Answered(rows: Table, q: Request): Table {
    if q.Post? && !q.change.Empty() && RegionAt(rows, q.stream, q.roiId) >= 0
    then Changed(Derived(rows, q.stream), RegionAt(rows, q.stream, q.roiId), q.change) else rows
  }

  /** The region read from it: still with the flag from before, and otherwise as it will be. */
  lemma RequestAnswer(rows: Table, q: Request)
    requires AllConsistent(rows)
    ensures var i, before, after := RegionAt(rows, q.stream, q.roiId), Answered(rows, q), After(rows, q);
            (Region(before, q.stream, q.roiId).Some? <==> i >= 0) &&
            (i >= 0 ==>
               i < |after| && Region(before, q.stream, q.roiId) == Some(before[i]) && On(before[i], q.stream) &&
               before[i].roiId == q.roiId && before[i].streamEnabled == FlagOf(rows, q.stream) &&
               before[i].(streamEnabled := FlagOf(after, q.stream)) == after[i])
  {
    var s, i, before := q.stream, RegionAt(rows, q.stream, q.roiId), Answered(rows, q);
    assert Consistent(rows, s);
    DerivedFlag(rows, s, s);
    DerivedFlag(before, s, s);
    if before != rows {
      ChangedRegion(before, rows, s, q.roiId, i, q.change);
    }
  }

  class RoiTable {
    var rows: Table

    constructor ()
      ensures rows == Initial() && ValidTable(rows) && AllConsistent(rows)
    {
      rows := Initial();
      new;
      InitialConsistent();
    }

    /** `roi_channel_get`. */
    method ChannelGet(s: Option<Stream>) returns (channel: seq<Row>)
      ensures RowsOf(channel, rows, s)
      ensures channel == Channel(rows, s)
    {
      ChannelInOrder(rows, s);
      channel := [];
      for i := 0 to |rows|
        invariant channel == Channel(rows[..i], s)
      {
        assert rows[..i + 1][..i] == rows[..i];
        if On(rows[i], s) {
          channel := channel + [rows[i]];
        }
      }
      assert rows[..|rows|] == rows;
    }

    /** The flag written to one row. */
    method SetFlag(id: int, flag: int)
      requires 0 <= id < |rows|
      modifies this`rows
      ensures rows == old(rows)[id := old(rows)[id].(streamEnabled := flag)]
    {
      rows := rows[id := rows[id].(streamEnabled := flag)];
    }

    /** The last row of the channel with the id. */
    static method Find(channel: seq<Row>, roiId: int) returns (region: Option<Row>)
      ensures region == Last(channel, roiId)
    {
      region := None;
      for i := 0 to |channel|
        invariant region == Last(channel[..i], roiId)
      {
        assert channel[..i + 1][..i] == channel[..i];
        if channel[i].roiId == roiId {
          region := Some(channel[i]);
        }
      }
      assert channel[..|channel|] == channel;
    }

    /** The enabling values added up. */
    static method AddUp(channel: seq<Row>) returns (enabled: int)
      ensures enabled == Sum(channel)
    {
      enabled := 0;
      for i := 0 to |channel|
        invariant enabled == Sum(channel[..i])
      {
        assert channel[..i + 1][..i] == channel[..i];
        enabled := enabled + channel[i].roiEnabled;
      }
      assert channel[..|channel|] == channel;
    }

    /** `roi_specific_get`: the region as it was, and the flag of its stream brought up to date. */
    method SpecificGet(s: Option<Stream>, roiId: int) returns (region: Option<Row>)
      requires ValidTable(rows)
      modifies this`rows
      ensures rows == Derived(old(rows), s)
      ensures region == Region(old(rows), s, roiId)
    {
      var channel := ChannelGet(s);
      ChannelRegion(rows, s, roiId);
      region := Find(channel, roiId);
      var enabled := AddUp(channel);
      var flag := if enabled == 0 then 0 else 1;
      SetFlags(s, channel, flag);
    }

    method SetFlags(s: Option<Stream>, channel: seq<Row>, flag: int)
      requires ValidTable(rows) && channel == Channel(rows, s) && flag == FlagOf(rows, s)
      modifies this`rows
      ensures rows == Derived(old(rows), s)
    {
      ChannelIds(rows, s);
      for i := 0 to |channel|
        invariant |rows| == |old(rows)|
        invariant forall j :: 0 <= j < |rows| ==>
          rows[j] == if Reached(channel[..i], j) then old(rows)[j].(streamEnabled := flag) else old(rows)[j]
      {
        var id := channel[i].id;
        assert channel[i] in channel;
        SetFlag(id, flag);
        assert channel[..i + 1] == channel[..i] + [channel[i]];
        ReachedSnoc(channel[..i], channel[i]);
      }
      assert channel[..|channel|] == channel;
      assert rows == Derived(old(rows), s);
    }

    /** `roi_specific_set`; `false` is the exception for a region that does not exist. */
    method SpecificSet(s: Option<Stream>, roiId: int, c: Change) returns (ok: bool)
      requires ValidTable(rows)
      modifies this`rows
      ensures ok <==> RegionAt(old(rows), s, roiId) >= 0
      ensures if ok then IsPosted(rows, old(rows), RegionAt(old(rows), s, roiId), c) else SameButFlags(rows, old(rows))
      ensures rows == if ok then Changed(Derived(old(rows), s), RegionAt(old(rows), s, roiId), c) else Derived(old(rows), s)
    {
      DerivedSame(rows, s);
      if RegionAt(rows, s, roiId) >= 0 {
        ChangedPosted(rows, Derived(rows, s), RegionAt(rows, s, roiId), c);
      }
      var region := SpecificGet(s, roiId);
      if region.None? {
        return false;
      }
      var id := region.value.id;
      rows := rows[id := c.Applied(rows[id])];
      ok := true;
    }

    /** A request: the region it answers with, unless it throws. The answer still shows the flag from before. */
    method Handle(q: Request) returns (answer: Option<Row>)
      requires ValidTable(rows) && AllConsistent(rows)
      modifies this`rows
      ensures rows == After(old(rows), q)
      ensures ValidTable(rows) && AllConsistent(rows) && SameElsewhere(old(rows), rows, q.stream)
      ensures answer.Some? <==> RegionAt(old(rows), q.stream, q.roiId) >= 0
      ensures if q.Post? && answer.Some? then IsPosted(rows, old(rows), RegionAt(old(rows), q.stream, q.roiId), q.change)
              else SameButFlags(rows, old(rows))
      ensures answer.Some? ==> Some(answer.value.stream) == q.stream && answer.value.roiId == q.roiId
      ensures answer.Some? ==> answer.value.streamEnabled == FlagOf(old(rows), q.stream)
      ensures answer.Some? ==> answer.value.(streamEnabled := FlagOf(rows, q.stream)) == rows[RegionAt(old(rows), q.stream, q.roiId)]
    {
      RequestConsistent(rows, q);
      RequestPosts(rows, q);
      RequestAnswer(rows, q);
      match q
      case Get(s, roiId) =>
        answer := SpecificGet(s, roiId);
      case Post(s, roiId, c) =>
        if !c.Empty() {
          var ok := SpecificSet(s, roiId, c);
          if !ok {
            return None;
          }
        }
        answer := SpecificGet(s, roiId);
    }
  }

  function Last(rows: seq<Row>, roiId: int): Option<Row> {
    if rows == [] then None
    else if rows[|rows| - 1].roiId == roiId then Some(rows[|rows| - 1])
    else Last(rows[..|rows| - 1], roiId)
  }

  /** The last matching row of the channel is the region. */
  lemma {:induction false} ChannelRegion(rows: Table, s: Option<Stream>, roiId: int)
    ensures Last(Channel(rows, s), roiId) == Region(rows, s, roiId)
  {
    if rows != [] {
      var front, last := rows[..|rows| - 1], rows[|rows| - 1];
      ChannelRegion(front, s, roiId);
      if On(last, s) {
        assert (Channel(front, s) + [last])[..|Channel(front, s)|] == Channel(front, s);
      } else {
        assert Channel(rows, s) == Channel(front, s) + [] == Channel(front, s);
      }
    }
  }

  /** The channel names exactly the rows of the stream. */
  ghost predicate Reached(channel: seq<Row>, j: int) {
    exists r :: r in channel && r.id == j
  }

  lemma ReachedSnoc(channel: seq<Row>, r: Row)
    ensures forall j :: Reached(channel + [r], j) <==> Reached(channel, j) || j == r.id
  {
    assert r in channel + [r];
  }

  lemma {:induction false} ChannelIds(rows: Table, s: Option<Stream>)
    requires ValidTable(rows)
    ensures forall r :: r in Channel(rows, s) ==> 0 <= r.id < |rows|
    ensures forall j :: 0 <= j < |rows| ==> (Reached(Channel(rows, s), j) <==> On(rows[j], s))
  {
    if rows != [] {
      var front, last := rows[..|rows| - 1], rows[|rows| - 1];
      ChannelIds(front, s);
      assert forall j :: 0 <= j < |front| ==> front[j] == rows[j];
      if On(last, s) {
        ReachedSnoc(Channel(front, s), last);
      } else {
        assert Channel(rows, s) == Channel(front, s);
      }
      assert !Reached(Channel(front, s), |rows| - 1);
    }
  }

  lemma {:induction false} SameRegion(a: Table, b: Table, s: Option<Stream>, roiId: int)
    requires |a| == |b| && forall i :: 0 <= i < |a| ==> a[i].stream == b[i].stream && a[i].roiId == b[i].roiId
    ensures RegionAt(a, s, roiId) == RegionAt(b, s, roiId)
  {
    if a != [] {
      SameRegion(a[..|a| - 1], b[..|b| - 1], s, roiId);
    }
  }

  lemma ChangedRegion(after: Table, before: Table, s: Option<Stream>, roiId: int, i: nat, c: Change)
    requires i < |before| && after == Changed(Derived(before, s), i, c)
    ensures RegionAt(after, s, roiId) == RegionAt(before, s, roiId)
  {
    SameRegion(after, before, s, roiId);
  }
}
