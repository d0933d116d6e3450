/** Strings as UTF-16: `String.fromCodePoint`, `codeAt`/`charAt` and the string iterator of core-js. */
module Utf16 {
  import opened Wrappers
  import opened Indices

  /** A code unit, and a code point. */
  type Unit = x: int | 0 <= x < 65536

  type CodePoint = x: int | 0 <= x <= 1114111

  type Text = seq<Unit>

  datatype Number = NaN | Infinite(positive: bool) | Finite(value: real)

  datatype Error = RangeError(offender: Number)

  predicate High(x: int) {
    55296 <= x <= 56319
  }

  predicate Low(x: int) {
    56320 <= x <= 57343
  }

  /** The units of one code point. */
  function Encode(c: CodePoint): (t: Text)
    ensures |t| == (if c < 65536 then 1 else 2)
    ensures c >= 65536 ==> High(t[0]) && Low(t[1])
  {
    if c < 65536 then [c] else var e := c - 65536; [55296 + e / 1024, e % 1024 + 56320]
  }

  /** A surrogate pair carries the high and the low ten bits of what exceeds 0xFFFF; any other code point is its own unit. */
  lemma EncodedHalves(c: CodePoint)
    ensures var t := Encode(c);
            if c < 65536 then t == [c]
            else |t| == 2 && 1024 * (t[0] as int - 55296) + (t[1] as int - 56320) == c as int - 65536
  {
  }

  function Encoded(cs: seq<CodePoint>): Text {
    if cs == [] then [] else Encode(cs[0]) + Encoded(cs[1..])
  }

  /** `toAbsoluteIndex` of a number, which `fromCodePoint` uses to test its arguments. */
  function Clamp(x: Number, length: nat): (r: int)
    ensures 0 <= r <= length
  {
    match x
    case NaN => 0
    case Infinite(positive) => if positive then length else 0
    case Finite(v) => AbsoluteIndex(Truncated(v), length)
  }

  predicate IsPoint(x: Number, c: CodePoint) {
    x == Finite(c as real)
  }

  /** The guard of `fromCodePoint`. */
  predicate Accepted(x: Number) {
    x == Finite(Clamp(x, 1114111) as real)
  }

  /** The test lets exactly the code points through: the wrap-around of negative indices never returns its argument. */
  lemma AcceptedIsCodePoint(x: Number)
    ensures Accepted(x) <==> exists c: CodePoint :: IsPoint(x, c)
  {
    if c: CodePoint :| IsPoint(x, c) {
      assert Truncated(c as real) == c;
      assert Clamp(x, 1114111) == c;
    }
    if Accepted(x) {
      var c: CodePoint := Clamp(x, 1114111);
      assert IsPoint(x, c);
    }
  }

  function Point(x: Number): (c: CodePoint)
    requires Accepted(x)
    ensures IsPoint(x, c)
  {
    Clamp(x, 1114111)
  }

  function Points(xs: seq<Number>): (cs: seq<CodePoint>)
    requires forall i :: 0 <= i < |xs| ==> Accepted(xs[i])
    ensures |cs| == |xs| && forall i :: 0 <= i < |xs| ==> IsPoint(xs[i], cs[i])
  {
    seq(|xs|, i requires 0 <= i < |xs| => Point(xs[i]))
  }

  lemma EncodedSnoc(cs: seq<CodePoint>, c: CodePoint)
    ensures Encoded(cs + [c]) == Encoded(cs) + Encode(c)
  {
    if cs == [] {
      assert cs + [c] == [c];
      assert Encoded([c]) == Encode(c) + [] == Encode(c);
    } else {
      EncodedSnoc(cs[1..], c);
      assert (cs + [c])[1..] == cs[1..] + [c];
      assert Encode(cs[0]) + (Encoded(cs[1..]) + Encode(c)) == Encode(cs[0]) + Encoded(cs[1..]) + Encode(c);
    }
  }

  ghost predicate FirstRejected(xs: seq<Number>, i: nat)
    requires i < |xs|
  {
    !Accepted(xs[i]) && forall j :: 0 <= j < i ==> Accepted(xs[j])
  }

  method FromCodePoint(xs: seq<Number>) returns (r: Result<Text, Error>)
    ensures r.Ok? <==> forall i :: 0 <= i < |xs| ==> Accepted(xs[i])
    ensures r.Ok? ==> r.value == Encoded(Points(xs))
    ensures r.Fail? ==> exists i :: 0 <= i < |xs| && FirstRejected(xs, i) && r.error.offender == xs[i]
  {
    var n: Text, a := [], 0;
    while |xs| > a
      invariant 0 <= a <= |xs|
      invariant forall i :: 0 <= i < a ==> Accepted(xs[i])
      invariant n == Encoded(Points(xs[..a]))
    {
      var x := xs[a];
      var e := Clamp(x, 1114111);
      if Finite(e as real) != x {
        assert FirstRejected(xs, a);
        return Fail(RangeError(x));
      }
      EncodedSnoc(Points(xs[..a]), e);
      assert Points(xs[..a + 1]) == Points(xs[..a]) + [e];
      if e < 65536 {
        n := n + [e];
      } else {
        e := e - 65536;
        n := n + [55296 + e / 1024, e % 1024 + 56320];
      }
      a := a + 1;
    }
    assert xs[..a] == xs;
    r := Ok(n);
  }

  /** The code unit at `i`, or the surrogate pair that begins there. */
  function CharAt(s: Text, i: int): (t: Text)
    ensures 0 <= i < |s| ==> 1 <= |t| && i + |t| <= |s| && t == s[i..i + |t|]
    ensures |t| == 2 <==> 0 <= i && i + 1 < |s| && High(s[i]) && Low(s[i + 1])
  {
    if i < 0 || i >= |s| then []
    else if !High(s[i]) || i + 1 == |s| || !Low(s[i + 1]) then [s[i]]
    else s[i..i + 2]
  }

  function CodeAt(s: Text, i: int): Option<CodePoint> {
    if i < 0 || i >= |s| then None
    else if !High(s[i]) || i + 1 == |s| || !Low(s[i + 1]) then Some(s[i])
    else
      var hi: int, lo: int := s[i] - 55296, s[i + 1] - 56320;
      Some(lo + hi * 1024 + 65536)
  }

  /** The piece at a position is the encoding of the code there. */
  lemma CharIsEncodedCode(s: Text, i: nat)
    requires i < |s|
    ensures CodeAt(s, i).Some? && CharAt(s, i) == Encode(CodeAt(s, i).value)
  {
    if |CharAt(s, i)| == 2 {
      var hi: int, lo: int := s[i] - 55296, s[i + 1] - 56320;
      assert (lo + hi * 1024) / 1024 == hi && (lo + hi * 1024) % 1024 == lo;
    }
  }

  /** What is read at the front of an encoding: the code point, unless a low surrogate follows a high one. */
  lemma CodeOfEncoded(c: CodePoint, rest: Text)
    ensures CodeAt(Encode(c) + rest, 0) == Some(c) <==> !(High(c) && rest != [] && Low(rest[0]))
    ensures CodeAt(Encode(c) + rest, 0) == Some(c) ==> CharAt(Encode(c) + rest, 0) == Encode(c)
  {
    var t := Encode(c) + rest;
    if c >= 65536 {
      assert t[0] == 55296 + (c - 65536) / 1024 && t[1] == (c - 65536) % 1024 + 56320;
      assert t[..2] == Encode(c);
    } else if rest != [] {
      assert t[1] == rest[0];
    }
  }

  /** What iterating over `s` yields. */
  function Pieces(s: Text): seq<Text> {
    if s == [] then [] else var t := CharAt(s, 0); [t] + Pieces(s[|t|..])
  }

  function Codes(s: Text): seq<CodePoint> {
    if s == [] then [] else [CodeAt(s, 0).value] + Codes(s[|CharAt(s, 0)|..])
  }

  function Joined(ts: seq<Text>): Text {
    if ts == [] then [] else ts[0] + Joined(ts[1..])
  }

  /** The pieces of any string put together are the string. */
  lemma {:induction false} PiecesJoin(s: Text)
    ensures Joined(Pieces(s)) == s
    decreases |s|
  {
    if s != [] {
      var t := CharAt(s, 0);
      PiecesJoin(s[|t|..]);
      JoinedCons(t, Pieces(s[|t|..]));
      assert s == t + s[|t|..];
    }
  }

  lemma JoinedCons(t: Text, ts: seq<Text>)
    ensures Joined([t] + ts) == t + Joined(ts)
  {
    assert ([t] + ts)[1..] == ts;
  }

  lemma EncodedCons(c: CodePoint, cs: seq<CodePoint>)
    ensures Encoded([c] + cs) == Encode(c) + Encoded(cs)
  {
    assert ([c] + cs)[1..] == cs;
  }

  /** Every string is the encoding of its codes: nothing is lost, unpaired surrogates included. */
  lemma {:induction false} EncodedCodes(s: Text)
    ensures Encoded(Codes(s)) == s
    decreases |s|
  {
    if s != [] {
      var t := CharAt(s, 0);
      EncodedCodes(s[|t|..]);
      CharIsEncodedCode(s, 0);
      EncodedCons(CodeAt(s, 0).value, Codes(s[|t|..]));
      assert s == t + s[|t|..];
    }
  }

  /** A high surrogate next to a low one: two code points that merge into a third. */
  ghost predicate MergesAt(cs: seq<CodePoint>, i: nat) {
    i + 1 < |cs| && High(cs[i]) && Low(cs[i + 1])
  }

  lemma FrontOfEncoded(cs: seq<CodePoint>)
    ensures Encoded(cs) == [] <==> cs == []
    ensures cs != [] ==> (Low(Encoded(cs)[0]) <==> Low(cs[0]))
  {
  }

  /** Iterating over a built string gives the code points back exactly when no two of them merge. */
  lemma {:induction false} CodesEncoded(cs: seq<CodePoint>)
    ensures Codes(Encoded(cs)) == cs <==> forall i: nat :: !MergesAt(cs, i)
  {
    if cs != [] {
      var c, rest := cs[0], Encoded(cs[1..]);
      var s := Encoded(cs);
      CodesEncoded(cs[1..]);
      FrontOfEncoded(cs[1..]);
      CodeOfEncoded(c, rest);
      assert s != [];
      assert forall i: nat :: MergesAt(cs[1..], i) ==> MergesAt(cs, i + 1);
      assert forall i: nat :: MergesAt(cs, i) && i > 0 ==> MergesAt(cs[1..], i - 1);
      assert MergesAt(cs, 0) <==> CodeAt(s, 0) != Some(c);
      if MergesAt(cs, 0) {
        CharIsEncodedCode(s, 0);
        assert Codes(s)[0] != cs[0];
      } else {
        assert s[|Encode(c)|..] == rest;
        assert Codes(s) == [c] + Codes(rest);
        assert Codes(s)[1..] == Codes(rest);
        assert cs == [c] + cs[1..];
      }
    }
  }

  /** For code points that are no surrogates the round trip always holds. */
  lemma RoundTrip(cs: seq<CodePoint>)
    requires forall i :: 0 <= i < |cs| ==> !High(cs[i]) && !Low(cs[i])
    ensures Codes(Encoded(cs)) == cs
  {
    CodesEncoded(cs);
  }

  class StringIterator {
    const text: Text
    var index: nat

    ghost predicate Valid()
      reads this
    {
      index <= |text|
    }

    /** What is still to come. */
    ghost function Remaining(): seq<Text>
      reads this
      requires Valid()
    {
      Pieces(text[index..])
    }

    constructor (s: Text)
      ensures Valid() && text == s && index == 0 && Remaining() == Pieces(s)
    {
      text, index := s, 0;
      new;
      assert text[0..] == s;
    }

    /** `None` is an exhausted iterator. */
    method Next() returns (r: Option<Text>)
      requires Valid()
      modifies this`index
      ensures Valid()
      ensures r.None? <==> old(Remaining()) == []
      ensures old(Remaining()) == (if r.None? then [] else [r.value]) + Remaining()
      ensures Joined(old(Remaining())) == (if r.None? then [] else r.value) + text[index..]
    {
      PiecesJoin(text[index..]);
      if index >= |text| {
        return None;
      }
      var t := CharAt(text, index);
      assert CharAt(text[index..], 0) == t;
      assert text[index..][|t|..] == text[index + |t|..];
      index := index + |t|;
      r := Some(t);
    }
  }
}
