/** `Number.prototype.toFixed` of the bundled core-js: a bignum of six base-10^7 limbs.

    The limbs are multiplied and divided in place. Every value the code keeps in a JavaScript
    number is declared `Safe` here, so the verifier also proves that it stays within 2^53 - 1.
 */
module ToFixed {
  import opened Wrappers
  import opened Decimals

  const BASE := 10000000
  const LIMBS := 6
  const MAX_SAFE := 9007199254740991

  /** A number a double represents exactly. */
  type Safe = x: int | 0 <= x <= MAX_SAFE

  datatype Error = RangeError

  /** The receiver: `n / 2^e` with an optional minus sign, NaN, or a magnitude of at least 10^21 with its text. */
  datatype Number =
    | NaN
    | Huge(text: string)
    | Finite(negative: bool, n: nat, e: int)

  // ---------------------------------------------------------------- powers and limbs

  function Pow(b: nat, k: nat): (r: nat)
    ensures b > 0 ==> r > 0
  {
    if k == 0 then 1 else b * Pow(b, k - 1)
  }

  lemma {:induction false} PowSum(b: nat, i: nat, j: nat)
    ensures Pow(b, i + j) == Pow(b, i) * Pow(b, j)
  {
    if i > 0 {
      PowSum(b, i - 1, j);
      MulAssoc(b, Pow(b, i - 1), Pow(b, j));
    }
  }

  lemma {:induction false} PowMonotone(b: nat, i: nat, j: nat)
    requires b > 0 && i <= j
    ensures Pow(b, i) <= Pow(b, j)
  {
    PowSum(b, i, j - i);
    assert Pow(b, i) * 1 <= Pow(b, i) * Pow(b, j - i);
  }

  predicate IsLimbs(p: seq<Safe>) {
    |p| == LIMBS && forall i :: 0 <= i < LIMBS ==> p[i] < BASE
  }

  /** The number a little-endian limb sequence stands for. */
  function Value(p: seq<nat>): (v: nat)
  {
    if p == [] then 0 else p[0] + BASE * Value(p[1..])
  }

  lemma {:induction false} ValueBound(p: seq<nat>)
    requires forall i :: 0 <= i < |p| ==> p[i] < BASE
    ensures Value(p) < Pow(BASE, |p|)
  {
    if p != [] {
      ValueBound(p[1..]);
    }
  }

  // ---------------------------------------------------------------- the limb operations

  /** The limbs of `t * p + r`, least significant first, and what is carried out of them. */
  ghost function Product(p: seq<Safe>, t: nat, r: nat): (q: seq<nat>)
    ensures |q| == |p| && forall i :: 0 <= i < |q| ==> q[i] < BASE
  {
    if p == [] then [] else [(r + t * p[0]) % BASE] + Product(p[1..], t, (r + t * p[0]) / BASE)
  }

  ghost function CarryOut(p: seq<Safe>, t: nat, r: nat): nat {
    if p == [] then r else CarryOut(p[1..], t, (r + t * p[0]) / BASE)
  }

  lemma ProductUnfolds(p: seq<Safe>, n: nat, t: nat, r: nat, digit: nat, carry: nat)
    requires n < |p| && digit == (r + t * p[n]) % BASE && carry == (r + t * p[n]) / BASE
    ensures Product(p[n..], t, r) == [digit] + Product(p[n + 1..], t, carry)
    ensures CarryOut(p[n..], t, r) == CarryOut(p[n + 1..], t, carry)
  {
    assert p[n..][1..] == p[n + 1..];
  }

  /** No carry is lost: limbs and carry together are the exact product. */
  lemma {:induction false} ProductIsExact(p: seq<Safe>, t: nat, r: nat)
    ensures Value(Product(p, t, r)) + Pow(BASE, |p|) * CarryOut(p, t, r) == t * Value(p) + r
  {
    if p != [] {
      var y := r + t * p[0];
      var rest, w, c := Product(p[1..], t, y / BASE), Pow(BASE, |p| - 1), CarryOut(p, t, r);
      ProductIsExact(p[1..], t, y / BASE);
      assert Product(p, t, r)[1..] == rest;
      calc {
        Value(Product(p, t, r)) + Pow(BASE, |p|) * c;
        y % BASE + BASE * Value(rest) + (BASE * w) * c;
        { MulAssoc(BASE, w, c); }
        y % BASE + BASE * (Value(rest) + w * c);
        y % BASE + BASE * (t * Value(p[1..]) + y / BASE);
        y + BASE * (t * Value(p[1..]));
        { MulSwap(BASE, t, Value(p[1..])); }
        r + t * p[0] + t * (BASE * Value(p[1..]));
        { MulDistributes(t, p[0], BASE * Value(p[1..])); }
        t * Value(p) + r;
      }
    }
  }

  /** Six limbs keep the product modulo 10^42. */
  lemma ProductModulo(p: seq<Safe>, t: nat, e: nat)
    ensures Value(Product(p, t, e)) == (t * Value(p) + e) % Pow(BASE, |p|)
    ensures t * Value(p) + e < Pow(BASE, |p|) ==> Value(Product(p, t, e)) == t * Value(p) + e
  {
    var v, c, m, x := Value(Product(p, t, e)), CarryOut(p, t, e), Pow(BASE, |p|), t * Value(p) + e;
    assert x == v + m * c by { ProductIsExact(p, t, e); }
    assert v < m by { ValueBound(Product(p, t, e)); }
    ModUnique(v, c, m, x);
  }

  lemma DivSmall(v: nat, w: nat)
    requires v < w
    ensures v / w == 0
  {
  }

  lemma Euclid(v: nat, w: nat)
    requires w > 0
    ensures v == (v / w) * w + v % w
  {
  }

  lemma MulAssoc(a: int, b: int, c: int)
    ensures (a * b) * c == a * (b * c)
  {
  }

  lemma MulSwap(a: int, b: int, c: int)
    ensures a * (b * c) == b * (a * c)
  {
  }

  lemma MulDistributes(a: int, b: int, c: int)
    ensures a * (b + c) == a * b + a * c
  {
  }

  /** Multiplies the limbs by `t` and adds `e`, exactly whenever the result fits in six limbs. */
  method Multiply(p: array<Safe>, t: Safe, e: Safe)
    requires p.Length == LIMBS && IsLimbs(p[..])
    requires (if e < t then t else e) + t * (BASE - 1) <= MAX_SAFE
    modifies p
    ensures IsLimbs(p[..])
    ensures t * Value(old(p[..])) + e < Pow(BASE, LIMBS) ==> Value(p[..]) == t * Value(old(p[..])) + e
  {
    ghost var was := p[..];
    var top := if e < t then t else e;
    var r: Safe := e;
    var n := 0;
    while n < 6
      invariant 0 <= n <= 6
      invariant r <= top
      invariant forall i :: n <= i < 6 ==> p[i] == was[i]
      invariant p[..n] + Product(was[n..], t, r) == Product(was, t, e)
      invariant CarryOut(was[n..], t, r) == CarryOut(was, t, e)
    {
      CarryBound(r, top, t, p[n]);
      var y: Safe := r + t * p[n];
      var digit: Safe, carry: Safe := y % BASE, y / BASE;
      ProductUnfolds(was, n, t, r, digit, carry);
      ghost var done, rest := p[..n], Product(was[n + 1..], t, carry);
      assert (done + [digit]) + rest == done + ([digit] + rest);
      p[n], r := digit, carry;
      assert p[..n + 1] == done + [digit];
      n := n + 1;
    }
    assert p[..] == Product(was, t, e);
    ProductModulo(was, t, e);
  }

  /** The carry never outgrows the larger of the multiplier and the first addend. */
  lemma CarryBound(r: nat, top: nat, t: nat, x: nat)
    requires r <= top && t <= top && x < BASE
    requires top + t * (BASE - 1) <= MAX_SAFE
    ensures 0 <= r + t * x <= MAX_SAFE
    ensures (r + t * x) / BASE <= top
  {
    MulMonotone(t, x, BASE - 1);
    MulMonotone(t, 0, x);
  }

  lemma MulMonotone(c: nat, a: int, b: int)
    requires a <= b
    ensures c * a <= c * b
  {
  }

  lemma ModUnique(v: nat, q: nat, m: nat, x: nat)
    requires 0 < m && v < m && x == v + m * q
    ensures v == x % m
    ensures x < m ==> v == x
  {
    DivModUnique(x, m, q, v);
    assert q > 0 ==> m * q >= m;
  }

  lemma DivModUnique(x: int, m: int, q: int, r: int)
    requires 0 <= r < m && x == m * q + r
    ensures x / m == q && x % m == r
  {
    var d := x / m - q;
    assert x == m * (x / m) + x % m;
    assert m * d == m * (x / m) - m * q;
    assert m * d == r - x % m;
    assert d >= 1 ==> m * d >= m;
    assert d <= -1 ==> m * d <= -m;
  }

  /** Divides the limbs by `t`, most significant limb first, keeping the quotient. */
  method Divide(p: array<Safe>, t: Safe)
    requires p.Length == LIMBS && IsLimbs(p[..])
    requires 0 < t && t * BASE <= MAX_SAFE
    modifies p
    ensures IsLimbs(p[..])
    ensures Value(p[..]) == Value(old(p[..])) / t
  {
    ghost var was := p[..];
    ghost var rem: nat := 0;
    var n: Safe := 0;
    var e := 6;
    while e > 0
      invariant 0 <= e <= 6
      invariant n == rem * BASE && rem < t
      invariant forall i :: 0 <= i < e ==> p[i] == was[i]
      invariant forall i :: 0 <= i < 6 ==> p[i] < BASE
      invariant Value(was[e..]) == t * Value(p[e..]) + rem
    {
      e := e - 1;
      ghost var above := p[e + 1..];
      var q, m := DivideOne(n, p[e], t, rem);
      DivideStep(was[e..], [q] + above, t, rem, m);
      p[e], n, rem := q, m * BASE, m;
      assert p[e..] == [q] + above;
    }
    assert p[0..] == p[..] && was[0..] == was;
    DivModUnique(Value(was), t, Value(p[..]), rem);
  }

  /** One limb with the remainder of those above it. */
  method DivideOne(n: Safe, limb: Safe, t: Safe, ghost rem: nat) returns (q: Safe, m: Safe)
    requires n == rem * BASE && rem < t && limb < BASE && t * BASE <= MAX_SAFE
    ensures q < BASE && m < t && m * BASE <= MAX_SAFE
    ensures q * t + m == rem * BASE + limb
  {
    RemainderBound(rem, t, limb);
    var x: Safe := n + limb;
    q, m := x / t, x % t;
  }

  /** A remainder below `t` shifted by one limb stays a safe integer, and so does its quotient. */
  lemma RemainderBound(rem: nat, t: nat, limb: nat)
    requires rem < t && limb < BASE && t * BASE <= MAX_SAFE
    ensures 0 <= rem * BASE + limb < t * BASE
    ensures var x := rem * BASE + limb; x / t < BASE && x == (x / t) * t + x % t
    ensures 0 <= (rem * BASE + limb) % t * BASE <= MAX_SAFE
  {
    var x := rem * BASE + limb;
    var q := x / t;
    MulMonotone(BASE, rem + 1, t);
    Euclid(x, t);
    assert q >= BASE ==> q * t >= BASE * t;
    MulMonotone(BASE, x % t, t);
  }

  /** The loop invariant of `Divide` across one limb. */
  lemma DivideStep(was: seq<nat>, now: seq<nat>, t: nat, rem: nat, m: nat)
    requires was != [] && now != [] && now[0] * t + m == rem * BASE + was[0]
    requires Value(was[1..]) == t * Value(now[1..]) + rem
    ensures Value(was) == t * Value(now) + m
  {
    DivideLimb(was[1..], now[1..], was[0], t, rem, now[0], m);
    assert was == [was[0]] + was[1..] && now == [now[0]] + now[1..];
  }

  lemma DivideLimb(below: seq<nat>, above: seq<nat>, limb: nat, t: nat, rem: nat, q: nat, m: nat)
    requires q * t + m == rem * BASE + limb
    requires Value(below) == t * Value(above) + rem
    ensures Value([limb] + below) == t * Value([q] + above) + m
  {
    ValueCons(limb, below);
    ValueCons(q, above);
    DivideArithmetic(q, t, m, rem, limb, Value(above), Value(below), Value([q] + above), Value([limb] + below));
  }

  lemma ValueCons(limb: nat, p: seq<nat>)
    ensures Value([limb] + p) == limb + BASE * Value(p)
  {
    assert ([limb] + p)[1..] == p;
  }

  lemma DivideArithmetic(q: nat, t: nat, m: nat, rem: nat, limb: nat, v: nat, u: nat, w: nat, x: nat)
    requires q * t + m == rem * BASE + limb && u == t * v + rem
    requires w == q + BASE * v && x == limb + BASE * u
    ensures x == t * w + m
  {
    MulSwap(BASE, t, v);
    MulDistributes(t, q, BASE * v);
    assert t * w == t * (q + BASE * v);
    Collect(limb, rem, m, q * t, t * v, t * (BASE * v), t * w);
  }

  lemma Collect(limb: int, rem: int, m: int, qt: int, tv: int, tbv: int, whole: int)
    requires qt + m == rem * BASE + limb && BASE * tv == tbv && whole == qt + tbv
    ensures limb + BASE * (tv + rem) == whole + m
  {
  }

  // ---------------------------------------------------------------- decimal text

  function Zeros(k: nat): (s: string)
    ensures |s| == k && forall i :: 0 <= i < k ==> s[i] == '0'
  {
    seq(k, _ => '0')
  }

  /** The last `k` decimal digits of `n`, zeros included. */
  function Digits(n: nat, k: nat): (s: string)
    ensures |s| == k
  {
    if k == 0 then [] else Digits(n / 10, k - 1) + [Digit(n % 10)]
  }

  lemma {:induction false} DigitsRead(n: nat, k: nat)
    ensures AllDigits(Digits(n, k)) && Read(Digits(n, k)) == n % Pow(10, k)
  {
    if k == 0 {
      assert n % 1 == 0;
    } else {
      DigitsRead(n / 10, k - 1);
      ReadSnoc(Digits(n / 10, k - 1), n % 10);
      SplitMod(n, Pow(10, k - 1));
    }
  }

  /** Peeling the last digit commutes with taking a remainder by a power of ten. */
  lemma SplitMod(n: nat, m: nat)
    requires m > 0
    ensures n % (10 * m) == (n / 10 % m) * 10 + n % 10
    ensures n / (10 * m) == n / 10 / m
  {
    var h := n / 10;
    assert h == m * (h / m) + h % m;
    assert n == 10 * h + n % 10;
    assert 10 * (m * (h / m)) == (10 * m) * (h / m);
    assert h % m <= m - 1;
    DivModUnique(n, 10 * m, h / m, (h % m) * 10 + n % 10);
  }

  /** Appending k digits to the text of a positive number. */
  lemma {:induction false} DecimalAppend(n: nat, k: nat)
    requires n >= Pow(10, k)
    ensures n / Pow(10, k) > 0
    ensures Decimal(n) == Decimal(n / Pow(10, k)) + Digits(n, k)
  {
    if k == 0 {
      assert n / 1 == n;
      assert Decimal(n) + [] == Decimal(n);
    } else {
      var m := Pow(10, k - 1);
      SplitMod(n, m);
      assert n >= 10 * m && m > 0;
      assert n / 10 >= m;
      DecimalAppend(n / 10, k - 1);
      assert Decimal(n) == Decimal(n / 10) + [Digit(n % 10)];
    }
  }

  /** Padding the text of a short number with zeros gives its fixed-width digits. */
  lemma {:induction false} PadDigits(n: nat, k: nat)
    requires k > 0 && n < Pow(10, k)
    ensures |Decimal(n)| <= k && Zeros(k - |Decimal(n)|) + Decimal(n) == Digits(n, k)
  {
    if n < 10 {
      ZeroDigits(k - 1);
      assert n / 10 == 0;
    } else {
      assert Pow(10, 1) == 10;
      assert n / 10 < Pow(10, k - 1);
      PadDigits(n / 10, k - 1);
      var z := Zeros(k - |Decimal(n)|);
      assert z + (Decimal(n / 10) + [Digit(n % 10)]) == (z + Decimal(n / 10)) + [Digit(n % 10)];
    }
  }

  lemma {:induction false} ZeroDigits(k: nat)
    ensures Digits(0, k) == Zeros(k)
  {
    if k > 0 {
      ZeroDigits(k - 1);
    }
  }

  /** Only the digits below 10^k matter to the last k digits. */
  lemma {:induction false} DigitsMod(n: nat, k: nat)
    ensures Digits(n, k) == Digits(n % Pow(10, k), k)
  {
    if k > 0 {
      var m := Pow(10, k - 1);
      SplitMod(n, m);
      var r := n % (10 * m);
      assert r / 10 == n / 10 % m && r % 10 == n % 10;
      DigitsMod(n / 10, k - 1);
    }
  }

  /** Prints the limbs, most significant first, suppressing leading zeros. */
  method Print(p: array<Safe>) returns (e: string)
    requires p.Length == LIMBS && IsLimbs(p[..])
    ensures e == Decimal(Value(p[..]))
  {
    e := "";
    var t := 6;
    assert p[6..] == [];
    while t > 0
      invariant 0 <= t <= 6
      invariant if t > 0 && Value(p[t..]) == 0 then e == "" else e == Decimal(Value(p[t..]))
    {
      t := t - 1;
      assert p[t..][1..] == p[t + 1..];
      e := PrintLimb(e, t, p[t], Value(p[t + 1..]), Value(p[t..]));
    }
    assert p[0..] == p[..];
  }

  /** One limb, unless it is a leading zero: alone while nothing is printed yet, padded behind what is. */
  method PrintLimb(e: string, t: nat, limb: nat, ghost upper: nat, ghost v: nat) returns (r: string)
    requires v == limb + BASE * upper && limb < BASE && e == if upper == 0 then "" else Decimal(upper)
    ensures r == if t > 0 && v == 0 then "" else Decimal(v)
  {
    if e == "" && t != 0 && limb == 0 {
      return "";
    }
    PrintStep(v, upper, limb, e);
    r := Behind(e, Decimal(limb));
  }

  /** A limb's digits behind what has been printed. */
  function Behind(e: string, n: string): string
    requires |n| <= 7
  {
    if e == "" then n else e + Zeros(7 - |n|) + n
  }

  lemma AppendPadded(a: string, b: string, c: string)
    ensures a + (b + c) == a + b + c
  {
  }

  lemma PrintPadded(limb: nat)
    requires limb < BASE
    ensures |Decimal(limb)| <= 7 && Zeros(7 - |Decimal(limb)|) + Decimal(limb) == Digits(limb, 7)
  {
    Pow10At7();
    PadDigits(limb, 7);
  }

  lemma PrintStep(v: nat, upper: nat, limb: nat, e: string)
    requires v == limb + BASE * upper && limb < BASE && e == if upper == 0 then "" else Decimal(upper)
    ensures |Decimal(limb)| <= 7
    ensures Behind(e, Decimal(limb)) == Decimal(v)
  {
    PrintPadded(limb);
    if upper > 0 {
      PrintBehind(v, upper, limb);
    }
  }

  lemma PrintBehind(v: nat, upper: nat, limb: nat)
    requires v == limb + BASE * upper && upper > 0 && limb < BASE && |Decimal(limb)| <= 7
    requires Zeros(7 - |Decimal(limb)|) + Decimal(limb) == Digits(limb, 7)
    ensures Decimal(v) == Decimal(upper) + Zeros(7 - |Decimal(limb)|) + Decimal(limb)
  {
    Pow10At7();
    DivModUnique(v, BASE, upper, limb);
    DecimalAppend(v, 7);
    DigitsMod(v, 7);
    AppendPadded(Decimal(upper), Zeros(7 - |Decimal(limb)|), Decimal(limb));
  }

  // ---------------------------------------------------------------- what toFixed should return

  /** `v / d` rounded to an integer, halves upwards. */
  function Rounded(v: nat, d: nat): nat
    requires d > 0
  {
    (2 * v + d) / (2 * d)
  }

  /** How far `m` is from `v / d`, in units of `1 / d`. */
  function Distance(m: int, v: nat, d: nat): (r: int)
    ensures r >= 0
  {
    if m * d >= v then m * d - v else v - m * d
  }

  /** The integer section 21.1.3.3 of ECMA-262 asks for: the closest one, the larger of two equally close. */
  lemma RoundedIsNearest(v: nat, d: nat, m: int)
    requires d > 0
    ensures var r := Rounded(v, d);
            Distance(r, v, d) <= Distance(m, v, d) && (Distance(m, v, d) == Distance(r, v, d) ==> m <= r)
  {
    RoundedBand(v, d);
    NearestFromBand(Rounded(v, d), v, d, m);
  }

  lemma NearestFromBand(r: nat, v: nat, d: nat, m: int)
    requires 2 * v < 2 * (r * d) + d <= 2 * v + 2 * d
    ensures Distance(r, v, d) <= Distance(m, v, d) && (Distance(m, v, d) == Distance(r, v, d) ==> m <= r)
  {
    Spacing(m, r, d);
  }

  /** Multiples of `d` at different integers are at least `d` apart. */
  lemma Spacing(m: int, r: int, d: nat)
    ensures m > r ==> m * d >= r * d + d
    ensures m < r ==> m * d <= r * d - d
  {
    if m > r {
      MulMonotone(d, r + 1, m);
    } else if m < r {
      MulMonotone(d, m, r - 1);
    }
  }

  lemma RoundedBand(v: nat, d: nat)
    requires d > 0
    ensures 2 * v < 2 * (Rounded(v, d) * d) + d <= 2 * v + 2 * d
  {
    Euclid(2 * v + d, 2 * d);
    MulSwap(Rounded(v, d), 2, d);
  }

  function Times(a: nat, b: nat): nat {
    MulMonotone(a, 0, b);
    a * b
  }

  /** The integer whose last `f` digits form the fraction. */
  function Scaled(n: nat, e: int, f: nat): nat {
    if e > 0 then Rounded(Times(n, Pow(10, f)), Pow(2, e)) else Times(n, Times(Pow(2, -e), Pow(10, f)))
  }

  /** The text of `v / 10^f` with exactly `f` fraction digits. */
  function Fixed(v: nat, f: nat): string {
    if f == 0 then Decimal(v) else Decimal(v / Pow(10, f)) + "." + Digits(v, f)
  }

  /** An integer part and a fraction of `f` digits that together read as `v`; only a zero integer part starts with '0'. */
  ghost predicate ReadsAs(head: string, tail: string, v: nat, f: nat) {
    && head != "" && |tail| == f && AllDigits(head) && AllDigits(tail)
    && Read(head) * Pow(10, f) + Read(tail) == v && (head[0] == '0' <==> Read(head) == 0)
  }

  /** The text is an integer part, a point and a fraction that together read as `v`. */
  lemma FixedReads(v: nat, f: nat)
    requires f > 0
    ensures exists head, tail :: Fixed(v, f) == head + "." + tail && ReadsAs(head, tail, v, f)
  {
    var w := Pow(10, f);
    var head, tail := Decimal(v / w), Digits(v, f);
    DecimalReads(v / w);
    DigitsRead(v, f);
    Euclid(v, w);
    assert ReadsAs(head, tail, v, f);
  }

  /** The text is a numeral of `v / 10^f` with exactly `f` fraction digits, and has a point only before a fraction. */
  ghost predicate Shows(text: string, v: nat, f: nat) {
    if f == 0 then text != "" && AllDigits(text) && Read(text) == v && (text[0] == '0' <==> v == 0)
    else exists head, tail :: text == head + "." + tail && ReadsAs(head, tail, v, f)
  }

  lemma FixedShows(v: nat, f: nat)
    ensures Shows(Fixed(v, f), v, f)
  {
    if f == 0 {
      DecimalReads(v);
    } else {
      FixedReads(v, f);
    }
  }

  /** `v` is the integer closest to `n / 2^e * 10^f`, the larger one of two equally close. */
  ghost predicate Closest(v: nat, n: nat, e: int, f: nat) {
    if e <= 0 then v == n * Pow(2, -e) * Pow(10, f)
    else forall m: int :: var here, there := Distance(v, n * Pow(10, f), Pow(2, e)), Distance(m, n * Pow(10, f), Pow(2, e));
                          here < there || (here == there && m <= v)
  }

  lemma ScaledClosest(n: nat, e: int, f: nat)
    ensures Closest(Scaled(n, e, f), n, e, f)
  {
    if e <= 0 {
      MulAssoc(Pow(2, -e), n, Pow(10, f));
    } else {
      forall m: int
        ensures var here, there := Distance(Scaled(n, e, f), n * Pow(10, f), Pow(2, e)), Distance(m, n * Pow(10, f), Pow(2, e));
                here < there || (here == there && m <= Scaled(n, e, f))
      {
        RoundedIsNearest(Times(n, Pow(10, f)), Pow(2, e), m);
      }
    }
  }

  // ---------------------------------------------------------------- the method itself

  /** Exponentiation by squaring with an accumulator. */
  function FastPow(x: nat, n: nat, acc: nat): (r: nat)
    ensures r == Pow(x, n) * acc
    decreases n
  {
    if n == 0 then acc
    else if n % 2 == 1 then
      var r := FastPow(x, n - 1, acc * x);
      assert r == Pow(x, n) * acc by {
        assert Pow(x, n - 1) * (acc * x) == (x * Pow(x, n - 1)) * acc;
      }
      r
    else
      var r := FastPow(x * x, n / 2, acc);
      assert r == Pow(x, n) * acc by { PowSquare(x, n / 2); }
      r
  }

  lemma {:induction false} PowSquare(x: nat, k: nat)
    ensures Pow(x * x, k) == Pow(x, 2 * k)
  {
    if k > 0 {
      PowSquare(x, k - 1);
      assert Pow(x, 2 * k) == x * (x * Pow(x, 2 * k - 2));
    }
  }

  lemma DivDiv(v: nat, a: nat, b: nat)
    requires a > 0 && b > 0
    ensures a * b > 0 && v / a / b == v / (a * b)
  {
    var q := v / a;
    var h := q / b;
    assert v == a * q + v % a;
    assert q == b * h + q % b;
    assert a * q == (a * b) * h + a * (q % b);
    MulMonotone(a, q % b, b - 1);
    assert a * (b - 1) == a * b - a;
    MulMonotone(a, 0, q % b);
    DivModUnique(v, a * b, h, a * (q % b) + v % a);
  }

  lemma {:induction false} LimbPow(k: nat)
    ensures Pow(BASE, k) == Pow(10, 7 * k)
  {
    if k > 0 {
      LimbPow(k - 1);
      PowSum(10, 7, 7 * (k - 1));
      Pow10At7();
    }
  }

  lemma Pow10At7()
    ensures Pow(10, 7) == BASE
  {
    Pow10At6();
  }

  lemma Pow10At6()
    ensures Pow(10, 6) == 1000000
  {
    assert Pow(10, 3) == 1000;
    PowSum(10, 3, 3);
  }

  /** A 53-bit mantissa times up to twenty powers of ten fits in the limbs with room to spare. */
  lemma Fits(n: nat, f: nat)
    requires n <= MAX_SAFE && f <= 20
    ensures n * Pow(10, f) + 1 < Pow(BASE, LIMBS)
  {
    Pow10At16();
    PowSum(10, 16, f);
    PowMonotone(10, f, 20);
    MulMonotone(Pow(10, f), n, Pow(10, 16) - 1);
    MulDistributes(Pow(10, f), Pow(10, 16) - 1, 1);
    assert Pow(10, 16 + f) == Pow(10, f) * Pow(10, 16);
    PowMonotone(10, 16 + f, 41);
    LimbPow(LIMBS);
    assert Pow(10, 42) == 10 * Pow(10, 41);
  }

  lemma Pow10At16()
    ensures Pow(10, 16) == 10000000000000000
  {
    Pow10At7();
    PowSum(10, 7, 7);
    assert Pow(10, 2) == 100;
    PowSum(10, 14, 2);
  }

  lemma RoundByHalving(v: nat, e: nat)
    requires e > 0
    ensures (v / Pow(2, e - 1) + 1) / 2 == Rounded(v, Pow(2, e))
  {
    var q := Pow(2, e - 1);
    var h := v / q;
    assert v == q * h + v % q;
    DivModUnique(v + q, q, h + 1, v % q);
    DivDiv(v + q, q, 2);
    DivDiv(2 * (v + q), 2, 2 * q);
  }

  /** Fresh limbs holding a mantissa. */
  method Load(n: Safe) returns (p: array<Safe>)
    ensures fresh(p) && p.Length == LIMBS && IsLimbs(p[..]) && Value(p[..]) == n
  {
    p := new Safe[6](_ => 0);
    Fits(n, 0);
    Multiply(p, 0, n);
  }

  /** Multiplies by 10^l, seven digits at a time. */
  method ScaleByTens(p: array<Safe>, l: nat, ghost n: nat)
    requires p.Length == LIMBS && IsLimbs(p[..]) && l <= 20
    requires n <= MAX_SAFE && Value(p[..]) == n
    modifies p
    ensures IsLimbs(p[..]) && Value(p[..]) == n * Pow(10, l)
  {
    var r := l;
    assert n * Pow(10, 0) == n;
    while r >= 7
      invariant 0 <= r <= l && IsLimbs(p[..])
      invariant Value(p[..]) == n * Pow(10, l - r)
    {
      ScaleStep(n, l - r, 7, l);
      Pow10At7();
      Multiply(p, 10000000, 0);
      r := r - 7;
    }
    ScaleStep(n, l - r, r, l);
    PowMonotone(10, r, 6);
    Pow10At6();
    Multiply(p, FastPow(10, r, 1), 0);
  }

  /** Divides by 2^k, 23 bits at a time. */
  method DivideByTwos(p: array<Safe>, k: nat)
    requires p.Length == LIMBS && IsLimbs(p[..])
    modifies p
    ensures IsLimbs(p[..]) && Value(p[..]) == Value(old(p[..])) / Pow(2, k)
  {
    ghost var v := Value(p[..]);
    var r := k;
    Pow2At23();
    while r >= 23
      invariant 0 <= r <= k && IsLimbs(p[..])
      invariant Value(p[..]) == v / Pow(2, k - r)
    {
      ChunkStep(v, k - r, 23);
      Divide(p, 8388608);
      r := r - 23;
    }
    ChunkStep(v, k - r, r);
    PowMonotone(2, r, 23);
    Divide(p, Pow(2, r));
  }

  lemma ChunkStep(v: nat, i: nat, j: nat)
    ensures v / Pow(2, i) / Pow(2, j) == v / Pow(2, i + j)
  {
    PowSum(2, i, j);
    DivDiv(v, Pow(2, i), Pow(2, j));
  }

  lemma Pow2At23()
    ensures Pow(2, 17) == 131072 && Pow(2, 23) == 8388608
  {
    assert Pow(2, 6) == 64;
    assert Pow(2, 5) == 32;
    PowSum(2, 6, 6);
    PowSum(2, 12, 5);
    PowSum(2, 17, 6);
  }

  /** Scales the mantissa by 10^l, divides by 2^e in chunks, and rounds by adding one and halving. */
  method RoundedText(n: Safe, e: nat, l: nat) returns (v: string)
    requires e > 0 && l <= 20
    ensures v == Decimal(Scaled(n, e, l))
  {
    var p := Load(n);
    ScaleByTens(p, l, n);
    ghost var scaled := Times(n, Pow(10, l));
    Fits(n, l);
    DivideByTwos(p, e - 1);
    AddHalf(p, scaled, e);
    v := Print(p);
  }

  /** The last bit: add one and halve, which rounds halves upwards. */
  method AddHalf(p: array<Safe>, ghost v: nat, ghost e: nat)
    requires p.Length == LIMBS && IsLimbs(p[..])
    requires e > 0 && Value(p[..]) == v / Pow(2, e - 1) && v + 1 < Pow(BASE, LIMBS)
    modifies p
    ensures IsLimbs(p[..]) && Value(p[..]) == Rounded(v, Pow(2, e))
  {
    QuotientAtMost(v, Pow(2, e - 1));
    Multiply(p, 1, 1);
    Divide(p, 2);
    RoundByHalving(v, e);
  }

  lemma QuotientAtMost(v: nat, d: nat)
    requires d > 0
    ensures v / d <= v
  {
    var q := v / d;
    assert v == d * q + v % d;
    MulMonotone(q, 1, d);
  }

  /** Multiplying by another 10^j on the way to 10^l stays inside the limbs. */
  lemma ScaleStep(n: nat, i: nat, j: nat, l: nat)
    requires n <= MAX_SAFE && i + j <= l <= 20
    ensures Pow(10, j) * (n * Pow(10, i)) == n * Pow(10, i + j)
    ensures Pow(10, j) * (n * Pow(10, i)) < Pow(BASE, LIMBS)
  {
    PowSum(10, j, i);
    MulSwap(Pow(10, j), n, Pow(10, i));
    Fits(n, i + j);
  }

  /** An integral receiver: the mantissa is shifted left and the fraction is all zeros. */
  method IntegralText(n: Safe, shift: nat, l: nat) returns (v: string)
    requires 0 < n && shift <= 17 && l <= 20
    ensures v == Decimal(Scaled(n, 0 - shift, l))
  {
    var p := Load(n);
    ShiftFits(n, shift);
    Multiply(p, Pow(2, shift), 0);
    v := Print(p);
    v := v + Zeros(l);
    ShiftedDecimal(n, shift, l);
  }

  lemma ShiftedDecimal(n: nat, shift: nat, l: nat)
    requires 0 < Pow(2, shift) * n
    ensures Decimal(Pow(2, shift) * n) + Zeros(l) == Decimal(Scaled(n, 0 - shift, l))
  {
    DecimalTimesPow(Pow(2, shift) * n, l);
    TimesAssoc(n, Pow(2, shift), Pow(10, l));
  }

  lemma TimesAssoc(n: nat, a: nat, w: nat)
    ensures (a * n) * w == Times(n, Times(a, w))
  {
    MulAssoc(n, a, w);
  }

  lemma ShiftFits(n: nat, shift: nat)
    requires 0 < n <= MAX_SAFE && shift <= 17
    ensures Pow(2, shift) <= 131072
    ensures 0 < Pow(2, shift) * n < Pow(BASE, LIMBS)
  {
    Pow2At23();
    Pow10At6();
    PowMonotone(2, shift, 17);
    Fits(n, 6);
    MulMonotone(n, Pow(2, shift), Pow(10, 6));
    MulMonotone(n, 1, Pow(2, shift));
  }

  lemma DecimalTimesPow(m: nat, l: nat)
    requires m > 0
    ensures Decimal(m) + Zeros(l) == Decimal(m * Pow(10, l))
  {
    var w := Pow(10, l);
    MulMonotone(w, 1, m);
    DivModUnique(m * w, w, m, 0);
    DecimalAppend(m * w, l);
    DigitsMod(m * w, l);
    ZeroDigits(l);
  }

  /** Inserts the decimal point `l` digits from the end, padding with zeros when the text is short. */
  method PlacePoint(s: string, ghost v: nat, l: nat) returns (r: string)
    requires s == Decimal(v)
    ensures r == Fixed(v, l)
  {
    if l == 0 {
      return s;
    }
    var c := |s|;
    if c <= l {
      r := "0." + Zeros(l - c) + s;
    } else {
      r := s[..c - l] + "." + s[c - l..];
    }
    PointPlaced(v, l);
  }

  lemma PointPlaced(v: nat, l: nat)
    requires l > 0
    ensures var s, c := Decimal(v), |Decimal(v)|;
            Fixed(v, l) == if c <= l then "0." + Zeros(l - c) + s else s[..c - l] + "." + s[c - l..]
  {
    var s := Decimal(v);
    if v < Pow(10, l) {
      PadDigits(v, l);
      DivSmall(v, Pow(10, l));
      assert "0" + "." == "0.";
      assert "0." + Zeros(l - |s|) + s == "0." + (Zeros(l - |s|) + s);
    } else {
      DecimalAppend(v, l);
    }
  }

  /** Whether the receiver's magnitude exceeds 10^-21. */
  predicate NotTiny(n: nat, e: int) {
    if e > 0 then n * Pow(10, 21) > Pow(2, e) else n > 0
  }

  lemma TinyRoundsToZero(n: nat, e: int, f: nat)
    requires f <= 20 && !NotTiny(n, e)
    ensures Scaled(n, e, f) == 0
  {
    if e > 0 {
      var d, v := Pow(2, e), Times(n, Pow(10, f));
      PowMonotone(10, f, 20);
      MulMonotone(n, Pow(10, f), Pow(10, 20));
      MulSwap(n, 10, Pow(10, 20));
      assert 10 * v <= d;
      TinyQuotient(v, d);
    }
  }

  lemma TinyQuotient(v: nat, d: nat)
    requires d > 0 && 10 * v <= d
    ensures Rounded(v, d) == 0
  {
    DivSmall(2 * v + d, 2 * d);
  }

  method ToFixed(x: Number, fraction: int) returns (r: Result<string, Error>)
    requires x.Finite? ==> x.n <= MAX_SAFE && x.e >= -17
    ensures r == Fail(RangeError) <==> fraction < 0 || fraction > 20
    ensures r.Ok? && x.NaN? ==> r.value == "NaN"
    ensures r.Ok? && x.Huge? ==> r.value == x.text
    ensures r.Ok? && x.Finite? ==>
              exists v, text :: Closest(v, x.n, x.e, fraction) && Shows(text, v, fraction) &&
                                r.value == (if x.negative && x.n > 0 then "-" + text else text)
  {
    if fraction < 0 || fraction > 20 {
      return Fail(RangeError);
    }
    match x {
      case NaN => return Ok("NaN");
      case Huge(text) => return Ok(text);
      case Finite(negative, n, e) =>
        var l := fraction;
        var sign := if negative && n > 0 then "-" else "";
        var v := "0";
        if NotTiny(n, e) {
          if e > 0 {
            v := RoundedText(n, e, l);
          } else {
            v := IntegralText(n, -e, l);
          }
        } else {
          TinyRoundsToZero(n, e, l);
        }
        v := PlacePoint(v, Scaled(n, e, l), l);
        FixedShows(Scaled(n, e, l), l);
        ScaledClosest(n, e, l);
        assert "" + v == v;
        r := Ok(sign + v);
    }
  }
}
