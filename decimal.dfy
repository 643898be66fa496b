/** Decimal rendering of integers (JavaScript's `${n}` for a bigint, or for a safe-integer
    number) and the comma join of `Array.prototype.toString`. */
module Decimal {

  function DigitChar(d: nat): (c: char)
    requires d < 10
    ensures '0' <= c <= '9'
  {
    ('0' as int + d) as char
  }

  predicate AllDigits(s: string) {
    forall i :: 0 <= i < |s| ==> '0' <= s[i] <= '9'
  }

  /** The shortest decimal numeral of `n`: no leading zero unless `n` is zero. */
  function Render(n: nat): (s: string)
    ensures |s| >= 1 && AllDigits(s)
    ensures |s| > 1 ==> s[0] != '0'
  {
    if n < 10 then [DigitChar(n)] else Render(n / 10) + [DigitChar(n % 10)]
  }

  /** The value of a string of decimal digits. */
  function Value(s: string): nat
    requires AllDigits(s)
  {
    if s == [] then 0 else Value(s[..|s| - 1]) * 10 + (s[|s| - 1] as int - '0' as int)
  }

  /** `Render` loses nothing: reading the numeral back gives the number. */
  lemma {:induction false} RenderValue(n: nat)
    ensures Value(Render(n)) == n
  {
    if n >= 10 {
      RenderValue(n / 10);
      var s := Render(n);
      assert s[..|s| - 1] == Render(n / 10);
    }
  }

  /** Distinct numbers render differently. */
  lemma RenderInjective(m: nat, n: nat)
    requires Render(m) == Render(n)
    ensures m == n
  {
    RenderValue(m);
    RenderValue(n);
  }

  /** A JavaScript integer rendered in decimal, with a leading `-` when negative. */
  function RenderInt(i: int): (s: string)
    ensures i >= 0 ==> s == Render(i)
    ensures i < 0 ==> s == "-" + Render(-i)
  {
    if i >= 0 then Render(i) else "-" + Render(-i)
  }

  /** JavaScript's `a > b` on two strings: the first character where they differ decides,
      and a proper prefix is the smaller. (JavaScript compares UTF-16 code units; on decimal
      digits that is their order as characters.) */
  predicate TextGreater(a: string, b: string) {
    if a == [] then false
    else if b == [] then true
    else if a[0] != b[0] then a[0] > b[0]
    else TextGreater(a[1..], b[1..])
  }

  function Pow10(k: nat): (p: nat)
    ensures p >= 1
  {
    if k == 0 then 1 else 10 * Pow10(k - 1)
  }

  function DigitOf(c: char): nat
    requires '0' <= c <= '9'
  {
    c as int - '0' as int
  }

  /** The value of a numeral read from its first digit. */
  lemma {:induction false} ValueFront(s: string)
    requires AllDigits(s) && s != []
    ensures Value(s) == DigitOf(s[0]) * Pow10(|s| - 1) + Value(s[1..])
  {
    var n := |s|;
    if n > 1 {
      var init, tail := s[..n - 1], s[1..];
      ValueFront(init);
      assert init[0] == s[0] && init[1..] == tail[..n - 2] && tail[n - 2] == s[n - 1];
      var d, p, v, last := DigitOf(s[0]), Pow10(n - 2), Value(init[1..]), DigitOf(s[n - 1]);
      assert Value(s) == Value(init) * 10 + last;
      assert Value(tail) == v * 10 + last;
      assert Pow10(n - 1) == 10 * p;
      ShiftSum(d, p, v, last);
    }
  }

  lemma ShiftSum(d: nat, p: nat, v: nat, last: nat)
    ensures (d * p + v) * 10 + last == d * (10 * p) + (v * 10 + last)
  {
  }

  /** A numeral of `k` digits is below `10^k`. */
  lemma {:induction false} ValueBound(s: string)
    requires AllDigits(s)
    ensures Value(s) < Pow10(|s|)
  {
    if s != [] {
      ValueBound(s[..|s| - 1]);
    }
  }

  /** A larger leading digit outweighs whatever digits follow. */
  lemma LeadingDigitDecides(da: nat, db: nat, p: nat, va: nat, vb: nat)
    requires da > db && vb < p
    ensures da * p + va > db * p + vb
  {
    var k := da - db - 1;
    assert da * p == db * p + k * p + p;
    assert k * p >= 0;
  }

  /** On digit strings of one length, comparing as text is comparing as numbers. */
  lemma {:induction false} DigitsOrder(a: string, b: string)
    requires AllDigits(a) && AllDigits(b) && |a| == |b|
    ensures TextGreater(a, b) <==> Value(a) > Value(b)
  {
    if a != [] {
      ValueFront(a);
      ValueFront(b);
      var p := Pow10(|a| - 1);
      var da, db := DigitOf(a[0]), DigitOf(b[0]);
      var ta, tb := a[1..], b[1..];
      if a[0] == b[0] {
        DigitsOrder(ta, tb);
      } else if a[0] > b[0] {
        ValueBound(tb);
        LeadingDigitDecides(da, db, p, Value(ta), Value(tb));
      } else {
        ValueBound(ta);
        LeadingDigitDecides(db, da, p, Value(tb), Value(ta));
      }
    }
  }

  /** `d` followed by `k` zeros: the numeral of `d * 10^k` leads with `d`. */
  lemma {:induction false} RenderLeading(d: nat, k: nat)
    requires 1 <= d < 10
    ensures |Render(d * Pow10(k))| == k + 1 && Render(d * Pow10(k))[0] == DigitChar(d)
  {
    if k > 0 {
      RenderLeading(d, k - 1);
      var p := Pow10(k - 1);
      Shift(d, p);
      assert Pow10(k) == 10 * p;
      RenderTimesTen(d * p);
    }
  }

  /** Numbers that lead with different digits compare as text by those digits alone,
      however many digits follow. */
  lemma LeadingDigitOrder(a: nat, ka: nat, b: nat, kb: nat)
    requires 1 <= a < 10 && 1 <= b < 10 && a != b
    ensures TextGreater(Render(a * Pow10(ka)), Render(b * Pow10(kb))) <==> a > b
  {
    RenderLeading(a, ka);
    RenderLeading(b, kb);
  }

  /** Ten times a positive number is its numeral followed by `0`. */
  lemma RenderTimesTen(n: nat)
    requires n >= 1
    ensures Render(10 * n) == Render(n) + [DigitChar(0)]
  {
    assert (10 * n) / 10 == n && (10 * n) % 10 == 0;
  }

  lemma Shift(d: nat, p: nat)
    requires d >= 1 && p >= 1
    ensures d * (10 * p) == 10 * (d * p) && d * p >= 1
  {
  }

  /** Numerals of the same length compare as text as their numbers do. */
  lemma TextOrderOfSameLength(m: nat, n: nat)
    requires |Render(m)| == |Render(n)|
    ensures TextGreater(Render(m), Render(n)) <==> m > n
  {
    DigitsOrder(Render(m), Render(n));
    RenderValue(m);
    RenderValue(n);
  }

  /** Distinct integers are shown differently: the sign is told by the first character, and
      the numerals of distinct magnitudes differ. */
  lemma RenderIntInjective(i: int, j: int)
    requires RenderInt(i) == RenderInt(j)
    ensures i == j
  {
    if i < 0 && j < 0 {
      assert Render(-i) == RenderInt(i)[1..] == RenderInt(j)[1..] == Render(-j);
      RenderInjective(-i, -j);
    } else if i >= 0 && j >= 0 {
      RenderInjective(i, j);
    }
  }

  /** `xs.join(",")`. */
  function Join(xs: seq<string>): (s: string)
  {
    if xs == [] then "" else if |xs| == 1 then xs[0] else xs[0] + "," + Join(xs[1..])
  }

  /** The inverse of `Join` for items without commas: cut at every comma. */
  function Split(s: string): (r: seq<string>)
    ensures |r| >= 1
  {
    if s == [] then [""]
    else if s[0] == ',' then [""] + Split(s[1..])
    else var rest := Split(s[1..]); [[s[0]] + rest[0]] + rest[1..]
  }

  lemma {:induction false} SplitNoComma(x: string, tail: string)
    requires ',' !in x
    ensures Split(x + tail)[0] == x + Split(tail)[0]
    ensures Split(x + tail)[1..] == Split(tail)[1..]
  {
    if x == [] {
      assert x + tail == tail;
    } else {
      assert (x + tail)[0] == x[0] != ',';
      assert (x + tail)[1..] == x[1..] + tail;
      assert ',' !in x[1..];
      SplitNoComma(x[1..], tail);
      assert [x[0]] + x[1..] == x;
    }
  }

  /** Cutting a joined list at its commas gives the list back, as long as no item holds a
      comma (a decimal numeral never does). */
  lemma {:induction false} JoinSplit(xs: seq<string>)
    requires xs != []
    requires forall i :: 0 <= i < |xs| ==> ',' !in xs[i]
    ensures Split(Join(xs)) == xs
  {
    if |xs| == 1 {
      SplitNoComma(xs[0], "");
      assert xs[0] + "" == xs[0];
    } else {
      JoinSplit(xs[1..]);
      var tail := "," + Join(xs[1..]);
      assert Join(xs) == xs[0] + tail;
      SplitNoComma(xs[0], tail);
      assert tail[1..] == Join(xs[1..]);
      assert Split(tail) == [""] + Split(Join(xs[1..]));
      assert xs[0] + "" == xs[0];
      assert xs == [xs[0]] + xs[1..];
    }
  }

  /** Decimal renderings of a list of numbers. */
  function RenderAll(ns: seq<nat>): (r: seq<string>)
    ensures |r| == |ns|
    ensures forall i :: 0 <= i < |ns| ==> r[i] == Render(ns[i])
  {
    if ns == [] then [] else [Render(ns[0])] + RenderAll(ns[1..])
  }

  lemma NoCommaInNumeral(n: nat)
    ensures ',' !in Render(n)
  {
    var s := Render(n);
    forall i | 0 <= i < |s| ensures s[i] != ',' {
      assert '0' <= s[i] <= '9';
    }
  }
}
