/** Timestamps and cursors as text, and why comparing the text is comparing the time. */
module TimeText {
  import opened Prelude
  import opened Text
  import Uuid

  /** A UTC instant by its calendar fields, years of four digits only. */
  datatype Stamp = Stamp(year: nat, month: nat, day: nat, hour: nat, minute: nat, second: nat, nanos: nat) {
    predicate Valid() {
      && year <= 9999 && 1 <= month <= 12 && 1 <= day <= 31
      && hour < 24 && minute < 60 && second < 60 && nanos < 1_000_000_000
    }

    /** The whole second, as one number that grows with time. */
    function Seconds(): nat {
      ((((year * 100 + month) * 100 + day) * 100 + hour) * 100 + minute) * 100 + second
    }
  }

  predicate Earlier(a: Stamp, b: Stamp) {
    a.Seconds() < b.Seconds() || (a.Seconds() == b.Seconds() && a.nanos < b.nanos)
  }

  function Power10(w: nat): (p: nat)
    ensures p > 0
  {
    if w == 0 then 1 else 10 * Power10(w - 1)
  }

  function Digits(n: nat, w: nat): (s: string)
    requires n < Power10(w)
    ensures |s| == w
  {
    if w == 0 then "" else Digits(n / 10, w - 1) + [Uuid.DIGITS[n % 10]]
  }

  /** The shortest of no, three, six or nine digits that loses nothing. */
  function Fraction(nanos: nat): string
    requires nanos < 1_000_000_000
  {
    assert Power10(3) == 1000 && Power10(6) == 1_000_000 && Power10(9) == 1_000_000_000;
    if nanos == 0 then ""
    else if nanos % 1_000_000 == 0 then "." + Digits(nanos / 1_000_000, 3)
    else if nanos % 1_000 == 0 then "." + Digits(nanos / 1_000, 6)
    else "." + Digits(nanos, 9)
  }

  /** One more two-digit field after a separator. */
  function AddField(prefix: string, separator: char, value: nat): (s: string)
    requires value < 100
    ensures |s| == |prefix| + 3
  {
    assert Power10(2) == 100;
    prefix + [separator] + Digits(value, 2)
  }

  function WholeSecond(t: Stamp): (s: string)
    requires t.Valid()
    ensures |s| == 19
  {
    assert Power10(4) == 10_000;
    AddField(AddField(AddField(AddField(AddField(Digits(t.year, 4), '-', t.month), '-', t.day), 'T', t.hour), ':', t.minute),
             ':', t.second)
  }

  function Rfc3339(t: Stamp): string
    requires t.Valid()
  {
    WholeSecond(t) + Fraction(t.nanos) + "+00:00"
  }

  // ----- Comparing digit by digit -----

  lemma OneCharacter(c: char, d: char)
    ensures TextLess([c], [d]) <==> c < d
  {
  }

  lemma DigitOrder(n: nat, m: nat)
    requires n < 16 && m < 16
    ensures Uuid.DIGITS[n] < Uuid.DIGITS[m] <==> n < m
    ensures Uuid.DIGITS[n] == Uuid.DIGITS[m] <==> n == m
    ensures '+' < Uuid.DIGITS[n]
  {
  }

  /** Numbers written with the same number of digits compare as numbers. */
  lemma {:induction false} DigitsOrder(n: nat, m: nat, w: nat)
    requires n < Power10(w) && m < Power10(w)
    ensures TextLess(Digits(n, w), Digits(m, w)) <==> n < m
    ensures Digits(n, w) == Digits(m, w) <==> n == m
  {
    if w > 0 {
      DigitsOrder(n / 10, m / 10, w - 1);
      var c, d := [Uuid.DIGITS[n % 10]], [Uuid.DIGITS[m % 10]];
      var p, q := Digits(n / 10, w - 1), Digits(m / 10, w - 1);
      PrefixDecides(p, q, c, d);
      OneCharacter(c[0], d[0]);
      DigitOrder(n % 10, m % 10);
      assert p + c == q + d <==> p == q && c == d by {
        assert (p + c)[..|p|] == p && (q + d)[..|q|] == q;
        assert (p + c)[|p|] == c[0] && (q + d)[|q|] == d[0];
      }
    }
  }

  lemma {:induction false} HexOrder(n: nat, m: nat, w: nat)
    requires n < Uuid.Power16(w) && m < Uuid.Power16(w)
    ensures TextLess(Uuid.Hex(n, w), Uuid.Hex(m, w)) <==> n < m
    ensures Uuid.Hex(n, w) == Uuid.Hex(m, w) <==> n == m
  {
    if w > 0 {
      HexOrder(n / 16, m / 16, w - 1);
      var c, d := [Uuid.DIGITS[n % 16]], [Uuid.DIGITS[m % 16]];
      var p, q := Uuid.Hex(n / 16, w - 1), Uuid.Hex(m / 16, w - 1);
      PrefixDecides(p, q, c, d);
      OneCharacter(c[0], d[0]);
      DigitOrder(n % 16, m % 16);
      assert p + c == q + d <==> p == q && c == d by {
        assert (p + c)[..|p|] == p && (q + d)[..|q|] == q;
        assert (p + c)[|p|] == c[0] && (q + d)[|q|] == d[0];
      }
    }
  }

  /** Texts of equal length that stand for numbers, in order. */
  ghost predicate StandFor(p: string, q: string, n: nat, m: nat) {
    |p| == |q| && (TextLess(p, q) <==> n < m) && (p == q <==> n == m)
  }

  lemma AddFieldOrder(p: string, q: string, n: nat, m: nat, separator: char, x: nat, y: nat)
    requires StandFor(p, q, n, m) && x < 100 && y < 100
    ensures StandFor(AddField(p, separator, x), AddField(q, separator, y), n * 100 + x, m * 100 + y)
  {
    assert Power10(2) == 100;
    DigitsOrder(x, y, 2);
    var a, b := Digits(x, 2), Digits(y, 2);
    PrefixDecides([separator], [separator], a, b);
    PrefixDecides(p, q, [separator] + a, [separator] + b);
    assert p + [separator] + a == p + ([separator] + a) && q + [separator] + b == q + ([separator] + b);
    EqualParts(p, q, [separator] + a, [separator] + b);
    EqualParts([separator], [separator], a, b);
    assert n * 100 + x < m * 100 + y <==> n < m || (n == m && x < y);
  }

  lemma EqualParts(p: string, q: string, a: string, b: string)
    requires |p| == |q|
    ensures p + a == q + b <==> p == q && a == b
  {
    assert (p + a)[..|p|] == p && (q + b)[..|q|] == q;
    assert (p + a)[|p|..] == a && (q + b)[|q|..] == b;
  }

  lemma WholeSecondOrder(a: Stamp, b: Stamp)
    requires a.Valid() && b.Valid()
    ensures StandFor(WholeSecond(a), WholeSecond(b), a.Seconds(), b.Seconds())
  {
    hide AddField, Digits, Power10;
    assert Power10(4) == 10_000 by { FourDigits(); }
    var p, q := Digits(a.year, 4), Digits(b.year, 4);
    DigitsOrder(a.year, b.year, 4);
    AddFieldOrder(p, q, a.year, b.year, '-', a.month, b.month);
    hide StandFor;
    var p1, q1 := AddField(p, '-', a.month), AddField(q, '-', b.month);
    var n1, m1 := a.year * 100 + a.month, b.year * 100 + b.month;
    AddFieldOrder(p1, q1, n1, m1, '-', a.day, b.day);
    var p2, q2, n2, m2 := AddField(p1, '-', a.day), AddField(q1, '-', b.day), n1 * 100 + a.day, m1 * 100 + b.day;
    AddFieldOrder(p2, q2, n2, m2, 'T', a.hour, b.hour);
    var p3, q3, n3, m3 := AddField(p2, 'T', a.hour), AddField(q2, 'T', b.hour), n2 * 100 + a.hour, m2 * 100 + b.hour;
    AddFieldOrder(p3, q3, n3, m3, ':', a.minute, b.minute);
    var p4, q4, n4, m4 := AddField(p3, ':', a.minute), AddField(q3, ':', b.minute), n3 * 100 + a.minute, m3 * 100 + b.minute;
    AddFieldOrder(p4, q4, n4, m4, ':', a.second, b.second);
  }

  lemma FourDigits()
    ensures Power10(4) == 10_000 && Power10(3) == 1000
  {
    assert Power10(0) == 1 && Power10(1) == 10 && Power10(2) == 100;
  }

  // ----- Fractions of different widths -----

  function Last3(g: nat): string
    requires g < 1000
  {
    assert Power10(3) == 1000;
    if g == 0 then "" else Digits(g, 3)
  }

  function Last6(g: nat, h: nat): string
    requires g < 1000 && h < 1000
  {
    assert Power10(3) == 1000;
    if g == 0 && h == 0 then "" else Digits(g, 3) + Last3(h)
  }

  lemma ThreeMore(n: nat, w: nat)
    requires n < Power10(w + 3)
    ensures n / 1000 < Power10(w) && n % 1000 < Power10(3)
    ensures Digits(n, w + 3) == Digits(n / 1000, w) + Digits(n % 1000, 3)
  {
    assert Power10(w + 3) == 1000 * Power10(w) by {
      assert Power10(w + 3) == 10 * Power10(w + 2) && Power10(w + 2) == 10 * Power10(w + 1)
             && Power10(w + 1) == 10 * Power10(w);
    }
    FourDigits();
    hide Digits, Power10;
    assert n / 1000 < Power10(w);
    ThreeDigits(n);
    LastDigit(n, w + 2);
    LastDigit(n / 10, w + 1);
    LastDigit(n / 10 / 10, w);
  }

  lemma ByTen(a: nat, x: nat)
    requires x < 10
    ensures (10 * a + x) / 10 == a && (10 * a + x) % 10 == x
  {
  }

  lemma ByThousand(a: nat, x: nat)
    requires x < 1000
    ensures (1000 * a + x) / 1000 == a && (1000 * a + x) % 1000 == x
  {
  }

  /** The last three digits of a number. */
  lemma {:induction false} ThreeDigits(n: nat)
    ensures Power10(3) == 1000
    ensures n / 10 / 10 / 10 == n / 1000
    ensures Digits(n % 1000, 3) == [Uuid.DIGITS[n / 10 / 10 % 10], Uuid.DIGITS[n / 10 % 10], Uuid.DIGITS[n % 10]]
  {
    FourDigits();
    var z, y, x, q := n % 10, n / 10 % 10, n / 10 / 10 % 10, n / 10 / 10 / 10;
    assert n == 1000 * q + (100 * x + 10 * y + z);
    ByThousand(q, 100 * x + 10 * y + z);
    SmallDigits(x, y, z);
  }

  lemma {:induction false} SmallDigits(x: nat, y: nat, z: nat)
    requires x < 10 && y < 10 && z < 10
    ensures Power10(3) == 1000
    ensures Digits(100 * x + 10 * y + z, 3) == [Uuid.DIGITS[x], Uuid.DIGITS[y], Uuid.DIGITS[z]]
  {
    hide Digits, Power10;
    FourDigits();
    AppendDigit(0, x, 0);
    assert Digits(x, 1) == [Uuid.DIGITS[x]];
    AppendDigit(x, y, 1);
    AppendDigit(10 * x + y, z, 2);
    assert 100 * x + 10 * y + z == 10 * (10 * x + y) + z;
  }

  lemma AppendDigit(a: nat, x: nat, w: nat)
    requires a < Power10(w) && x < 10
    ensures 10 * a + x < Power10(w + 1) && Digits(10 * a + x, w + 1) == Digits(a, w) + [Uuid.DIGITS[x]]
    ensures Power10(0) == 1 && Power10(1) == 10 && Power10(2) == 100
  {
    ByTen(a, x);
    LastDigit(10 * a + x, w);
  }

  lemma LastDigit(n: nat, w: nat)
    requires n < Power10(w + 1)
    ensures n / 10 < Power10(w) && Digits(n, w + 1) == Digits(n / 10, w) + [Uuid.DIGITS[n % 10]]
    ensures Power10(1) == 10 && Power10(2) == 100
  {
    assert Power10(0) == 1;
  }

  lemma {:induction false} SixAndNineDigits(n: nat)
    requires n < 1_000_000_000
    ensures Power10(3) == 1000 && Power10(6) == 1_000_000 && Power10(9) == 1_000_000_000
    ensures Digits(n / 1000, 6) == Digits(n / 1_000_000, 3) + Digits(n / 1000 % 1000, 3)
    ensures Digits(n, 9) == Digits(n / 1_000_000, 3) + (Digits(n / 1000 % 1000, 3) + Digits(n % 1000, 3))
  {
    FourDigits();
    NineDigits();
    hide Digits, Power10;
    ThreeMore(n, 6);
    ThreeMore(n / 1000, 3);
    assert n / 1000 / 1000 == n / 1_000_000;
    var a, b, c := Digits(n / 1_000_000, 3), Digits(n / 1000 % 1000, 3), Digits(n % 1000, 3);
    assert (a + b) + c == a + (b + c);
  }

  lemma GroupsOf(n: nat)
    ensures n % 1_000_000 == 0 <==> n / 1000 % 1000 == 0 && n % 1000 == 0
  {
    var q, y, z := n / 1000 / 1000, n / 1000 % 1000, n % 1000;
    assert n == 1_000_000 * q + (1000 * y + z);
    ByMillion(q, 1000 * y + z);
  }

  lemma ByMillion(a: nat, x: nat)
    requires x < 1_000_000
    ensures (1_000_000 * a + x) % 1_000_000 == x
  {
  }

  /** A fraction is a point and one, two or three groups of digits, without trailing empty groups. */
  lemma {:induction false} FractionInGroups(n: nat)
    requires n < 1_000_000_000
    ensures Power10(3) == 1000
    ensures Fraction(n) == if n == 0 then ""
                           else "." + (Digits(n / 1_000_000, 3) + Last6(n / 1000 % 1000, n % 1000))
  {
    hide Digits, Power10;
    SixAndNineDigits(n);
    GroupsOf(n);
    var a, b := Digits(n / 1_000_000, 3), Digits(n / 1000 % 1000, 3);
    assert a + "" == a && b + "" == b;
  }

  lemma NineDigits()
    ensures Power10(6) == 1_000_000 && Power10(9) == 1_000_000_000
  {
    FourDigits();
    assert Power10(5) == 100_000 && Power10(6) == 1_000_000;
    assert Power10(7) == 10_000_000 && Power10(8) == 100_000_000;
  }

  /** A shorter fraction is cut off by the plus sign, which comes before every digit. */
  lemma {:induction false} Last3Order(g: nat, h: nat, r: string, s: string)
    requires g < h < 1000
    ensures TextLess(Last3(g) + "+" + r, Last3(h) + "+" + s)
  {
    assert Power10(3) == 1000 by { FourDigits(); }
    if g == 0 {
      PlusBeforeDigits(r, h, "+" + s);
      assert Last3(g) + "+" + r == "+" + r;
      assert Last3(h) + "+" + s == Digits(h, 3) + ("+" + s);
    } else {
      hide Digits, TextLess;
      DigitsOrder(g, h, 3);
      PrefixDecides(Digits(g, 3), Digits(h, 3), "+" + r, "+" + s);
      assert Last3(g) + "+" + r == Digits(g, 3) + ("+" + r);
      assert Last3(h) + "+" + s == Digits(h, 3) + ("+" + s);
    }
  }

  lemma {:induction false} PlusBeforeDigits(r: string, h: nat, s: string)
    requires h < Power10(3)
    ensures TextLess("+" + r, Digits(h, 3) + s)
  {
    FirstIsDigit(h, 3);
  }

  lemma {:induction false} FirstIsDigit(n: nat, w: nat)
    requires n < Power10(w) && w > 0
    ensures '+' < Digits(n, w)[0]
  {
    DigitOrder(n % 10, 0);
    if w > 1 {
      FirstIsDigit(n / 10, w - 1);
    }
  }

  lemma {:induction false} GroupOrder(g: nat, i: nat, a: string, b: string)
    requires g < 1000 && i < 1000
    ensures Power10(3) == 1000
    ensures TextLess(Digits(g, 3) + a, Digits(i, 3) + b) <==> g < i || (g == i && TextLess(a, b))
  {
    FourDigits();
    hide Digits, TextLess, Power10;
    DigitsOrder(g, i, 3);
    PrefixDecides(Digits(g, 3), Digits(i, 3), a, b);
  }

  lemma {:induction false} Last6Digits(g: nat, h: nat, r: string)
    requires g < 1000 && h < 1000
    ensures Power10(3) == 1000
    ensures Last6(g, h) + "+" + r == if g == 0 && h == 0 then "+" + r else Digits(g, 3) + (Last3(h) + "+" + r)
  {
    FourDigits();
    hide Digits, Last3;
  }

  lemma {:induction false} Last6Order(g: nat, h: nat, i: nat, j: nat, r: string, s: string)
    requires g < 1000 && h < 1000 && i < 1000 && j < 1000
    requires g < i || (g == i && h < j)
    ensures TextLess(Last6(g, h) + "+" + r, Last6(i, j) + "+" + s)
  {
    hide Digits, TextLess, Last3, Last6, Power10;
    var a, b := Last3(h) + "+" + r, Last3(j) + "+" + s;
    Last6Digits(g, h, r);
    Last6Digits(i, j, s);
    GroupOrder(g, i, a, b);
    if g == 0 && h == 0 {
      PlusBeforeDigits(r, i, b);
    } else if g == i {
      Last3Order(h, j, r, s);
    }
  }

  lemma InGroups(n: nat)
    requires n < 1_000_000_000
    ensures n == 1_000_000 * (n / 1_000_000) + 1000 * (n / 1000 % 1000) + n % 1000
    ensures n / 1_000_000 < 1000
  {
    assert n / 1000 / 1000 == n / 1_000_000;
    assert n / 1000 == 1000 * (n / 1000 / 1000) + n / 1000 % 1000;
  }

  lemma {:induction false} GroupedOrder(g: nat, h: nat, i: nat, c: nat, d: nat, e: nat, r: string, s: string)
    requires g < 1000 && h < 1000 && i < 1000 && c < 1000 && d < 1000 && e < 1000
    requires g < c || (g == c && (h < d || (h == d && i < e)))
    ensures Power10(3) == 1000
    ensures TextLess("." + (Digits(g, 3) + Last6(h, i)) + "+" + r, "." + (Digits(c, 3) + Last6(d, e)) + "+" + s)
  {
    var a, b := Last6(h, i) + "+" + r, Last6(d, e) + "+" + s;
    GroupOrder(g, c, a, b);
    hide Digits, TextLess, Last6, Power10;
    if g == c {
      Last6Order(h, i, d, e, r, s);
    }
    PrefixDecides(".", ".", Digits(g, 3) + a, Digits(c, 3) + b);
    Regroup(Digits(g, 3), Last6(h, i), r);
    Regroup(Digits(c, 3), Last6(d, e), s);
  }

  lemma Regroup(p: string, t: string, r: string)
    ensures "." + (p + t) + "+" + r == "." + (p + (t + "+" + r))
  {
  }

  /** Fractions of any two widths compare as numbers, once the offset follows. */
  lemma {:induction false} FractionOrder(n: nat, m: nat, r: string, s: string)
    requires n < m < 1_000_000_000
    ensures TextLess(Fraction(n) + "+" + r, Fraction(m) + "+" + s)
  {
    FractionInGroups(n);
    FractionInGroups(m);
    if n == 0 {
      hide Fraction, Last6, Digits;
      assert Fraction(n) + "+" + r == "+" + r;
      assert (Fraction(m) + "+" + s)[0] == '.';
    } else {
      hide Digits, TextLess, Fraction, Last6, Power10;
      InGroups(n);
      InGroups(m);
      GroupedOrder(n / 1_000_000, n / 1000 % 1000, n % 1000, m / 1_000_000, m / 1000 % 1000, m % 1000, r, s);
    }
  }

  // ----- Timestamps and cursors -----

  lemma SameFields(a: Stamp, b: Stamp)
    requires a.Valid() && b.Valid() && a.Seconds() == b.Seconds() && a.nanos == b.nanos
    ensures a == b
  {
    var (x1, y1) := (a.year * 100 + a.month, b.year * 100 + b.month);
    var (x2, y2) := (x1 * 100 + a.day, y1 * 100 + b.day);
    var (x3, y3) := (x2 * 100 + a.hour, y2 * 100 + b.hour);
    var (x4, y4) := (x3 * 100 + a.minute, y3 * 100 + b.minute);
    OneField(x4, a.second, y4, b.second);
    OneField(x3, a.minute, y3, b.minute);
    OneField(x2, a.hour, y2, b.hour);
    OneField(x1, a.day, y1, b.day);
    OneField(a.year, a.month, b.year, b.month);
  }

  lemma OneField(n: nat, x: nat, m: nat, y: nat)
    requires x < 100 && y < 100 && n * 100 + x == m * 100 + y
    ensures n == m && x == y
  {
  }

  lemma {:induction false} EarlierIsLess(a: Stamp, b: Stamp, r: string, s: string)
    requires a.Valid() && b.Valid() && Earlier(a, b)
    ensures TextLess(Rfc3339(a) + r, Rfc3339(b) + s)
  {
    hide WholeSecond, Fraction, TextLess;
    WholeSecondOrder(a, b);
    var p, q := WholeSecond(a), WholeSecond(b);
    var x, y := Fraction(a.nanos) + "+" + ("00:00" + r), Fraction(b.nanos) + "+" + ("00:00" + s);
    assert Rfc3339(a) + r == p + x && Rfc3339(b) + s == q + y by {
      assert "+00:00" == "+" + "00:00";
    }
    PrefixDecides(p, q, x, y);
    if a.Seconds() == b.Seconds() {
      FractionOrder(a.nanos, b.nanos, "00:00" + r, "00:00" + s);
    }
  }

  /** Text order is time order, whatever the widths of the fractions and whatever follows the timestamps. */
  lemma {:induction false} TextIsTime(a: Stamp, b: Stamp, r: string, s: string)
    requires a.Valid() && b.Valid()
    ensures TextLess(Rfc3339(a) + r, Rfc3339(b) + s) <==> Earlier(a, b) || (a == b && TextLess(r, s))
    ensures Rfc3339(a) == Rfc3339(b) <==> a == b
  {
    hide TextLess, Rfc3339;
    if Earlier(a, b) {
      EarlierIsLess(a, b, r, s);
      EarlierIsLess(a, b, "", "");
      assert Rfc3339(a) + "" == Rfc3339(a) && Rfc3339(b) + "" == Rfc3339(b);
      Irreflexive(Rfc3339(a));
    } else if Earlier(b, a) {
      EarlierIsLess(b, a, s, r);
      EarlierIsLess(b, a, "", "");
      assert Rfc3339(a) + "" == Rfc3339(a) && Rfc3339(b) + "" == Rfc3339(b);
      Irreflexive(Rfc3339(a));
      Asymmetric(Rfc3339(a) + r, Rfc3339(b) + s);
    } else {
      SameFields(a, b);
      PrefixDecides(Rfc3339(a), Rfc3339(b), r, s);
    }
  }

  function EventCursor(t: Stamp, id: nat): string
    requires t.Valid() && id < Uuid.LIMIT
  {
    Rfc3339(t) + "|" + Uuid.Format(id)
  }

  /** A dash between two parts does not change how they compare. */
  lemma {:induction false} Dashed(p: string, q: string, x: string, y: string, u: string, v: string)
    requires |p| == |q|
    requires TextLess(x, y) <==> TextLess(u, v)
    ensures TextLess(p + "-" + x, q + "-" + y) <==> TextLess(p + u, q + v)
  {
    hide TextLess;
    PrefixDecides("-", "-", x, y);
    PrefixDecides(p, q, "-" + x, "-" + y);
    PrefixDecides(p, q, u, v);
    assert p + "-" + x == p + ("-" + x) && q + "-" + y == q + ("-" + y);
  }

  lemma {:induction false} HyphenateOrder(a: string, b: string)
    requires |a| == 32 && |b| == 32
    ensures TextLess(Uuid.Hyphenate(a), Uuid.Hyphenate(b)) <==> TextLess(a, b)
  {
    hide TextLess;
    var a4, b4 := a[16..20] + "-" + a[20..], b[16..20] + "-" + b[20..];
    var a3, b3 := a[12..16] + "-" + a4, b[12..16] + "-" + b4;
    var a2, b2 := a[8..12] + "-" + a3, b[8..12] + "-" + b3;
    Dashed(a[16..20], b[16..20], a[20..], b[20..], a[20..], b[20..]);
    Dashed(a[12..16], b[12..16], a4, b4, a[16..20] + a[20..], b[16..20] + b[20..]);
    Dashed(a[8..12], b[8..12], a3, b3, a[12..16] + (a[16..20] + a[20..]), b[12..16] + (b[16..20] + b[20..]));
    Dashed(a[..8], b[..8], a2, b2, a[8..12] + (a[12..16] + (a[16..20] + a[20..])),
           b[8..12] + (b[12..16] + (b[16..20] + b[20..])));
    InFiveParts(a, a4, a3, a2);
    InFiveParts(b, b4, b3, b2);
  }

  lemma InFiveParts(a: string, a4: string, a3: string, a2: string)
    requires |a| == 32
    requires a4 == a[16..20] + "-" + a[20..] && a3 == a[12..16] + "-" + a4 && a2 == a[8..12] + "-" + a3
    ensures a == a[..8] + (a[8..12] + (a[12..16] + (a[16..20] + a[20..])))
    ensures Uuid.Hyphenate(a) == a[..8] + "-" + a2
  {
  }

  lemma FormatOrder(x: nat, y: nat)
    requires x < Uuid.LIMIT && y < Uuid.LIMIT
    ensures TextLess(Uuid.Format(x), Uuid.Format(y)) <==> x < y
  {
    hide TextLess, Uuid.Hyphenate, Uuid.Hex;
    HexOrder(x, y, 32);
    HyphenateOrder(Uuid.Hex(x, 32), Uuid.Hex(y, 32));
  }

  /** Cursors compare as time first and identifier second. */
  lemma CursorsCompareAsKeys(a: Stamp, x: nat, b: Stamp, y: nat)
    requires a.Valid() && b.Valid() && x < Uuid.LIMIT && y < Uuid.LIMIT
    ensures TextLess(EventCursor(a, x), EventCursor(b, y)) <==> Earlier(a, b) || (a == b && x < y)
  {
    hide TextLess, Rfc3339, Uuid.Format;
    var r, s := "|" + Uuid.Format(x), "|" + Uuid.Format(y);
    TextIsTime(a, b, r, s);
    PrefixDecides("|", "|", Uuid.Format(x), Uuid.Format(y));
    FormatOrder(x, y);
    assert EventCursor(a, x) == Rfc3339(a) + r && EventCursor(b, y) == Rfc3339(b) + s;
  }

  // ----- Reading cursors -----

  datatype Cursor = NoCursor | BadCursor | At(createdAt: string, id: string)

  /** The position of the first separator, or the length. */
  function Separator(raw: string): (k: nat)
    ensures k <= |raw| && (k < |raw| ==> raw[k] == '|') && forall i | 0 <= i < k :: raw[i] != '|'
  {
    if raw == "" || raw[0] == '|' then 0 else 1 + Separator(raw[1..])
  }

  function ParseCursor(raw: string): Cursor {
    if raw == "" then NoCursor
    else
      var k := Separator(raw);
      if k == |raw| || k == 0 || k == |raw| - 1 then BadCursor else At(raw[..k], raw[k + 1..])
  }

  /** Printing and reading undo each other, exactly for pairs that are not empty and times without a separator. */
  lemma CursorRoundTrip(createdAt: string, id: string)
    ensures ParseCursor(createdAt + "|" + id) == At(createdAt, id) <==> createdAt != "" && '|' !in createdAt && id != ""
  {
    var raw := createdAt + "|" + id;
    var k := Separator(raw);
    assert raw[|createdAt|] == '|';
    assert forall i | 0 <= i < |createdAt| :: raw[i] == createdAt[i];
    if createdAt != "" && '|' !in createdAt && id != "" {
      assert k == |createdAt|;
      assert raw[..k] == createdAt && raw[k + 1..] == id;
    }
  }

  /** A cursor is read as the two parts around its first separator; anything else is refused, and none at all is none. */
  lemma CursorsAreReadIff(raw: string)
    ensures ParseCursor(raw).NoCursor? <==> raw == ""
    ensures ParseCursor(raw).At? <==>
              exists k :: 0 < k < |raw| - 1 && raw[k] == '|' && forall i | 0 <= i < k :: raw[i] != '|'
  {
    var k := Separator(raw);
    if m :| 0 < m < |raw| - 1 && raw[m] == '|' && forall i | 0 <= i < m :: raw[i] != '|' {
      assert k == m;
    }
  }

  lemma ReadCursorsPrintBack(raw: string)
    requires ParseCursor(raw).At?
    ensures ParseCursor(raw).createdAt + "|" + ParseCursor(raw).id == raw
  {
    var k := Separator(raw);
    assert raw == raw[..k] + [raw[k]] + raw[k + 1..];
  }

  /** The cursors the client prints are the ones the gateway can read. */
  lemma ClientCursorsAreRead(t: Stamp, id: nat)
    requires t.Valid() && id < Uuid.LIMIT
    ensures ParseCursor(EventCursor(t, id)) == At(Rfc3339(t), Uuid.Format(id))
  {
    TimeHasNoSeparator(t);
    CursorRoundTrip(Rfc3339(t), Uuid.Format(id));
  }

  lemma {:induction false} DigitsHaveNoSeparator(n: nat, w: nat)
    requires n < Power10(w)
    ensures '|' !in Digits(n, w)
  {
    if w > 0 {
      DigitsHaveNoSeparator(n / 10, w - 1);
    }
  }

  lemma TimeHasNoSeparator(t: Stamp)
    requires t.Valid()
    ensures '|' !in Rfc3339(t)
  {
    FourDigits();
    NineDigits();
    assert Power10(2) == 100;
    DigitsHaveNoSeparator(t.year, 4);
    DigitsHaveNoSeparator(t.month, 2);
    DigitsHaveNoSeparator(t.day, 2);
    DigitsHaveNoSeparator(t.hour, 2);
    DigitsHaveNoSeparator(t.minute, 2);
    DigitsHaveNoSeparator(t.second, 2);
    assert '|' !in WholeSecond(t) by { hide Digits; }
    assert '|' !in Fraction(t.nanos) by {
      if t.nanos % 1_000_000 == 0 { DigitsHaveNoSeparator(t.nanos / 1_000_000, 3); }
      else if t.nanos % 1_000 == 0 { DigitsHaveNoSeparator(t.nanos / 1_000, 6); }
      else { DigitsHaveNoSeparator(t.nanos, 9); }
      hide Digits;
    }
    hide WholeSecond, Fraction;
  }

  // ----- Reading timestamps -----

  /** A decimal numeral. */
  function ReadDigits(s: string): Option<nat> {
    if s == "" then Some(0)
    else
      var rest := ReadDigits(s[..|s| - 1]);
      var c := s[|s| - 1];
      if rest.None? || !('0' <= c <= '9') then None else Some(10 * rest.value + (c as nat - '0' as nat))
  }

  lemma {:induction false} DigitsAreRead(n: nat, w: nat)
    requires n < Power10(w)
    ensures ReadDigits(Digits(n, w)) == Some(n)
  {
    if w > 0 {
      DigitsAreRead(n / 10, w - 1);
      var s := Digits(n, w);
      assert s[..|s| - 1] == Digits(n / 10, w - 1);
      var d := n % 10;
      assert Uuid.DIGITS[d] as nat == '0' as nat + d;
      hide Digits, Power10;
    }
  }

  /** Two digits at this position. */
  ghost predicate Shows(s: string, i: nat, value: nat) {
    i + 2 <= |s| && ReadDigits(s[i..i + 2]) == Some(value)
  }

  lemma FieldIsRead(prefix: string, separator: char, value: nat)
    requires value < 100
    ensures var s := AddField(prefix, separator, value);
            && s[..|prefix|] == prefix && s[|prefix|] == separator && Shows(s, |prefix| + 1, value)
  {
    assert Power10(2) == 100;
    DigitsAreRead(value, 2);
    var s := AddField(prefix, separator, value);
    assert s[|prefix| + 1..|prefix| + 3] == Digits(value, 2);
    hide Digits, ReadDigits;
  }

  lemma ShownStays(s: string, longer: string, i: nat, value: nat)
    requires Shows(s, i, value) && s <= longer
    ensures Shows(longer, i, value)
  {
    hide ReadDigits;
    assert longer[i..i + 2] == s[i..i + 2];
  }

  lemma WholeSecondIsRead(t: Stamp)
    requires t.Valid()
    ensures var s := WholeSecond(t);
            && ReadDigits(s[..4]) == Some(t.year) && s[4] == '-' && Shows(s, 5, t.month) && s[7] == '-' && Shows(s, 8, t.day)
            && s[10] == 'T' && Shows(s, 11, t.hour) && s[13] == ':' && Shows(s, 14, t.minute) && s[16] == ':'
            && Shows(s, 17, t.second)
  {
    FourDigits();
    DigitsAreRead(t.year, 4);
    hide ReadDigits, Digits, Shows;
    var s0 := Digits(t.year, 4);
    var s1 := AddField(s0, '-', t.month);
    var s2 := AddField(s1, '-', t.day);
    var s3 := AddField(s2, 'T', t.hour);
    var s4 := AddField(s3, ':', t.minute);
    var s5 := AddField(s4, ':', t.second);
    FieldIsRead(s0, '-', t.month);
    FieldIsRead(s1, '-', t.day);
    FieldIsRead(s2, 'T', t.hour);
    FieldIsRead(s3, ':', t.minute);
    FieldIsRead(s4, ':', t.second);
    assert WholeSecond(t) == s5;
    hide AddField, WholeSecond;
    assert s4 == s5[..16] && s3 == s4[..13] && s2 == s3[..10] && s1 == s2[..7] && s0 == s1[..4];
    ShownStays(s1, s5, 5, t.month);
    ShownStays(s2, s5, 8, t.day);
    ShownStays(s3, s5, 11, t.hour);
    ShownStays(s4, s5, 14, t.minute);
    assert s5[..4] == s0;
  }

  /** A fraction is a point and three, six or nine digits, or nothing at all. */
  lemma FractionIsRead(nanos: nat)
    requires nanos < 1_000_000_000
    ensures var f := Fraction(nanos);
            && (nanos == 0 <==> f == "")
            && (nanos != 0 ==>
                  && |f| in {4, 7, 10} && f[0] == '.' && ReadDigits(f[1..]).Some?
                  && ReadDigits(f[1..]).value * (if |f| == 4 then 1_000_000 else if |f| == 7 then 1_000 else 1) == nanos)
  {
    NineDigits();
    assert Power10(3) == 1000 && Power10(6) == 1_000_000;
    if nanos % 1_000_000 == 0 {
      DigitsAreRead(nanos / 1_000_000, 3);
    } else if nanos % 1_000 == 0 {
      DigitsAreRead(nanos / 1_000, 6);
    } else {
      DigitsAreRead(nanos, 9);
    }
    hide Digits, ReadDigits, Power10;
  }

  /** Every field of an instant can be read off its place in the text. */
  lemma TimesAreReadBack(t: Stamp)
    requires t.Valid()
    ensures var s := Rfc3339(t);
            && |s| >= 25 && s[|s| - 6..] == "+00:00"
            && ReadDigits(s[..4]) == Some(t.year) && s[4] == '-' && Shows(s, 5, t.month) && s[7] == '-' && Shows(s, 8, t.day)
            && s[10] == 'T' && Shows(s, 11, t.hour) && s[13] == ':' && Shows(s, 14, t.minute) && s[16] == ':'
            && Shows(s, 17, t.second)
            && (t.nanos == 0 <==> |s| == 25)
            && (t.nanos != 0 ==>
                  && |s| in {29, 32, 35} && s[19] == '.' && ReadDigits(s[20..|s| - 6]).Some?
                  && ReadDigits(s[20..|s| - 6]).value
                     * (if |s| == 29 then 1_000_000 else if |s| == 32 then 1_000 else 1) == t.nanos)
  {
    WholeSecondIsRead(t);
    FractionIsRead(t.nanos);
    var w, f, s := WholeSecond(t), Fraction(t.nanos), Rfc3339(t);
    hide WholeSecond, Fraction, ReadDigits, Shows;
    assert s == w + (f + "+00:00") && w <= s;
    ShownStays(w, s, 5, t.month);
    ShownStays(w, s, 8, t.day);
    ShownStays(w, s, 11, t.hour);
    ShownStays(w, s, 14, t.minute);
    ShownStays(w, s, 17, t.second);
    assert s[..4] == w[..4];
    assert s[|s| - 6..] == "+00:00";
    if t.nanos != 0 {
      assert s[19] == f[0] && s[20..|s| - 6] == f[1..];
    }
  }
}
