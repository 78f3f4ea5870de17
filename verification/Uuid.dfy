/** Identifiers: 128-bit numbers, and the text they are written as. */
module Uuid {
  import opened Prelude

  const DIGITS := "0123456789abcdef"

  function Power16(width: nat): nat {
    if width == 0 then 1 else 16 * Power16(width - 1)
  }

  const LIMIT := Power16(32)

  function DigitValue(c: char): Option<nat> {
    if '0' <= c <= '9' then Some(c as int - '0' as int)
    else if 'a' <= c <= 'f' then Some(c as int - 'a' as int + 10)
    else if 'A' <= c <= 'F' then Some(c as int - 'A' as int + 10)
    else None
  }

  function Hex(n: nat, width: nat): (s: string)
    requires n < Power16(width)
    ensures |s| == width
  {
    if width == 0 then "" else Hex(n / 16, width - 1) + [DIGITS[n % 16]]
  }

  function ReadHex(s: string): Option<nat> {
    if s == "" then Some(0)
    else
      var rest := ReadHex(s[..|s| - 1]);
      var digit := DigitValue(s[|s| - 1]);
      if rest.None? || digit.None? then None else Some(16 * rest.value + digit.value)
  }

  /** Dashes after digits 8, 12, 16 and 20. */
  function Hyphenate(s: string): (h: string)
    requires |s| == 32
    ensures |h| == 36
  {
    s[..8] + "-" + s[8..12] + "-" + s[12..16] + "-" + s[16..20] + "-" + s[20..]
  }

  function ParseHyphenated(s: string): Option<nat> {
    if |s| == 36 && s[8] == s[13] == s[18] == s[23] == '-'
    then ReadHex(s[..8] + s[9..13] + s[14..18] + s[19..23] + s[24..])
    else None
  }

  /** The four spellings that are accepted: plain, hyphenated, in braces, and as a URN. */
  function Parse(s: string): Option<nat> {
    if |s| == 32 then ReadHex(s)
    else if |s| == 36 then ParseHyphenated(s)
    else if |s| == 38 && s[0] == '{' && s[37] == '}' then ParseHyphenated(s[1..37])
    else if |s| == 45 && s[..9] == "urn:uuid:" then ParseHyphenated(s[9..])
    else None
  }

  /** The spelling that is written. */
  function Format(id: nat): (s: string)
    requires id < LIMIT
  {
    Hyphenate(Hex(id, 32))
  }

  lemma DigitIsRead(d: nat)
    requires d < 16
    ensures DigitValue(DIGITS[d]) == Some(d)
  {
  }

  lemma {:induction false} ReadWhatIsWritten(n: nat, width: nat)
    requires n < Power16(width)
    ensures ReadHex(Hex(n, width)) == Some(n)
  {
    if width > 0 {
      ReadWhatIsWritten(n / 16, width - 1);
      var s := Hex(n, width);
      assert s[..|s| - 1] == Hex(n / 16, width - 1);
      DigitIsRead(n % 16);
      hide DigitValue, Power16;
    }
  }

  lemma {:induction false} DashesAreSkipped(s: string)
    requires |s| == 32
    ensures ParseHyphenated(Hyphenate(s)) == ReadHex(s)
  {
    hide ReadHex;
    var h := Hyphenate(s);
    assert h[..8] == s[..8];
    assert h[9..13] == s[8..12];
    assert h[14..18] == s[12..16];
    assert h[19..23] == s[16..20];
    assert h[24..] == s[20..];
    assert s == s[..8] + s[8..12] + s[12..16] + s[16..20] + s[20..];
  }

  lemma WrappersAreSkipped(h: string)
    requires |h| == 36
    ensures Parse(h) == Parse("{" + h + "}") == Parse("urn:uuid:" + h) == ParseHyphenated(h)
  {
    hide ParseHyphenated, ReadHex;
    assert ("{" + h + "}")[1..37] == h;
    assert ("urn:uuid:" + h)[9..] == h;
    assert ("urn:uuid:" + h)[..9] == "urn:uuid:";
  }

  /** Every identifier can be read back from the text it is written as, and from the other accepted spellings of it. */
  lemma {:induction false} ParseFormat(id: nat)
    requires id < LIMIT
    ensures Parse(Format(id)) == Some(id)
    ensures Parse("{" + Format(id) + "}") == Some(id)
    ensures Parse("urn:uuid:" + Format(id)) == Some(id)
    ensures Parse(Hex(id, 32)) == Some(id)
  {
    hide ReadHex, Hyphenate, ParseHyphenated, Power16, Hex;
    ReadWhatIsWritten(id, 32);
    DashesAreSkipped(Hex(id, 32));
    WrappersAreSkipped(Format(id));
  }

  lemma {:induction false} HexIsLowerCase(n: nat, width: nat)
    requires n < Power16(width)
    ensures forall i | 0 <= i < width :: Hex(n, width)[i] in "0123456789abcdef"
  {
    if width > 0 {
      HexIsLowerCase(n / 16, width - 1);
      assert DIGITS[n % 16] in DIGITS;
    }
  }

  lemma DashesGoBetween(s: string)
    requires |s| == 32
    ensures var h := Hyphenate(s);
            && h[8] == h[13] == h[18] == h[23] == '-'
            && (forall i | 0 <= i < 8 :: h[i] == s[i]) && (forall i | 9 <= i < 13 :: h[i] == s[i - 1])
            && (forall i | 14 <= i < 18 :: h[i] == s[i - 2]) && (forall i | 19 <= i < 23 :: h[i] == s[i - 3])
            && forall i | 24 <= i < 36 :: h[i] == s[i - 4]
  {
  }

  /** The one spelling that is written: lower-case digits in groups of eight, three times four, and twelve. */
  lemma {:induction false} FormatIsCanonical(id: nat)
    requires id < LIMIT
    ensures |Format(id)| == 36
    ensures forall i | 0 <= i < 36 ::
              if i in {8, 13, 18, 23} then Format(id)[i] == '-' else Format(id)[i] in "0123456789abcdef"
  {
    HexIsLowerCase(id, 32);
    DashesGoBetween(Hex(id, 32));
    hide Hex, Power16, Hyphenate;
  }

  /** Upper and lower case are the same digit, and nothing else is a digit. */
  lemma DigitsAre(c: char)
    ensures DigitValue(c).Some? <==> '0' <= c <= '9' || 'a' <= c <= 'f' || 'A' <= c <= 'F'
    ensures 'A' <= c <= 'F' ==> DigitValue(c) == DigitValue((c as int + 32) as char)
  {
  }

  /** What is read was spelled in one of the four ways, with thirty-two digits. */
  lemma ParsedIsSpelled(s: string)
    requires Parse(s).Some?
    ensures exists x: string :: |x| == 32 && ReadHex(x) == Parse(s)
              && (s == x || s == Hyphenate(x) || s == "{" + Hyphenate(x) + "}" || s == "urn:uuid:" + Hyphenate(x))
  {
    hide ReadHex;
    if |s| == 32 {
    } else if |s| == 36 {
      var x := HyphenatedIsSpelled(s);
    } else if |s| == 38 {
      var x := HyphenatedIsSpelled(s[1..37]);
      assert s == [s[0]] + s[1..37] + [s[37]];
    } else {
      var x := HyphenatedIsSpelled(s[9..]);
      assert s == s[..9] + s[9..];
    }
  }

  lemma HyphenatedIsSpelled(s: string) returns (x: string)
    requires ParseHyphenated(s).Some?
    ensures |x| == 32 && ReadHex(x) == ParseHyphenated(s) && s == Hyphenate(x)
  {
    hide ReadHex;
    x := s[..8] + s[9..13] + s[14..18] + s[19..23] + s[24..];
    assert x[..8] == s[..8] && x[8..12] == s[9..13] && x[12..16] == s[14..18] && x[16..20] == s[19..23] && x[20..] == s[24..];
    assert s == s[..8] + "-" + s[9..13] + "-" + s[14..18] + "-" + s[19..23] + "-" + s[24..];
  }
}
