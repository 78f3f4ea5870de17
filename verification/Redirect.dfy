/** The authorization redirect: percent-encoding, and reading the parameters back out of the query. */
module Redirect {
  import opened Prelude

  type Byte = b: int | 0 <= b < 256

  const HEX := "0123456789ABCDEF"

  /** The characters that stand for themselves (RFC 3986, section 2.3). */
  predicate Unreserved(b: Byte) {
    || 'A' as int <= b <= 'Z' as int || 'a' as int <= b <= 'z' as int || '0' as int <= b <= '9' as int
    || b == '-' as int || b == '.' as int || b == '_' as int || b == '~' as int
  }

  function EncodeByte(b: Byte): string {
    if Unreserved(b) then [b as char] else ['%', HEX[b / 16], HEX[b % 16]]
  }

  function Encode(value: seq<Byte>): string {
    if value == [] then "" else EncodeByte(value[0]) + Encode(value[1..])
  }

  /** What comes out for one byte: itself if unreserved, else a percent sign and its two upper-case digits. */
  lemma BytesAreEscaped(b: Byte)
    ensures var c := b as char;
            EncodeByte(b) == if 'A' <= c <= 'Z' || 'a' <= c <= 'z' || '0' <= c <= '9' || c in {'-', '.', '_', '~'} then [c]
                             else ['%', "0123456789ABCDEF"[b / 16], "0123456789ABCDEF"[b % 16]]
  {
  }

  lemma EncodeNext(value: seq<Byte>, i: nat)
    requires i < |value|
    ensures Encode(value[i..]) == EncodeByte(value[i]) + Encode(value[i + 1..])
  {
    assert value[i..][0] == value[i] && value[i..][1..] == value[i + 1..];
  }

  /** Append each byte to the buffer, escaped where needed. */
  method QueryComponent(value: seq<Byte>) returns (encoded: string)
    ensures encoded == Encode(value)
  {
    hide Encode;
    encoded := "";
    ghost var whole := Encode(value);
    assert value[0..] == value;
    for i := 0 to |value|
      invariant encoded + Encode(value[i..]) == whole
    {
      EncodeNext(value, i);
      ghost var rest := Encode(value[i + 1..]);
      assert encoded + (EncodeByte(value[i]) + rest) == (encoded + EncodeByte(value[i])) + rest;
      if Unreserved(value[i]) {
        encoded := encoded + [value[i] as char];
      } else {
        encoded := encoded + ['%', HEX[value[i] / 16], HEX[value[i] % 16]];
      }
    }
    EncodeNothing(value[|value|..]);
    assert encoded + "" == encoded;
  }

  lemma {:induction false} EncodeNothing(value: seq<Byte>)
    requires value == []
    ensures Encode(value) == ""
  {
  }

  function HexValue(c: char): Option<int> {
    if '0' <= c <= '9' then Some(c as int - '0' as int)
    else if 'A' <= c <= 'F' then Some(c as int - 'A' as int + 10)
    else if 'a' <= c <= 'f' then Some(c as int - 'a' as int + 10)
    else None
  }

  /** Percent-decoding as any receiver does it. */
  function Decode(s: string): Option<seq<Byte>> {
    if s == "" then Some([])
    else if s[0] == '%' then
      if |s| < 3 || HexValue(s[1]).None? || HexValue(s[2]).None? then None
      else
        var rest := Decode(s[3..]);
        if rest.None? then None else Some([16 * HexValue(s[1]).value + HexValue(s[2]).value] + rest.value)
    else if s[0] as int >= 128 then None
    else
      var rest := Decode(s[1..]);
      if rest.None? then None else Some([s[0] as int] + rest.value)
  }

  lemma {:induction false} DecodePlain(b: Byte, rest: string)
    requires Unreserved(b)
    ensures Decode(EncodeByte(b) + rest) == (match Decode(rest) case None => None case Some(bytes) => Some([b] + bytes))
  {
    var s := [b as char] + rest;
    assert s[1..] == rest && s[0] == b as char;
  }

  lemma {:induction false} DecodeEscaped(b: Byte, rest: string)
    requires !Unreserved(b)
    ensures Decode(EncodeByte(b) + rest) == (match Decode(rest) case None => None case Some(bytes) => Some([b] + bytes))
  {
    var s := ['%', HEX[b / 16], HEX[b % 16]] + rest;
    assert s[3..] == rest && s[0] == '%' && s[1] == HEX[b / 16] && s[2] == HEX[b % 16];
    DigitsAreRead(b / 16);
    DigitsAreRead(b % 16);
    hide HexValue;
  }

  lemma DigitsAreRead(n: int)
    requires 0 <= n < 16
    ensures HexValue(HEX[n]) == Some(n)
  {
  }

  /** Decoding undoes encoding for every string of bytes. */
  lemma {:induction false} DecodeEncode(value: seq<Byte>)
    ensures Decode(Encode(value)) == Some(value)
  {
    if value != [] {
      DecodeEncode(value[1..]);
      if Unreserved(value[0]) {
        DecodePlain(value[0], Encode(value[1..]));
      } else {
        DecodeEscaped(value[0], Encode(value[1..]));
      }
      hide EncodeByte, Decode;
      assert value == [value[0]] + value[1..];
    }
  }

  predicate Plain(c: char) {
    c == '%' || (c as int < 256 && Unreserved(c as int))
  }

  lemma ByteIsPlain(b: Byte)
    ensures forall c | c in EncodeByte(b) :: Plain(c)
  {
  }

  /** Nothing but unreserved characters and percent signs comes out. */
  lemma {:induction false} EncodedIsPlain(value: seq<Byte>)
    ensures forall c | c in Encode(value) :: Plain(c)
  {
    if value != [] {
      EncodedIsPlain(value[1..]);
      ByteIsPlain(value[0]);
      hide EncodeByte, Plain;
    }
  }

  /** The redirect target with the code and, if there is one, the state appended to its query. */
  function AuthorizeRedirect(redirect: string, code: seq<Byte>, state: Option<seq<Byte>>): string {
    redirect + (if '?' in redirect then "&" else "?") + "code=" + Encode(code)
    + (if state.Some? then "&state=" + Encode(state.value) else "")
  }

  // ----- Reading it back -----

  /** Everything before the first occurrence of a character, and everything after it. */
  function Cut(s: string, c: char): (r: (string, Option<string>))
    ensures r.1.Some? ==> |r.1.value| < |s|
  {
    if s == "" then ("", None)
    else if s[0] == c then ("", Some(s[1..]))
    else var (head, tail) := Cut(s[1..], c); ([s[0]] + head, tail)
  }

  function Split(s: string, c: char): seq<string>
    decreases |s|
  {
    var (head, tail) := Cut(s, c);
    if tail.None? then [head] else [head] + Split(tail.value, c)
  }

  /** The raw parameters of a URL without fragment. */
  function Parameters(url: string): seq<string> {
    var query := Cut(url, '?').1;
    if query.None? then [] else Split(query.value, '&')
  }

  lemma {:induction false} CutAppends(a: string, b: string, c: char)
    ensures Cut(a + b, c) == if Cut(a, c).1.Some? then (Cut(a, c).0, Some(Cut(a, c).1.value + b))
                             else (a + Cut(b, c).0, Cut(b, c).1)
  {
    if a == "" {
      assert a + b == b;
      assert a + Cut(b, c).0 == Cut(b, c).0;
    } else {
      CutAppends(a[1..], b, c);
      assert (a + b)[1..] == a[1..] + b;
      assert (a + b)[0] == a[0];
      assert [a[0]] + (a[1..] + Cut(b, c).0) == a + Cut(b, c).0;
    }
  }

  lemma {:induction false} CutFinds(s: string, c: char)
    ensures Cut(s, c).1.Some? <==> c in s
    ensures c !in s ==> Cut(s, c).0 == s
  {
    if s != "" {
      CutFinds(s[1..], c);
    }
  }

  /** Joining two texts with a separator joins their parts. */
  lemma {:induction false} SplitJoins(a: string, b: string, c: char)
    ensures Split(a + [c] + b, c) == Split(a, c) + Split(b, c)
    decreases |a|
  {
    CutAppends(a, [c] + b, c);
    assert a + [c] + b == a + ([c] + b);
    assert ([c] + b)[1..] == b;
    var (head, tail) := Cut(a, c);
    if tail.Some? {
      SplitJoins(tail.value, b, c);
      assert tail.value + [c] + b == tail.value + ([c] + b);
    } else {
      CutFinds(a, c);
      assert ([c] + b)[0] == c;
      assert Cut(a + ([c] + b), c) == (a + "", Some(b));
      assert a + "" == a;
    }
  }

  lemma {:induction false} OneParameter(name: string, value: seq<Byte>)
    requires '&' !in name
    ensures Split(name + Encode(value), '&') == [name + Encode(value)]
  {
    EncodedIsPlain(value);
    assert !Plain('&');
    CutFinds(name + Encode(value), '&');
  }

  lemma {:induction false} QueryGrows(redirect: string, suffix: string)
    ensures Parameters(redirect + (if '?' in redirect then "&" else "?") + suffix)
         == Parameters(redirect) + Split(suffix, '&')
  {
    var joint := if '?' in redirect then "&" else "?";
    var target := redirect + joint + suffix;
    assert target == redirect + (joint + suffix);
    CutAppends(redirect, joint + suffix, '?');
    CutFinds(redirect, '?');
    if '?' in redirect {
      var query := Cut(redirect, '?').1.value;
      assert query + (joint + suffix) == query + ['&'] + suffix;
      SplitJoins(query, suffix, '&');
    } else {
      assert (joint + suffix)[1..] == suffix;
    }
  }

  /**
   * Whatever the code and the state contain, the target has the redirect's own parameters and then exactly these one or two,
   * and decoding their values gives the code and the state back.
   */
  lemma {:induction false} RedirectRoundTrip(redirect: string, code: seq<Byte>, state: Option<seq<Byte>>)
    ensures Parameters(AuthorizeRedirect(redirect, code, state))
         == Parameters(redirect) + ["code=" + Encode(code)]
            + (if state.Some? then ["state=" + Encode(state.value)] else [])
    ensures var (name, value) := Cut("code=" + Encode(code), '=');
            name == "code" && value.Some? && Decode(value.value) == Some(code)
    ensures state.Some? ==>
              var (name, value) := Cut("state=" + Encode(state.value), '=');
              name == "state" && value.Some? && Decode(value.value) == state
  {
    hide Encode, Decode, Cut, Split, Parameters;
    NameAndValue("code", code);
    OneParameter("code=", code);
    var first := "code=" + Encode(code);
    var joint := if '?' in redirect then "&" else "?";
    assert "code" + "=" == "code=" && "state" + "=" == "state=";
    if state.Some? {
      var second := "state=" + Encode(state.value);
      NameAndValue("state", state.value);
      OneParameter("state=", state.value);
      SplitJoins(first, second, '&');
      QueryGrows(redirect, first + ['&'] + second);
      assert AuthorizeRedirect(redirect, code, state) == redirect + joint + (first + ['&'] + second);
    } else {
      QueryGrows(redirect, first);
      assert AuthorizeRedirect(redirect, code, state) == redirect + joint + first;
    }
  }

  lemma {:induction false} NameAndValue(name: string, value: seq<Byte>)
    requires '=' !in name
    ensures Cut(name + "=" + Encode(value), '=') == (name, Some(Encode(value)))
    ensures Decode(Encode(value)) == Some(value)
  {
    hide Encode;
    DecodeEncode(value);
    CutFinds(name, '=');
    var tail := "=" + Encode(value);
    CutAppends(name, tail, '=');
    assert name + "=" + Encode(value) == name + tail;
    assert tail[0] == '=' && tail[1..] == Encode(value);
    assert Cut(tail, '=') == ("", Some(Encode(value)));
    assert name + "" == name;
  }
}
