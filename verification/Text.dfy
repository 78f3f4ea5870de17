/** Words and blanks, as the standard library sees them. */
module Text {

  /** The characters with the Unicode property White_Space. */
  predicate WhiteSpace(c: char) {
    || '\t' <= c <= '\r' || c == ' ' || c == '\U{85}' || c == '\U{A0}' || c == '\U{1680}'
    || '\U{2000}' <= c <= '\U{200A}' || c == '\U{2028}' || c == '\U{2029}' || c == '\U{202F}'
    || c == '\U{205F}' || c == '\U{3000}'
  }

  /** All of them, one by one. */
  lemma BlanksAre(c: char)
    ensures WhiteSpace(c) <==>
              c in {'\t', '\n', '\U{0B}', '\U{0C}', '\r', ' ', '\U{85}', '\U{A0}', '\U{1680}', '\U{2000}', '\U{2001}',
                    '\U{2002}', '\U{2003}', '\U{2004}', '\U{2005}', '\U{2006}', '\U{2007}', '\U{2008}', '\U{2009}',
                    '\U{200A}', '\U{2028}', '\U{2029}', '\U{202F}', '\U{205F}', '\U{3000}'}
  {
  }

  predicate Blank(s: string) {
    forall i | 0 <= i < |s| :: WhiteSpace(s[i])
  }

  /** The length of the first word of a text that does not start with a blank. */
  function WordLength(s: string): (n: nat)
    ensures n <= |s|
    ensures s != "" && !WhiteSpace(s[0]) ==> n > 0
  {
    if s == "" || WhiteSpace(s[0]) then 0 else 1 + WordLength(s[1..])
  }

  /** A text cut at its blanks. */
  function Words(s: string): seq<string>
    decreases |s|
  {
    if s == "" then []
    else if WhiteSpace(s[0]) then Words(s[1..])
    else [s[..WordLength(s)]] + Words(s[WordLength(s)..])
  }

  /** A stretch without blanks that cannot be made longer. */
  ghost predicate IsWord(s: string, i: int, j: int) {
    && 0 <= i < j <= |s| && (forall k | i <= k < j :: !WhiteSpace(s[k]))
    && (i > 0 ==> WhiteSpace(s[i - 1])) && (j < |s| ==> WhiteSpace(s[j]))
  }

  lemma {:induction false} FirstWord(s: string)
    ensures forall k | 0 <= k < WordLength(s) :: !WhiteSpace(s[k])
    ensures WordLength(s) < |s| ==> WhiteSpace(s[WordLength(s)])
  {
    if s != "" && !WhiteSpace(s[0]) {
      FirstWord(s[1..]);
    }
  }

  ghost predicate HasWord(s: string, from: int, w: string) {
    exists i, j :: i >= from && IsWord(s, i, j) && s[i..j] == w
  }

  lemma WordAfter(s: string, n: nat, i: int, j: int)
    requires n <= |s| && (n == |s| || WhiteSpace(s[n]) || (n > 0 && WhiteSpace(s[n - 1])))
    requires i >= n
    ensures IsWord(s, i, j) <==> IsWord(s[n..], i - n, j - n)
    ensures IsWord(s, i, j) ==> s[i..j] == s[n..][i - n..j - n]
  {
    var t := s[n..];
    if i > n && i <= |s| {
      assert t[i - n - 1] == s[i - 1];
    }
    if i < j <= |s| {
      assert forall k | i <= k < j :: s[k] == t[k - n];
      assert forall k | i - n <= k < j - n :: t[k] == s[k + n];
    }
  }

  lemma WordsAfter(s: string, n: nat, w: string)
    requires n <= |s| && (n == |s| || WhiteSpace(s[n]) || (n > 0 && WhiteSpace(s[n - 1])))
    ensures HasWord(s, n, w) <==> HasWord(s[n..], 0, w)
  {
    if HasWord(s, n, w) {
      var i, j :| i >= n && IsWord(s, i, j) && s[i..j] == w;
      WordAfter(s, n, i, j);
      assert IsWord(s[n..], i - n, j - n) && s[n..][i - n..j - n] == w;
    }
    if HasWord(s[n..], 0, w) {
      var i, j :| i >= 0 && IsWord(s[n..], i, j) && s[n..][i..j] == w;
      WordAfter(s, n, i + n, j + n);
      assert IsWord(s, i + n, j + n) && s[i + n..j + n] == w;
    }
  }

  /** The words of a text are its longest stretches without blanks. */
  lemma {:induction false} WordsAreStretches(s: string, w: string)
    ensures w in Words(s) <==> exists i, j :: IsWord(s, i, j) && s[i..j] == w
    decreases |s|
  {
    assert HasWord(s, 0, w) <==> exists i, j :: IsWord(s, i, j) && s[i..j] == w;
    if s != "" && WhiteSpace(s[0]) {
      WordsAreStretches(s[1..], w);
      WordsAfter(s, 1, w);
      assert forall i, j | IsWord(s, i, j) :: i >= 1;
    } else if s != "" {
      var n := WordLength(s);
      FirstWord(s);
      WordsAreStretches(s[n..], w);
      WordsAfter(s, n, w);
      FirstStretch(s, n, w);
    }
  }

  lemma FirstStretch(s: string, n: nat, w: string)
    requires 0 < n <= |s| && IsWord(s, 0, n)
    ensures HasWord(s, 0, w) <==> s[..n] == w || HasWord(s, n, w)
  {
    forall i, j | IsWord(s, i, j) ensures (i == 0 && j == n) || i >= n {
    }
    assert s[0..n] == s[..n];
  }

  // ----- Order -----

  /** Code point order, which is byte order on UTF-8: how the databases and the string comparisons order text. */
  predicate TextLess(a: string, b: string) {
    if b == "" then false
    else if a == "" then true
    else if a[0] != b[0] then a[0] < b[0]
    else TextLess(a[1..], b[1..])
  }

  /** One text comes before another exactly if it is a proper prefix or has the smaller character where they part. */
  lemma {:induction false} TextLessIff(a: string, b: string)
    ensures TextLess(a, b)
       <==> exists k :: 0 <= k <= |a| && k < |b| && a[..k] == b[..k] && (k == |a| || a[k] < b[k])
  {
    if b != "" && a != "" && a[0] == b[0] {
      TextLessIff(a[1..], b[1..]);
      if k :| 0 <= k <= |a| && k < |b| && a[..k] == b[..k] && (k == |a| || a[k] < b[k]) {
        assert k > 0;
        assert a[1..][..k - 1] == a[..k][1..] && b[1..][..k - 1] == b[..k][1..];
      }
      if k :| 0 <= k <= |a| - 1 && k < |b| - 1 && a[1..][..k] == b[1..][..k] && (k == |a| - 1 || a[1..][k] < b[1..][k]) {
        assert a[..k + 1] == [a[0]] + a[1..][..k] && b[..k + 1] == [b[0]] + b[1..][..k];
      }
    } else if b != "" {
      assert a[..0] == b[..0];
      if k :| 0 <= k <= |a| && k < |b| && a[..k] == b[..k] && (k == |a| || a[k] < b[k]) {
        assert k > 0 ==> a[..k][0] == b[..k][0];
      }
    }
  }

  /** Of two texts that start with parts of equal length, those parts decide unless they are the same. */
  lemma {:induction false} PrefixDecides(p: string, q: string, a: string, b: string)
    requires |p| == |q|
    ensures TextLess(p + a, q + b) == if p == q then TextLess(a, b) else TextLess(p, q)
  {
    if p == "" {
      assert p + a == a && q + b == b;
    } else {
      PrefixDecides(p[1..], q[1..], a, b);
      assert (p + a)[1..] == p[1..] + a && (q + b)[1..] == q[1..] + b;
      assert (p + a)[0] == p[0] && (q + b)[0] == q[0];
      assert p == q <==> p[0] == q[0] && p[1..] == q[1..] by {
        assert p == [p[0]] + p[1..] && q == [q[0]] + q[1..];
      }
    }
  }

  lemma {:induction false} Asymmetric(a: string, b: string)
    ensures !(TextLess(a, b) && TextLess(b, a))
  {
    if a != "" && b != "" && a[0] == b[0] {
      Asymmetric(a[1..], b[1..]);
    }
  }

  lemma {:induction false} Irreflexive(a: string)
    ensures !TextLess(a, a)
  {
    Asymmetric(a, a);
  }

  lemma {:induction false} Trichotomy(a: string, b: string)
    ensures TextLess(a, b) || a == b || TextLess(b, a)
  {
    if a != "" && b != "" && a[0] == b[0] {
      Trichotomy(a[1..], b[1..]);
      assert a == [a[0]] + a[1..] && b == [b[0]] + b[1..];
    }
  }

  lemma {:induction false} Transitive(a: string, b: string, c: string)
    requires TextLess(a, b) && TextLess(b, c)
    ensures TextLess(a, c)
  {
    if a != "" && a[0] == b[0] == c[0] {
      Transitive(a[1..], b[1..], c[1..]);
    }
  }

  // ----- Sorting and removing duplicates -----

  function InsertText(text: string, texts: seq<string>): seq<string> {
    if texts == [] || TextLess(text, texts[0]) then [text] + texts
    else if text == texts[0] then texts
    else [texts[0]] + InsertText(text, texts[1..])
  }

  /** Each text once, in order. */
  function SortedDistinct(texts: seq<string>): seq<string> {
    if texts == [] then [] else InsertText(texts[0], SortedDistinct(texts[1..]))
  }

  predicate Increasing(texts: seq<string>) {
    forall i | 0 <= i < |texts| - 1 :: TextLess(texts[i], texts[i + 1])
  }

  lemma {:induction false} InsertTextKeepsOrder(text: string, texts: seq<string>)
    requires Increasing(texts)
    ensures var r := InsertText(text, texts);
            && Increasing(r) && r != []
            && (r[0] == text || (texts != [] && r[0] == texts[0]))
            && forall x :: x in r <==> x == text || x in texts
  {
    hide TextLess;
    if texts == [] || TextLess(text, texts[0]) {
    } else if text == texts[0] {
    } else {
      Trichotomy(text, texts[0]);
      InsertTextKeepsOrder(text, texts[1..]);
      assert texts == [texts[0]] + texts[1..];
    }
  }

  lemma {:induction false} SortedDistinctIsOrdered(texts: seq<string>)
    ensures Increasing(SortedDistinct(texts))
    ensures forall x :: x in SortedDistinct(texts) <==> x in texts
    ensures Increasing(texts) ==> SortedDistinct(texts) == texts
  {
    hide TextLess;
    if texts != [] {
      SortedDistinctIsOrdered(texts[1..]);
      InsertTextKeepsOrder(texts[0], SortedDistinct(texts[1..]));
      assert texts == [texts[0]] + texts[1..];
      if Increasing(texts) {
        forall i | 0 <= i < |texts| - 2 ensures TextLess(texts[1..][i], texts[1..][i + 1]) {
          assert TextLess(texts[i + 1], texts[i + 1 + 1]);
        }
        assert |texts| > 1 ==> TextLess(texts[0], texts[1]);
      }
    }
  }
}
