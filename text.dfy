/**
 * String operations the scripts rely on, over ASCII case mapping:
 * `trim()`, `toUpperCase()`, and the case-insensitive substring test
 * that a regular expression with the `i` flag performs.
 */
module Text {

  const CONSENT_LABEL := "AGREE"

  /** `toUpperCase()` on one character, restricted to ASCII letters. */
  function UpperAscii(c: char): char {
    if 'a' <= c <= 'z' then (c as int - 32) as char else c
  }

  function ToUpperAscii(s: string): (r: string)
    ensures |r| == |s|
    ensures forall i :: 0 <= i < |s| ==> r[i] == UpperAscii(s[i])
  {
    seq(|s|, i requires 0 <= i < |s| => UpperAscii(s[i]))
  }

  /** Upper-casing gives an ASCII capital exactly from that capital or its lower-case letter. */
  lemma UpperCharIff(c: char, u: char)
    requires 'A' <= u <= 'Z'
    ensures UpperAscii(c) == u <==> c == u || c as int == u as int + 32
  {
  }

  /** A string upper-cases to "AGREE" exactly when it spells a-g-r-e-e letter by letter, each letter in either case. */
  lemma UpperIsLabelIff(s: string)
    ensures ToUpperAscii(s) == CONSENT_LABEL <==>
      |s| == 5 && s[0] in "aA" && s[1] in "gG" && s[2] in "rR" && s[3] in "eE" && s[4] in "eE"
  {
    if |s| == 5 {
      UpperCharIff(s[0], 'A');
      UpperCharIff(s[1], 'G');
      UpperCharIff(s[2], 'R');
      UpperCharIff(s[3], 'E');
      UpperCharIff(s[4], 'E');
      var r := ToUpperAscii(s);
      assert r == CONSENT_LABEL <==> r[0] == 'A' && r[1] == 'G' && r[2] == 'R' && r[3] == 'E' && r[4] == 'E';
    }
  }

  /** Equal up to ASCII letter case (how `/.../i` compares characters). */
  predicate EqIgnoreCase(a: string, b: string) {
    ToUpperAscii(a) == ToUpperAscii(b)
  }

  /** The characters that `String.prototype.trim` removes (WhiteSpace and LineTerminator). */
  predicate IsJsWhitespace(c: char) {
    c in {'\U{0009}', '\U{000A}', '\U{000B}', '\U{000C}', '\U{000D}', '\U{0020}', '\U{00A0}',
          '\U{1680}', '\U{2000}', '\U{2001}', '\U{2002}', '\U{2003}', '\U{2004}', '\U{2005}',
          '\U{2006}', '\U{2007}', '\U{2008}', '\U{2009}', '\U{200A}', '\U{2028}', '\U{2029}',
          '\U{202F}', '\U{205F}', '\U{3000}', '\U{FEFF}'}
  }

  predicate AllWhitespace(s: string) {
    forall i :: 0 <= i < |s| ==> IsJsWhitespace(s[i])
  }

  /** Removes leading whitespace. */
  function TrimStart(s: string): string
    decreases |s|
  {
    if |s| > 0 && IsJsWhitespace(s[0]) then TrimStart(s[1..]) else s
  }

  /** Removes trailing whitespace. */
  function TrimEnd(s: string): string
    decreases |s|
  {
    if |s| > 0 && IsJsWhitespace(s[|s| - 1]) then TrimEnd(s[..|s| - 1]) else s
  }

  /** `TrimStart` leaves what follows the longest whitespace prefix. */
  lemma {:induction false} TrimStartSpec(s: string)
    ensures |TrimStart(s)| <= |s| && TrimStart(s) == s[|s| - |TrimStart(s)|..]
    ensures AllWhitespace(s[..|s| - |TrimStart(s)|])
    ensures TrimStart(s) == [] || !IsJsWhitespace(TrimStart(s)[0])
    decreases |s|
  {
    if |s| > 0 && IsJsWhitespace(s[0]) {
      TrimStartSpec(s[1..]);
      var r := TrimStart(s[1..]);
      var head := s[..|s| - |r|];
      forall i | 0 <= i < |head|
        ensures IsJsWhitespace(head[i])
      {
        if i > 0 {
          assert head[i] == s[1..][..|s| - 1 - |r|][i - 1];
        }
      }
    }
  }

  /** `TrimEnd` leaves what precedes the longest whitespace suffix. */
  lemma {:induction false} TrimEndSpec(s: string)
    ensures |TrimEnd(s)| <= |s| && TrimEnd(s) == s[..|TrimEnd(s)|]
    ensures AllWhitespace(s[|TrimEnd(s)|..])
    ensures TrimEnd(s) == [] || !IsJsWhitespace(TrimEnd(s)[|TrimEnd(s)| - 1])
    decreases |s|
  {
    if |s| > 0 && IsJsWhitespace(s[|s| - 1]) {
      TrimEndSpec(s[..|s| - 1]);
      var r := TrimEnd(s[..|s| - 1]);
      var tail := s[|r|..];
      forall i | 0 <= i < |tail|
        ensures IsJsWhitespace(tail[i])
      {
        if i < |tail| - 1 {
          assert tail[i] == s[..|s| - 1][|r|..][i];
        }
      }
    }
  }

  /** `s.trim()` */
  function Trim(s: string): string {
    TrimEnd(TrimStart(s))
  }

  /** `(text || '').trim().toUpperCase() === 'AGREE'` */
  predicate IsConsentLabel(s: string) {
    ToUpperAscii(Trim(s)) == CONSENT_LABEL
  }

  lemma {:induction false} TrimStartAfterWhitespace(w: string, m: string)
    requires AllWhitespace(w)
    requires m == [] || !IsJsWhitespace(m[0])
    ensures TrimStart(w + m) == m
    decreases |w|
  {
    if w != [] {
      assert (w + m)[1..] == w[1..] + m;
      TrimStartAfterWhitespace(w[1..], m);
    } else {
      assert w + m == m;
    }
  }

  lemma {:induction false} TrimEndBeforeWhitespace(m: string, w: string)
    requires AllWhitespace(w)
    requires m == [] || !IsJsWhitespace(m[|m| - 1])
    ensures TrimEnd(m + w) == m
    decreases |w|
  {
    if w != [] {
      assert (m + w)[..|m + w| - 1] == m + w[..|w| - 1];
      TrimEndBeforeWhitespace(m, w[..|w| - 1]);
    } else {
      assert m + w == m;
    }
  }

  /** Surrounding whitespace is ignored: a label padded with whitespace trims back to the label. */
  lemma TrimPadded(w1: string, m: string, w2: string)
    requires AllWhitespace(w1) && AllWhitespace(w2)
    requires m != [] && !IsJsWhitespace(m[0]) && !IsJsWhitespace(m[|m| - 1])
    ensures Trim(w1 + m + w2) == m
  {
    assert w1 + m + w2 == w1 + (m + w2);
    TrimStartAfterWhitespace(w1, m + w2);
    TrimEndBeforeWhitespace(m, w2);
  }

  /** `s` is `m` padded with whitespace on both sides. */
  predicate PaddedBy(s: string, w1: string, m: string, w2: string) {
    s == w1 + m + w2 && AllWhitespace(w1) && AllWhitespace(w2)
  }

  lemma UpperLabel()
    ensures ToUpperAscii(CONSENT_LABEL) == CONSENT_LABEL
  {
    var u := ToUpperAscii(CONSENT_LABEL);
    assert u[0] == 'A' && u[1] == 'G' && u[2] == 'R' && u[3] == 'E' && u[4] == 'E';
  }

  lemma ConsentLabelPadded(s: string)
    requires IsConsentLabel(s)
    ensures exists i, j :: 0 <= i <= j <= |s| && PaddedBy(s, s[..i], s[i..j], s[j..])
                          && EqIgnoreCase(s[i..j], CONSENT_LABEL)
  {
    var a := TrimStart(s);
    TrimStartSpec(s);
    var i := |s| - |a|;
    var b := TrimEnd(a);
    TrimEndSpec(a);
    var j := i + |b|;
    assert a == s[i..];
    assert b == a[..|b|] == s[i..j];
    assert s[j..] == a[|b|..];
    assert s == s[..i] + s[i..j] + s[j..];
    UpperLabel();
    assert EqIgnoreCase(s[i..j], CONSENT_LABEL);
    assert PaddedBy(s, s[..i], s[i..j], s[j..]);
  }

  lemma PaddedConsentLabel(s: string, w1: string, m: string, w2: string)
    requires PaddedBy(s, w1, m, w2) && EqIgnoreCase(m, CONSENT_LABEL)
    ensures IsConsentLabel(s)
  {
    UpperLabel();
    assert |m| == 5;
    assert UpperAscii(m[0]) == 'A' && UpperAscii(m[4]) == 'E';
    TrimPadded(w1, m, w2);
  }

  /**
   * The consent-label test accepts exactly the strings made of optional
   * whitespace, then "agree" in any letter case, then optional whitespace.
   */
  lemma ConsentLabelIff(s: string)
    ensures IsConsentLabel(s) <==>
      exists i, j :: 0 <= i <= j <= |s| && PaddedBy(s, s[..i], s[i..j], s[j..])
                    && EqIgnoreCase(s[i..j], CONSENT_LABEL)
  {
    if IsConsentLabel(s) {
      ConsentLabelPadded(s);
    }
    if exists i, j :: 0 <= i <= j <= |s| && PaddedBy(s, s[..i], s[i..j], s[j..])
                    && EqIgnoreCase(s[i..j], CONSENT_LABEL) {
      var i, j :| 0 <= i <= j <= |s| && PaddedBy(s, s[..i], s[i..j], s[j..])
                  && EqIgnoreCase(s[i..j], CONSENT_LABEL);
      PaddedConsentLabel(s, s[..i], s[i..j], s[j..]);
    }
  }

  /** The window of `text` starting at `i` equals `pat` up to case. */
  predicate MatchesAt(text: string, pat: string, i: int) {
    0 <= i && i + |pat| <= |text| && EqIgnoreCase(text[i..i + |pat|], pat)
  }

  /** `/pat/i.test(text)` for a pattern without metacharacters: a case-insensitive substring search. */
  function ContainsIgnoreCase(text: string, pat: string): bool
    requires pat != ""
    decreases |text|
  {
    if |text| < |pat| then false
    else EqIgnoreCase(text[..|pat|], pat) || ContainsIgnoreCase(text[1..], pat)
  }

  /** The scan finds the pattern exactly when some window of the text equals it up to case. */
  lemma {:induction false} ContainsIgnoreCaseIff(text: string, pat: string)
    requires pat != ""
    ensures ContainsIgnoreCase(text, pat) <==> exists i :: MatchesAt(text, pat, i)
    decreases |text|
  {
    if |text| >= |pat| {
      ContainsIgnoreCaseIff(text[1..], pat);
      assert MatchesAt(text, pat, 0) <==> EqIgnoreCase(text[..|pat|], pat);
      if ContainsIgnoreCase(text[1..], pat) {
        var i :| MatchesAt(text[1..], pat, i);
        assert text[1..][i..i + |pat|] == text[i + 1..i + 1 + |pat|];
        assert MatchesAt(text, pat, i + 1);
      }
      if exists i :: MatchesAt(text, pat, i) {
        var i :| MatchesAt(text, pat, i);
        if i > 0 {
          assert text[1..][i - 1..i - 1 + |pat|] == text[i..i + |pat|];
          assert MatchesAt(text[1..], pat, i - 1);
        }
      }
    }
  }
}
