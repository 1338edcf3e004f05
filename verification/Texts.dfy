/** Scanning and stripping texts. */
module Texts {
  import opened Basics

  /** What `\s` and `strip()` take for white space. */
  predicate IsSpace(c: char) {
    || '\t' <= c <= '\r' || '\U{1c}' <= c <= ' ' || c == '\U{85}' || c == '\U{a0}' || c == '\U{1680}'
    || '\U{2000}' <= c <= '\U{200a}' || c in "\U{2028}\U{2029}\U{202f}\U{205f}\U{3000}"
  }

  predicate NotSpace(c: char) {
    !IsSpace(c)
  }

  /** How many leading characters satisfy `p`. */
  function Prefix(s: string, p: char -> bool): (n: nat)
    ensures n <= |s|
  {
    if s == [] || !p(s[0]) then 0 else 1 + Prefix(s[1..], p)
  }

  ghost predicate Every(s: string, p: char -> bool) {
    forall i :: 0 <= i < |s| ==> p(s[i])
  }

  function LStrip(s: string): string {
    s[Prefix(s, IsSpace)..]
  }

  function RStrip(s: string): string {
    if s != [] && IsSpace(s[|s| - 1]) then RStrip(s[..|s| - 1]) else s
  }

  function Strip(s: string): string {
    RStrip(LStrip(s))
  }

  lemma {:induction false} PrefixIs(a: string, b: string, p: char -> bool)
    requires Every(a, p) && (b == [] || !p(b[0]))
    ensures Prefix(a + b, p) == |a|
  {
    if a == [] {
      assert a + b == b;
    } else {
      assert (a + b)[1..] == a[1..] + b;
      PrefixIs(a[1..], b, p);
    }
  }

  lemma EveryAppend(a: string, b: string, p: char -> bool)
    ensures Every(a + b, p) <==> Every(a, p) && Every(b, p)
  {
    if Every(a + b, p) {
      assert forall i :: 0 <= i < |a| ==> a[i] == (a + b)[i];
      assert forall i :: 0 <= i < |b| ==> b[i] == (a + b)[|a| + i];
    }
  }

  lemma {:induction false} PrefixMeans(s: string, p: char -> bool)
    ensures Every(s[..Prefix(s, p)], p)
    ensures Prefix(s, p) < |s| ==> !p(s[Prefix(s, p)])
  {
    if s == [] || !p(s[0]) {
    } else {
      PrefixMeans(s[1..], p);
    }
  }

  lemma StripKeeps(s: string)
    requires s != [] ==> !IsSpace(s[0]) && !IsSpace(s[|s| - 1])
    ensures Strip(s) == s
  {
  }

  lemma {:induction false} RStripExactly(s: string)
    ensures RStrip(s) <= s && Every(s[|RStrip(s)|..], IsSpace)
    ensures RStrip(s) != [] ==> !IsSpace(RStrip(s)[|RStrip(s)| - 1])
  {
    if s == [] || !IsSpace(s[|s| - 1]) {
    } else {
      RStripExactly(s[..|s| - 1]);
      forall i | |RStrip(s)| <= i < |s| ensures IsSpace(s[i]) {
        if i < |s| - 1 {
          assert s[i] == s[..|s| - 1][|RStrip(s)|..][i - |RStrip(s)|];
        }
      }
    }
  }

  /** Stripping takes the white space off both ends and nothing else. */
  lemma StripExactly(s: string) returns (front: string, back: string)
    ensures s == front + Strip(s) + back && Every(front, IsSpace) && Every(back, IsSpace)
    ensures Strip(s) != [] ==> !IsSpace(Strip(s)[0]) && !IsSpace(Strip(s)[|Strip(s)| - 1])
  {
    var n := Prefix(s, IsSpace);
    PrefixMeans(s, IsSpace);
    RStripExactly(s[n..]);
    front, back := s[..n], s[n..][|Strip(s)|..];
    PrefixAndRest(s, n, Strip(s));
  }

  lemma PrefixAndRest(s: string, n: nat, middle: string)
    requires n <= |s| && middle <= s[n..]
    ensures s == s[..n] + middle + s[n..][|middle|..]
    ensures middle != [] ==> n < |s| && middle[0] == s[n]
  {
    assert s == s[..n] + s[n..] && s[n..] == middle + s[n..][|middle|..];
    if middle != [] {
      assert middle[0] == s[n..][0];
    }
  }

  // ---- Printed integers -------------------------------------------------------------------------

  function PrintDigit(d: nat): (c: char)
    requires d < 10
    ensures IsDigit(c) && DigitValue(c) == d
  {
    ('0' as int + d) as char
  }

  function PrintNat(n: nat): string {
    (if n < 10 then [] else PrintNat(n / 10)) + [PrintDigit(n % 10)]
  }

  function PrintInt(n: int): string {
    if n < 0 then "-" + PrintNat(-n) else PrintNat(n)
  }

  lemma DigitsAppend(front: string, c: char)
    requires Every(front, IsDigit) && IsDigit(c)
    ensures Every(front + [c], IsDigit)
    ensures DigitsValue(front + [c]) == 10 * DigitsValue(front) + DigitValue(c)
  {
    assert (front + [c])[..|front|] == front;
  }

  lemma {:induction false} PrintNatDigits(n: nat)
    ensures PrintNat(n) != [] && Every(PrintNat(n), IsDigit)
    ensures DigitsValue(PrintNat(n)) == n
  {
    if n >= 10 {
      PrintNatDigits(n / 10);
      DigitsAppend(PrintNat(n / 10), PrintDigit(n % 10));
    } else {
      DigitsAppend([], PrintDigit(n % 10));
    }
  }
}
