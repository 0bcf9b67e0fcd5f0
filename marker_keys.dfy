/**
  Identity keys of the markers: `province-<name>` for an aggregate marker and
  `museum-<id>` for an individual one, where the id is written in decimal as a
  template literal renders an integer.
 */
module MarkerKeys {
  import opened Museums

  predicate IsDigit(c: char)
  {
    '0' <= c <= '9'
  }

  /** The decimal digit for `d`. */
  function DigitChar(d: nat): (c: char)
    requires d < 10
    ensures IsDigit(c)
  {
    ('0' as int + d) as char
  }

  /** The value of a decimal digit. */
  function DigitValue(c: char): (d: nat)
    requires IsDigit(c)
    ensures d < 10 && DigitChar(d) == c
  {
    (c as int - '0' as int)
  }

  /** Decimal digits of `n`, most significant first, without leading zeros. */
  function NatToString(n: nat): (s: string)
    ensures |s| > 0 && forall i :: 0 <= i < |s| ==> IsDigit(s[i])
    ensures |s| > 1 ==> s[0] != '0'
  {
    if n < 10 then [DigitChar(n)] else NatToString(n / 10) + [DigitChar(n % 10)]
  }

  /** An integer as `${n}` renders it: a minus sign before the digits of a negative number. */
  function IntToString(n: int): string
  {
    if n < 0 then "-" + NatToString(-n) else NatToString(n)
  }

  predicate AllDigits(s: string)
  {
    forall i :: 0 <= i < |s| ==> IsDigit(s[i])
  }

  /** The number a string of decimal digits denotes. */
  function ParseNat(s: string): nat
    requires AllDigits(s)
  {
    if s == [] then 0 else ParseNat(s[..|s| - 1]) * 10 + DigitValue(s[|s| - 1])
  }

  /** A decimal numeral, optionally with a minus sign. */
  predicate IsNumeral(s: string)
  {
    if |s| > 0 && s[0] == '-' then |s| > 1 && AllDigits(s[1..]) else |s| > 0 && AllDigits(s)
  }

  function ParseInt(s: string): int
    requires IsNumeral(s)
  {
    if s[0] == '-' then -(ParseNat(s[1..]) as int) else ParseNat(s)
  }

  /** Reading back the digits of `n` gives `n`. */
  lemma {:induction false} NatRoundTrip(n: nat)
    ensures ParseNat(NatToString(n)) == n
  {
    var s := NatToString(n);
    if n >= 10 {
      NatRoundTrip(n / 10);
      assert s[..|s| - 1] == NatToString(n / 10);
    }
  }

  /** Reading back the rendering of `n` gives `n`. */
  lemma IntRoundTrip(n: int)
    ensures IsNumeral(IntToString(n)) && ParseInt(IntToString(n)) == n
  {
    var s := IntToString(n);
    if n < 0 {
      NatRoundTrip(-n);
      assert s[1..] == NatToString(-n);
    } else {
      NatRoundTrip(n);
    }
  }

  /** Distinct integers are rendered differently. */
  lemma IntToStringInjective(a: int, b: int)
    ensures IntToString(a) == IntToString(b) <==> a == b
  {
    IntRoundTrip(a);
    IntRoundTrip(b);
  }

  /** The key of a province's aggregate marker. */
  function ProvinceKey(province: string): string
  {
    "province-" + province
  }

  /** The key of a museum's individual marker. */
  function MuseumKey(m: Museum): string
  {
    "museum-" + IntToString(m.id)
  }

  /** Province keys identify their province. */
  lemma ProvinceKeyInjective(p: string, q: string)
    ensures ProvinceKey(p) == ProvinceKey(q) <==> p == q
  {
    if ProvinceKey(p) == ProvinceKey(q) {
      assert p == ProvinceKey(p)[9..];
      assert q == ProvinceKey(q)[9..];
    }
  }

  /** Two museums share a marker key exactly when they share an id, so a key is
      stable across reloads of the same record and tells records with different ids apart. */
  lemma MuseumKeyIdentity(m: Museum, n: Museum)
    ensures MuseumKey(m) == MuseumKey(n) <==> m.id == n.id
  {
    IntToStringInjective(m.id, n.id);
    if MuseumKey(m) == MuseumKey(n) {
      assert IntToString(m.id) == MuseumKey(m)[7..];
      assert IntToString(n.id) == MuseumKey(n)[7..];
    }
  }
}
