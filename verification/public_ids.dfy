/** Public identifiers of catalog rows: a three-letter prefix followed by the
    row's numeric primary key in decimal, left-padded with zeros to a minimum
    width (Python's `f"CAT{str(id).zfill(4)}"`). Padding never truncates. */
module PublicIds {
  import opened Wrappers

  const CategoryPrefix: string := "CAT"
  const BrandPrefix: string := "BRD"
  const AdminPrefix: string := "ADM"
  const ProductPrefix: string := "PRD"

  const CategoryWidth: nat := 4
  const BrandWidth: nat := 4
  const AdminWidth: nat := 4
  const ProductWidth: nat := 6

  function Max(a: nat, b: nat): nat {
    if a >= b then a else b
  }

  predicate IsDigit(c: char) {
    '0' <= c <= '9'
  }

  predicate AllDigits(s: string) {
    forall i :: 0 <= i < |s| ==> IsDigit(s[i])
  }

  function DigitValue(c: char): (d: nat)
    requires IsDigit(c)
    ensures d < 10
  {
    c as int - '0' as int
  }

  function DigitChar(d: nat): (c: char)
    requires d < 10
    ensures IsDigit(c) && DigitValue(c) == d
  {
    ('0' as int + d) as char
  }

  /** Number of decimal digits of `n` (zero has one digit). */
  function NumDigits(n: nat): (k: nat)
    ensures k >= 1
    ensures n < Pow10(k)
    ensures k > 1 ==> Pow10(k - 1) <= n
  {
    if n < 10 then 1 else 1 + NumDigits(n / 10)
  }

  function Pow10(k: nat): (p: nat)
    ensures p >= 1
  {
    if k == 0 then 1 else 10 * Pow10(k - 1)
  }

  /** Python's `str(n)` for a non-negative integer: no sign, no leading zero. */
  function Decimal(n: nat): (s: string)
    ensures AllDigits(s)
    ensures |s| == NumDigits(n)
    ensures |s| > 1 ==> s[0] != '0'
    ensures n > 0 ==> s[0] != '0'
  {
    if n < 10 then [DigitChar(n)] else Decimal(n / 10) + [DigitChar(n % 10)]
  }

  /** Python's `int(s)` restricted to a string of ASCII digits; the empty
      string reads as zero. */
  function ValueOf(s: string): nat
    requires AllDigits(s)
  {
    if |s| == 0 then 0 else ValueOf(s[..|s| - 1]) * 10 + DigitValue(s[|s| - 1])
  }

  function Zeros(k: nat): (z: string)
    ensures |z| == k
    ensures forall i :: 0 <= i < k ==> z[i] == '0'
  {
    if k == 0 then [] else Zeros(k - 1) + ['0']
  }

  /** Python's `str.zfill(width)`: pads with '0' on the left up to `width`,
      after a leading sign if there is one, and never shortens the string. */
  function ZFill(s: string, width: nat): (r: string)
    ensures |r| == Max(width, |s|)
    ensures AllDigits(s) ==> AllDigits(r) && r[|r| - |s|..] == s && ValueOf(r) == ValueOf(s)
    ensures forall i :: 0 <= i < |r| - |s| ==> r[i] == '0' || (i == 0 && |s| > 0 && r[0] == s[0])
  {
    if |s| >= width then s
    else if |s| > 0 && (s[0] == '+' || s[0] == '-') then [s[0]] + Zeros(width - |s|) + s[1..]
    else
      LeadingZerosKeepValue(width - |s|, s);
      Zeros(width - |s|) + s
  }

  /** Drops every leading '0'. */
  function StripLeadingZeros(s: string): string {
    if |s| > 0 && s[0] == '0' then StripLeadingZeros(s[1..]) else s
  }

  /** What stripping leaves is a suffix that does not start with '0', and
      everything removed was '0'. */
  lemma {:induction false} StripLeadingZerosSpec(s: string)
    ensures var r := StripLeadingZeros(s);
      && |r| <= |s| && r == s[|s| - |r|..]
      && (|r| > 0 ==> r[0] != '0')
      && forall i :: 0 <= i < |s| - |r| ==> s[i] == '0'
  {
    if |s| > 0 && s[0] == '0' {
      var t := s[1..];
      StripLeadingZerosSpec(t);
      var r := StripLeadingZeros(t);
      assert t[|t| - |r|..] == s[|s| - |r|..];
      forall i | 0 <= i < |s| - |r| ensures s[i] == '0' {
        if i > 0 {
          assert s[i] == t[i - 1];
        }
      }
    }
  }

  /** The public identifier of row `id`: `prefix + str(id).zfill(width)`. */
  function PublicId(prefix: string, width: nat, id: nat): (r: string)
    ensures |r| == |prefix| + Max(width, NumDigits(id))
    ensures r[..|prefix|] == prefix
    ensures AllDigits(r[|prefix|..]) && ValueOf(r[|prefix|..]) == id
  {
    DecimalRoundTrip(id);
    var padded := ZFill(Decimal(id), width);
    assert (prefix + padded)[|prefix|..] == padded;
    prefix + padded
  }

  function CategoryId(id: nat): string { PublicId(CategoryPrefix, CategoryWidth, id) }
  function BrandId(id: nat): string { PublicId(BrandPrefix, BrandWidth, id) }
  function AdminId(id: nat): string { PublicId(AdminPrefix, AdminWidth, id) }
  function ProductId(id: nat): string { PublicId(ProductPrefix, ProductWidth, id) }

  /** Reads a row number back out of a public identifier: `int(s[len(prefix):])`
      when `s` starts with `prefix` and continues with one or more digits. */
  function ParsePublicId(prefix: string, s: string): Option<nat> {
    if |s| > |prefix| && s[..|prefix|] == prefix && AllDigits(s[|prefix|..])
    then Some(ValueOf(s[|prefix|..]))
    else None
  }

  lemma {:induction false} DecimalRoundTrip(n: nat)
    ensures ValueOf(Decimal(n)) == n
  {
    if n >= 10 {
      var d := Decimal(n / 10);
      var s := d + [DigitChar(n % 10)];
      assert s[..|s| - 1] == d;
      DecimalRoundTrip(n / 10);
    }
  }

  lemma {:induction false} LeadingZerosKeepValue(k: nat, s: string)
    ensures AllDigits(s) ==> AllDigits(Zeros(k) + s) && ValueOf(Zeros(k) + s) == ValueOf(s)
  {
    var z := Zeros(k);
    if !AllDigits(s) {
    } else if |s| == 0 {
      assert z + s == z;
      ZerosValue(k);
    } else {
      var init := s[..|s| - 1];
      LeadingZerosKeepValue(k, init);
      assert (z + s)[..|z + s| - 1] == z + init;
    }
  }

  lemma {:induction false} ZerosValue(k: nat)
    ensures AllDigits(Zeros(k))
    ensures ValueOf(Zeros(k)) == 0
  {
    if k > 0 {
      var z := Zeros(k);
      var z' := Zeros(k - 1);
      assert z == z' + ['0'];
      assert z[..k - 1] == z';
      ZerosValue(k - 1);
      assert ValueOf(z) == ValueOf(z') * 10 + DigitValue(z[k - 1]);
    }
  }

  lemma {:induction false} StripZerosOfPadding(k: nat, s: string)
    requires |s| == 0 || s[0] != '0'
    ensures StripLeadingZeros(Zeros(k) + s) == s
  {
    if k > 0 {
      ZerosCons(k);
      assert (Zeros(k) + s)[1..] == Zeros(k - 1) + s;
      StripZerosOfPadding(k - 1, s);
    } else {
      assert Zeros(k) + s == s;
    }
  }

  lemma ZerosCons(k: nat)
    requires k > 0
    ensures Zeros(k) == ['0'] + Zeros(k - 1)
  {
    var a := Zeros(k);
    var b := ['0'] + Zeros(k - 1);
    assert |a| == |b|;
    assert forall i :: 0 <= i < k ==> a[i] == b[i];
  }

  /** Parsing inverts formatting for every prefix, width and row number. */
  lemma PublicIdRoundTrip(prefix: string, width: nat, id: nat)
    ensures ParsePublicId(prefix, PublicId(prefix, width, id)) == Some(id)
  {
    var r := PublicId(prefix, width, id);
    assert |r| > |prefix|;
  }

  /** Two rows never share a public identifier under the same scheme. */
  lemma PublicIdInjective(prefix: string, width: nat, a: nat, b: nat)
    requires PublicId(prefix, width, a) == PublicId(prefix, width, b)
    ensures a == b
  {
    PublicIdRoundTrip(prefix, width, a);
    PublicIdRoundTrip(prefix, width, b);
  }

  /** A digit string has no sign, so `zfill` only prepends zeros. */
  lemma ZFillOfDigits(s: string, width: nat)
    requires AllDigits(s) && |s| < width
    ensures ZFill(s, width) == Zeros(width - |s|) + s
  {
    if |s| > 0 {
      assert IsDigit(s[0]);
    }
  }

  /** For a positive row number, removing the prefix and then the padding
      zeros gives back exactly `str(id)`. */
  lemma {:induction false} StripPaddingRecoversDecimal(prefix: string, width: nat, id: nat)
    requires id > 0
    ensures StripLeadingZeros(PublicId(prefix, width, id)[|prefix|..]) == Decimal(id)
  {
    var d := Decimal(id);
    var k := if |d| < width then width - |d| else 0;
    if |d| < width {
      ZFillOfDigits(d, width);
    } else {
      assert Zeros(0) + d == d;
    }
    var r := prefix + (Zeros(k) + d);
    assert PublicId(prefix, width, id) == r;
    assert r[|prefix|..] == Zeros(k) + d;
    StripZerosOfPadding(k, d);
  }

  /** The four identifier schemes of the catalog and admin tables. */
  lemma SchemeLengths(id: nat)
    ensures |CategoryId(id)| == 3 + Max(4, NumDigits(id))
    ensures |BrandId(id)| == 3 + Max(4, NumDigits(id))
    ensures |AdminId(id)| == 3 + Max(4, NumDigits(id))
    ensures |ProductId(id)| == 3 + Max(6, NumDigits(id))
  {
  }

  lemma ExampleCategoryId()
    ensures CategoryId(7) == "CAT0007"
  {
    assert Decimal(7) == "7";
    ZFillOfDigits("7", 4);
    assert Zeros(3) == "000";
    assert ZFill("7", 4) == "0007";
  }

  lemma ExampleProductId()
    ensures ProductId(42) == "PRD000042"
  {
    assert Decimal(4) == "4";
    assert Decimal(42) == "42";
    ZFillOfDigits("42", 6);
    assert Zeros(4) == "0000";
    assert ZFill("42", 6) == "000042";
  }
}
