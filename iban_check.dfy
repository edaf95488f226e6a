/** The structure and check-digit test the validator delegates to the IBAN
    library (IbanUtil.validate), stated for the one country the validator
    admits. The layout is the AE entry of the SWIFT IBAN Registry; the check
    digits follow ISO 13616-1, which uses ISO/IEC 7064 MOD 97-10: move the
    first four characters to the end, read every letter as the two-digit
    number A = 10 .. Z = 35, and accept when the resulting number leaves
    remainder 1 on division by 97. */
module IbanCheck {
  import opened Wrappers
  import opened JavaText

  /** The three exceptions IbanUtil.validate throws. */
  datatype CheckFailure = FormatError | InvalidCheckDigit | UnsupportedCountry

  const AeCountryCode: string := "AE"
  const CountryCodeLength: nat := 2
  const CheckDigitsLength: nat := 2
  /** AE BBAN: a 3-digit bank code followed by a 16-digit account number. */
  const AeBankCodeLength: nat := 3
  const AeAccountNumberLength: nat := 16
  const AeIbanLength: nat := CountryCodeLength + CheckDigitsLength + AeBankCodeLength + AeAccountNumberLength

  predicate IsIbanChar(c: char) {
    IsAsciiDigit(c) || IsAsciiUpper(c)
  }

  predicate IsIbanText(s: string) {
    forall i :: 0 <= i < |s| ==> IsIbanChar(s[i])
  }

  predicate AllDigits(s: string) {
    forall i :: 0 <= i < |s| ==> IsAsciiDigit(s[i])
  }

  /** The AE layout: "AE", two check digits, a 3-digit bank code and a
      16-digit account number, 23 characters in all. */
  predicate HasAeLayout(s: string)
    ensures HasAeLayout(s) ==> IsIbanText(s)
  {
    && |s| == AeIbanLength
    && s[..2] == AeCountryCode
    && AllDigits(s[2..4])
    && AllDigits(s[4..7])
    && AllDigits(s[7..])
  }

  /** The AE layout, character by character. */
  lemma AeLayoutByCharacter(s: string)
    ensures HasAeLayout(s) <==>
              && |s| == AeIbanLength && s[0] == 'A' && s[1] == 'E'
              && (forall i :: 2 <= i < |s| ==> IsAsciiDigit(s[i]))
  {
    if |s| == AeIbanLength {
      assert s[..2] == AeCountryCode <==> s[0] == 'A' && s[1] == 'E' by {
        assert s[..2] == [s[0], s[1]];
      }
      assert AllDigits(s[2..4]) <==> forall i :: 2 <= i < 4 ==> IsAsciiDigit(s[i]) by {
        assert forall i :: 2 <= i < 4 ==> s[i] == s[2..4][i - 2];
      }
      assert AllDigits(s[4..7]) <==> forall i :: 4 <= i < 7 ==> IsAsciiDigit(s[i]) by {
        assert forall i :: 4 <= i < 7 ==> s[i] == s[4..7][i - 4];
      }
      assert AllDigits(s[7..]) <==> forall i :: 7 <= i < |s| ==> IsAsciiDigit(s[i]) by {
        assert forall i :: 7 <= i < |s| ==> s[i] == s[7..][i - 7];
      }
    }
  }

  /** ISO/IEC 7064 value of one character: 0..9 for digits, 10..35 for A..Z. */
  function CharValue(c: char): (v: nat)
    requires IsIbanChar(c)
    ensures v < 36
    ensures IsAsciiDigit(c) <==> v < 10
  {
    if IsAsciiDigit(c) then c as int - '0' as int else c as int - 'A' as int + 10
  }

  /** How far the number written so far shifts when one more character is
      appended: one decimal place for a digit, two for a letter. */
  function Scale(c: char): nat {
    if IsAsciiDigit(c) then 10 else 100
  }

  /** The number whose decimal expansion spells s, each letter written as its
      two-digit value (the reference reading of MOD 97-10). */
  function Numeral(s: string): nat
    requires IsIbanText(s)
  {
    if s == [] then 0
    else Numeral(s[..|s| - 1]) * Scale(s[|s| - 1]) + CharValue(s[|s| - 1])
  }

  /** The power of ten by which a prefix is shifted when s follows it. */
  function Weight(s: string): nat {
    if s == [] then 1 else Weight(s[..|s| - 1]) * Scale(s[|s| - 1])
  }

  /** The remainder of Numeral(s) by 97, computed one character at a time
      without ever forming the large number. */
  function Mod97(s: string): (r: nat)
    requires IsIbanText(s)
    ensures r < 97
    ensures r == Numeral(s) % 97
  {
    if s == [] then 0
    else
      var p, c := s[..|s| - 1], s[|s| - 1];
      var acc := Mod97(p);
      ModMulAdd(Numeral(p), Scale(c), CharValue(c));
      (acc * Scale(c) + CharValue(c)) % 97
  }

  /** ISO 13616-1 rearrangement: country code and check digits go last. */
  function Rearranged(s: string): (r: string)
    requires |s| >= 4
    ensures |r| == |s|
  {
    s[4..] + s[..4]
  }

  lemma LayoutIsIbanText(s: string)
    requires HasAeLayout(s)
    ensures IsIbanText(s) && IsIbanText(Rearranged(s))
  {
    assert forall i :: 2 <= i < 4 ==> s[i] == s[2..4][i - 2];
    assert forall i :: 4 <= i < 7 ==> s[i] == s[4..7][i - 4];
    assert forall i :: 7 <= i < |s| ==> s[i] == s[7..][i - 7];
    assert s[0] == 'A' && s[1] == 'E' by { assert s[..2] == "AE"; }
  }

  /** The MOD 97-10 check on an AE-shaped string (reference reading). */
  predicate HasValidCheckDigits(s: string)
    requires HasAeLayout(s)
  {
    LayoutIsIbanText(s);
    Numeral(Rearranged(s)) % 97 == 1
  }

  /** IbanUtil.validate as seen by the validator: the country code, the check
      digit characters, the BBAN length and characters, then the checksum,
      each failing with the library's exception kind. The library's country
      table is represented only by its AE entry. */
  function Validate(iban: string): (r: Option<CheckFailure>)
    ensures r.None? <==> HasAeLayout(iban) && HasValidCheckDigits(iban)
    ensures r == Some(InvalidCheckDigit) <==> HasAeLayout(iban) && !HasValidCheckDigits(iban)
    ensures r == Some(UnsupportedCountry) <==>
              |iban| >= 2 && IsAsciiUpper(iban[0]) && IsAsciiUpper(iban[1]) && iban[..2] != AeCountryCode
  {
    AeLayoutByCharacter(iban);
    if |iban| < CountryCodeLength || !IsAsciiUpper(iban[0]) || !IsAsciiUpper(iban[1]) then
      Some(FormatError)
    else if iban[..2] != AeCountryCode then
      Some(UnsupportedCountry)
    else if |iban| < 4 || !IsAsciiDigit(iban[2]) || !IsAsciiDigit(iban[3]) then
      Some(FormatError)
    else if |iban| - 4 != AeBankCodeLength + AeAccountNumberLength then
      Some(FormatError)
    else if !AllDigits(iban[4..7]) || !AllDigits(iban[7..]) then
      Some(FormatError)
    else
      assert AllDigits(iban[2..4]);
      LayoutIsIbanText(iban);
      if Mod97(Rearranged(iban)) != 1 then Some(InvalidCheckDigit) else None
  }

  // ---------------------------------------------------------------------
  // Arithmetic behind MOD 97-10

  lemma ModAddMultiple(x: int, k: int)
    ensures (x + 97 * k) % 97 == x % 97
  {
  }

  lemma ModMulAdd(a: nat, m: nat, b: nat)
    ensures ((a % 97) * m + b) % 97 == (a * m + b) % 97
  {
    var q := a / 97;
    assert a == 97 * q + a % 97;
    assert a * m == (a % 97) * m + 97 * (q * m) by {
      assert a * m == (97 * q + a % 97) * m;
    }
    ModAddMultiple((a % 97) * m + b, q * m);
  }

  /** 97 does not divide 10y unless it divides y: 68 * 10 = 7 * 97 + 1. */
  lemma TimesTenKeepsNonMultiple(y: int)
    requires y % 97 != 0
    ensures (10 * y) % 97 != 0
  {
    if (10 * y) % 97 == 0 {
      var m := (10 * y) / 97;
      assert 10 * y == 97 * m;
      assert y == 97 * (68 * m - 7 * y);
      ModAddMultiple(0, 68 * m - 7 * y);
      assert false;
    }
  }

  lemma {:induction false} WeightKeepsNonMultiple(x: int, s: string)
    requires x % 97 != 0
    ensures (x * Weight(s)) % 97 != 0
    decreases |s|
  {
    if s != [] {
      var p, c := s[..|s| - 1], s[|s| - 1];
      WeightKeepsNonMultiple(x, p);
      var y := x * Weight(p);
      assert x * Weight(s) == y * Scale(c);
      TimesTenKeepsNonMultiple(y);
      if !IsAsciiDigit(c) {
        TimesTenKeepsNonMultiple(10 * y);
        assert y * Scale(c) == 10 * (10 * y);
      }
    }
  }

  /** One more character on the suffix: if p + q' reads as a * w + n, then
      p + q' + [c] reads as a * (w * sc) + (n * sc + v). */
  lemma Regroup(x: int, y: int, a: int, w: int, n: int, sc: int, v: int)
    requires x == y * sc + v && y == a * w + n
    ensures x == a * (w * sc) + (n * sc + v)
  {
  }

  /** The last character of a non-empty IBAN text, read off. */
  lemma NumeralLast(s: string)
    requires IsIbanText(s) && s != []
    ensures IsIbanText(s[..|s| - 1])
    ensures Numeral(s) == Numeral(s[..|s| - 1]) * Scale(s[|s| - 1]) + CharValue(s[|s| - 1])
    ensures Weight(s) == Weight(s[..|s| - 1]) * Scale(s[|s| - 1])
  {
  }

  /** Numeral of a concatenation: the prefix shifted by the weight of the
      suffix, plus the suffix. */
  lemma {:induction false} NumeralAppend(p: string, q: string)
    requires IsIbanText(p) && IsIbanText(q)
    ensures IsIbanText(p + q)
    ensures Numeral(p + q) == Numeral(p) * Weight(q) + Numeral(q)
    decreases |q|
  {
    if q == [] {
      assert p + q == p;
    } else {
      var q', c := q[..|q| - 1], q[|q| - 1];
      var pq := p + q;
      assert IsIbanText(pq);
      assert pq[..|pq| - 1] == p + q' && pq[|pq| - 1] == c;
      NumeralLast(q);
      NumeralAppend(p, q');
      NumeralLast(pq);
      Regroup(Numeral(pq), Numeral(p + q'), Numeral(p), Weight(q'), Numeral(q'), Scale(c), CharValue(c));
    }
  }

  lemma DifferenceFactors(np: int, vs: int, vd: int, w: int, nq: int)
    ensures ((np * 10 + vs) * w + nq) - ((np * 10 + vd) * w + nq) == (vs - vd) * w
  {
  }

  lemma SameRemainderDifference(a: int, b: int)
    requires a % 97 == b % 97
    ensures (a - b) % 97 == 0
  {
    assert a - b == 97 * (a / 97 - b / 97);
    ModAddMultiple(0, a / 97 - b / 97);
  }

  /** Two numbers that differ only in one digit, followed by the same
      suffix q, leave different remainders. */
  lemma DigitDifferenceRemainder(a: int, b: int, np: int, vs: int, vd: int, q: string, nq: int)
    requires 0 <= vs < 10 && 0 <= vd < 10 && vs != vd
    requires a == (np * 10 + vs) * Weight(q) + nq && b == (np * 10 + vd) * Weight(q) + nq
    ensures a % 97 != b % 97
  {
    DifferenceFactors(np, vs, vd, Weight(q), nq);
    assert (vs - vd) % 97 != 0;
    WeightKeepsNonMultiple(vs - vd, q);
    if a % 97 == b % 97 {
      SameRemainderDifference(a, b);
      assert false;
    }
  }

  /** The number spelt by s, split around the digit at position k. */
  lemma NumeralAround(s: string, k: nat)
    requires IsIbanText(s) && k < |s| && IsAsciiDigit(s[k])
    ensures IsIbanText(s[..k]) && IsIbanText(s[k + 1..])
    ensures Numeral(s) == (Numeral(s[..k]) * 10 + CharValue(s[k])) * Weight(s[k + 1..]) + Numeral(s[k + 1..])
  {
    var p, q := s[..k], s[k + 1..];
    var ps := p + [s[k]];
    assert s == ps + q;
    assert IsIbanText(ps) && IsIbanText(q);
    NumeralAppend(ps, q);
    assert ps[..k] == p;
    assert Numeral(ps) == Numeral(p) * 10 + CharValue(s[k]);
  }

  /** Replacing one digit by another digit changes the MOD 97 remainder:
      the numeral moves by (d' - d) * 10^k, and 97 divides neither factor. */
  lemma DigitChangeChangesRemainder(s: string, k: nat, d: char)
    requires IsIbanText(s) && k < |s|
    requires IsAsciiDigit(s[k]) && IsAsciiDigit(d) && d != s[k]
    ensures IsIbanText(s[k := d])
    ensures Numeral(s[k := d]) % 97 != Numeral(s) % 97
  {
    var t := s[k := d];
    assert IsIbanText(t);
    assert t[..k] == s[..k] && t[k + 1..] == s[k + 1..];
    NumeralAround(s, k);
    NumeralAround(t, k);
    var p, q := s[..k], s[k + 1..];
    DigitDifferenceRemainder(Numeral(s), Numeral(t), Numeral(p), CharValue(s[k]), CharValue(d), q, Numeral(q));
  }

  /** Changing one digit of an AE IBAN with valid check digits (into another
      digit) always breaks the check digits. */
  lemma DigitChangeBreaksCheckDigits(s: string, k: nat, d: char)
    requires HasAeLayout(s) && HasValidCheckDigits(s)
    requires 2 <= k < |s| && IsAsciiDigit(d) && d != s[k]
    ensures HasAeLayout(s[k := d])
    ensures !HasValidCheckDigits(s[k := d])
  {
    var t := s[k := d];
    LayoutIsIbanText(s);
    assert IsAsciiDigit(s[k]) by {
      if k < 4 { assert s[k] == s[2..4][k - 2]; }
      else if k < 7 { assert s[k] == s[4..7][k - 4]; }
      else { assert s[k] == s[7..][k - 7]; }
    }
    assert t[..2] == s[..2];
    assert AllDigits(t[2..4]) by {
      forall i | 0 <= i < 2 ensures IsAsciiDigit(t[2..4][i]) {
        if 2 + i != k { assert t[2 + i] == s[2..4][i]; }
      }
    }
    assert AllDigits(t[4..7]) by {
      forall i | 0 <= i < 3 ensures IsAsciiDigit(t[4..7][i]) {
        if 4 + i != k { assert t[4 + i] == s[4..7][i]; }
      }
    }
    assert AllDigits(t[7..]) by {
      forall i | 0 <= i < |t| - 7 ensures IsAsciiDigit(t[7..][i]) {
        if 7 + i != k { assert t[7 + i] == s[7..][i]; }
      }
    }
    LayoutIsIbanText(t);
    var pos := if k >= 4 then k - 4 else k + |s| - 4;
    var r := Rearranged(s);
    assert Rearranged(t) == r[pos := d];
    assert r[pos] == s[k];
    DigitChangeChangesRemainder(r, pos, d);
  }

  // ---------------------------------------------------------------------
  // Building an IBAN from its parts (the library's Iban.Builder)

  function DigitChar(n: nat): (c: char)
    requires n < 10
    ensures IsAsciiDigit(c) && CharValue(c) == n
  {
    ('0' as int + n) as char
  }

  /** Check digits for a BBAN: 98 minus the remainder of BBAN + "AE00". */
  function CheckDigitsFor(bban: string): (cd: string)
    requires |bban| == AeBankCodeLength + AeAccountNumberLength && AllDigits(bban)
    ensures |cd| == 2 && AllDigits(cd)
  {
    assert IsIbanText(bban + AeCountryCode + "00");
    var n := 98 - Mod97(bban + AeCountryCode + "00");
    [DigitChar(n / 10), DigitChar(n % 10)]
  }

  /** The AE IBAN the library builds from a bank code and an account number. */
  function BuildAeIban(bankCode: string, account: string): (iban: string)
    requires |bankCode| == AeBankCodeLength && AllDigits(bankCode)
    requires |account| == AeAccountNumberLength && AllDigits(account)
    ensures HasAeLayout(iban) && HasValidCheckDigits(iban)
    ensures iban[4..7] == bankCode && iban[7..] == account
  {
    var bban := bankCode + account;
    var cd := CheckDigitsFor(bban);
    var iban := AeCountryCode + cd + bban;
    assert iban[..2] == AeCountryCode && iban[2..4] == cd && iban[4..7] == bankCode && iban[7..] == account;
    LayoutIsIbanText(iban);
    BuiltIbanPassesCheck(bban, cd);
    assert Rearranged(iban) == bban + AeCountryCode + cd;
    iban
  }

  /** Two more digits shift the number two places and add their value. */
  lemma AppendTwoDigits(x: string, c0: char, c1: char)
    requires IsIbanText(x) && IsAsciiDigit(c0) && IsAsciiDigit(c1)
    ensures IsIbanText(x + [c0, c1])
    ensures Numeral(x + [c0, c1]) == Numeral(x) * 100 + CharValue(c0) * 10 + CharValue(c1)
  {
    var y, z := x + [c0], x + [c0, c1];
    assert IsIbanText(y) && IsIbanText(z);
    assert z[..|z| - 1] == y && y[..|y| - 1] == x;
    NumeralLast(z);
    NumeralLast(y);
  }

  /** Adding 98 minus the remainder leaves remainder 1. */
  lemma RemainderOne(a: nat)
    ensures (a + (98 - a % 97)) % 97 == 1
  {
    var q := a / 97;
    assert a + (98 - a % 97) == 97 * (q + 1) + 1;
    ModAddMultiple(1, q + 1);
  }

  lemma BuiltIbanPassesCheck(bban: string, cd: string)
    requires |bban| == AeBankCodeLength + AeAccountNumberLength && AllDigits(bban)
    requires cd == CheckDigitsFor(bban)
    ensures IsIbanText(bban + AeCountryCode + cd)
    ensures Numeral(bban + AeCountryCode + cd) % 97 == 1
  {
    var x := bban + AeCountryCode;
    assert IsIbanText(x);
    assert x + "00" == x + ['0', '0'];
    AppendTwoDigits(x, '0', '0');
    var n := 98 - Mod97(x + "00");
    assert cd == [DigitChar(n / 10), DigitChar(n % 10)];
    AppendTwoDigits(x, cd[0], cd[1]);
    assert x + cd == x + [cd[0], cd[1]];
    assert Numeral(x + cd) == Numeral(x) * 100 + n;
    RemainderOne(Numeral(x) * 100);
  }
}
