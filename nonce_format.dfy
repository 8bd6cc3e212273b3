/**
 * The private-request nonce: the clock's whole seconds written in decimal
 * (Integer#to_s) and padded on the right with '0' to at least 16 characters
 * (String#ljust). The clock reading is a parameter.
 */
module NonceFormat {

  const NonceWidth: nat := 16

  function Pow10(k: nat): (r: nat)
    ensures r >= 1
  {
    if k == 0 then 1 else 10 * Pow10(k - 1)
  }

  predicate IsDigit(ch: char) {
    '0' <= ch <= '9'
  }

  predicate AllDigits(s: string) {
    forall i :: 0 <= i < |s| ==> IsDigit(s[i])
  }

  function DigitChar(d: nat): (ch: char)
    requires d < 10
    ensures IsDigit(ch)
  {
    (48 + d) as char
  }

  function DigitValue(ch: char): (d: nat)
    requires IsDigit(ch)
    ensures d < 10
  {
    ch as int - 48
  }

  /** Integer#to_s of a non-negative integer: its digits, most significant first. */
  function NatToDecimal(n: nat): (s: string)
    ensures |s| >= 1 && AllDigits(s)
    ensures |s| > 1 ==> s[0] != '0'
    decreases n
  {
    if n < 10 then [DigitChar(n)] else NatToDecimal(n / 10) + [DigitChar(n % 10)]
  }

  /** Integer#to_s: a leading '-' for a negative integer. */
  function IntToDecimal(n: int): (s: string)
    ensures n >= 0 ==> AllDigits(s) && (|s| > 1 ==> s[0] != '0')
    ensures n < 0 ==> |s| >= 2 && s[0] == '-' && AllDigits(s[1..])
    ensures n >= 0 ==> s == NatToDecimal(n)
    ensures n < 0 ==> s == "-" + NatToDecimal(-n)
  {
    if n < 0 then "-" + NatToDecimal(-n) else NatToDecimal(n)
  }

  /** The number a string of decimal digits denotes. */
  function DecimalValue(s: string): nat
    requires AllDigits(s)
  {
    if s == [] then 0 else 10 * DecimalValue(s[..|s| - 1]) + DigitValue(s[|s| - 1])
  }

  /**
   * String#ljust(width, pad): `s` followed by as many copies of `pad` as
   * bring it to `width` characters; a longer `s` is returned whole.
   */
  function LJust(s: string, width: nat, pad: char): (r: string)
    ensures |r| == if |s| < width then width else |s|
    ensures r[..|s|] == s
    ensures forall i :: |s| <= i < |r| ==> r[i] == pad
    decreases width - |s|
  {
    if |s| >= width then s else LJust(s + [pad], width, pad)
  }

  /** The nonce for a clock reading of `seconds` whole seconds. */
  function Nonce(seconds: int): (r: string)
    ensures |r| == if |IntToDecimal(seconds)| < NonceWidth then NonceWidth else |IntToDecimal(seconds)|
    ensures r[..|IntToDecimal(seconds)|] == IntToDecimal(seconds)
    ensures forall i :: |IntToDecimal(seconds)| <= i < |r| ==> r[i] == '0'
    ensures seconds >= 0 ==> AllDigits(r)
  {
    LJust(IntToDecimal(seconds), NonceWidth, '0')
  }

  /** Reading back the digits Integer#to_s writes gives the number. */
  lemma {:induction false} DecimalRoundTrip(n: nat)
    ensures DecimalValue(NatToDecimal(n)) == n
  {
    if n >= 10 {
      DecimalRoundTrip(n / 10);
      var s := NatToDecimal(n / 10) + [DigitChar(n % 10)];
      assert s[..|s| - 1] == NatToDecimal(n / 10);
    }
  }

  /** A number in [10^(k-1), 10^k) has exactly k digits. */
  lemma {:induction false} DecimalLength(n: nat, k: nat)
    requires 1 <= k && n < Pow10(k)
    requires k > 1 ==> Pow10(k - 1) <= n
    ensures |NatToDecimal(n)| == k
  {
    if k > 1 {
      assert Pow10(k) == 10 * Pow10(k - 1);
      if k > 2 {
        assert Pow10(k - 1) == 10 * Pow10(k - 2);
      }
      DecimalLength(n / 10, k - 1);
    }
  }

  /** Appending '0' digits multiplies the value by ten per digit. */
  lemma {:induction false} PadMultiplies(s: string, width: nat)
    requires AllDigits(s)
    ensures AllDigits(LJust(s, width, '0'))
    ensures |LJust(s, width, '0')| >= |s|
    ensures DecimalValue(LJust(s, width, '0')) == DecimalValue(s) * Pow10(|LJust(s, width, '0')| - |s|)
    decreases width - |s|
  {
    if |s| < width {
      var t := s + ['0'];
      assert t[..|t| - 1] == s;
      assert DecimalValue(t) == 10 * DecimalValue(s);
      PadMultiplies(t, width);
      var r := LJust(s, width, '0');
      assert r == LJust(t, width, '0');
      var j := |r| - |t|;
      var dv, p := DecimalValue(s), Pow10(j);
      assert Pow10(|r| - |s|) == 10 * p;
      assert (10 * dv) * p == dv * (10 * p) by { Rearrange(dv, p); }
    }
  }

  lemma Rearrange(a: int, b: int)
    ensures (10 * a) * b == a * (10 * b)
  {
  }

  /**
   * For any clock reading with ten decimal digits (the years 2001 to 2286)
   * the nonce has 16 characters: the ten digits of the seconds followed by
   * six zeros, so as a number it is the seconds times 10^6.
   */
  lemma NonceTenDigits(seconds: int)
    requires 1000000000 <= seconds < 10000000000
    ensures |Nonce(seconds)| == 16
    ensures Nonce(seconds)[..10] == NatToDecimal(seconds)
    ensures Nonce(seconds)[10..] == "000000"
    ensures DecimalValue(Nonce(seconds)) == seconds * 1000000
  {
    assert Pow10(9) == 1000000000 && Pow10(10) == 10000000000;
    DecimalLength(seconds, 10);
    var r := Nonce(seconds);
    assert |r| == 16;
    assert r[10..] == "000000";
    PadMultiplies(NatToDecimal(seconds), NonceWidth);
    assert Pow10(6) == 1000000;
    DecimalRoundTrip(seconds);
  }

  /**
   * Over ten-digit clock readings the nonce, read as a number, is strictly
   * increasing in the seconds, and distinct seconds give distinct nonces.
   */
  lemma NonceOrder(s1: int, s2: int)
    requires 1000000000 <= s1 < 10000000000
    requires 1000000000 <= s2 < 10000000000
    ensures s1 < s2 <==> DecimalValue(Nonce(s1)) < DecimalValue(Nonce(s2))
    ensures Nonce(s1) == Nonce(s2) <==> s1 == s2
  {
    NonceTenDigits(s1);
    NonceTenDigits(s2);
  }

  /**
   * The padding is not injective outside that range: one second after the
   * epoch and ten seconds after it give the same nonce.
   */
  lemma NoncePaddingCollides()
    ensures Nonce(1) == Nonce(10)
    ensures |Nonce(1)| == NonceWidth
  {
    assert NatToDecimal(1) == "1";
    assert NatToDecimal(10) == "10";
    var a, b := Nonce(1), Nonce(10);
    assert |a| == 16 && |b| == 16;
    forall i | 0 <= i < 16 ensures a[i] == b[i] {
      if i == 0 {
        assert a[..1][0] == '1' && b[..2][0] == '1';
      }
    }
  }
}
