/** Hexadecimal and decimal text. */
module Text {
  import opened Bytes

  function HexDigit(n: nat): char
    requires n < 16
  {
    "0123456789abcdef"[n]
  }

  function DigitValue(c: char): (n: nat) {
    if '0' <= c <= '9' then c as int - '0' as int
    else if 'a' <= c <= 'f' then c as int - 'a' as int + 10
    else 0
  }

  lemma DigitInjective(m: nat, n: nat)
    requires m < 16 && n < 16 && HexDigit(m) == HexDigit(n)
    ensures m == n
  {
    assert forall k :: 0 <= k < 16 ==> DigitValue(HexDigit(k)) == k;
  }

  function Hex(b: seq<byte>): (s: string)
    ensures |s| == 2 * |b|
  {
    if b == [] then ""
    else Hex(b[..|b| - 1]) + [HexDigit(b[|b| - 1] as int / 16), HexDigit(b[|b| - 1] as int % 16)]
  }

  lemma {:induction false} HexInjective(a: seq<byte>, b: seq<byte>)
    requires Hex(a) == Hex(b)
    ensures a == b
  {
    hide HexDigit;
    assert 2 * |a| == 2 * |b|;
    if a != [] {
      var x, y := a[|a| - 1], b[|b| - 1];
      var ha, hb := Hex(a[..|a| - 1]), Hex(b[..|b| - 1]);
      assert ha == Hex(a)[..|ha|] && hb == Hex(b)[..|ha|];
      HexInjective(a[..|a| - 1], b[..|b| - 1]);
      assert Hex(a)[|ha|] == HexDigit(x as int / 16) && Hex(a)[|ha| + 1] == HexDigit(x as int % 16);
      assert Hex(b)[|ha|] == HexDigit(y as int / 16) && Hex(b)[|ha| + 1] == HexDigit(y as int % 16);
      DigitInjective(x as int / 16, y as int / 16);
      DigitInjective(x as int % 16, y as int % 16);
      InitAndLast(a);
      InitAndLast(b);
    }
  }

  predicate CanonicalHex(s: string, bytes: nat): (canonical: bool)
    ensures canonical ==> |s| == 2 * bytes
  {
    |s| == 2 * bytes && forall i :: 0 <= i < |s| ==> '0' <= s[i] <= '9' || 'a' <= s[i] <= 'f'
  }

  lemma {:induction false} HexIsCanonical(b: seq<byte>)
    ensures CanonicalHex(Hex(b), |b|)
  {
    if b != [] {
      HexIsCanonical(b[..|b| - 1]);
      var x := b[|b| - 1] as int;
      assert forall n :: 0 <= n < 16 ==> '0' <= HexDigit(n) <= '9' || 'a' <= HexDigit(n) <= 'f';
    }
  }

  /** The bytes of an ASCII string. */
  function Ascii(s: string): (b: seq<byte>)
    ensures |b| == |s|
  {
    seq(|s|, i requires 0 <= i < |s| => (s[i] as int % 256) as byte)
  }

  predicate IsAscii(s: string) {
    forall i :: 0 <= i < |s| ==> s[i] as int < 128
  }

  lemma AsciiInjective(s: string, t: string)
    requires IsAscii(s) && IsAscii(t) && Ascii(s) == Ascii(t)
    ensures s == t
  {
    assert |s| == |Ascii(s)| == |t|;
    forall i | 0 <= i < |s| ensures s[i] == t[i] {
      assert Ascii(s)[i] as int == s[i] as int;
      assert Ascii(t)[i] as int == t[i] as int;
    }
  }

  lemma HexIsAscii(s: string, bytes: nat)
    requires CanonicalHex(s, bytes)
    ensures IsAscii(s)
  {
  }

  /** Reading hexadecimal text two digits at a time. */
  function Unhex(s: string): (b: seq<byte>)
    requires |s| % 2 == 0
    ensures 2 * |b| == |s|
  {
    if s == "" then [] else
      Unhex(s[..|s| - 2]) + [PairByte(DigitValue(s[|s| - 2]), DigitValue(s[|s| - 1]))]
  }

  function PairByte(high: nat, low: nat): byte {
    ((high * 16 + low) % 256) as byte
  }

  lemma PairSplits(high: nat, low: nat)
    requires high < 16 && low < 16
    ensures PairByte(high, low) as int / 16 == high && PairByte(high, low) as int % 16 == low
  {
  }

  lemma DigitRoundTrip(c: char)
    requires '0' <= c <= '9' || 'a' <= c <= 'f'
    ensures DigitValue(c) < 16 && HexDigit(DigitValue(c)) == c
  {
  }

  lemma HexOneMore(b: seq<byte>, x: byte)
    ensures Hex(b + [x]) == Hex(b) + [HexDigit(x as int / 16), HexDigit(x as int % 16)]
  {
    hide HexDigit;
    assert (b + [x])[..|b|] == b;
  }

  lemma LastTwo(s: string, bytes: nat)
    requires CanonicalHex(s, bytes) && s != ""
    ensures bytes > 0 && |s| >= 2 && CanonicalHex(s[..|s| - 2], bytes - 1)
    ensures CanonicalHex([s[|s| - 2], s[|s| - 1]], 1)
    ensures s == s[..|s| - 2] + [s[|s| - 2], s[|s| - 1]]
  {
  }

  lemma {:induction false} UnhexRoundTrip(s: string, bytes: nat)
    requires CanonicalHex(s, bytes)
    ensures Hex(Unhex(s)) == s
  {
    hide HexDigit, DigitValue, PairByte, Hex, CanonicalHex;
    if s == "" {
      EmptyHex();
    } else {
      LastTwo(s, bytes);
      var init, high, low := s[..|s| - 2], s[|s| - 2], s[|s| - 1];
      UnhexRoundTrip(init, bytes - 1);
      PairReads(high, low);
      HexOneMore(Unhex(init), PairByte(DigitValue(high), DigitValue(low)));
    }
  }

  lemma EmptyHex()
    ensures Hex([]) == ""
  {
  }

  lemma PairReads(high: char, low: char)
    requires CanonicalHex([high, low], 1)
    ensures var x := PairByte(DigitValue(high), DigitValue(low)) as int;
            HexDigit(x / 16) == high && HexDigit(x % 16) == low
  {
    hide HexDigit, DigitValue, PairByte;
    assert [high, low][0] == high && [high, low][1] == low;
    DigitRoundTrip(high);
    DigitRoundTrip(low);
    PairSplits(DigitValue(high), DigitValue(low));
  }

  /** Canonical hexadecimal text is determined by the bytes it stands for. */
  lemma UnhexInjective(s: string, t: string, bytes: nat)
    requires CanonicalHex(s, bytes) && CanonicalHex(t, bytes) && Unhex(s) == Unhex(t)
    ensures s == t
  {
    UnhexRoundTrip(s, bytes);
    UnhexRoundTrip(t, bytes);
  }

  function Decimal(n: nat): (s: string)
    ensures s != ""
    decreases n
  {
    (if n < 10 then "" else Decimal(n / 10)) + ["0123456789"[n % 10]]
  }

  function FromDecimal(s: string): int {
    if s == "" then 0 else FromDecimal(s[..|s| - 1]) * 10 + (s[|s| - 1] as int - '0' as int)
  }

  lemma {:induction false} DecimalRoundTrip(n: nat)
    ensures FromDecimal(Decimal(n)) == n
    decreases n
  {
    var s := Decimal(n);
    assert s[|s| - 1] as int - '0' as int == n % 10;
    if n >= 10 {
      DecimalRoundTrip(n / 10);
      assert s[..|s| - 1] == Decimal(n / 10);
    } else {
      assert s[..|s| - 1] == "";
    }
  }

  predicate Digits(s: string) {
    forall i :: 0 <= i < |s| ==> '0' <= s[i] <= '9'
  }

  lemma {:induction false} DecimalIsDigits(n: nat)
    ensures Digits(Decimal(n)) && (n > 0 ==> Decimal(n)[0] != '0') && (n < 10 ==> |Decimal(n)| == 1)
    decreases n
  {
    if n >= 10 {
      DecimalIsDigits(n / 10);
    }
  }
}
