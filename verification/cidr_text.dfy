/** IPv4 addresses and CIDR prefixes as text: how they are written, how the standard library reads
    them, and how the SD-WAN agent reads them. */
module CidrText {
  import opened Bytes
  import opened Netd
  import opened Text
  import opened Wrappers

  /** `str::split`: the parts between separators, at least one. */
  function Split(s: string, separator: char): (parts: seq<string>)
    ensures |parts| > 0
  {
    if s == "" then [""] else
      var before, last := Split(s[..|s| - 1], separator), s[|s| - 1];
      if last == separator then before + [""]
      else before[..|before| - 1] + [before[|before| - 1] + [last]]
  }

  lemma {:induction false} SplitWhole(s: string, separator: char)
    requires separator !in s
    ensures Split(s, separator) == [s]
  {
    if s != "" {
      var init := s[..|s| - 1];
      assert forall i :: 0 <= i < |init| ==> init[i] == s[i];
      assert s[|s| - 1] in s;
      SplitWhole(init, separator);
      InitAndLast(s);
    }
  }

  lemma {:induction false} SplitAtSeparator(a: string, b: string, separator: char)
    requires separator !in b
    ensures Split(a + [separator] + b, separator) == Split(a, separator) + [b]
  {
    var s := a + [separator] + b;
    if b == "" {
      assert s[..|s| - 1] == a;
    } else {
      var init := b[..|b| - 1];
      assert s[..|s| - 1] == a + [separator] + init;
      assert forall i :: 0 <= i < |init| ==> init[i] == b[i];
      assert b[|b| - 1] in b;
      SplitAtSeparator(a, init, separator);
      InitAndLast(b);
    }
  }

  /** `u8::from_str`: an optional plus sign, then digits. */
  function ParseByte(s: string): Option<byte> {
    var digits := if s != "" && s[0] == '+' then s[1..] else s;
    if digits != "" && Digits(digits) && 0 <= FromDecimal(digits) < 256 then Some(FromDecimal(digits) as byte) else None
  }

  /** One octet as `Ipv4Addr::from_str` reads it. */
  function ParseOctet(s: string): Option<byte> {
    if 1 <= |s| <= 3 && Digits(s) && (|s| > 1 ==> s[0] != '0') && 0 <= FromDecimal(s) < 256
    then Some(FromDecimal(s) as byte) else None
  }

  function ParseAddress(s: string): Option<Bytes4> {
    var parts := Split(s, '.');
    if |parts| != 4 || ParseOctet(parts[0]).None? || ParseOctet(parts[1]).None? || ParseOctet(parts[2]).None?
       || ParseOctet(parts[3]).None?
    then None
    else Some([ParseOctet(parts[0]).value, ParseOctet(parts[1]).value, ParseOctet(parts[2]).value,
               ParseOctet(parts[3]).value])
  }

  /** One octet as the agent reads it. */
  function AgentOctet(s: string): Option<byte> {
    if s == "" || (|s| > 1 && s[0] == '0') then None else ParseByte(s)
  }

  function AgentAddress(s: string): Option<Bytes4> {
    var parts := Split(s, '.');
    if |parts| != 4 || AgentOctet(parts[0]).None? || AgentOctet(parts[1]).None? || AgentOctet(parts[2]).None?
       || AgentOctet(parts[3]).None?
    then None
    else Some([AgentOctet(parts[0]).value, AgentOctet(parts[1]).value, AgentOctet(parts[2]).value,
               AgentOctet(parts[3]).value])
  }

  /** `split_once`: the text before and after the first separator. */
  function SplitOnce(s: string, separator: char): Option<(string, string)> {
    if s == "" then None
    else if s[0] == separator then Some(("", s[1..]))
    else match SplitOnce(s[1..], separator)
      case None => None
      case Some(pair) => Some(([s[0]] + pair.0, pair.1))
  }

  lemma {:induction false} SplitOnceAt(a: string, b: string, separator: char)
    requires separator !in a
    ensures SplitOnce(a + [separator] + b, separator) == Some((a, b))
  {
    var s := a + [separator] + b;
    if a == "" {
      assert s[1..] == b;
    } else {
      assert s[1..] == a[1..] + [separator] + b;
      assert forall i :: 0 <= i < |a[1..]| ==> a[1..][i] == a[i + 1];
      assert a[0] in a;
      SplitOnceAt(a[1..], b, separator);
      assert a == [a[0]] + a[1..];
    }
  }

  // ---- the keys both ends compare ----

  const MALFORMED: nat := 0xFFFF_FFFF * 256 + 255

  /** `netd_prefix_sort_key` as one number: the address, then the length. */
  function SortKey(prefix: string): nat {
    match SplitOnce(prefix, '/')
    case None => MALFORMED
    case Some(parts) =>
      if ParseAddress(parts.0).None? || ParseByte(parts.1).None? then MALFORMED
      else FromBigEndian(ParseAddress(parts.0).value) * 256 + ParseByte(parts.1).value as int
  }

  /** `parse_prefix` of the agent. */
  function AgentPrefix(prefix: string): Option<Ipv4Prefix> {
    match SplitOnce(prefix, '/')
    case None => None
    case Some(parts) =>
      if ParseByte(parts.1).None? || AgentAddress(parts.0).None? then None
      else
        var p := Ipv4Prefix(AgentAddress(parts.0).value, ParseByte(parts.1).value);
        if CanonicalPrefix(p) then Some(p) else None
  }

  /** The address part is one that `Ipv4Addr::from_str` reads. */
  predicate PlainPrefix(prefix: string) {
    SplitOnce(prefix, '/').Some? && ParseAddress(SplitOnce(prefix, '/').value.0).Some?
  }

  lemma OctetsAgree(s: string)
    requires ParseOctet(s).Some?
    ensures AgentOctet(s) == ParseOctet(s)
  {
    assert '0' <= s[0] <= '9';
  }

  /** The standard parser reads exactly the decimal digits of a byte; the agent reads those and, behind a plus
      sign, any digits of that value. */
  lemma OctetsExactly(s: string, v: byte)
    ensures ParseOctet(s) == Some(v) <==> s == Decimal(v as nat)
    ensures AgentOctet(s) == Some(v) <==>
            s == Decimal(v as nat) || (|s| > 1 && s[0] == '+' && Digits(s[1..]) && FromDecimal(s[1..]) == v as int)
  {
    hide FromDecimal, Decimal, Digits;
    ReadsOctet(v);
    var d := Decimal(v as nat);
    DecimalRoundTrip(v as nat);
    DecimalIsDigits(v as nat);
    assert forall t: string :: Digits(t) && t != "" ==> t[0] != '+' by { DigitsOnly(); }
    if s != "" && Digits(s) && (|s| > 1 ==> s[0] != '0') && FromDecimal(s) == v as int {
      OneWriting(s);
    }
  }

  lemma DigitsOnly()
    ensures forall t: string :: Digits(t) && t != "" ==> t[0] != '+'
  {
  }

  /** A number is written without leading zeros in one way. */
  lemma {:induction false} OneWriting(s: string)
    requires s != "" && Digits(s) && (|s| > 1 ==> s[0] != '0')
    ensures FromDecimal(s) >= 0 && Decimal(FromDecimal(s)) == s
    ensures s[0] != '0' ==> FromDecimal(s) > 0
  {
    var init, last := s[..|s| - 1], s[|s| - 1];
    assert Digits(init) && last in s && '0' <= last <= '9';
    InitAndLast(s);
    var k := last as int - '0' as int;
    assert "0123456789"[k] == last;
    if init != "" {
      assert init[0] == s[0];
      OneWriting(init);
      assert FromDecimal(s) / 10 == FromDecimal(init) && FromDecimal(s) % 10 == k;
    }
  }

  /** The agent reads every plain address, as the same address. */
  lemma AddressesAgree(s: string)
    requires ParseAddress(s).Some?
    ensures AgentAddress(s) == ParseAddress(s)
  {
    hide ParseOctet, AgentOctet, Split;
    var parts := Split(s, '.');
    OctetsAgree(parts[0]);
    OctetsAgree(parts[1]);
    OctetsAgree(parts[2]);
    OctetsAgree(parts[3]);
  }

  /** For every prefix the agent reads: the sort key is the rank of what the agent makes of it exactly when
      the standard parser reads the address too; any other prefix sorts behind all of them. */
  lemma KeyIsRankExactly(prefix: string)
    requires AgentPrefix(prefix).Some?
    ensures SortKey(prefix) == PrefixRank(AgentPrefix(prefix).value) <==> PlainPrefix(prefix)
    ensures !PlainPrefix(prefix) ==> SortKey(prefix) == MALFORMED
    ensures PrefixRank(AgentPrefix(prefix).value) < MALFORMED
  {
    hide ParseAddress, AgentAddress, ParseByte, SplitOnce, FromBigEndian;
    Widths();
    if PlainPrefix(prefix) {
      AddressesAgree(SplitOnce(prefix, '/').value.0);
    }
  }

  // ---- writing ----

  function AddressText(a: Bytes4): string {
    Decimal(a[0] as int) + "." + Decimal(a[1] as int) + "." + Decimal(a[2] as int) + "." + Decimal(a[3] as int)
  }

  function HostText(a: Bytes4): string {
    AddressText(a) + "/" + "32"
  }

  lemma ReadsOctet(v: byte)
    ensures ParseOctet(Decimal(v as int)) == Some(v)
    ensures '.' !in Decimal(v as int) && '/' !in Decimal(v as int)
  {
    var n := v as int;
    DecimalRoundTrip(n);
    DecimalIsDigits(n);
    if n >= 10 {
      DecimalIsDigits(n / 10);
      if n >= 100 {
        DecimalIsDigits(n / 100);
      }
    }
  }

  lemma ReadsAddress(a: Bytes4)
    ensures ParseAddress(AddressText(a)) == Some(a) && '/' !in AddressText(a)
  {
    hide Decimal, ParseOctet, Split;
    var p, q, r, s := Decimal(a[0] as int), Decimal(a[1] as int), Decimal(a[2] as int), Decimal(a[3] as int);
    ReadsOctet(a[0]);
    ReadsOctet(a[1]);
    ReadsOctet(a[2]);
    ReadsOctet(a[3]);
    SplitWhole(p, '.');
    SplitAtSeparator(p, q, '.');
    SplitAtSeparator(p + "." + q, r, '.');
    SplitAtSeparator(p + "." + q + "." + r, s, '.');
    assert Split(AddressText(a), '.') == [p, q, r, s];
    assert [a[0], a[1], a[2], a[3]] == a;
  }

  /** A host prefix written here is read back, by both, as that host. */
  lemma ReadsHost(a: Bytes4)
    ensures PlainPrefix(HostText(a)) && AgentPrefix(HostText(a)) == Some(Ipv4Prefix(a, 32))
    ensures SortKey(HostText(a)) == FromBigEndian(a) * 256 + 32
  {
    hide AddressText, ParseAddress, AgentAddress, FromBigEndian;
    ReadsAddress(a);
    SplitOnceAt(AddressText(a), "32", '/');
    AddressesAgree(AddressText(a));
    ThirtyTwo();
    assert FromBigEndian(a) % Pow2(0) == 0;
  }

  lemma ThirtyTwo()
    ensures ParseByte("32") == Some(32)
  {
    assert "32"[..1] == "3" && "3"[..0] == "";
    assert FromDecimal("32") == 32;
  }

  /** The same host with a plus sign in front. */
  function PlusText(a: Bytes4): string {
    "+" + AddressText(a) + "/" + "32"
  }

  lemma PlusOctet(v: byte)
    ensures AgentOctet("+" + Decimal(v as int)) == Some(v) && ParseOctet("+" + Decimal(v as int)).None?
    ensures '.' !in "+" + Decimal(v as int)
  {
    hide Decimal;
    ReadsOctet(v);
    var s := "+" + Decimal(v as int);
    DecimalRoundTrip(v as int);
    DecimalIsDigits(v as int);
    assert s[0] == '+' && s[1..] == Decimal(v as int);
  }

  lemma PlusAddress(a: Bytes4)
    ensures AgentAddress("+" + AddressText(a)) == Some(a) && ParseAddress("+" + AddressText(a)).None?
    ensures '/' !in "+" + AddressText(a)
  {
    hide Decimal, ParseOctet, AgentOctet, Split;
    var p, q, r, s := "+" + Decimal(a[0] as int), Decimal(a[1] as int), Decimal(a[2] as int), Decimal(a[3] as int);
    PlusOctet(a[0]);
    ReadsOctet(a[1]);
    ReadsOctet(a[2]);
    ReadsOctet(a[3]);
    OctetsAgree(q);
    OctetsAgree(r);
    OctetsAgree(s);
    ReadsAddress(a);
    SplitWhole(p, '.');
    SplitAtSeparator(p, q, '.');
    SplitAtSeparator(p + "." + q, r, '.');
    SplitAtSeparator(p + "." + q + "." + r, s, '.');
    assert "+" + AddressText(a) == p + "." + q + "." + r + "." + s;
    assert [a[0], a[1], a[2], a[3]] == a;
  }

  /** With a plus sign every host is read by the agent as that host, and by the standard parser not at
      all. */
  lemma ReadsPlus(a: Bytes4)
    ensures AgentPrefix(PlusText(a)) == Some(Ipv4Prefix(a, 32)) && !PlainPrefix(PlusText(a))
  {
    hide AddressText, ParseAddress, AgentAddress, FromBigEndian;
    PlusAddress(a);
    SplitOnceAt("+" + AddressText(a), "32", '/');
    ThirtyTwo();
    assert FromBigEndian(a) % Pow2(0) == 0;
  }
}
