/**
  Address and mask arithmetic of src/middleware/ipAllowlist.js.  32-bit values are natural numbers
  below 2^32 and each JavaScript operator is written out on them.
*/
module IpAllowlist {
  import opened Wrappers
  import opened Text

  // ---------------------------------------------------------------------------
  // JavaScript numbers
  // ---------------------------------------------------------------------------

  function Pow2(k: nat): (p: nat)
    ensures p >= 1
  {
    if k == 0 then 1 else 2 * Pow2(k - 1)
  }

  /** x >>> 0 */
  function ToUint32(x: int): (r: nat)
    ensures r < 0x1_0000_0000
  {
    x % 0x1_0000_0000
  }

  /** The signed value of a 32-bit pattern. */
  function ToInt32(x: int): int {
    var u := ToUint32(x);
    if u < 0x8000_0000 then u else u - 0x1_0000_0000
  }

  /** x << k: the shift count is taken modulo 32. */
  function ShiftLeft(x: int, k: nat): int {
    ToInt32(ToInt32(x) * Pow2(k % 32))
  }

  /** Bitwise and of the lowest `bits` bits. */
  function BitAnd(x: nat, y: nat, bits: nat): nat {
    if bits == 0 then 0
    else 2 * BitAnd(x / 2, y / 2, bits - 1) + if x % 2 == 1 && y % 2 == 1 then 1 else 0
  }

  function LeadingDigits(s: string): (d: string)
    ensures forall c <- d :: IsDigit(c)
  {
    if s != "" && IsDigit(s[0]) then [s[0]] + LeadingDigits(s[1..]) else ""
  }

  /** parseInt(s, 10); None is NaN. */
  function ParseInt(s: string): Option<int> {
    var t := TrimStart(s);
    var negative := t != "" && t[0] == '-';
    var digits := LeadingDigits(if negative || (t != "" && t[0] == '+') then t[1..] else t);
    var value: int := DecimalValue(digits);
    if digits == "" then None else Some(if negative then -value else value)
  }

  // ---------------------------------------------------------------------------
  // ipv4ToInt
  // ---------------------------------------------------------------------------

  /** An octet: the canonical decimal numeral of a number up to 255. */
  function Octet(part: string): (n: Option<nat>)
    ensures n.Some? ==> n.value <= 255
  {
    match ParseInt(part)
    case Some(n) => if 0 <= n <= 255 && Decimal(n) == part then Some(n) else None
    case None => None
  }

  /** Value of the first n parts. */
  function OctetsValue(parts: seq<string>, n: nat): Option<nat>
    requires n <= |parts|
  {
    if n == 0 then Some(0)
    else if OctetsValue(parts, n - 1).None? || Octet(parts[n - 1]).None? then None
    else Some(ToUint32(OctetsValue(parts, n - 1).value * 256 + Octet(parts[n - 1]).value))
  }

  function Ipv4Value(ip: string): Option<nat> {
    var parts := Split(ip, '.');
    if |parts| != 4 then None else OctetsValue(parts, 4)
  }

  method Ipv4ToInt(ip: string) returns (r: Option<nat>)
    ensures r == Ipv4Value(ip)
  {
    hide ParseInt, Decimal, Split;
    var parts := Split(ip, '.');
    if |parts| != 4 {
      return None;
    }
    var result := 0;
    for i := 0 to |parts|
      invariant OctetsValue(parts, i) == Some(result)
    {
      var n := ParseInt(parts[i]);
      if n.None? || n.value < 0 || n.value > 255 || Decimal(n.value) != parts[i] {
        NoneStays(parts, i + 1);
        return None;
      }
      result := ToUint32(result * 256 + n.value);
    }
    r := Some(result);
  }

  lemma {:induction false} NoneStays(parts: seq<string>, n: nat)
    requires n <= |parts| && OctetsValue(parts, n) == None
    ensures OctetsValue(parts, |parts|) == None
    decreases |parts| - n
  {
    if n < |parts| {
      NoneStays(parts, n + 1);
    }
  }

  /** The canonical spelling of a 32-bit address. */
  function Quad(x: nat): string
    requires x < 0x1_0000_0000
  {
    Join(QuadParts(x), '.')
  }

  function QuadParts(x: nat): (parts: seq<string>)
    requires x < 0x1_0000_0000
    ensures |parts| == 4
  {
    [Decimal(x / 256 / 256 / 256), Decimal(x / 256 / 256 % 256), Decimal(x / 256 % 256), Decimal(x % 256)]
  }

  lemma {:induction false} LeadingDigitsAll(s: string)
    requires forall c <- s :: IsDigit(c)
    ensures LeadingDigits(s) == s
  {
    if s != "" {
      LeadingDigitsAll(s[1..]);
    }
  }

  lemma ParseIntDecimal(n: nat)
    ensures ParseInt(Decimal(n)) == Some(n)
  {
    var s := Decimal(n);
    assert IsDigit(s[0]) && !IsSpace(s[0]);
    LeadingDigitsAll(s);
    DecimalRoundTrip(n);
  }

  /** An octet has exactly one spelling. */
  lemma OctetExact(part: string, n: nat)
    ensures Octet(part) == Some(n) <==> n <= 255 && part == Decimal(n)
  {
    if n <= 255 && part == Decimal(n) {
      ParseIntDecimal(n);
    }
  }

  lemma QuadSplit(x: nat)
    requires x < 0x1_0000_0000
    ensures Split(Quad(x), '.') == QuadParts(x)
  {
    forall p | p in QuadParts(x) ensures '.' !in p {
      assert forall c <- p :: IsDigit(c);
    }
    SplitJoin(QuadParts(x), '.');
  }

  lemma NextOctet(parts: seq<string>, n: nat, before: nat, octet: nat)
    requires n < |parts| && OctetsValue(parts, n) == Some(before) && Octet(parts[n]) == Some(octet)
    requires before < 0x100_0000
    ensures OctetsValue(parts, n + 1) == Some(before * 256 + octet)
  {
    hide Octet;
  }

  /** Value of four octets in closed form. */
  lemma FourOctets(parts: seq<string>, a: nat, b: nat, c: nat, d: nat)
    requires |parts| == 4
    requires Octet(parts[0]) == Some(a) && Octet(parts[1]) == Some(b) && Octet(parts[2]) == Some(c) && Octet(parts[3]) == Some(d)
    ensures OctetsValue(parts, 4) == Some(((a * 256 + b) * 256 + c) * 256 + d)
  {
    NextOctet(parts, 0, 0, a);
    NextOctet(parts, 1, a, b);
    NextOctet(parts, 2, a * 256 + b, c);
    NextOctet(parts, 3, (a * 256 + b) * 256 + c, d);
  }

  lemma QuadPartsValue(x: nat)
    requires x < 0x1_0000_0000
    ensures OctetsValue(QuadParts(x), 4) == Some(x)
  {
    hide Octet, Decimal, OctetsValue;
    var p := QuadParts(x);
    var y := x / 256;
    var z := y / 256;
    OctetExact(p[0], z / 256);
    OctetExact(p[1], z % 256);
    OctetExact(p[2], y % 256);
    OctetExact(p[3], x % 256);
    FourOctets(p, z / 256, z % 256, y % 256, x % 256);
  }

  lemma QuadValue(x: nat)
    requires x < 0x1_0000_0000
    ensures Ipv4Value(Quad(x)) == Some(x)
  {
    QuadSplit(x);
    QuadPartsValue(x);
  }

  /** Four octets are the quad of their value. */
  lemma PartsAreQuad(parts: seq<string>, a: nat, b: nat, c: nat, d: nat)
    requires |parts| == 4
    requires Octet(parts[0]) == Some(a) && Octet(parts[1]) == Some(b) && Octet(parts[2]) == Some(c) && Octet(parts[3]) == Some(d)
    ensures var x := ((a * 256 + b) * 256 + c) * 256 + d; x < 0x1_0000_0000 && parts == QuadParts(x)
  {
    hide Octet, Decimal;
    OctetExact(parts[0], a);
    OctetExact(parts[1], b);
    OctetExact(parts[2], c);
    OctetExact(parts[3], d);
    Digits256((a * 256 + b) * 256 + c, d);
    Digits256(a * 256 + b, c);
    Digits256(a, b);
  }

  lemma Digits256(high: nat, low: nat)
    requires low < 256
    ensures (high * 256 + low) / 256 == high && (high * 256 + low) % 256 == low
  {
  }

  lemma {:induction false} AllOctets(parts: seq<string>, n: nat, i: nat)
    requires i < n <= |parts| && OctetsValue(parts, n).Some?
    ensures Octet(parts[i]).Some?
  {
    if i < n - 1 {
      AllOctets(parts, n - 1, i);
    }
  }

  /** ipv4ToInt is a bijection from canonical dotted quads to 0..2^32-1: every value has its quad, and
      no other text has that value. */
  lemma Ipv4Bijection(ip: string, x: nat)
    ensures Ipv4Value(ip) == Some(x) <==> x < 0x1_0000_0000 && ip == Quad(x)
  {
    if x < 0x1_0000_0000 && ip == Quad(x) {
      QuadValue(x);
    }
    if Ipv4Value(ip) == Some(x) {
      var parts := Split(ip, '.');
      AllOctets(parts, 4, 0);
      AllOctets(parts, 4, 1);
      AllOctets(parts, 4, 2);
      AllOctets(parts, 4, 3);
      var a, b, c, d := Octet(parts[0]).value, Octet(parts[1]).value, Octet(parts[2]).value, Octet(parts[3]).value;
      FourOctets(parts, a, b, c, d);
      PartsAreQuad(parts, a, b, c, d);
      JoinSplit(ip, '.');
    }
  }

  // ---------------------------------------------------------------------------
  // normalizeIp
  // ---------------------------------------------------------------------------

  /** Text before the first `c`, or all of it. */
  function UpTo(s: string, c: char): string {
    if s == "" || s[0] == c then "" else [s[0]] + UpTo(s[1..], c)
  }

  predicate IsHex(c: char) {
    IsDigit(c) || 'a' <= c <= 'f' || 'A' <= c <= 'F'
  }

  function HexDigitValue(c: char): (n: nat)
    requires IsHex(c)
    ensures n < 16
  {
    if IsDigit(c) then c as int - '0' as int
    else if 'a' <= c <= 'f' then c as int - 'a' as int + 10
    else c as int - 'A' as int + 10
  }

  /** parseInt(s, 16) on hexadecimal digits. */
  function HexNumber(s: string): nat
    requires forall c <- s :: IsHex(c)
  {
    if s == "" then 0 else 16 * HexNumber(s[..|s| - 1]) + HexDigitValue(s[|s| - 1])
  }

  predicate IsF(c: char) {
    c == 'f' || c == 'F'
  }

  /** /^::ffff:/i */
  predicate HasMappedPrefix(s: string) {
    && |s| >= 7 && s[0] == ':' && s[1] == ':' && s[6] == ':'
    && IsF(s[2]) && IsF(s[3]) && IsF(s[4]) && IsF(s[5])
  }

  /** \d{1,3} four times between dots. */
  predicate DottedShape(s: string) {
    var parts := Split(s, '.');
    |parts| == 4 && forall p <- parts :: 1 <= |p| <= 3 && forall c <- p :: IsDigit(c)
  }

  /** [0-9a-f]{1,4} */
  predicate HexGroup(s: string) {
    1 <= |s| <= 4 && forall c <- s :: IsHex(c)
  }

  /** Two groups of hexadecimal digits. */
  predicate HexShape(s: string) {
    var parts := Split(s, ':');
    |parts| == 2 && HexGroup(parts[0]) && HexGroup(parts[1])
  }

  function HexQuad(hi: nat, lo: nat): string {
    Join([Decimal(hi / 256 % 256), Decimal(hi % 256), Decimal(lo / 256 % 256), Decimal(lo % 256)], '.')
  }

  function NormalizeIp(ip: string): Option<string> {
    if ip == "" then None
    else
      var stripped := UpTo(ip, '%');
      if HasMappedPrefix(stripped) && DottedShape(stripped[7..]) then Some(stripped[7..])
      else if HasMappedPrefix(stripped) && HexShape(stripped[7..]) then
        var groups := Split(stripped[7..], ':');
        Some(HexQuad(HexNumber(groups[0]), HexNumber(groups[1])))
      else Some(stripped)
  }

  /** The IPv4 address a client address stands for. */
  function AddressOf(ip: string): Option<nat> {
    match NormalizeIp(ip)
    case Some(n) => if n == "" then None else Ipv4Value(n)
    case None => None
  }

  // ---------------------------------------------------------------------------
  // parseEntry, parseAllowlist, isAllowed
  // ---------------------------------------------------------------------------

  datatype Entry = Entry(network: nat, mask: nat)

  function MaskOf(prefix: nat): nat
    requires prefix <= 32
  {
    if prefix == 0 then 0 else ToUint32(ShiftLeft(-1, 32 - prefix))
  }

  /** Address and prefix length an entry spells; a plain address has prefix 32. */
  function CidrOf(entry: string): (r: Option<(nat, nat)>)
    ensures r.Some? ==> r.value.1 <= 32
  {
    var trimmed := Trim(entry);
    if trimmed == "" then None
    else if '/' in trimmed then
      var ipPart := UpTo(trimmed, '/');
      assert |ipPart| < |trimmed| by { UpToShorter(trimmed, '/'); }
      var prefix := ParseInt(Trim(trimmed[|ipPart| + 1..]));
      if prefix.None? || prefix.value < 0 || prefix.value > 32 then None
      else if Ipv4Value(Trim(ipPart)).None? then None
      else Some((Ipv4Value(Trim(ipPart)).value, prefix.value))
    else if Ipv4Value(trimmed).None? then None
    else Some((Ipv4Value(trimmed).value, 32))
  }

  lemma {:induction false} UpToShorter(s: string, c: char)
    requires c in s
    ensures |UpTo(s, c)| < |s|
  {
    if s[0] != c {
      UpToShorter(s[1..], c);
    }
  }

  function ParseEntry(entry: string): Option<Entry> {
    match CidrOf(entry)
    case None => None
    case Some((address, prefix)) =>
      if '/' in Trim(entry) then Some(Entry(BitAnd(address, MaskOf(prefix), 32), MaskOf(prefix)))
      else Some(Entry(address, 0xFFFF_FFFF))
  }

  /** split(',').map(parseEntry).filter(Boolean) */
  function Entries(pieces: seq<string>): seq<Entry> {
    if pieces == [] then []
    else (match ParseEntry(pieces[0]) case Some(e) => [e] case None => []) + Entries(pieces[1..])
  }

  /** None disables the feature. */
  function ParseAllowlist(raw: string): Option<seq<Entry>> {
    if Trim(raw) == "" then None
    else if Entries(Split(raw, ',')) == [] then None
    else Some(Entries(Split(raw, ',')))
  }

  predicate Matches(x: nat, e: Entry) {
    BitAnd(x, e.mask, 32) == e.network
  }

  predicate IsAllowed(ip: string, allowlist: Option<seq<Entry>>) {
    allowlist.None? || (AddressOf(ip).Some? && exists e <- allowlist.value :: Matches(AddressOf(ip).value, e))
  }

  // ---------------------------------------------------------------------------
  // A mask keeps the leading bits
  // ---------------------------------------------------------------------------

  lemma DivUnique(a: int, m: int, q: int)
    requires m > 0 && m * q <= a < m * (q + 1)
    ensures a / m == q
  {
    var r := a - m * q;
    assert a == m * q + r && 0 <= r < m;
    var d := a / m;
    MulMonotone(m, d + 1, q);
    MulMonotone(m, q + 1, d);
  }

  lemma MulMonotone(m: int, a: int, b: int)
    requires m >= 0
    ensures a <= b ==> m * a <= m * b
  {
    if a <= b {
      assert m * b - m * a == m * (b - a);
    }
  }

  lemma HalfFirst(x: nat, m: nat)
    requires m >= 1
    ensures x / (2 * m) == (x / 2) / m
  {
    var q := (x / 2) / m;
    var r := (x / 2) % m;
    assert x / 2 == m * q + r;
    assert (2 * m) * q == 2 * (m * q);
    assert (2 * m) * (q + 1) == 2 * (m * q) + 2 * m;
    DivUnique(x, 2 * m, q);
  }

  /** One bit of the conjunction with an even number, and with an odd one. */
  lemma BitAndStep(x: nat, h: nat, n: nat)
    requires n > 0
    ensures BitAnd(x, 2 * h, n) == 2 * BitAnd(x / 2, h, n - 1)
    ensures BitAnd(x, 2 * h + 1, n) == 2 * BitAnd(x / 2, h, n - 1) + x % 2
  {
  }

  /** And with the n bits all set changes nothing. */
  lemma {:induction false} MaskAll(x: nat, n: nat)
    requires x < Pow2(n)
    ensures BitAnd(x, Pow2(n) - 1, n) == x
  {
    if n > 0 {
      MaskAll(x / 2, n - 1);
      BitAndStep(x, Pow2(n - 1) - 1, n);
      assert Pow2(n) - 1 == 2 * (Pow2(n - 1) - 1) + 1;
    }
  }

  /** x with its lowest k bits cleared. */
  function DropLow(x: nat, k: nat): nat {
    if k == 0 then x else 2 * DropLow(x / 2, k - 1)
  }

  lemma {:induction false} DropLowIs(x: nat, k: nat)
    ensures DropLow(x, k) == x / Pow2(k) * Pow2(k)
  {
    if k == 0 {
      assert x / 1 * 1 == x;
    } else {
      DropLowIs(x / 2, k - 1);
      HalfFirst(x, Pow2(k - 1));
      Doubled(x / Pow2(k), Pow2(k - 1));
    }
  }

  lemma Doubled(q: int, m: int)
    ensures q * (2 * m) == 2 * (q * m)
  {
  }

  lemma {:induction false} MaskDropsLow(x: nat, n: nat, k: nat)
    requires k <= n && x < Pow2(n)
    ensures Pow2(n) >= Pow2(k)
    ensures BitAnd(x, Pow2(n) - Pow2(k), n) == DropLow(x, k)
  {
    PowMonotone(k, n);
    if k == 0 {
      MaskAll(x, n);
    } else {
      PowMonotone(k - 1, n - 1);
      MaskDropsLow(x / 2, n - 1, k - 1);
      BitAndStep(x, Pow2(n - 1) - Pow2(k - 1), n);
    }
  }

  /** And with the mask of n bits whose lowest k are clear drops the lowest k bits. */
  lemma MaskKeepsTop(x: nat, n: nat, k: nat)
    requires k <= n && x < Pow2(n)
    ensures Pow2(n) >= Pow2(k)
    ensures BitAnd(x, Pow2(n) - Pow2(k), n) == x / Pow2(k) * Pow2(k)
  {
    MaskDropsLow(x, n, k);
    DropLowIs(x, k);
  }

  lemma {:induction false} PowMonotone(k: nat, n: nat)
    requires k <= n
    ensures Pow2(k) <= Pow2(n)
  {
    if k < n {
      PowMonotone(k, n - 1);
    }
  }

  lemma Pow32()
    ensures Pow2(32) == 0x1_0000_0000
  {
    assert Pow2(8) == 256;
    assert Pow2(16) == 0x1_0000;
    assert Pow2(24) == 0x100_0000;
  }

  /** (~0 << (32 - prefix)) >>> 0 has exactly the top `prefix` bits set. */
  lemma MaskValue(prefix: nat)
    requires prefix <= 32
    ensures Pow2(32 - prefix) <= Pow2(32)
    ensures MaskOf(prefix) == Pow2(32) - Pow2(32 - prefix)
  {
    Pow32();
    PowMonotone(32 - prefix, 32);
    if prefix > 0 {
      PowMonotone(32 - prefix, 31);
      assert Pow2(32) == 2 * Pow2(31);
      assert (32 - prefix) % 32 == 32 - prefix && ToInt32(-1) == -1;
      ShiftedOnes(Pow2(32 - prefix));
    }
  }

  lemma ShiftedOnes(p: int)
    requires 1 <= p <= 0x8000_0000
    ensures ToUint32(ToInt32(-1 * p)) == 0x1_0000_0000 - p
  {
    assert ToUint32(-1 * p) == 0x1_0000_0000 - p;
  }

  /** Two addresses agree on their leading `prefix` bits (section 3.1 of RFC 4632). */
  predicate AgreeOnPrefix(x: nat, a: nat, prefix: nat)
    requires prefix <= 32
  {
    x / Pow2(32 - prefix) == a / Pow2(32 - prefix)
  }

  lemma MultipleUnique(p: int, q: int, m: int)
    requires m >= 1 && p * m == q * m
    ensures p == q
  {
    MulMonotone(m, p + 1, q);
    MulMonotone(m, q + 1, p);
  }

  lemma MaskedEqual(x: nat, a: nat, prefix: nat)
    requires x < 0x1_0000_0000 && a < 0x1_0000_0000 && prefix <= 32
    ensures BitAnd(x, MaskOf(prefix), 32) == BitAnd(a, MaskOf(prefix), 32) <==> AgreeOnPrefix(x, a, prefix)
  {
    hide BitAnd, MaskOf, Pow2;
    Pow32();
    MaskValue(prefix);
    MaskKeepsTop(x, 32, 32 - prefix);
    MaskKeepsTop(a, 32, 32 - prefix);
    var m := Pow2(32 - prefix);
    if x / m * m == a / m * m {
      MultipleUnique(x / m, a / m, m);
    }
  }

  lemma FullMask(x: nat)
    requires x < 0x1_0000_0000
    ensures MaskOf(32) == 0xFFFF_FFFF && BitAnd(x, 0xFFFF_FFFF, 32) == x
  {
    Pow32();
    MaskValue(32);
    MaskKeepsTop(x, 32, 0);
    assert Pow2(0) == 1;
  }

  lemma Ipv4Bounded(ip: string)
    ensures Ipv4Value(ip).Some? ==> Ipv4Value(ip).value < 0x1_0000_0000
  {
    if Ipv4Value(ip).Some? {
      Ipv4Bijection(ip, Ipv4Value(ip).value);
    }
  }

  lemma CidrBounded(entry: string)
    ensures CidrOf(entry).Some? ==> CidrOf(entry).value.0 < 0x1_0000_0000
  {
    var trimmed := Trim(entry);
    Ipv4Bounded(trimmed);
    Ipv4Bounded(Trim(UpTo(trimmed, '/')));
  }

  /** An entry matches exactly the addresses that share its leading prefix bits. */
  lemma EntryExact(entry: string, x: nat)
    requires x < 0x1_0000_0000
    ensures ParseEntry(entry).Some? <==> CidrOf(entry).Some?
    ensures CidrOf(entry).Some? ==>
              (Matches(x, ParseEntry(entry).value) <==> AgreeOnPrefix(x, CidrOf(entry).value.0, CidrOf(entry).value.1))
  {
    CidrBounded(entry);
    if CidrOf(entry).Some? {
      var (a, prefix) := CidrOf(entry).value;
      MaskedEqual(x, a, prefix);
      FullMask(x);
      FullMask(a);
    }
  }

  lemma {:induction false} EntriesExact(pieces: seq<string>, e: Entry)
    ensures e in Entries(pieces) <==> exists p <- pieces :: ParseEntry(p) == Some(e)
  {
    if pieces != [] {
      EntriesExact(pieces[1..], e);
      assert forall p <- pieces :: p == pieces[0] || p in pieces[1..];
    }
  }

  lemma AddressBounded(ip: string)
    ensures AddressOf(ip).Some? ==> AddressOf(ip).value < 0x1_0000_0000
  {
    if NormalizeIp(ip).Some? {
      Ipv4Bounded(NormalizeIp(ip).value);
    }
  }

  /** Some listed range contains the address. */
  ghost predicate Listed(raw: string, x: nat) {
    exists p <- Split(raw, ',') :: Covers(p, x)
  }

  predicate Covers(piece: string, x: nat) {
    CidrOf(piece).Some? && AgreeOnPrefix(x, CidrOf(piece).value.0, CidrOf(piece).value.1)
  }

  /** The whole decision from the configured text: without a single readable entry everybody is let in,
      otherwise exactly the readable addresses that agree with some entry on its prefix bits. */
  lemma AllowlistExact(raw: string, ip: string)
    ensures ParseAllowlist(raw).Some? <==> exists p <- Split(raw, ',') :: CidrOf(p).Some?
    ensures ParseAllowlist(raw).Some? ==>
              (IsAllowed(ip, ParseAllowlist(raw)) <==> AddressOf(ip).Some? && Listed(raw, AddressOf(ip).value))
  {
    var pieces := Split(raw, ',');
    AddressBounded(ip);
    BlankHasNoEntry(raw);
    if p :| p in pieces && CidrOf(p).Some? {
      EntryExact(p, 0);
      EntriesExact(pieces, ParseEntry(p).value);
    }
    if Entries(pieces) != [] {
      var e := Entries(pieces)[0];
      EntriesExact(pieces, e);
      var p :| p in pieces && ParseEntry(p) == Some(e);
      EntryExact(p, 0);
    }
    if AddressOf(ip).Some? && ParseAllowlist(raw).Some? {
      MatchesListed(raw, AddressOf(ip).value);
    }
  }

  lemma MatchesListed(raw: string, x: nat)
    requires x < 0x1_0000_0000
    ensures (exists e <- Entries(Split(raw, ',')) :: Matches(x, e)) <==> Listed(raw, x)
  {
    var pieces := Split(raw, ',');
    if e :| e in Entries(pieces) && Matches(x, e) {
      EntriesExact(pieces, e);
      var p :| p in pieces && ParseEntry(p) == Some(e);
      EntryExact(p, x);
      assert Covers(p, x);
    }
    if p :| p in pieces && Covers(p, x) {
      EntryExact(p, x);
      EntriesExact(pieces, ParseEntry(p).value);
    }
  }

  /** White space alone has no entry, so the blank check changes nothing. */
  lemma BlankHasNoEntry(raw: string)
    ensures Trim(raw) == "" ==> Entries(Split(raw, ',')) == []
  {
    if Trim(raw) == "" {
      AllSpace(raw);
      SplitNone(raw, ',');
      assert Entries([raw]) == (match ParseEntry(raw) case Some(e) => [e] case None => []) + Entries([]);
    }
  }

  lemma {:induction false} TrimStartBlank(s: string)
    ensures TrimStart(s) == "" ==> forall c <- s :: IsSpace(c)
  {
    if s != "" && IsSpace(s[0]) {
      TrimStartBlank(s[1..]);
    }
  }

  lemma {:induction false} TrimEndRest(s: string)
    ensures forall i :: |TrimEnd(s)| <= i < |s| ==> IsSpace(s[i])
  {
    if s != "" && IsSpace(s[|s| - 1]) {
      TrimEndRest(s[..|s| - 1]);
    }
  }

  lemma AllSpace(s: string)
    requires Trim(s) == ""
    ensures ',' !in s
  {
    TrimStartBlank(TrimEnd(s));
    TrimEndRest(s);
    forall i | 0 <= i < |s| ensures IsSpace(s[i]) {
      if i < |TrimEnd(s)| {
        assert TrimEnd(s)[i] in TrimEnd(s);
      }
    }
  }

  // ---------------------------------------------------------------------------
  // Three spellings of one address
  // ---------------------------------------------------------------------------

  lemma {:induction false} UpToAll(s: string, c: char)
    requires c !in s
    ensures UpTo(s, c) == s
  {
    if s != "" {
      UpToAll(s[1..], c);
    }
  }

  lemma OctetShape(n: nat)
    requires n < 256
    ensures 1 <= |Decimal(n)| <= 3 && forall c <- Decimal(n) :: IsDigit(c)
  {
    if n >= 10 {
      assert |Decimal(n)| == |Decimal(n / 10)| + 1;
      if n >= 100 {
        var m := n / 10;
        assert m < 100 && |Decimal(m)| == |Decimal(m / 10)| + 1;
        assert |Decimal(m / 10)| == 1;
      }
    }
  }

  lemma QuadShape(x: nat)
    requires x < 0x1_0000_0000
    ensures DottedShape(Quad(x)) && Quad(x) != ""
    ensures forall c <- Quad(x) :: IsDigit(c) || c == '.'
  {
    QuadSplit(x);
    var y := x / 256;
    var z := y / 256;
    OctetShape(z / 256);
    OctetShape(z % 256);
    OctetShape(y % 256);
    OctetShape(x % 256);
    forall c | c in Quad(x) && c != '.' ensures IsDigit(c) {
      InJoin(QuadParts(x), '.', c);
      var p :| p in QuadParts(x) && c in p;
    }
  }

  /** The dotted quad itself. */
  lemma PlainSpelling(x: nat)
    requires x < 0x1_0000_0000
    ensures AddressOf(Quad(x)) == Some(x)
  {
    QuadShape(x);
    UpToAll(Quad(x), '%');
    QuadValue(x);
    assert Quad(x)[0] in Quad(x);
  }

  /** ::ffff:a.b.c.d, the prefix in either case (section 2.5.5.2 of RFC 4291). */
  lemma DottedSpelling(prefix: string, x: nat)
    requires x < 0x1_0000_0000 && |prefix| == 7 && HasMappedPrefix(prefix)
    ensures AddressOf(prefix + Quad(x)) == Some(x)
  {
    QuadShape(x);
    MappedText(prefix, Quad(x));
    QuadValue(x);
  }

  /** A mapped address is its prefix and the rest. */
  lemma MappedText(prefix: string, rest: string)
    requires |prefix| == 7 && HasMappedPrefix(prefix) && '%' !in rest
    ensures var ip := prefix + rest;
            ip != "" && UpTo(ip, '%') == ip && HasMappedPrefix(ip) && ip[7..] == rest
  {
    forall i | 0 <= i < 7 ensures prefix[i] != '%' {
      assert prefix[i] == ':' || IsF(prefix[i]);
    }
    UpToAll(prefix + rest, '%');
  }

  lemma HexQuadIsQuad(x: nat)
    requires x < 0x1_0000_0000
    ensures HexQuad(x / 0x1_0000, x % 0x1_0000) == Quad(x)
  {
    var hi, lo := x / 0x1_0000, x % 0x1_0000;
    assert x == hi * 0x1_0000 + lo;
    assert x / 256 == hi * 256 + lo / 256 && x % 256 == lo % 256;
    assert x / 256 / 256 == hi && x / 256 % 256 == lo / 256;
    assert lo / 256 % 256 == lo / 256 && hi / 256 % 256 == hi / 256;
  }

  /** ::ffff:hhhh:hhhh, any case and any number of leading zeros that fit. */
  lemma HexSpelling(prefix: string, hi: string, lo: string, x: nat)
    requires x < 0x1_0000_0000 && |prefix| == 7 && HasMappedPrefix(prefix)
    requires HexGroup(hi) && HexGroup(lo)
    requires HexNumber(hi) == x / 0x1_0000 && HexNumber(lo) == x % 0x1_0000
    ensures AddressOf(prefix + (hi + ":" + lo)) == Some(x)
  {
    var rest := hi + ":" + lo;
    HexText(hi, lo);
    MappedText(prefix, rest);
    HexQuadIsQuad(x);
    QuadShape(x);
    QuadValue(x);
  }

  /** Two groups of hexadecimal digits are read as such and not as a dotted address. */
  lemma HexText(hi: string, lo: string)
    requires HexGroup(hi) && HexGroup(lo)
    ensures var rest := hi + ":" + lo;
            '%' !in rest && !DottedShape(rest) && HexShape(rest) && Split(rest, ':') == [hi, lo]
  {
    var rest := hi + ":" + lo;
    assert forall c <- hi :: c != '%' && c != ':' && c != '.';
    assert forall c <- lo :: c != '%' && c != ':' && c != '.';
    SplitNone(rest, '.');
    SplitPrefix(hi, ':', lo);
    SplitNone(lo, ':');
  }

  /** The plain, dotted-mapped and hex-mapped spellings of one address always get the same answer. */
  lemma SpellingsAgree(prefix: string, prefix': string, hi: string, lo: string, x: nat, allowlist: Option<seq<Entry>>)
    requires x < 0x1_0000_0000
    requires |prefix| == 7 && HasMappedPrefix(prefix) && |prefix'| == 7 && HasMappedPrefix(prefix')
    requires HexGroup(hi) && HexGroup(lo)
    requires HexNumber(hi) == x / 0x1_0000 && HexNumber(lo) == x % 0x1_0000
    ensures IsAllowed(Quad(x), allowlist) == IsAllowed(prefix + Quad(x), allowlist)
    ensures IsAllowed(Quad(x), allowlist) == IsAllowed(prefix' + (hi + ":" + lo), allowlist)
  {
    PlainSpelling(x);
    DottedSpelling(prefix, x);
    HexSpelling(prefix', hi, lo, x);
  }

  // ---------------------------------------------------------------------------
  // Mapped addresses as entries
  // ---------------------------------------------------------------------------

  lemma TrimKeepsFirst(s: string)
    requires s != "" && !IsSpace(s[0])
    ensures Trim(s) != "" && Trim(s)[0] == s[0]
  {
    TrimEndRest(s);
    assert TrimEnd(s) != "" && TrimEnd(s)[0] == s[0];
  }

  lemma ReadStartsOtherwise(s: string)
    requires s != "" && Ipv4Value(s).Some?
    ensures s[0] != ':'
  {
    hide Ipv4Value;
    Ipv4Bijection(s, Ipv4Value(s).value);
    QuadShape(Ipv4Value(s).value);
    assert s[0] in s;
  }

  /** An entry is not normalized as a client address is: whatever follows, one in mapped form is unreadable. */
  lemma MappedEntryUnread(entry: string)
    requires HasMappedPrefix(Trim(entry))
    ensures CidrOf(entry) == None
  {
    hide Ipv4Value, ParseInt, Trim;
    var trimmed := Trim(entry);
    if Ipv4Value(trimmed).Some? {
      ReadStartsOtherwise(trimmed);
    }
    if '/' in trimmed {
      var ipPart := UpTo(trimmed, '/');
      assert ipPart != "" && ipPart[0] == ':';
      TrimKeepsFirst(ipPart);
      if Ipv4Value(Trim(ipPart)).Some? {
        ReadStartsOtherwise(Trim(ipPart));
      }
    }
  }

  /** A list of such entries alone is no list: everybody is let in. */
  lemma MappedListDisabled(raw: string, ip: string)
    requires forall p <- Split(raw, ',') :: HasMappedPrefix(Trim(p))
    ensures ParseAllowlist(raw) == None && IsAllowed(ip, ParseAllowlist(raw))
  {
    AllowlistExact(raw, ip);
    hide CidrOf;
    if p :| p in Split(raw, ',') && CidrOf(p).Some? {
      MappedEntryUnread(p);
    }
  }

  /** One mapped address: as a client address it stands for x, as the whole list it stands for nothing. */
  lemma MappedAddressDisables(prefix: string, x: nat, ip: string)
    requires x < 0x1_0000_0000 && |prefix| == 7 && HasMappedPrefix(prefix)
    ensures AddressOf(prefix + Quad(x)) == Some(x)
    ensures ParseAllowlist(prefix + Quad(x)) == None && IsAllowed(ip, ParseAllowlist(prefix + Quad(x)))
  {
    hide CidrOf, Entries, IsAllowed, ParseAllowlist, AddressOf, Quad, Trim;
    var raw := prefix + Quad(x);
    DottedSpelling(prefix, x);
    QuadShape(x);
    MappedHasNoComma(prefix, Quad(x));
    SplitNone(raw, ',');
    TrimPlain(raw);
    MappedListDisabled(raw, ip);
  }

  lemma MappedHasNoComma(prefix: string, rest: string)
    requires |prefix| == 7 && HasMappedPrefix(prefix) && forall c <- rest :: IsDigit(c) || c == '.'
    ensures HasMappedPrefix(prefix + rest)
    ensures forall c <- prefix + rest :: c != ',' && !IsSpace(c)
  {
  }

  lemma TrimPlain(s: string)
    requires forall c <- s :: !IsSpace(c)
    ensures Trim(s) == s
  {
    if s != "" {
      assert s[0] in s && s[|s| - 1] in s;
      assert TrimEnd(s) == s;
    }
  }

  // ---------------------------------------------------------------------------
  // Hexadecimal digits
  // ---------------------------------------------------------------------------

  /** The sixteen digits in either case, and a number by its places. */
  lemma HexExact(n: nat, s: string, c: char)
    requires n < 16 && (forall d <- s :: IsHex(d)) && IsHex(c)
    ensures IsHex("0123456789abcdef"[n]) && HexDigitValue("0123456789abcdef"[n]) == n
    ensures IsHex("0123456789ABCDEF"[n]) && HexDigitValue("0123456789ABCDEF"[n]) == n
    ensures HexNumber("") == 0 && HexNumber(s + [c]) == 16 * HexNumber(s) + HexDigitValue(c)
  {
    assert (s + [c])[..|s|] == s;
  }
}
