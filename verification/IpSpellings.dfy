/** The allowlist decision from the texts alone: which entries and which client addresses are readable and what they say. */
module IpSpellings {
  import opened Wrappers
  import opened Text
  import opened IpAllowlist

  // ---------------------------------------------------------------------------
  // Texts
  // ---------------------------------------------------------------------------

  lemma {:induction false} TrimEndAround(core: string, tail: string)
    requires AllSpaces(tail) && core != "" && !IsSpace(core[|core| - 1])
    ensures TrimEnd(core + tail) == core
  {
    if tail == "" {
      assert core + tail == core;
    } else {
      TrimEndAround(core, tail[..|tail| - 1]);
      assert (core + tail)[..|core + tail| - 1] == core + tail[..|tail| - 1];
    }
  }

  lemma {:induction false} TrimStartAround(lead: string, core: string)
    requires AllSpaces(lead) && core != "" && !IsSpace(core[0])
    ensures TrimStart(lead + core) == core
  {
    if lead == "" {
      assert lead + core == core;
    } else {
      TrimStartAround(lead[1..], core);
      assert (lead + core)[1..] == lead[1..] + core;
    }
  }

  lemma TrimAround(lead: string, core: string, tail: string)
    requires AllSpaces(lead) && AllSpaces(tail) && core != "" && !IsSpace(core[0]) && !IsSpace(core[|core| - 1])
    ensures Trim(lead + core + tail) == core
  {
    TrimEndAround(lead + core, tail);
    TrimStartAround(lead, core);
  }

  lemma {:induction false} UpToCuts(s: string, c: char)
    ensures c !in UpTo(s, c)
    ensures c in s ==> |UpTo(s, c)| < |s| && s == UpTo(s, c) + [c] + s[|UpTo(s, c)| + 1..]
    ensures c !in s ==> UpTo(s, c) == s
  {
    if s != "" && s[0] != c {
      UpToCuts(s[1..], c);
    }
  }

  lemma UpToCut(a: string, c: char, b: string)
    requires c !in a
    ensures UpTo(a + [c] + b, c) == a && (a + [c] + b)[|a| + 1..] == b
  {
    var s := a + [c] + b;
    UpToCuts(s, c);
    assert s[|a|] == c;
    CutUnique(UpTo(s, c), s[|UpTo(s, c)| + 1..], a, b, c);
  }

  // ---------------------------------------------------------------------------
  // Numbers as parseInt reads them
  // ---------------------------------------------------------------------------

  predicate AllDigits(s: string) {
    forall c <- s :: IsDigit(c)
  }

  /** A sign or none, digits, and then the end or something that is no digit. */
  predicate Numeral(s: string, sign: string, digits: string, rest: string) {
    && (sign == "" || sign == "+" || sign == "-") && digits != "" && AllDigits(digits) && (rest == "" || !IsDigit(rest[0]))
    && s == sign + digits + rest
  }

  /** The text starts with a number that is n. */
  ghost predicate StartsWithNumber(s: string, n: int) {
    exists sign, digits, rest :: Numeral(s, sign, digits, rest) && AllDigits(digits)
      && n == if sign == "-" then -(DecimalValue(digits) as int) else DecimalValue(digits) as int
  }

  lemma {:induction false} LeadingDigitsCut(digits: string, rest: string)
    requires AllDigits(digits) && (rest == "" || !IsDigit(rest[0]))
    ensures LeadingDigits(digits + rest) == digits
  {
    if digits == "" {
      assert digits + rest == rest;
    } else {
      LeadingDigitsCut(digits[1..], rest);
      assert (digits + rest)[1..] == digits[1..] + rest;
    }
  }

  lemma {:induction false} LeadingDigitsEnd(s: string)
    ensures LeadingDigits(s) <= s && (|LeadingDigits(s)| < |s| ==> !IsDigit(s[|LeadingDigits(s)|]))
  {
    if s != "" && IsDigit(s[0]) {
      LeadingDigitsEnd(s[1..]);
    }
  }

  lemma ParseIntReads(s: string, sign: string, digits: string, rest: string)
    requires Numeral(s, sign, digits, rest)
    ensures ParseInt(s) == Some(if sign == "-" then -(DecimalValue(digits) as int) else DecimalValue(digits) as int)
  {
    LeadingDigitsCut(digits, rest);
    assert digits[0] in digits;
    if sign == "" {
      assert s == digits + rest && s[0] == digits[0];
    } else {
      assert s[0] == sign[0] && s[1..] == digits + rest;
    }
  }

  lemma ParseIntSplits(s: string)
    requires s != "" && !IsSpace(s[0]) && ParseInt(s).Some?
    ensures StartsWithNumber(s, ParseInt(s).value)
  {
    hide DecimalValue, IsSpace, IsDigit, LeadingDigits;
    var signed := s[0] == '-' || s[0] == '+';
    var sign, t := if signed then [s[0]] else "", if signed then s[1..] else s;
    var digits := LeadingDigits(t);
    LeadingDigitsEnd(t);
    assert s == sign + digits + t[|digits|..];
    assert Numeral(s, sign, digits, t[|digits|..]);
  }

  /** parseInt gives exactly the number a text starts with; white space in front has been trimmed. */
  lemma ParseIntExact(s: string, n: int)
    requires s == "" || !IsSpace(s[0])
    ensures ParseInt(s) == Some(n) <==> StartsWithNumber(s, n)
  {
    hide ParseInt, Numeral;
    if ParseInt(s) == Some(n) {
      NothingParsed();
      ParseIntSplits(s);
    }
    if StartsWithNumber(s, n) {
      var sign, digits, rest :| Numeral(s, sign, digits, rest) && AllDigits(digits)
        && n == if sign == "-" then -(DecimalValue(digits) as int) else DecimalValue(digits) as int;
      ParseIntReads(s, sign, digits, rest);
    }
  }

  lemma NothingParsed()
    ensures ParseInt("") == None
  {
  }

  // ---------------------------------------------------------------------------
  // Entries
  // ---------------------------------------------------------------------------

  /** The entry spells the range of prefix length p around x: a dotted quad alone, or one before a slash and a
      number after it, with white space around either. */
  ghost predicate Spells(entry: string, x: nat, p: nat) {
    x < 0x1_0000_0000 && p <= 32
    && ((Trim(entry) == Quad(x) && p == 32) || exists a, b :: SlashSpells(Trim(entry), a, b, x, p))
  }

  ghost predicate SlashSpells(trimmed: string, a: string, b: string, x: nat, p: nat)
    requires x < 0x1_0000_0000
  {
    trimmed == a + "/" + b && '/' !in a && Trim(a) == Quad(x) && StartsWithNumber(Trim(b), p)
  }

  lemma QuadPlain(x: nat)
    requires x < 0x1_0000_0000
    ensures Quad(x) != "" && !IsSpace(Quad(x)[0]) && !IsSpace(Quad(x)[|Quad(x)| - 1])
    ensures '/' !in Quad(x) && '%' !in Quad(x) && ':' !in Quad(x)
  {
    hide Quad;
    QuadShape(x);
    assert Quad(x)[0] in Quad(x) && Quad(x)[|Quad(x)| - 1] in Quad(x);
  }

  lemma TrimHead(s: string)
    ensures Trim(s) == "" || !IsSpace(Trim(s)[0])
  {
    TrimExact(s);
  }

  lemma CidrSplits(entry: string)
    requires CidrOf(entry).Some?
    ensures Spells(entry, CidrOf(entry).value.0, CidrOf(entry).value.1)
  {
    hide Trim, UpTo, Ipv4Value, ParseInt, Quad, StartsWithNumber;
    var t := Trim(entry);
    if '/' in t {
      UpToCuts(t, '/');
      var a := UpTo(t, '/');
      var b := t[|a| + 1..];
      TrimHead(b);
      ParseIntExact(Trim(b), CidrOf(entry).value.1);
      Ipv4Bijection(Trim(a), CidrOf(entry).value.0);
      assert t == a + "/" + b;
      assert SlashSpells(t, a, b, CidrOf(entry).value.0, CidrOf(entry).value.1);
    } else {
      Ipv4Bijection(t, CidrOf(entry).value.0);
    }
  }

  lemma SpelledCidr(entry: string, x: nat, p: nat)
    requires Spells(entry, x, p)
    ensures CidrOf(entry) == Some((x, p))
  {
    hide Trim, UpTo, Ipv4Value, ParseInt, Quad, StartsWithNumber;
    var t := Trim(entry);
    QuadPlain(x);
    if t == Quad(x) && p == 32 {
      Ipv4Bijection(t, x);
    } else {
      var a, b :| SlashSpells(t, a, b, x, p);
      UpToCut(a, '/', b);
      assert t == a + ['/'] + b;
      assert t[|a|] == '/';
      TrimHead(b);
      ParseIntExact(Trim(b), p);
      Ipv4Bijection(Trim(a), x);
    }
  }

  /** An entry is read exactly as it is spelled, and not at all when it spells nothing. */
  lemma CidrExact(entry: string, x: nat, p: nat)
    ensures CidrOf(entry) == Some((x, p)) <==> Spells(entry, x, p)
  {
    hide CidrOf, Spells;
    if CidrOf(entry) == Some((x, p)) {
      CidrSplits(entry);
    }
    if Spells(entry, x, p) {
      SpelledCidr(entry, x, p);
    }
  }

  /** The entry that is read lets in exactly the addresses that agree with its address on the leading p bits. */
  lemma SpelledMatches(entry: string, x: nat, p: nat, y: nat)
    requires Spells(entry, x, p) && y < 0x1_0000_0000
    ensures ParseEntry(entry).Some? && (Matches(y, ParseEntry(entry).value) <==> y / Pow2(32 - p) == x / Pow2(32 - p))
  {
    hide CidrOf, ParseEntry, Matches, Pow2;
    CidrExact(entry, x, p);
    EntryExact(entry, y);
  }

  // --- The spellings the file's header lists

  lemma DigitIsNoSpace(c: char)
    ensures IsDigit(c) ==> !IsSpace(c)
  {
  }

  lemma DecimalDigits(n: nat)
    ensures Numeral(Decimal(n), "", Decimal(n), "") && DecimalValue(Decimal(n)) == n
    ensures !IsSpace(Decimal(n)[0]) && !IsSpace(Decimal(n)[|Decimal(n)| - 1])
  {
    hide Decimal, DecimalValue, IsSpace, IsDigit;
    DecimalRoundTrip(n);
    assert Decimal(n)[0] in Decimal(n) && Decimal(n)[|Decimal(n)| - 1] in Decimal(n);
    DigitIsNoSpace(Decimal(n)[0]);
    DigitIsNoSpace(Decimal(n)[|Decimal(n)| - 1]);
    assert Decimal(n) == "" + Decimal(n) + "";
  }

  /** address/prefix with any white space around its parts. */
  lemma CidrSpelling(l: string, m: string, n: string, r: string, x: nat, p: nat)
    requires AllSpaces(l) && AllSpaces(m) && AllSpaces(n) && AllSpaces(r) && x < 0x1_0000_0000 && p <= 32
    ensures Spells(l + (Quad(x) + m + "/" + n + Decimal(p)) + r, x, p)
  {
    hide Trim, Quad, Decimal, DecimalValue, Numeral, AllSpaces, IsSpace;
    QuadPlain(x);
    DecimalDigits(p);
    NoSpaces();
    var a, b := Quad(x) + m, n + Decimal(p);
    var core := Quad(x) + m + "/" + n + Decimal(p);
    assert core == a + "/" + b && core[0] == Quad(x)[0] && core[|core| - 1] == Decimal(p)[|Decimal(p)| - 1];
    TrimAround(l, core, r);
    TrimAround("", Quad(x), m);
    assert "" + Quad(x) + m == a;
    TrimAround(n, Decimal(p), "");
    assert n + Decimal(p) + "" == b;
    SpacesNoSlash(m);
    assert StartsWithNumber(Trim(b), p);
    assert SlashSpells(core, a, b, x, p);
  }

  lemma NoSpaces()
    ensures AllSpaces("")
  {
  }

  lemma SpacesNoSlash(s: string)
    requires AllSpaces(s)
    ensures '/' !in s
  {
  }

  /** An address alone is the range of that address. */
  lemma PlainEntry(l: string, r: string, x: nat)
    requires AllSpaces(l) && AllSpaces(r) && x < 0x1_0000_0000
    ensures Spells(l + Quad(x) + r, x, 32)
  {
    hide Quad, Trim;
    QuadPlain(x);
    TrimAround(l, Quad(x), r);
  }

  /** Both let in what they say: an address alone exactly itself, and a prefix of 0 everybody. */
  lemma PlainEntryMatches(x: nat, y: nat)
    requires x < 0x1_0000_0000 && y < 0x1_0000_0000
    ensures ParseEntry(Quad(x)).Some? && (Matches(y, ParseEntry(Quad(x)).value) <==> y == x)
  {
    hide Quad, ParseEntry, Matches, Spells;
    PlainEntry("", "", x);
    assert "" + Quad(x) + "" == Quad(x);
    SpelledMatches(Quad(x), x, 32, y);
    assert Pow2(0) == 1;
  }

  lemma CidrEntryMatches(x: nat, p: nat, y: nat)
    requires x < 0x1_0000_0000 && y < 0x1_0000_0000 && p <= 32
    ensures var entry := Quad(x) + "/" + Decimal(p);
            && ParseEntry(entry).Some?
            && (Matches(y, ParseEntry(entry).value) <==> y / Pow2(32 - p) == x / Pow2(32 - p))
            && (p == 32 ==> (Matches(y, ParseEntry(entry).value) <==> y == x))
            && (p == 0 ==> Matches(y, ParseEntry(entry).value))
  {
    hide Quad, ParseEntry, Matches, Spells, Decimal;
    CidrSpelling("", "", "", "", x, p);
    var entry := Quad(x) + "/" + Decimal(p);
    assert "" + (Quad(x) + "" + "/" + "" + Decimal(p)) + "" == entry;
    SpelledMatches(entry, x, p, y);
    Pow32();
    assert Pow2(0) == 1;
  }

  /** What is unreadable: a prefix above 32, a negative one, or an address that is no dotted quad. */
  lemma UnreadableEntries(x: nat, p: nat, a: string, b: string)
    requires x < 0x1_0000_0000
    ensures p > 32 ==> CidrOf(Quad(x) + "/" + Decimal(p)) == None
    ensures p > 0 ==> CidrOf(Quad(x) + "/-" + Decimal(p)) == None
    ensures (forall y: nat :: y < 0x1_0000_0000 ==> Trim(a) != Quad(y)) && '/' !in a && a != "" && !IsSpace(a[0]) && b != "" && !IsSpace(b[|b| - 1]) ==>
              CidrOf(a + "/" + b) == None
  {
    hide CidrOf, Quad, Decimal, Trim, IsSpace;
    QuadPlain(x);
    if p > 32 {
      BadPrefix(x, "", p);
      assert Quad(x) + "/" + ("" + Decimal(p)) == Quad(x) + "/" + Decimal(p);
    }
    if p > 0 {
      BadPrefix(x, "-", p);
      assert Quad(x) + "/" + ("-" + Decimal(p)) == Quad(x) + "/-" + Decimal(p);
    }
    if (forall y: nat :: y < 0x1_0000_0000 ==> Trim(a) != Quad(y)) && '/' !in a && a != "" && !IsSpace(a[0]) && b != "" && !IsSpace(b[|b| - 1]) {
      BadAddress(a, b);
    }
  }

  lemma BadPrefix(x: nat, sign: string, p: nat)
    requires x < 0x1_0000_0000 && ((sign == "" && p > 32) || (sign == "-" && p > 0))
    ensures CidrOf(Quad(x) + "/" + (sign + Decimal(p))) == None
  {
    hide Quad, Ipv4Value, ParseInt, UpTo, Trim, Decimal;
    QuadPlain(x);
    DecimalDigits(p);
    NoSpaces();
    var b := sign + Decimal(p);
    var entry := Quad(x) + "/" + b;
    TrimAround("", entry, "");
    assert "" + entry + "" == entry;
    UpToCut(Quad(x), '/', b);
    assert entry == Quad(x) + ['/'] + b && entry[|Quad(x)|] == '/';
    TrimAround("", b, "");
    assert "" + b + "" == b;
    assert Numeral(b, sign, Decimal(p), "") by { assert b == sign + Decimal(p) + ""; }
    ParseIntReads(b, sign, Decimal(p), "");
  }

  lemma BadAddress(a: string, b: string)
    requires forall y: nat :: y < 0x1_0000_0000 ==> Trim(a) != Quad(y)
    requires '/' !in a && a != "" && !IsSpace(a[0]) && b != "" && !IsSpace(b[|b| - 1])
    ensures CidrOf(a + "/" + b) == None
  {
    hide Quad, Ipv4Value, ParseInt, UpTo, Trim;
    var entry := a + "/" + b;
    NoSpaces();
    TrimAround("", entry, "");
    assert "" + entry + "" == entry;
    UpToCut(a, '/', b);
    assert entry == a + ['/'] + b && entry[|a|] == '/';
    if Ipv4Value(Trim(a)).Some? {
      Ipv4Bijection(Trim(a), Ipv4Value(Trim(a)).value);
    }
  }

  // ---------------------------------------------------------------------------
  // Client addresses
  // ---------------------------------------------------------------------------

  function Lower(c: char): char {
    if 'A' <= c <= 'Z' then (c as int + 32) as char else c
  }

  /** It starts with ::ffff: in either case. */
  predicate StartsMapped(s: string) {
    |s| >= 7 && forall i :: 0 <= i < 7 ==> Lower(s[i]) == "::ffff:"[i]
  }

  lemma MappedExact(s: string)
    ensures StartsMapped(s) <==> HasMappedPrefix(s)
  {
    if |s| >= 7 {
      forall i | 0 <= i < 7 ensures Lower(s[i]) == "::ffff:"[i] <==> if i in {0, 1, 6} then s[i] == ':' else IsF(s[i]) {
      }
      if StartsMapped(s) {
        assert forall i :: 0 <= i < 7 ==> if i in {0, 1, 6} then s[i] == ':' else IsF(s[i]);
      }
    }
  }

  /** One to four hexadecimal digits. */
  predicate HexDigits(s: string) {
    1 <= |s| <= 4 && forall c <- s :: c in "0123456789abcdefABCDEF"
  }

  lemma HexDigitsExact(s: string)
    ensures HexDigits(s) <==> HexGroup(s)
  {
    forall c | c in s ensures c in "0123456789abcdefABCDEF" <==> IsHex(c) {
      HexCharExact(c);
    }
  }

  lemma HexCharExact(c: char)
    ensures c in "0123456789abcdefABCDEF" <==> IsHex(c)
  {
    var digits := "0123456789abcdefABCDEF";
    assert forall k :: 0 <= k < |digits| ==> digits[k] as int == (if k < 10 then k + '0' as int else if k < 16 then k - 10 + 'a' as int else k - 16 + 'A' as int);
    if IsHex(c) {
      var k := if IsDigit(c) then c as int - '0' as int else if 'a' <= c <= 'f' then c as int - 'a' as int + 10 else c as int - 'A' as int + 16;
      assert digits[k] == c;
    }
  }

  /** Two groups of one to four hexadecimal digits whose values make up x. */
  predicate HexOf(hi: string, lo: string, x: nat) {
    HexDigits(hi) && HexDigits(lo) && HexGroup(hi) && HexGroup(lo) && x == HexNumber(hi) * 0x1_0000 + HexNumber(lo)
  }

  /** The text without a zone is the quad of x, or ::ffff: before that quad or before its two hexadecimal
      groups. */
  ghost predicate Names(core: string, x: nat) {
    x < 0x1_0000_0000
    && (core == Quad(x)
        || (StartsMapped(core) && (core[7..] == Quad(x) || exists hi, lo :: HexOf(hi, lo, x) && core[7..] == hi + ":" + lo)))
  }

  /** A client address means x: it names x, possibly followed by a zone. */
  ghost predicate Means(ip: string, x: nat) {
    ('%' !in ip && Names(ip, x)) || exists core, zone :: ip == core + "%" + zone && '%' !in core && Names(core, x)
  }

  lemma {:induction false} HexBounded(s: string)
    requires forall c <- s :: IsHex(c)
    ensures |s| <= 4 ==> HexNumber(s) < 0x1_0000
    ensures |s| <= 3 ==> HexNumber(s) < 0x1000
    ensures |s| <= 2 ==> HexNumber(s) < 0x100
    ensures |s| <= 1 ==> HexNumber(s) < 0x10
  {
    if s != "" {
      HexBounded(s[..|s| - 1]);
    }
  }

  lemma HexRead(hi: string, lo: string)
    requires HexGroup(hi) && HexGroup(lo)
    ensures HexNumber(hi) < 0x1_0000 && HexNumber(lo) < 0x1_0000
    ensures HexQuad(HexNumber(hi), HexNumber(lo)) == Quad(HexNumber(hi) * 0x1_0000 + HexNumber(lo))
  {
    hide HexQuad, Quad;
    HexBounded(hi);
    HexBounded(lo);
    var x := HexNumber(hi) * 0x1_0000 + HexNumber(lo);
    assert x / 0x1_0000 == HexNumber(hi) && x % 0x1_0000 == HexNumber(lo);
    HexQuadIsQuad(x);
  }

  lemma NamedRead(core: string, x: nat)
    requires Names(core, x)
    ensures '%' !in core ==> AddressOf(core) == Some(x)
  {
    hide Quad, AddressOf, HexNumber, HexGroup, StartsMapped, HexDigits;
    MappedExact(core);
    if core == Quad(x) {
      PlainSpelling(x);
    } else if core[7..] == Quad(x) {
      assert core == core[..7] + Quad(x);
      MappedExact(core[..7]);
      MappedHead(core);
      DottedSpelling(core[..7], x);
    } else {
      var hi, lo :| HexOf(hi, lo, x) && core[7..] == hi + ":" + lo;
      assert core == core[..7] + (hi + ":" + lo);
      HexGroupRead(hi, lo, x);
      MappedExact(core[..7]);
      MappedHead(core);
      HexSpelling(core[..7], hi, lo, x);
    }
  }

  lemma MappedHead(s: string)
    requires HasMappedPrefix(s)
    ensures HasMappedPrefix(s[..7])
  {
  }

  lemma HexGroupRead(hi: string, lo: string, x: nat)
    requires HexOf(hi, lo, x)
    ensures HexNumber(hi) == x / 0x1_0000 && HexNumber(lo) == x % 0x1_0000
  {
    HexBounded(hi);
    HexBounded(lo);
  }

  /** The zone plays no part. */
  lemma ZoneIgnored(core: string, zone: string)
    requires '%' !in core && core != ""
    ensures AddressOf(core + "%" + zone) == AddressOf(core)
  {
    hide DottedShape, HexShape, HexQuad, Ipv4Value, HasMappedPrefix;
    UpToCut(core, '%', zone);
    UpToCuts(core, '%');
    assert core + "%" + zone == core + ['%'] + zone;
  }

  lemma ReadNames(ip: string)
    requires AddressOf(ip).Some?
    ensures Names(UpTo(ip, '%'), AddressOf(ip).value)
  {
    hide Quad, Ipv4Value, HexNumber, HexQuad, UpTo, DottedShape, StartsMapped, HexDigits;
    MappedExact(UpTo(ip, '%'));
    var core, x := UpTo(ip, '%'), AddressOf(ip).value;
    Ipv4Bijection(NormalizeIp(ip).value, x);
    if HasMappedPrefix(core) && !DottedShape(core[7..]) && HexShape(core[7..]) {
      var groups := Split(core[7..], ':');
      HexRead(groups[0], groups[1]);
      Ipv4Bijection(NormalizeIp(ip).value, HexNumber(groups[0]) * 0x1_0000 + HexNumber(groups[1]));
      TwoGroups(core[7..]);
      HexDigitsExact(groups[0]);
      HexDigitsExact(groups[1]);
      assert HexOf(groups[0], groups[1], x);
    }
  }

  lemma TwoGroups(s: string)
    requires |Split(s, ':')| == 2
    ensures s == Split(s, ':')[0] + ":" + Split(s, ':')[1]
  {
    JoinSplit(s, ':');
    hide Split;
    var pieces := Split(s, ':');
    assert pieces[1..] == [pieces[1]];
  }

  /** A client address is read exactly as what it means, and not at all when it means nothing. */
  lemma AddressExact(ip: string, x: nat)
    ensures AddressOf(ip) == Some(x) <==> Means(ip, x)
  {
    hide AddressOf, Names;
    if AddressOf(ip) == Some(x) {
      ReadNames(ip);
      UpToCuts(ip, '%');
      if '%' in ip {
        assert ip == UpTo(ip, '%') + "%" + ip[|UpTo(ip, '%')| + 1..];
      }
    }
    if '%' !in ip && Names(ip, x) {
      NamedRead(ip, x);
    } else if core, zone :| ip == core + "%" + zone && '%' !in core && Names(core, x) {
      NamedRead(core, x);
      NamesSomething(core, x);
      ZoneIgnored(core, zone);
    }
  }

  lemma NamesSomething(core: string, x: nat)
    requires Names(core, x)
    ensures core != ""
  {
    hide Quad;
    QuadPlain(x);
  }

  // ---------------------------------------------------------------------------
  // The decision
  // ---------------------------------------------------------------------------

  /** An entry of the list spells a range that the address lies in. */
  ghost predicate InSomeRange(raw: string, x: nat) {
    exists entry, a: nat, p: nat :: entry in Split(raw, ',') && Spells(entry, a, p) && p <= 32 && x / Pow2(32 - p) == a / Pow2(32 - p)
  }

  ghost predicate Readable(raw: string) {
    exists entry, a: nat, p: nat :: entry in Split(raw, ',') && Spells(entry, a, p)
  }

  lemma ReadableExact(raw: string)
    ensures Readable(raw) <==> exists p <- Split(raw, ',') :: CidrOf(p).Some?
  {
    hide Split, CidrOf, Spells;
    if entry, a: nat, p: nat :| entry in Split(raw, ',') && Spells(entry, a, p) {
      CidrExact(entry, a, p);
    }
    if entry :| entry in Split(raw, ',') && CidrOf(entry).Some? {
      CidrExact(entry, CidrOf(entry).value.0, CidrOf(entry).value.1);
    }
  }

  lemma ListedExact(raw: string, x: nat)
    ensures InSomeRange(raw, x) <==> Listed(raw, x)
  {
    hide Split, CidrOf, Spells, Pow2;
    if entry, a: nat, p: nat :| entry in Split(raw, ',') && Spells(entry, a, p) && p <= 32 && x / Pow2(32 - p) == a / Pow2(32 - p) {
      CidrExact(entry, a, p);
      assert Covers(entry, x);
    }
    if entry :| entry in Split(raw, ',') && Covers(entry, x) {
      CidrExact(entry, CidrOf(entry).value.0, CidrOf(entry).value.1);
    }
  }

  /** The whole decision from the two texts: when no entry of the list can be read everybody is let in;
      otherwise exactly the client addresses that mean an address in a range some entry spells. */
  lemma DecisionExact(raw: string, ip: string)
    ensures !Readable(raw) ==> IsAllowed(ip, ParseAllowlist(raw))
    ensures Readable(raw) ==> (IsAllowed(ip, ParseAllowlist(raw)) <==> exists x: nat :: Means(ip, x) && InSomeRange(raw, x))
  {
    hide Readable, Means, InSomeRange, Listed, AddressOf, ParseAllowlist;
    AllowlistExact(raw, ip);
    ReadableExact(raw);
    if AddressOf(ip).Some? {
      AddressExact(ip, AddressOf(ip).value);
      ListedExact(raw, AddressOf(ip).value);
    }
    if x: nat :| Means(ip, x) && InSomeRange(raw, x) {
      AddressExact(ip, x);
      ListedExact(raw, x);
    }
  }
}
