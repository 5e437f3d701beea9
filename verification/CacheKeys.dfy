/**
  Cache keys of src/middleware/httpCache.js: the query is written in sorted key order with
  encodeURIComponent (percent-encoding, section 2.1 of RFC 3986, of the UTF-8 bytes).
  Strings are sequences of Unicode scalar values.
*/
module CacheKeys {
  import opened Text

  // ---------------------------------------------------------------------------
  // encodeURIComponent
  // ---------------------------------------------------------------------------

  type Byte = b: int | 0 <= b < 256

  /** UTF-8 encoding of one scalar value. */
  function Utf8(c: char): (bytes: seq<Byte>)
    ensures 1 <= |bytes| <= 4
  {
    var u := c as int;
    var v := u / 64;
    var w := v / 64;
    if u < 0x80 then [u]
    else if u < 0x800 then [0xC0 + v, 0x80 + u % 64]
    else if u < 0x10000 then [0xE0 + w, 0x80 + v % 64, 0x80 + u % 64]
    else [0xF0 + w / 64, 0x80 + w % 64, 0x80 + v % 64, 0x80 + u % 64]
  }

  /** The characters encodeURIComponent leaves alone. */
  predicate Unreserved(c: char) {
    || 'A' <= c <= 'Z' || 'a' <= c <= 'z' || '0' <= c <= '9'
    || c == '-' || c == '_' || c == '.' || c == '!' || c == '~' || c == '*' || c == '\'' || c == '(' || c == ')'
  }

  function HexDigit(n: nat): (c: char)
    requires n < 16
    ensures Unreserved(c)
  {
    if n < 10 then (n + '0' as int) as char else (n - 10 + 'A' as int) as char
  }

  function HexValue(c: char): (n: nat)
    ensures n < 16
  {
    if '0' <= c <= '9' then c as int - '0' as int
    else if 'A' <= c <= 'F' then c as int - 'A' as int + 10
    else 0
  }

  function PercentByte(b: Byte): (s: string)
    ensures |s| == 3
  {
    ['%', HexDigit(b / 16), HexDigit(b % 16)]
  }

  function PercentBytes(bytes: seq<Byte>): (s: string)
    ensures |s| == 3 * |bytes|
  {
    if bytes == [] then "" else PercentByte(bytes[0]) + PercentBytes(bytes[1..])
  }

  function EncodeChar(c: char): (s: string)
    ensures s != ""
  {
    if Unreserved(c) then [c] else PercentBytes(Utf8(c))
  }

  function EncodeURIComponent(s: string): string {
    if s == "" then "" else EncodeChar(s[0]) + EncodeURIComponent(s[1..])
  }

  // ---------------------------------------------------------------------------
  // The encoding of a character is recovered from any text that starts with it
  // ---------------------------------------------------------------------------

  function ByteAt(s: string, i: nat): int
  {
    if 3 * i + 2 < |s| then 16 * HexValue(s[3 * i + 1]) + HexValue(s[3 * i + 2]) else 0
  }

  /** Scalar value and length of the first encoded character. */
  function DecodeFirst(s: string): (int, nat)
    requires s != ""
  {
    if s[0] != '%' then (s[0] as int, 1)
    else
      var b0 := ByteAt(s, 0);
      if b0 < 0x80 then (b0, 3)
      else if b0 < 0xE0 then ((b0 - 0xC0) * 64 + (ByteAt(s, 1) - 0x80), 6)
      else if b0 < 0xF0 then ((b0 - 0xE0) * 4096 + (ByteAt(s, 1) - 0x80) * 64 + (ByteAt(s, 2) - 0x80), 9)
      else ((b0 - 0xF0) * 262144 + (ByteAt(s, 1) - 0x80) * 4096 + (ByteAt(s, 2) - 0x80) * 64 + (ByteAt(s, 3) - 0x80), 12)
  }

  lemma HexRoundTrip(n: nat)
    requires n < 16
    ensures HexValue(HexDigit(n)) == n
  {
  }

  lemma {:induction false} PercentDigitsAt(bytes: seq<Byte>, i: nat)
    requires i < |bytes|
    ensures 3 * i + 2 < |PercentBytes(bytes)|
    ensures PercentBytes(bytes)[3 * i + 1] == HexDigit(bytes[i] / 16)
    ensures PercentBytes(bytes)[3 * i + 2] == HexDigit(bytes[i] % 16)
  {
    if i > 0 {
      PercentDigitsAt(bytes[1..], i - 1);
      assert PercentBytes(bytes)[3..] == PercentBytes(bytes[1..]);
    }
  }

  lemma PercentByteAt(bytes: seq<Byte>, rest: string, i: nat)
    requires i < |bytes|
    ensures ByteAt(PercentBytes(bytes) + rest, i) == bytes[i]
  {
    PercentDigitsAt(bytes, i);
    HexRoundTrip(bytes[i] / 16);
    HexRoundTrip(bytes[i] % 16);
  }

  /** Scalar value of UTF-8 bytes. */
  function Utf8Value(bytes: seq<int>): int
    requires 1 <= |bytes| <= 4
  {
    if |bytes| == 1 then bytes[0]
    else if |bytes| == 2 then (bytes[0] - 0xC0) * 64 + (bytes[1] - 0x80)
    else if |bytes| == 3 then (bytes[0] - 0xE0) * 4096 + (bytes[1] - 0x80) * 64 + (bytes[2] - 0x80)
    else (bytes[0] - 0xF0) * 262144 + (bytes[1] - 0x80) * 4096 + (bytes[2] - 0x80) * 64 + (bytes[3] - 0x80)
  }

  /** The first byte tells the length, and the bytes tell the scalar value. */
  lemma Utf8RoundTrip(c: char)
    ensures Utf8Value(Utf8(c)) == c as int
    ensures var bytes := Utf8(c);
            |bytes| == (if bytes[0] < 0x80 then 1 else if bytes[0] < 0xE0 then 2 else if bytes[0] < 0xF0 then 3 else 4)
  {
  }

  predicate Utf8Length(bytes: seq<Byte>) {
    1 <= |bytes| <= 4
    && |bytes| == (if bytes[0] < 0x80 then 1 else if bytes[0] < 0xE0 then 2 else if bytes[0] < 0xF0 then 3 else 4)
  }

  lemma DecodeRead(s: string, bytes: seq<Byte>)
    requires s != "" && s[0] == '%' && Utf8Length(bytes) && forall i :: 0 <= i < |bytes| ==> ByteAt(s, i) == bytes[i]
    ensures DecodeFirst(s) == (Utf8Value(bytes), 3 * |bytes|)
  {
    hide ByteAt;
  }

  /** The text form of the bytes is what the decoder reads off. */
  lemma DecodeBytes(bytes: seq<Byte>, rest: string)
    requires Utf8Length(bytes)
    ensures DecodeFirst(PercentBytes(bytes) + rest) == (Utf8Value(bytes), 3 * |bytes|)
  {
    var s := PercentBytes(bytes) + rest;
    assert s[0] == '%';
    hide ByteAt, Utf8Value, DecodeFirst, PercentBytes;
    forall i | 0 <= i < |bytes| ensures ByteAt(s, i) == bytes[i] {
      PercentByteAt(bytes, rest, i);
    }
    DecodeRead(s, bytes);
  }

  lemma DecodeEncodeChar(c: char, rest: string)
    ensures DecodeFirst(EncodeChar(c) + rest) == (c as int, |EncodeChar(c)|)
  {
    hide Utf8Value, PercentBytes;
    if !Unreserved(c) {
      Utf8RoundTrip(c);
      DecodeBytes(Utf8(c), rest);
    }
  }

  lemma {:induction false} EncodeInjective(s: string, t: string)
    requires EncodeURIComponent(s) == EncodeURIComponent(t)
    ensures s == t
  {
    if s != "" && t != "" {
      var a, b := EncodeURIComponent(s[1..]), EncodeURIComponent(t[1..]);
      DecodeEncodeChar(s[0], a);
      DecodeEncodeChar(t[0], b);
      var whole := EncodeURIComponent(s);
      assert a == whole[|EncodeChar(s[0])|..] && b == whole[|EncodeChar(t[0])|..];
      EncodeInjective(s[1..], t[1..]);
    }
  }

  lemma {:induction false} PercentBytesPlain(bytes: seq<Byte>)
    ensures forall c <- PercentBytes(bytes) :: Unreserved(c) || c == '%'
  {
    if bytes != [] {
      PercentBytesPlain(bytes[1..]);
    }
  }

  /** No separator of the query string survives encoding. */
  lemma {:induction false} EncodePlain(s: string)
    ensures forall c <- EncodeURIComponent(s) :: Unreserved(c) || c == '%'
  {
    if s != "" {
      EncodePlain(s[1..]);
      PercentBytesPlain(Utf8(s[0]));
    }
  }

  // ---------------------------------------------------------------------------
  // Array.prototype.sort on strings: order of UTF-16 code units
  // ---------------------------------------------------------------------------

  function Utf16(c: char): (units: seq<int>)
    ensures 1 <= |units| <= 2
  {
    var u := c as int;
    if u < 0x10000 then [u] else [0xD800 + (u - 0x10000) / 1024, 0xDC00 + (u - 0x10000) % 1024]
  }

  function Units(s: string): seq<int> {
    if s == "" then [] else Utf16(s[0]) + Units(s[1..])
  }

  /** A leading surrogate announces a second unit, so the first character is recovered. */
  lemma Utf16Prefix(c: char, d: char, x: seq<int>, y: seq<int>)
    requires Utf16(c) + x == Utf16(d) + y
    ensures c == d && x == y
  {
    var s := Utf16(c) + x;
    assert s[0] == Utf16(c)[0] == Utf16(d)[0];
    assert |Utf16(c)| == |Utf16(d)|;
    if |Utf16(c)| == 2 {
      assert s[1] == Utf16(c)[1] == Utf16(d)[1];
    }
    assert x == s[|Utf16(c)|..] && y == s[|Utf16(d)|..];
  }

  lemma {:induction false} UnitsInjective(s: string, t: string)
    requires Units(s) == Units(t)
    ensures s == t
  {
    if s != "" && t != "" {
      Utf16Prefix(s[0], t[0], Units(s[1..]), Units(t[1..]));
      UnitsInjective(s[1..], t[1..]);
    }
  }

  predicate LexLe(a: seq<int>, b: seq<int>) {
    a == [] || (b != [] && (a[0] < b[0] || (a[0] == b[0] && LexLe(a[1..], b[1..]))))
  }

  lemma {:induction false} LexTotal(a: seq<int>, b: seq<int>)
    ensures LexLe(a, b) || LexLe(b, a)
  {
    if a != [] && b != [] && a[0] == b[0] {
      LexTotal(a[1..], b[1..]);
    }
  }

  lemma {:induction false} LexAntisymmetric(a: seq<int>, b: seq<int>)
    requires LexLe(a, b) && LexLe(b, a)
    ensures a == b
  {
    if a != [] && b != [] {
      LexAntisymmetric(a[1..], b[1..]);
    }
  }

  lemma {:induction false} LexTransitive(a: seq<int>, b: seq<int>, c: seq<int>)
    requires LexLe(a, b) && LexLe(b, c)
    ensures LexLe(a, c)
  {
    if a != [] && a[0] == b[0] == c[0] {
      LexTransitive(a[1..], b[1..], c[1..]);
    }
  }

  predicate Before(s: string, t: string) {
    LexLe(Units(s), Units(t))
  }

  function Insert(key: string, sorted: seq<string>): (r: seq<string>)
    ensures multiset(r) == multiset(sorted) + multiset{key}
  {
    if sorted == [] then [key]
    else if Before(key, sorted[0]) then [key] + sorted
    else
      assert sorted == [sorted[0]] + sorted[1..];
      [sorted[0]] + Insert(key, sorted[1..])
  }

  /** keys.sort() */
  function Sort(keys: seq<string>): (r: seq<string>)
    ensures multiset(r) == multiset(keys)
  {
    if keys == [] then []
    else
      assert keys == [keys[0]] + keys[1..];
      Insert(keys[0], Sort(keys[1..]))
  }

  predicate Sorted(keys: seq<string>) {
    forall i, j :: 0 <= i < j < |keys| ==> Before(keys[i], keys[j])
  }

  lemma {:induction false} InsertSorted(key: string, sorted: seq<string>)
    requires Sorted(sorted)
    ensures Sorted(Insert(key, sorted))
  {
    if sorted != [] {
      if Before(key, sorted[0]) {
        forall j | 0 <= j < |sorted| ensures Before(key, sorted[j]) {
          if j > 0 {
            assert Before(sorted[0], sorted[j]);
            LexTransitive(Units(key), Units(sorted[0]), Units(sorted[j]));
          }
        }
      } else {
        LexTotal(Units(key), Units(sorted[0]));
        InsertSorted(key, sorted[1..]);
        var rest := Insert(key, sorted[1..]);
        forall j | 0 <= j < |rest| ensures Before(sorted[0], rest[j]) {
          assert rest[j] in multiset(rest);
          assert rest[j] == key || rest[j] in sorted[1..];
        }
      }
    }
  }

  lemma {:induction false} SortSorts(keys: seq<string>)
    ensures Sorted(Sort(keys))
  {
    if keys != [] {
      SortSorts(keys[1..]);
      InsertSorted(keys[0], Sort(keys[1..]));
    }
  }

  lemma SameLeast(a: seq<string>, b: seq<string>)
    requires Sorted(a) && Sorted(b) && multiset(a) == multiset(b) && a != [] && b != []
    ensures a[0] == b[0]
  {
    assert a[0] in multiset(b) && b[0] in multiset(a);
    LexTotal(Units(a[0]), Units(b[0]));
    if a[0] != b[0] {
      assert b[0] in a[1..] && a[0] in b[1..];
      LexAntisymmetric(Units(a[0]), Units(b[0]));
      UnitsInjective(a[0], b[0]);
    }
  }

  /** There is only one sorted arrangement, because the order is antisymmetric on strings. */
  lemma {:induction false} SortedUnique(a: seq<string>, b: seq<string>)
    requires Sorted(a) && Sorted(b) && multiset(a) == multiset(b)
    ensures a == b
  {
    if a == [] {
      assert |multiset(b)| == 0;
    } else {
      assert a[0] in multiset(b) && |multiset(b)| > 0;
      SameLeast(a, b);
      assert a == [a[0]] + a[1..] && b == [b[0]] + b[1..];
      assert multiset(a[1..]) == multiset(a) - multiset{a[0]};
      assert multiset(b[1..]) == multiset(b) - multiset{b[0]};
      SortedUnique(a[1..], b[1..]);
    }
  }

  // ---------------------------------------------------------------------------
  // The query part of the key
  // ---------------------------------------------------------------------------

  /** A parsed query value: a string, or what the query parser makes of repeated or bracketed names. */
  datatype QueryValue = Text(text: string) | List(items: seq<string>) | Nested(fields: map<string, string>)

  /** String(value), which encodeURIComponent applies first. */
  function Shown(v: QueryValue): string {
    match v
    case Text(text) => text
    case List(items) => Join(items, ',')
    case Nested(_) => "[object Object]"
  }

  type Query = map<string, QueryValue>

  /** Object.keys(query) in some insertion order. */
  ghost predicate Enumerates(keys: seq<string>, query: Query) {
    multiset(keys) == multiset(query.Keys)
  }

  function Piece(key: string, query: Query): string {
    EncodeURIComponent(key) + "=" + EncodeURIComponent(if key in query then Shown(query[key]) else "undefined")
  }

  function Pieces(sorted: seq<string>, query: Query): (pieces: seq<string>)
    ensures |pieces| == |sorted|
    ensures forall i :: 0 <= i < |sorted| ==> pieces[i] == Piece(sorted[i], query)
  {
    seq(|sorted|, i requires 0 <= i < |sorted| => Piece(sorted[i], query))
  }

  function QueryString(keys: seq<string>, query: Query): string {
    Join(Pieces(Sort(keys), query), '&')
  }

  /** Two queries the key cannot tell apart: same names, same values as strings. */
  predicate SameText(q: Query, q': Query) {
    q.Keys == q'.Keys && forall k <- q.Keys :: Shown(q[k]) == Shown(q'[k])
  }

  lemma PieceCut(k: string, q: Query, k': string, q': Query)
    requires Piece(k, q) == Piece(k', q')
    ensures k == k'
    ensures k in q && k' in q' ==> Shown(q[k]) == Shown(q'[k'])
  {
    EncodePlain(k);
    EncodePlain(k');
    var v := if k in q then Shown(q[k]) else "undefined";
    var v' := if k' in q' then Shown(q'[k']) else "undefined";
    CutUnique(EncodeURIComponent(k), EncodeURIComponent(v), EncodeURIComponent(k'), EncodeURIComponent(v'), '=');
    EncodeInjective(k, k');
    EncodeInjective(v, v');
  }

  lemma PieceHasNoAmpersand(k: string, q: Query)
    ensures '&' !in Piece(k, q) && Piece(k, q) != ""
  {
    EncodePlain(k);
    EncodePlain(if k in q then Shown(q[k]) else "undefined");
  }

  /** The pieces are read back from the joined text. */
  lemma PiecesFromText(keys: seq<string>, q: Query, keys': seq<string>, q': Query)
    requires Join(Pieces(keys, q), '&') == Join(Pieces(keys', q'), '&')
    ensures Pieces(keys, q) == Pieces(keys', q')
  {
    forall i | 0 <= i < |keys| ensures '&' !in Pieces(keys, q)[i] && Pieces(keys, q)[i] != "" {
      PieceHasNoAmpersand(keys[i], q);
    }
    forall i | 0 <= i < |keys'| ensures '&' !in Pieces(keys', q')[i] && Pieces(keys', q')[i] != "" {
      PieceHasNoAmpersand(keys'[i], q');
    }
    if keys != [] {
      SplitJoin(Pieces(keys, q), '&');
      assert Pieces(keys, q)[0] != "";
    }
    if keys' != [] {
      SplitJoin(Pieces(keys', q'), '&');
      assert Pieces(keys', q')[0] != "";
    }
    if keys == [] && keys' != [] {
      JoinNonempty(Pieces(keys', q'));
    }
    if keys' == [] && keys != [] {
      JoinNonempty(Pieces(keys, q));
    }
  }

  lemma JoinNonempty(pieces: seq<string>)
    requires pieces != [] && pieces[0] != ""
    ensures Join(pieces, '&') != ""
  {
  }

  lemma SortedNames(keys: seq<string>, q: Query)
    requires Enumerates(keys, q)
    ensures forall k :: k in Sort(keys) <==> k in q
  {
    forall k ensures k in Sort(keys) <==> k in q {
      assert k in Sort(keys) <==> k in multiset(Sort(keys));
      assert k in q.Keys <==> k in multiset(q.Keys);
    }
  }

  lemma SamePiece(k: string, q: Query, q': Query)
    requires SameText(q, q') && k in q
    ensures Piece(k, q) == Piece(k, q')
  {
    hide EncodeURIComponent, Shown;
  }

  lemma SameNames(keys: seq<string>, q: Query, keys': seq<string>, q': Query)
    requires Enumerates(keys, q) && Enumerates(keys', q') && q.Keys == q'.Keys
    ensures Sort(keys) == Sort(keys')
  {
    SortSorts(keys);
    SortSorts(keys');
    hide Sorted;
    SortedUnique(Sort(keys), Sort(keys'));
  }

  lemma SamePieces(names: seq<string>, q: Query, q': Query)
    requires SameText(q, q') && forall k <- names :: k in q
    ensures Pieces(names, q) == Pieces(names, q')
  {
    hide Piece;
    forall i | 0 <= i < |names| ensures Pieces(names, q)[i] == Pieces(names, q')[i] {
      SamePiece(names[i], q, q');
    }
  }

  lemma SameTextSameString(keys: seq<string>, q: Query, keys': seq<string>, q': Query)
    requires Enumerates(keys, q) && Enumerates(keys', q') && SameText(q, q')
    ensures QueryString(keys, q) == QueryString(keys', q')
  {
    hide Sort, Pieces, Join;
    SameNames(keys, q, keys', q');
    SortedNames(keys, q);
    SamePieces(Sort(keys), q, q');
  }

  lemma SamePiecesSameText(s: seq<string>, q: Query, s': seq<string>, q': Query)
    requires Pieces(s, q) == Pieces(s', q')
    requires (forall k :: k in s <==> k in q) && (forall k :: k in s' <==> k in q')
    ensures s == s' && SameText(q, q')
  {
    assert |s| == |Pieces(s, q)| == |s'|;
    forall i | 0 <= i < |s| ensures s[i] == s'[i] && s[i] in q && s[i] in q' && Shown(q[s[i]]) == Shown(q'[s[i]]) {
      assert Piece(s[i], q) == Pieces(s, q)[i] == Pieces(s', q')[i] == Piece(s'[i], q');
      assert s[i] in q && s'[i] in q';
      PieceCut(s[i], q, s'[i], q');
    }
    forall k | k in q.Keys ensures k in q' && Shown(q[k]) == Shown(q'[k]) {
      assert k in s;
    }
  }

  /** Parameter order never matters, and beyond that two queries share a query string exactly when
      they have the same names and the same values as strings. */
  lemma QueryStringExact(keys: seq<string>, q: Query, keys': seq<string>, q': Query)
    requires Enumerates(keys, q) && Enumerates(keys', q')
    ensures QueryString(keys, q) == QueryString(keys', q') <==> SameText(q, q')
  {
    if SameText(q, q') {
      SameTextSameString(keys, q, keys', q');
    }
    if QueryString(keys, q) == QueryString(keys', q') {
      PiecesFromText(Sort(keys), q, Sort(keys'), q');
      SortedNames(keys, q);
      SortedNames(keys', q');
      SamePiecesSameText(Sort(keys), q, Sort(keys'), q');
    }
  }

  // ---------------------------------------------------------------------------
  // Whole keys
  // ---------------------------------------------------------------------------

  /** Organization id (or "anon") and resource name; neither contains a colon. */
  datatype RawScope = Scope(org: string, resource: string)
  type Scope = s: RawScope | ':' !in s.org && ':' !in s.resource witness Scope("", "")

  function ScopeText(scope: Scope): string {
    scope.org + ":" + scope.resource
  }

  function VersionKey(scope: Scope): string {
    "cache:ver:" + ScopeText(scope)
  }

  function ResponseKey(scope: Scope, version: nat, qs: string): string {
    "cache:GET:" + (scope.org + ":" + (scope.resource + ":" + ("v" + (Decimal(version) + ":" + qs))))
  }

  lemma ResponseKeyInjective(scope: Scope, version: nat, qs: string, scope': Scope, version': nat, qs': string)
    requires ResponseKey(scope, version, qs) == ResponseKey(scope', version', qs')
    ensures scope == scope' && version == version' && qs == qs'
  {
    var tail := Decimal(version) + ":" + qs;
    var tail' := Decimal(version') + ":" + qs';
    var a := scope.org + ":" + (scope.resource + ":" + ("v" + tail));
    var a' := scope'.org + ":" + (scope'.resource + ":" + ("v" + tail'));
    assert a == ResponseKey(scope, version, qs)[10..];
    assert a' == ResponseKey(scope', version', qs')[10..];
    CutUnique(scope.org, scope.resource + ":" + ("v" + tail), scope'.org, scope'.resource + ":" + ("v" + tail'), ':');
    CutUnique(scope.resource, "v" + tail, scope'.resource, "v" + tail', ':');
    assert tail == ("v" + tail)[1..] && tail' == ("v" + tail')[1..];
    CutUnique(Decimal(version), qs, Decimal(version'), qs', ':');
    DecimalInjective(version, version');
  }

  lemma VersionKeyInjective(scope: Scope, scope': Scope)
    requires VersionKey(scope) == VersionKey(scope')
    ensures scope == scope'
  {
    assert ScopeText(scope) == VersionKey(scope)[10..];
    assert ScopeText(scope') == VersionKey(scope')[10..];
    CutUnique(scope.org, scope.resource, scope'.org, scope'.resource, ':');
  }

  /** A version counter is never mistaken for a response. */
  lemma KeyKindsDiffer(scope: Scope, scope': Scope, version: nat, qs: string)
    ensures VersionKey(scope) != ResponseKey(scope', version, qs)
  {
    assert VersionKey(scope)[6] == 'v' && ResponseKey(scope', version, qs)[6] == 'G';
  }

  /** Two GETs share a response key exactly when organization, resource and version agree and their
      queries have the same names and the same values as strings. */
  lemma ResponseKeyExact(scope: Scope, version: nat, keys: seq<string>, q: Query,
                         scope': Scope, version': nat, keys': seq<string>, q': Query)
    requires Enumerates(keys, q) && Enumerates(keys', q')
    ensures ResponseKey(scope, version, QueryString(keys, q)) == ResponseKey(scope', version', QueryString(keys', q'))
            <==> scope == scope' && version == version' && SameText(q, q')
  {
    QueryStringExact(keys, q, keys', q');
    if ResponseKey(scope, version, QueryString(keys, q)) == ResponseKey(scope', version', QueryString(keys', q')) {
      ResponseKeyInjective(scope, version, QueryString(keys, q), scope', version', QueryString(keys', q'));
    }
  }

  predicate StringValued(q: Query) {
    forall k <- q.Keys :: q[k].Text?
  }

  /** On string-valued queries the key determines the query itself. */
  lemma StringQueriesNeverShare(keys: seq<string>, q: Query, keys': seq<string>, q': Query)
    requires Enumerates(keys, q) && Enumerates(keys', q') && StringValued(q) && StringValued(q')
    ensures QueryString(keys, q) == QueryString(keys', q') <==> q == q'
  {
    QueryStringExact(keys, q, keys', q');
    if SameText(q, q') {
      assert forall k <- q.Keys :: q[k] == q'[k];
    }
  }

  /** A repeated parameter does share the key of the comma-joined string. */
  lemma RepeatedParameterShares()
    ensures var q: Query := map["id" := List(["1", "2"])];
            var q': Query := map["id" := Text("1,2")];
            q != q' && QueryString(["id"], q) == QueryString(["id"], q')
  {
    var q: Query := map["id" := List(["1", "2"])];
    var q': Query := map["id" := Text("1,2")];
    assert Join(["1", "2"], ',') == "1,2" by {
      assert ["1", "2"][1..] == ["2"];
    }
    assert Shown(q["id"]) == Shown(q'["id"]);
    assert multiset(["id"]) == multiset(q.Keys) == multiset(q'.Keys);
    QueryStringExact(["id"], q, ["id"], q');
  }
}
