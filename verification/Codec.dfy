/** The codecs of the S3 client (s3-client.js): percent-encoding of keys, their decoding from listings, and the XML
    entities.  A string is a sequence of Unicode scalar values, that is, a well-formed JavaScript string. */
module Codec {
  import opened Wrappers
  import opened Digits

  // ---------- UTF-8 and percent triples ----------

  type Byte = n: nat | n < 256

  function Utf8(c: char): (bytes: seq<Byte>)
    ensures 1 <= |bytes| <= 4
  {
    var n := c as nat;
    if n < 0x80 then [n]
    else if n < 0x800 then [0xC0 + n / 64, 0x80 + n % 64]
    else if n < 0x10000 then [0xE0 + n / 4096, 0x80 + n / 64 % 64, 0x80 + n % 64]
    else [0xF0 + n / 262144, 0x80 + n / 4096 % 64, 0x80 + n / 64 % 64, 0x80 + n % 64]
  }

  function Percent(b: Byte): string { ['%', HexDigit(b / 16), HexDigit(b % 16)] }

  function PercentAll(bytes: seq<Byte>): string {
    if bytes == [] then [] else Percent(bytes[0]) + PercentAll(bytes[1..])
  }

  // ---------- encode ----------

  predicate Alphanumeric(c: char) { 'A' <= c <= 'Z' || 'a' <= c <= 'z' || '0' <= c <= '9' }

  predicate Unreserved(c: char) { Alphanumeric(c) || c in {'-', '_', '.', '~'} }

  predicate Mark(c: char) { c in {'!', '\'', '(', ')', '*'} }

  function EncodeURIComponent(s: string): string {
    if s == [] then []
    else (if Unreserved(s[0]) || Mark(s[0]) then [s[0]] else PercentAll(Utf8(s[0]))) + EncodeURIComponent(s[1..])
  }

  function EscapeMarks(s: string): string {
    if s == [] then [] else (if Mark(s[0]) then Percent(s[0] as nat) else [s[0]]) + EscapeMarks(s[1..])
  }

  function Encode(s: string): string { EscapeMarks(EncodeURIComponent(s)) }

  // ---------- decodeKey ----------

  /** The byte that the `i`-th triple of `t` stands for. */
  function ReadByte(t: string, i: nat): Option<Byte> {
    if |t| >= 3 * i + 3 && t[3 * i] == '%' && HexValue(t[3 * i + 1]).Some? && HexValue(t[3 * i + 2]).Some?
    then Some(HexValue(t[3 * i + 1]).value * 16 + HexValue(t[3 * i + 2]).value)
    else None
  }

  predicate Continues(b: Option<Byte>) { b.Some? && 0x80 <= b.value < 0xC0 }

  /** The code point that up to four bytes start with, and how many it takes; none for an encoding that is cut short,
      overlong, a surrogate or out of range. */
  function Point(a: Byte, b: Option<Byte>, c: Option<Byte>, d: Option<Byte>): (r: Option<(char, nat)>)
    ensures r.Some? ==> 1 <= r.value.1 <= 4 && (r.value.1 > 1 ==> b.Some?) && (r.value.1 > 2 ==> c.Some?) && (r.value.1 > 3 ==> d.Some?)
  {
    if a < 0x80 then Some((a as char, 1))
    else if 0xC0 <= a < 0xE0 && Continues(b) then
      var n := (a - 0xC0) * 64 + (b.value - 0x80);
      if n < 0x80 then None else Some((n as char, 2))
    else if 0xE0 <= a < 0xF0 && Continues(b) && Continues(c) then
      var n := (a - 0xE0) * 4096 + (b.value - 0x80) * 64 + (c.value - 0x80);
      if n < 0x800 || 0xD800 <= n < 0xE000 then None else Some((n as char, 3))
    else if 0xF0 <= a < 0xF8 && Continues(b) && Continues(c) && Continues(d) then
      var n := (a - 0xF0) * 262144 + (b.value - 0x80) * 4096 + (c.value - 0x80) * 64 + (d.value - 0x80);
      if n < 0x10000 || 0x10FFFF < n then None else Some((n as char, 4))
    else None
  }

  function ReadPoint(t: string): (r: Option<(char, nat)>)
    ensures r.Some? ==> 1 <= r.value.1 && 3 * r.value.1 <= |t|
  {
    if ReadByte(t, 0).None? then None else Point(ReadByte(t, 0).value, ReadByte(t, 1), ReadByte(t, 2), ReadByte(t, 3))
  }

  function Cons(c: char, rest: Option<string>): Option<string> {
    if rest.Some? then Some([c] + rest.value) else None
  }

  function DecodeURIComponent(t: string): Option<string>
    decreases |t|
  {
    if t == [] then Some([])
    else if t[0] != '%' then Cons(t[0], DecodeURIComponent(t[1..]))
    else
      match ReadPoint(t)
      case None => None
      case Some((c, n)) => Cons(c, DecodeURIComponent(t[3 * n..]))
  }

  function SpaceForPlus(t: string): string { seq(|t|, i requires 0 <= i < |t| => if t[i] == '+' then ' ' else t[i]) }

  /** A key from a listing with the encoding type "url". */
  function DecodeKey(t: string): Option<string> { DecodeURIComponent(SpaceForPlus(t)) }

  // ---------- Round trips ----------

  /** `t` spells the bytes as percent triples, in either case of the hexadecimal digits. */
  predicate SpellsBytes(bytes: seq<Byte>, t: string) {
    |t| == 3 * |bytes|
    && forall i | 0 <= i < |bytes| ::
         t[3 * i] == '%' && HexValue(t[3 * i + 1]) == Some(bytes[i] / 16) && HexValue(t[3 * i + 2]) == Some(bytes[i] % 16)
  }

  /** What a server may write for one character of a key. */
  predicate SpellsChar(c: char, t: string) {
    (t == [c] && c != '%' && c != '+') || (c == ' ' && t == "+") || SpellsBytes(Utf8(c), t)
  }

  ghost predicate Spells(s: string, t: string) {
    if s == [] then t == []
    else exists n | 0 <= n <= |t| :: SpellsChar(s[0], t[..n]) && Spells(s[1..], t[n..])
  }

  lemma Sextets(n: nat)
    ensures n == n / 64 * 64 + n % 64
    ensures n / 64 == n / 4096 * 64 + n / 64 % 64
    ensures n / 4096 == n / 262144 * 64 + n / 4096 % 64
  {
  }

  lemma TwoBytes(n: nat)
    requires 0x80 <= n < 0x800
    ensures Point(0xC0 + n / 64, Some(0x80 + n % 64), None, None) == Some((n as char, 2))
  {
  }

  lemma ThreeBytes(n: nat)
    requires 0x800 <= n < 0x10000 && !(0xD800 <= n < 0xE000)
    ensures Point(0xE0 + n / 4096, Some(0x80 + n / 64 % 64), Some(0x80 + n % 64), None) == Some((n as char, 3))
  {
  }

  lemma FourBytes(n: nat)
    requires 0x10000 <= n < 0x110000
    ensures Point(0xF0 + n / 262144, Some(0x80 + n / 4096 % 64), Some(0x80 + n / 64 % 64), Some(0x80 + n % 64)) == Some((n as char, 4))
  {
    Sextets(n);
  }

  /** Bytes behind the ones a code point takes do not matter. */
  lemma PointStops(a: Byte, b: Option<Byte>, c: Option<Byte>, d: Option<Byte>)
    ensures a < 0xC0 ==> Point(a, b, c, d) == Point(a, None, None, None)
    ensures a < 0xE0 ==> Point(a, b, c, d) == Point(a, b, None, None)
    ensures a < 0xF0 ==> Point(a, b, c, d) == Point(a, b, c, None)
  {
  }

  /** The bytes of a character are read back as that character. */
  lemma PointOfUtf8(c: char, d1: Option<Byte>, d2: Option<Byte>, d3: Option<Byte>)
    requires var bytes := Utf8(c);
             && (|bytes| > 1 ==> d1 == Some(bytes[1])) && (|bytes| > 2 ==> d2 == Some(bytes[2])) && (|bytes| > 3 ==> d3 == Some(bytes[3]))
    ensures Point(Utf8(c)[0], d1, d2, d3) == Some((c, |Utf8(c)|))
  {
    var n := c as nat;
    PointStops(Utf8(c)[0], d1, d2, d3);
    if 0x80 <= n < 0x800 { TwoBytes(n); }
    if 0x800 <= n < 0x10000 { ThreeBytes(n); }
    if 0x10000 <= n { FourBytes(n); }
  }

  lemma ByteRead(bytes: seq<Byte>, t: string, i: nat)
    requires i < |bytes| && 3 * |bytes| <= |t| && SpellsBytes(bytes, t[..3 * |bytes|])
    ensures ReadByte(t, i) == Some(bytes[i])
  {
  }

  lemma PointRead(c: char, t: string)
    requires 3 * |Utf8(c)| <= |t| && SpellsBytes(Utf8(c), t[..3 * |Utf8(c)|])
    ensures ReadPoint(t) == Some((c, |Utf8(c)|)) && t[0] == '%'
  {
    var bytes := Utf8(c);
    ByteRead(bytes, t, 0);
    if |bytes| > 1 { ByteRead(bytes, t, 1); }
    if |bytes| > 2 { ByteRead(bytes, t, 2); }
    if |bytes| > 3 { ByteRead(bytes, t, 3); }
    PointOfUtf8(c, ReadByte(t, 1), ReadByte(t, 2), ReadByte(t, 3));
  }

  lemma TriplesHaveNoPlus(bytes: seq<Byte>, t: string)
    requires SpellsBytes(bytes, t)
    ensures '+' !in t
  {
    forall k | 0 <= k < |t| ensures t[k] != '+' {
      var i := k / 3;
      assert t[3 * i] == '%' && HexValue(t[3 * i + 1]).Some? && HexValue(t[3 * i + 2]).Some?;
    }
  }

  lemma SpaceForPlusParts(t: string, n: nat)
    requires n <= |t|
    ensures SpaceForPlus(t)[..n] == SpaceForPlus(t[..n]) && SpaceForPlus(t)[n..] == SpaceForPlus(t[n..])
  {
  }

  lemma CharDecodes(c: char, n: nat, t: string)
    requires n <= |t| && SpellsChar(c, t[..n])
    ensures DecodeKey(t) == Cons(c, DecodeKey(t[n..]))
  {
    var u := SpaceForPlus(t);
    SpaceForPlusParts(t, n);
    if SpellsBytes(Utf8(c), t[..n]) {
      TriplesHaveNoPlus(Utf8(c), t[..n]);
      assert SpaceForPlus(t[..n]) == t[..n];
      PointRead(c, u);
    } else {
      assert n == 1 && u[0] == c && t[0] == t[..n][0];
    }
  }

  lemma ConsWhole(s: string)
    requires s != []
    ensures Cons(s[0], Some(s[1..])) == Some(s)
  {
    assert [s[0]] + s[1..] == s;
  }

  /** However a server spells a key, the key is decoded. */
  lemma {:induction false} DecodesEverySpelling(s: string, t: string)
    requires Spells(s, t)
    ensures DecodeKey(t) == Some(s)
    decreases |s|
  {
    if s == [] {
      assert SpaceForPlus(t) == [];
    } else {
      var n :| 0 <= n <= |t| && SpellsChar(s[0], t[..n]) && Spells(s[1..], t[n..]);
      CharDecodes(s[0], n, t);
      DecodesEverySpelling(s[1..], t[n..]);
      ConsWhole(s);
    }
  }

  // ---------- The client's own encoding ----------

  function EncodeChar(c: char): string { if Unreserved(c) then [c] else PercentAll(Utf8(c)) }

  lemma {:induction false} EscapeConcat(a: string, b: string)
    ensures EscapeMarks(a + b) == EscapeMarks(a) + EscapeMarks(b)
  {
    if a == [] {
      assert a + b == b;
    } else {
      assert (a + b)[0] == a[0] && (a + b)[1..] == a[1..] + b;
      EscapeConcat(a[1..], b);
    }
  }

  predicate Upper(c: char) { '0' <= c <= '9' || 'A' <= c <= 'F' }

  lemma {:induction false} NothingToEscape(a: string)
    requires forall c :: c in a ==> !Mark(c)
    ensures EscapeMarks(a) == a
  {
    if a != [] { NothingToEscape(a[1..]); }
  }

  lemma {:induction false} TriplesSpell(bytes: seq<Byte>)
    ensures SpellsBytes(bytes, PercentAll(bytes))
    ensures forall c :: c in PercentAll(bytes) ==> !Mark(c)
  {
    if bytes != [] {
      TriplesSpell(bytes[1..]);
      TripleBefore(bytes, PercentAll(bytes[1..]));
    }
  }

  lemma TripleBefore(bytes: seq<Byte>, rest: string)
    requires bytes != [] && SpellsBytes(bytes[1..], rest)
    ensures SpellsBytes(bytes, Percent(bytes[0]) + rest)
  {
  }

  /** The two replacements together encode character by character. */
  lemma EncodeHead(s: string)
    requires s != []
    ensures Encode(s) == EncodeChar(s[0]) + Encode(s[1..])
  {
    var c := s[0];
    var head := if Unreserved(c) || Mark(c) then [c] else PercentAll(Utf8(c));
    EscapeConcat(head, EncodeURIComponent(s[1..]));
    if Unreserved(c) || Mark(c) {
      assert head[1..] == [];
      if Mark(c) { assert PercentAll(Utf8(c)) == Percent(c as nat); }
    } else {
      TriplesSpell(Utf8(c));
      NothingToEscape(head);
    }
  }

  lemma {:induction false} EncodeSpells(s: string)
    ensures Spells(s, Encode(s))
    decreases |s|
  {
    if s != [] {
      EncodeHead(s);
      EncodeSpells(s[1..]);
      TriplesSpell(Utf8(s[0]));
      var n := |EncodeChar(s[0])|;
      assert Encode(s)[..n] == EncodeChar(s[0]) && Encode(s)[n..] == Encode(s[1..]);
      assert SpellsChar(s[0], Encode(s)[..n]);
    }
  }

  /** Decoding undoes encoding on every well-formed string. */
  lemma EncodeRoundTrip(s: string)
    ensures DecodeKey(Encode(s)) == Some(s)
  {
    EncodeSpells(s);
    DecodesEverySpelling(s, Encode(s));
  }

  /** Section 2 of RFC 3986: only unreserved characters and triples with upper-case digits. */
  predicate Canonical(t: string)
    decreases |t|
  {
    if t == [] then true
    else if Unreserved(t[0]) then Canonical(t[1..])
    else |t| >= 3 && t[0] == '%' && Upper(t[1]) && Upper(t[2]) && Canonical(t[3..])
  }

  lemma {:induction false} TriplesCanonical(bytes: seq<Byte>, rest: string)
    requires Canonical(rest)
    ensures Canonical(PercentAll(bytes) + rest)
  {
    if bytes == [] {
      assert PercentAll(bytes) + rest == rest;
    } else {
      TriplesCanonical(bytes[1..], rest);
      var t := PercentAll(bytes) + rest;
      assert t == Percent(bytes[0]) + (PercentAll(bytes[1..]) + rest);
      assert t[3..] == PercentAll(bytes[1..]) + rest;
    }
  }

  lemma {:induction false} EncodeIsCanonical(s: string)
    ensures Canonical(Encode(s))
    decreases |s|
  {
    if s != [] {
      EncodeHead(s);
      EncodeIsCanonical(s[1..]);
      if Unreserved(s[0]) {
        assert Encode(s)[1..] == Encode(s[1..]);
      } else {
        TriplesCanonical(Utf8(s[0]), Encode(s[1..]));
      }
    }
  }
}
