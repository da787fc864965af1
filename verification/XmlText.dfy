/** The XML text codec of the S3 client (s3-client.js): `xmlDecode`, and `escape` in `createBucket`. */
module XmlText {
  import opened Wrappers
  import opened Digits
  import opened Text
  import opened Codec

  /** How many digits follow from `i` on. */
  function Run(t: string, i: nat, base: nat): nat
    decreases |t| - i
  {
    if i < |t| && Digit(t[i], base) then 1 + Run(t, i + 1, base) else 0
  }

  /** String.fromCodePoint; none where it throws, or yields half of a surrogate pair. */
  function FromCodePoint(n: nat): Option<string> {
    if n < 0xD800 || 0xE000 <= n < 0x110000 then Some([n as char]) else None
  }

  lemma {:induction false} RunIsDigits(t: string, i: nat, base: nat)
    ensures i + Run(t, i, base) <= |t| || Run(t, i, base) == 0
    ensures forall k :: i <= k < i + Run(t, i, base) ==> Digit(t[k], base)
    decreases |t| - i
  {
    if i < |t| && Digit(t[i], base) { RunIsDigits(t, i + 1, base); }
  }

  /** A reference that starts with `skip` characters, then digits and a semicolon: what it stands for and its length. */
  function NumericAt(t: string, skip: nat, base: nat): Option<(Option<string>, nat)> {
    var n := Run(t, skip, base);
    RunIsDigits(t, skip, base);
    if n == 0 || skip + n >= |t| || t[skip + n] != ';' then None
    else Some((FromCodePoint(Value(t[skip..skip + n], base)), skip + n + 1))
  }

  /** The pattern ignores case, but the table of names does not: other spellings become the text "undefined". */
  function NamedAt(t: string, name: string, c: char): Option<(Option<string>, nat)> {
    if |t| >= |name| + 2 && t[|name| + 1] == ';' && forall i | 0 <= i < |name| :: LowerChar(t[i + 1]) == name[i]
    then Some((Some(if t[1..|name| + 1] == name then [c] else "undefined"), |name| + 2))
    else None
  }

  /** The reference at the start of `t`, if the pattern matches there. */
  function ReferenceAt(t: string): Option<(Option<string>, nat)>
    requires t != [] && t[0] == '&'
  {
    if |t| > 2 && t[1] == '#' && LowerChar(t[2]) == 'x' then NumericAt(t, 3, 16)
    else if |t| > 1 && t[1] == '#' then NumericAt(t, 2, 10)
    else if NamedAt(t, "amp", '&').Some? then NamedAt(t, "amp", '&')
    else if NamedAt(t, "lt", '<').Some? then NamedAt(t, "lt", '<')
    else if NamedAt(t, "gt", '>').Some? then NamedAt(t, "gt", '>')
    else if NamedAt(t, "quot", '"').Some? then NamedAt(t, "quot", '"')
    else NamedAt(t, "apos", '\'')
  }

  function Before(head: Option<string>, rest: Option<string>): Option<string> {
    if head.Some? && rest.Some? then Some(head.value + rest.value) else None
  }

  function XmlDecode(t: string): Option<string>
    decreases |t|
  {
    if t == [] then Some([])
    else if t[0] == '&' && ReferenceAt(t).Some? then
      var (head, n) := ReferenceAt(t).value;
      Before(head, XmlDecode(t[n..]))
    else Before(Some([t[0]]), XmlDecode(t[1..]))
  }

  function EscapeChar(c: char): string {
    match c
    case '&' => "&amp;"
    case '<' => "&lt;"
    case '>' => "&gt;"
    case '"' => "&quot;"
    case '\'' => "&apos;"
    case _ => [c]
  }

  function Escape(s: string): string { if s == [] then [] else EscapeChar(s[0]) + Escape(s[1..]) }

  // ---------- Decoding undoes every spelling ----------

  ghost predicate SpellsDecimal(c: char, t: string, digits: string) {
    digits != "" && (forall d :: d in digits ==> Digit(d, 10)) && Value(digits, 10) == c as nat && t == "&#" + digits + ";"
  }

  ghost predicate SpellsHexadecimal(c: char, t: string, digits: string, x: char) {
    digits != "" && (forall d :: d in digits ==> Digit(d, 16)) && Value(digits, 16) == c as nat && LowerChar(x) == 'x'
    && t == "&#" + [x] + digits + ";"
  }

  ghost predicate SpellsNumber(c: char, t: string) {
    (exists digits :: SpellsDecimal(c, t, digits)) || (exists digits, x :: SpellsHexadecimal(c, t, digits, x))
  }

  /** What a server may write for one character: itself, its name, or its number. */
  ghost predicate SpellsText(c: char, t: string) {
    (t == [c] && c != '&') || t == EscapeChar(c) || SpellsNumber(c, t)
  }

  ghost predicate Renders(s: string, t: string) {
    if s == [] then t == []
    else exists n | 0 <= n <= |t| :: SpellsText(s[0], t[..n]) && Renders(s[1..], t[n..])
  }

  lemma {:induction false} RunLength(t: string, i: nat, n: nat, base: nat)
    requires i + n < |t| && base <= 16 && (forall k :: i <= k < i + n ==> Digit(t[k], base)) && t[i + n] == ';'
    ensures Run(t, i, base) == n
    decreases n
  {
    if n > 0 { RunLength(t, i + 1, n - 1, base); }
  }

  lemma CodePointOf(c: char)
    ensures FromCodePoint(c as nat) == Some([c])
  {
  }

  lemma RunOf(t: string, skip: nat, digits: string, base: nat)
    requires base <= 16 && forall d :: d in digits ==> Digit(d, base)
    requires skip + |digits| < |t| && t[skip..skip + |digits|] == digits && t[skip + |digits|] == ';'
    ensures Run(t, skip, base) == |digits|
  {
    forall k | skip <= k < skip + |digits| ensures Digit(t[k], base) { assert t[k] == t[skip..skip + |digits|][k - skip]; }
    RunLength(t, skip, |digits|, base);
  }

  lemma NameDecodes(t: string, name: string, c: char)
    requires |t| >= |name| + 2 && t[1..|name| + 1] == name && t[|name| + 1] == ';' && forall d :: d in name ==> 'a' <= d <= 'z'
    ensures NamedAt(t, name, c) == Some((Some([c]), |name| + 2))
  {
    forall i | 0 <= i < |name| ensures LowerChar(t[i + 1]) == name[i] {
      assert t[i + 1] == t[1..|name| + 1][i] && name[i] in name;
    }
  }

  /** The five named references. */
  predicate Name(name: string, c: char) {
    (name, c) in {("amp", '&'), ("lt", '<'), ("gt", '>'), ("quot", '"'), ("apos", '\'')}
  }

  lemma Differs(t: string, name: string, i: nat)
    requires i < |name| && i + 1 < |t|
    ensures LowerChar(t[i + 1]) != name[i] ==> forall c :: NamedAt(t, name, c).None?
  {
  }

  lemma Sliced(t: string, n: nat, head: string, digits: string)
    requires n <= |t| && t[..n] == head + digits + ";"
    ensures n == |head| + |digits| + 1 && t[..|head|] == head
    ensures t[|head|..|head| + |digits|] == digits && t[|head| + |digits|] == ';'
  {
    var u := t[..n];
    assert u[..|head|] == head && u[|head|..|head| + |digits|] == digits && u[|head| + |digits|] == ';';
    assert t[..|head|] == u[..|head|] && t[|head|..|head| + |digits|] == u[|head|..|head| + |digits|];
  }

  lemma NamedDecodes(c: char, name: string, t: string)
    requires Name(name, c) && "&" + name + ";" <= t
    ensures t[0] == '&' && ReferenceAt(t) == Some((Some([c]), |name| + 2))
  {
    Sliced(t, |name| + 2, "&", name);
    NameDecodes(t, name, c);
    assert t[1] == t[1..1 + |name|][0] && t[2] == t[1..1 + |name|][1];
    Differs(t, "amp", if name == "apos" then 1 else 0);
    Differs(t, "lt", 0);
    Differs(t, "gt", 0);
    Differs(t, "quot", 0);
  }

  lemma EscapedDecodes(c: char, t: string)
    requires c in {'&', '<', '>', '"', '\''} && EscapeChar(c) <= t
    ensures t[0] == '&' && ReferenceAt(t) == Some((Some([c]), |EscapeChar(c)|))
  {
    var name := match c case '&' => "amp" case '<' => "lt" case '>' => "gt" case '"' => "quot" case _ => "apos";
    assert EscapeChar(c) == "&" + name + ";";
    NamedDecodes(c, name, t);
  }

  lemma DecimalDecodes(c: char, n: nat, t: string, digits: string)
    requires n <= |t| && SpellsDecimal(c, t[..n], digits)
    ensures n > 0 && t[0] == '&' && ReferenceAt(t) == Some((Some([c]), n))
  {
    Sliced(t, n, "&#", digits);
    assert t[0] == t[..2][0] && t[1] == t[..2][1];
    assert t[2] == t[2..2 + |digits|][0] && digits[0] in digits;
    RunOf(t, 2, digits, 10);
    CodePointOf(c);
  }

  lemma HexadecimalDecodes(c: char, n: nat, t: string, digits: string, x: char)
    requires n <= |t| && SpellsHexadecimal(c, t[..n], digits, x)
    ensures n > 0 && t[0] == '&' && ReferenceAt(t) == Some((Some([c]), n))
  {
    var head := "&#" + [x];
    Sliced(t, n, head, digits);
    assert t[0] == t[..3][0] && t[1] == t[..3][1] && t[2] == t[..3][2];
    RunOf(t, 3, digits, 16);
    CodePointOf(c);
  }

  lemma TextDecodes(c: char, n: nat, t: string)
    requires n <= |t| && SpellsText(c, t[..n])
    ensures XmlDecode(t) == Before(Some([c]), XmlDecode(t[n..]))
  {
    if t[..n] == [c] && c != '&' {
      assert n == 1 && t[0] == t[..n][0];
    } else if SpellsNumber(c, t[..n]) {
      if digits :| SpellsDecimal(c, t[..n], digits) {
        DecimalDecodes(c, n, t, digits);
      } else {
        var digits, x :| SpellsHexadecimal(c, t[..n], digits, x);
        HexadecimalDecodes(c, n, t, digits, x);
      }
    } else {
      EscapedDecodes(c, t);
    }
  }

  lemma {:induction false} DecodesEveryRendering(s: string, t: string)
    requires Renders(s, t)
    ensures XmlDecode(t) == Some(s)
    decreases |s|
  {
    if s != [] {
      var n :| 0 <= n <= |t| && SpellsText(s[0], t[..n]) && Renders(s[1..], t[n..]);
      TextDecodes(s[0], n, t);
      DecodesEveryRendering(s[1..], t[n..]);
      assert [s[0]] + s[1..] == s;
    }
  }

  lemma {:induction false} EscapeRenders(s: string)
    ensures Renders(s, Escape(s))
    decreases |s|
  {
    if s != [] {
      EscapeRenders(s[1..]);
      var n := |EscapeChar(s[0])|;
      assert Escape(s)[..n] == EscapeChar(s[0]) && Escape(s)[n..] == Escape(s[1..]);
    }
  }

  /** Decoding undoes escaping on every string. */
  lemma EscapeRoundTrip(s: string)
    ensures XmlDecode(Escape(s)) == Some(s)
  {
    EscapeRenders(s);
    DecodesEveryRendering(s, Escape(s));
  }

  /** Escaped text holds no markup: no bracket or quote, and every ampersand starts one of the five references. */
  predicate NoMarkup(t: string)
    decreases |t|
  {
    t == []
    || (t[0] !in {'&', '<', '>', '"', '\''} && NoMarkup(t[1..]))
    || (exists c | c in {'&', '<', '>', '"', '\''} :: EscapeChar(c) <= t && NoMarkup(t[|EscapeChar(c)|..]))
  }

  lemma {:induction false} EscapeHasNoMarkup(s: string)
    ensures NoMarkup(Escape(s))
    decreases |s|
  {
    if s != [] {
      EscapeHasNoMarkup(s[1..]);
      assert Escape(s)[|EscapeChar(s[0])|..] == Escape(s[1..]);
    }
  }

  lemma NameFound(t: string, name: string, c: char)
    requires Name(name, c) && |t| == |name| + 2 && t[0] == '&' && t[|name| + 1] == ';'
    requires forall i | 0 <= i < |name| :: LowerChar(t[i + 1]) == name[i]
    ensures ReferenceAt(t) == NamedAt(t, name, c) && NamedAt(t, name, c).Some?
  {
    assert LowerChar(t[1]) == name[0] && LowerChar(t[2]) == name[1];
    Differs(t, "amp", if name == "apos" then 1 else 0);
    Differs(t, "lt", 0);
    Differs(t, "gt", 0);
    Differs(t, "quot", 0);
  }

  /** A named reference stands for its character exactly in lower case; otherwise it becomes "undefined". */
  lemma NamesAreCaseSensitive(spelling: string, name: string, c: char)
    requires Name(name, c) && |spelling| == |name| && forall i | 0 <= i < |name| :: LowerChar(spelling[i]) == name[i]
    ensures XmlDecode("&" + spelling + ";") == Some(if spelling == name then [c] else "undefined")
  {
    var t := "&" + spelling + ";";
    assert forall i | 0 <= i < |name| :: t[i + 1] == spelling[i];
    assert t[1..|name| + 1] == spelling && t[|name| + 2..] == [];
    NameFound(t, name, c);
    var text := if spelling == name then [c] else "undefined";
    assert text + [] == text;
  }

  // ---------- A key in a listing ----------

  /** `parseList`: the text of the element is decoded as XML, then as a key if the listing says that its keys are
      URL-encoded. */
  function ListedKey(element: string, encodingType: string): Option<string> {
    if XmlDecode(element).None? then None
    else if encodingType == "url" then DecodeKey(XmlDecode(element).value)
    else XmlDecode(element)
  }

  /** What the text of an element is before it is rendered in XML. */
  ghost predicate Spelled(key: string, text: string, encodingType: string) {
    if encodingType == "url" then Spells(key, text) else text == key
  }

  /** However the server spells a key, where it says that it does, and renders that in XML, the listing returns the key. */
  lemma ListedKeysAreExact(key: string, spelling: string, element: string, encodingType: string)
    requires Spelled(key, spelling, encodingType) && Renders(spelling, element)
    ensures ListedKey(element, encodingType) == Some(key)
  {
    DecodesEveryRendering(spelling, element);
    if encodingType == "url" { DecodesEverySpelling(key, spelling); }
  }
}
