// Strict decoding of local `file:` URIs (section 2.1 of RFC 3986, section 2 of RFC 8089), over bytes.

module FileUris {
  import opened Wrappers

  import Saturating

  /** One byte, written as the character of the same code. */
  type Byte = c: char | (c as int) < 256 witness 'a'

  type Bytes = seq<Byte>

  const SCHEME: Bytes := "file://"

  // ---- percent escapes ----

  predicate IsUppercaseHex(c: Byte) {
    '0' <= c <= '9' || 'A' <= c <= 'F'
  }

  predicate IsHex(c: Byte) {
    IsUppercaseHex(c) || 'a' <= c <= 'f'
  }

  function HexValue(c: Byte): (v: nat)
    requires IsHex(c)
    ensures v < 16
  {
    if c <= '9' then c as int - '0' as int
    else if c <= 'F' then c as int - 'A' as int + 10
    else c as int - 'a' as int + 10
  }

  function HexDigit(v: nat): (c: Byte)
    requires v < 16
    ensures IsUppercaseHex(c) && HexValue(c) == v
  {
    if v < 10 then ('0' as int + v) as char else ('A' as int + v - 10) as char
  }

  function Escaped(high: Byte, low: Byte): Byte
    requires IsHex(high) && IsHex(low)
  {
    (16 * HexValue(high) + HexValue(low)) as char
  }

  /** An escape in canonical form that does not hide a path separator. */
  predicate GoodEscape(high: Byte, low: Byte) {
    IsUppercaseHex(high) && IsUppercaseHex(low) && Escaped(high, low) != '/' && Escaped(high, low) != '\\'
  }

  predicate WellEscaped(s: Bytes) {
    s == [] ||
    if s[0] != '%' then WellEscaped(s[1..])
    else |s| >= 3 && GoodEscape(s[1], s[2]) && WellEscaped(s[3..])
  }

  method ValidatePercentEscapes(value: Bytes) returns (ok: bool)
    ensures ok == WellEscaped(value)
  {
    var index := 0;
    while index < |value|
      invariant index <= |value|
      invariant WellEscaped(value) == WellEscaped(value[index..])
    {
      if value[index] != '%' {
        index := index + 1;
      } else {
        if !(index + 2 < |value|) { return false; }
        var high, low := value[index + 1], value[index + 2];
        if !(IsUppercaseHex(high) && IsUppercaseHex(low)) { return false; }
        if Escaped(high, low) == '/' || Escaped(high, low) == '\\' { return false; }
        assert value[index..][3..] == value[index + 3..];
        index := index + 3;
      }
    }
    return true;
  }

  /** Percent decoding as the library does it: anything that is not an escape stands for itself. */
  function PercentDecode(s: Bytes): Bytes {
    if s == [] then []
    else if s[0] == '%' && |s| >= 3 && IsHex(s[1]) && IsHex(s[2]) then [Escaped(s[1], s[2])] + PercentDecode(s[3..])
    else [s[0]] + PercentDecode(s[1..])
  }

  // ---- the encoder ----

  predicate IsControl(c: Byte) {
    (c as int) < 32 || c as int == 127
  }

  /** Controls, the encode set, and every byte beyond ASCII. */
  predicate MustEncode(c: Byte) {
    IsControl(c) || c as int >= 128 || c in " \"#%<>?`{}"
  }

  function EncodeByte(c: Byte): Bytes {
    if MustEncode(c) then ['%', HexDigit(c as int / 16), HexDigit(c as int % 16)] else [c]
  }

  function Encode(path: Bytes): Bytes {
    if path == [] then [] else EncodeByte(path[0]) + Encode(path[1..])
  }

  function FileUri(path: Bytes): Bytes {
    SCHEME + Encode(path)
  }

  // ---- paths ----

  function Count(s: Bytes, c: Byte): nat {
    if s == [] then 0 else (if s[0] == c then 1 else 0) + Count(s[1..], c)
  }

  lemma {:induction false} CountIsMultiplicity(s: Bytes, c: Byte)
    ensures Count(s, c) == multiset(s)[c]
  {
    if s != [] {
      CountIsMultiplicity(s[1..], c);
      assert s == [s[0]] + s[1..];
    }
  }

  predicate HasDouble(s: Bytes) {
    |s| >= 2 && ((s[0] == '/' && s[1] == '/') || HasDouble(s[1..]))
  }

  /** The components between separators, empty ones included. */
  function Split(s: Bytes): (parts: seq<Bytes>)
    ensures parts != []
  {
    if s == [] then [[]]
    else
      var rest := Split(s[1..]);
      if s[0] == '/' then [[]] + rest else [[s[0]] + rest[0]] + rest[1..]
  }

  function Kept(parts: seq<Bytes>): (kept: seq<Bytes>)
    ensures forall p :: p in kept <==> p in parts && p != [] && p != "."
  {
    if parts == [] then []
    else (if parts[0] == [] || parts[0] == "." then [] else [parts[0]]) + Kept(parts[1..])
  }

  /** `Path::components` of an absolute path: empty components and `.` are dropped. */
  function Components(path: Bytes): seq<Bytes> {
    Kept(Split(path))
  }

  predicate Continues(s: Bytes, i: nat) {
    i < |s| && 0x80 <= s[i] as int <= 0xBF
  }

  /** Length of the UTF-8 sequence at the front (section 4 of RFC 3629), or 0 when there is none. */
  function SequenceLength(s: Bytes): nat
    requires s != []
  {
    var a := s[0] as int;
    if a < 0x80 then 1
    else if 0xC2 <= a <= 0xDF && Continues(s, 1) then 2
    else if 0xE0 <= a <= 0xEF && Continues(s, 1) && Continues(s, 2)
            && (a == 0xE0 ==> s[1] as int >= 0xA0) && (a == 0xED ==> s[1] as int <= 0x9F) then 3
    else if 0xF0 <= a <= 0xF4 && Continues(s, 1) && Continues(s, 2) && Continues(s, 3)
            && (a == 0xF0 ==> s[1] as int >= 0x90) && (a == 0xF4 ==> s[1] as int <= 0x8F) then 4
    else 0
  }

  predicate ValidUtf8(s: Bytes)
    decreases |s|
  {
    s == [] || var n := SequenceLength(s); 0 < n <= |s| && ValidUtf8(s[n..])
  }

  // ---- the parser ----

  /** Characters that must not appear unescaped. */
  predicate Forbidden(c: Byte) {
    IsControl(c) || c in " \"<>\\^`{|}"
  }

  predicate AnyForbidden(s: Bytes) {
    exists c | c in s :: Forbidden(c)
  }

  function LocalFileUriPath(uri: Bytes): Option<Bytes> {
    if !("file:///" <= uri) then None else
      var encoded := uri[|SCHEME|..];
      if !("/" <= encoded) || "//" <= encoded then None
      else if HasDouble(encoded[1..]) then None
      else if '?' in encoded || '#' in encoded then None
      else if AnyForbidden(encoded) then None
      else if !WellEscaped(encoded) then None
      else
        var decoded := PercentDecode(encoded);
        if !ValidUtf8(decoded) then None
        else if '\0' in decoded then None
        else if !("/" <= decoded) then None
        else if ".." in Components(decoded) then None
        else Some(decoded)
  }

  // ---- accepted URIs keep their separators ----

  lemma {:induction false} DecodeKeepsSeparators(s: Bytes)
    requires WellEscaped(s)
    ensures Count(PercentDecode(s), '/') == Count(s, '/')
    ensures '\\' in PercentDecode(s) ==> '\\' in s
  {
    if s != [] {
      if s[0] == '%' {
        DecodeKeepsSeparators(s[3..]);
        var rest := PercentDecode(s[3..]);
        assert ([Escaped(s[1], s[2])] + rest)[1..] == rest;
        assert s[1..][1..] == s[2..] && s[2..][1..] == s[3..];
      } else {
        DecodeKeepsSeparators(s[1..]);
        assert ([s[0]] + PercentDecode(s[1..]))[1..] == PercentDecode(s[1..]);
      }
    }
  }

  lemma {:induction false} DecodeKeepsSingles(s: Bytes)
    requires WellEscaped(s) && !HasDouble(s)
    ensures !HasDouble(PercentDecode(s))
    ensures s != [] ==> PercentDecode(s) != [] && (PercentDecode(s)[0] == '/' <==> s[0] == '/')
  {
    if s != [] {
      var width := if s[0] == '%' then 3 else 1;
      SuffixSingle(s, width);
      DecodeKeepsSingles(s[width..]);
      var rest := PercentDecode(s[width..]);
      var first := PercentDecode(s)[0];
      assert PercentDecode(s) == [first] + rest;
      assert ([first] + rest)[1..] == rest;
    }
  }

  lemma {:induction false} SuffixSingle(s: Bytes, k: nat)
    requires k <= |s| && !HasDouble(s)
    ensures !HasDouble(s[k..])
  {
    if k > 0 {
      SuffixSingle(s[1..], k - 1);
      assert s[1..][k - 1..] == s[k..];
    }
  }

  lemma DoubleParts(s: Bytes)
    requires s != [] && s[0] == '/'
    ensures HasDouble(s) <==> ("//" <= s || HasDouble(s[1..]))
  {
    if |s| >= 2 && s[1] == '/' {
      assert s[..2] == "//";
    }
  }

  /**
   * An accepted URI stands for an absolute UTF-8 path without NUL, backslash, empty or parent component,
   * with exactly as many separators as its encoded form.
   */
  lemma AcceptedUris(uri: Bytes)
    requires LocalFileUriPath(uri).Some?
    ensures var path := LocalFileUriPath(uri).value;
            && SCHEME <= uri
            && Count(path, '/') == Count(uri[|SCHEME|..], '/')
            && path != [] && path[0] == '/' && ValidUtf8(path) && !HasDouble(path)
            && '\0' !in path && '\\' !in path && ".." !in Split(path)
  {
    var encoded := uri[|SCHEME|..];
    DoubleParts(encoded);
    DecodeKeepsSeparators(encoded);
    DecodeKeepsSingles(encoded);
    assert Forbidden('\\');
    assert uri[..|SCHEME|] == SCHEME;
  }

  // ---- parsing undoes the encoder ----

  lemma EscapedByte(c: Byte)
    ensures Escaped(HexDigit(c as int / 16), HexDigit(c as int % 16)) == c
  {
  }

  lemma {:induction false} DecodeEncode(path: Bytes)
    ensures PercentDecode(Encode(path)) == path
  {
    if path != [] {
      DecodeEncode(path[1..]);
      var front, rest := EncodeByte(path[0]), Encode(path[1..]);
      EscapedByte(path[0]);
      assert (front + rest)[|front|..] == rest;
    }
  }

  lemma {:induction false} EncodeWellEscaped(path: Bytes)
    ensures WellEscaped(Encode(path))
  {
    if path != [] {
      EncodeWellEscaped(path[1..]);
      var front, rest := EncodeByte(path[0]), Encode(path[1..]);
      EscapedByte(path[0]);
      assert (front + rest)[|front|..] == rest;
    }
  }

  lemma {:induction false} EncodedCharacters(path: Bytes, c: Byte)
    requires !MustEncode(c) && !IsUppercaseHex(c)
    ensures c in Encode(path) <==> c in path
  {
    if path != [] {
      EncodedCharacters(path[1..], c);
    }
  }

  lemma {:induction false} EncodedAway(path: Bytes, c: Byte)
    requires MustEncode(c) && c != '%'
    ensures c !in Encode(path)
  {
    if path != [] {
      EncodedAway(path[1..], c);
    }
  }

  predicate HasUnencodable(path: Bytes) {
    '\\' in path || '^' in path || '|' in path
  }

  lemma EncodedForbidden(path: Bytes)
    ensures AnyForbidden(Encode(path)) <==> HasUnencodable(path)
  {
    hide Encode;
    EncodedCharacters(path, '\\');
    EncodedCharacters(path, '^');
    EncodedCharacters(path, '|');
    assert Forbidden('\\') && Forbidden('^') && Forbidden('|');
    forall c | c in Encode(path) && Forbidden(c) ensures c == '\\' || c == '^' || c == '|' {
      if MustEncode(c) { EncodedAway(path, c); }
    }
  }

  lemma {:induction false} EncodedDoubles(path: Bytes)
    ensures HasDouble(Encode(path)) <==> HasDouble(path)
    ensures path != [] ==> Encode(path) != [] && (Encode(path)[0] == '/' <==> path[0] == '/')
    ensures path == [] ==> Encode(path) == []
  {
    if path != [] {
      EncodedDoubles(path[1..]);
      var front, rest := EncodeByte(path[0]), Encode(path[1..]);
      var s := front + rest;
      assert s[|front|..] == rest;
      if MustEncode(path[0]) {
        assert s[1..][1..] == s[2..] && s[2..][1..] == s[3..];
        assert HasDouble(s) == HasDouble(s[1..]) == HasDouble(s[2..]) == HasDouble(s[3..]);
      }
    }
  }

  /** Paths the parser gives back: what the encoder writes for them is accepted. */
  predicate Expressible(path: Bytes) {
    && path != [] && path[0] == '/' && ValidUtf8(path) && '\0' !in path
    && !HasDouble(path) && ".." !in Split(path) && !HasUnencodable(path)
  }

  lemma ParentComponents(path: Bytes)
    ensures ".." in Components(path) <==> ".." in Split(path)
  {
  }

  /** Parsing undoes the encoder on exactly the expressible paths, and rejects what it writes for all others. */
  lemma ParseUndoesEncode(path: Bytes)
    ensures LocalFileUriPath(FileUri(path)) == if Expressible(path) then Some(path) else None
  {
    var uri, encoded := FileUri(path), Encode(path);
    assert uri[|SCHEME|..] == encoded && uri[..|SCHEME|] == SCHEME;
    DecodeEncode(path);
    EncodeWellEscaped(path);
    EncodedForbidden(path);
    EncodedDoubles(path);
    EncodedAway(path, '?');
    EncodedAway(path, '#');
    ParentComponents(path);
    if path != [] && path[0] == '/' {
      DoubleParts(encoded);
      assert uri[..8] == "file:///";
    }
    assert |uri| > 7 ==> uri[7] == encoded[0];
  }

  // ---- exactly which URIs are accepted ----

  const HEX: Bytes := "0123456789ABCDEF"

  /** Bytes that may stand for themselves. */
  predicate StandsForItself(c: Byte) {
    32 <= c as int != 127 && c !in " \"#%<>?\\^`{|}"
  }

  function EscapeOf(c: Byte): Bytes {
    ['%', HEX[c as int / 16], HEX[c as int % 16]]
  }

  /** Every byte of the path is written as itself or, unless it is a separator of any system, as its escape. */
  predicate Spells(e: Bytes, path: Bytes) {
    if path == [] then e == []
    else
      || (StandsForItself(path[0]) && [path[0]] <= e && Spells(e[1..], path[1..]))
      || (path[0] !in "/\\" && EscapeOf(path[0]) <= e && Spells(e[3..], path[1..]))
  }

  lemma HexDigits(v: nat)
    requires v < 16
    ensures HexDigit(v) == HEX[v]
  {
  }

  lemma EscapeDecodes(c: Byte)
    ensures var e := EscapeOf(c);
            IsUppercaseHex(e[1]) && IsUppercaseHex(e[2]) && Escaped(e[1], e[2]) == c
  {
    HexDigits(c as int / 16);
    HexDigits(c as int % 16);
    EscapedByte(c);
  }

  /** The encoder leaves printable ASCII bare, the encode set and the space excepted, and escapes every other byte. */
  lemma EncoderWrites(c: Byte)
    ensures EncodeByte(c) == if 32 < c as int < 127 && c !in "\"#%<>?`{}" then [c] else EscapeOf(c)
  {
    HexDigits(c as int / 16);
    HexDigits(c as int % 16);
  }

  lemma EscapeEncodes(high: Byte, low: Byte)
    requires IsUppercaseHex(high) && IsUppercaseHex(low)
    ensures EscapeOf(Escaped(high, low)) == ['%', high, low]
  {
    hide HexValue, HexDigit;
    DigitOf(high);
    DigitOf(low);
    Digits(HexValue(high), HexValue(low), 16);
  }

  lemma DigitOf(c: Byte)
    requires IsUppercaseHex(c)
    ensures HEX[HexValue(c)] == c
  {
  }

  lemma Digits(high: nat, low: nat, base: nat)
    requires low < base
    ensures (base * high + low) / base == high && (base * high + low) % base == low
  {
    var v := base * high + low;
    var q, r := v / base, v % base;
    assert base * q + r == v;
    if q < high { Multiples(base, q, high); }
    if high < q { Multiples(base, high, q); }
  }

  lemma Multiples(base: nat, a: nat, b: nat)
    requires a < b
    ensures base * a + base <= base * b
  {
    Saturating.Successor(a, base);
    Saturating.MulMonotone(a + 1, b, base);
  }

  /** What the checks on the encoded form see of a spelling. */
  predicate Decodes(e: Bytes, path: Bytes) {
    && WellEscaped(e) && PercentDecode(e) == path
    && (forall c | c in e :: !Forbidden(c) && c != '?' && c != '#')
    && (HasDouble(e) <==> HasDouble(path))
    && (e == [] <==> path == [])
    && (e != [] ==> (e[0] == '/' <==> path[0] == '/'))
  }

  lemma SelfDecodes(c: Byte, e: Bytes, path: Bytes)
    requires StandsForItself(c) && Decodes(e, path)
    ensures Decodes([c] + e, [c] + path)
  {
    assert ([c] + e)[1..] == e && ([c] + path)[1..] == path;
  }

  lemma EscapeDecodesTo(c: Byte, e: Bytes, path: Bytes)
    requires c !in "/\\" && Decodes(e, path)
    ensures Decodes(EscapeOf(c) + e, [c] + path)
  {
    var more, longer := EscapeOf(c) + e, [c] + path;
    EscapeDecodes(c);
    assert more[3..] == e && longer[1..] == path;
    EscapeHasNoDouble(more, longer);
  }

  /** Decoding finds the path that was spelled. */
  lemma {:induction false} SpellingDecodes(e: Bytes, path: Bytes)
    requires Spells(e, path)
    ensures Decodes(e, path)
  {
    if path != [] {
      hide Decodes;
      assert path == [path[0]] + path[1..];
      if StandsForItself(path[0]) && [path[0]] <= e && Spells(e[1..], path[1..]) {
        SpellingDecodes(e[1..], path[1..]);
        SelfDecodes(path[0], e[1..], path[1..]);
        assert e == [path[0]] + e[1..];
      } else {
        SpellingDecodes(e[3..], path[1..]);
        EscapeDecodesTo(path[0], e[3..], path[1..]);
        assert e == EscapeOf(path[0]) + e[3..];
      }
    }
  }

  lemma EscapeHasNoDouble(e: Bytes, path: Bytes)
    requires path != [] && path[0] !in "/\\" && EscapeOf(path[0]) <= e
    requires HasDouble(e[3..]) <==> HasDouble(path[1..])
    ensures HasDouble(e) <==> HasDouble(path)
  {
    EscapeDecodes(path[0]);
    assert e[..3] == EscapeOf(path[0]);
    assert e[1..][1..] == e[2..] && e[2..][1..] == e[3..];
    assert HasDouble(e) == HasDouble(e[1..]) == HasDouble(e[2..]) == HasDouble(e[3..]);
  }

  /** What passes the checks on the encoded form spells what it decodes to. */
  lemma {:induction false} DecodedIsSpelled(e: Bytes)
    requires WellEscaped(e) && forall c | c in e :: !Forbidden(c) && c != '?' && c != '#'
    ensures Spells(e, PercentDecode(e))
  {
    if e != [] {
      if e[0] == '%' {
        EscapeEncodes(e[1], e[2]);
        assert e[..3] == EscapeOf(Escaped(e[1], e[2]));
        assert forall c | c in e[3..] :: c in e;
        DecodedIsSpelled(e[3..]);
        assert PercentDecode(e)[1..] == PercentDecode(e[3..]);
      } else {
        assert e[0] in e;
        DecodedIsSpelled(e[1..]);
        assert PercentDecode(e)[1..] == PercentDecode(e[1..]);
      }
    }
  }

  // ---- paths in plain terms ----

  predicate DoubleAt(s: Bytes, i: nat) {
    i + 1 < |s| && s[i] == '/' && s[i + 1] == '/'
  }

  /** A parent component that follows a separator. */
  predicate ParentAt(s: Bytes, i: nat) {
    i + 2 < |s| && s[i] == '/' && s[i + 1] == '.' && s[i + 2] == '.' && (i + 3 < |s| ==> s[i + 3] == '/')
  }

  lemma {:induction false} DoublesAre(s: Bytes)
    ensures HasDouble(s) <==> exists i: nat :: DoubleAt(s, i)
  {
    if s != [] {
      DoublesAre(s[1..]);
      if HasDouble(s) {
        if DoubleAt(s, 0) {
        } else {
          var i: nat :| DoubleAt(s[1..], i);
          assert DoubleAt(s, i + 1);
        }
      }
      if i: nat :| DoubleAt(s, i) {
        if i > 0 { assert DoubleAt(s[1..], i - 1); }
      }
    }
  }

  lemma {:induction false} FirstPart(s: Bytes, x: Bytes)
    requires '/' !in x
    ensures Split(s)[0] == x <==> x <= s && (|s| == |x| || s[|x|] == '/')
  {
    if s != [] && s[0] != '/' {
      if x != [] {
        FirstPart(s[1..], x[1..]);
        assert x == [x[0]] + x[1..];
        assert Split(s)[0] == [s[0]] + Split(s[1..])[0];
        assert Split(s)[0] == x <==> s[0] == x[0] && Split(s[1..])[0] == x[1..];
        assert x <= s <==> s[0] == x[0] && x[1..] <= s[1..];
      }
    }
  }

  lemma {:induction false} LaterParents(s: Bytes)
    ensures ".." in Split(s)[1..] <==> exists i: nat :: ParentAt(s, i)
  {
    if s != [] {
      var rest := s[1..];
      LaterParents(rest);
      FirstPart(rest, "..");
      var parts := Split(rest);
      assert parts == [parts[0]] + parts[1..];
      if s[0] == '/' {
        assert Split(s)[1..] == parts;
        assert parts[0] == ".." <==> ParentAt(s, 0);
      } else {
        assert Split(s)[1..] == parts[1..];
      }
      if i: nat :| ParentAt(rest, i) { assert ParentAt(s, i + 1); }
      if i: nat :| ParentAt(s, i) {
        if i > 0 { assert ParentAt(rest, i - 1); }
      }
    }
  }

  // ---- UTF-8 from the side of the encoder ----

  predicate IsScalar(v: nat) {
    v < 0xD800 || 0xE000 <= v < 0x11_0000
  }

  function Continuation(v: nat): Byte {
    (0x80 + v % 64) as char
  }

  /** The bytes of one scalar value (section 3 of RFC 3629). */
  function Utf8(v: nat): Bytes
    requires IsScalar(v)
  {
    if v < 0x80 then [v as char]
    else if v < 0x800 then [(0xC0 + v / 64) as char, Continuation(v)]
    else if v < 0x1_0000 then [(0xE0 + v / 4096) as char, Continuation(v / 64), Continuation(v)]
    else [(0xF0 + v / 262144) as char, Continuation(v / 4096), Continuation(v / 64), Continuation(v)]
  }

  predicate AllScalars(values: seq<nat>) {
    forall v | v in values :: IsScalar(v)
  }

  function Utf8All(values: seq<nat>): Bytes
    requires AllScalars(values)
  {
    if values == [] then []
    else
      assert AllScalars(values[1..]) by { assert forall v | v in values[1..] :: v in values; }
      Utf8(values[0]) + Utf8All(values[1..])
  }

  ghost predicate IsUtf8(s: Bytes) {
    exists values: seq<nat> :: AllScalars(values) && Utf8All(values) == s
  }

  lemma ScalarLength(v: nat, rest: Bytes)
    requires IsScalar(v)
    ensures SequenceLength(Utf8(v) + rest) == |Utf8(v)| > 0
  {
  }

  lemma TwoBytes(a: nat, b: nat)
    requires 2 <= a < 32 && b < 64
    ensures var v := 64 * a + b;
            IsScalar(v) && Utf8(v) == [(0xC0 + a) as char, (0x80 + b) as char]
  {
    Digits(a, b, 64);
  }

  lemma ThreeBytes(a: nat, b: nat, c: nat)
    requires a < 16 && b < 64 && c < 64 && (a == 0 ==> b >= 32) && (a == 13 ==> b < 32)
    ensures var v := 64 * (64 * a + b) + c;
            IsScalar(v) && Utf8(v) == [(0xE0 + a) as char, (0x80 + b) as char, (0x80 + c) as char]
  {
    Digits(64 * a + b, c, 64);
    Digits(a, b, 64);
    var v := 64 * (64 * a + b) + c;
    assert v == 4096 * a + (64 * b + c);
    Digits(a, 64 * b + c, 4096);
  }

  lemma FourBytes(a: nat, b: nat, c: nat, d: nat)
    requires a < 5 && b < 64 && c < 64 && d < 64 && (a == 0 ==> b >= 16) && (a == 4 ==> b < 16)
    ensures var v := 64 * (64 * (64 * a + b) + c) + d;
            IsScalar(v) && Utf8(v) == [(0xF0 + a) as char, (0x80 + b) as char, (0x80 + c) as char, (0x80 + d) as char]
  {
    var v := 64 * (64 * (64 * a + b) + c) + d;
    Digits(64 * (64 * a + b) + c, d, 64);
    Digits(64 * a + b, c, 64);
    assert v == 4096 * (64 * a + b) + (64 * c + d);
    Digits(64 * a + b, 64 * c + d, 4096);
    Digits(a, b, 64);
    assert v == 262144 * a + (4096 * b + 64 * c + d);
    Digits(a, 4096 * b + 64 * c + d, 262144);
  }

  /** The scalar value at the front of valid bytes. */
  lemma FrontScalar(s: Bytes) returns (v: nat)
    requires s != [] && 0 < SequenceLength(s) <= |s|
    ensures IsScalar(v) && Utf8(v) == s[..SequenceLength(s)]
  {
    hide Utf8;
    var a, n := s[0] as int, SequenceLength(s);
    if n == 1 {
      OneByte(a);
      v := a;
    } else if n == 2 {
      var b := s[1] as int - 0x80;
      TwoBytes(a - 0xC0, b);
      v := 64 * (a - 0xC0) + b;
    } else if n == 3 {
      var b, c := s[1] as int - 0x80, s[2] as int - 0x80;
      ThreeBytes(a - 0xE0, b, c);
      v := 64 * (64 * (a - 0xE0) + b) + c;
    } else {
      var b, c, d := s[1] as int - 0x80, s[2] as int - 0x80, s[3] as int - 0x80;
      FourBytes(a - 0xF0, b, c, d);
      v := 64 * (64 * (64 * (a - 0xF0) + b) + c) + d;
    }
  }

  lemma OneByte(v: nat)
    requires v < 0x80
    ensures IsScalar(v) && Utf8(v) == [v as char]
  {
  }

  lemma {:induction false} EncodedIsValid(values: seq<nat>)
    requires AllScalars(values)
    ensures ValidUtf8(Utf8All(values))
  {
    if values != [] {
      hide SequenceLength, Utf8;
      assert AllScalars(values[1..]) by { assert forall v | v in values[1..] :: v in values; }
      EncodedIsValid(values[1..]);
      var front, rest := Utf8(values[0]), Utf8All(values[1..]);
      ScalarLength(values[0], rest);
      assert (front + rest)[|front|..] == rest;
    }
  }

  lemma OneMoreScalar(v: nat, rest: seq<nat>)
    requires IsScalar(v) && AllScalars(rest)
    ensures AllScalars([v] + rest) && Utf8All([v] + rest) == Utf8(v) + Utf8All(rest)
  {
    assert ([v] + rest)[1..] == rest;
  }

  lemma {:induction false} ValidIsEncoded(s: Bytes) returns (values: seq<nat>)
    requires ValidUtf8(s)
    ensures AllScalars(values) && Utf8All(values) == s
    decreases |s|
  {
    values := [];
    if s != [] {
      hide SequenceLength, Utf8, Utf8All, AllScalars;
      var n := SequenceLength(s);
      var v := FrontScalar(s);
      var rest := ValidIsEncoded(s[n..]);
      OneMoreScalar(v, rest);
      values := [v] + rest;
      assert s == s[..n] + s[n..];
    }
  }

  /** Valid bytes are those that the encoder writes for some scalar values. */
  lemma ValidIsUtf8(s: Bytes)
    ensures ValidUtf8(s) <==> IsUtf8(s)
  {
    hide ValidUtf8, Utf8All, AllScalars;
    if ValidUtf8(s) {
      var values := ValidIsEncoded(s);
    }
    if IsUtf8(s) {
      var values: seq<nat> :| AllScalars(values) && Utf8All(values) == s;
      EncodedIsValid(values);
    }
  }

  // ---- the theorem ----

  /** Absolute, UTF-8, without NUL, without an empty component and without a parent component. */
  ghost predicate IsLocalPath(path: Bytes) {
    && path != [] && path[0] == '/' && IsUtf8(path) && '\0' !in path
    && (forall i: nat :: !DoubleAt(path, i))
    && (forall i: nat :: !ParentAt(path, i))
  }

  lemma LocalPaths(path: Bytes)
    ensures IsLocalPath(path) <==>
              path != [] && path[0] == '/' && ValidUtf8(path) && '\0' !in path && !HasDouble(path)
              && ".." !in Components(path)
  {
    hide HasDouble, ValidUtf8, IsUtf8;
    ValidIsUtf8(path);
    DoublesAre(path);
    LaterParents(path);
    ParentComponents(path);
    if path != [] && path[0] == '/' {
      var parts := Split(path);
      assert parts[0] == [] && parts == [parts[0]] + parts[1..];
    }
  }

  /** A URI is accepted as a path exactly when it spells that path and the path is a local one. */
  lemma AcceptsExactlySpellings(uri: Bytes, path: Bytes)
    ensures LocalFileUriPath(uri) == Some(path) <==>
              SCHEME <= uri && Spells(uri[|SCHEME|..], path) && IsLocalPath(path)
  {
    hide HasDouble, ValidUtf8, IsLocalPath, Components, Spells, PercentDecode, WellEscaped;
    LocalPaths(path);
    if LocalFileUriPath(uri) == Some(path) {
      assert uri[..|SCHEME|] == SCHEME;
      var e := uri[|SCHEME|..];
      DecodedIsSpelled(e);
      DoubleParts(e);
      SpellingDecodes(e, path);
    }
    if SCHEME <= uri && Spells(uri[|SCHEME|..], path) && IsLocalPath(path) {
      var e := uri[|SCHEME|..];
      SpellingDecodes(e, path);
      DoubleParts(e);
      assert uri[..8] == "file:///";
      assert "/" <= e;
    }
  }

  // ---- a path the encoder cannot express ----

  /** `/tmp/a^b` is accepted, but only with its circumflex escaped. */
  lemma EscapedCircumflex()
    ensures LocalFileUriPath("file:///tmp/a%5Eb") == Some("/tmp/a^b") && LocalFileUriPath(FileUri("/tmp/a^b")) == None
  {
    hide IsLocalPath, Spells, LocalFileUriPath;
    var uri: Bytes, path: Bytes := "file:///tmp/a%5Eb", "/tmp/a^b";
    assert uri[|SCHEME|..] == "/tmp/a%5Eb" && uri[..|SCHEME|] == SCHEME;
    CircumflexSpelled();
    CircumflexIsLocal();
    AcceptsExactlySpellings(uri, path);
    assert path[6] == '^';
    ParseUndoesEncode(path);
  }

  lemma CircumflexSpelled()
    ensures Spells("/tmp/a%5Eb", "/tmp/a^b")
  {
    hide Spells, EscapeOf;
    NothingSpelled();
    SpellsPlain("b", [], []);
    assert "b" + [] == "b";
    SpellsEscape('^', "b", "b");
    CircumflexEscape();
    SpellsPlain("/tmp/a", "%5Eb", "^b");
    assert "/tmp/a" + "%5Eb" == "/tmp/a%5Eb" && "/tmp/a" + "^b" == "/tmp/a^b";
  }

  lemma NothingSpelled()
    ensures Spells([], [])
  {
  }

  lemma CircumflexEscape()
    ensures EscapeOf('^') + "b" == "%5Eb"
  {
  }

  lemma {:induction false} SpellsPlain(plain: Bytes, e: Bytes, path: Bytes)
    requires (forall c | c in plain :: StandsForItself(c)) && Spells(e, path)
    ensures Spells(plain + e, plain + path)
  {
    if plain == [] {
      assert plain + e == e && plain + path == path;
    } else {
      assert forall c | c in plain[1..] :: c in plain;
      SpellsPlain(plain[1..], e, path);
      assert (plain + e)[1..] == plain[1..] + e && (plain + path)[1..] == plain[1..] + path;
    }
  }

  lemma SpellsEscape(c: Byte, e: Bytes, path: Bytes)
    requires c !in "/\\" && Spells(e, path)
    ensures Spells(EscapeOf(c) + e, [c] + path)
  {
    assert (EscapeOf(c) + e)[3..] == e && ([c] + path)[1..] == path;
  }

  lemma CircumflexIsLocal()
    ensures IsLocalPath("/tmp/a^b")
  {
    hide ValidUtf8, IsUtf8, Encode;
    var path: Bytes := "/tmp/a^b";
    assert '.' !in path && '\0' !in path;
    assert path[1] != '/' && path[5] != '/';
    assert forall i: nat | i < |path| && path[i] == '/' :: i == 0 || i == 4;
    PlainIsKept(path);
    ValidIsUtf8(path);
  }

  // ---- dot segments ----

  /** ASCII that the encoder leaves alone is valid and encodes to itself. */
  lemma {:induction false} PlainIsKept(s: Bytes)
    requires forall c | c in s :: (c as int) < 128 && !MustEncode(c)
    ensures Encode(s) == s && ValidUtf8(s)
  {
    if s != [] {
      assert forall c | c in s[1..] :: c in s;
      PlainIsKept(s[1..]);
      assert s == [s[0]] + s[1..];
    }
  }

  lemma SplitStep(c: Byte, s: Bytes)
    ensures c == '/' ==> Split([c] + s) == [[]] + Split(s)
    ensures c != '/' ==> Split([c] + s) == [[c] + Split(s)[0]] + Split(s)[1..]
    ensures s != [] ==> (HasDouble([c] + s) <==> (c == '/' && s[0] == '/') || HasDouble(s))
  {
    assert ([c] + s)[1..] == s;
  }

  lemma DotParts()
    ensures Split("/a/./b") == [[], "a", ".", "b"] && !HasDouble("/a/./b")
  {
    hide Split, HasDouble;
    EmptyParts();
    SplitStep('b', []);
    assert ['b'] + [] == "b" && Split("b") == ["b"];
    SplitStep('/', "b");
    assert ['/'] + "b" == "/b" && Split("/b") == [[], "b"];
    SplitStep('.', "/b");
    assert ['.'] + [] == "." && Split("/b")[1..] == ["b"];
    assert ['.'] + "/b" == "./b" && Split("./b") == [".", "b"];
    SplitStep('/', "./b");
    assert ['/'] + "./b" == "/./b" && Split("/./b") == [[], ".", "b"];
    SplitStep('a', "/./b");
    assert ['a'] + [] == "a" && Split("/./b")[1..] == [".", "b"];
    assert ['a'] + "/./b" == "a/./b" && Split("a/./b") == ["a", ".", "b"];
    SplitStep('/', "a/./b");
    assert ['/'] + "a/./b" == "/a/./b";
  }

  lemma EmptyParts()
    ensures Split([]) == [[]] && !HasDouble("b")
  {
  }

  /** A `.` between separators is not a reason to refuse a URI. */
  lemma InteriorDotIsAccepted()
    ensures "." in Split("/a/./b") && LocalFileUriPath("file:///a/./b") == Some("/a/./b")
  {
    hide Split, HasDouble, Encode, ValidUtf8, LocalFileUriPath;
    var path: Bytes := "/a/./b";
    DotParts();
    PlainIsKept(path);
    DotIsEncodable();
    ParseUndoesEncode(path);
    assert FileUri(path) == "file:///a/./b";
  }

  lemma DotIsEncodable()
    ensures !HasUnencodable("/a/./b")
  {
  }
}
