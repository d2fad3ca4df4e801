/** `decode_base64` of `tools/common.rs` against the encoding of section 4 of RFC 4648. */
module Base64 {
  import opened Options

  type Byte = b: int | 0 <= b < 256

  // ---------------------------------------------------------------- the alphabet

  type Sextet = v: nat | v < 64

  function Symbol(v: Sextet): char {
    if v < 26 then 'A' + v as char
    else if v < 52 then 'a' + (v - 26) as char
    else if v < 62 then '0' + (v - 52) as char
    else if v == 62 then '+'
    else '/'
  }

  predicate IsSymbol(c: char) {
    'A' <= c <= 'Z' || 'a' <= c <= 'z' || '0' <= c <= '9' || c == '+' || c == '/'
  }

  function Value(c: char): Sextet {
    if 'A' <= c <= 'Z' then (c - 'A') as nat
    else if 'a' <= c <= 'z' then (c - 'a') as nat + 26
    else if '0' <= c <= '9' then (c - '0') as nat + 52
    else if c == '+' then 62
    else if c == '/' then 63
    else 0
  }

  lemma SymbolValue(v: Sextet)
    ensures IsSymbol(Symbol(v)) && Value(Symbol(v)) == v
  {
  }

  lemma ValueSymbol(c: char)
    requires IsSymbol(c)
    ensures Symbol(Value(c)) == c
  {
  }

  // ---------------------------------------------------------------- the encoder of RFC 4648

  function Quad(x: Byte, y: Byte, z: Byte): string {
    [Symbol(x / 4), Symbol(x % 4 * 16 + y / 16), Symbol(y % 16 * 4 + z / 64), Symbol(z % 64)]
  }

  function PadOne(x: Byte, y: Byte): string {
    [Symbol(x / 4), Symbol(x % 4 * 16 + y / 16), Symbol(y % 16 * 4), '=']
  }

  function PadTwo(x: Byte): string {
    [Symbol(x / 4), Symbol(x % 4 * 16), '=', '=']
  }

  function Encode(bytes: seq<Byte>): string {
    if bytes == [] then ""
    else if |bytes| == 1 then PadTwo(bytes[0])
    else if |bytes| == 2 then PadOne(bytes[0], bytes[1])
    else Quad(bytes[0], bytes[1], bytes[2]) + Encode(bytes[3..])
  }

  // ---------------------------------------------------------------- what is accepted

  predicate IsSpace(c: char) {
    c == '\r' || c == '\n' || c == '\t' || c == ' '
  }

  /** The text without the white space that is skipped. */
  function Strip(s: string): string {
    if s == "" then ""
    else if IsSpace(s[|s| - 1]) then Strip(s[..|s| - 1])
    else Strip(s[..|s| - 1]) + [s[|s| - 1]]
  }

  /** Carriage returns, line feeds, tabs and spaces go; everything else stays, in order. */
  lemma {:induction false} StripIs(s: string, t: string, c: char)
    ensures Strip(s + t) == Strip(s) + Strip(t)
    ensures Strip([c]) == if c == 13 as char || c == 10 as char || c == 9 as char || c == 32 as char then "" else [c]
    ensures Strip("") == ""
  {
    assert [c][..0] == "";
    if t == "" {
      assert s + t == s;
    } else {
      var front := t[..|t| - 1];
      StripIs(s, front, c);
      assert (s + t)[..|s + t| - 1] == s + front;
    }
  }

  function TrailingPads(t: string): (p: nat)
    ensures p <= |t| && forall i :: |t| - p <= i < |t| ==> t[i] == '='
    ensures p < |t| ==> t[|t| - p - 1] != '='
  {
    if t != "" && t[|t| - 1] == '=' then TrailingPads(t[..|t| - 1]) + 1 else 0
  }

  /** Whole groups of the standard alphabet, with at most two pads and those at the very end. */
  predicate Acceptable(t: string) {
    && |t| % 4 == 0 && TrailingPads(t) <= 2
    && forall i :: 0 <= i < |t| - TrailingPads(t) ==> IsSymbol(t[i])
  }

  /** The bytes of one group of four: three, less the pads. */
  function GroupBytes(t: string): seq<Byte>
    requires |t| == 4
  {
    var triple := Value(t[0]) * 0x4_0000 + Value(t[1]) * 0x1000 + Value(t[2]) * 0x40 + Value(t[3]);
    [triple / 0x1_0000 % 0x100]
    + (if t[2] != '=' then [triple / 0x100 % 0x100] else [])
    + (if t[3] != '=' then [triple % 0x100] else [])
  }

  function Decoded(t: string): seq<Byte> {
    if |t| < 4 then [] else GroupBytes(t[..4]) + Decoded(t[4..])
  }

  // ---------------------------------------------------------------- groups and pads

  ghost predicate Known(t: string) {
    forall i :: 0 <= i < |t| ==> IsSymbol(t[i]) || t[i] == '='
  }

  ghost predicate PadsLast(t: string) {
    forall i, j :: 0 <= i < j < |t| && t[i] == '=' ==> t[j] == '='
  }

  /** Group `k` of four. */
  predicate GroupOk(t: string, k: nat)
    requires 4 * k + 4 <= |t|
  {
    var i := 4 * k;
    t[i] != '=' && t[i + 1] != '=' && (t[i + 2] == '=' ==> t[i + 3] == '=')
  }

  predicate GroupsOk(t: string) {
    forall k :: 0 <= k < |t| / 4 ==> GroupOk(t, k)
  }

  ghost predicate WellGrouped(t: string) {
    Known(t) && PadsLast(t) && |t| % 4 == 0 && GroupsOk(t)
  }

  /** The declared shape is what the two loops check. */
  lemma AcceptableIff(t: string)
    ensures Acceptable(t) <==> WellGrouped(t)
  {
    var p := TrailingPads(t);
    if WellGrouped(t) {
      assert |t| > 0 ==> GroupOk(t, |t| / 4 - 1);
    }
  }

  /** Nothing that follows repairs text with an unknown character or with data after a pad. */
  lemma StaysRefused(t: string, values: string, c: char)
    requires |values| < |t| && t[..|values| + 1] == values + [c]
    requires c != '=' && (!IsSymbol(c) || '=' in values)
    ensures !(Known(t) && PadsLast(t))
  {
    assert forall k :: 0 <= k <= |values| ==> t[k] == (values + [c])[k];
    assert t[|values|] == c;
    if '=' in values {
      var i :| 0 <= i < |values| && values[i] == '=';
      assert t[i] == '=';
    }
  }

  lemma OnePadMore(values: string, c: char)
    requires Known(values) && PadsLast(values) && (c == '=' || (IsSymbol(c) && '=' !in values))
    ensures Known(values + [c]) && PadsLast(values + [c])
  {
  }

  /** The first loop: the text less its white space, unless a character is unknown or follows a pad. */
  method Significant(input: string) returns (r: Option<string>)
    ensures r == if Known(Strip(input)) && PadsLast(Strip(input)) then Some(Strip(input)) else None
  {
    var values: string := "";
    var paddingStarted := false;
    assert input[..0] == "";
    for i := 0 to |input|
      invariant values == Strip(input[..i]) && Known(values) && PadsLast(values)
      invariant paddingStarted <==> '=' in values
    {
      var c := input[i];
      assert input[..i + 1][..i] == input[..i];
      StripStarts(input, i + 1);
      if c == '=' {
        paddingStarted := true;
      } else if IsSpace(c) {
        continue;
      } else if !IsSymbol(c) || paddingStarted {
        assert Strip(input[..i + 1]) == values + [c];
        StaysRefused(Strip(input), values, c);
        return None;
      }
      OnePadMore(values, c);
      values := values + [c];
    }
    assert input[..|input|] == input;
    return Some(values);
  }

  /** The second loop, group by group. */
  method DecodeGroups(values: string) returns (r: Result<seq<Byte>>)
    requires |values| % 4 == 0
    ensures r == if GroupsOk(values) then Ok(Decoded(values)) else Err
  {
    var output: seq<Byte> := [];
    assert values[0..] == values;
    for i := 0 to |values| / 4
      invariant forall k :: 0 <= k < i ==> GroupOk(values, k)
      invariant output + Decoded(values[4 * i..]) == Decoded(values)
    {
      if !GroupOk(values, i) {
        return Err;
      }
      NextGroup(output, values, i);
      output := output + GroupBytes(values[4 * i..4 * i + 4]);
    }
    assert values[4 * (|values| / 4)..] == "" && output + [] == output;
    r := Ok(output);
  }

  lemma NextGroup(output: seq<Byte>, values: string, k: nat)
    requires 4 * k + 4 <= |values|
    ensures output + Decoded(values[4 * k..]) ==
            output + GroupBytes(values[4 * k..4 * k + 4]) + Decoded(values[4 * (k + 1)..])
  {
    var i := 4 * k;
    assert values[i..][..4] == values[i..i + 4] && values[i..][4..] == values[i + 4..];
  }

  /** `decode_base64`. */
  method DecodeBase64(input: string) returns (r: Result<seq<Byte>>)
    ensures r == if Acceptable(Strip(input)) then Ok(Decoded(Strip(input))) else Err
  {
    var values := Significant(input);
    AcceptableIff(Strip(input));
    if values.None? {
      return Err;
    }
    if values.value == "" {
      return Ok([]);
    }
    if |values.value| % 4 != 0 {
      return Err;
    }
    r := DecodeGroups(values.value);
  }

  lemma {:induction false} StripStarts(s: string, n: nat)
    requires n <= |s|
    ensures |Strip(s[..n])| <= |Strip(s)| && Strip(s)[..|Strip(s[..n])|] == Strip(s[..n])
  {
    if n < |s| {
      StripStarts(s[..|s| - 1], n);
      assert s[..|s| - 1][..n] == s[..n];
    } else {
      assert s[..n] == s;
    }
  }

  // ---------------------------------------------------------------- round trips

  lemma Sextets(x: Byte, y: Byte, z: Byte)
    ensures var triple := x / 4 * 0x4_0000 + (x % 4 * 16 + y / 16) * 0x1000 + (y % 16 * 4 + z / 64) * 0x40 + z % 64;
            triple == x * 0x1_0000 + y * 0x100 + z
  {
  }

  lemma Bytes(x: Byte, y: Byte, z: Byte)
    ensures var triple := x * 0x1_0000 + y * 0x100 + z;
            triple / 0x1_0000 % 0x100 == x && triple / 0x100 % 0x100 == y && triple % 0x100 == z
  {
  }

  lemma QuadIsGrouped(x: Byte, y: Byte, z: Byte)
    ensures Grouped(Quad(x, y, z)) && '=' !in Quad(x, y, z)
  {
    SymbolValue(x / 4);
    SymbolValue(x % 4 * 16 + y / 16);
    SymbolValue(y % 16 * 4 + z / 64);
    SymbolValue(z % 64);
  }

  lemma GroupOfThree(x: Byte, y: Byte, z: Byte)
    ensures GroupBytes(Quad(x, y, z)) == [x, y, z]
  {
    SymbolValue(x / 4);
    SymbolValue(x % 4 * 16 + y / 16);
    SymbolValue(y % 16 * 4 + z / 64);
    SymbolValue(z % 64);
    Sextets(x, y, z);
    Bytes(x, y, z);
  }

  lemma GroupOfTwo(x: Byte, y: Byte)
    ensures GroupBytes(PadOne(x, y)) == [x, y] && Grouped(PadOne(x, y))
  {
    SymbolValue(x / 4);
    SymbolValue(x % 4 * 16 + y / 16);
    SymbolValue(y % 16 * 4);
    Sextets(x, y, 0);
    Bytes(x, y, 0);
  }

  lemma GroupOfOne(x: Byte)
    ensures GroupBytes(PadTwo(x)) == [x] && Grouped(PadTwo(x))
  {
    SymbolValue(x / 4);
    SymbolValue(x % 4 * 16);
    Sextets(x, 0, 0);
    Bytes(x, 0, 0);
  }

  /** One group of four, pads last. */
  ghost predicate Grouped(g: string) {
    |g| == 4 && Known(g) && PadsLast(g) && GroupOk(g, 0)
  }

  lemma GroupThen(g: string, rest: string)
    requires Grouped(g) && WellGrouped(rest) && (rest == "" || '=' !in g)
    ensures WellGrouped(g + rest) && Decoded(g + rest) == GroupBytes(g) + Decoded(rest)
  {
    var t := g + rest;
    assert t[..4] == g && t[4..] == rest;
    forall i | 0 <= i < |t| / 4 ensures GroupOk(t, i) {
      assert i > 0 ==> GroupOk(rest, i - 1);
    }
    assert forall i :: 4 <= i < |t| ==> t[i] == rest[i - 4];
  }

  lemma ShortGroup(g: string, bytes: seq<Byte>)
    requires Grouped(g) && GroupBytes(g) == bytes
    ensures WellGrouped(g) && Decoded(g) == bytes
  {
    GroupThen(g, "");
    assert g + "" == g;
  }

  lemma LongGroup(x: Byte, y: Byte, z: Byte, code: string, more: seq<Byte>)
    requires WellGrouped(code) && Decoded(code) == more
    ensures WellGrouped(Quad(x, y, z) + code) && Decoded(Quad(x, y, z) + code) == [x, y, z] + more
  {
    GroupOfThree(x, y, z);
    QuadIsGrouped(x, y, z);
    GroupThen(Quad(x, y, z), code);
  }

  /** Everything the encoder writes is well grouped and decodes to what was encoded. */
  lemma {:induction false} DecodeOfEncode(bytes: seq<Byte>)
    ensures WellGrouped(Encode(bytes)) && Decoded(Encode(bytes)) == bytes
  {
    if |bytes| > 2 {
      DecodeOfEncode(bytes[3..]);
      LongGroup(bytes[0], bytes[1], bytes[2], Encode(bytes[3..]), bytes[3..]);
      assert bytes == [bytes[0], bytes[1], bytes[2]] + bytes[3..];
    } else if |bytes| == 2 {
      GroupOfTwo(bytes[0], bytes[1]);
      ShortGroup(PadOne(bytes[0], bytes[1]), bytes);
    } else if |bytes| == 1 {
      GroupOfOne(bytes[0]);
      ShortGroup(PadTwo(bytes[0]), bytes);
    }
  }

  /** Any text that is an encoding once its white space is dropped decodes to exactly what was encoded. */
  lemma RoundTrip(bytes: seq<Byte>, input: string)
    requires Strip(input) == Encode(bytes)
    ensures Acceptable(Strip(input)) && Decoded(Strip(input)) == bytes
  {
    DecodeOfEncode(bytes);
    AcceptableIff(Encode(bytes));
  }

  // ---------------------------------------------------------------- length, and what else is accepted

  lemma RestIsGrouped(t: string)
    requires WellGrouped(t) && t != ""
    ensures |t| >= 4 && WellGrouped(t[4..]) && Known(t[..4]) && GroupOk(t[..4], 0)
    ensures t[4..] != "" ==> '=' !in t[..4]
  {
    var rest := t[4..];
    assert GroupOk(t, 0);
    forall i | 0 <= i < |rest| / 4 ensures GroupOk(rest, i) {
      assert GroupOk(t, i + 1);
    }
    if rest != "" {
      assert GroupOk(t, 1) && t[4] != '=';
    }
  }

  lemma PadsAre(t: string, p: nat)
    requires p < |t| && t[|t| - p - 1] != '=' && forall i :: |t| - p <= i < |t| ==> t[i] == '='
    ensures TrailingPads(t) == p
  {
  }

  lemma PadsOfGroup(g: string)
    requires |g| == 4 && GroupOk(g, 0)
    ensures TrailingPads(g) == if g[3] != '=' then 0 else if g[2] != '=' then 1 else 2
  {
    PadsAre(g, if g[3] != '=' then 0 else if g[2] != '=' then 1 else 2);
  }

  lemma PadsOfRest(t: string)
    requires WellGrouped(t) && |t| > 4
    ensures TrailingPads(t) == TrailingPads(t[4..]) < |t| - 4
  {
    var rest := t[4..];
    RestIsGrouped(t);
    assert GroupOk(rest, 0);
    PadsAre(t, TrailingPads(rest));
  }

  /** Three bytes a group, less the pads. */
  lemma {:induction false} DecodedLength(t: string)
    requires WellGrouped(t)
    ensures |Decoded(t)| == |t| / 4 * 3 - TrailingPads(t)
  {
    if t != "" {
      RestIsGrouped(t);
      PadsOfGroup(t[..4]);
      DecodedLength(t[4..]);
      if |t| > 4 {
        PadsOfRest(t);
        assert t[..4][2] != '=' && t[..4][3] != '=';
      } else {
        assert t[..4] == t;
      }
    }
  }

  /** The bits under the pads that no byte is made of are zero, as section 3.5 of RFC 4648 asks of encoders. */
  predicate SpareBitsZero(t: string) {
    var p := TrailingPads(t);
    (p == 1 && |t| >= 2 ==> Value(t[|t| - 2]) % 4 == 0) && (p == 2 && |t| >= 3 ==> Value(t[|t| - 3]) % 16 == 0)
  }

  lemma Fields(a: Sextet, b: Sextet, c: Sextet, d: Sextet)
    ensures var triple := a * 0x4_0000 + b * 0x1000 + c * 0x40 + d;
            && triple / 0x1_0000 % 0x100 == a * 4 + b / 16
            && triple / 0x100 % 0x100 == b % 16 * 16 + c / 4
            && triple % 0x100 == c % 4 * 64 + d
  {
    var x: Byte, y: Byte, z: Byte := a * 4 + b / 16, b % 16 * 16 + c / 4, c % 4 * 64 + d;
    assert a * 0x4_0000 + b * 0x1000 + c * 0x40 + d == x * 0x1_0000 + y * 0x100 + z;
    Bytes(x, y, z);
  }

  lemma Refold(a: Sextet, b: Sextet, c: Sextet, d: Sextet, x: Byte, y: Byte, z: Byte)
    requires x == a * 4 + b / 16 && y == b % 16 * 16 + c / 4 && z == c % 4 * 64 + d
    ensures x / 4 == a && x % 4 * 16 + y / 16 == b && y % 16 * 4 + z / 64 == c && z % 64 == d
    ensures (x % 4 * 16 == b <==> b % 16 == 0) && (y % 16 * 4 == c <==> c % 4 == 0)
  {
  }

  lemma SymbolIs(v: Sextet, c: char)
    requires IsSymbol(c)
    ensures Symbol(v) == c <==> v == Value(c)
  {
    ValueSymbol(c);
    SymbolValue(v);
  }

  /** A whole group is written back as it was. */
  lemma WholeGroup(g: string, more: seq<Byte>)
    requires |g| == 4 && Known(g) && '=' !in g
    ensures |GroupBytes(g)| == 3 && Encode(GroupBytes(g) + more) == g + Encode(more)
  {
    var a: int, b: int, c: int, d: int := Value(g[0]), Value(g[1]), Value(g[2]), Value(g[3]);
    var x: Byte, y: Byte, z: Byte := a * 4 + b / 16, b % 16 * 16 + c / 4, c % 4 * 64 + d;
    Fields(a, b, c, d);
    assert GroupBytes(g) == [x, y, z];
    Refold(a, b, c, d, x, y, z);
    QuadIs(g, x, y, z);
    assert ([x, y, z] + more)[3..] == more;
  }

  lemma QuadIs(g: string, x: Byte, y: Byte, z: Byte)
    requires |g| == 4 && forall i :: 0 <= i < 4 ==> IsSymbol(g[i])
    requires x / 4 == Value(g[0]) && x % 4 * 16 + y / 16 == Value(g[1]) && y % 16 * 4 + z / 64 == Value(g[2])
             && z % 64 == Value(g[3])
    ensures Quad(x, y, z) == g
  {
    ValueSymbol(g[0]);
    ValueSymbol(g[1]);
    ValueSymbol(g[2]);
    ValueSymbol(g[3]);
  }

  lemma OnePad(g: string)
    requires |g| == 4 && Known(g) && g[0] != '=' && g[1] != '=' && g[2] != '=' && g[3] == '='
    ensures |GroupBytes(g)| == 2 && (Encode(GroupBytes(g)) == g <==> Value(g[2]) % 4 == 0)
  {
    var a: int, b: int, c: int := Value(g[0]), Value(g[1]), Value(g[2]);
    var x: Byte, y: Byte, z: Byte := a * 4 + b / 16, b % 16 * 16 + c / 4, c % 4 * 64;
    Fields(a, b, c, 0);
    assert GroupBytes(g) == [x, y];
    Refold(a, b, c, 0, x, y, z);
    ValueSymbol(g[0]);
    ValueSymbol(g[1]);
    SymbolIs(y % 16 * 4, g[2]);
    assert g == [g[0], g[1], g[2], g[3]];
  }

  lemma TwoPads(g: string)
    requires |g| == 4 && Known(g) && g[0] != '=' && g[1] != '=' && g[2] == '=' && g[3] == '='
    ensures |GroupBytes(g)| == 1 && (Encode(GroupBytes(g)) == g <==> Value(g[1]) % 16 == 0)
  {
    var a: int, b: int := Value(g[0]), Value(g[1]);
    var x: Byte, y: Byte := a * 4 + b / 16, b % 16 * 16;
    Fields(a, b, 0, 0);
    assert GroupBytes(g) == [x];
    Refold(a, b, 0, 0, x, y, 0);
    ValueSymbol(g[0]);
    SymbolIs(x % 4 * 16, g[1]);
    assert g == [g[0], g[1], g[2], g[3]];
  }

  lemma SamePrefix(g: string, a: string, b: string)
    ensures g + a == g + b <==> a == b
  {
    assert (g + a)[|g|..] == a && (g + b)[|g|..] == b;
  }

  lemma EncodedLikeRest(t: string)
    requires WellGrouped(t) && |t| > 4
    ensures Encode(Decoded(t)) == t <==> Encode(Decoded(t[4..])) == t[4..]
  {
    RestIsGrouped(t);
    WholeGroup(t[..4], Decoded(t[4..]));
    SamePrefix(t[..4], Encode(Decoded(t[4..])), t[4..]);
    assert t == t[..4] + t[4..];
  }

  lemma SpareBitsOfRest(t: string)
    requires WellGrouped(t) && |t| > 4
    ensures SpareBitsZero(t) <==> SpareBitsZero(t[4..])
  {
    PadsOfRest(t);
    assert |t| >= 8;
  }

  /** What is accepted is the encoding of what it decodes to exactly when its spare bits are zero; other text
      of the right shape is accepted as well. */
  lemma {:induction false} CanonicalIff(t: string)
    requires WellGrouped(t)
    ensures Encode(Decoded(t)) == t <==> SpareBitsZero(t)
  {
    if |t| > 4 {
      RestIsGrouped(t);
      EncodedLikeRest(t);
      CanonicalIff(t[4..]);
      SpareBitsOfRest(t);
    } else if t != "" {
      RestIsGrouped(t);
      assert t[..4] == t && Decoded(t) == GroupBytes(t) + [];
      LastGroup(t);
    }
  }

  lemma LastGroup(g: string)
    requires |g| == 4 && Known(g) && GroupOk(g, 0)
    ensures Encode(GroupBytes(g)) == g <==> SpareBitsZero(g)
  {
    PadsOfGroup(g);
    if g[3] != '=' {
      WholeGroup(g, []);
      assert GroupBytes(g) + [] == GroupBytes(g);
    } else if g[2] != '=' {
      OnePad(g);
    } else {
      TwoPads(g);
    }
  }

  /** The text "QR==" is accepted and decodes to one byte, whose encoding is "QQ==". */
  lemma AcceptedButNotCanonical()
    ensures Acceptable("QR==") && Decoded("QR==") == [65] && Encode([65]) == "QQ=="
  {
    var t := "QR==";
    PadsAre(t, 2);
    assert t[..4] == t && t[4..] == "";
  }
}
