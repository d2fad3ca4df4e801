/** UTF-8 as section 4 of RFC 3629 defines it, and the answer `std::str::from_utf8` gives:
    how far the bytes are valid, and whether what follows is broken or merely cut short. */
module Utf8 {
  import opened Options

  type Byte = b: int | 0 <= b < 256

  type Bytes = seq<Byte>

  // ---------------------------------------------------------------- the encoding

  predicate IsScalar(c: int) {
    0 <= c < 0xD800 || 0xE000 <= c < 0x11_0000
  }

  type Scalar = c: int | 0 <= c < 0xD800 || 0xE000 <= c < 0x11_0000

  /** A continuation byte carrying the low six bits. */
  function Tail(x: nat): Byte {
    0x80 + x % 64
  }

  /** The bit distribution of section 3, written with quotients and remainders. */
  function Encode(c: Scalar): (r: Bytes)
    ensures 1 <= |r| <= 4
  {
    if c < 0x80 then var b: Byte := c; [b]
    else if c < 0x800 then var b: Byte := 0xC0 + c / 64; [b, Tail(c)]
    else if c < 0x1_0000 then var b: Byte := 0xE0 + c / 64 / 64; [b, Tail(c / 64), Tail(c)]
    else var b: Byte := 0xF0 + c / 64 / 64 / 64; [b, Tail(c / 64 / 64), Tail(c / 64), Tail(c)]
  }

  function EncodeAll(text: seq<Scalar>): Bytes {
    if text == [] then [] else Encode(text[0]) + EncodeAll(text[1..])
  }

  ghost predicate WellFormed(bytes: Bytes) {
    exists text :: EncodeAll(text) == bytes
  }

  // ---------------------------------------------------------------- one character

  predicate Continues(b: Byte) {
    0x80 <= b < 0xC0
  }

  /** Which second bytes the syntax allows after a first byte of a longer form. */
  predicate SecondAllowed(first: Byte, second: Byte) {
    Continues(second) && (first == 0xE0 ==> second >= 0xA0) && (first == 0xED ==> second < 0xA0)
    && (first == 0xF0 ==> second >= 0x90) && (first == 0xF4 ==> second < 0x90)
  }

  /** How many bytes a first byte announces; zero for a byte that starts nothing. */
  function Width(first: Byte): nat {
    if first < 0x80 then 1
    else if 0xC2 <= first < 0xE0 then 2
    else if 0xE0 <= first < 0xF0 then 3
    else if 0xF0 <= first < 0xF5 then 4
    else 0
  }

  /** The first character of some bytes: whole, cut short by the end, or broken after `length` bytes. */
  datatype Step = Whole(length: nat) | CutShort | Broken(length: nat)

  function FirstStep(bytes: Bytes): (s: Step)
    requires bytes != []
    ensures s.Whole? ==> 1 <= s.length <= |bytes| && s.length == Width(bytes[0])
    ensures s.Broken? ==> 1 <= s.length <= |bytes|
    ensures s.CutShort? ==> |bytes| < Width(bytes[0])
  {
    var width := Width(bytes[0]);
    if width == 0 then Broken(1)
    else if width == 1 then Whole(1)
    else if |bytes| < 2 then CutShort
    else if !SecondAllowed(bytes[0], bytes[1]) then Broken(1)
    else if width == 2 then Whole(2)
    else if |bytes| < 3 then CutShort
    else if !Continues(bytes[2]) then Broken(2)
    else if width == 3 then Whole(3)
    else if |bytes| < 4 then CutShort
    else if !Continues(bytes[3]) then Broken(3)
    else Whole(4)
  }

  /** `from_utf8`: the error carries `valid_up_to` and, unless the input was cut short, `error_len`. */
  datatype Validity = Valid | Invalid(validUpTo: nat, errorLen: Option<nat>)

  function Shift(offset: nat, v: Validity): Validity {
    match v case Valid => Valid case Invalid(upTo, len) => Invalid(offset + upTo, len)
  }

  function FromUtf8(bytes: Bytes): (v: Validity)
    ensures v.Invalid? ==> v.validUpTo < |bytes|
  {
    if bytes == [] then Valid else
    match FirstStep(bytes)
    case Whole(n) => Shift(n, FromUtf8(bytes[n..]))
    case CutShort => Invalid(0, None)
    case Broken(n) => Invalid(0, Some(n))
  }

  // ---------------------------------------------------------------- agreement with the RFC

  /** One more six-bit digit. */
  function Digit(high: int, b: Byte): int {
    high * 64 + (b as int - 0x80)
  }

  lemma DigitUndone(high: int, b: Byte)
    requires Continues(b)
    ensures Digit(high, b) / 64 == high && 0x80 + Digit(high, b) % 64 == b
  {
  }

  /** The number a whole first character denotes. */
  function DecodeFirst(bytes: Bytes): int
    requires bytes != [] && FirstStep(bytes).Whole?
  {
    var first: int := bytes[0];
    match FirstStep(bytes).length
    case 1 => first
    case 2 => Digit(first - 0xC0, bytes[1])
    case 3 => Digit(Digit(first - 0xE0, bytes[1]), bytes[2])
    case _ => Digit(Digit(Digit(first - 0xF0, bytes[1]), bytes[2]), bytes[3])
  }

  lemma DecodeTwo(bytes: Bytes)
    requires bytes != [] && FirstStep(bytes) == Whole(2)
    ensures IsScalar(DecodeFirst(bytes)) && Encode(DecodeFirst(bytes)) == bytes[..2]
  {
    DigitUndone(bytes[0] as int - 0xC0, bytes[1]);
  }

  lemma DecodeThree(bytes: Bytes)
    requires bytes != [] && FirstStep(bytes) == Whole(3)
    ensures IsScalar(DecodeFirst(bytes)) && Encode(DecodeFirst(bytes)) == bytes[..3]
  {
    var high := Digit(bytes[0] as int - 0xE0, bytes[1]);
    DigitUndone(bytes[0] as int - 0xE0, bytes[1]);
    DigitUndone(high, bytes[2]);
  }

  lemma DecodeFour(bytes: Bytes)
    requires bytes != [] && FirstStep(bytes) == Whole(4)
    ensures IsScalar(DecodeFirst(bytes)) && Encode(DecodeFirst(bytes)) == bytes[..4]
  {
    var high := Digit(bytes[0] as int - 0xF0, bytes[1]);
    DigitUndone(bytes[0] as int - 0xF0, bytes[1]);
    DigitUndone(high, bytes[2]);
    DigitUndone(Digit(high, bytes[2]), bytes[3]);
  }

  lemma DecodeThenEncode(bytes: Bytes)
    requires bytes != [] && FirstStep(bytes).Whole?
    ensures IsScalar(DecodeFirst(bytes))
    ensures Encode(DecodeFirst(bytes)) == bytes[..FirstStep(bytes).length]
  {
    var n := FirstStep(bytes).length;
    if n == 2 {
      DecodeTwo(bytes);
    } else if n == 3 {
      DecodeThree(bytes);
    } else if n == 4 {
      DecodeFour(bytes);
    }
  }

  /** An encoded scalar is read as one whole character, whatever follows, and every proper prefix is cut short. */
  lemma EncodedIsWhole(c: Scalar, rest: Bytes)
    ensures FirstStep(Encode(c) + rest) == Whole(|Encode(c)|)
  {
    var e := Encode(c) + rest;
    assert forall i :: 0 <= i < |Encode(c)| ==> e[i] == Encode(c)[i];
  }

  lemma PrefixIsCutShort(c: Scalar, k: nat)
    requires 0 < k < |Encode(c)|
    ensures FirstStep(Encode(c)[..k]) == CutShort
  {
    EncodedIsWhole(c, []);
    assert Encode(c) + [] == Encode(c);
  }

  /** The bytes that complete a cut-short character. */
  lemma CutShortCompletes(bytes: Bytes) returns (c: Scalar)
    requires bytes != [] && FirstStep(bytes) == CutShort
    ensures |bytes| < |Encode(c)| && Encode(c)[..|bytes|] == bytes
  {
    var second: Byte := if bytes[0] == 0xE0 then 0xA0 else if bytes[0] == 0xF0 then 0x90 else 0x80;
    var filler: Bytes := if |bytes| == 1 then [second, 0x80, 0x80] else [0x80, 0x80, 0x80];
    var full := (bytes + filler)[..Width(bytes[0])];
    assert FirstStep(full) == Whole(|full|);
    DecodeThenEncode(full);
    c := DecodeFirst(full);
    assert full[..|full|] == full && full[..|bytes|] == bytes;
  }

  /** Some bytes are cut short exactly when they are a nonempty proper prefix of one encoded scalar. */
  lemma CutShortIff(bytes: Bytes)
    requires bytes != []
    ensures FirstStep(bytes) == CutShort <==>
            exists c: Scalar :: |bytes| < |Encode(c)| && Encode(c)[..|bytes|] == bytes
  {
    if FirstStep(bytes) == CutShort {
      var c := CutShortCompletes(bytes);
    }
    if c: Scalar :| |bytes| < |Encode(c)| && Encode(c)[..|bytes|] == bytes {
      PrefixIsCutShort(c, |bytes|);
    }
  }

  /** A nonempty proper prefix of one encoded scalar. */
  ghost predicate StartsCharacter(bytes: Bytes) {
    bytes != [] && exists c: Scalar :: |bytes| < |Encode(c)| && Encode(c)[..|bytes|] == bytes
  }

  /** The length reported with an error is that of the longest start of a character there, at least one byte. */
  lemma ErrorIsLongestStart(bytes: Bytes)
    requires bytes != [] && FirstStep(bytes).Broken?
    ensures var n := FirstStep(bytes).length;
            (n > 1 ==> StartsCharacter(bytes[..n])) && forall k :: n < k <= |bytes| ==> !StartsCharacter(bytes[..k])
  {
    var n := FirstStep(bytes).length;
    forall k | 0 < k <= |bytes| ensures StartsCharacter(bytes[..k]) <==> FirstStep(bytes[..k]) == CutShort {
      CutShortIff(bytes[..k]);
    }
    forall k | n < k <= |bytes| ensures FirstStep(bytes[..k]) != CutShort {
      BrokenInside(bytes, k);
    }
    if n > 1 {
      assert forall i :: 0 <= i < n ==> bytes[..n][i] == bytes[i];
      assert FirstStep(bytes[..n]) == CutShort;
    }
  }

  lemma BrokenInside(bytes: Bytes, k: nat)
    requires bytes != [] && FirstStep(bytes).Broken? && FirstStep(bytes).length < k <= |bytes|
    ensures FirstStep(bytes[..k]).Broken?
  {
    assert forall i :: 0 <= i < k ==> bytes[..k][i] == bytes[i];
  }

  lemma {:induction false} EncodedIsValid(text: seq<Scalar>)
    ensures FromUtf8(EncodeAll(text)) == Valid
  {
    if text != [] {
      var rest := EncodeAll(text[1..]);
      EncodedIsWhole(text[0], rest);
      assert (Encode(text[0]) + rest)[|Encode(text[0])|..] == rest;
      EncodedIsValid(text[1..]);
    }
  }

  lemma EncodePrepended(c: Scalar, text: seq<Scalar>)
    ensures EncodeAll([c] + text) == Encode(c) + EncodeAll(text)
  {
    assert ([c] + text)[1..] == text;
  }

  lemma FirstIsEncoded(bytes: Bytes) returns (c: Scalar, more: Bytes)
    requires bytes != [] && FromUtf8(bytes) == Valid
    ensures bytes == Encode(c) + more && FromUtf8(more) == Valid
  {
    DecodeThenEncode(bytes);
    c, more := DecodeFirst(bytes), bytes[FirstStep(bytes).length..];
  }

  lemma {:induction false} ValidIsEncoded(bytes: Bytes) returns (text: seq<Scalar>)
    requires FromUtf8(bytes) == Valid
    ensures EncodeAll(text) == bytes
  {
    if bytes == [] {
      text := [];
    } else {
      var c, more := FirstIsEncoded(bytes);
      var rest := ValidIsEncoded(more);
      EncodePrepended(c, rest);
      text := [c] + rest;
    }
  }

  /** The validator accepts exactly the encodings of sequences of scalar values. */
  lemma ValidIffWellFormed(bytes: Bytes)
    ensures FromUtf8(bytes) == Valid <==> WellFormed(bytes)
  {
    if FromUtf8(bytes) == Valid {
      var text := ValidIsEncoded(bytes);
    }
    if text :| EncodeAll(text) == bytes {
      EncodedIsValid(text);
    }
  }

  // ---------------------------------------------------------------- growing the input

  /** A step that is decided stays decided when bytes are appended. */
  lemma StepIsStable(bytes: Bytes, more: Bytes)
    requires bytes != [] && !FirstStep(bytes).CutShort?
    ensures FirstStep(bytes + more) == FirstStep(bytes)
  {
    var all := bytes + more;
    assert forall i :: 0 <= i < |bytes| ==> all[i] == bytes[i];
  }

  lemma SliceOfConcat(bytes: Bytes, more: Bytes, n: nat)
    requires n <= |bytes|
    ensures (bytes + more)[n..] == bytes[n..] + more
  {
  }

  lemma SliceTwice(bytes: Bytes, n: nat, k: nat)
    requires n + k <= |bytes|
    ensures bytes[..n + k] == bytes[..n] + bytes[n..][..k] && bytes[n + k..] == bytes[n..][k..]
  {
  }

  /** After valid bytes, the verdict on the whole is the shifted verdict on the rest. */
  lemma {:induction false} ValidThen(bytes: Bytes, more: Bytes)
    requires FromUtf8(bytes) == Valid
    ensures FromUtf8(bytes + more) == Shift(|bytes|, FromUtf8(more))
  {
    if bytes == [] {
      assert bytes + more == more;
    } else {
      var n := FirstStep(bytes).length;
      StepIsStable(bytes, more);
      SliceOfConcat(bytes, more, n);
      ValidThen(bytes[n..], more);
    }
  }

  /** The bytes before the failure are valid, and the failure is reported at their end. */
  lemma {:induction false} ValidUpTo(bytes: Bytes)
    requires FromUtf8(bytes).Invalid?
    ensures var v := FromUtf8(bytes);
            && FromUtf8(bytes[..v.validUpTo]) == Valid
            && FromUtf8(bytes[v.validUpTo..]) == Invalid(0, v.errorLen)
  {
    match FirstStep(bytes)
    case Whole(n) =>
      var rest, v := bytes[n..], FromUtf8(bytes[n..]);
      ValidUpTo(rest);
      WholeAlone(bytes, n);
      ValidThen(bytes[..n], rest[..v.validUpTo]);
      SliceTwice(bytes, n, v.validUpTo);
    case CutShort => assert bytes[0..] == bytes;
    case Broken(_) => assert bytes[0..] == bytes;
  }

  lemma WholeAlone(bytes: Bytes, n: nat)
    requires bytes != [] && FirstStep(bytes) == Whole(n)
    ensures FromUtf8(bytes[..n]) == Valid
  {
    assert FirstStep(bytes[..n]) == Whole(n);
    assert bytes[..n][n..] == [];
  }

  lemma Regrouped(bytes: Bytes, n: nat, more: Bytes)
    requires n <= |bytes|
    ensures bytes + more == bytes[..n] + (bytes[n..] + more)
  {
  }

  lemma BrokenAtOnce(bad: Bytes, more: Bytes)
    requires FromUtf8(bad).Invalid? && FromUtf8(bad).validUpTo == 0 && FromUtf8(bad).errorLen.Some?
    ensures FromUtf8(bad + more) == FromUtf8(bad)
  {
    StepIsStable(bad, more);
  }

  /** Broken bytes stay broken, whatever is appended. */
  lemma BrokenStays(bytes: Bytes, more: Bytes)
    requires FromUtf8(bytes).Invalid? && FromUtf8(bytes).errorLen.Some?
    ensures FromUtf8(bytes + more) == FromUtf8(bytes)
  {
    var v := FromUtf8(bytes);
    ValidUpTo(bytes);
    var good, bad := bytes[..v.validUpTo], bytes[v.validUpTo..];
    ValidThen(good, bad + more);
    BrokenAtOnce(bad, more);
    Regrouped(bytes, v.validUpTo, more);
  }
}
