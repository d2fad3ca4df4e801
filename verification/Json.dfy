/** Flat JSON objects of strings and nulls as `serde_json` writes them compactly, and a reader by RFC 8259 that
    gives the fields back. Strings here are byte strings, one char a byte. */
module Json {
  import opened Options
  import opened Numerals

  datatype Field = Field(key: string, value: Option<string>)

  // ---------------------------------------------------------------- writing

  /** One byte of a string. */
  function Escape(c: char): string {
    if c == '\"' || c == '\\' then ['\\', c]
    else if c == '\n' then "\\n"
    else if c == '\r' then "\\r"
    else if c == '\t' then "\\t"
    else if c == 8 as char then "\\b"
    else if c == 12 as char then "\\f"
    else if c < ' ' then ['\\', 'u', '0', '0', DigitChar((c as int) / 16), DigitChar((c as int) % 16)]
    else [c]
  }

  function EscapeAll(s: string): string {
    if s == "" then "" else Escape(s[0]) + EscapeAll(s[1..])
  }

  function Quote(s: string): string {
    ['\"'] + (EscapeAll(s) + ['\"'])
  }

  function Nullable(s: Option<string>): string {
    match s case None => "null" case Some(text) => Quote(text)
  }

  function Member(f: Field): string {
    Quote(f.key) + ([':'] + Nullable(f.value))
  }

  function Members(write: Field -> string, fields: seq<Field>): string {
    if fields == [] then ""
    else if |fields| == 1 then write(fields[0])
    else write(fields[0]) + ([','] + Members(write, fields[1..]))
  }

  function Object(fields: seq<Field>): string {
    ['{'] + (Members(Member, fields) + ['}'])
  }

  // ---------------------------------------------------------------- reading

  predicate IsHex(c: char) {
    '0' <= c <= '9' || 'a' <= c <= 'f' || 'A' <= c <= 'F'
  }

  function HexDigit(c: char): nat {
    if '0' <= c <= '9' then (c - '0') as nat
    else if 'a' <= c <= 'f' then 10 + (c - 'a') as nat
    else if 'A' <= c <= 'F' then 10 + (c - 'A') as nat
    else 0
  }

  /** What stands after a backslash: the byte it stands for and how many bytes it takes. Escaped code points above
      one byte, which nothing here writes, are not read. */
  function Unescape(t: string): Option<(char, nat)> {
    if t == "" then None
    else if t[0] == '\"' || t[0] == '\\' || t[0] == '/' then Some((t[0], 1))
    else if t[0] == 'b' then Some((8 as char, 1))
    else if t[0] == 'f' then Some((12 as char, 1))
    else if t[0] == 'n' then Some((10 as char, 1))
    else if t[0] == 'r' then Some((13 as char, 1))
    else if t[0] == 't' then Some((9 as char, 1))
    else if t[0] == 'u' && |t| >= 5 && t[1] == '0' && t[2] == '0' && IsHex(t[3]) && IsHex(t[4]) then
      Some(((HexDigit(t[3]) * 16 + HexDigit(t[4])) as char, 5))
    else None
  }

  /** A string's contents up to its closing quote, and what follows it. */
  function ReadChars(t: string): Option<(string, string)>
    decreases |t|
  {
    if t == "" || t[0] < ' ' then None
    else if t[0] == '\"' then Some(("", t[1..]))
    else if t[0] == '\\' then
      match Unescape(t[1..])
      case None => None
      case Some((c, n)) => if n < |t| then Before(c, ReadChars(t[n + 1..])) else None
    else Before(t[0], ReadChars(t[1..]))
  }

  function Before(c: char, read: Option<(string, string)>): Option<(string, string)> {
    match read case None => None case Some((s, rest)) => Some(([c] + s, rest))
  }

  function ReadString(t: string): (r: Option<(string, string)>)
  {
    if t == "" || t[0] != '\"' then None else ReadChars(t[1..])
  }

  function ReadValue(t: string): Option<(Option<string>, string)> {
    if "null" <= t then Some((None, t[4..]))
    else match ReadString(t) case None => None case Some((s, rest)) => Some((Some(s), rest))
  }

  function ReadMember(t: string): Option<(Field, string)> {
    match ReadString(t)
    case None => None
    case Some((key, more)) =>
      if more == "" || more[0] != ':' then None
      else match ReadValue(more[1..]) case None => None case Some((value, rest)) => Some((Field(key, value), rest))
  }

  /** What reads one member off a text and leaves the rest. */
  type Reader = string -> Option<(Field, string)>

  /** Members up to the closing brace, which ends the text. */
  function ReadMembers(read: Reader, t: string, fuel: nat): Option<seq<Field>>
    decreases fuel
  {
    if fuel == 0 then None else
    match read(t)
    case None => None
    case Some((f, rest)) =>
      if rest == "}" then Some([f])
      else if rest == "" || rest[0] != ',' then None
      else match ReadMembers(read, rest[1..], fuel - 1) case None => None case Some(more) => Some([f] + more)
  }

  function ReadObject(t: string): Option<seq<Field>> {
    if t == "{}" then Some([])
    else if t == "" || t[0] != '{' then None
    else ReadMembers(ReadMember, t[1..], |t|)
  }

  // ---------------------------------------------------------------- round trip

  lemma PairReads(c: char, e: char, more: string)
    requires Unescape([e] + more) == Some((c, 1))
    ensures ReadChars(['\\', e] + more) == Before(c, ReadChars(more))
  {
    var t := ['\\', e] + more;
    assert t[1..] == [e] + more && t[2..] == more;
  }

  lemma CodeReads(c: char, more: string)
    requires c < ' '
    ensures ReadChars(['\\', 'u', '0', '0', DigitChar((c as int) / 16), DigitChar((c as int) % 16)] + more)
            == Before(c, ReadChars(more))
  {
    var code := ['u', '0', '0', DigitChar((c as int) / 16), DigitChar((c as int) % 16)] + more;
    HexOfDigit((c as int) / 16);
    HexOfDigit((c as int) % 16);
    assert Unescape(code) == Some((c, 5));
    var t := ['\\'] + code;
    assert t[1..] == code && t[6..] == more;
    assert ['\\', 'u', '0', '0', DigitChar((c as int) / 16), DigitChar((c as int) % 16)] + more == t;
  }

  lemma EscapeReads(c: char, more: string)
    requires c as int < 256
    ensures ReadChars(Escape(c) + more) == Before(c, ReadChars(more))
  {
    if |Escape(c)| == 1 {
      assert ([c] + more)[1..] == more;
    } else if |Escape(c)| == 2 {
      PairReads(c, Escape(c)[1], more);
    } else {
      CodeReads(c, more);
    }
  }

  lemma HexOfDigit(d: nat)
    requires d < 16
    ensures IsHex(DigitChar(d)) && HexDigit(DigitChar(d)) == d
  {
  }

  /** Bytes, one char each. */
  predicate IsBytes(s: string) {
    forall i :: 0 <= i < |s| ==> s[i] as int < 256
  }

  lemma {:induction false} CharsRead(s: string, rest: string)
    requires IsBytes(s)
    ensures ReadChars(EscapeAll(s) + (['\"'] + rest)) == Some((s, rest))
  {
    var tail := ['\"'] + rest;
    if s == "" {
      assert "" + tail == tail && tail[1..] == rest;
    } else {
      CharsRead(s[1..], rest);
      EscapeReads(s[0], EscapeAll(s[1..]) + tail);
      Regrouped(Escape(s[0]), EscapeAll(s[1..]), tail);
      assert [s[0]] + s[1..] == s;
    }
  }

  lemma Regrouped(a: string, b: string, c: string)
    ensures a + b + c == a + (b + c)
  {
  }

  lemma StringReads(s: string, rest: string)
    requires IsBytes(s)
    ensures ReadString(Quote(s) + rest) == Some((s, rest))
  {
    CharsRead(s, rest);
    assert (Quote(s) + rest)[1..] == EscapeAll(s) + (['\"'] + rest);
  }

  predicate IsBytesField(f: Field) {
    IsBytes(f.key) && (f.value.Some? ==> IsBytes(f.value.value))
  }

  lemma ValueReads(v: Option<string>, rest: string)
    requires v.Some? ==> IsBytes(v.value)
    ensures ReadValue(Nullable(v) + rest) == Some((v, rest))
  {
    if v.Some? {
      StringReads(v.value, rest);
      assert (Nullable(v) + rest)[0] == '\"' && "null"[0] == 'n';
    } else {
      assert ("null" + rest)[4..] == rest;
    }
  }

  lemma MemberReads(f: Field, rest: string)
    requires IsBytesField(f)
    ensures ReadMember(Member(f) + rest) == Some((f, rest))
  {
    var value := [':'] + Nullable(f.value);
    StringReads(f.key, value + rest);
    ValueReads(f.value, rest);
    Regrouped(Quote(f.key), value, rest);
    Regrouped([':'], Nullable(f.value), rest);
    assert ([':'] + (Nullable(f.value) + rest))[1..] == Nullable(f.value) + rest;
  }

  /** Reading undoes writing, whatever follows. */
  ghost predicate Undoes(read: Reader, write: Field -> string, f: Field) {
    forall rest :: read(write(f) + rest) == Some((f, rest))
  }

  lemma ReadsLast(read: Reader, write: Field -> string, f: Field, fuel: nat)
    requires Undoes(read, write, f) && fuel > 0
    ensures ReadMembers(read, write(f) + "}", fuel) == Some([f])
  {
  }

  lemma ReadsMore(read: Reader, write: Field -> string, f: Field, more: string, fields: seq<Field>, fuel: nat)
    requires Undoes(read, write, f) && fuel > 0 && ReadMembers(read, more, fuel - 1) == Some(fields)
    ensures ReadMembers(read, write(f) + ([','] + more), fuel) == Some([f] + fields)
  {
    assert ([','] + more)[0] == ',' && ([','] + more)[1..] == more;
  }

  lemma {:induction false} MembersRead(read: Reader, write: Field -> string, fields: seq<Field>, fuel: nat)
    requires fields != [] && fuel >= |fields| && forall f :: f in fields ==> Undoes(read, write, f)
    ensures ReadMembers(read, Members(write, fields) + "}", fuel) == Some(fields)
  {
    assert fields[0] in fields;
    if |fields| == 1 {
      ReadsLast(read, write, fields[0], fuel);
      assert [fields[0]] == fields;
    } else {
      var more := Members(write, fields[1..]);
      MembersRead(read, write, fields[1..], fuel - 1);
      ReadsMore(read, write, fields[0], more + "}", fields[1..], fuel);
      Regrouped(write(fields[0]), [','] + more, "}");
      Regrouped([','], more, "}");
      assert [fields[0]] + fields[1..] == fields;
    }
  }

  lemma {:induction false} MembersAreLong(write: Field -> string, fields: seq<Field>)
    requires forall f :: f in fields ==> write(f) != ""
    ensures |Members(write, fields)| >= |fields|
  {
    if |fields| > 1 {
      MembersAreLong(write, fields[1..]);
    }
  }

  /** Reading what was written gives the fields back, whatever bytes they hold. */
  lemma ObjectReads(fields: seq<Field>)
    requires forall f :: f in fields ==> IsBytesField(f)
    ensures ReadObject(Object(fields)) == Some(fields)
  {
    if fields != [] {
      MembersAreLong(Member, fields);
      forall f | f in fields ensures Undoes(ReadMember, Member, f) {
        forall rest ensures ReadMember(Member(f) + rest) == Some((f, rest)) {
          MemberReads(f, rest);
        }
      }
      MembersRead(ReadMember, Member, fields, |Object(fields)|);
      assert Object(fields)[1..] == Members(Member, fields) + "}";
      assert |Object(fields)| > 2;
    }
  }

  // ---------------------------------------------------------------- one line

  lemma EscapeHasNoControl(c: char)
    ensures forall i :: 0 <= i < |Escape(c)| ==> Escape(c)[i] >= ' '
  {
  }

  lemma {:induction false} EscapeAllHasNoControl(s: string)
    ensures forall i :: 0 <= i < |EscapeAll(s)| ==> EscapeAll(s)[i] >= ' '
  {
    if s != "" {
      EscapeHasNoControl(s[0]);
      EscapeAllHasNoControl(s[1..]);
    }
  }

  predicate OneLine(t: string) {
    forall i :: 0 <= i < |t| ==> t[i] >= ' '
  }

  lemma MemberIsOneLine(f: Field)
    ensures OneLine(Member(f))
  {
    EscapeAllHasNoControl(f.key);
    if f.value.Some? {
      EscapeAllHasNoControl(f.value.value);
    }
  }

  lemma {:induction false} MembersAreOneLine(write: Field -> string, fields: seq<Field>)
    requires forall f :: f in fields ==> OneLine(write(f))
    ensures OneLine(Members(write, fields))
  {
    if fields != [] {
      assert fields[0] in fields;
      MembersAreOneLine(write, fields[1..]);
    }
  }

  /** No line break and no other control character stands in what is written, so one object is one line. */
  lemma ObjectIsOneLine(fields: seq<Field>)
    ensures OneLine(Object(fields))
  {
    forall f | f in fields ensures OneLine(Member(f)) {
      MemberIsOneLine(f);
    }
    MembersAreOneLine(Member, fields);
  }

  // ---------------------------------------------------------------- how long

  /** Letters, digits, dashes and underscores are written as they are. */
  predicate Unescaped(s: string) {
    forall i :: 0 <= i < |s| ==> IsDigit(s[i]) || 'a' <= s[i] <= 'z' || s[i] == '-' || s[i] == '_'
  }

  lemma {:induction false} UnescapedQuote(s: string)
    requires Unescaped(s)
    ensures EscapeAll(s) == s && |Quote(s)| == |s| + 2
  {
    if s != "" {
      UnescapedQuote(s[1..]);
      assert s == [s[0]] + s[1..];
    }
  }

  function Total(size: Field -> nat, fields: seq<Field>): nat {
    if fields == [] then 0 else size(fields[0]) + Total(size, fields[1..])
  }

  lemma {:induction false} MembersLength(write: Field -> string, size: Field -> nat, fields: seq<Field>)
    requires fields != [] && forall f :: f in fields ==> |write(f)| == size(f)
    ensures |Members(write, fields)| == Total(size, fields) + |fields| - 1
  {
    assert fields[0] in fields;
    if |fields| > 1 {
      MembersLength(write, size, fields[1..]);
    } else {
      assert fields[1..] == [];
    }
  }

  /** A key, its value, two quotes and a colon. */
  function MemberSize(f: Field): nat {
    |f.key| + 3 + |Nullable(f.value)|
  }

  lemma ObjectLength(fields: seq<Field>)
    requires fields != [] && forall f :: f in fields ==> Unescaped(f.key)
    ensures |Object(fields)| == Total(MemberSize, fields) + |fields| + 1
  {
    forall f | f in fields ensures |Member(f)| == MemberSize(f) {
      UnescapedQuote(f.key);
    }
    MembersLength(Member, MemberSize, fields);
  }

  lemma TotalFrom(size: Field -> nat, a: Field, rest: seq<Field>)
    ensures Total(size, [a] + rest) == size(a) + Total(size, rest)
  {
    assert ([a] + rest)[1..] == rest;
  }

  lemma TotalOfSix(size: Field -> nat, a: Field, b: Field, c: Field, d: Field, e: Field, f: Field)
    ensures Total(size, [a, b, c, d, e, f]) == size(a) + size(b) + size(c) + size(d) + size(e) + size(f)
  {
    TotalFrom(size, a, [b, c, d, e, f]);
    TotalFrom(size, b, [c, d, e, f]);
    TotalFrom(size, c, [d, e, f]);
    TotalFrom(size, d, [e, f]);
    TotalFrom(size, e, [f]);
    TotalFrom(size, f, []);
    assert [a] + [b, c, d, e, f] == [a, b, c, d, e, f] && [b] + [c, d, e, f] == [b, c, d, e, f];
    assert [c] + [d, e, f] == [c, d, e, f] && [d] + [e, f] == [d, e, f] && [e] + [f] == [e, f] && [f] + [] == [f];
  }

  lemma LengthOfSix(f: seq<Field>)
    requires |f| == 6 && forall i :: 0 <= i < 6 ==> Unescaped(f[i].key)
    ensures |Object(f)| == MemberSize(f[0]) + MemberSize(f[1]) + MemberSize(f[2]) + MemberSize(f[3]) + MemberSize(f[4])
                           + MemberSize(f[5]) + 7
  {
    ObjectLength(f);
    TotalOfSix(MemberSize, f[0], f[1], f[2], f[3], f[4], f[5]);
    assert f == [f[0], f[1], f[2], f[3], f[4], f[5]];
  }

  lemma LengthOfSeven(f: seq<Field>)
    requires |f| == 7 && forall i :: 0 <= i < 7 ==> Unescaped(f[i].key)
    ensures |Object(f)| == MemberSize(f[0]) + MemberSize(f[1]) + MemberSize(f[2]) + MemberSize(f[3]) + MemberSize(f[4])
                           + MemberSize(f[5]) + MemberSize(f[6]) + 8
  {
    ObjectLength(f);
    TotalOfSix(MemberSize, f[1], f[2], f[3], f[4], f[5], f[6]);
    assert f[1..] == [f[1], f[2], f[3], f[4], f[5], f[6]];
  }
}
