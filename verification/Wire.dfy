/**
  Bytes on the wire: big-endian numbers, UTF-8 validity, and the readers that
  take one field off the front of a byte string.
 */
module Wire {
  import opened Base

  const U16_LIMIT: nat := 0x1_0000
  const U32_LIMIT: nat := 0x1_0000_0000

  type U32 = n: nat | n < U32_LIMIT

  // ----- Big-endian numbers -----

  /** The low `n` bytes of `v`, most significant first; higher bits are cut off. */
  function BE(n: nat, v: nat): (s: Bytes)
    ensures |s| == n
  {
    if n == 0 then [] else BE(n - 1, v / 256) + [v % 256]
  }

  function FromBE(s: Bytes): nat {
    if s == [] then 0 else FromBE(s[..|s| - 1]) * 256 + s[|s| - 1]
  }

  function Pow256(n: nat): nat {
    if n == 0 then 1 else Pow256(n - 1) * 256
  }

  lemma {:induction false} NumberRoundTrip(n: nat, v: nat)
    requires v < Pow256(n)
    ensures FromBE(BE(n, v)) == v
  {
    if n > 0 {
      NumberRoundTrip(n - 1, v / 256);
      assert BE(n, v)[..n - 1] == BE(n - 1, v / 256);
    }
  }

  lemma {:induction false} BytesRoundTrip(s: Bytes)
    ensures FromBE(s) < Pow256(|s|)
    ensures BE(|s|, FromBE(s)) == s
  {
    if s != [] {
      BytesRoundTrip(s[..|s| - 1]);
      assert s == s[..|s| - 1] + [s[|s| - 1]];
    }
  }

  lemma Widths()
    ensures Pow256(1) == 256 && Pow256(2) == U16_LIMIT && Pow256(4) == U32_LIMIT && Pow256(8) == U64_MAX + 1
  {
    assert Pow256(3) == 0x100_0000;
    assert Pow256(5) == 0x100_0000_0000;
    assert Pow256(6) == 0x1_0000_0000_0000;
    assert Pow256(7) == 0x100_0000_0000_0000;
  }

  // ----- Text -----

  predicate InRange(b: Byte, lo: int, hi: int) {
    lo <= b <= hi
  }

  predicate IsTail(b: Byte) {
    InRange(b, 0x80, 0xBF)
  }

  /** The length of the UTF-8 character at the front (section 4 of RFC 3629), or 0 if there is none. */
  function CharLength(s: Bytes): nat
    ensures CharLength(s) <= |s|
  {
    if |s| >= 1 && s[0] <= 0x7F then 1
    else if |s| >= 2 && InRange(s[0], 0xC2, 0xDF) && IsTail(s[1]) then 2
    else if |s| >= 3 && IsTail(s[2]) &&
            ( (s[0] == 0xE0 && InRange(s[1], 0xA0, 0xBF))
              || (InRange(s[0], 0xE1, 0xEC) && IsTail(s[1]))
              || (s[0] == 0xED && InRange(s[1], 0x80, 0x9F))
              || (InRange(s[0], 0xEE, 0xEF) && IsTail(s[1]))) then 3
    else if |s| >= 4 && IsTail(s[2]) && IsTail(s[3]) &&
            ( (s[0] == 0xF0 && InRange(s[1], 0x90, 0xBF))
              || (InRange(s[0], 0xF1, 0xF3) && IsTail(s[1]))
              || (s[0] == 0xF4 && InRange(s[1], 0x80, 0x8F))) then 4
    else 0
  }

  predicate ValidUtf8(s: Bytes) {
    s == [] || (CharLength(s) > 0 && ValidUtf8(s[CharLength(s)..]))
  }

  predicate Alphanumeric(b: Byte) {
    InRange(b, 48, 57) || InRange(b, 65, 90) || InRange(b, 97, 122)
  }

  predicate ValidNamespace(s: Text) {
    s != [] && forall i :: 0 <= i < |s| ==> Alphanumeric(s[i]) || s[i] == 45 || s[i] == 95
  }

  predicate ValidTag(s: Text) {
    s != [] && forall i :: 0 <= i < |s| ==>
      Alphanumeric(s[i]) || s[i] == 45 || s[i] == 95 || InRange(s[i], 46, 47) || s[i] == 58
  }

  /** The bytes of a plain text. */
  function Ascii(s: string): Text {
    seq(|s|, i requires 0 <= i < |s| => (s[i] as int) % 128)
  }

  lemma {:induction false} AsciiIsUtf8(s: Bytes)
    requires forall i :: 0 <= i < |s| ==> s[i] <= 0x7F
    ensures ValidUtf8(s)
  {
    if s != [] {
      assert CharLength(s) == 1;
      AsciiIsUtf8(s[1..]);
    }
  }

  lemma NamesAreUtf8(s: Text)
    ensures ValidNamespace(s) || ValidTag(s) ==> ValidUtf8(s)
  {
    if ValidNamespace(s) || ValidTag(s) {
      AsciiIsUtf8(s);
    }
  }

  // ----- Errors -----

  datatype DecodeError =
    | IncompleteHeader
    | BadMagic
    | UnsupportedVersion(version: Byte)
    | InvalidKind(kind: Byte)
    | UnknownCommand(id: Byte)
    | NonzeroFlags(flags: Byte)
    | NonzeroReserved(reserved: nat)
    | FrameTooLarge(payloadLen: nat, max: nat)
    | TruncatedPayload(expected: nat, actual: nat)
    | InvalidPayload(reason: string)
    | InvalidUtf8
    | InvalidNamespace
    | InvalidTag
    | InvalidBool(found: Byte)
    | TrailingBytes(count: nat)

  /** One field read off the front, and what is left. */
  type Parse<+T> = Result<(T, Bytes), DecodeError>

  // ----- Field readers -----

  function ReadU8(s: Bytes): Parse<Byte> {
    if s == [] then Err(InvalidPayload("truncated u8")) else Ok((s[0], s[1..]))
  }

  function ReadExact(s: Bytes, n: nat): Parse<Bytes> {
    if n > |s| then Err(InvalidPayload("truncated field")) else Ok((s[..n], s[n..]))
  }

  function ReadNumber(s: Bytes, n: nat): Parse<nat> {
    var (bytes, rest) :- ReadExact(s, n);
    Ok((FromBE(bytes), rest))
  }

  function ReadBool(s: Bytes): Parse<bool> {
    var (b, rest) :- ReadU8(s);
    if b == 0 then Ok((false, rest)) else if b == 1 then Ok((true, rest)) else Err(InvalidBool(b))
  }

  function ReadBytes(s: Bytes): Parse<Bytes> {
    var (n, rest) :- ReadNumber(s, 4);
    ReadExact(rest, n)
  }

  function ReadString(s: Bytes): Parse<Text> {
    var (bytes, rest) :- ReadBytes(s);
    if ValidUtf8(bytes) then Ok((bytes, rest)) else Err(InvalidUtf8)
  }

  function ReadNamespace(s: Bytes): Parse<Text> {
    var (text, rest) :- ReadString(s);
    if ValidNamespace(text) then Ok((text, rest)) else Err(InvalidNamespace)
  }

  function ReadTag(s: Bytes): Parse<Text> {
    var (text, rest) :- ReadString(s);
    if ValidTag(text) then Ok((text, rest)) else Err(InvalidTag)
  }

  // ----- Field writers -----

  function Flag(b: bool): Bytes {
    if b then [1] else [0]
  }

  function Blob(s: Bytes): Bytes {
    BE(4, |s|) + s
  }

  lemma Assoc(a: Bytes, b: Bytes, c: Bytes)
    ensures (a + b) + c == a + (b + c)
  {
  }

  // ----- Each reader undoes its writer, and accepts nothing else -----

  lemma NumberReads(n: nat, v: nat, rest: Bytes)
    requires v < Pow256(n)
    ensures ReadNumber(BE(n, v) + rest, n) == Ok((v, rest))
  {
    NumberRoundTrip(n, v);
    assert (BE(n, v) + rest)[..n] == BE(n, v) && (BE(n, v) + rest)[n..] == rest;
  }

  lemma NumberAccepted(s: Bytes, n: nat)
    requires ReadNumber(s, n).Ok?
    ensures var (v, rest) := ReadNumber(s, n).value; v < Pow256(n) && s == BE(n, v) + rest
  {
    BytesRoundTrip(s[..n]);
  }

  lemma BlobReads(b: Bytes, rest: Bytes)
    requires |b| < U32_LIMIT
    ensures ReadBytes(Blob(b) + rest) == Ok((b, rest))
  {
    Widths();
    Assoc(BE(4, |b|), b, rest);
    NumberReads(4, |b|, b + rest);
  }

  lemma BlobAccepted(s: Bytes)
    requires ReadBytes(s).Ok?
    ensures var (b, rest) := ReadBytes(s).value; |b| < U32_LIMIT && s == Blob(b) + rest
  {
    Widths();
    NumberAccepted(s, 4);
    var (n, more) := ReadNumber(s, 4).value;
    Assoc(BE(4, n), more[..n], more[n..]);
  }

  lemma StringReads(t: Text, rest: Bytes)
    requires |t| < U32_LIMIT && ValidUtf8(t)
    ensures ReadString(Blob(t) + rest) == Ok((t, rest))
  {
    BlobReads(t, rest);
  }

  lemma NamespaceReads(t: Text, rest: Bytes)
    requires |t| < U32_LIMIT && ValidNamespace(t)
    ensures ReadNamespace(Blob(t) + rest) == Ok((t, rest))
  {
    NamesAreUtf8(t);
    StringReads(t, rest);
  }

  lemma TagReads(t: Text, rest: Bytes)
    requires |t| < U32_LIMIT && ValidTag(t)
    ensures ReadTag(Blob(t) + rest) == Ok((t, rest))
  {
    NamesAreUtf8(t);
    StringReads(t, rest);
  }
}
