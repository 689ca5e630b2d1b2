/** The UUID value type of RFC 4122: sixteen bytes, the version nibble and
    variant bits that generation stamps on them, the name-based (v3, v5) and
    random (v4) generators, and the 36-character canonical text form.
    Characters of the text are ASCII bytes (bv8), as in the Go library. */
module Uuid {
  import Hex

  datatype Option<+T> = None | Some(value: T)

  /** The error the random source reports when it cannot supply bytes. */
  datatype RandError = RandError(reason: string)

  const Nil: seq<bv8> := [0, 0, 0, 0, 0, 0, 0, 0, 0, 0, 0, 0, 0, 0, 0, 0]

  /** A UUID: exactly sixteen bytes, compared byte by byte. */
  type UUID = s: seq<bv8> | |s| == 16 witness Nil

  // ---------------------------------------------------------------------
  // Version and variant

  /** The version: the high nibble of byte 6 (section 4.1.3 of RFC 4122). */
  function Version(u: UUID): (v: int)
    ensures 0 <= v < 16
    ensures v * 16 <= u[6] as int < v * 16 + 16
  {
    (u[6] >> 4) as int
  }

  /** The two high bits of byte 8; binary 10 is the RFC 4122 variant
      (section 4.1.1 of RFC 4122). */
  function VariantBits(u: UUID): bv8 {
    u[8] >> 6
  }

  /** u after setVersion(&u, v): the high nibble of byte 6 becomes v, of
      which only the low four bits survive the byte-wide shift. */
  function WithVersion(u: UUID, v: bv8): (r: UUID)
    ensures Version(r) == v as int % 16
    ensures r[6] & 0x0F == u[6] & 0x0F
    ensures forall i :: 0 <= i < 16 && i != 6 ==> r[i] == u[i]
  {
    u[6 := (u[6] & 0x0F) | (v << 4)]
  }

  /** u after setVariant(&u): the two high bits of byte 8 become 10. */
  function WithVariant(u: UUID): (r: UUID)
    ensures VariantBits(r) == 2
    ensures r[8] & 0x3F == u[8] & 0x3F
    ensures forall i :: 0 <= i < 16 && i != 8 ==> r[i] == u[i]
  {
    u[8 := (u[8] & 0x3F) | 0x80]
  }

  /** Setting the variant a second time changes nothing. */
  lemma WithVariantIdempotent(u: UUID)
    ensures WithVariant(WithVariant(u)) == WithVariant(u)
  {
  }

  /** Of two version stamps the later one wins. */
  lemma WithVersionLastWins(u: UUID, a: bv8, b: bv8)
    ensures WithVersion(WithVersion(u, a), b) == WithVersion(u, b)
  {
  }

  /** The version and variant stamps touch different bytes, so their order
      does not matter. */
  lemma StampsCommute(u: UUID, v: bv8)
    ensures WithVariant(WithVersion(u, v)) == WithVersion(WithVariant(u), v)
  {
  }

  /** Both tags as the generators apply them: setVersion, then setVariant. */
  function Stamp(u: UUID, v: bv8): (r: UUID)
    ensures Version(r) == v as int % 16 && VariantBits(r) == 2
    ensures r[6] & 0x0F == u[6] & 0x0F && r[8] & 0x3F == u[8] & 0x3F
    ensures forall i :: 0 <= i < 16 && i != 6 && i != 8 ==> r[i] == u[i]
  {
    WithVariant(WithVersion(u, v))
  }

  /** setVersion: rewrites byte 6 of the UUID that u points to. */
  method SetVersion(u: array<bv8>, v: bv8)
    requires u.Length == 16
    modifies u
    ensures u[..] == WithVersion(old(u[..]), v)
  {
    u[6] := (u[6] & 0x0F) | (v << 4);
  }

  /** setVariant: rewrites byte 8 of the UUID that u points to. */
  method SetVariant(u: array<bv8>)
    requires u.Length == 16
    modifies u
    ensures u[..] == WithVariant(old(u[..]))
  {
    u[8] := (u[8] & 0x3F) | 0x80;
  }

  // ---------------------------------------------------------------------
  // Canonical text

  /** The ASCII hyphen that separates the five groups. */
  const Dash: bv8 := 0x2D

  /** The canonical text of section 3 of RFC 4122: the five byte groups
      time_low (4), time_mid (2), time_hi_and_version (2),
      clock_seq (2) and node (6), each in hexadecimal, joined by hyphens. */
  function Canonical(u: UUID): seq<bv8> {
    Hex.Encoded(u[..4]) + [Dash] + Hex.Encoded(u[4..6]) + [Dash] +
    Hex.Encoded(u[6..8]) + [Dash] + Hex.Encoded(u[8..10]) + [Dash] +
    Hex.Encoded(u[10..])
  }

  /** The positions of the four hyphens. */
  predicate IsDashPos(k: int) {
    k == 8 || k == 13 || k == 18 || k == 23
  }

  /** How many hyphens come before text position k. */
  function DashesBefore(k: int): int {
    if k < 8 then 0 else if k < 13 then 1 else if k < 18 then 2 else if k < 23 then 3 else 4
  }

  /** Where the first of the two digits of byte i stands in the text. */
  function Pos(i: int): (k: int)
    requires 0 <= i < 16
    ensures 0 <= k && k + 1 < 36 && !IsDashPos(k) && !IsDashPos(k + 1)
  {
    2 * i + (if i < 4 then 0 else if i < 6 then 1 else if i < 8 then 2 else if i < 10 then 3 else 4)
  }

  /** The byte whose digits stand at text position k. */
  function ByteIndex(k: int): int {
    (k - DashesBefore(k)) / 2
  }

  /** Every text position that is not a hyphen holds a digit of exactly one
      byte: the position is Pos(i) or Pos(i) + 1 for i = ByteIndex(k). */
  lemma Covered(k: int)
    requires 0 <= k < 36 && !IsDashPos(k)
    ensures 0 <= ByteIndex(k) < 16
    ensures k == Pos(ByteIndex(k)) || k == Pos(ByteIndex(k)) + 1
  {
  }

  /** The five groups of the text, as they stand in it. */
  lemma CanonicalGroups(u: UUID)
    ensures |Canonical(u)| == 36
    ensures Canonical(u)[..8] == Hex.Encoded(u[..4])
    ensures Canonical(u)[9..13] == Hex.Encoded(u[4..6])
    ensures Canonical(u)[14..18] == Hex.Encoded(u[6..8])
    ensures Canonical(u)[19..23] == Hex.Encoded(u[8..10])
    ensures Canonical(u)[24..] == Hex.Encoded(u[10..])
  {
  }

  /** Where a group's encoding stands in a text, byte j of the group stands
      as two digits from 2j past the group's start. */
  lemma GroupByte(text: seq<bv8>, at: int, g: seq<bv8>, j: int)
    requires 0 <= at && at + 2 * |g| <= |text|
    requires text[at..at + 2 * |g|] == Hex.Encoded(g)
    requires 0 <= j < |g|
    ensures text[at + 2 * j] == Hex.High(g[j]) && text[at + 2 * j + 1] == Hex.Low(g[j])
  {
    Hex.EncodedAt(g, j);
    assert text[at + 2 * j] == text[at..at + 2 * |g|][2 * j];
    assert text[at + 2 * j + 1] == text[at..at + 2 * |g|][2 * j + 1];
  }

  /** Byte i of u appears in its text as two digits, high nibble first, from
      position Pos(i) on. */
  lemma CanonicalByte(u: UUID, i: int)
    requires 0 <= i < 16
    ensures |Canonical(u)| == 36
    ensures Canonical(u)[Pos(i)] == Hex.High(u[i]) && Canonical(u)[Pos(i) + 1] == Hex.Low(u[i])
  {
    CanonicalGroups(u);
    if i < 6 {
      CanonicalByteFirst(u, i);
    } else {
      CanonicalByteLast(u, i);
    }
  }

  /** CanonicalByte for time_low and time_mid. */
  lemma CanonicalByteFirst(u: UUID, i: int)
    requires 0 <= i < 6
    ensures |Canonical(u)| == 36
    ensures Canonical(u)[Pos(i)] == Hex.High(u[i]) && Canonical(u)[Pos(i) + 1] == Hex.Low(u[i])
  {
    CanonicalGroups(u);
    if i < 4 {
      GroupByte(Canonical(u), 0, u[..4], i);
    } else {
      GroupByte(Canonical(u), 9, u[4..6], i - 4);
    }
  }

  /** CanonicalByte for time_hi_and_version, clock_seq and node. */
  lemma CanonicalByteLast(u: UUID, i: int)
    requires 6 <= i < 16
    ensures |Canonical(u)| == 36
    ensures Canonical(u)[Pos(i)] == Hex.High(u[i]) && Canonical(u)[Pos(i) + 1] == Hex.Low(u[i])
  {
    CanonicalGroups(u);
    if i < 8 {
      GroupByte(Canonical(u), 14, u[6..8], i - 6);
    } else if i < 10 {
      GroupByte(Canonical(u), 19, u[8..10], i - 8);
    } else {
      GroupByte(Canonical(u), 24, u[10..], i - 10);
    }
  }

  /** The layout of the text: 36 bytes, hyphens at 8, 13, 18 and 23, and byte
      i as two digits, high nibble first, from position Pos(i) (bytes 0-3 at
      0-7, 4-5 at 9-12, 6-7 at 14-17, 8-9 at 19-22, 10-15 at 24-35). */
  lemma CanonicalLayout(u: UUID)
    ensures |Canonical(u)| == 36
    ensures forall k :: 0 <= k < 36 && IsDashPos(k) ==> Canonical(u)[k] == Dash
    ensures forall i :: 0 <= i < 16 ==>
      Canonical(u)[Pos(i)] == Hex.High(u[i]) && Canonical(u)[Pos(i) + 1] == Hex.Low(u[i])
  {
    forall i | 0 <= i < 16
      ensures Canonical(u)[Pos(i)] == Hex.High(u[i]) && Canonical(u)[Pos(i) + 1] == Hex.Low(u[i])
    {
      CanonicalByte(u, i);
    }
  }

  /** A hyphen appears in the text at the four group boundaries and nowhere
      else; every other byte is a lower-case hexadecimal digit. */
  lemma CanonicalDashes(u: UUID)
    ensures |Canonical(u)| == 36
    ensures forall k :: 0 <= k < 36 ==> (Canonical(u)[k] == Dash <==> IsDashPos(k))
    ensures forall k :: 0 <= k < 36 && !IsDashPos(k) ==> Hex.IsDigit(Canonical(u)[k])
  {
    CanonicalLayout(u);
    forall k | 0 <= k < 36 && !IsDashPos(k)
      ensures Hex.IsDigit(Canonical(u)[k])
    {
      Covered(k);
      Hex.PairRoundTrip(u[ByteIndex(k)]);
    }
  }

  /** Well-formed canonical text: 36 bytes, hyphens exactly at the four group
      boundaries, lower-case hexadecimal digits everywhere else. */
  predicate IsCanonicalText(s: seq<bv8>) {
    |s| == 36 &&
    forall k :: 0 <= k < 36 ==> if IsDashPos(k) then s[k] == Dash else Hex.IsDigit(s[k])
  }

  /** Reads the sixteen bytes back from their digit pairs; the inverse of
      Canonical. */
  function CanonicalDecode(s: seq<bv8>): Option<UUID> {
    if IsCanonicalText(s) then
      Some(seq(16, i requires 0 <= i < 16 => Hex.PairValue(s[Pos(i)], s[Pos(i) + 1])))
    else
      None
  }

  /** Decoding the text of u gives u back. */
  lemma CanonicalRoundTrip(u: UUID)
    ensures CanonicalDecode(Canonical(u)) == Some(u)
  {
    CanonicalLayout(u);
    CanonicalDashes(u);
    var d := CanonicalDecode(Canonical(u));
    assert IsCanonicalText(Canonical(u));
    forall i | 0 <= i < 16
      ensures d.value[i] == u[i]
    {
      Hex.PairRoundTrip(u[i]);
    }
    assert d.value == u;
  }

  /** Text that decodes to some UUID is that UUID's canonical text. */
  lemma CanonicalDecodeSound(s: seq<bv8>)
    requires CanonicalDecode(s).Some?
    ensures Canonical(CanonicalDecode(s).value) == s
  {
    var u := CanonicalDecode(s).value;
    CanonicalLayout(u);
    forall k | 0 <= k < 36
      ensures Canonical(u)[k] == s[k]
    {
      if !IsDashPos(k) {
        Covered(k);
        var i := ByteIndex(k);
        Hex.PairExact(s[Pos(i)], s[Pos(i) + 1]);
      }
    }
  }

  /** The text form is a bijection between UUIDs and well-formed canonical
      text: s decodes to u exactly when s is the text of u. */
  lemma CanonicalBijection(s: seq<bv8>, u: UUID)
    ensures CanonicalDecode(s) == Some(u) <==> s == Canonical(u)
  {
    if CanonicalDecode(s) == Some(u) {
      CanonicalDecodeSound(s);
    }
    if s == Canonical(u) {
      CanonicalRoundTrip(u);
    }
  }

  /** Different UUIDs have different texts. */
  lemma CanonicalInjective(u: UUID, w: UUID)
    requires Canonical(u) == Canonical(w)
    ensures u == w
  {
    CanonicalRoundTrip(u);
    CanonicalRoundTrip(w);
  }

  /** The version is the digit at position 14, and the RFC 4122 variant makes
      the digit at position 19 one of 8, 9, a, b. */
  lemma TagDigits(u: UUID)
    ensures Canonical(u)[14] == Hex.Table[Version(u)]
    ensures VariantBits(u) == 2 ==> Canonical(u)[19] in {0x38, 0x39, 0x61, 0x62}
  {
  }

  /** The UUID used as the parsing and formatting example. */
  const Example: UUID :=
    [0x9e, 0x75, 0x4e, 0xf6, 0x8d, 0xd9, 0x49, 0x03,
     0xaf, 0x43, 0x7a, 0xea, 0x99, 0xbf, 0xb1, 0xfe]

  /** Its text, "9e754ef6-8dd9-4903-af43-7aea99bfb1fe", in ASCII, group by
      group. */
  const ExampleAscii: seq<bv8> :=
    [0x39, 0x65, 0x37, 0x35, 0x34, 0x65, 0x66, 0x36] + [Dash] +
    [0x38, 0x64, 0x64, 0x39] + [Dash] +
    [0x34, 0x39, 0x30, 0x33] + [Dash] +
    [0x61, 0x66, 0x34, 0x33] + [Dash] +
    [0x37, 0x61, 0x65, 0x61, 0x39, 0x39, 0x62, 0x66, 0x62, 0x31, 0x66, 0x65]

  /** The example formats to its text, and it is a version 4 UUID of the
      RFC 4122 variant. */
  lemma ExampleText()
    ensures Canonical(Example) == ExampleAscii
    ensures Version(Example) == 4 && VariantBits(Example) == 2
  {
    ExampleGroups();
  }

  lemma ExampleGroups()
    ensures Hex.Encoded(Example[..4]) == [0x39, 0x65, 0x37, 0x35, 0x34, 0x65, 0x66, 0x36]
    ensures Hex.Encoded(Example[4..6]) == [0x38, 0x64, 0x64, 0x39]
    ensures Hex.Encoded(Example[6..8]) == [0x34, 0x39, 0x30, 0x33]
    ensures Hex.Encoded(Example[8..10]) == [0x61, 0x66, 0x34, 0x33]
    ensures Hex.Encoded(Example[10..]) == [0x37, 0x61, 0x65, 0x61, 0x39, 0x39, 0x62, 0x66, 0x62, 0x31, 0x66, 0x65]
  {
    assert Example[..4] == [0x9e, 0x75, 0x4e, 0xf6];
    assert Hex.Encoded([0x9e, 0x75, 0x4e, 0xf6]) == [0x39, 0x65, 0x37, 0x35, 0x34, 0x65, 0x66, 0x36];
    assert Example[4..6] == [0x8d, 0xd9];
    assert Example[6..8] == [0x49, 0x03];
    assert Example[8..10] == [0xaf, 0x43];
    assert Example[10..] == [0x7a, 0xea, 0x99, 0xbf, 0xb1, 0xfe];
    assert Hex.Encoded([0x7a, 0xea, 0x99, 0xbf, 0xb1, 0xfe]) ==
      [0x37, 0x61, 0x65, 0x61, 0x39, 0x39, 0x62, 0x66, 0x62, 0x31, 0x66, 0x65];
  }

  /** Format: fills a 36-byte buffer group by group with hexadecimal digits
      and puts the hyphens between the groups. */
  method Format(u: UUID) returns (text: seq<bv8>)
    ensures text == Canonical(u)
    ensures |text| == 36
    ensures forall k :: 0 <= k < 36 ==> (text[k] == Dash <==> IsDashPos(k))
  {
    var buf := new bv8[36](_ => 0);
    ghost var e0, e1, e2, e3, e4 := Hex.Encoded(u[..4]), Hex.Encoded(u[4..6]),
      Hex.Encoded(u[6..8]), Hex.Encoded(u[8..10]), Hex.Encoded(u[10..]);
    Hex.Encode(buf, 0, u[..4]);
    assert buf[..8] == e0;
    buf[8] := Dash;
    ghost var done := buf[..9];
    assert done == e0 + [Dash];
    Hex.Encode(buf, 9, u[4..6]);
    assert buf[..13] == done + e1;
    buf[13] := Dash;
    done := buf[..14];
    assert done == e0 + [Dash] + e1 + [Dash];
    Hex.Encode(buf, 14, u[6..8]);
    assert buf[..18] == done + e2;
    buf[18] := Dash;
    done := buf[..19];
    assert done == e0 + [Dash] + e1 + [Dash] + e2 + [Dash];
    Hex.Encode(buf, 19, u[8..10]);
    assert buf[..23] == done + e3;
    buf[23] := Dash;
    done := buf[..24];
    assert done == e0 + [Dash] + e1 + [Dash] + e2 + [Dash] + e3 + [Dash];
    Hex.Encode(buf, 24, u[10..]);
    text := buf[..];
    assert text == done + e4;
    CanonicalDashes(u);
  }

  /** FormatString: the 36 bytes of Format(u) as a string, one character per
      byte. */
  method FormatString(u: UUID) returns (s: string)
    ensures |s| == 36
    ensures forall k :: 0 <= k < 36 ==> s[k] as int == Canonical(u)[k] as int
    ensures forall k :: 0 <= k < 36 ==> (s[k] == '-' <==> IsDashPos(k))
  {
    var b := Format(u);
    s := seq(36, k requires 0 <= k < 36 => (b[k] as int) as char);
  }

  // ---------------------------------------------------------------------
  // Generators

  /** What copy(u[:], sum) leaves in a zeroed UUID: the first sixteen bytes
      of sum, zero-filled when sum is shorter. */
  function Copied(sum: seq<bv8>): (u: UUID)
    ensures forall i :: 0 <= i < 16 ==> u[i] == if i < |sum| then sum[i] else 0
  {
    if |sum| >= 16 then sum[..16] else sum + Nil[|sum|..]
  }

  /** Go's copy(dst, src): copies as many bytes as both have room for and
      returns that count; the rest of dst is left alone. */
  method Copy(dst: array<bv8>, src: seq<bv8>) returns (n: nat)
    modifies dst
    ensures n == if |src| < dst.Length then |src| else dst.Length
    ensures dst[..] == src[..n] + old(dst[n..])
  {
    n := if |src| < dst.Length then |src| else dst.Length;
    var i := 0;
    while i < n
      invariant 0 <= i <= n
      invariant dst[..i] == src[..i]
      invariant dst[i..] == old(dst[i..])
    {
      dst[i] := src[i];
      i := i + 1;
    }
  }

  /** usingHash: the first sixteen bytes of the digest of the namespace's
      bytes followed by the name (the two Writes into the hash), with the
      version and variant stamped on. digest stands for the hash function,
      MD5 or SHA-1. */
  method UsingHash(digest: seq<bv8> -> seq<bv8>, namespace: UUID, name: seq<bv8>, version: bv8)
    returns (u: UUID)
    ensures u == Stamp(Copied(digest(namespace + name)), version)
    ensures Version(u) == version as int % 16 && VariantBits(u) == 2
    ensures |digest(namespace + name)| >= 16 ==>
      forall i :: 0 <= i < 16 && i != 6 && i != 8 ==> u[i] == digest(namespace + name)[i]
  {
    var buf := new bv8[16](_ => 0);
    var sum := digest(namespace + name);
    var _ := Copy(buf, sum);
    assert buf[..] == Copied(sum);
    SetVersion(buf, version);
    SetVariant(buf);
    u := buf[..];
  }

  /** NewV3: the name-based UUID with MD5 (section 4.3 of RFC 4122); md5
      stands for the digest function. */
  method NewV3(md5: seq<bv8> -> seq<bv8>, namespace: UUID, name: seq<bv8>) returns (u: UUID)
    ensures u == Stamp(Copied(md5(namespace + name)), 3)
    ensures Version(u) == 3 && VariantBits(u) == 2
  {
    u := UsingHash(md5, namespace, name, 3);
  }

  /** NewV5: the name-based UUID with SHA-1 (section 4.3 of RFC 4122); sha1
      stands for the digest function, whose bytes past the sixteenth are
      dropped. */
  method NewV5(sha1: seq<bv8> -> seq<bv8>, namespace: UUID, name: seq<bv8>) returns (u: UUID)
    ensures u == Stamp(Copied(sha1(namespace + name)), 5)
    ensures Version(u) == 5 && VariantBits(u) == 2
  {
    u := UsingHash(sha1, namespace, name, 5);
  }

  /** NewV4: the random UUID (section 4.4 of RFC 4122). random is what the
      random source wrote into the zeroed buffer and failure its error, if
      any. On failure the buffer is returned as it is, untagged, with the
      error. */
  method NewV4(random: UUID, failure: Option<RandError>) returns (u: UUID, err: Option<RandError>)
    ensures err == failure
    ensures failure.Some? ==> u == random
    ensures failure.None? ==> u == Stamp(random, 4)
    ensures failure.None? ==> Version(u) == 4 && VariantBits(u) == 2
  {
    var buf := new bv8[16];
    forall i | 0 <= i < 16 {
      buf[i] := random[i];
    }
    if failure.Some? {
      return buf[..], failure;
    }
    SetVersion(buf, 4);
    SetVariant(buf);
    u, err := buf[..], None;
  }

  /** A generated UUID's text reads xxxxxxxx-xxxx-Vxxx-Nxxx-xxxxxxxxxxxx with
      V the version digit and N one of 8, 9, a, b. */
  lemma StampedText(u: UUID, v: bv8)
    requires v < 16
    ensures Canonical(Stamp(u, v))[14] == Hex.Table[v as int]
    ensures Canonical(Stamp(u, v))[19] in {0x38, 0x39, 0x61, 0x62}
  {
  }
}
