/** The part of Go's encoding/hex that the UUID formatter relies on: Encode
    writes each source byte as two lower-case hexadecimal digits, high nibble
    first. Characters are ASCII bytes (bv8). */
module Hex {

  /** The digit alphabet "0123456789abcdef" as ASCII bytes. */
  const Table: seq<bv8> :=
    [0x30, 0x31, 0x32, 0x33, 0x34, 0x35, 0x36, 0x37,
     0x38, 0x39, 0x61, 0x62, 0x63, 0x64, 0x65, 0x66]

  /** A lower-case hexadecimal digit: '0'..'9' or 'a'..'f'. */
  predicate IsDigit(c: bv8) {
    (0x30 <= c <= 0x39) || (0x61 <= c <= 0x66)
  }

  /** The digit for a nibble n: the entry of Table at index n. */
  function Digit(n: bv8): (c: bv8)
    requires n < 16
    ensures c == Table[n as int]
  {
    if n < 10 then 0x30 + n else 0x61 + (n - 10)
  }

  /** The value of a lower-case hexadecimal digit. */
  function DigitValue(c: bv8): (n: bv8)
    requires IsDigit(c)
    ensures n < 16 && Digit(n) == c
  {
    if c <= 0x39 then c - 0x30 else c - 0x61 + 10
  }

  /** Every digit is a lower-case hexadecimal digit whose value is its nibble. */
  lemma DigitInverse(n: bv8)
    requires n < 16
    ensures IsDigit(Digit(n)) && DigitValue(Digit(n)) == n
  {
  }

  /** The digit for the high nibble of b. */
  function High(b: bv8): bv8 { Digit(b >> 4) }

  /** The digit for the low nibble of b. */
  function Low(b: bv8): bv8 { Digit(b & 0x0F) }

  /** The byte whose two digits are hi and lo. */
  function PairValue(hi: bv8, lo: bv8): bv8
    requires IsDigit(hi) && IsDigit(lo)
  {
    (DigitValue(hi) << 4) | DigitValue(lo)
  }

  /** Decoding the two digits of b gives b back. */
  lemma PairRoundTrip(b: bv8)
    ensures IsDigit(High(b)) && IsDigit(Low(b))
    ensures PairValue(High(b), Low(b)) == b
  {
  }

  /** Two digits decode to the one byte whose digits they are. */
  lemma PairExact(hi: bv8, lo: bv8)
    requires IsDigit(hi) && IsDigit(lo)
    ensures High(PairValue(hi, lo)) == hi && Low(PairValue(hi, lo)) == lo
  {
  }

  /** The hexadecimal text of src: two digits per byte, in order. */
  function Encoded(src: seq<bv8>): (r: seq<bv8>)
    ensures |r| == 2 * |src|
  {
    if src == [] then [] else [High(src[0]), Low(src[0])] + Encoded(src[1..])
  }

  /** Byte i of src sits at positions 2i (high nibble) and 2i+1 (low nibble). */
  lemma {:induction false} EncodedAt(src: seq<bv8>, i: nat)
    requires i < |src|
    ensures Encoded(src)[2 * i] == High(src[i])
    ensures Encoded(src)[2 * i + 1] == Low(src[i])
  {
    if i > 0 {
      EncodedAt(src[1..], i - 1);
    }
  }

  /** Encode(dst[off..], src) as Go's hex.Encode does it: dst[off..] must have
      room for 2 * |src| digits; the rest of dst is left alone. */
  method Encode(dst: array<bv8>, off: nat, src: seq<bv8>)
    requires off + 2 * |src| <= dst.Length
    modifies dst
    ensures dst[..] == old(dst[..off]) + Encoded(src) + old(dst[off + 2 * |src|..])
  {
    var i := 0;
    while i < |src|
      invariant 0 <= i <= |src|
      invariant forall k :: 0 <= k < i ==> dst[off + 2 * k] == High(src[k]) && dst[off + 2 * k + 1] == Low(src[k])
      invariant forall j :: 0 <= j < off ==> dst[j] == old(dst[j])
      invariant forall j :: off + 2 * i <= j < dst.Length ==> dst[j] == old(dst[j])
    {
      dst[off + 2 * i] := High(src[i]);
      dst[off + 2 * i + 1] := Low(src[i]);
      i := i + 1;
    }
    ghost var want := old(dst[..off]) + Encoded(src) + old(dst[off + 2 * |src|..]);
    forall j | 0 <= j < dst.Length
      ensures dst[j] == want[j]
    {
      if off <= j < off + 2 * |src| {
        EncodedAt(src, (j - off) / 2);
      }
    }
    assert dst[..] == want;
  }
}
