# UUID value type, generators and canonical text — a Dafny model

This project models the core of a Go UUID library (package `uuid`, file
`uuid.go`): the 16-byte `UUID` value, its version nibble and variant bits,
the name-based (v3 with MD5, v5 with SHA-1) and random (v4) generators of
RFC 4122, and `Format`, which renders a UUID as the 36-character canonical
text `xxxxxxxx-xxxx-xxxx-xxxx-xxxxxxxxxxxx` of section 3 of RFC 4122.

Two modules:

- `Hex` (`hex.dfy`): the part of Go's `encoding/hex` that `Format` uses.
  `Hex.Encode` writes two lower-case hexadecimal digits per byte, high
  nibble first, into a slice of a buffer. Its reference is `Hex.Encoded`, and
  `Hex.PairValue` decodes a digit pair.
- `Uuid` (`uuid.dfy`): everything in `uuid.go`. A `UUID` is a sequence of
  exactly 16 `bv8` bytes, because Go arrays are values. The `*UUID` argument
  that `setVersion` and `setVariant` mutate is an `array<bv8>` of length 16.
  `Format`, `usingHash` and `NewV4` fill a local array the same way the Go
  code fills its local `[36]byte` or `UUID`. Text is handled as ASCII
  bytes, as the Go code does.

The specification side:

- `WithVersion`, `WithVariant` and `Stamp` are pure functions on UUID
  values. The in-place setters are proved against them.
- `Canonical` defines the text group by group (time_low, time_mid,
  time_hi_and_version, clock_seq, node) as RFC 4122 writes it.
  `CanonicalLayout` relates it to the positional view: byte `i` becomes the
  two digits at `Pos(i)` and `Pos(i) + 1`.
- `CanonicalDecode` is the inverse used to prove that the text form is
  injective. It reads the 16 digit pairs of well-formed lower-case canonical
  text. It is a specification device, not a model of the library's `Parse`
  (see Left out).

Abstracted collaborators:

- The hash function is a parameter `digest: seq<bv8> -> seq<bv8>`. The two
  `h.Write` calls feed it the namespace bytes followed by the name, so the
  model applies it to `namespace + name`. `copy(u[:], h.Sum(nil))` keeps
  the first 16 bytes (the 20-byte SHA-1 digest is cut short) and leaves a
  shorter digest zero-padded.
- The random source is two parameters of `NewV4`. `random` is the 16 bytes
  that `rand.Read` left in the zeroed buffer. `failure` is the error it
  returned, if any.

## Model

| member | source | states |
|---|---|---|
| `Hex.Digit` | uuid.go:71 | the digit for a nibble is the entry of the alphabet `0123456789abcdef` at that index |
| `Hex.DigitValue` | uuid.go:71 | the value of a lower-case digit is a nibble whose digit is that character |
| `Hex.PairRoundTrip` | uuid.go:71 | the two digits of any byte are lower-case hexadecimal digits and decode back to that byte |
| `Hex.PairExact` | uuid.go:71 | two digits decode to the one byte whose high and low digits they are |
| `Hex.Encoded` | uuid.go:71 | the hexadecimal text of `n` bytes is `2n` bytes long |
| `Hex.EncodedAt` | uuid.go:71 | byte `i` of the source sits at text positions `2i` (high nibble) and `2i+1` (low nibble) |
| `Hex.Encode` | uuid.go:71-79 | writing into `dst` from `off` on leaves `dst` equal to its old prefix, then the hexadecimal text of `src`, then its old suffix |
| `Uuid.Version` | uuid.go:94-96 | the version lies in 0..15 and is the high nibble of byte 6 (`16v <= u[6] < 16v + 16`) |
| `Uuid.WithVersion` | uuid.go:112-114 | after setting version `v`: `Version == v % 16` (the shift is byte-wide), the low nibble of byte 6 is kept, the other 15 bytes are unchanged |
| `Uuid.SetVersion` | uuid.go:112-114 | the array pointed to becomes `WithVersion` of its old contents |
| `Uuid.WithVariant` | uuid.go:118-120 | after setting the variant: the top two bits of byte 8 are `10`, its low six bits are kept, the other 15 bytes are unchanged |
| `Uuid.SetVariant` | uuid.go:118-120 | the array pointed to becomes `WithVariant` of its old contents |
| `Uuid.WithVariantIdempotent` | uuid.go:118-120 | setting the variant twice equals setting it once |
| `Uuid.WithVersionLastWins` | uuid.go:112-114 | of two version stamps the later one alone determines the result |
| `Uuid.StampsCommute` | uuid.go:112-120 | the version and variant stamps commute |
| `Uuid.Stamp` | uuid.go:105-106 | version then variant: version `v % 16`, variant `10`, the low nibble of byte 6 and the low six bits of byte 8 kept, the other 14 bytes unchanged |
| `Uuid.Pos` | uuid.go:71-79 | every digit-pair position lies inside the 36-byte text and is not a hyphen position |
| `Uuid.CanonicalGroups` | uuid.go:71-79 | the text is 36 bytes and its five groups at 0-7, 9-12, 14-17, 19-22 and 24-35 are the hexadecimal texts of bytes 0-3, 4-5, 6-7, 8-9 and 10-15 |
| `Uuid.CanonicalByte` | uuid.go:71-79 | byte `i` appears in the text as its high digit at `Pos(i)` and its low digit at `Pos(i) + 1` |
| `Uuid.CanonicalLayout` | uuid.go:67-82 | the text is 36 bytes, has hyphens at 8, 13, 18 and 23, and holds each byte's two digits at its fixed position |
| `Uuid.CanonicalDashes` | uuid.go:67-82 | a hyphen stands at position `k` if and only if `k` is 8, 13, 18 or 23; every other byte is a lower-case hexadecimal digit |
| `Uuid.CanonicalRoundTrip` | uuid.go:67-82 | decoding the digit pairs of the text of `u` gives `u` back |
| `Uuid.CanonicalDecodeSound` | uuid.go:67-82 | text that decodes to a UUID is exactly that UUID's canonical text |
| `Uuid.CanonicalBijection` | uuid.go:67-82 | `s` decodes to `u` if and only if `s` is the text of `u` |
| `Uuid.CanonicalInjective` | uuid.go:67-82 | two UUIDs with the same text are equal |
| `Uuid.TagDigits` | uuid.go:94-96 | the digit at position 14 is the version, and with variant `10` the digit at position 19 is one of `8`, `9`, `a`, `b` |
| `Uuid.ExampleGroups` | uuid_test.go:320-329 | each group of the example UUID encodes to its group of `9e754ef6-8dd9-4903-af43-7aea99bfb1fe` |
| `Uuid.ExampleText` | uuid_test.go:320-329 | the example UUID formats to `9e754ef6-8dd9-4903-af43-7aea99bfb1fe` and has version 4 and variant `10` |
| `Uuid.Format` | uuid.go:67-82 | the buffer filled group by group is the canonical text: 36 bytes with hyphens exactly at 8, 13, 18 and 23 |
| `Uuid.FormatString` | uuid.go:88-91 | the string has 36 characters, each the corresponding byte of the canonical text, with `-` exactly at 8, 13, 18 and 23 |
| `Uuid.Copied` | uuid.go:104 | a zeroed UUID after `copy` holds the digest's first 16 bytes, zero where the digest is shorter |
| `Uuid.Copy` | uuid.go:104 | copies the smaller of the two lengths, returns that count and leaves the rest of `dst` unchanged |
| `Uuid.UsingHash` | uuid.go:100-108 | the result is the stamped first 16 bytes of the digest of namespace followed by name, a function of its inputs only; its version is `version % 16` and its variant `10`; with a digest of 16 bytes or more, every byte except 6 and 8 is the digest's byte |
| `Uuid.NewV3` | uuid.go:42-44 | the MD5 name-based UUID is the stamped digest, with version 3 and variant `10` |
| `Uuid.NewV5` | uuid.go:60-62 | the SHA-1 name-based UUID is the stamped first 16 digest bytes, with version 5 and variant `10` |
| `Uuid.NewV4` | uuid.go:48-56 | the random source's error is returned as is; on failure the buffer is returned untagged; on success it is the random bytes stamped with version 4 and variant `10` |
| `Uuid.StampedText` | uuid.go:105-106 | the text of a stamped UUID has the version digit at position 14 and one of `8`, `9`, `a`, `b` at position 19 |

## Left out

- MD5 and SHA-1 (`crypto/md5`, `crypto/sha1`) are foreign library code. Each
  is a digest-function parameter, so the model says nothing about digest
  contents beyond their first 16 bytes.
- `crypto/rand.Read` is operating-system entropy. Its output bytes and its
  error are parameters of `NewV4`. That two v4 UUIDs differ holds only with
  high probability and is not stated.
- Uuid.NewV4: the model takes the whole 16-byte buffer after the read as
  given, so it does not say which of those bytes a failing read actually
  wrote.
- `hash.Hash` is not modelled as an object. The two `Write` calls become one
  application of the digest function to their concatenation, which is what
  a Go hash computes.
- `Parse`, `ParseString`, `Bytes`, `String`, `NewV7`, `Time`, `Must`, the
  binary, text and JSON marshalers and unmarshalers, `Scan`, `Value`,
  `NewV4FromRand` and `NewV7FromRand` are not part of this model. Their
  source is not among the modelled files. `CanonicalDecode` is only the
  inverse of `Format`: it accepts lower-case digits only and says nothing
  about how `Parse` treats upper-case digits or the 16- and 32-byte forms.
- The time-ordered v7 generator and its timestamp extraction are left out.
  Their code is not part of this model, and they read the wall clock.
- `hex.Encode`'s return value (the number of bytes written) is ignored at
  every call site in `Format` and is not modelled.
