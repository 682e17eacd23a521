/**
 * The tagged-pointer codec of `unsure_ownership_ptr`: the ownership flag is
 * kept in bit 0 of the pointer-sized word itself. Bit 0 clear means "owned",
 * bit 0 set means "borrowed". Only integer bit arithmetic is done on the
 * word; it is never dereferenced.
 *
 * A word is modelled by its unsigned value, as `reinterpret_cast<size_t>`
 * gives it. The three bit operations the codec uses touch bit 0 only, so
 * they are written out on that value: bit 0 is `w % 2`, masking with
 * `SIZE_MAX - 1` subtracts bit 0, and OR-ing in 1 adds one exactly when
 * bit 0 was clear.
 */
module Codec {

  /** One more than `SIZE_MAX` on a 64-bit target. */
  const WordLimit: int := 0x1_0000_0000_0000_0000

  /** A pointer-sized machine word (`size_t` on a 64-bit target). */
  type Word = w: int | 0 <= w < WordLimit

  /** The null pointer. */
  const Null: Word := 0

  /** Bit 0 of a word, `w & 0x1`. */
  function Bit0(w: Word): int {
    if w % 2 == 0 then 0 else 1
  }

  /** Bit 0 as the source reads it: `& 0x1` on the 64-bit word. */
  lemma Bit0IsAndOne(w: Word)
    ensures ((w as bv64) & 1) as int == Bit0(w)
  {
  }

  /** An address with bit 0 clear, as is the address of any object whose
      alignment is at least two. Only such addresses survive encoding. */
  predicate Aligned(address: Word) {
    Bit0(address) == 0
  }

  /** `zip_ptr`: ORs `!is_owned` into bit 0 of the address. All other bits
      are kept unchanged, and the flag reads back as "owned" exactly when
      ownership was asked for and bit 0 was free to carry it. */
  function Zip(isOwned: bool, address: Word): (w: Word)
    ensures Unzip(w) == Unzip(address)
    ensures HasOwnership(w) <==> isOwned && Aligned(address)
  {
    var tag := if isOwned then 0 else 1;
    if tag == 1 && Bit0(address) == 0 then address + 1 else address
  }

  /** `unzip_ptr`: masks bit 0 off. The decoded address is the largest
      aligned word not above the stored one, so it is the word itself when
      the word is aligned and one less otherwise. */
  function Unzip(w: Word): (address: Word)
    ensures Aligned(address)
    ensures address <= w < address + 2
  {
    w - Bit0(w)
  }

  /** `has_ownership` on a stored word: bit 0 clear. The flag says "owned"
      exactly when decoding leaves the word unchanged, that is, when the
      word held by the inner owning pointer is the referent's address. */
  function HasOwnership(w: Word): (owned: bool)
    ensures owned <==> Unzip(w) == w
  {
    Bit0(w) == 0
  }

  /** Round trip: an aligned address and either flag come back unchanged. */
  lemma RoundTrip(isOwned: bool, address: Word)
    requires Aligned(address)
    ensures Unzip(Zip(isOwned, address)) == address
    ensures HasOwnership(Zip(isOwned, address)) == isOwned
  {
  }

  /** An odd address does not round-trip: it decodes to the address below
      it, and with either flag it reads back as borrowed, because its own
      bit 0 is taken for the flag. */
  lemma MisalignedAddress(isOwned: bool, address: Word)
    requires !Aligned(address)
    ensures Zip(isOwned, address) == address
    ensures Unzip(Zip(isOwned, address)) == address - 1
    ensures !HasOwnership(Zip(isOwned, address))
  {
  }

  /** Decoding twice is decoding once. */
  lemma UnzipIdempotent(w: Word)
    ensures Unzip(Unzip(w)) == Unzip(w)
  {
  }

  /** Null decodes to null with either flag. The owned encoding of null is
      the all-zero word, which is also the word of an empty handle, and it
      reads as "owned"; the borrowed encoding of null is the word 1. */
  lemma NullEncodings(isOwned: bool)
    ensures Unzip(Zip(isOwned, Null)) == Null
    ensures Zip(true, Null) == Null && HasOwnership(Null)
    ensures Zip(false, Null) == 1 && !HasOwnership(1)
  {
  }
}
