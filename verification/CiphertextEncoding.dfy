/** The reversible handle format of the local prototype: a kind byte above a 248-bit payload. */
module CiphertextEncoding {
  import opened Prelude

  const KIND_UNIT: nat := 0x100000000000000000000000000000000000000000000000000000000000000
  const WORD_LIMIT: nat := 0x10000000000000000000000000000000000000000000000000000000000000000
  const EUINT32_KIND: nat := 1
  const EUINT96_KIND: nat := 3
  const MAX_EUINT96: nat := 0xffffffffffffffffffffffff

  function EncodeEuint96(value: nat): Word
    requires value <= MAX_EUINT96
  {
    EUINT96_KIND * KIND_UNIT + value
  }

  /** The kind byte of a word; the contract reads it through an 8-bit cast, the keeper does not. */
  function KindOf(handle: Word): nat {
    handle / KIND_UNIT
  }

  function PayloadOf(handle: Word): nat {
    handle % KIND_UNIT
  }

  /** The contract's and the keeper's numeric decoding: two kinds are numeric, any other is refused. */
  function DecodeNumeric(handle: Word): Option<nat> {
    if KindOf(handle) == EUINT32_KIND || KindOf(handle) == EUINT96_KIND then Some(PayloadOf(handle)) else None
  }

  lemma DecodeEncode(value: nat)
    requires value <= MAX_EUINT96
    ensures EncodeEuint96(value) < WORD_LIMIT
    ensures DecodeNumeric(EncodeEuint96(value)) == Some(value)
  {}

  /** A word is a number exactly when its top byte is 1 or 3, and then the number is the other 31 bytes; an encoded amount
      is of kind 3. */
  lemma NumericIff(handle: Word)
    ensures DecodeNumeric(handle).Some? <==>
            handle / 0x100000000000000000000000000000000000000000000000000000000000000 in {1, 3}
    ensures DecodeNumeric(handle).Some? ==>
              DecodeNumeric(handle).value == handle % 0x100000000000000000000000000000000000000000000000000000000000000
    ensures forall v: nat :: v <= 0xffffffffffffffffffffffff ==>
              EncodeEuint96(v) == 0x300000000000000000000000000000000000000000000000000000000000000 + v
  {}

  /** The zero word, which the market reads as "no bid", is not a number. */
  lemma ZeroIsNotNumeric()
    ensures DecodeNumeric(0) == None
  {}
}
