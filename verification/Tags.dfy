/** The fixed tag prefixes the crate writes, and adding and stripping them (src/tag.rs). */
module Tags {
  import opened Values
  import opened Heads

  const CWT_PREFIX: Bytes := [0xd8, 0x3d]
  const ENCRYPT0_PREFIX: Bytes := [0xd0]
  const MAC0_PREFIX: Bytes := [0xd1]
  const SIGN1_PREFIX: Bytes := [0xd2]
  const ENCRYPT_PREFIX: Bytes := [0xd8, 0x60]
  const MAC_PREFIX: Bytes := [0xd8, 0x61]
  const SIGN_PREFIX: Bytes := [0xd8, 0x62]
  const CBOR_SELF_PREFIX: Bytes := [0xd9, 0xd9, 0xf7]

  const CWT_SIGN1_PREFIX: Bytes := [0xd8, 0x3d, 0xd2]

  function WithTag(tag: Bytes, data: Bytes): Bytes {
    tag + data
  }

  function SkipTag(tag: Bytes, data: Bytes): Bytes {
    if Begins(data, tag) then data[|tag|..] else data
  }

  lemma OneByteHead(tag: nat)
    requires 24 <= tag <= 0xff
    ensures ShortHead(6, tag) == [0xd8, tag]
  {
    assert BigEndian(tag, 1) == [] + [tag] == [tag];
  }

  lemma TwoByteHead(tag: nat)
    requires 0xff < tag <= 0xffff
    ensures ShortHead(6, tag) == [0xd9, tag / 256, tag % 256]
  {
    assert BigEndian(tag / 256, 1) == [] + [tag / 256] == [tag / 256];
    assert BigEndian(tag, 2) == [tag / 256] + [tag % 256];
  }

  /** Every prefix is the preferred head of its tag number. */
  lemma PrefixesAreHeads()
    ensures ENCRYPT0_PREFIX == ShortHead(6, 16) && MAC0_PREFIX == ShortHead(6, 17) && SIGN1_PREFIX == ShortHead(6, 18)
    ensures CWT_PREFIX == ShortHead(6, 61)
    ensures ENCRYPT_PREFIX == ShortHead(6, 96) && MAC_PREFIX == ShortHead(6, 97) && SIGN_PREFIX == ShortHead(6, 98)
    ensures CBOR_SELF_PREFIX == ShortHead(6, 55799)
    ensures CWT_SIGN1_PREFIX == CWT_PREFIX + SIGN1_PREFIX
  {
    OneByteHead(61);
    OneByteHead(96);
    OneByteHead(97);
    OneByteHead(98);
    TwoByteHead(55799);
  }

  /** Stripping undoes adding. */
  lemma SkipUndoesWith(tag: Bytes, data: Bytes)
    ensures SkipTag(tag, WithTag(tag, data)) == data
  {
    assert (tag + data)[..|tag|] == tag && (tag + data)[|tag|..] == data;
  }
}
