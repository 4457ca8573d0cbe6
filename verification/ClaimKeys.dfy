/** Which values may be claim keys, and which claims must never be redacted at the root. */
module ClaimKeys {
  import opened Values
  import opened Restoration

  /** A claim key: an integer of 64 bits, or text of 1 to 255 bytes. */
  predicate ClaimKey(v: Value) {
    || (v.Integer? && -0x8000_0000_0000_0000 <= v.n <= 0x7fff_ffff_ffff_ffff)
    || (v.TextString? && 1 <= |v.text| <= 255)
  }

  lemma ClaimKeyIs(v: Value)
    ensures LabelOf(v).Some? <==> ClaimKey(v)
    ensures ClaimKey(v) ==> LabelOf(v) == Some(if v.Integer? then IntLabel(v.n) else TextLabel(v.text))
  {
  }

  /** Registered claims that must stay visible at the root. */
  predicate MustStay(key: Value) {
    key.Integer? && key.n in {1, 3, 4, 5, 6, 7, 8, 39}
  }

  /** The claim at the root may be redacted unless it must stay. */
  lemma RootPolicyIs(v: Value)
    ensures LabelOf(v).Some? ==> (RootKeyAllowed(LabelOf(v).value) <==> !MustStay(v))
  {
  }
}
