/** Hexadecimal identities and hashes as the managed side holds them: texts of UTF-16 units. */
module HexText {
  type Text = seq<int>

  predicate IsLowerHex(c: int) {
    '0' as int <= c <= '9' as int || 'a' as int <= c <= 'f' as int
  }

  predicate IsHex(c: int) {
    IsLowerHex(c) || 'A' as int <= c <= 'F' as int
  }

  /** IsHash and IsKey: 64 hexadecimal digits. */
  predicate IsHash(text: Text) {
    |text| == 64 && forall i | 0 <= i < 64 :: IsHex(text[i])
  }

  predicate IsLowerHash(text: Text) {
    |text| == 64 && forall i | 0 <= i < 64 :: IsLowerHex(text[i])
  }

  /** ToLowerInvariant on such a text. */
  function Lower(text: Text): Text {
    seq(|text|, i requires 0 <= i < |text| => if 'A' as int <= text[i] <= 'Z' as int then text[i] + 32 else text[i])
  }

  lemma LowerIsLower(text: Text)
    requires IsHash(text)
    ensures IsLowerHash(Lower(text))
  {
    var lowered := Lower(text);
    forall i | 0 <= i < 64 ensures IsLowerHex(lowered[i]) { assert IsHex(text[i]); }
  }
}
