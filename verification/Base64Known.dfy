/** The texts of cursors against the published alphabet and test vectors (sections 5 and 10 of RFC 4648). */
module Base64Known {
  import opened Base64Url

  /** A to Z, a to z and 0 to 9 in their order, then the hyphen and the underscore. */
  lemma AlphabetMeaning(v: Sextet)
    ensures CharOf(0) == 'A' && CharOf(26) == 'a' && CharOf(52) == '0' && CharOf(62) == '-' && CharOf(63) == '_'
    ensures v < 25 || 26 <= v < 51 || 52 <= v < 61 ==> CharOf(v + 1) as int == CharOf(v) as int + 1
  {}

  /** Three bytes give four characters, a rest of one or two bytes two or three, and no padding is written. */
  lemma {:induction false} EncodedLength(bytes: seq<Byte>)
    ensures |Encode(bytes)| == 4 * (|bytes| / 3) + if |bytes| % 3 == 0 then 0 else |bytes| % 3 + 1
  {
    if |bytes| >= 3 {
      EncodedLength(bytes[3..]);
    }
  }

  /** The bytes of "f", "fo", "foo", "foobar" and two that need the last characters of the alphabet. */
  lemma KnownTexts()
    ensures Encode([]) == "" && Encode([102]) == "Zg" && Encode([102, 111]) == "Zm8"
    ensures Encode([102, 111, 111]) == "Zm9v"
    ensures Encode([102, 111, 111, 98, 97, 114]) == "Zm9vYmFy"
    ensures Encode([251, 255]) == "-_8"
  {
    assert [102, 111, 111][3..] == [];
    assert [102, 111, 111, 98, 97, 114][3..] == [98, 97, 114] && [98, 97, 114][3..] == [];
  }
}
