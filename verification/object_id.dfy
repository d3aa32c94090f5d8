/** Document identifiers: 12-byte ObjectIDs, written as 24 hexadecimal digits.
    Only the textual form matters to the handlers, so an id is its canonical
    (lower-case) hex string; parsing accepts either letter case. */
module ObjectIds {
  import opened Wrappers

  predicate IsHexDigit(c: char) {
    '0' <= c <= '9' || 'a' <= c <= 'f' || 'A' <= c <= 'F'
  }

  predicate IsLowerHexDigit(c: char) {
    '0' <= c <= '9' || 'a' <= c <= 'f'
  }

  /** 24 lower-case hex digits: the text `ObjectID.Hex()` produces. */
  predicate IsCanonicalHex(s: string) {
    |s| == 24 && forall i :: 0 <= i < |s| ==> IsLowerHexDigit(s[i])
  }

  type ObjectId = s: string | IsCanonicalHex(s) witness "000000000000000000000000"

  /** The all-zero id a decoder produces for a document without `_id`. */
  const NilObjectId: ObjectId := "000000000000000000000000"

  function LowerDigit(c: char): (d: char)
    requires IsHexDigit(c)
    ensures IsLowerHexDigit(d)
    ensures IsLowerHexDigit(c) ==> d == c
  {
    if 'A' <= c <= 'F' then (c as int - 'A' as int + 'a' as int) as char else c
  }

  /** `ObjectIDFromHex`: exactly 24 hex digits of either case parse, anything else is rejected. */
  function FromHex(s: string): (r: Option<ObjectId>)
    ensures r.Some? <==> |s| == 24 && forall i :: 0 <= i < |s| ==> IsHexDigit(s[i])
    ensures r.Some? ==> forall i :: 0 <= i < 24 ==> r.value[i] == LowerDigit(s[i])
  {
    if |s| == 24 && forall i :: 0 <= i < |s| ==> IsHexDigit(s[i]) then
      Some(seq(24, i requires 0 <= i < 24 => LowerDigit(s[i])))
    else None
  }

  /** Printing an id and parsing the text back yields the same id. */
  lemma FromHexOfHex(id: ObjectId)
    ensures FromHex(id) == Some(id)
  {
    assert forall i :: 0 <= i < 24 ==> IsHexDigit(id[i]);
    assert FromHex(id).value == id;
  }
}
