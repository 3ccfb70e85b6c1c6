/**
 * Document identifiers. A stored `_id` is rendered by `toString()` as 24
 * lower-case hexadecimal digits; `Types.ObjectId.isValid` and the
 * `ObjectId` constructor accept 24 hexadecimal digits in either case.
 */
module ObjectIds {
  import opened Wrappers
  import opened Text

  predicate IsHexDigit(c: char) {
    '0' <= c <= '9' || 'a' <= c <= 'f' || 'A' <= c <= 'F'
  }

  predicate IsLowerHexDigit(c: char) {
    '0' <= c <= '9' || 'a' <= c <= 'f'
  }

  /** The canonical text form of an id, as `_id.toString()` produces it. */
  predicate IsCanonicalId(s: string) {
    |s| == 24 && forall i | 0 <= i < |s| :: IsLowerHexDigit(s[i])
  }

  type ObjectId = s: string | IsCanonicalId(s) witness "000000000000000000000000"

  /** `Types.ObjectId.isValid(s)` for a string argument. */
  predicate IsValidObjectId(s: string) {
    |s| == 24 && forall i | 0 <= i < |s| :: IsHexDigit(s[i])
  }

  /**
   * `new Types.ObjectId(s)`, which throws on a malformed string
   * (a cast error when mongoose does the conversion).
   */
  function ParseObjectId(s: string): (r: Option<ObjectId>)
    ensures r.Some? <==> IsValidObjectId(s)
    ensures r.Some? ==> EqualsIgnoreCase(r.value, s)
  {
    if IsValidObjectId(s) then
      var id := ToLower(s);
      assert IsCanonicalId(id);
      ToLowerIdempotent(s);
      Some(id)
    else None
  }

  /** The text of a stored id parses back to that id. */
  lemma ParseCanonical(id: ObjectId)
    ensures ParseObjectId(id) == Some(id)
  {
    assert IsValidObjectId(id);
    assert ToLower(id) == id;
  }

  /**
   * Casting a list of id strings, as mongoose does for an array of
   * ObjectId: the whole cast fails when one element is malformed.
   */
  function ParseObjectIds(ss: seq<string>): (r: Option<seq<ObjectId>>)
    ensures r.Some? <==> forall i | 0 <= i < |ss| :: IsValidObjectId(ss[i])
    ensures r.Some? ==> |r.value| == |ss| && forall i | 0 <= i < |ss| :: Some(r.value[i]) == ParseObjectId(ss[i])
    decreases |ss|
  {
    if ss == [] then Some([])
    else
      var head := ParseObjectId(ss[0]);
      var tail := ParseObjectIds(ss[1..]);
      assert forall i | 0 <= i < |ss| - 1 :: ss[1..][i] == ss[i + 1];
      if head.Some? && tail.Some? then Some([head.value] + tail.value) else None
  }
}
