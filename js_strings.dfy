/**
 * The two JavaScript string operations the popup's search relies on:
 * `String.prototype.toLowerCase` (restricted to ASCII letters) and
 * `String.prototype.includes` (substring containment).
 */
module JsStrings {

  predicate IsUpper(c: char) {
    'A' <= c <= 'Z'
  }

  /** Lower-cases one ASCII letter; any other character is left as it is. */
  function LowerChar(c: char): (r: char)
    ensures !IsUpper(r)
    ensures !IsUpper(c) ==> r == c
    ensures IsUpper(c) ==> r as int - c as int == 'a' as int - 'A' as int
  {
    if IsUpper(c) then (c as int + ('a' as int - 'A' as int)) as char else c
  }

  /** `s.toLowerCase()`: lower-cases character by character, keeping the length. */
  function ToLowerCase(s: string): (r: string)
    ensures |r| == |s|
    ensures forall i :: 0 <= i < |s| ==> r[i] == LowerChar(s[i])
  {
    if s == [] then [] else [LowerChar(s[0])] + ToLowerCase(s[1..])
  }

  /** Lower-casing an already lower-cased string changes nothing. */
  lemma ToLowerCaseIdempotent(s: string)
    ensures ToLowerCase(ToLowerCase(s)) == ToLowerCase(s)
  {
  }

  /** `needle` occurs in `hay` starting at position `i`. */
  ghost predicate OccursAt(hay: string, needle: string, i: int) {
    0 <= i && i + |needle| <= |hay| && hay[i..i + |needle|] == needle
  }

  /** `needle` occurs somewhere in `hay`. */
  ghost predicate IsSubstring(needle: string, hay: string) {
    exists i :: OccursAt(hay, needle, i)
  }

  /** `hay.includes(needle)`: tries each start position from the left. */
  function Includes(hay: string, needle: string): (found: bool)
    ensures needle == [] ==> found
    ensures found ==> |needle| <= |hay|
    ensures |needle| <= |hay| && hay[..|needle|] == needle ==> found
    decreases |hay|
  {
    if |hay| < |needle| then false
    else if hay[..|needle|] == needle then true
    else Includes(hay[1..], needle)
  }

  /** `Includes` holds exactly when `needle` is a substring of `hay`. */
  lemma {:induction false} IncludesIsSubstring(hay: string, needle: string)
    ensures Includes(hay, needle) == IsSubstring(needle, hay)
    decreases |hay|
  {
    if |hay| < |needle| {
    } else if hay[..|needle|] == needle {
      assert OccursAt(hay, needle, 0);
    } else {
      var tail := hay[1..];
      IncludesIsSubstring(tail, needle);
      if i :| OccursAt(tail, needle, i) {
        assert tail[i..i + |needle|] == hay[i + 1..i + 1 + |needle|];
        assert OccursAt(hay, needle, i + 1);
      }
      if j :| OccursAt(hay, needle, j) {
        assert j != 0;
        assert j - 1 + |needle| <= |tail|;
        assert forall m :: j <= m < j + |needle| ==> hay[m] == tail[m - 1];
        assert hay[j..j + |needle|] == tail[j - 1..j - 1 + |needle|];
        assert OccursAt(tail, needle, j - 1);
      }
    }
  }

  /** Every string includes the empty string. */
  lemma IncludesEmpty(hay: string)
    ensures Includes(hay, "")
  {
  }

  /** A string without upper-case letters is its own lower-cased form. */
  lemma LowerCaseUnchanged(s: string)
    requires forall i :: 0 <= i < |s| ==> !IsUpper(s[i])
    ensures ToLowerCase(s) == s
  {
  }

  /** A string with no upper-case letter keeps its missing characters missing when lower-cased. */
  lemma LowerCaseKeepsAbsent(s: string, c: char)
    requires forall i :: 0 <= i < |s| ==> !IsUpper(s[i])
    requires c !in s
    ensures c !in ToLowerCase(s)
  {
    LowerCaseUnchanged(s);
  }

  /** A string that lacks the needle's first character does not include the needle. */
  lemma {:induction false} NotIncludesWithoutFirstChar(hay: string, needle: string)
    requires needle != [] && needle[0] !in hay
    ensures !Includes(hay, needle)
    decreases |hay|
  {
    if |hay| >= |needle| {
      assert hay[..|needle|][0] == hay[0];
      assert hay[0] in hay;
      assert forall c :: c in hay[1..] ==> c in hay;
      NotIncludesWithoutFirstChar(hay[1..], needle);
    }
  }
}
