/** The string operations the core relies on, restricted to ASCII letters. */
module Text {

  function LowerChar(c: char): char
  {
    if 'A' <= c <= 'Z' then (c as int + 32) as char else c
  }

  function UpperChar(c: char): char
  {
    if 'a' <= c <= 'z' then (c as int - 32) as char else c
  }

  /** Python's `str.upper()` on the ASCII letters; every other character is kept. */
  function Upper(s: string): (r: string)
    ensures |r| == |s|
    ensures forall i :: 0 <= i < |s| ==> r[i] == UpperChar(s[i])
  {
    if s == [] then [] else [UpperChar(s[0])] + Upper(s[1..])
  }

  /** `s` begins with `prefix`, letters compared without regard to case. */
  predicate StartsWithCI(s: string, prefix: string)
  {
    |prefix| <= |s| && forall i :: 0 <= i < |prefix| ==> LowerChar(s[i]) == LowerChar(prefix[i])
  }

  /** `needle` occurs in `hay` at position `k`, compared without regard to case. */
  ghost predicate OccursAt(hay: string, needle: string, k: int)
  {
    0 <= k <= |hay| && StartsWithCI(hay[k..], needle)
  }

  /** The `icontains` query operator: `needle` is a case-insensitive substring of `hay`. */
  function IContains(hay: string, needle: string): (b: bool)
    ensures b <==> exists k :: OccursAt(hay, needle, k)
    decreases |hay|
  {
    if StartsWithCI(hay, needle) then
      assert OccursAt(hay, needle, 0) by { assert hay[0..] == hay; }
      true
    else if |hay| == 0 then
      assert hay[0..] == hay;
      false
    else
      ShiftOccurrence(hay, needle);
      IContains(hay[1..], needle)
  }

  /** Occurrences in `hay` past its first position are the occurrences in `hay[1..]`, shifted by one. */
  lemma ShiftOccurrence(hay: string, needle: string)
    requires |hay| > 0 && !StartsWithCI(hay, needle)
    ensures (exists k :: OccursAt(hay, needle, k)) <==> (exists k :: OccursAt(hay[1..], needle, k))
  {
    forall k | OccursAt(hay, needle, k)
      ensures OccursAt(hay[1..], needle, k - 1)
    {
      assert hay[0..] == hay;
      assert hay[1..][k - 1..] == hay[k..];
    }
    forall k | OccursAt(hay[1..], needle, k)
      ensures OccursAt(hay, needle, k + 1)
    {
      assert hay[1..][k..] == hay[k + 1..];
    }
  }
}
