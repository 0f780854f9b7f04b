/**
 Case-insensitive name search, as both pages write it: the lower-cased query occurs somewhere
 in the lower-cased name.
 Lower-casing is modelled for ASCII letters only.
 */
module Text {

  function LowerChar(c: char): (d: char)
    ensures 'A' <= c <= 'Z' ==> d != c && 'a' <= d <= 'z'
    ensures !('A' <= c <= 'Z') ==> d == c
  {
    if 'A' <= c <= 'Z' then (c as int + 32) as char else c
  }

  /** `String.prototype.toLowerCase`, restricted to ASCII. */
  function Lower(s: string): (r: string)
    ensures |r| == |s|
    ensures forall i :: 0 <= i < |s| ==> r[i] == LowerChar(s[i])
    ensures forall i :: 0 <= i < |r| ==> !('A' <= r[i] <= 'Z')
  {
    seq(|s|, i requires 0 <= i < |s| => LowerChar(s[i]))
  }

  /** Lower-casing twice changes nothing more. */
  lemma LowerIdempotent(s: string)
    ensures Lower(Lower(s)) == Lower(s)
  {
  }

  predicate StartsWith(s: string, prefix: string) {
    |prefix| <= |s| && s[..|prefix|] == prefix
  }

  /** `String.prototype.includes`: scans every start position from the left. */
  predicate Contains(hay: string, needle: string)
    decreases |hay|
  {
    StartsWith(hay, needle) || (|hay| > 0 && Contains(hay[1..], needle))
  }

  /** Reference definition of substring occurrence: `needle` sits at offset `i` of `hay`. */
  ghost predicate OccursAt(hay: string, needle: string, i: int) {
    0 <= i && i + |needle| <= |hay| && hay[i..i + |needle|] == needle
  }

  /** The scanning search finds the needle exactly when it occurs at some offset. */
  lemma {:induction false} ContainsIffOccurs(hay: string, needle: string)
    ensures Contains(hay, needle) <==> exists i :: OccursAt(hay, needle, i)
    decreases |hay|
  {
    if StartsWith(hay, needle) {
      assert OccursAt(hay, needle, 0);
    } else if |hay| > 0 {
      ContainsIffOccurs(hay[1..], needle);
      if exists i :: OccursAt(hay, needle, i) {
        var i :| OccursAt(hay, needle, i);
        assert i != 0;
        assert hay[1..][i - 1..i - 1 + |needle|] == hay[i..i + |needle|];
        assert OccursAt(hay[1..], needle, i - 1);
      }
      if exists j :: OccursAt(hay[1..], needle, j) {
        var j :| OccursAt(hay[1..], needle, j);
        assert hay[1..][j..j + |needle|] == hay[j + 1..j + 1 + |needle|];
        assert OccursAt(hay, needle, j + 1);
      }
    }
  }

  /** The empty string is contained in every string. */
  lemma ContainsEmpty(hay: string)
    ensures Contains(hay, "")
  {
    assert StartsWith(hay, "");
  }

  /** Case-insensitive containment of `query` in `name`. */
  predicate Matches(name: string, query: string) {
    Contains(Lower(name), Lower(query))
  }

  /**
   The detail page's guard, which skips matching for an empty query. An empty query is
   contained in every name anyway, so the guard agrees with plain matching on every input.
   */
  predicate QueryAccepts(name: string, query: string)
    ensures QueryAccepts(name, query) <==> Matches(name, query)
  {
    ContainsEmpty(Lower(name));
    if query == "" then true else Matches(name, query)
  }

  /** Matching ignores the case of the query. */
  lemma MatchesIgnoresQueryCase(name: string, query: string)
    ensures Matches(name, query) <==> Matches(name, Lower(query))
  {
    LowerIdempotent(query);
  }
}
