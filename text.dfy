/**
 * The two string operations findEvents' filter uses: toLowerCase and
 * indexOf, over ASCII letters.
 */
module Text {

  /** One character of toLowerCase: 'A'..'Z' become 'a'..'z', every other character is kept. */
  function LowerChar(c: char): char
  {
    if 'A' <= c <= 'Z' then (c as int + 32) as char else c
  }

  /** toLowerCase, character by character. */
  function Lower(s: string): (r: string)
    ensures |r| == |s|
    ensures forall i | 0 <= i < |s| && 'A' <= s[i] <= 'Z' :: r[i] as int == s[i] as int + 32
    ensures forall i | 0 <= i < |s| && !('A' <= s[i] <= 'Z') :: r[i] == s[i]
  {
    seq(|s|, i requires 0 <= i < |s| => LowerChar(s[i]))
  }

  /** Lowering is idempotent, so a key lowered once matches as one lowered twice. */
  lemma LowerIdempotent(s: string)
    ensures Lower(Lower(s)) == Lower(s)
    ensures forall i | 0 <= i < |s| :: !('A' <= Lower(s)[i] <= 'Z')
  {
    assert forall i | 0 <= i < |s| :: LowerChar(LowerChar(s[i])) == LowerChar(s[i]);
  }

  /** `key` occurs in `s` starting at position `i`. */
  predicate OccursAt(s: string, key: string, i: int)
  {
    0 <= i && i + |key| <= |s| && s[i..i + |key|] == key
  }

  /** The first position at or after `i` where `key` occurs in `s`, or -1 when there is none. */
  function IndexFrom(s: string, key: string, i: nat): (r: int)
    requires i <= |s|
    ensures r == -1 || (i <= r && OccursAt(s, key, r))
    ensures r == -1 ==> forall j | i <= j :: !OccursAt(s, key, j)
    ensures r != -1 ==> forall j | i <= j < r :: !OccursAt(s, key, j)
    decreases |s| - i
  {
    if i + |key| > |s| then -1
    else if s[i..i + |key|] == key then i
    else IndexFrom(s, key, i + 1)
  }

  /**
   * indexOf: the first position of `key` in `s`, or -1; so `indexOf(key) > -1`
   * holds exactly when `key` occurs somewhere in `s`.
   */
  function IndexOf(s: string, key: string): (r: int)
    ensures r > -1 <==> exists j :: OccursAt(s, key, j)
    ensures r > -1 ==> OccursAt(s, key, r) && forall j | 0 <= j < r :: !OccursAt(s, key, j)
  {
    IndexFrom(s, key, 0)
  }

  /** `key` occurs somewhere in `s`. */
  ghost predicate Contains(s: string, key: string)
  {
    exists j :: OccursAt(s, key, j)
  }

  /** Lowering commutes with taking a slice. */
  lemma LowerSlice(s: string, i: nat, j: nat)
    requires i <= j <= |s|
    ensures Lower(s)[i..j] == Lower(s[i..j])
  {
  }

  /** A key occurring in a string occurs, lowered, at the same place in the lowered string. */
  lemma {:induction false} OccursLowered(s: string, key: string, j: int)
    requires OccursAt(s, key, j)
    ensures OccursAt(Lower(s), Lower(key), j)
  {
    LowerSlice(s, j, j + |key|);
  }
}
