/** String helpers behind the article search: lower-casing and `String.prototype.includes`. */
module Text {

  /** Lower-cases an ASCII capital; every other character is kept as it is. */
  function Lower(c: char): (r: char)
    ensures !('A' <= r <= 'Z')
    ensures !('A' <= c <= 'Z') ==> r == c
    ensures 'A' <= c <= 'Z' ==> r as int == c as int + 32
  {
    if 'A' <= c <= 'Z' then (c as int + 32) as char else c
  }

  function ToLower(s: string): (r: string)
    ensures |r| == |s|
    ensures forall i :: 0 <= i < |s| ==> r[i] == Lower(s[i])
  {
    seq(|s|, i requires 0 <= i < |s| => Lower(s[i]))
  }

  ghost predicate OccursAt(q: string, s: string, i: int) {
    0 <= i && i + |q| <= |s| && s[i..i + |q|] == q
  }

  /** `q` is a contiguous piece of `s`. */
  ghost predicate Contains(s: string, q: string) {
    exists i :: OccursAt(q, s, i)
  }

  /** `s.includes(q)`, computed by trying each starting position in turn. */
  function Includes(s: string, q: string): (r: bool)
    ensures r <==> Contains(s, q)
    decreases |s|
  {
    if q <= s then
      assert OccursAt(q, s, 0);
      true
    else if |s| == 0 then false
    else
      ShiftOccurrence(s, q);
      Includes(s[1..], q)
  }

  lemma ShiftOccurrence(s: string, q: string)
    requires |s| > 0 && !(q <= s)
    ensures Contains(s, q) <==> Contains(s[1..], q)
  {
    if Contains(s, q) {
      var i :| OccursAt(q, s, i);
      assert i != 0;
      assert s[1..][i - 1..i - 1 + |q|] == s[i..i + |q|];
      assert OccursAt(q, s[1..], i - 1);
    }
    if Contains(s[1..], q) {
      var i :| OccursAt(q, s[1..], i);
      assert s[i + 1..i + 1 + |q|] == s[1..][i..i + |q|];
      assert OccursAt(q, s, i + 1);
    }
  }

  /** Every string contains the empty string. */
  lemma EmptyIsEverywhere(s: string)
    ensures Includes(s, "")
  {
    assert OccursAt("", s, 0);
  }

  /** Matching is case-insensitive in the query: lower-casing it twice is lower-casing it once. */
  lemma ToLowerIdempotent(s: string)
    ensures ToLower(ToLower(s)) == ToLower(s)
  {
  }
}
