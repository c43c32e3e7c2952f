/** Text helpers used by the report filter: lower-casing and substring search. */
module Text {

  /** True for the 26 ASCII capital letters. */
  predicate IsAsciiUpper(c: char) {
    'A' <= c <= 'Z'
  }

  /** Lower-cases one character; only ASCII capitals are affected. */
  function LowerChar(c: char): char {
    if IsAsciiUpper(c) then (c as int + 32) as char else c
  }

  /** Python's `str.lower()`, restricted to ASCII letters. */
  function Lower(s: string): (r: string)
    ensures |r| == |s|
    ensures forall i :: 0 <= i < |s| && !IsAsciiUpper(s[i]) ==> r[i] == s[i]
    ensures forall i :: 0 <= i < |s| && IsAsciiUpper(s[i]) ==>
              'a' <= r[i] <= 'z' && r[i] as int - 'a' as int == s[i] as int - 'A' as int
    ensures forall i :: 0 <= i < |r| ==> !IsAsciiUpper(r[i])
  {
    seq(|s|, i requires 0 <= i < |s| => LowerChar(s[i]))
  }

  /** Lower-casing twice is the same as lower-casing once. */
  lemma LowerIdempotent(s: string)
    ensures Lower(Lower(s)) == Lower(s)
  {
  }

  /** `w` starts at position `i` of `s`. */
  ghost predicate OccursAt(w: string, s: string, i: int) {
    0 <= i && i + |w| <= |s| && s[i..i + |w|] == w
  }

  /** `w` occurs somewhere inside `s` as a contiguous piece (Python's `w in s`). */
  ghost predicate Occurs(w: string, s: string) {
    exists i :: OccursAt(w, s, i)
  }

  /** `w` (of at least two characters) cannot occur where its first two
      characters never appear side by side. */
  lemma NoOccurrence(w: string, s: string)
    requires |w| >= 2
    requires forall i :: 0 <= i < |s| - 1 ==> !(s[i] == w[0] && s[i + 1] == w[1])
    ensures !Occurs(w, s)
  {
    forall i | 0 <= i && i + |w| <= |s| ensures !OccursAt(w, s, i) {
      assert s[i..i + |w|][0] == s[i] && s[i..i + |w|][1] == s[i + 1];
    }
  }

  /** Executable substring search: scans `s` for a position where `w` starts. */
  function Contains(s: string, w: string): (b: bool)
    ensures b <==> Occurs(w, s)
    decreases |s|
  {
    if |w| > |s| then
      false
    else if w <= s then
      assert OccursAt(w, s, 0);
      true
    else
      var b := Contains(s[1..], w);
      assert b ==> Occurs(w, s) by {
        if b {
          var i :| OccursAt(w, s[1..], i);
          assert s[i + 1..i + 1 + |w|] == s[1..][i..i + |w|];
          assert OccursAt(w, s, i + 1);
        }
      }
      assert Occurs(w, s) ==> b by {
        if Occurs(w, s) {
          var i :| OccursAt(w, s, i);
          if i != 0 {
            assert s[1..][i - 1..i - 1 + |w|] == s[i..i + |w|];
            assert OccursAt(w, s[1..], i - 1);
          }
        }
      }
      b
  }
}
