/** The string operations of the search box: `toLowerCase` restricted to
    ASCII letters, and `String.prototype.includes`. */
module Text {

  predicate IsUpper(c: char) {
    'A' <= c <= 'Z'
  }

  /** ASCII lower-casing of one character. */
  function LowerChar(c: char): (d: char)
    ensures !IsUpper(d)
    ensures IsUpper(c) ==> d as int == c as int + 32
    ensures !IsUpper(c) ==> d == c
  {
    if IsUpper(c) then (c as int + 32) as char else c
  }

  /** `s.toLowerCase()` on ASCII: every character lower-cased in place. */
  function Lower(s: string): (r: string)
    ensures |r| == |s|
    ensures forall i :: 0 <= i < |s| ==> r[i] == LowerChar(s[i])
  {
    if s == [] then [] else [LowerChar(s[0])] + Lower(s[1..])
  }

  /** Lower-casing an already lower-cased string changes nothing. */
  lemma LowerIdempotent(s: string)
    ensures Lower(Lower(s)) == Lower(s)
  {
    assert forall i :: 0 <= i < |s| ==> LowerChar(Lower(s)[i]) == Lower(s)[i];
  }

  /** Lower-casing commutes with taking a slice. */
  lemma LowerSlice(s: string, lo: nat, hi: nat)
    requires lo <= hi <= |s|
    ensures Lower(s)[lo..hi] == Lower(s[lo..hi])
  {
  }

  /** `q` occurs in `s` as a contiguous block starting at position `i`. */
  predicate OccursAt(s: string, q: string, i: nat) {
    i + |q| <= |s| && s[i..i + |q|] == q
  }

  /** `q` occurs somewhere in `s`: the reference meaning of a substring test. */
  ghost predicate Occurs(s: string, q: string) {
    exists i: nat :: OccursAt(s, q, i)
  }

  /** `s.includes(q)`: a left-to-right search for `q` in `s`. */
  function Includes(s: string, q: string): (found: bool)
    ensures q == [] ==> found
    ensures found ==> |q| <= |s|
    decreases |s|
  {
    |q| <= |s| && (s[..|q|] == q || Includes(s[1..], q))
  }

  /** The search finds `q` exactly when `q` occurs at some position of `s`. */
  lemma {:induction false} IncludesIffOccurs(s: string, q: string)
    ensures Includes(s, q) <==> Occurs(s, q)
  {
    if |q| <= |s| && s[..|q|] == q {
      assert OccursAt(s, q, 0);
    } else if |s| > 0 {
      IncludesIffOccurs(s[1..], q);
      forall i: nat | OccursAt(s[1..], q, i)
        ensures OccursAt(s, q, i + 1)
      {
        assert s[i + 1..i + 1 + |q|] == s[1..][i..i + |q|];
      }
      forall i: nat | OccursAt(s, q, i)
        ensures i > 0 && OccursAt(s[1..], q, i - 1)
      {
        assert s[i..i + |q|] == s[1..][i - 1..i - 1 + |q|];
      }
    }
  }
}
