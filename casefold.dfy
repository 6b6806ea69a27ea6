/** Case-insensitive comparison of category labels, as the feed does it with
    `toLowerCase()` on both sides. Only the ASCII letters are folded. */
module CaseFold {

  predicate IsUpper(c: char) {
    'A' <= c <= 'Z'
  }

  /** Lower-cases one character: an upper-case ASCII letter becomes its
      lower-case partner, every other character is kept. */
  function LowerChar(c: char): (r: char)
    ensures !IsUpper(r)
    ensures !IsUpper(c) ==> r == c
    ensures IsUpper(c) ==> 'a' <= r <= 'z' && r as int - c as int == 'a' as int - 'A' as int
  {
    if IsUpper(c) then (c as int - 'A' as int + 'a' as int) as char else c
  }

  /** Lower-cases a string: the same length, each character lower-cased. */
  function Lower(s: string): (r: string)
    ensures |r| == |s|
    ensures forall i :: 0 <= i < |s| ==> r[i] == LowerChar(s[i])
  {
    if s == [] then [] else [LowerChar(s[0])] + Lower(s[1..])
  }

  /** The two strings are equal once both are lower-cased: exactly when
      they have the same length and agree letter by letter after folding. */
  predicate EqualIgnoringCase(a: string, b: string)
    ensures EqualIgnoringCase(a, b) <==>
              |a| == |b| && forall i :: 0 <= i < |a| ==> LowerChar(a[i]) == LowerChar(b[i])
  {
    assert |a| == |b| && (forall i :: 0 <= i < |a| ==> LowerChar(a[i]) == LowerChar(b[i])) ==>
             forall i :: 0 <= i < |a| ==> Lower(a)[i] == Lower(b)[i];
    Lower(a) == Lower(b)
  }

  /** Lower-casing twice is lower-casing once, so a string and its
      lower-cased form are equal ignoring case. */
  lemma {:induction false} LowerIdempotent(s: string)
    ensures Lower(Lower(s)) == Lower(s)
    ensures EqualIgnoringCase(Lower(s), s)
  {
    if s != [] {
      LowerIdempotent(s[1..]);
      assert Lower(s) == [LowerChar(s[0])] + Lower(s[1..]);
    }
  }
}
