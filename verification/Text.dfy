/** Searching in strings. */
module Text {

  /** The first position of `c`, or the length when there is none. */
  function IndexOf(s: string, c: char): (k: nat)
    ensures k <= |s| && (forall i :: 0 <= i < k ==> s[i] != c) && (k < |s| ==> s[k] == c)
  {
    if s == [] || s[0] == c then 0 else 1 + IndexOf(s[1..], c)
  }

  lemma {:induction false} IndexOfAfter(m: string, c: char, tail: string)
    requires c !in m
    ensures IndexOf(m + [c] + tail, c) == |m|
  {
    if m != [] {
      assert (m + [c] + tail)[1..] == m[1..] + [c] + tail;
      IndexOfAfter(m[1..], c, tail);
    }
  }

  lemma IndexOfNone(s: string, c: char)
    requires c !in s
    ensures IndexOf(s, c) == |s|
  {
  }
}
