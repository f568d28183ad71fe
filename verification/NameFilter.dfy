/** The test-name filter: does a pattern, up to its first terminator, occur in a name? */
module NameFilter {

  predicate IsTerminator(c: char) {
    c == '*' || c == ',' || c == '"' || c == '\'' || c == ':'
  }

  /** Where the pattern ends: its first terminator after the first character, or its end. */
  function PatternEnd(s: string): (n: nat)
    ensures n <= |s| && (s != [] ==> n >= 1)
    ensures forall i :: 1 <= i < n ==> !IsTerminator(s[i])
    ensures n < |s| ==> IsTerminator(s[n])
  {
    if s == [] then 0 else EndFrom(s, 1)
  }

  function EndFrom(s: string, from: nat): (n: nat)
    requires from <= |s|
    ensures from <= n <= |s| && (forall i :: from <= i < n ==> !IsTerminator(s[i]))
    ensures n < |s| ==> IsTerminator(s[n])
    decreases |s| - from
  {
    if from == |s| || IsTerminator(s[from]) then from else EndFrom(s, from + 1)
  }

  /** The pattern occurs in the name at `k`. */
  predicate OccursAt(name: string, pattern: string, k: nat) {
    k + PatternEnd(pattern) <= |name| &&
    name[k..k + PatternEnd(pattern)] == pattern[..PatternEnd(pattern)]
  }

  ghost predicate Occurs(name: string, pattern: string) {
    pattern != [] && exists k :: OccursAt(name, pattern, k)
  }

  function MatchCode(pattern: string): int {
    if PatternEnd(pattern) < |pattern| && pattern[PatternEnd(pattern)] == ':' then 2 else 1
  }

  /** Nonzero exactly when the pattern starts with a star or occurs in the name, and two
      exactly when such an occurrence ends at a colon. */
  method IsStringInBiggerString(longstring: string, shortstring: string) returns (r: int)
    ensures r == if shortstring != [] && shortstring[0] == '*' then 1
                 else if Occurs(longstring, shortstring) then MatchCode(shortstring) else 0
  {
    if shortstring != [] && shortstring[0] == '*' {
      return 1;
    }
    ghost var n := PatternEnd(shortstring);
    var l := 0;
    while l < |longstring|
      invariant l <= |longstring|
      invariant shortstring != [] ==> forall k :: 0 <= k < l ==> !OccursAt(longstring, shortstring, k)
    {
      var p, s := l, 0;
      while p < |longstring| && s < |shortstring| && longstring[p] == shortstring[s]
        invariant p == l + s <= |longstring| && s <= n && (s == n ==> shortstring == [])
        invariant longstring[l..p] == shortstring[..s]
        decreases |longstring| - p
      {
        assert longstring[l..p + 1] == longstring[l..p] + [longstring[p]];
        assert shortstring[..s + 1] == shortstring[..s] + [shortstring[s]];
        p, s := p + 1, s + 1;
        if s == |shortstring| || IsTerminator(shortstring[s]) {
          EndReached(shortstring, s);
          assert OccursAt(longstring, shortstring, l);
          return if s < |shortstring| && shortstring[s] == ':' then 2 else 1;
        }
      }
      if shortstring != [] && OccursAt(longstring, shortstring, l) {
        OccurrenceGoesOn(longstring, shortstring, l, s);
      }
      l := l + 1;
    }
    return 0;
  }

  lemma EndReached(pattern: string, s: nat)
    requires 1 <= s <= PatternEnd(pattern)
    requires s == |pattern| || IsTerminator(pattern[s])
    ensures s == PatternEnd(pattern)
  {
  }

  /** Inside an occurrence the next characters agree. */
  lemma OccurrenceGoesOn(name: string, pattern: string, k: nat, s: nat)
    requires OccursAt(name, pattern, k) && s < PatternEnd(pattern)
    ensures k + s < |name| && name[k + s] == pattern[s]
  {
    assert name[k + s] == name[k..k + PatternEnd(pattern)][s];
  }

  predicate PartAt(name: string, part: string, k: nat) {
    k + |part| <= |name| && name[k..k + |part|] == part
  }

  ghost predicate Contains(name: string, part: string) {
    exists k :: PartAt(name, part, k)
  }

  /** No star, comma, quote or colon after the first character. */
  predicate Unbroken(part: string) {
    forall i :: 1 <= i < |part| ==> part[i] !in {'*', ',', '"', '\'', ':'}
  }

  lemma PrefixOccurs(name: string, pattern: string, part: string)
    requires part != [] && pattern != [] && PatternEnd(pattern) == |part| && pattern[..|part|] == part
    ensures Occurs(name, pattern) <==> Contains(name, part)
  {
    if Occurs(name, pattern) {
      var k :| OccursAt(name, pattern, k);
      assert PartAt(name, part, k);
    }
    if Contains(name, part) {
      var k :| PartAt(name, part, k);
      assert OccursAt(name, pattern, k);
    }
  }

  /** What the filter means: an unbroken pattern has to be part of the name; a star, comma,
      quote or colon after it, with anything behind, changes no verdict, and only the colon
      shows in the result. */
  lemma FilterMeans(name: string, part: string, c: char, rest: string)
    requires part != [] && Unbroken(part) && c in {'*', ',', '"', '\'', ':'}
    ensures Occurs(name, part) <==> Contains(name, part)
    ensures Occurs(name, part + [c] + rest) <==> Contains(name, part)
    ensures MatchCode(part) == 1 && MatchCode(part + [c] + rest) == if c == ':' then 2 else 1
  {
    var pattern := part + [c] + rest;
    assert forall i :: 1 <= i < |part| ==> pattern[i] == part[i] && !IsTerminator(part[i]);
    assert pattern[|part|] == c && IsTerminator(c);
    assert PatternEnd(part) == |part| && part[..|part|] == part;
    assert PatternEnd(pattern) == |part| && pattern[..|part|] == part;
    PrefixOccurs(name, part, part);
    PrefixOccurs(name, pattern, part);
  }
}
