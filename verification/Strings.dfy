/** Searching strings. */
module Strings {
  function Find(s: string, stops: set<char>): (n: nat)
    ensures n <= |s| && (forall i :: 0 <= i < n ==> s[i] !in stops) && (n < |s| ==> s[n] in stops)
  {
    if s == "" || s[0] in stops then 0 else 1 + Find(s[1..], stops)
  }

  predicate Free(s: string, stops: set<char>) {
    forall i :: 0 <= i < |s| ==> s[i] !in stops
  }

  lemma FindAt(s: string, t: string, stops: set<char>)
    requires Free(s, stops) && (t == "" || t[0] in stops)
    ensures Find(s + t, stops) == |s| && (s + t)[..|s|] == s && (s + t)[|s|..] == t
  {
    var u := s + t;
    var n := Find(u, stops);
    assert forall i :: 0 <= i < |s| ==> u[i] == s[i];
    assert t != "" ==> u[|s|] == t[0];
  }

  lemma FreeParts(s: string, n: nat, stops: set<char>)
    requires n <= |s| && Free(s, stops)
    ensures Free(s[..n], stops) && Free(s[n..], stops) && s == s[..n] + s[n..]
  {
  }

  lemma FreeBefore(s: string, stops: set<char>)
    ensures Free(s[..Find(s, stops)], stops)
  {
  }

  lemma FindSkips(filler: string, t: string, stops: set<char>)
    requires Free(filler, stops)
    ensures Find(filler + t, stops) == |filler| + Find(t, stops)
  {
    var n := Find(t, stops);
    assert filler + t == (filler + t[..n]) + t[n..];
    assert Free(filler + t[..n], stops);
    FindAt(filler + t[..n], t[n..], stops);
  }

  lemma Behind(s: string, t: string, k: nat)
    requires k <= |t|
    ensures (s + t)[|s| + k..] == t[k..]
  {
  }

  lemma First(c: char, s: string, stops: set<char>)
    requires c in stops
    ensures Find([c] + s, stops) == 0 && ([c] + s)[1..] == s
  {
  }

  lemma FoundAt(s: string, c: char)
    ensures Find(s, {c}) < |s| ==> s[Find(s, {c})] == c
  {
  }

  lemma Around(s: string, n: nat, c: char)
    requires n < |s| && s[n] == c
    ensures s == s[..n] + ([c] + s[n + 1..]) && s[n..] == [c] + s[n + 1..]
  {
  }
}
