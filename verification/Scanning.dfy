/** Scanning over runs of characters. */
module Scanning {

  /** How many characters at the front of `s` satisfy `p`. */
  function Run(s: string, p: char -> bool): (n: nat)
    ensures n <= |s|
  {
    if s != "" && p(s[0]) then 1 + Run(s[1..], p) else 0
  }

  predicate All(s: string, p: char -> bool) {
    forall i :: 0 <= i < |s| ==> p(s[i])
  }

  lemma Dropped(s: string, i: nat, j: nat)
    requires i <= |s| && i + j <= |s|
    ensures s[i..][j..] == s[i + j..] && s[i..][..j] == s[i..i + j]
  {
  }

  method SkipRun(s: string, i: nat, p: char -> bool) returns (j: nat)
    requires i <= |s|
    ensures i <= j <= |s| && j == i + Run(s[i..], p)
  {
    j := i;
    while j < |s| && p(s[j])
      invariant i <= j <= |s| && i + Run(s[i..], p) == j + Run(s[j..], p)
    {
      Dropped(s, j, 1);
      j := j + 1;
    }
  }

  lemma {:induction false} RunOver(v: string, rest: string, p: char -> bool)
    requires All(v, p) && (rest == "" || !p(rest[0]))
    ensures Run(v + rest, p) == |v|
  {
    if v == "" {
      assert v + rest == rest;
    } else {
      assert (v + rest)[1..] == v[1..] + rest;
      RunOver(v[1..], rest, p);
    }
  }
}
