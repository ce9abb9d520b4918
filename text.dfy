/** Small facts about strings shared by the label parser and the template splice. */
module Text {

  /** `n` spaces: the indentation of a line of generated markup. */
  function Indent(n: nat): (r: string)
    ensures |r| == n && forall i :: 0 <= i < n ==> r[i] == ' '
  {
    seq(n, _ => ' ')
  }

  /** `p` is a prefix of `s`. */
  predicate HasPrefix(s: string, p: string)
  {
    |p| <= |s| && s[..|p|] == p
  }

  /** The longest prefix of `s` that does not contain `c`. */
  function TakeUntil(s: string, c: char): (r: string)
    ensures |r| <= |s| && r == s[..|r|] && c !in r
    ensures |r| < |s| ==> s[|r|] == c
  {
    if s == [] || s[0] == c then [] else [s[0]] + TakeUntil(s[1..], c)
  }

  /** Reading up to `c` stops exactly at the end of a `c`-free prefix. */
  lemma {:induction false} TakeUntilStops(x: string, c: char, rest: string)
    requires c !in x && |rest| > 0 && rest[0] == c
    ensures TakeUntil(x + rest, c) == x
  {
    if x != [] {
      assert (x + rest)[1..] == x[1..] + rest;
      TakeUntilStops(x[1..], c, rest);
    }
  }

  /** Two texts that begin with different characters differ, whatever follows them. */
  lemma DifferentStarts(a: string, x: string, b: string, y: string)
    requires |a| > 0 && |b| > 0 && a[0] != b[0]
    ensures a + x != b + y
  {
    assert (a + x)[0] == a[0] && (b + y)[0] == b[0];
  }
}
