/** C strings: a buffer read up to its first NUL. */
module CString {

  const NUL := '\0'

  /** There is a NUL at or after position i. */
  predicate Terminated(s: string, i: nat) {
    exists k :: i <= k < |s| && s[k] == NUL
  }

  /** The text from position i to the first NUL. */
  function Text(s: string, i: nat): string
    requires Terminated(s, i)
    decreases |s| - i
  {
    if s[i] == NUL then [] else [s[i]] + Text(s, i + 1)
  }

  predicate NulFree(s: string) {
    forall k :: 0 <= k < |s| ==> s[k] != NUL
  }

  lemma {:induction false} TextIs(s: string, i: nat, name: string)
    requires i + |name| < |s| && s[i..i + |name|] == name && s[i + |name|] == NUL && NulFree(name)
    ensures Terminated(s, i) && Text(s, i) == name
    decreases |name|
  {
    if name != [] {
      assert s[i] == s[i..i + |name|][0] == name[0];
      assert s[i + 1..i + |name|] == s[i..i + |name|][1..] == name[1..];
      TextIs(s, i + 1, name[1..]);
    }
  }

  function Blanks(n: nat): (s: string)
    ensures |s| == n && forall i :: 0 <= i < n ==> s[i] == ' '
  {
    seq(n, _ => ' ')
  }

  /** `strcmp` on NUL-free strings: negative, zero or positive. */
  function Strcmp(a: string, b: string): (r: int)
    ensures r == 0 <==> a == b
  {
    if a == [] || b == [] then |a| - |b|
    else if a[0] != b[0] then a[0] as int - b[0] as int
    else
      assert a == [a[0]] + a[1..] && b == [b[0]] + b[1..];
      Strcmp(a[1..], b[1..])
  }

  lemma {:induction false} StrcmpIsAntisymmetric(a: string, b: string)
    ensures Strcmp(a, b) < 0 <==> Strcmp(b, a) > 0
    decreases |a|
  {
    if a != [] && b != [] && a[0] == b[0] { StrcmpIsAntisymmetric(a[1..], b[1..]); }
  }

  lemma {:induction false} StrcmpIsTransitive(a: string, b: string, c: string)
    requires Strcmp(a, b) < 0 && Strcmp(b, c) < 0
    ensures Strcmp(a, c) < 0
    decreases |a|
  {
    if a != [] && c != [] && a[0] == b[0] == c[0] { StrcmpIsTransitive(a[1..], b[1..], c[1..]); }
  }
}
