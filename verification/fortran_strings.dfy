/** Strings across the Fortran boundary: `cast_char`, `czstr_to_fortran` and `fort_char_clean` in
    grib-api/fortran/grib_fortran.c. A Fortran string has a length and is padded with blanks. */
module FortranStrings {
  import opened CString

  /** `isgraph` in the C locale. */
  predicate IsGraph(c: char) {
    '!' <= c <= '~'
  }

  predicate AllGraph(s: string) {
    forall i :: 0 <= i < |s| ==> IsGraph(s[i])
  }

  /** How many printable characters s has from position i on before another character, or `stop`. */
  function GraphEnd(s: string, i: nat, stop: nat): (p: nat)
    requires i <= stop <= |s|
    ensures i <= p <= stop && (p < stop ==> !IsGraph(s[p]))
    ensures forall k :: i <= k < p ==> IsGraph(s[k])
    decreases stop - i
  {
    if i == stop || !IsGraph(s[i]) then i else GraphEnd(s, i + 1, stop)
  }

  /** Where the text of a buffer ends: at its first NUL, but before its last character. */
  function NulOrLast(s: string, i: nat): (p: nat)
    requires i < |s|
    ensures i <= p < |s| && (p < |s| - 1 ==> s[p] == NUL)
    ensures forall k :: i <= k < p ==> s[k] != NUL
    decreases |s| - i
  {
    if i == |s| - 1 || s[i] == NUL then i else NulOrLast(s, i + 1)
  }

  /** The C text `cast_char` makes of a Fortran string: its leading printable characters; the last
      character of a full string is kept whatever it is, unless it is a blank or NUL. */
  function CastText(s: string): string
    requires s != []
  {
    var p := GraphEnd(s, 0, |s| - 1);
    if p == |s| - 1 && s[p] != ' ' && s[p] != NUL then s else s[..p]
  }

  /** The Fortran string `czstr_to_fortran` makes of a buffer. */
  function Padded(s: string): (r: string)
    requires s != []
    ensures |r| == |s|
  {
    var p := NulOrLast(s, 0);
    s[..p] + Blanks(|s| - p)
  }

  /** The copying loop of `cast_char`. */
  method CopyChars(buf: array<char>, fortstr: array<char>, len: nat)
    requires fortstr != buf && len <= fortstr.Length && len <= buf.Length
    modifies buf
    ensures buf[..len] == fortstr[..len] && buf[len..] == old(buf[len..])
  {
    for i := 0 to len
      invariant buf[..i] == fortstr[..i] && buf[len..] == old(buf[len..])
    {
      buf[i] := fortstr[i];
    }
  }

  lemma CastTextIsNulFree(s: string)
    requires s != []
    ensures |CastText(s)| <= |s| && CastText(s) == s[..|CastText(s)|] && NulFree(CastText(s))
  {
    var p := GraphEnd(s, 0, |s| - 1);
    assert forall i :: 0 <= i < p ==> IsGraph(s[..p][i]);
  }

  /** The rest of `cast_char`: one NUL or two cut the copy to a C string. */
  method CutChars(buf: array<char>, len: nat)
    requires 0 < len < buf.Length
    modifies buf
    ensures var t := CastText(old(buf[..len]));
            |t| <= len && buf[|t|] == NUL && forall i :: 0 <= i < |t| ==> buf[i] == t[i]
    ensures buf[len + 1..] == old(buf[len + 1..])
  {
    ghost var s := buf[..len];
    CastTextIsNulFree(s);
    var p, end := 0, len - 1;
    while IsGraph(buf[p]) && p != end
      invariant p <= end && GraphEnd(s, p, end) == GraphEnd(s, 0, end)
      decreases end - p
    {
      p := p + 1;
    }
    if buf[p] == ' ' { buf[p] := NUL; }
    if p == end { buf[p + 1] := NUL; } else { buf[p] := NUL; }
  }

  /** `cast_char`: copies `len` characters to `buf` and cuts the copy to a C string, within len + 1
      characters. */
  method CastChar(buf: array<char>, fortstr: array?<char>, len: nat) returns (ok: bool)
    requires fortstr != null ==> fortstr != buf && len <= fortstr.Length && len < buf.Length
    modifies buf
    ensures ok <==> len != 0 && fortstr != null
    ensures !ok ==> buf[..] == old(buf[..])
    ensures ok ==> Terminated(buf[..len + 1], 0) && Text(buf[..len + 1], 0) == CastText(fortstr[..len])
    ensures ok ==> buf[len + 1..] == old(buf[len + 1..])
  {
    if len == 0 || fortstr == null { return false; }
    CopyChars(buf, fortstr, len);
    assert buf[len + 1..] == buf[len..][1..];
    ghost var text := CastText(fortstr[..len]);
    CutChars(buf, len);
    assert buf[..len + 1][..|text|] == text;
    CastTextIsNulFree(fortstr[..len]);
    TextIs(buf[..len + 1], 0, text);
    ok := true;
  }

  /** `czstr_to_fortran`. */
  method CzstrToFortran(str: array<char>, len: nat)
    requires 0 < len <= str.Length
    modifies str
    ensures str[..len] == Padded(old(str[..len])) && str[len..] == old(str[len..])
  {
    ghost var s := str[..len];
    var p, end := 0, len - 1;
    while str[p] != NUL && p != end
      invariant p <= end && NulOrLast(s, p) == NulOrLast(s, 0)
      decreases end - p
    {
      p := p + 1;
    }
    ghost var stop := p;
    while p != end
      invariant stop <= p <= end && str[..p] == s[..stop] + Blanks(p - stop)
      invariant str[len..] == old(str[len..])
      decreases end - p
    {
      str[p] := ' ';
      p := p + 1;
    }
    str[p] := ' ';
  }

  /** `fort_char_clean`. */
  method FortCharClean(str: array<char>, len: nat)
    requires 0 < len <= str.Length
    modifies str
    ensures str[..len] == Blanks(len) && str[len..] == old(str[len..])
  {
    var p, end := 0, len - 1;
    while p != end
      invariant p <= end && str[..p] == Blanks(p) && str[len..] == old(str[len..])
      decreases end - p
    {
      str[p] := ' ';
      p := p + 1;
    }
    str[p] := ' ';
  }

  /** The library has written s into the Fortran buffer: with its NUL, or over blanks; or cut off by it. */
  predicate Delivered(buffer: string, s: string) {
    if |s| < |buffer| then
      buffer[..|s|] == s && (buffer[|s|] == NUL || buffer[|s|..] == Blanks(|buffer| - |s|))
    else
      buffer == s[..|buffer|]
  }

  /** Either way of delivering gives the same Fortran string: s cut to leave one blank, and blanks. */
  lemma DeliveriesPadAlike(buffer: string, s: string)
    requires buffer != [] && NulFree(s) && Delivered(buffer, s)
    ensures var n := if |s| < |buffer| then |s| else |buffer| - 1;
            Padded(buffer) == s[..n] + Blanks(|buffer| - n)
  {
    var n, p := if |s| < |buffer| then |s| else |buffer| - 1, NulOrLast(buffer, 0);
    assert buffer[..n] == s[..n];
    assert forall k :: 0 <= k < n ==> buffer[k] == s[k];
    assert forall i :: n <= i < p ==> buffer[i] == ' ';
    assert buffer[..p] == s[..n] + Blanks(p - n);
  }

  lemma GraphEndIs(s: string, stop: nat, p: nat)
    requires p <= stop <= |s| && (p < stop ==> !IsGraph(s[p])) && forall i :: 0 <= i < p ==> IsGraph(s[i])
    ensures GraphEnd(s, 0, stop) == p
  {
  }

  /** A printable string is its own C text, whether blanks follow or it fills its buffer. */
  lemma PrintableTextIsKept(t: string, n: nat)
    requires t != [] && AllGraph(t)
    ensures CastText(t + Blanks(n)) == t
  {
    var s := t + Blanks(n);
    assert n > 0 ==> s[|s| - 1] == ' ' && s[|t|] == ' ';
    GraphEndIs(s, |s| - 1, if n == 0 then |s| - 1 else |t|);
    assert s[..|t|] == t && (n == 0 ==> s == t);
  }

  /** At another character the text ends before it; but the last character of the buffer is kept, whatever it
      is, unless it is a blank or NUL. */
  lemma TextIsCut(t: string, c: char, rest: string)
    requires AllGraph(t) && !('!' <= c <= '~')
    ensures CastText(t + [c] + rest) == if rest == [] && c != ' ' && c != '\0' then t + [c] else t
  {
    var s := t + [c] + rest;
    assert s[|t|] == c && s[..|t|] == t && (rest == [] ==> s == t + [c]);
    GraphEndIs(s, |s| - 1, |t|);
  }

  /** Back in C, padded text is cut at its first character that is not printable. */
  lemma TextOfPadded(f: string, t: string)
    requires |t| < |f| && f[..|t|] == t && f[|t|..] == Blanks(|f| - |t|)
    ensures CastText(f) == t[..GraphEnd(t, 0, |t|)]
  {
    var q := GraphEnd(t, 0, |t|);
    assert forall i :: 0 <= i < |t| ==> f[i] == t[i];
    assert forall i :: 0 <= i < |f| - |t| ==> f[|t|..][i] == f[|t| + i] == ' ';
    assert f[|f| - 1] == ' ' && f[|t|] == ' ';
    GraphEndIs(f, |f| - 1, q);
    assert f[..q] == t[..q];
  }

  /** A string goes to Fortran and back unchanged exactly when it is printable, without blanks, and shorter
      than the Fortran string. */
  lemma FortranRoundTrip(buffer: string, s: string)
    requires buffer != [] && NulFree(s) && Delivered(buffer, s)
    ensures CastText(Padded(buffer)) == s <==> |s| < |buffer| && AllGraph(s)
  {
    DeliveriesPadAlike(buffer, s);
    var n := if |s| < |buffer| then |s| else |buffer| - 1;
    TextOfPadded(Padded(buffer), s[..n]);
    if |s| < |buffer| {
      assert s[..n] == s;
      assert s[..GraphEnd(s, 0, |s|)] == s <==> GraphEnd(s, 0, |s|) == |s|;
    }
  }
}
