/** The hex strings in which the SWIG runtime passes raw bytes and pointers (`SWIG_PackData`,
    `SWIG_UnpackData`, `SWIG_PackVoidPtr` and `SWIG_UnpackVoidPtr` in grib-api/python/gribapi_swig_wrap.c). */
module HexCodec {
  import opened CString

  newtype Byte = x: int | 0 <= x < 256

  const HEX := "0123456789abcdef"

  // ----- The code as values -----

  function HexOf(b: Byte): (s: string)
    ensures |s| == 2
  {
    [HEX[b as int / 16], HEX[b as int % 16]]
  }

  function Encode(bytes: seq<Byte>): (s: string)
    ensures |s| == 2 * |bytes|
  {
    if bytes == [] then [] else Encode(bytes[..|bytes| - 1]) + HexOf(bytes[|bytes| - 1])
  }

  /** The value of a lower-case hex digit; -1 for any other character. */
  function Digit(c: char): (d: int)
    ensures -1 <= d < 16
    ensures d >= 0 ==> HEX[d] == c
  {
    if '0' <= c <= '9' then c as int - '0' as int
    else if 'a' <= c <= 'f' then c as int - 'a' as int + 10
    else -1
  }

  /** The characters from a up to b are lower-case hex digits. */
  predicate IsHex(s: string, a: nat, b: nat) {
    b <= |s| && forall i :: a <= i < b ==> Digit(s[i]) >= 0
  }

  function ByteOf(hi: char, lo: char): Byte
    requires Digit(hi) >= 0 && Digit(lo) >= 0
  {
    (Digit(hi) * 16 + Digit(lo)) as Byte
  }

  lemma DigitOfHex(d: int)
    requires 0 <= d < 16
    ensures Digit(HEX[d]) == d
  {
  }

  lemma ByteRoundTrip(b: Byte)
    ensures var s := HexOf(b); Digit(s[0]) >= 0 && Digit(s[1]) >= 0 && ByteOf(s[0], s[1]) == b
  {
    DigitOfHex(b as int / 16);
    DigitOfHex(b as int % 16);
  }

  lemma HexRoundTrip(hi: char, lo: char)
    requires Digit(hi) >= 0 && Digit(lo) >= 0
    ensures HexOf(ByteOf(hi, lo)) == [hi, lo]
  {
    var b := ByteOf(hi, lo);
    DivideBy16(Digit(hi), Digit(lo));
    assert b as int / 16 == Digit(hi) && b as int % 16 == Digit(lo);
  }

  lemma DivideBy16(h: int, l: int)
    requires 0 <= h < 16 && 0 <= l < 16
    ensures (h * 16 + l) / 16 == h && (h * 16 + l) % 16 == l
  {
  }

  /** Packed data is hex, two characters a byte, and each pair is its byte. */
  lemma {:induction false} EncodeAt(bytes: seq<Byte>, i: nat)
    requires i < |bytes|
    ensures Encode(bytes)[2 * i..2 * i + 2] == HexOf(bytes[i])
  {
    var n := |bytes| - 1;
    if i < n {
      EncodeAt(bytes[..n], i);
      assert Encode(bytes)[2 * i..2 * i + 2] == Encode(bytes[..n])[2 * i..2 * i + 2];
    }
  }

  lemma EncodedPairIsHex(bytes: seq<Byte>, i: nat)
    requires i < |bytes|
    ensures Digit(Encode(bytes)[2 * i]) >= 0 && Digit(Encode(bytes)[2 * i + 1]) >= 0
  {
    EncodeAt(bytes, i);
    ByteRoundTrip(bytes[i]);
    var pair := Encode(bytes)[2 * i..2 * i + 2];
    assert pair[0] == Encode(bytes)[2 * i] && pair[1] == Encode(bytes)[2 * i + 1];
  }

  /** The value of the digit at position i, the high one of a byte coming first. */
  lemma EncodedDigits(bytes: seq<Byte>, i: nat)
    requires i < |bytes|
    ensures var hi, lo := Encode(bytes)[2 * i], Encode(bytes)[2 * i + 1];
            && IsDigit(hi, bytes[i] as int / 16) && IsDigit(lo, bytes[i] as int % 16)
  {
    EncodeAt(bytes, i);
    PairDigits(Encode(bytes), 2 * i, bytes[i]);
  }

  lemma PairDigits(s: string, j: nat, b: Byte)
    requires j + 2 <= |s| && s[j..j + 2] == HexOf(b)
    ensures IsDigit(s[j], b as int / 16) && IsDigit(s[j + 1], b as int % 16)
  {
    assert s[j] == s[j..j + 2][0] && s[j + 1] == s[j..j + 2][1];
    HexDigits(b as int / 16);
    HexDigits(b as int % 16);
  }

  /** c is the lower-case hex digit of value d. */
  predicate IsDigit(c: char, d: int) {
    ('0' <= c <= '9' && d == c as int - '0' as int) || ('a' <= c <= 'f' && d == c as int - 'a' as int + 10)
  }

  lemma HexDigits(d: int)
    requires 0 <= d < 16
    ensures IsDigit(HEX[d], d)
  {
  }

  /** Packed data is lower-case hex throughout. */
  lemma EncodeIsHex(bytes: seq<Byte>)
    ensures IsHex(Encode(bytes), 0, 2 * |bytes|)
  {
    forall j | 0 <= j < 2 * |bytes| ensures Digit(Encode(bytes)[j]) >= 0 {
      var i := j / 2;
      EncodedPairIsHex(bytes, i);
      assert j == 2 * i || j == 2 * i + 1;
    }
  }

  /** Two strings of bytes never pack alike. */
  lemma EncodeIsInjective(a: seq<Byte>, b: seq<Byte>)
    requires Encode(a) == Encode(b)
    ensures a == b
  {
    forall i | 0 <= i < |a| ensures a[i] == b[i] {
      EncodeAt(a, i);
      EncodeAt(b, i);
      ByteRoundTrip(a[i]);
      ByteRoundTrip(b[i]);
    }
  }

  // ----- The code on buffers -----

  /** `SWIG_PackData`: writes `data` from position `c` on; answers the position after it. */
  method PackData(buff: array<char>, c: nat, data: seq<Byte>) returns (end: nat)
    requires c + 2 * |data| <= buff.Length
    modifies buff
    ensures end == c + 2 * |data|
    ensures buff[..] == old(buff[..c]) + Encode(data) + old(buff[end..])
  {
    end := c;
    for u := 0 to |data|
      invariant end == c + 2 * u
      invariant buff[..end] == old(buff[..c]) + Encode(data[..u])
      invariant buff[end..] == old(buff[end..])
    {
      var uu := data[u] as int;
      ghost var before := buff[..end];
      buff[end] := HEX[uu / 16];
      end := end + 1;
      buff[end] := HEX[uu % 16];
      end := end + 1;
      assert buff[..end] == before + HexOf(data[u]);
      assert data[..u + 1][..u] == data[..u];
    }
    assert data[..|data|] == data;
  }

  /** One byte of `SWIG_UnpackData`: two lower-case hex digits, or failure at the first other character. */
  method UnpackByte(s: string, c: nat) returns (ok: bool, b: Byte)
    requires Terminated(s, c)
    ensures ok <==> IsHex(s, c, c + 2)
    ensures ok ==> HexOf(b) == [s[c], s[c + 1]] && Terminated(s, c + 2)
  {
    ok, b := false, 0;
    var d := s[c];
    if Digit(d) < 0 { return; }
    var e := s[c + 1];
    if Digit(e) < 0 { return; }
    HexRoundTrip(d, e);
    ok, b := true, ByteOf(d, e);
  }

  /** Unpacking stopped at the first pair that is not hex: the u pairs before it have been unpacked, and the
      bytes from u on are still what they were. */
  predicate StoppedAt(s: string, c: nat, now: seq<Byte>, before: seq<Byte>, u: nat) {
    && u < |now| == |before| && c + 2 * u <= |s|
    && IsHex(s, c, c + 2 * u) && !IsHex(s, c + 2 * u, c + 2 * u + 2)
    && s[c..c + 2 * u] == Encode(now[..u]) && now[u..] == before[u..]
  }

  /** `SWIG_UnpackData`: reads |out| bytes from position `c`. It succeeds exactly when the characters are
      lower-case hex digits; then they are the packed form of the bytes, and exactly two characters a byte
      are consumed. On a C string it never reads past the terminating NUL, so no length is needed. */
  method UnpackData(s: string, c: nat, out: array<Byte>) returns (ok: bool, end: nat)
    requires Terminated(s, c)
    modifies out
    ensures ok <==> IsHex(s, c, c + 2 * out.Length)
    ensures ok ==> end == c + 2 * out.Length && s[c..end] == Encode(out[..]) && Terminated(s, end)
    ensures !ok ==> exists u :: StoppedAt(s, c, out[..], old(out[..]), u)
  {
    end := c;
    for u := 0 to out.Length
      invariant end == c + 2 * u && Terminated(s, end) && IsHex(s, c, end)
      invariant s[c..end] == Encode(out[..u])
      invariant forall i :: u <= i < out.Length ==> out[i] == old(out[i])
    {
      var b;
      ok, b := UnpackByte(s, end);
      if !ok {
        assert out[..][u..] == old(out[..])[u..] && out[..][..u] == out[..u];
        assert StoppedAt(s, c, out[..], old(out[..]), u);
        return;
      }
      PairAppend(s, c, end, out[..u], b);
      out[u] := b;
      assert out[..u + 1] == out[..u] + [b];
      end := end + 2;
    }
    assert out[..out.Length] == out[..];
    ok := true;
  }

  lemma PairAppend(s: string, c: nat, end: nat, bytes: seq<Byte>, b: Byte)
    requires c <= end && end + 2 <= |s| && s[c..end] == Encode(bytes) && HexOf(b) == [s[end], s[end + 1]]
    ensures s[c..end + 2] == Encode(bytes + [b])
  {
  }

  /** Unpacking what was packed succeeds, and can only give the same bytes. */
  lemma UnpackInvertsPack(s: string, c: nat, bytes: seq<Byte>, out: seq<Byte>)
    requires c + 2 * |bytes| <= |s| && s[c..c + 2 * |bytes|] == Encode(bytes) && |out| == |bytes|
    ensures IsHex(s, c, c + 2 * |bytes|)
    ensures s[c..c + 2 * |bytes|] == Encode(out) <==> out == bytes
  {
    EncodeIsHex(bytes);
    forall i | c <= i < c + 2 * |bytes| ensures Digit(s[i]) >= 0 {
      assert s[i] == Encode(bytes)[i - c];
    }
    if s[c..c + 2 * |bytes|] == Encode(out) { EncodeIsInjective(out, bytes); }
  }

  // ----- Pointers -----

  /** `SWIG_PackVoidPtr`: an underscore, the pointer's bytes in hex, and the type name with its NUL, if the
      buffer of size `bsz` has room for them. */
  method PackVoidPtr(buff: array<char>, bytes: seq<Byte>, name: string, bsz: nat) returns (ok: bool)
    requires bsz <= buff.Length
    modifies buff
    ensures ok <==> 2 * |bytes| + 2 + |name| <= bsz
    ensures ok ==> buff[..2 * |bytes| + 2 + |name|] == Packed(bytes, name)
    ensures buff[bsz..] == old(buff[bsz..])
  {
    if 2 * |bytes| + 2 > bsz { return false; }
    buff[0] := '_';
    assert buff[..1] == ['_'];
    var r := PackData(buff, 1, bytes);
    assert buff[..r] == ['_'] + Encode(bytes);
    if |name| + 1 > bsz - r { return false; }
    Strcpy(buff, r, name);
    ok := true;
  }

  function Packed(bytes: seq<Byte>, name: string): (s: string)
    ensures |s| == 2 * |bytes| + 2 + |name|
  {
    ['_'] + Encode(bytes) + name + [NUL]
  }

  /** `strcpy`. */
  method Strcpy(buff: array<char>, r: nat, name: string)
    requires r + |name| + 1 <= buff.Length
    modifies buff
    ensures buff[..] == old(buff[..r]) + name + [NUL] + old(buff[r + |name| + 1..])
  {
    for i := 0 to |name|
      invariant buff[..r + i] == old(buff[..r]) + name[..i]
      invariant buff[r + i..] == old(buff[r + i..])
    {
      buff[r + i] := name[i];
    }
    buff[r + |name|] := NUL;
  }

  datatype Unpacked = Failed | Null(name: string) | Pointer(end: nat)

  /** `SWIG_UnpackVoidPtr`: the position after a packed pointer, or the given name for the string NULL. */
  method UnpackVoidPtr(s: string, out: array<Byte>, name: string) returns (r: Unpacked)
    requires Terminated(s, 0)
    modifies out
    ensures r.Null? <==> Text(s, 0) == "NULL"
    ensures r.Null? ==> r.name == name && forall i :: 0 <= i < out.Length ==> out[i] == 0
    ensures r.Pointer? <==> s[0] == '_' && IsHex(s, 1, 1 + 2 * out.Length)
    ensures r.Pointer? ==> r.end == 1 + 2 * out.Length && s[1..r.end] == Encode(out[..]) && Terminated(s, r.end)
    ensures r.Failed? ==> if s[0] == '_' then exists u :: StoppedAt(s, 1, out[..], old(out[..]), u)
                          else out[..] == old(out[..])
  {
    if s[0] != '_' {
      if Text(s, 0) == "NULL" {
        for i := 0 to out.Length
          invariant forall j :: 0 <= j < i ==> out[j] == 0
        {
          out[i] := 0;
        }
        return Null(name);
      }
      return Failed;
    }
    assert Text(s, 0)[0] == '_';
    var ok, end := UnpackData(s, 1, out);
    r := if ok then Pointer(end) else Failed;
  }

  /** A packed pointer, whatever follows it in its buffer: unpacking it succeeds with the pointer's bytes and
      no others, and what is left is the type name. */
  lemma PointerRoundTrip(s: string, bytes: seq<Byte>, name: string, out: seq<Byte>)
    requires Packed(bytes, name) <= s && |out| == |bytes|
    requires NulFree(name)
    ensures var end := 1 + 2 * |bytes|;
            && s[0] == '_' && IsHex(s, 1, end)
            && (s[1..end] == Encode(out) <==> out == bytes)
            && Terminated(s, end) && Text(s, end) == name
  {
    var p, end := Packed(bytes, name), 1 + 2 * |bytes|;
    assert forall i :: 0 <= i < |p| ==> s[i] == p[i];
    assert s[1..end] == p[1..end] == Encode(bytes);
    UnpackInvertsPack(s, 1, bytes, out);
    assert s[|p| - 1] == NUL;
    assert s[end..end + |name|] == p[end..end + |name|] == name;
    TextIs(s, end, name);
  }
}
