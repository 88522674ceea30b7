/** Lists of strings in fixed-width slots: `grib_c_index_get_string` in grib-api/python/grib_interface.c
    packs them, `grib_index_get_string` in grib-api/python/gribapi.py slices them apart again. */
module FixedWidth {
  import opened CString
  import opened GribErrors

  predicate Fits(values: seq<string>, eachsize: nat) {
    forall i :: 0 <= i < |values| ==> |values[i]| <= eachsize
  }

  /** A value padded with blanks. */
  function Slot(value: string, eachsize: nat): (s: string)
    requires |value| <= eachsize
    ensures |s| == eachsize
  {
    value + Blanks(eachsize - |value|)
  }

  /** The slots one after the other. */
  function Slots(values: seq<string>, eachsize: nat): (s: string)
    requires Fits(values, eachsize)
    ensures |s| == |values| * eachsize
  {
    if values == [] then []
    else
      var n := |values| - 1;
      Slots(values[..n], eachsize) + Slot(values[n], eachsize)
  }

  /** The packing loop. It stops with an error at the first value too long for a slot. */
  method Pack(values: seq<string>, eachsize: nat, val: array<char>) returns (err: int)
    requires |values| * eachsize <= val.Length
    modifies val
    ensures err == GRIB_SUCCESS <==> Fits(values, eachsize)
    ensures err != GRIB_SUCCESS ==> err == GRIB_ARRAY_TOO_SMALL
    ensures err == GRIB_SUCCESS ==> val[..|values| * eachsize] == Slots(values, eachsize)
    ensures val[|values| * eachsize..] == old(val[|values| * eachsize..])
  {
    var p := 0;
    for i := 0 to |values|
      invariant Fits(values[..i], eachsize) && p == i * eachsize <= |values| * eachsize
      invariant val[..p] == Slots(values[..i], eachsize)
      invariant val[|values| * eachsize..] == old(val[|values| * eachsize..])
    {
      var l := |values[i]|;
      if eachsize < l { return GRIB_ARRAY_TOO_SMALL; }
      Room(i, |values|, eachsize);
      WriteSlot(val, p, values[i], eachsize);
      assert values[..i + 1][..i] == values[..i];
      p := p + eachsize;
    }
    assert values[..|values|] == values;
    err := GRIB_SUCCESS;
  }

  lemma Room(i: nat, n: nat, eachsize: nat)
    requires i < n
    ensures i * eachsize + eachsize == (i + 1) * eachsize <= n * eachsize
  {
  }

  /** One slot: the value, then blanks. */
  method WriteSlot(val: array<char>, p: nat, value: string, eachsize: nat)
    requires |value| <= eachsize && p + eachsize <= val.Length
    modifies val
    ensures val[..] == old(val[..p]) + Slot(value, eachsize) + old(val[p + eachsize..])
  {
    var q := p;
    for j := 0 to |value|
      invariant q == p + j
      invariant forall k :: 0 <= k < j ==> val[p + k] == value[k]
      invariant forall k :: 0 <= k < p || q <= k < val.Length ==> val[k] == old(val[k])
    {
      val[q] := value[j];
      q := q + 1;
    }
    for j := 0 to eachsize - |value|
      invariant q == p + |value| + j
      invariant forall k :: 0 <= k < |value| + j ==> val[p + k] == Slot(value, eachsize)[k]
      invariant forall k :: 0 <= k < p || q <= k < val.Length ==> val[k] == old(val[k])
    {
      val[q] := ' ';
      q := q + 1;
    }
    assert val[p..q] == Slot(value, eachsize);
    assert val[..p] == old(val[..p]) && val[q..] == old(val[q..]);
    assert val[..] == val[..p] + val[p..q] + val[q..];
  }

  // ----- Python's side -----

  /** Which characters `rstrip` takes for white space. Byte strings and Unicode strings differ in this. */
  type Spaces = char -> bool

  function RStrip(s: string, isSpace: Spaces): string {
    if EndsInSpace(s, isSpace) then RStrip(s[..|s| - 1], isSpace) else s
  }

  predicate EndsInSpace(s: string, isSpace: Spaces) {
    s != [] && isSpace(s[|s| - 1])
  }

  /** Python slicing: bounds beyond the end are cut back to it. */
  function Slice(s: string, low: nat, high: nat): string
    requires low <= high
  {
    s[(if low < |s| then low else |s|)..(if high < |s| then high else |s|)]
  }

  /** What Python makes of slot i. */
  function ValueAt(raw: string, width: nat, i: nat, isSpace: Spaces): string {
    Room(i, i + 1, width);
    RStrip(Slice(raw, i * width, (i + 1) * width), isSpace)
  }

  /** The unpacking loop. */
  method Unpack(raw: string, nval: nat, width: nat, isSpace: Spaces) returns (result: seq<string>)
    ensures |result| == nval && forall i :: 0 <= i < nval ==> result[i] == ValueAt(raw, width, i, isSpace)
  {
    result := [];
    for i := 0 to nval
      invariant |result| == i && forall j :: 0 <= j < i ==> result[j] == ValueAt(raw, width, j, isSpace)
    {
      var low := i * width;
      var high := (i + 1) * width;
      Room(i, i + 1, width);
      result := result + [RStrip(Slice(raw, low, high), isSpace)];
    }
  }

  lemma {:induction false} RStripBlanks(s: string, n: nat, isSpace: Spaces)
    requires isSpace(' ')
    ensures RStrip(s + Blanks(n), isSpace) == RStrip(s, isSpace)
  {
    if n == 0 {
      assert s + Blanks(0) == s;
    } else {
      assert (s + Blanks(n))[..|s| + n - 1] == s + Blanks(n - 1);
      RStripBlanks(s, n - 1, isSpace);
    }
  }

  lemma {:induction false} RStripShortens(s: string, isSpace: Spaces)
    ensures |RStrip(s, isSpace)| <= |s|
    ensures RStrip(s, isSpace) == s <==> !EndsInSpace(s, isSpace)
  {
    if EndsInSpace(s, isSpace) { RStripShortens(s[..|s| - 1], isSpace); }
  }

  /** The packed list is the slots before i, slot i with value i and blanks, and the slots after it. */
  lemma {:induction false} SlotsSplit(values: seq<string>, eachsize: nat, i: nat) returns (after: string)
    requires Fits(values, eachsize) && i < |values|
    ensures Slots(values, eachsize) == Slots(values[..i], eachsize) + Slot(values[i], eachsize) + after
    decreases |values|
  {
    var n := |values| - 1;
    if i == n {
      after := [];
    } else {
      after := SlotsSplit(values[..n], eachsize, i);
      assert values[..n][..i] == values[..i];
      after := after + Slot(values[n], eachsize);
    }
  }

  lemma SliceOfMiddle(before: string, middle: string, after: string)
    ensures Slice(before + middle + after, |before|, |before| + |middle|) == middle
  {
  }

  /** Slot i holds value i and blanks. */
  lemma SlotAt(values: seq<string>, eachsize: nat, i: nat)
    requires Fits(values, eachsize) && i < |values|
    ensures i * eachsize <= (i + 1) * eachsize
    ensures Slice(Slots(values, eachsize), i * eachsize, (i + 1) * eachsize) == Slot(values[i], eachsize)
  {
    Room(i, |values|, eachsize);
    var after := SlotsSplit(values, eachsize, i);
    SliceOfMiddle(Slots(values[..i], eachsize), Slot(values[i], eachsize), after);
  }

  /** The list Python reads is the list C wrote with each value's trailing white space stripped, in order;
      it is that very list exactly when no value ends in white space. This holds whatever else than the blank
      is taken for white space. */
  lemma PackedListRoundTrip(values: seq<string>, eachsize: nat, result: seq<string>, isSpace: Spaces)
    requires isSpace(' ') && Fits(values, eachsize) && |result| == |values|
    requires forall i :: 0 <= i < |values| ==> result[i] == ValueAt(Slots(values, eachsize), eachsize, i, isSpace)
    ensures forall i :: 0 <= i < |values| ==> result[i] == RStrip(values[i], isSpace)
    ensures result == values <==> forall i :: 0 <= i < |values| ==> !EndsInSpace(values[i], isSpace)
  {
    forall i | 0 <= i < |values|
      ensures result[i] == RStrip(values[i], isSpace)
              && (result[i] == values[i] <==> !EndsInSpace(values[i], isSpace))
    {
      SlotAt(values, eachsize, i);
      RStripBlanks(values[i], eachsize - |values[i]|, isSpace);
      RStripShortens(values[i], isSpace);
    }
  }
}
