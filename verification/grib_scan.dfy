/** The loaders of src/: each scans the A file, and most then the B file, for its records. A record is its
    keys and its field; a handle is an open copy of one. */
module GribScan {
  import opened Wrappers

  type Field = seq<real>

  /** The keys the scans look at, `height` being the scaled value of the first surface, and the field. */
  datatype Record = Record(discipline: int, category: int, number: int, level: int, height: int, values: Field)

  /** How far the A and the B file have been read. */
  datatype Cursor = Cursor(aPos: nat, bPos: nat)

  const START := Cursor(0, 0)

  datatype Handle = NoHandle | Handle(id: nat, record: Record)

  /** Forecast steps: hours 0, 6, ..., 384. */
  const STEPS := 65

  function Zeros(n: nat): (f: Field)
    ensures |f| == n && forall i :: 0 <= i < n ==> f[i] == 0.0
  {
    seq(n, _ => 0.0)
  }

  /** The two files of one member and forecast hour, and the handles that are open. */
  class Session {
    const a: seq<Record>
    const b: seq<Record>
    var aPos: nat
    var bPos: nat
    var nextId: nat
    var open: set<nat>

    constructor (a: seq<Record>, b: seq<Record>)
      ensures Valid() && this.a == a && this.b == b && aPos == bPos == 0 && open == {}
    {
      this.a, this.b, aPos, bPos, nextId, open := a, b, 0, 0, 0, {};
    }

    predicate Valid()
      reads this
    {
      aPos <= |a| && bPos <= |b| && forall id :: id in open ==> id < nextId
    }

    function Place(): Cursor
      reads this
    {
      Cursor(aPos, bPos)
    }

    /** Both files have been read to their ends. */
    predicate AtEnd()
      reads this
    {
      aPos == |a| && bPos == |b|
    }

    /** What is left to read of both files. */
    function Rest(): seq<Record>
      requires Valid()
      reads this
    {
      a[aPos..] + b[bPos..]
    }

    /** `grib_handle_new_from_message` and the like: a handle that was never open before. */
    method New(record: Record) returns (h: Handle)
      requires Valid()
      modifies this`nextId, this`open
      ensures Valid() && h.Handle? && h.record == record && nextId == old(nextId) + 1
      ensures h.id !in old(open) && open == old(open) + {h.id}
    {
      h := Handle(nextId, record);
      open := open + {nextId};
      nextId := nextId + 1;
    }

    /** `grib_handle_delete`: the handle must be open, so none is deleted twice. */
    method Delete(h: Handle)
      requires Valid() && (h.Handle? ==> h.id in open)
      modifies this`open
      ensures Valid() && open == old(open) - (if h.Handle? then {h.id} else {})
    {
      if h.Handle? { open := open - {h.id}; }
    }

    /** `grib_handle_new_from_file` on the A file. */
    method NextA() returns (h: Handle)
      requires Valid()
      modifies this
      ensures Valid() && bPos == old(bPos)
      ensures if old(aPos) < |a|
              then h.Handle? && h.record == a[old(aPos)] && aPos == old(aPos) + 1
                   && h.id !in old(open) && open == old(open) + {h.id}
              else h.NoHandle? && aPos == old(aPos) && open == old(open)
    {
      if aPos < |a| {
        h := New(a[aPos]);
        aPos := aPos + 1;
      } else {
        h := NoHandle;
      }
    }

    /** `grib_handle_new_from_file` on the B file. */
    method NextB() returns (h: Handle)
      requires Valid()
      modifies this
      ensures Valid() && aPos == old(aPos)
      ensures if old(bPos) < |b|
              then h.Handle? && h.record == b[old(bPos)] && bPos == old(bPos) + 1
                   && h.id !in old(open) && open == old(open) + {h.id}
              else h.NoHandle? && bPos == old(bPos) && open == old(open)
    {
      if bPos < |b| {
        h := New(b[bPos]);
        bPos := bPos + 1;
      } else {
        h := NoHandle;
      }
    }

    /** The next record of A, else of B, else, if missing input is ignored, a blank one. */
    method Next(ignoreMissing: bool, blank: Record) returns (h: Handle)
      requires Valid()
      modifies this
      ensures Valid()
      ensures Reads(old(Rest()), h, Rest(), ignoreMissing, blank)
      ensures h.Handle? ==> h.id !in old(open)
      ensures open == old(open) + (if h.Handle? then {h.id} else {})
    {
      h := NextA();
      if h.NoHandle? { h := NextB(); }
      if h.NoHandle? && ignoreMissing { h := New(blank); }
    }

    method Rewind()
      requires Valid()
      modifies this`aPos, this`bPos
      ensures Valid() && aPos == bPos == 0
    {
      aPos, bPos := 0, 0;
    }
  }

  // ----- Net radiation: the two-record scan -----

  const DOWN := 192
  const UP := 193

  /** A record the scan stops at: surface (level type 1) downward or upward flux of the category. */
  predicate IsFlux(r: Record, category: int) {
    r.discipline == 0 && r.category == category && (r.number == UP || r.number == DOWN) && r.level == 1
  }

  function Fluxes(rs: seq<Record>, category: int): (w: seq<Record>)
    ensures forall i :: 0 <= i < |w| ==> IsFlux(w[i], category) && w[i] in rs
  {
    if rs == [] then []
    else (if IsFlux(rs[0], category) then [rs[0]] else []) + Fluxes(rs[1..], category)
  }

  lemma FluxesCons(r: Record, rs: seq<Record>, category: int)
    ensures Fluxes([r] + rs, category) == (if IsFlux(r, category) then [r] else []) + Fluxes(rs, category)
  {
  }

  /** `newBlankGribRecord`. */
  function Blank(category: int, number: int, level: int, n: nat): Record {
    Record(0, category, number, level, 0, Zeros(n))
  }

  /** The two records a scan ends with, in the order found. */
  function Pair(w: seq<Record>, category: int, ignoreMissing: bool, n: nat): Option<(Record, Record)> {
    if |w| >= 2 then Some((w[0], w[1]))
    else if !ignoreMissing then None
    else if |w| == 1 then Some((w[0], Blank(category, UP, 1, n)))
    else Some((Blank(category, DOWN, 1, n), Blank(category, UP, 1, n)))
  }

  function Minus(f: Field, g: Field): (r: Field)
    requires |f| == |g|
    ensures |r| == |f| && forall i :: 0 <= i < |r| ==> r[i] == f[i] - g[i]
  {
    seq(|f|, i requires 0 <= i < |f| => f[i] - g[i])
  }

  /** First minus second if they come as down and up; second minus first in every other case. */
  function Net(first: Record, second: Record): Field
    requires |first.values| == |second.values|
  {
    if first.number == DOWN && second.number == UP then Minus(first.values, second.values)
    else Minus(second.values, first.values)
  }

  predicate OnGrid(rs: seq<Record>, n: nat) {
    forall r :: r in rs ==> |r.values| == n
  }

  function NetField(rs: seq<Record>, category: int, ignoreMissing: bool, n: nat): Option<Field>
    requires OnGrid(Fluxes(rs, category), n)
  {
    PairIsOnGrid(rs, category, ignoreMissing, n);
    match Pair(Fluxes(rs, category), category, ignoreMissing, n)
    case None => None
    case Some((first, second)) => Some(Net(first, second))
  }

  /** The state of the scan between its two finds: the first flux is in hand, or none was left and it is blank. */
  predicate FirstFound(w: seq<Record>, first: Record, rest: seq<Record>, category: int, ignoreMissing: bool, n: nat) {
    if w == [] then ignoreMissing && first == Blank(category, DOWN, 1, n) && rest == []
    else w == [first] + Fluxes(rest, category)
  }

  /** A read from `rest` answered h and left `rest'`. */
  predicate Reads(rest: seq<Record>, h: Handle, rest': seq<Record>, ignoreMissing: bool, blank: Record) {
    if rest != [] then h.Handle? && rest == [h.record] + rest'
    else rest' == [] && (if ignoreMissing then h.Handle? && h.record == blank else h.NoHandle?)
  }

  lemma FirstStep(w: seq<Record>, rest: seq<Record>, h: Handle, rest': seq<Record>,
                  category: int, ignoreMissing: bool, n: nat)
    requires Fluxes(rest, category) == w && Reads(rest, h, rest', ignoreMissing, Blank(category, DOWN, 1, n))
    ensures h.NoHandle? ==> w == [] && !ignoreMissing
    ensures h.Handle? && IsFlux(h.record, category) ==> FirstFound(w, h.record, rest', category, ignoreMissing, n)
    ensures h.Handle? && !IsFlux(h.record, category) ==> Fluxes(rest', category) == w && |rest'| < |rest|
  {
  }

  lemma SecondStep(w: seq<Record>, first: Record, rest: seq<Record>, h: Handle, rest': seq<Record>,
                   category: int, ignoreMissing: bool, n: nat)
    requires FirstFound(w, first, rest, category, ignoreMissing, n)
    requires Reads(rest, h, rest', ignoreMissing, Blank(category, UP, 1, n))
    ensures h.NoHandle? ==> |w| == 1 && !ignoreMissing
    ensures h.Handle? && IsFlux(h.record, category) ==> Pair(w, category, ignoreMissing, n) == Some((first, h.record))
    ensures h.Handle? && !IsFlux(h.record, category) ==>
              FirstFound(w, first, rest', category, ignoreMissing, n) && |rest'| < |rest|
  {
    if rest != [] { FluxesCons(h.record, rest', category); }
  }

  function Ids(h: Handle): set<nat> {
    if h.Handle? then {h.id} else {}
  }

  /** Deletes the handle in hand, if there is one, and reads the next record. The handles in `others` stay open. */
  method Advance(s: Session, h: Handle, ignoreMissing: bool, blank: Record, ghost others: set<nat>) returns (h': Handle)
    requires s.Valid() && s.open == others + Ids(h) && others !! Ids(h)
    modifies s
    ensures s.Valid() && s.open == others + Ids(h') && others !! Ids(h')
    ensures Reads(old(s.Rest()), h', s.Rest(), ignoreMissing, blank)
    ensures h'.NoHandle? ==> s.AtEnd()
  {
    if h.Handle? { s.Delete(h); }
    assert s.open == others;
    h' := s.Next(ignoreMissing, blank);
    assert |s.Rest()| == |s.a| - s.aPos + |s.b| - s.bPos;
  }

  /** The scan loop: reads on until it has two fluxes, deleting every other record. */
  method FindPair(s: Session, category: int, ignoreMissing: bool, n: nat) returns (h1: Handle, h2: Handle)
    requires s.Valid()
    modifies s
    ensures s.Valid() && s.open == old(s.open) + Ids(h1) + Ids(h2)
    ensures old(s.open) !! Ids(h1) && old(s.open) + Ids(h1) !! Ids(h2)
    ensures match Pair(Fluxes(old(s.Rest()), category), category, ignoreMissing, n)
            case None => h2.NoHandle? && s.AtEnd() && (h1.Handle? <==> |Fluxes(old(s.Rest()), category)| == 1)
            case Some((first, second)) => h1.Handle? && h2.Handle? && h1.record == first && h2.record == second
  {
    h1, h2 := NoHandle, NoHandle;
    var found1, found2 := false, false;
    ghost var before, w := s.open, Fluxes(s.Rest(), category);
    while !found1 || !found2
      invariant s.Valid() && (found2 ==> found1) && (found1 ==> h1.Handle?) && (!found1 ==> h2.NoHandle?)
      invariant before !! Ids(h1) && before + Ids(h1) !! Ids(h2) && s.open == before + Ids(h1) + Ids(h2)
      invariant !found1 ==> Fluxes(s.Rest(), category) == w
      invariant found1 && !found2 ==> FirstFound(w, h1.record, s.Rest(), category, ignoreMissing, n)
      invariant found2 ==> h2.Handle? && Pair(w, category, ignoreMissing, n) == Some((h1.record, h2.record))
      decreases !found1, !found2, |s.Rest()|
    {
      ghost var rest := s.Rest();
      if !found1 && !found2 {
        h1 := Advance(s, h1, ignoreMissing, Blank(category, DOWN, 1, n), before);
        FirstStep(w, rest, h1, s.Rest(), category, ignoreMissing, n);
        if h1.NoHandle? { return; }
        found1 := IsFlux(h1.record, category);
      } else if found1 && !found2 {
        h2 := Advance(s, h2, ignoreMissing, Blank(category, UP, 1, n), before + Ids(h1));
        SecondStep(w, h1.record, rest, h2, s.Rest(), category, ignoreMissing, n);
        if h2.NoHandle? { return; }
        found2 := IsFlux(h2.record, category);
      }
    }
  }

  /** `loadDataForTimeIntegratedSurfaceNetSolarRadiation` (category 4) and its thermal twin (category 5). On
      success every handle opened has been deleted, once, and the files are rewound. A failure leaves
      both files at their ends and, if one flux was found, its handle open. */
  method LoadNetRadiation(s: Session, category: int, ignoreMissing: bool, n: nat) returns (r: Option<Field>)
    requires s.Valid() && OnGrid(Fluxes(s.Rest(), category), n)
    modifies s
    ensures s.Valid() && r == NetField(old(s.Rest()), category, ignoreMissing, n)
    ensures r.Some? ==> s.open == old(s.open) && s.aPos == s.bPos == 0
    ensures r.None? ==> s.AtEnd()
    ensures r.None? ==> old(s.open) <= s.open && |s.open - old(s.open)| == |Fluxes(old(s.Rest()), category)|
  {
    var h1, h2 := FindPair(s, category, ignoreMissing, n);
    if h2.NoHandle? {
      assert s.open - old(s.open) == Ids(h1);
      return None;
    }
    PairIsOnGrid(old(s.Rest()), category, ignoreMissing, n);
    var newValues := SubtractPair(h1.record, h2.record);
    var ghTemp := s.New(Record(0, 0, 0, 0, 0, newValues));
    s.Delete(h1);
    s.Delete(h2);
    s.Delete(ghTemp);
    s.Rewind();
    r := Some(newValues);
  }

  /** The choice of the order in which the two fields are subtracted. */
  method SubtractPair(first: Record, second: Record) returns (newValues: Field)
    requires |first.values| == |second.values|
    ensures newValues == Net(first, second)
  {
    var oldValues1, oldValues2;
    if first.number == DOWN && second.number == UP {
      oldValues1, oldValues2 := first.values, second.values;
    } else {
      oldValues1, oldValues2 := second.values, first.values;
    }
    newValues := Subtract(oldValues1, oldValues2);
  }

  lemma PairIsOnGrid(rs: seq<Record>, category: int, ignoreMissing: bool, n: nat)
    requires OnGrid(Fluxes(rs, category), n)
    ensures match Pair(Fluxes(rs, category), category, ignoreMissing, n)
            case None => true
            case Some((first, second)) => |first.values| == |second.values| == n
  {
  }

  method Subtract(f: Field, g: Field) returns (r: Field)
    requires |f| == |g|
    ensures r == Minus(f, g)
  {
    var values := new real[|f|];
    for i := 0 to |f|
      invariant forall j :: 0 <= j < i ==> values[j] == f[j] - g[j]
    {
      values[i] := f[i] - g[i];
    }
    r := values[..];
  }

  /** The first record with the number, or a field of zeros if there is none. */
  function Valued(w: seq<Record>, number: int, n: nat): Field {
    if w == [] then Zeros(n) else if w[0].number == number then w[0].values else Valued(w[1..], number, n)
  }

  /** Unless the first two fluxes found are of the same kind, the stored field is downward minus upward flux,
      whichever came first and in whichever file; a missing flux counts as zero. */
  lemma NetIsDownMinusUp(rs: seq<Record>, category: int, ignoreMissing: bool, n: nat)
    requires OnGrid(Fluxes(rs, category), n) && NetField(rs, category, ignoreMissing, n).Some?
    requires var w := Fluxes(rs, category); |w| >= 2 ==> w[0].number != w[1].number
    ensures var w := Fluxes(rs, category);
            && |Valued(w, 192, n)| == |Valued(w, 193, n)| == n
            && NetField(rs, category, ignoreMissing, n) == Some(Minus(Valued(w, 192, n), Valued(w, 193, n)))
  {
    var w := Fluxes(rs, category);
    if |w| >= 2 {
      assert w[0] in w && w[1] in w;
      assert w[1..][0] == w[1];
    } else if |w| == 1 {
      assert w[0] in w && w[1..] == [];
    }
  }

  // ----- Net radiation, in terms of the records themselves -----

  /** The test of the source for a surface flux of the category, downward (192) or upward (193). */
  predicate IsSurfaceFlux(r: Record, category: int) {
    r.discipline == 0 && r.category == category && (r.number == 192 || r.number == 193) && r.level == 1
  }

  lemma {:induction false} NoFluxes(rs: seq<Record>, category: int)
    requires forall k :: 0 <= k < |rs| ==> !IsSurfaceFlux(rs[k], category)
    ensures Fluxes(rs, category) == []
  {
    if rs != [] {
      assert forall k :: 0 <= k < |rs[1..]| ==> rs[1..][k] == rs[k + 1];
      NoFluxes(rs[1..], category);
    }
  }

  lemma {:induction false} FluxesFrom(rs: seq<Record>, category: int, i: nat)
    requires i < |rs| && IsSurfaceFlux(rs[i], category)
    requires forall k :: 0 <= k < i ==> !IsSurfaceFlux(rs[k], category)
    ensures Fluxes(rs, category) == [rs[i]] + Fluxes(rs[i + 1..], category)
    decreases i
  {
    if i > 0 {
      assert forall k :: 0 <= k < |rs[1..]| ==> rs[1..][k] == rs[k + 1];
      FluxesFrom(rs[1..], category, i - 1);
      assert rs[1..][i - 1 + 1..] == rs[i + 1..];
    }
  }

  /** Record i is the first surface flux and record j the next one: the field is their difference, the first less
      the second if that is downward less upward, and otherwise the second less the first. */
  lemma NetOfTwo(rs: seq<Record>, category: int, ignoreMissing: bool, n: nat, i: nat, j: nat)
    requires OnGrid(Fluxes(rs, category), n)
    requires i < j < |rs| && IsSurfaceFlux(rs[i], category) && IsSurfaceFlux(rs[j], category)
    requires forall k :: 0 <= k < j && k != i ==> !IsSurfaceFlux(rs[k], category)
    ensures |rs[i].values| == |rs[j].values| == n
    ensures var net := NetField(rs, category, ignoreMissing, n);
            && net.Some? && |net.value| == n
            && forall p :: 0 <= p < n ==>
                 net.value[p] == if rs[i].number == 192 && rs[j].number == 193
                                 then rs[i].values[p] - rs[j].values[p] else rs[j].values[p] - rs[i].values[p]
  {
    FirstTwoFluxes(rs, category, i, j);
    TwoAreOnGrid(Fluxes(rs, category), n);
  }

  lemma FirstTwoFluxes(rs: seq<Record>, category: int, i: nat, j: nat)
    requires i < j < |rs| && IsSurfaceFlux(rs[i], category) && IsSurfaceFlux(rs[j], category)
    requires forall k :: 0 <= k < j && k != i ==> !IsSurfaceFlux(rs[k], category)
    ensures var w := Fluxes(rs, category); |w| >= 2 && w[0] == rs[i] && w[1] == rs[j]
  {
    var rest := rs[i + 1..];
    FluxesFrom(rs, category, i);
    assert forall k :: 0 <= k < |rest| ==> rest[k] == rs[i + 1 + k];
    FluxesFrom(rest, category, j - i - 1);
  }

  lemma TwoAreOnGrid(w: seq<Record>, n: nat)
    requires OnGrid(w, n)
    ensures |w| >= 1 ==> |w[0].values| == n
    ensures |w| >= 2 ==> |w[1].values| == n
  {
  }

  /** Record i is the only surface flux: the load fails, or a blank one stands in for the other. */
  lemma NetOfOne(rs: seq<Record>, category: int, ignoreMissing: bool, n: nat, i: nat)
    requires OnGrid(Fluxes(rs, category), n)
    requires i < |rs| && IsSurfaceFlux(rs[i], category)
    requires forall k :: 0 <= k < |rs| && k != i ==> !IsSurfaceFlux(rs[k], category)
    ensures |rs[i].values| == n
    ensures var net := NetField(rs, category, ignoreMissing, n);
            && (net.Some? <==> ignoreMissing)
            && (net.Some? ==>
                  && |net.value| == n
                  && forall p :: 0 <= p < n ==>
                       net.value[p] == if rs[i].number == 192 then rs[i].values[p] else -rs[i].values[p])
  {
    var rest := rs[i + 1..];
    FluxesFrom(rs, category, i);
    assert forall k :: 0 <= k < |rest| ==> rest[k] == rs[i + 1 + k];
    NoFluxes(rest, category);
    TwoAreOnGrid(Fluxes(rs, category), n);
  }

  /** There is no surface flux: the load fails, or stores zeros. */
  lemma NetOfNone(rs: seq<Record>, category: int, ignoreMissing: bool, n: nat)
    requires forall k :: 0 <= k < |rs| ==> !IsSurfaceFlux(rs[k], category)
    ensures OnGrid(Fluxes(rs, category), n)
    ensures NetField(rs, category, ignoreMissing, n) == if ignoreMissing then Some(Zeros(n)) else None
  {
    NoFluxes(rs, category);
    assert Minus(Zeros(n), Zeros(n)) == Zeros(n);
  }

  // ----- When the rule holds -----

  predicate AreKinds(kinds: seq<int>) {
    |kinds| >= 2 && forall i :: 0 <= i < |kinds| ==> kinds[i] == DOWN || kinds[i] == UP
  }

  /** Flux records of the given kinds with the given fields. */
  function FluxRecords(category: int, kinds: seq<int>, fields: seq<Field>): (w: seq<Record>)
    requires AreKinds(kinds) && |kinds| == |fields|
    ensures |w| == |kinds| && forall i :: 0 <= i < |w| ==> w[i] == Record(0, category, kinds[i], 1, 0, fields[i])
  {
    seq(|kinds|, i requires 0 <= i < |kinds| => Record(0, category, kinds[i], 1, 0, fields[i]))
  }

  predicate AllOnGrid(fields: seq<Field>, n: nat) {
    forall i :: 0 <= i < |fields| ==> |fields[i]| == n
  }

  /** What the loader makes of these fluxes is the first downward minus the first upward one. */
  predicate FluxesObey(category: int, kinds: seq<int>, fields: seq<Field>, n: nat)
    requires AreKinds(kinds) && |kinds| == |fields| && AllOnGrid(fields, n)
  {
    var w := FluxRecords(category, kinds, fields);
    OwnFluxes(w, category);
    |Valued(w, 192, n)| == |Valued(w, 193, n)|
    && NetField(w, category, false, n) == Some(Minus(Valued(w, 192, n), Valued(w, 193, n)))
  }

  lemma {:induction false} OwnFluxes(w: seq<Record>, category: int)
    requires forall i :: 0 <= i < |w| ==> IsFlux(w[i], category)
    ensures Fluxes(w, category) == w
  {
    if w != [] {
      OwnFluxes(w[1..], category);
      assert w == [w[0]] + w[1..];
    }
  }

  lemma DifferentKindsObey(category: int, kinds: seq<int>, fields: seq<Field>, n: nat)
    requires AreKinds(kinds) && |kinds| == |fields| && AllOnGrid(fields, n) && kinds[0] != kinds[1]
    ensures FluxesObey(category, kinds, fields, n)
  {
    var w := FluxRecords(category, kinds, fields);
    OwnFluxes(w, category);
    NetIsDownMinusUp(w, category, false, n);
  }

  lemma {:induction false} ZerosValued(w: seq<Record>, number: int, n: nat)
    requires forall i :: 0 <= i < |w| && w[i].number == number ==> w[i].values == Zeros(n)
    ensures Valued(w, number, n) == Zeros(n)
  {
    if w != [] && w[0].number != number {
      assert forall i :: 0 <= i < |w[1..]| ==> w[1..][i] == w[i + 1];
      ZerosValued(w[1..], number, n);
    }
  }

  /** Fields that are zero except for the second. */
  function SecondOnly(count: nat, n: nat): (fields: seq<Field>)
    requires n > 0
    ensures |fields| == count && AllOnGrid(fields, n)
    ensures forall i :: 0 <= i < count && i != 1 ==> fields[i] == Zeros(n)
    ensures count > 1 ==> fields[1][0] == 1.0
    decreases count
  {
    if count == 0 then []
    else
      SecondOnly(count - 1, n) + [if count == 2 then Zeros(n)[0 := 1.0] else Zeros(n)]
  }

  lemma NetOfOneKind(category: int, kinds: seq<int>, fields: seq<Field>, n: nat)
    requires AreKinds(kinds) && kinds[0] == kinds[1] && |kinds| == |fields| && AllOnGrid(fields, n)
    ensures var w := FluxRecords(category, kinds, fields);
            Fluxes(w, category) == w && NetField(w, category, false, n) == Some(Minus(fields[1], fields[0]))
  {
    OwnFluxes(FluxRecords(category, kinds, fields), category);
  }

  lemma FirstKindValued(w: seq<Record>, kind: int, n: nat)
    requires |w| >= 2 && w[0].number == w[1].number == kind && w[0].values == Zeros(n)
    requires forall i :: 2 <= i < |w| ==> w[i].values == Zeros(n)
    requires kind == DOWN || kind == UP
    ensures Valued(w, DOWN, n) == Valued(w, UP, n) == Zeros(n)
  {
    ZerosValued(w, DOWN + UP - kind, n);
  }

  /** When the first two fluxes are of one kind the loader stores the second minus the first, whatever follows;
      the rule would have the first one count and the second not. */
  lemma SameKindDisobeys(category: int, kinds: seq<int>, n: nat)
    requires AreKinds(kinds) && kinds[0] == kinds[1] && n > 0
    ensures !FluxesObey(category, kinds, SecondOnly(|kinds|, n), n)
  {
    var fields := SecondOnly(|kinds|, n);
    var w := FluxRecords(category, kinds, fields);
    NetOfOneKind(category, kinds, fields, n);
    FirstKindValued(w, kinds[0], n);
    assert Minus(fields[1], fields[0])[0] == 1.0;
    assert Minus(Zeros(n), Zeros(n))[0] == 0.0;
  }

  /** The condition is needed: whatever two or more fluxes the files hold, the rule holds for all their values
      exactly when the first two are of different kinds. */
  lemma NetNeedsBothKinds(category: int, kinds: seq<int>, n: nat)
    requires AreKinds(kinds) && n > 0
    ensures (forall fields: seq<Field> :: |fields| == |kinds| && AllOnGrid(fields, n) ==>
               FluxesObey(category, kinds, fields, n))
       <==> kinds[0] != kinds[1]
  {
    if kinds[0] != kinds[1] {
      forall fields: seq<Field> | |fields| == |kinds| && AllOnGrid(fields, n)
        ensures FluxesObey(category, kinds, fields, n)
      {
        DifferentKindsObey(category, kinds, fields, n);
      }
    } else {
      SameKindDisobeys(category, kinds, n);
    }
  }

  /** Fluxes come in two kinds only, so there are at most two, and two differ. */
  predicate AtMostOneOfEach(w: seq<Record>) {
    |w| <= 2 && (|w| == 2 ==> w[0].number != w[1].number)
  }

  /** With at most one flux of each kind, the stored field depends only on which flux records there are:
      not on their order, nor on how they are spread over the two files. */
  lemma OrderDoesNotMatter(rs: seq<Record>, rs': seq<Record>, category: int, ignoreMissing: bool, n: nat)
    requires OnGrid(Fluxes(rs, category), n) && OnGrid(Fluxes(rs', category), n)
    requires AtMostOneOfEach(Fluxes(rs, category))
    requires multiset(Fluxes(rs, category)) == multiset(Fluxes(rs', category))
    ensures NetField(rs, category, ignoreMissing, n) == NetField(rs', category, ignoreMissing, n)
  {
    var w, w' := Fluxes(rs, category), Fluxes(rs', category);
    AtMostTwo(w, w');
    PairIsOnGrid(rs, category, ignoreMissing, n);
    if w' != w { SwapMakesNoDifference(w[0], w[1], category); }
  }

  lemma SwapMakesNoDifference(first: Record, second: Record, category: int)
    requires IsFlux(first, category) && IsFlux(second, category) && first.number != second.number
    requires |first.values| == |second.values|
    ensures Net(first, second) == Net(second, first)
  {
  }

  lemma AtMostTwo(w: seq<Record>, w': seq<Record>)
    requires |w| <= 2 && multiset(w) == multiset(w')
    ensures w' == w || (|w| == |w'| == 2 && w' == [w[1], w[0]])
  {
    assert |w| == |multiset(w)| == |multiset(w')| == |w'|;
    if |w| == 2 {
      SamePair(w, w');
    } else if |w| == 1 {
      assert w'[0] in multiset(w);
    }
  }

  lemma SamePair(w: seq<Record>, w': seq<Record>)
    requires |w| == |w'| == 2 && multiset(w) == multiset(w')
    ensures w' == w || w' == [w[1], w[0]]
  {
    assert w == [w[0], w[1]] && w' == [w'[0], w'[1]];
    TwoElements(w[0], w[1], w'[0], w'[1]);
  }

  lemma TwoElements<T>(a: T, b: T, c: T, d: T)
    requires multiset{a, b} == multiset{c, d}
    ensures (a == c && b == d) || (a == d && b == c)
  {
    assert c in multiset{a, b} && d in multiset{a, b};
    if a != b { assert multiset{a, b}[a] == 1 == multiset{a, b}[b]; }
  }

  // ----- Single fluxes -----

  /** The first record with these keys, or none. */
  function FirstWith(rs: seq<Record>, category: int, number: int, level: int): Option<Record> {
    if rs == [] then None
    else if HasKeys(rs[0], category, number, level) then Some(rs[0])
    else FirstWith(rs[1..], category, number, level)
  }

  predicate HasKeys(r: Record, category: int, number: int, level: int) {
    r.discipline == 0 && r.category == category && r.number == number && r.level == level
  }

  /** What is found is the first record of discipline 0 with the three keys, and nothing only if there is none. */
  lemma {:induction false} FirstWithIsFirst(rs: seq<Record>, category: int, number: int, level: int)
    ensures match FirstWith(rs, category, number, level)
            case None =>
              forall k :: 0 <= k < |rs| ==>
                !(rs[k].discipline == 0 && rs[k].category == category && rs[k].number == number && rs[k].level == level)
            case Some(r) =>
              exists i :: 0 <= i < |rs| && rs[i] == r
                && r.discipline == 0 && r.category == category && r.number == number && r.level == level
                && forall k :: 0 <= k < i ==>
                     !(rs[k].discipline == 0 && rs[k].category == category && rs[k].number == number
                       && rs[k].level == level)
  {
    if rs != [] {
      if HasKeys(rs[0], category, number, level) {
        assert FirstWith(rs, category, number, level) == Some(rs[0]);
      } else {
        var rest := rs[1..];
        assert forall k :: 0 <= k < |rest| ==> rest[k] == rs[k + 1];
        FirstWithIsFirst(rest, category, number, level);
        if FirstWith(rest, category, number, level).Some? {
          var r := FirstWith(rest, category, number, level).value;
          var i :| 0 <= i < |rest| && rest[i] == r && forall k :: 0 <= k < i ==>
            !(rest[k].discipline == 0 && rest[k].category == category && rest[k].number == number
              && rest[k].level == level);
          assert rs[i + 1] == r;
        }
      }
    }
  }

  /** `loadDataForTimeIntegratedOutgoingLongWaveRadiation` (5, 193, level type 8) and the latent and sensible
      heat flux loaders of the same shape: the first such record of A, then B, else a blank one if missing
      input is ignored. Every handle opened is deleted, success or not. */
  method LoadFlux(s: Session, category: int, number: int, level: int, ignoreMissing: bool, n: nat)
    returns (r: Option<Field>)
    requires s.Valid()
    modifies s
    ensures s.Valid() && s.open == old(s.open)
    ensures r == match FirstWith(old(s.Rest()), category, number, level)
                 case Some(record) => Some(record.values)
                 case None => if ignoreMissing then Some(Zeros(n)) else None
    ensures if r.Some? then s.Place() == START else s.AtEnd()
  {
    var h := NoHandle;
    var found := false;
    ghost var before, target := s.open, FirstWith(s.Rest(), category, number, level);
    while !found
      invariant s.Valid() && s.open == before + Ids(h) && before !! Ids(h)
      invariant !found ==> FirstWith(s.Rest(), category, number, level) == target
      invariant found ==> h.Handle? && match target
                          case Some(record) => h.record == record
                          case None => ignoreMissing && h.record == Blank(category, number, level, n)
      decreases !found, |s.Rest()|
    {
      ghost var rest := s.Rest();
      h := Advance(s, h, ignoreMissing, Blank(category, number, level, n), before);
      if h.NoHandle? { return None; }
      assert rest != [] ==> rest[1..] == s.Rest();
      found := HasKeys(h.record, category, number, level);
    }
    r := Some(h.record.values);
    s.Delete(h);
    s.Rewind();
  }

  // ----- Precipitation and snow -----

  const APCP := 8
  const CSNOW := 195

  predicate IsMoisture(r: Record, number: int) {
    r.discipline == 0 && r.category == 1 && r.number == number
  }

  /** The first record of total precipitation. */
  function FirstPrecip(rs: seq<Record>): Option<Field> {
    if rs == [] then None else if IsMoisture(rs[0], APCP) then Some(rs[0].values) else FirstPrecip(rs[1..])
  }

  /** Record i is the first of discipline 0, category 1, number 8. */
  lemma {:induction false} FirstPrecipIs(rs: seq<Record>, i: nat)
    requires i < |rs| && rs[i].discipline == 0 && rs[i].category == 1 && rs[i].number == 8
    requires forall k :: 0 <= k < i ==> !(rs[k].discipline == 0 && rs[k].category == 1 && rs[k].number == 8)
    ensures FirstPrecip(rs) == Some(rs[i].values)
    decreases i
  {
    if i > 0 {
      assert forall k :: 0 <= k < |rs[1..]| ==> rs[1..][k] == rs[k + 1];
      FirstPrecipIs(rs[1..], i - 1);
    }
  }

  lemma {:induction false} NoPrecip(rs: seq<Record>)
    requires forall k :: 0 <= k < |rs| ==> !(rs[k].discipline == 0 && rs[k].category == 1 && rs[k].number == 8)
    ensures FirstPrecip(rs) == None
  {
    if rs != [] {
      assert forall k :: 0 <= k < |rs[1..]| ==> rs[1..][k] == rs[k + 1];
      NoPrecip(rs[1..]);
    }
  }

  /** `loadDataForTotalPrecipitation`: nothing is read for the first record of a member, which is a
      placeholder; after that the first precipitation record is wanted of what is left of the A file, which is
      not rewound before, and its lack is an error. */
  method LoadPrecip(s: Session, first: bool, n: nat) returns (r: Option<Field>)
    requires s.Valid()
    modifies s
    ensures s.Valid() && s.open == old(s.open) && s.bPos == old(s.bPos)
    ensures r == if first then Some(Zeros(n)) else FirstPrecip(old(s.a[s.aPos..]))
    ensures s.aPos == if r.Some? then 0 else |s.a|
  {
    r := Some(Zeros(n));
    if !first {
      var h := NoHandle;
      var found := false;
      ghost var before, target := s.open, FirstPrecip(s.a[s.aPos..]);
      while !found
        invariant s.Valid() && s.open == before + Ids(h) && before !! Ids(h) && s.bPos == old(s.bPos)
        invariant !found ==> FirstPrecip(s.a[s.aPos..]) == target
        invariant found ==> h.Handle? && target == Some(h.record.values)
        decreases !found, |s.a| - s.aPos
      {
        h := AdvanceA(s, h, before);
        if h.NoHandle? { return None; }
        found := IsMoisture(h.record, APCP);
      }
      r := Some(h.record.values);
      s.Delete(h);
    }
    s.aPos := 0;
  }

  /** Deletes the handle in hand and reads the next record of the A file. */
  method AdvanceA(s: Session, h: Handle, ghost others: set<nat>) returns (h': Handle)
    requires s.Valid() && s.open == others + Ids(h) && others !! Ids(h)
    modifies s
    ensures s.Valid() && s.open == others + Ids(h') && others !! Ids(h') && s.bPos == old(s.bPos)
    ensures if old(s.aPos) < |s.a|
            then h'.Handle? && h'.record == s.a[old(s.aPos)] && s.aPos == old(s.aPos) + 1
            else h'.NoHandle? && s.aPos == old(s.aPos)
  {
    if h.Handle? { s.Delete(h); }
    assert s.open == others;
    h' := s.NextA();
  }

  /** What the snow scan has seen: the last precipitation field and the last snow flags so far. */
  datatype Seen = Seen(precip: Option<Field>, snow: Option<Field>) {
    predicate Both() {
      precip.Some? && snow.Some?
    }

    function With(r: Record): Seen {
      if IsMoisture(r, APCP) then this.(precip := Some(r.values))
      else if IsMoisture(r, CSNOW) then this.(snow := Some(r.values))
      else this
    }
  }

  /** Reading on until both have been seen, or to the end of the file. */
  function SnowScan(seen: Seen, rs: seq<Record>): Seen
    decreases |rs|
  {
    if seen.Both() || rs == [] then seen else SnowScan(seen.With(rs[0]), rs[1..])
  }

  /** Precipitation where the snow flag is 1, zero elsewhere. */
  function Masked(precip: Field, snow: Field): (f: Field)
    requires |precip| == |snow|
    ensures |f| == |precip|
    ensures forall i :: 0 <= i < |f| ==> f[i] == if snow[i] == 1.0 then precip[i] else 0.0
  {
    seq(|precip|, i requires 0 <= i < |precip| => if snow[i] == 1.0 then precip[i] else 0.0)
  }

  /** The precipitation records and snow flags fit the grid. */
  predicate MoistureOnGrid(rs: seq<Record>, n: nat) {
    forall r :: r in rs && (IsMoisture(r, APCP) || IsMoisture(r, CSNOW)) ==> |r.values| == n
  }

  predicate SeenOnGrid(seen: Seen, n: nat) {
    (seen.precip.Some? ==> |seen.precip.value| == n) && (seen.snow.Some? ==> |seen.snow.value| == n)
  }

  lemma {:induction false} ScanStaysOnGrid(seen: Seen, rs: seq<Record>, n: nat)
    requires MoistureOnGrid(rs, n) && SeenOnGrid(seen, n)
    ensures SeenOnGrid(SnowScan(seen, rs), n)
    decreases |rs|
  {
    if !seen.Both() && rs != [] {
      assert rs[0] in rs;
      ScanStaysOnGrid(seen.With(rs[0]), rs[1..], n);
    }
  }

  const NOTHING_SEEN := Seen(None, None)

  /** The field the snow loader stores: the masked precipitation, or zeros if a record is missing. */
  function SnowField(rs: seq<Record>, n: nat): (f: Field)
    requires MoistureOnGrid(rs, n)
    ensures |f| == n
  {
    ScanStaysOnGrid(NOTHING_SEEN, rs, n);
    var seen := SnowScan(NOTHING_SEEN, rs);
    if seen.Both() then Masked(seen.precip.value, seen.snow.value) else Zeros(n)
  }

  /** `loadDataForTimeIntegratedSnowFallWaterEquivalent`: it never fails; at the end of the file it takes the
      file's first record again as a dummy and stores zeros. Every handle opened is deleted. */
  method LoadSnow(s: Session, n: nat) returns (r: Field)
    requires s.Valid() && MoistureOnGrid(s.a, n)
    modifies s
    ensures s.Valid() && s.open == old(s.open) && s.aPos == s.bPos == 0
    ensures r == SnowField(s.a, n)
  {
    s.Rewind();
    var h1 := NoHandle;
    var seen := NOTHING_SEEN;
    var setDummy := false;
    ghost var before := s.open;
    while !seen.Both() && !setDummy
      invariant s.Valid() && s.open == before + Ids(h1) && before !! Ids(h1) && s.bPos == 0
      invariant SeenOnGrid(seen, n)
      invariant !setDummy ==> SnowScan(seen, s.a[s.aPos..]) == SnowScan(NOTHING_SEEN, s.a)
      invariant setDummy ==> !SnowScan(NOTHING_SEEN, s.a).Both()
      decreases !setDummy, |s.a| - s.aPos
    {
      h1 := AdvanceA(s, h1, before);
      if h1.NoHandle? {
        s.aPos := 0;
        h1 := AdvanceA(s, h1, before);
        setDummy := true;
      } else {
        assert h1.record in s.a;
        seen := seen.With(h1.record);
      }
    }
    if setDummy { r := Zeros(n); } else { r := Mask(seen.precip.value, seen.snow.value); }
    s.Delete(h1);
    var h2 := s.New(Record(0, 0, 0, 0, 0, r));
    s.Delete(h2);
    s.aPos := 0;
  }

  /** The loop over the grid points. */
  method Mask(precip: Field, snow: Field) returns (r: Field)
    requires |precip| == |snow|
    ensures r == Masked(precip, snow)
  {
    var values := new real[|precip|];
    for i := 0 to |precip|
      invariant forall j :: 0 <= j < i ==> values[j] == if snow[j] == 1.0 then precip[j] else 0.0
    {
      values[i] := if snow[i] == 1.0 then precip[i] else 0.0;
    }
    r := values[..];
  }

  // ----- The snow scan, in terms of the records themselves -----

  /** Total precipitation (8), and the categorical snow flag (195). */
  predicate IsWater(r: Record, number: int) {
    r.discipline == 0 && r.category == 1 && r.number == number
  }

  /** From position i on, up to but not including j, there is none of them. */
  predicate None195(rs: seq<Record>, i: nat, j: nat) {
    forall k :: i <= k < j < |rs| ==> !IsWater(rs[k], 195)
  }

  predicate None8(rs: seq<Record>, i: nat, j: nat) {
    forall k :: i <= k < j < |rs| ==> !IsWater(rs[k], 8)
  }

  /** Precipitation has been seen; flag q comes first, and the last precipitation before it is record p, or, with
      p == -1, the one seen. */
  lemma {:induction false} FlagEndsScan(seen: Seen, rs: seq<Record>, p: int, q: nat)
    requires seen.precip.Some? && seen.snow.None? && -1 <= p < q < |rs| && IsWater(rs[q], 195) && None195(rs, 0, q)
    requires (p >= 0 ==> IsWater(rs[p], 8)) && None8(rs, p + 1, q)
    ensures SnowScan(seen, rs) == Seen(if p >= 0 then Some(rs[p].values) else seen.precip, Some(rs[q].values))
    decreases q
  {
    if q > 0 {
      assert forall k :: 0 <= k < |rs[1..]| ==> rs[1..][k] == rs[k + 1];
      FlagEndsScan(seen.With(rs[0]), rs[1..], if p >= 0 then p - 1 else -1, q - 1);
    }
  }

  lemma {:induction false} PrecipEndsScan(seen: Seen, rs: seq<Record>, p: nat, q: int)
    requires seen.snow.Some? && seen.precip.None? && -1 <= q < p < |rs| && IsWater(rs[p], 8) && None8(rs, 0, p)
    requires (q >= 0 ==> IsWater(rs[q], 195)) && None195(rs, q + 1, p)
    ensures SnowScan(seen, rs) == Seen(Some(rs[p].values), if q >= 0 then Some(rs[q].values) else seen.snow)
    decreases p
  {
    if p > 0 {
      assert forall k :: 0 <= k < |rs[1..]| ==> rs[1..][k] == rs[k + 1];
      PrecipEndsScan(seen.With(rs[0]), rs[1..], p - 1, if q >= 0 then q - 1 else -1);
    }
  }

  /** The records p and q the scan of these records ends with: once the first of one kind has been reached, the
      last of the other kind before it. */
  predicate EndsWith(rs: seq<Record>, p: nat, q: nat) {
    && p < |rs| && q < |rs| && IsWater(rs[p], 8) && IsWater(rs[q], 195)
    && (p < q ==> None195(rs, 0, q) && None8(rs, p + 1, q))
    && (q < p ==> None8(rs, 0, p) && None195(rs, q + 1, p))
  }

  lemma {:induction false} ScanEndsWith(rs: seq<Record>, p: nat, q: nat)
    requires EndsWith(rs, p, q)
    ensures SnowScan(NOTHING_SEEN, rs) == Seen(Some(rs[p].values), Some(rs[q].values))
    decreases |rs|
  {
    var rest := rs[1..];
    assert forall k :: 0 <= k < |rest| ==> rest[k] == rs[k + 1];
    if IsWater(rs[0], 8) {
      FlagEndsScan(NOTHING_SEEN.With(rs[0]), rest, p - 1, q - 1);
    } else if IsWater(rs[0], 195) {
      PrecipEndsScan(NOTHING_SEEN.With(rs[0]), rest, p - 1, q - 1);
    } else {
      ScanEndsWith(rest, p - 1, q - 1);
    }
  }

  lemma FirstOfKind(rs: seq<Record>, number: int, i: nat) returns (k: nat)
    requires i < |rs| && IsWater(rs[i], number)
    ensures k <= i && IsWater(rs[k], number) && forall j :: 0 <= j < k ==> !IsWater(rs[j], number)
  {
    k := 0;
    while !IsWater(rs[k], number)
      invariant k <= i && forall j :: 0 <= j < k ==> !IsWater(rs[j], number)
      decreases i - k
    {
      k := k + 1;
    }
  }

  lemma LastOfKind(rs: seq<Record>, number: int, i: nat, end: nat) returns (k: nat)
    requires i < end <= |rs| && IsWater(rs[i], number)
    ensures i <= k < end && IsWater(rs[k], number) && forall j :: k < j < end ==> !IsWater(rs[j], number)
  {
    k := end - 1;
    while !IsWater(rs[k], number)
      invariant i <= k < end && forall j :: k < j < end ==> !IsWater(rs[j], number)
      decreases k - i
    {
      k := k - 1;
    }
  }

  /** If there are records of both kinds, the scan ends with some two. */
  lemma ScanHasAnEnd(rs: seq<Record>, i: nat, j: nat) returns (p: nat, q: nat)
    requires i < |rs| && j < |rs| && IsWater(rs[i], 8) && IsWater(rs[j], 195)
    ensures EndsWith(rs, p, q)
  {
    p := FirstOfKind(rs, 8, i);
    q := FirstOfKind(rs, 195, j);
    if p < q { p := LastOfKind(rs, 8, p, q); } else { q := LastOfKind(rs, 195, q, p); }
  }

  lemma {:induction false} ScanSeesWhatIsThere(seen: Seen, rs: seq<Record>)
    requires !seen.Both()
    ensures SnowScan(seen, rs).precip.Some? ==> seen.precip.Some? || exists k :: 0 <= k < |rs| && IsWater(rs[k], 8)
    ensures SnowScan(seen, rs).snow.Some? ==> seen.snow.Some? || exists k :: 0 <= k < |rs| && IsWater(rs[k], 195)
    decreases |rs|
  {
    if rs != [] {
      var rest := rs[1..];
      assert forall k :: 0 <= k < |rest| ==> rest[k] == rs[k + 1];
      if !seen.With(rs[0]).Both() { ScanSeesWhatIsThere(seen.With(rs[0]), rest); }
    }
  }

  /** The field stored: at each point the precipitation of record p if flag q is 1 there, and 0 otherwise. */
  lemma SnowFieldIs(rs: seq<Record>, n: nat, p: nat, q: nat)
    requires MoistureOnGrid(rs, n) && EndsWith(rs, p, q)
    ensures |rs[p].values| == |rs[q].values| == n
    ensures forall i :: 0 <= i < n ==> SnowField(rs, n)[i] == if rs[q].values[i] == 1.0 then rs[p].values[i] else 0.0
  {
    ScanEndsWith(rs, p, q);
    assert rs[p] in rs && rs[q] in rs;
  }

  /** Without precipitation, or without a flag, it is zero. */
  lemma SnowFieldIsZero(rs: seq<Record>, n: nat)
    requires MoistureOnGrid(rs, n)
    requires (forall k :: 0 <= k < |rs| ==> !IsWater(rs[k], 8)) || forall k :: 0 <= k < |rs| ==> !IsWater(rs[k], 195)
    ensures SnowField(rs, n) == Zeros(n)
  {
    ScanSeesWhatIsThere(NOTHING_SEEN, rs);
  }

  // ----- Snow against precipitation -----

  function PrecipCount(rs: seq<Record>): nat {
    if rs == [] then 0 else (if IsMoisture(rs[0], APCP) then 1 else 0) + PrecipCount(rs[1..])
  }

  lemma {:induction false} ScanKeepsPrecip(seen: Seen, rs: seq<Record>)
    requires seen.precip.Some? && PrecipCount(rs) == 0
    ensures SnowScan(seen, rs).precip == seen.precip
    decreases |rs|
  {
    if !seen.Both() && rs != [] { ScanKeepsPrecip(seen.With(rs[0]), rs[1..]); }
  }

  /** If a step has one precipitation record, the snow loader and the precipitation loader use the same one. */
  lemma {:induction false} ScanFindsThePrecip(seen: Seen, rs: seq<Record>)
    requires seen.precip.None? && PrecipCount(rs) == 1
    ensures SnowScan(seen, rs).precip == FirstPrecip(rs)
    decreases |rs|
  {
    if IsMoisture(rs[0], APCP) {
      ScanKeepsPrecip(seen.With(rs[0]), rs[1..]);
    } else {
      ScanFindsThePrecip(seen.With(rs[0]), rs[1..]);
    }
  }

  /** A step's snow is its precipitation at the flagged points, so never more than it. */
  lemma SnowIsAtMostPrecip(rs: seq<Record>, n: nat, i: nat)
    requires MoistureOnGrid(rs, n) && PrecipCount(rs) == 1 && i < n
    requires forall f, j :: FirstPrecip(rs) == Some(f) && 0 <= j < |f| ==> f[j] >= 0.0
    ensures FirstPrecip(rs).Some? && |FirstPrecip(rs).value| == n
    ensures 0.0 <= SnowField(rs, n)[i] <= FirstPrecip(rs).value[i]
  {
    ScanStaysOnGrid(NOTHING_SEEN, rs, n);
    ScanFindsThePrecip(NOTHING_SEEN, rs);
    OnePrecip(rs, n);
  }

  lemma {:induction false} OnePrecip(rs: seq<Record>, n: nat)
    requires MoistureOnGrid(rs, n) && PrecipCount(rs) >= 1
    ensures FirstPrecip(rs).Some? && |FirstPrecip(rs).value| == n
    decreases |rs|
  {
    assert rs[0] in rs;
    if !IsMoisture(rs[0], APCP) { OnePrecip(rs[1..], n); }
  }
}
