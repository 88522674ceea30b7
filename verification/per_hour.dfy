/** The variables src/ncdcTigge.c generates hour by hour, between the loads of the time-integrated ones, as far
    as they move the two files: snow, column water, potential temperature, soil moisture and soil temperature.
    Each reads on from wherever the files are, and one that misses a record returns without rewinding. */
module PerHour {
  import opened GribScan
  import opened Wrappers
  import FileNames

  const SNOW_WATER := 1
  const COLUMN_WATER := 10
  const POTENTIAL_TEMPERATURE := 0
  const SOIL_MOISTURE := 3
  const SOIL_TEMPERATURE := 4

  /** The order in which `main` generates them. */
  const INSTANTS: seq<int> := [SNOW_WATER, COLUMN_WATER, POTENTIAL_TEMPERATURE, SOIL_MOISTURE, SOIL_TEMPERATURE]

  // ----- The records they look for -----

  predicate IsSnowFlag(r: Record) {
    IsMoisture(r, CSNOW)
  }

  predicate IsRain(r: Record) {
    IsMoisture(r, APCP)
  }

  predicate IsPrecipitableWater(r: Record) {
    HasKeys(r, 1, 3, 200)
  }

  predicate IsCloudWater(r: Record) {
    HasKeys(r, 6, 6, 200)
  }

  /** Of either of the two upper soil layers. */
  predicate IsSoil(r: Record, number: int) {
    r.discipline == 2 && r.category == 0 && r.number == number && r.level == 106 && (r.height == 0 || r.height == 10)
  }

  predicate IsSoilWater(r: Record) {
    IsSoil(r, 192)
  }

  predicate IsSoilHeat(r: Record) {
    IsSoil(r, 2)
  }

  type Key = Record -> bool

  /** The position after the first record with the key from i on. */
  function After(rs: seq<Record>, key: Key, i: nat): (r: Option<nat>)
    requires i <= |rs|
    ensures r.Some? ==> i < r.value <= |rs| && key(rs[r.value - 1])
    decreases |rs| - i
  {
    if i == |rs| then None else if key(rs[i]) then Some(i + 1) else After(rs, key, i + 1)
  }

  /** What the scan for potential temperature has found: northern and southern pressure and temperature on the
      potential vorticity surface. The test for a southern layer assigns where it should compare, so any record
      of the kind will do. */
  datatype Layers = Layers(pNorth: bool, pSouth: bool, tNorth: bool, tSouth: bool) {
    predicate All() {
      pNorth && pSouth && tNorth && tSouth
    }

    function With(r: Record): Layers {
      if !(r.discipline == 0 && r.number == 0 && r.level == 109) then this
      else if r.category == 3 then
        if !pNorth && r.height == 2000 then this.(pNorth := true) else this.(pSouth := true)
      else if r.category == 0 then
        if !tNorth && r.height == 2000 then this.(tNorth := true) else this.(tSouth := true)
      else this
    }
  }

  const NO_LAYERS := Layers(false, false, false, false)

  function LayersFrom(rs: seq<Record>, i: nat, found: Layers): Layers
    requires i <= |rs|
    decreases |rs| - i
  {
    if found.All() || i == |rs| then found else LayersFrom(rs, i + 1, found.With(rs[i]))
  }

  // ----- Where each leaves the files -----

  predicate Within(a: seq<Record>, b: seq<Record>, c: Cursor) {
    c.aPos <= |a| && c.bPos <= |b|
  }

  /** Looks through A for a snow flag, and from its start for precipitation; at hour 0 for nothing. */
  function SnowWaterPlace(a: seq<Record>, b: seq<Record>, c: Cursor, hour0: bool): (r: Cursor)
    requires Within(a, b, c)
    ensures Within(a, b, r)
  {
    if hour0 then c.(aPos := 0)
    else if After(a, IsSnowFlag, c.aPos).None? || After(a, IsRain, 0).None? then c.(aPos := |a|)
    else c.(aPos := 0)
  }

  /** Looks through A for precipitable water, then through B for cloud water. */
  function ColumnWaterPlace(a: seq<Record>, b: seq<Record>, c: Cursor): (r: Cursor)
    requires Within(a, b, c)
    ensures Within(a, b, r)
  {
    match After(a, IsPrecipitableWater, c.aPos)
    case None => c.(aPos := |a|)
    case Some(i) => if After(b, IsCloudWater, c.bPos).None? then Cursor(i, |b|) else START
  }

  /** Looks through B for the four layers. */
  function PotentialTemperaturePlace(a: seq<Record>, b: seq<Record>, c: Cursor): (r: Cursor)
    requires Within(a, b, c)
    ensures Within(a, b, r)
  {
    if LayersFrom(b, c.bPos, NO_LAYERS).All() then START else c.(bPos := |b|)
  }

  /** Looks through B for one soil layer, then through A for another. */
  function SoilMoisturePlace(a: seq<Record>, b: seq<Record>, c: Cursor): (r: Cursor)
    requires Within(a, b, c)
    ensures Within(a, b, r)
  {
    match After(b, IsSoilWater, c.bPos)
    case None => c.(bPos := |b|)
    case Some(i) => if After(a, IsSoilWater, c.aPos).None? then Cursor(|a|, i) else START
  }

  /** From the start, looks through A and then B for two soil layers. */
  function SoilTemperaturePlace(a: seq<Record>, b: seq<Record>): (r: Cursor)
    ensures Within(a, b, r)
  {
    match After(a + b, IsSoilHeat, 0)
    case None => Cursor(|a|, |b|)
    case Some(i) => if After(a + b, IsSoilHeat, i).None? then Cursor(|a|, |b|) else START
  }

  function PlaceAfter(v: int, a: seq<Record>, b: seq<Record>, c: Cursor, hour0: bool): (r: Cursor)
    requires Within(a, b, c)
    ensures Within(a, b, r)
  {
    if v == SNOW_WATER then SnowWaterPlace(a, b, c, hour0)
    else if v == COLUMN_WATER then ColumnWaterPlace(a, b, c)
    else if v == POTENTIAL_TEMPERATURE then PotentialTemperaturePlace(a, b, c)
    else if v == SOIL_MOISTURE then SoilMoisturePlace(a, b, c)
    else if v == SOIL_TEMPERATURE then SoilTemperaturePlace(a, b)
    else c
  }

  /** Where the first j of them, as far as they are queued, leave the files. */
  function PlaceAfterAll(queue: set<int>, a: seq<Record>, b: seq<Record>, c: Cursor, hour0: bool, j: nat): (r: Cursor)
    requires Within(a, b, c) && j <= |INSTANTS|
    ensures Within(a, b, r)
  {
    if j == 0 then c
    else
      var before, v := PlaceAfterAll(queue, a, b, c, hour0, j - 1), INSTANTS[j - 1];
      if v in queue then PlaceAfter(v, a, b, before, hour0) else before
  }

  /** Once both files are at their ends, those before soil temperature, which rewinds first, leave them there. */
  lemma {:induction false} EndsStay(queue: set<int>, a: seq<Record>, b: seq<Record>, j: nat)
    requires j <= 4
    ensures PlaceAfterAll(queue, a, b, Cursor(|a|, |b|), false, j) == Cursor(|a|, |b|)
  {
    if j > 0 { EndsStay(queue, a, b, j - 1); }
  }

  // ----- When they find their records, in terms of the records themselves -----

  lemma {:induction false} AfterFinds(rs: seq<Record>, key: Key, i: nat, j: nat)
    requires i <= j < |rs| && key(rs[j])
    ensures After(rs, key, i).Some? && After(rs, key, i).value <= j + 1
    decreases j - i
  {
    if !key(rs[i]) { AfterFinds(rs, key, i + 1, j); }
  }

  lemma {:induction false} AfterMisses(rs: seq<Record>, key: Key, i: nat)
    requires i <= |rs| && forall j :: i <= j < |rs| ==> !key(rs[j])
    ensures After(rs, key, i).None?
    decreases |rs| - i
  {
    if i < |rs| { AfterMisses(rs, key, i + 1); }
  }

  /** What follows the first record with the key: none before it has it. */
  lemma {:induction false} AfterIsFirst(rs: seq<Record>, key: Key, i: nat)
    requires i <= |rs| && After(rs, key, i).Some?
    ensures forall j :: i <= j < After(rs, key, i).value - 1 ==> !key(rs[j])
    decreases |rs| - i
  {
    if !key(rs[i]) { AfterIsFirst(rs, key, i + 1); }
  }

  /** Snow fall (sf6): a snow flag from where A has been read to, and precipitation anywhere in A. */
  lemma SnowWaterLeaves(a: seq<Record>, b: seq<Record>, c: Cursor)
    requires Within(a, b, c)
    ensures var found :=
              (exists i :: c.aPos <= i < |a| && a[i].discipline == 0 && a[i].category == 1 && a[i].number == 195)
              && (exists i :: 0 <= i < |a| && a[i].discipline == 0 && a[i].category == 1 && a[i].number == 8);
            PlaceAfter(SNOW_WATER, a, b, c, false) == Cursor(if found then 0 else |a|, c.bPos)
    ensures PlaceAfter(SNOW_WATER, a, b, c, true) == Cursor(0, c.bPos)
  {
    if i :| c.aPos <= i < |a| && IsSnowFlag(a[i]) {
      AfterFinds(a, IsSnowFlag, c.aPos, i);
      if j :| 0 <= j < |a| && IsRain(a[j]) { AfterFinds(a, IsRain, 0, j); } else { AfterMisses(a, IsRain, 0); }
    } else {
      AfterMisses(a, IsSnowFlag, c.aPos);
    }
  }

  predicate IsTotalWater(r: Record) {
    r.discipline == 0 && r.category == 1 && r.number == 3 && r.level == 200
  }

  predicate IsTotalCloud(r: Record) {
    r.discipline == 0 && r.category == 6 && r.number == 6 && r.level == 200
  }

  /** Column water (tcw): both files are rewound if the water of the column follows in A and that of its clouds in B. */
  lemma ColumnWaterLeaves(a: seq<Record>, b: seq<Record>, c: Cursor, hour0: bool)
    requires Within(a, b, c)
    ensures var r := PlaceAfter(COLUMN_WATER, a, b, c, hour0);
            if !exists i :: c.aPos <= i < |a| && IsTotalWater(a[i]) then r == Cursor(|a|, c.bPos)
            else if exists i :: c.bPos <= i < |b| && IsTotalCloud(b[i]) then r == Cursor(0, 0)
            else c.aPos < r.aPos && IsTotalWater(a[r.aPos - 1]) && r.bPos == |b|
                 && forall i :: c.aPos <= i < r.aPos - 1 ==> !IsTotalWater(a[i])
  {
    if i :| c.aPos <= i < |a| && IsTotalWater(a[i]) {
      AfterFinds(a, IsPrecipitableWater, c.aPos, i);
      AfterIsFirst(a, IsPrecipitableWater, c.aPos);
      if j :| c.bPos <= j < |b| && IsTotalCloud(b[j]) {
        AfterFinds(b, IsCloudWater, c.bPos, j);
      } else {
        AfterMisses(b, IsCloudWater, c.bPos);
      }
    } else {
      AfterMisses(a, IsPrecipitableWater, c.aPos);
    }
  }

  /** Records of the category on the potential vorticity surface (109) from i on: all, and the northern ones. */
  function OnSurface(rs: seq<Record>, i: nat, category: int): nat
    requires i <= |rs|
    decreases |rs| - i
  {
    if i == |rs| then 0
    else
      (if rs[i].discipline == 0 && rs[i].category == category && rs[i].number == 0 && rs[i].level == 109 then 1 else 0)
      + OnSurface(rs, i + 1, category)
  }

  function InNorth(rs: seq<Record>, i: nat, category: int): (n: nat)
    requires i <= |rs|
    ensures n <= OnSurface(rs, i, category)
    decreases |rs| - i
  {
    if i == |rs| then 0
    else
      (if rs[i].discipline == 0 && rs[i].category == category && rs[i].number == 0 && rs[i].level == 109
          && rs[i].height == 2000 then 1 else 0)
      + InNorth(rs, i + 1, category)
  }

  /** With what has been found, that many records complete a northern and a southern layer. */
  predicate Completes(north: bool, south: bool, all: nat, norths: nat) {
    if north && south then true
    else if north then all >= 1
    else if south then norths >= 1
    else norths >= 1 && all >= 2
  }

  lemma {:induction false} LayersAreCounted(rs: seq<Record>, i: nat, found: Layers)
    requires i <= |rs|
    ensures LayersFrom(rs, i, found).All()
       <==> Completes(found.pNorth, found.pSouth, OnSurface(rs, i, 3), InNorth(rs, i, 3))
            && Completes(found.tNorth, found.tSouth, OnSurface(rs, i, 0), InNorth(rs, i, 0))
    decreases |rs| - i
  {
    if !found.All() && i < |rs| { LayersAreCounted(rs, i + 1, found.With(rs[i])); }
  }

  /** Potential temperature (pt): pressure (3) and temperature (0) twice each, once for the north. */
  lemma PotentialTemperatureLeaves(a: seq<Record>, b: seq<Record>, c: Cursor, hour0: bool)
    requires Within(a, b, c)
    ensures PlaceAfter(POTENTIAL_TEMPERATURE, a, b, c, hour0)
         == if OnSurface(b, c.bPos, 3) >= 2 && InNorth(b, c.bPos, 3) >= 1
               && OnSurface(b, c.bPos, 0) >= 2 && InNorth(b, c.bPos, 0) >= 1
            then Cursor(0, 0) else Cursor(c.aPos, |b|)
  {
    LayersAreCounted(b, c.bPos, NO_LAYERS);
  }

  /** One of the two upper layers of the soil (level type 106, height 0 or 10): its water (192) or heat (2). */
  predicate IsUpperSoil(r: Record, number: int) {
    && r.discipline == 2 && r.category == 0 && r.number == number
    && r.level == 106 && (r.height == 0 || r.height == 10)
  }

  /** Soil moisture (sm): both files are rewound if a layer follows in B and another in A. */
  lemma SoilMoistureLeaves(a: seq<Record>, b: seq<Record>, c: Cursor, hour0: bool)
    requires Within(a, b, c)
    ensures var r := PlaceAfter(SOIL_MOISTURE, a, b, c, hour0);
            if !exists i :: c.bPos <= i < |b| && IsUpperSoil(b[i], 192) then r == Cursor(c.aPos, |b|)
            else if exists i :: c.aPos <= i < |a| && IsUpperSoil(a[i], 192) then r == Cursor(0, 0)
            else c.bPos < r.bPos && IsUpperSoil(b[r.bPos - 1], 192) && r.aPos == |a|
                 && forall i :: c.bPos <= i < r.bPos - 1 ==> !IsUpperSoil(b[i], 192)
  {
    if i :| c.bPos <= i < |b| && IsUpperSoil(b[i], 192) {
      AfterFinds(b, IsSoilWater, c.bPos, i);
      AfterIsFirst(b, IsSoilWater, c.bPos);
      if j :| c.aPos <= j < |a| && IsUpperSoil(a[j], 192) {
        AfterFinds(a, IsSoilWater, c.aPos, j);
      } else {
        AfterMisses(a, IsSoilWater, c.aPos);
      }
    } else {
      AfterMisses(b, IsSoilWater, c.bPos);
    }
  }

  /** Two layers in all, in A and then B. */
  predicate TwoSoilLayers(ab: seq<Record>) {
    exists i, j :: 0 <= i < j < |ab| && IsUpperSoil(ab[i], 2) && IsUpperSoil(ab[j], 2)
  }

  /** Soil temperature (st): both files are rewound if they hold two layers, wherever they have been read to. */
  lemma SoilTemperatureLeaves(a: seq<Record>, b: seq<Record>, c: Cursor, hour0: bool)
    requires Within(a, b, c)
    ensures PlaceAfter(SOIL_TEMPERATURE, a, b, c, hour0)
         == if TwoSoilLayers(a + b) then Cursor(0, 0) else Cursor(|a|, |b|)
  {
    var ab := a + b;
    if TwoSoilLayers(ab) {
      var i, j :| 0 <= i < j < |ab| && IsUpperSoil(ab[i], 2) && IsUpperSoil(ab[j], 2);
      AfterFinds(ab, IsSoilHeat, 0, i);
      AfterFinds(ab, IsSoilHeat, After(ab, IsSoilHeat, 0).value, j);
    } else if After(ab, IsSoilHeat, 0).Some? {
      var i := After(ab, IsSoilHeat, 0).value;
      assert IsUpperSoil(ab[i - 1], 2);
      AfterMisses(ab, IsSoilHeat, i);
    }
  }

  /** The files hold the records of variable v. */
  predicate AreThere(v: int, a: seq<Record>, b: seq<Record>, hour0: bool) {
    if v == SNOW_WATER then
      hour0 || ((exists i :: 0 <= i < |a| && a[i].discipline == 0 && a[i].category == 1 && a[i].number == 195)
                && (exists i :: 0 <= i < |a| && a[i].discipline == 0 && a[i].category == 1 && a[i].number == 8))
    else if v == COLUMN_WATER then
      (exists i :: 0 <= i < |a| && IsTotalWater(a[i])) && (exists i :: 0 <= i < |b| && IsTotalCloud(b[i]))
    else if v == POTENTIAL_TEMPERATURE then
      OnSurface(b, 0, 3) >= 2 && InNorth(b, 0, 3) >= 1 && OnSurface(b, 0, 0) >= 2 && InNorth(b, 0, 0) >= 1
    else if v == SOIL_MOISTURE then
      (exists i :: 0 <= i < |b| && IsUpperSoil(b[i], 192)) && (exists i :: 0 <= i < |a| && IsUpperSoil(a[i], 192))
    else TwoSoilLayers(a + b)
  }

  /** From the starts of two files that are not empty, v leaves them at their starts exactly if they hold its
      records. */
  lemma RewindsIfThere(v: int, a: seq<Record>, b: seq<Record>, hour0: bool)
    requires v in INSTANTS
    ensures AreThere(v, a, b, hour0) ==> PlaceAfter(v, a, b, START, hour0) == START
    ensures a != [] && b != [] && PlaceAfter(v, a, b, START, hour0) == START ==> AreThere(v, a, b, hour0)
  {
    if v == SNOW_WATER {
      SnowWaterLeaves(a, b, START);
    } else if v == COLUMN_WATER {
      ColumnWaterLeaves(a, b, START, hour0);
    } else if v == POTENTIAL_TEMPERATURE {
      PotentialTemperatureLeaves(a, b, START, hour0);
    } else if v == SOIL_MOISTURE {
      SoilMoistureLeaves(a, b, START, hour0);
    } else {
      SoilTemperatureLeaves(a, b, START, hour0);
    }
  }

  /** If the files hold the records of every queued variable, all in turn leave them at their starts. */
  lemma {:induction false} FoundRecordsRewind(queue: set<int>, a: seq<Record>, b: seq<Record>, hour0: bool, j: nat)
    requires j <= |INSTANTS|
    requires forall v :: v in INSTANTS && v in queue ==> AreThere(v, a, b, hour0)
    ensures PlaceAfterAll(queue, a, b, START, hour0, j) == START
  {
    if j > 0 {
      FoundRecordsRewind(queue, a, b, hour0, j - 1);
      assert INSTANTS[j - 1] in INSTANTS;
      RewindsIfThere(INSTANTS[j - 1], a, b, hour0);
    }
  }

  /** The variables by their short names, and the order of the calls in `main`. */
  lemma InTurn(queue: set<int>, a: seq<Record>, b: seq<Record>, c: Cursor, hour0: bool)
    requires Within(a, b, c)
    ensures FileNames.ShortName(SNOW_WATER) == "sf6" && FileNames.ShortName(COLUMN_WATER) == "tcw"
    ensures FileNames.ShortName(POTENTIAL_TEMPERATURE) == "pt" && FileNames.ShortName(SOIL_MOISTURE) == "sm"
    ensures FileNames.ShortName(SOIL_TEMPERATURE) == "st"
    ensures var c1 := if SNOW_WATER in queue then PlaceAfter(SNOW_WATER, a, b, c, hour0) else c;
            var c2 := if COLUMN_WATER in queue then PlaceAfter(COLUMN_WATER, a, b, c1, hour0) else c1;
            var c3 := if POTENTIAL_TEMPERATURE in queue then PlaceAfter(POTENTIAL_TEMPERATURE, a, b, c2, hour0) else c2;
            var c4 := if SOIL_MOISTURE in queue then PlaceAfter(SOIL_MOISTURE, a, b, c3, hour0) else c3;
            var c5 := if SOIL_TEMPERATURE in queue then PlaceAfter(SOIL_TEMPERATURE, a, b, c4, hour0) else c4;
            PlaceAfterAll(queue, a, b, c, hour0, 5) == c5
  {
    assert PlaceAfterAll(queue, a, b, c, hour0, 0) == c;
    var c1 := PlaceAfterAll(queue, a, b, c, hour0, 1);
    var c2 := PlaceAfterAll(queue, a, b, c, hour0, 2);
    var c3 := PlaceAfterAll(queue, a, b, c, hour0, 3);
    var c4 := PlaceAfterAll(queue, a, b, c, hour0, 4);
  }

  // ----- The code -----

  /** The scan loops over the A file: reads on, deleting what has not the key. */
  method SearchA(s: Session, key: Key) returns (h: Handle)
    requires s.Valid()
    modifies s
    ensures s.Valid() && s.bPos == old(s.bPos) && s.open == old(s.open) + Ids(h) && old(s.open) !! Ids(h)
    ensures match After(s.a, key, old(s.aPos))
            case None => h.NoHandle? && s.aPos == |s.a|
            case Some(i) => h.Handle? && s.aPos == i
  {
    h := NoHandle;
    var found := false;
    ghost var before := s.open;
    while !found
      invariant s.Valid() && s.bPos == old(s.bPos) && s.open == before + Ids(h) && before !! Ids(h)
      invariant !found ==> After(s.a, key, s.aPos) == After(s.a, key, old(s.aPos))
      invariant found ==> h.Handle? && After(s.a, key, old(s.aPos)) == Some(s.aPos)
      decreases !found, |s.a| - s.aPos
    {
      h := AdvanceA(s, h, before);
      if h.NoHandle? { return; }
      found := key(h.record);
    }
  }

  /** The same over the B file. */
  method SearchB(s: Session, key: Key) returns (h: Handle)
    requires s.Valid()
    modifies s
    ensures s.Valid() && s.aPos == old(s.aPos) && s.open == old(s.open) + Ids(h) && old(s.open) !! Ids(h)
    ensures match After(s.b, key, old(s.bPos))
            case None => h.NoHandle? && s.bPos == |s.b|
            case Some(i) => h.Handle? && s.bPos == i
  {
    h := NoHandle;
    var found := false;
    ghost var before := s.open;
    while !found
      invariant s.Valid() && s.aPos == old(s.aPos) && s.open == before + Ids(h) && before !! Ids(h)
      invariant !found ==> After(s.b, key, s.bPos) == After(s.b, key, old(s.bPos))
      invariant found ==> h.Handle? && After(s.b, key, old(s.bPos)) == Some(s.bPos)
      decreases !found, |s.b| - s.bPos
    {
      if h.Handle? { s.Delete(h); }
      assert s.open == before;
      h := s.NextB();
      if h.NoHandle? { return; }
      found := key(h.record);
    }
  }

  /** `generateSnowFallWaterEquivalent`. */
  method SnowWater(s: Session, hour0: bool)
    requires s.Valid()
    modifies s
    ensures s.Valid() && s.Place() == SnowWaterPlace(s.a, s.b, old(s.Place()), hour0)
  {
    if !hour0 {
      var h1 := SearchA(s, IsSnowFlag);
      if h1.NoHandle? { return; }
      s.aPos := 0;
      var h2 := SearchA(s, IsRain);
      if h2.NoHandle? { return; }
      s.Delete(h1);
      s.Delete(h2);
    }
    s.aPos := 0;
  }

  /** `generateTotalColumnWater`. */
  method ColumnWater(s: Session)
    requires s.Valid()
    modifies s
    ensures s.Valid() && s.Place() == ColumnWaterPlace(s.a, s.b, old(s.Place()))
  {
    var h1 := SearchA(s, IsPrecipitableWater);
    if h1.NoHandle? { return; }
    var h2 := SearchB(s, IsCloudWater);
    if h2.NoHandle? { return; }
    s.Delete(h1);
    s.Delete(h2);
    s.Rewind();
  }

  /** `generatePotentialTemperature`: the records found stay open to the end. */
  method PotentialTemperature(s: Session)
    requires s.Valid()
    modifies s
    ensures s.Valid() && s.Place() == PotentialTemperaturePlace(s.a, s.b, old(s.Place()))
  {
    var found := NO_LAYERS;
    while !found.All()
      invariant s.Valid() && s.aPos == old(s.aPos)
      invariant LayersFrom(s.b, s.bPos, found) == LayersFrom(s.b, old(s.bPos), NO_LAYERS)
      decreases |s.b| - s.bPos, !found.All()
    {
      var h := s.NextB();
      if h.NoHandle? { return; }
      var more := found.With(h.record);
      if more == found { s.Delete(h); }
      found := more;
    }
    s.Rewind();
  }

  /** `generateSoilMoisture`. */
  method SoilMoisture(s: Session)
    requires s.Valid()
    modifies s
    ensures s.Valid() && s.Place() == SoilMoisturePlace(s.a, s.b, old(s.Place()))
  {
    var h1 := SearchB(s, IsSoilWater);
    if h1.NoHandle? { return; }
    var h2 := SearchA(s, IsSoilWater);
    if h2.NoHandle? { return; }
    s.Delete(h1);
    s.Delete(h2);
    s.Rewind();
  }

  /** One search of `generateSoilTemperature`, through A and then B. */
  method SearchBoth(s: Session, key: Key) returns (h: Handle)
    requires s.Valid() && (s.aPos < |s.a| ==> s.bPos == 0)
    modifies s
    ensures s.Valid() && (s.aPos < |s.a| ==> s.bPos == 0)
    ensures match After(s.a + s.b, key, old(s.aPos + s.bPos))
            case None => h.NoHandle? && s.AtEnd()
            case Some(i) => h.Handle? && s.aPos + s.bPos == i
  {
    h := NoHandle;
    var found := false;
    ghost var rs := s.a + s.b;
    while !found
      invariant s.Valid() && (s.aPos < |s.a| ==> s.bPos == 0)
      invariant !found ==> After(rs, key, s.aPos + s.bPos) == After(rs, key, old(s.aPos + s.bPos))
      invariant found ==> h.Handle? && After(rs, key, old(s.aPos + s.bPos)) == Some(s.aPos + s.bPos)
      decreases !found, |rs| - (s.aPos + s.bPos)
    {
      ghost var i := s.aPos + s.bPos;
      h := s.NextA();
      if h.NoHandle? { h := s.NextB(); }
      if h.NoHandle? { return; }
      assert h.record == rs[i] && s.aPos + s.bPos == i + 1;
      found := key(h.record);
      if !found { s.Delete(h); }
    }
  }

  /** `generateSoilTemperature`: it rewinds first. */
  method SoilTemperature(s: Session)
    requires s.Valid()
    modifies s
    ensures s.Valid() && s.Place() == SoilTemperaturePlace(s.a, s.b)
  {
    s.Rewind();
    var h1 := SearchBoth(s, IsSoilHeat);
    if h1.NoHandle? { return; }
    var h2 := SearchBoth(s, IsSoilHeat);
    if h2.NoHandle? { return; }
    s.Rewind();
  }

  /** The calls of `generateVariable` in the hour loop; one that is not queued does nothing. */
  method GenerateAll(s: Session, queue: set<int>, hour0: bool)
    requires s.Valid()
    modifies s
    ensures s.Valid() && s.Place() == PlaceAfterAll(queue, s.a, s.b, old(s.Place()), hour0, |INSTANTS|)
  {
    for j := 0 to |INSTANTS|
      invariant s.Valid() && s.Place() == PlaceAfterAll(queue, s.a, s.b, old(s.Place()), hour0, j)
    {
      if INSTANTS[j] in queue { GenerateOne(s, INSTANTS[j], hour0); }
    }
  }

  method GenerateOne(s: Session, v: int, hour0: bool)
    requires s.Valid()
    modifies s
    ensures s.Valid() && s.Place() == PlaceAfter(v, s.a, s.b, old(s.Place()), hour0)
  {
    if v == SNOW_WATER {
      SnowWater(s, hour0);
    } else if v == COLUMN_WATER {
      ColumnWater(s);
    } else if v == POTENTIAL_TEMPERATURE {
      PotentialTemperature(s);
    } else if v == SOIL_MOISTURE {
      SoilMoisture(s);
    } else if v == SOIL_TEMPERATURE {
      SoilTemperature(s);
    }
  }
}
