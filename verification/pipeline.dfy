/** The whole way from input files to output files: src/ncdcTigge.c joins the loaders, the buffers and the
    generators of the time-integrated variables. */
module Pipeline {
  import opened GribScan
  import opened RecordBuffers
  import opened Wrappers
  import Calendar
  import FileNames
  import Integration
  import PerHour

  /** The A and B files of a member and forecast step. */
  type Files = (nat, nat) -> (seq<Record>, seq<Record>)

  function Both(files: Files, m: nat, k: nat): seq<Record> {
    files(m, k).0 + files(m, k).1
  }

  // ----- One load -----

  predicate IsNet(v: int) {
    v == 7 || v == 8
  }

  /** The parameter category of the solar and the thermal fluxes. */
  function NetCategory(v: int): int
    requires IsNet(v)
  {
    if v == 7 then 4 else 5
  }

  predicate IsSingle(v: int) {
    v == 5 || v == 6 || v == 9
  }

  /** Category, number and level type of the outgoing, latent and sensible fluxes. */
  function SingleKeys(v: int): (int, int, int)
    requires IsSingle(v)
  {
    if v == 5 then (5, 193, 8) else if v == 6 then (0, 10, 1) else (0, 11, 1)
  }

  function FirstSingle(v: int, rs: seq<Record>): Option<Record>
    requires IsSingle(v)
  {
    FirstWith(rs, SingleKeys(v).0, SingleKeys(v).1, SingleKeys(v).2)
  }

  predicate IsFlux(v: int) {
    IsNet(v) || IsSingle(v)
  }

  /** The files hold what the loader of v looks for; snow is content with any files. */
  predicate HasInput(v: int, a: seq<Record>, b: seq<Record>) {
    if IsNet(v) then |Fluxes(a + b, NetCategory(v))| >= 2
    else if IsSingle(v) then FirstSingle(v, a + b).Some?
    else if v == 11 then FirstPrecip(a).Some?
    else v == 2
  }

  /** The records the loader of v uses fit the grid. */
  predicate InputOnGrid(v: int, a: seq<Record>, b: seq<Record>, n: nat) {
    if IsNet(v) then OnGrid(Fluxes(a + b, NetCategory(v)), n)
    else if IsSingle(v) then FirstSingle(v, a + b).Some? ==> |FirstSingle(v, a + b).value.values| == n
    else if v == 11 then FirstPrecip(a).Some? ==> |FirstPrecip(a).value| == n
    else v == 2 ==> MoistureOnGrid(a, n)
  }

  /** The field the loader of variable v stores; None for a loader that fails. */
  function FieldOf(v: int, a: seq<Record>, b: seq<Record>, ignoreMissing: bool, first: bool, n: nat): (r: Option<Field>)
    requires InputOnGrid(v, a, b, n)
    ensures r.Some? ==> |r.value| == n
    ensures v in LOAD_ORDER ==>
              (r.Some? <==> HasInput(v, a, b) || (if v == 11 then first else ignoreMissing))
  {
    if IsNet(v) then
      PairIsOnGrid(a + b, NetCategory(v), ignoreMissing, n);
      NetField(a + b, NetCategory(v), ignoreMissing, n)
    else if IsSingle(v) then
      match FirstSingle(v, a + b)
      case Some(record) => Some(record.values)
      case None => if ignoreMissing then Some(Zeros(n)) else None
    else if v == 11 then
      if first then Some(Zeros(n)) else FirstPrecip(a)
    else if v == 2 then Some(SnowField(a, n))
    else None
  }

  /** What is left of the A file for the loader of v when the files have been read as far as c; only the snow
      loader rewinds first. */
  function LeftOfA(v: int, a: seq<Record>, c: Cursor): seq<Record>
    requires c.aPos <= |a|
  {
    if v == 2 then a else a[c.aPos..]
  }

  /** The switch of `loadDataForVariable`. A load that succeeds leaves no handle open and the A file rewound for
      the next one, and the fluxes and snow also the B file; a load that fails leaves what it has read at its end. */
  method LoadVariable(s: Session, v: int, ignoreMissing: bool, first: bool, n: nat) returns (r: Option<Field>)
    requires s.Valid() && InputOnGrid(v, LeftOfA(v, s.a, s.Place()), s.b[s.bPos..], n)
    modifies s
    ensures s.Valid()
    ensures r == FieldOf(v, LeftOfA(v, s.a, old(s.Place())), old(s.b[s.bPos..]), ignoreMissing, first, n)
    ensures r.Some? ==> s.open == old(s.open) && s.aPos == 0
    ensures IsFlux(v) ==> if r.Some? then s.Place() == START else s.AtEnd()
    ensures v == 11 && r.None? ==> s.aPos == |s.a|
    ensures v == 2 ==> s.Place() == START
  {
    if v == 5 {
      r := LoadFlux(s, 5, 193, 8, ignoreMissing, n);
    } else if v == 6 {
      r := LoadFlux(s, 0, 10, 1, ignoreMissing, n);
    } else if v == 9 {
      r := LoadFlux(s, 0, 11, 1, ignoreMissing, n);
    } else if v == 7 {
      r := LoadNetRadiation(s, 4, ignoreMissing, n);
    } else if v == 8 {
      r := LoadNetRadiation(s, 5, ignoreMissing, n);
    } else if v == 2 {
      var f := LoadSnow(s, n);
      r := Some(f);
    } else if v == 11 {
      r := LoadPrecip(s, first, n);
    } else {
      r := None;
    }
  }

  // ----- What the loaders look for, in terms of the records themselves -----

  predicate HasAt(rs: seq<Record>, i: int, category: int, number: int, level: int)
    requires 0 <= i < |rs|
  {
    rs[i].discipline == 0 && rs[i].category == category && rs[i].number == number && rs[i].level == level
  }

  /** Outgoing long-wave radiation (ttr) is upward flux at the top of the atmosphere; latent (slhf) and sensible
      (sshf) heat are net fluxes at the surface. */
  lemma SingleFluxesAre(rs: seq<Record>, i: nat)
    requires i < |rs|
    ensures HasAt(rs, i, 5, 193, 8) && (forall k :: 0 <= k < i ==> !HasAt(rs, k, 5, 193, 8)) ==>
              FirstSingle(5, rs) == Some(rs[i])
    ensures HasAt(rs, i, 0, 10, 1) && (forall k :: 0 <= k < i ==> !HasAt(rs, k, 0, 10, 1)) ==>
              FirstSingle(6, rs) == Some(rs[i])
    ensures HasAt(rs, i, 0, 11, 1) && (forall k :: 0 <= k < i ==> !HasAt(rs, k, 0, 11, 1)) ==>
              FirstSingle(9, rs) == Some(rs[i])
  {
    FirstAt(rs, 5, 193, 8, i);
    FirstAt(rs, 0, 10, 1, i);
    FirstAt(rs, 0, 11, 1, i);
  }

  lemma {:induction false} FirstAt(rs: seq<Record>, category: int, number: int, level: int, i: nat)
    requires i < |rs|
    ensures HasAt(rs, i, category, number, level)
            && (forall k :: 0 <= k < i ==> !HasAt(rs, k, category, number, level)) ==>
              FirstWith(rs, category, number, level) == Some(rs[i])
    decreases i
  {
    if i > 0 && !HasAt(rs, 0, category, number, level) {
      var rest := rs[1..];
      assert forall k :: 0 <= k < |rest| ==> rest[k] == rs[k + 1];
      FirstAt(rest, category, number, level, i - 1);
      if forall k :: 0 <= k < i ==> !HasAt(rs, k, category, number, level) {
        assert forall k :: 0 <= k < i - 1 ==> !HasAt(rest, k, category, number, level) by {
          forall k | 0 <= k < i - 1 ensures !HasAt(rest, k, category, number, level) {
            assert !HasAt(rs, k + 1, category, number, level);
          }
        }
      }
    }
  }

  /** The single fluxes are missing only if no record has their keys. */
  lemma SingleFluxesAreMissing(a: seq<Record>, b: seq<Record>)
    ensures HasInput(5, a, b) <==> exists i :: 0 <= i < |a + b| && HasAt(a + b, i, 5, 193, 8)
    ensures HasInput(6, a, b) <==> exists i :: 0 <= i < |a + b| && HasAt(a + b, i, 0, 10, 1)
    ensures HasInput(9, a, b) <==> exists i :: 0 <= i < |a + b| && HasAt(a + b, i, 0, 11, 1)
  {
    IsMissing(a + b, 5, 193, 8);
    IsMissing(a + b, 0, 10, 1);
    IsMissing(a + b, 0, 11, 1);
  }

  lemma IsMissing(rs: seq<Record>, category: int, number: int, level: int)
    ensures FirstWith(rs, category, number, level).Some?
       <==> exists i :: 0 <= i < |rs| && HasAt(rs, i, category, number, level)
  {
    FirstWithIsFirst(rs, category, number, level);
    if FirstWith(rs, category, number, level).Some? {
      var r := FirstWith(rs, category, number, level).value;
      var i :| 0 <= i < |rs| && rs[i] == r;
      assert HasAt(rs, i, category, number, level);
    }
  }

  /** The net fluxes need two records at the surface, solar (ssr) of category 4 and thermal (str) of category 5. */
  lemma NetFluxesAreMissing(a: seq<Record>, b: seq<Record>)
    ensures var rs := a + b;
            HasInput(7, a, b)
            <==> exists i, j :: 0 <= i < j < |rs| && IsSurfaceFlux(rs[i], 4) && IsSurfaceFlux(rs[j], 4)
    ensures var rs := a + b;
            HasInput(8, a, b)
            <==> exists i, j :: 0 <= i < j < |rs| && IsSurfaceFlux(rs[i], 5) && IsSurfaceFlux(rs[j], 5)
  {
    TwoFluxes(a + b, 4);
    TwoFluxes(a + b, 5);
  }

  lemma {:induction false} OneFlux(rs: seq<Record>, category: int)
    ensures |Fluxes(rs, category)| >= 1 <==> exists i :: 0 <= i < |rs| && IsSurfaceFlux(rs[i], category)
  {
    if rs != [] {
      var rest := rs[1..];
      assert forall k :: 0 <= k < |rest| ==> rest[k] == rs[k + 1];
      OneFlux(rest, category);
    }
  }

  lemma {:induction false} TwoFluxes(rs: seq<Record>, category: int)
    ensures |Fluxes(rs, category)| >= 2
       <==> exists i, j :: 0 <= i < j < |rs| && IsSurfaceFlux(rs[i], category) && IsSurfaceFlux(rs[j], category)
  {
    if rs != [] {
      var rest := rs[1..];
      assert forall k :: 0 <= k < |rest| ==> rest[k] == rs[k + 1];
      OneFlux(rest, category);
      TwoFluxes(rest, category);
      if IsSurfaceFlux(rs[0], category) {
        if i :| 0 <= i < |rest| && IsSurfaceFlux(rest[i], category) {
          assert IsSurfaceFlux(rs[0], category) && IsSurfaceFlux(rs[i + 1], category);
        }
        if i, j :| 0 <= i < j < |rs| && IsSurfaceFlux(rs[i], category) && IsSurfaceFlux(rs[j], category) {
          assert IsSurfaceFlux(rest[j - 1], category);
        }
      } else {
        if i, j :| 0 <= i < j < |rest| && IsSurfaceFlux(rest[i], category) && IsSurfaceFlux(rest[j], category) {
          assert IsSurfaceFlux(rs[i + 1], category) && IsSurfaceFlux(rs[j + 1], category);
        }
        if i, j :| 0 <= i < j < |rs| && IsSurfaceFlux(rs[i], category) && IsSurfaceFlux(rs[j], category) {
          assert IsSurfaceFlux(rest[i - 1], category) && IsSurfaceFlux(rest[j - 1], category);
        }
      }
    }
  }

  // ----- The loads of a run -----

  /** What a run works on: its input files, the variables in its queue, and the points of its grid. */
  datatype Task = Task(files: Files, queue: set<int>, n: nat) {
    predicate Wants(v: int) {
      v in LOAD_ORDER && v in queue
    }

    // ----- How far the files of an hour have been read -----

    /** Both files of the hour at their ends. */
    function Ends(m: nat, k: nat): (c: Cursor)
      ensures PerHour.Within(files(m, k).0, files(m, k).1, c)
    {
      Cursor(|files(m, k).0|, |files(m, k).1|)
    }

    /** Where the flux loader of v leaves them: no flux load rewinds first, and one that fails leaves them at their
        ends. */
    function AfterFlux(m: nat, k: nat, v: int, c: Cursor): (c': Cursor)
      requires PerHour.Within(files(m, k).0, files(m, k).1, c)
      ensures PerHour.Within(files(m, k).0, files(m, k).1, c')
    {
      if v !in queue then c
      else if k == 0 || HasInput(v, files(m, k).0[c.aPos..], files(m, k).1[c.bPos..]) then START
      else Ends(m, k)
    }

    /** Where they are before the j-th load of the hour, while fluxes are loaded. */
    function FluxPlace(m: nat, k: nat, j: nat): (c: Cursor)
      requires j <= 5
      ensures PerHour.Within(files(m, k).0, files(m, k).1, c)
    {
      if j == 0 then START else AfterFlux(m, k, LOAD_ORDER[j - 1], FluxPlace(m, k, j - 1))
    }

    /** Where the hour's loader of v finds the files; the variables generated hour by hour come between the
        fluxes and precipitation. */
    function Place(m: nat, k: nat, v: int): (c: Cursor)
      ensures PerHour.Within(files(m, k).0, files(m, k).1, c)
    {
      if v == 5 then FluxPlace(m, k, 0)
      else if v == 6 then FluxPlace(m, k, 1)
      else if v == 9 then FluxPlace(m, k, 2)
      else if v == 7 then FluxPlace(m, k, 3)
      else if v == 8 then FluxPlace(m, k, 4)
      else if v == 11 then
        PerHour.PlaceAfterAll(queue, files(m, k).0, files(m, k).1, FluxPlace(m, k, 5), k == 0, |PerHour.INSTANTS|)
      else START
    }

    /** What is left of the A and the B file for it. */
    function A(m: nat, k: nat, v: int): seq<Record> {
      files(m, k).0[Place(m, k, v).aPos..]
    }

    function B(m: nat, k: nat, v: int): seq<Record> {
      files(m, k).1[Place(m, k, v).bPos..]
    }

    // ----- What is loaded -----

    predicate FitsAt(m: nat, k: nat, v: int) {
      Wants(v) ==> InputOnGrid(v, A(m, k, v), B(m, k, v), n)
    }

    /** Whatever a queued variable's loader uses fits the grid. */
    ghost predicate Fits() {
      forall m: nat, k: nat, v: int :: FitsAt(m, k, v)
    }

    predicate HasInputAt(m: nat, k: nat, v: int) {
      HasInput(v, A(m, k, v), B(m, k, v))
    }

    /** From hour 6 on, at every step of the member the loader of v finds its input. */
    predicate HasInputs(m: nat, v: int) {
      forall k :: 1 <= k < STEPS ==> HasInputAt(m, k, v)
    }

    /** What the loader of v stores for a member and step. Missing fluxes are ignored at forecast hour 0 only. */
    function Loads(m: nat, k: nat, v: int, first: bool): (r: Option<Field>)
      requires Wants(v) && FitsAt(m, k, v)
      ensures r.Some? ==> |r.value| == n
      ensures r.Some? <==> HasInputAt(m, k, v) || (if v == 11 then first else k == 0)
    {
      FieldOf(v, A(m, k, v), B(m, k, v), k == 0, first, n)
    }

    /** What the loads of a run answer; a stored record's length is the library's affair. */
    function Load(size: Field -> nat): Loader
      requires Fits()
    {
      (m: nat, k: nat, v: int, first: bool) =>
        assert FitsAt(m, k, v);
        if !Wants(v) then None
        else
          match Loads(m, k, v, first)
          case None => None
          case Some(f) => Some(Message(f, size(f)))
    }

    /** The field of step k of a member that has its inputs. */
    function FieldAt(m: nat, v: int, k: nat): (f: Field)
      requires Fits() && Wants(v) && HasInputs(m, v) && k < STEPS
      ensures |f| == n
    {
      assert FitsAt(m, k, v);
      assert k > 0 ==> HasInputAt(m, k, v);
      Loads(m, k, v, k == 0).value
    }

    /** The series of a member is what its own files hold, step by step. */
    function Series(m: nat, v: int): (s: seq<Field>)
      requires Fits() && Wants(v) && HasInputs(m, v)
      ensures |s| == STEPS && forall k :: 0 <= k < STEPS ==> s[k] == FieldAt(m, v, k)
      ensures Integration.Series(s, STEPS - 1, n)
    {
      seq(STEPS, k requires 0 <= k < STEPS => FieldAt(m, v, k))
    }
  }

  // ----- The loads of an hour, on its two files -----

  /** What a load of the hour answers. */
  ghost predicate IsLoad(task: Task, m: nat, k: nat, j: nat, first: bool, r: Option<Field>)
    requires task.Fits() && j < 7
  {
    var v := LOAD_ORDER[j];
    assert task.FitsAt(m, k, v);
    r == if task.Wants(v) then task.Loads(m, k, v, first) else None
  }

  lemma PlaceOfFlux(task: Task, m: nat, k: nat, j: nat)
    requires j < 5
    ensures IsFlux(LOAD_ORDER[j]) && task.Place(m, k, LOAD_ORDER[j]) == task.FluxPlace(m, k, j)
  {
  }

  lemma FluxLoad(task: Task, m: nat, k: nat, j: nat, first: bool)
    requires task.Fits() && j < 5 && LOAD_ORDER[j] in task.queue
    ensures var v, c, (a, b) := LOAD_ORDER[j], task.FluxPlace(m, k, j), task.files(m, k);
            && IsFlux(v) && task.FitsAt(m, k, v) && InputOnGrid(v, a[c.aPos..], b[c.bPos..], task.n)
            && task.Loads(m, k, v, first) == FieldOf(v, a[c.aPos..], b[c.bPos..], k == 0, first, task.n)
            && task.FluxPlace(m, k, j + 1) == if task.Loads(m, k, v, first).Some? then START else task.Ends(m, k)
  {
    PlaceOfFlux(task, m, k, j);
    assert task.FitsAt(m, k, LOAD_ORDER[j]);
  }

  /** One flux load of the hour. */
  method LoadFluxOfHour(task: Task, s: Session, m: nat, k: nat, j: nat, first: bool) returns (r: Option<Field>)
    requires task.Fits() && s.Valid() && (s.a, s.b) == task.files(m, k) && j < 5 && s.Place() == task.FluxPlace(m, k, j)
    modifies s
    ensures s.Valid() && s.Place() == task.FluxPlace(m, k, j + 1) && IsLoad(task, m, k, j, first, r)
  {
    r := None;
    if LOAD_ORDER[j] in task.queue {
      FluxLoad(task, m, k, j, first);
      r := LoadVariable(s, LOAD_ORDER[j], k == 0, first, task.n);
    }
  }

  /** The hour loop's body, on the two files just opened: the seven loads, one after the other, with the
      variables generated hour by hour in between, store what `Task.Loads` says. */
  method LoadHour(task: Task, s: Session, m: nat, k: nat, first: bool) returns (r: seq<Option<Field>>)
    requires task.Fits() && s.Valid() && (s.a, s.b) == task.files(m, k) && s.Place() == START
    modifies s
    ensures s.Valid() && |r| == 7 && forall j :: 0 <= j < 7 ==> IsLoad(task, m, k, j, first, r[j])
  {
    r := [];
    for j := 0 to 5
      invariant s.Valid() && s.Place() == task.FluxPlace(m, k, j)
      invariant |r| == j && forall i :: 0 <= i < j ==> IsLoad(task, m, k, i, first, r[i])
    {
      var x := LoadFluxOfHour(task, s, m, k, j, first);
      r := r + [x];
    }
    PerHour.GenerateAll(s, task.queue, k == 0);
    var precip, snow := LoadRest(task, s, m, k, first);
    r := r + [precip, snow];
  }

  /** The last two loads. */
  method LoadRest(task: Task, s: Session, m: nat, k: nat, first: bool)
    returns (precip: Option<Field>, snow: Option<Field>)
    requires task.Fits() && s.Valid() && (s.a, s.b) == task.files(m, k) && s.Place() == task.Place(m, k, 11)
    modifies s
    ensures s.Valid() && IsLoad(task, m, k, 5, first, precip) && IsLoad(task, m, k, 6, first, snow)
  {
    assert LOAD_ORDER[5] == 11 && LOAD_ORDER[6] == 2;
    precip, snow := None, None;
    assert task.FitsAt(m, k, 11) && task.FitsAt(m, k, 2);
    if 11 in task.queue { precip := LoadVariable(s, 11, k == 0, first, task.n); }
    if 2 in task.queue { snow := LoadSnowOfHour(task, s, m, k, first); }
  }

  method LoadSnowOfHour(task: Task, s: Session, m: nat, k: nat, first: bool) returns (snow: Option<Field>)
    requires task.Fits() && s.Valid() && (s.a, s.b) == task.files(m, k) && 2 in task.queue
    modifies s
    ensures s.Valid() && IsLoad(task, m, k, 6, first, snow)
  {
    assert LOAD_ORDER[6] == 2 && task.FitsAt(m, k, 2);
    assert task.A(m, k, 2) == s.a;
    snow := LoadVariable(s, 2, k == 0, first, task.n);
  }

  // ----- What the places mean for the input -----

  lemma {:induction false} FluxPlaceIsStartOrEnd(task: Task, m: nat, k: nat, j: nat)
    requires j <= 5
    ensures task.FluxPlace(m, k, j) == START || (k > 0 && task.FluxPlace(m, k, j) == task.Ends(m, k))
  {
    if j > 0 { FluxPlaceIsStartOrEnd(task, m, k, j - 1); }
  }

  lemma NothingLeft(v: int)
    requires IsFlux(v)
    ensures !HasInput(v, [], [])
  {
    var none: seq<Record> := [];
    assert none + none == none;
  }

  /** A flux that is found is looked for in the whole files. */
  lemma FluxSeesWholeFiles(task: Task, m: nat, k: nat, v: int)
    requires IsFlux(v) && (k == 0 || task.HasInputAt(m, k, v))
    ensures task.A(m, k, v) == task.files(m, k).0 && task.B(m, k, v) == task.files(m, k).1
  {
    var (a, b) := task.files(m, k);
    var c := task.Place(m, k, v);
    var j := if v == 5 then 0 else if v == 6 then 1 else if v == 9 then 2 else if v == 7 then 3 else 4;
    FluxPlaceIsStartOrEnd(task, m, k, j);
    assert a[|a|..] == [] && b[|b|..] == [];
    NothingLeft(v);
  }

  /** Every queued variable finds its input in the hour. */
  ghost predicate HourHasInput(task: Task, m: nat, k: nat) {
    forall v :: task.Wants(v) ==> task.HasInputAt(m, k, v)
  }

  /** Every queued flux is in the hour's files, whoever reads them. */
  predicate HourHasFluxes(task: Task, m: nat, k: nat) {
    forall j :: 0 <= j < 5 && LOAD_ORDER[j] in task.queue ==>
                  HasInput(LOAD_ORDER[j], task.files(m, k).0, task.files(m, k).1)
  }

  /** Where the variables generated hour by hour leave the A file when the fluxes have been found. */
  function PrecipPlace(task: Task, m: nat, k: nat): (p: nat)
    ensures p <= |task.files(m, k).0|
  {
    PerHour.PlaceAfterAll(task.queue, task.files(m, k).0, task.files(m, k).1, START, k == 0, |PerHour.INSTANTS|).aPos
  }

  lemma {:induction false} FluxesRewind(task: Task, m: nat, k: nat, j: nat)
    requires j <= 5 && HourHasFluxes(task, m, k)
    ensures task.FluxPlace(m, k, j) == START
  {
    if j > 0 {
      FluxesRewind(task, m, k, j - 1);
      assert task.files(m, k).0[0..] == task.files(m, k).0 && task.files(m, k).1[0..] == task.files(m, k).1;
    }
  }

  lemma {:induction false} FoundFluxesAreThere(task: Task, m: nat, k: nat)
    requires k > 0 && HourHasInput(task, m, k)
    ensures HourHasFluxes(task, m, k)
  {
    forall j | 0 <= j < 5 && LOAD_ORDER[j] in task.queue
      ensures HasInput(LOAD_ORDER[j], task.files(m, k).0, task.files(m, k).1)
    {
      assert task.Wants(LOAD_ORDER[j]) && task.HasInputAt(m, k, LOAD_ORDER[j]);
      FluxSeesWholeFiles(task, m, k, LOAD_ORDER[j]);
    }
  }

  lemma WithFluxesTheRestIsPrecip(task: Task, m: nat, k: nat)
    requires k > 0 && HourHasFluxes(task, m, k)
    ensures HourHasInput(task, m, k)
       <==> IsComplete(task, m, k)
  {
    FluxesRewind(task, m, k, 5);
    assert LOAD_ORDER[5] == 11;
    assert 11 in task.queue ==> task.Wants(11);
    forall v | task.Wants(v) && v != 11 ensures task.HasInputAt(m, k, v) {
      if v != 2 { FluxAtStart(task, m, k, v); }
    }
  }

  lemma FluxAtStart(task: Task, m: nat, k: nat, v: int)
    requires task.Wants(v) && IsFlux(v) && HourHasFluxes(task, m, k)
    ensures task.HasInputAt(m, k, v)
  {
    var j := if v == 5 then 0 else if v == 6 then 1 else if v == 9 then 2 else if v == 7 then 3 else 4;
    FluxesRewind(task, m, k, j);
    assert LOAD_ORDER[j] == v;
    assert task.files(m, k).0[0..] == task.files(m, k).0 && task.files(m, k).1[0..] == task.files(m, k).1;
  }

  /** The hour's files are complete: each queued flux is there and, if precipitation is queued, a precipitation
      record is left of the A file where the variables generated hour by hour leave it. */
  predicate IsComplete(task: Task, m: nat, k: nat) {
    && HourHasFluxes(task, m, k)
    && (11 in task.queue ==> FirstPrecip(task.files(m, k).0[PrecipPlace(task, m, k)..]).Some?)
  }

  /** Every queued variable finds its input, wherever those before it have left the files, exactly when the hour's
      files are complete. */
  lemma HourInputs(task: Task, m: nat, k: nat)
    requires k > 0
    ensures HourHasInput(task, m, k) <==> IsComplete(task, m, k)
  {
    if HourHasInput(task, m, k) { FoundFluxesAreThere(task, m, k); }
    if HourHasFluxes(task, m, k) { WithFluxesTheRestIsPrecip(task, m, k); }
  }

  lemma AtTheEnds(task: Task, m: nat, k: nat, v: int)
    requires IsFlux(v) && task.Place(m, k, v) == task.Ends(m, k)
    ensures !task.HasInputAt(m, k, v)
  {
    NothingLeft(v);
    assert task.A(m, k, v) == [] && task.B(m, k, v) == [];
  }

  lemma {:induction false} FailedFluxLeavesEnds(task: Task, m: nat, k: nat, i: nat, j: nat)
    requires k > 0 && i < j <= 5 && LOAD_ORDER[i] in task.queue && !task.HasInputAt(m, k, LOAD_ORDER[i])
    ensures task.FluxPlace(m, k, j) == task.Ends(m, k)
    decreases j
  {
    PlaceOfFlux(task, m, k, j - 1);
    if j > i + 1 {
      FailedFluxLeavesEnds(task, m, k, i, j - 1);
      AtTheEnds(task, m, k, LOAD_ORDER[j - 1]);
    }
  }

  lemma FailureAtFailsAt(task: Task, m: nat, k: nat, i: nat, j: nat)
    requires k > 0 && i < j < 5 && LOAD_ORDER[i] in task.queue && !task.HasInputAt(m, k, LOAD_ORDER[i])
    ensures !task.HasInputAt(m, k, LOAD_ORDER[j])
  {
    FailedFluxLeavesEnds(task, m, k, i, j);
    PlaceOfFlux(task, m, k, j);
    AtTheEnds(task, m, k, LOAD_ORDER[j]);
  }

  /** The order in which the fluxes are loaded: ttr, slhf, sshf, ssr, str. */
  predicate IsLoadedBefore(u: int, v: int) {
    || (u == 5 && (v == 6 || v == 9 || v == 7 || v == 8))
    || (u == 6 && (v == 9 || v == 7 || v == 8))
    || (u == 9 && (v == 7 || v == 8))
    || (u == 7 && v == 8)
  }

  /** One missing flux fails those loaded after it, whatever the files hold. */
  lemma OneFailureFailsTheFluxes(task: Task, m: nat, k: nat, u: int, v: int)
    requires k > 0 && IsLoadedBefore(u, v) && u in task.queue && !task.HasInputAt(m, k, u)
    ensures !task.HasInputAt(m, k, v)
  {
    var i := if u == 5 then 0 else if u == 6 then 1 else if u == 9 then 2 else 3;
    var j := if v == 6 then 1 else if v == 9 then 2 else if v == 7 then 3 else 4;
    FailureAtFailsAt(task, m, k, i, j);
  }

  /** It also fails precipitation, unless soil temperature, queued and found, has rewound the files in between. */
  lemma OneFailureFailsPrecipitation(task: Task, m: nat, k: nat, u: int)
    requires k > 0 && (u == 5 || u == 6 || u == 9 || u == 7 || u == 8)
    requires u in task.queue && !task.HasInputAt(m, k, u)
    ensures var (a, b) := task.files(m, k);
            task.HasInputAt(m, k, 11)
            <==> PerHour.SOIL_TEMPERATURE in task.queue && PerHour.TwoSoilLayers(a + b) && FirstPrecip(a).Some?
  {
    var (a, b) := task.files(m, k);
    assert a[|a|..] == [] && a[0..] == a;
    var i := if u == 5 then 0 else if u == 6 then 1 else if u == 9 then 2 else if u == 7 then 3 else 4;
    FailedFluxLeavesEnds(task, m, k, i, 5);
    PerHour.EndsStay(task.queue, a, b, 4);
    PerHour.SoilTemperatureLeaves(a, b, task.Ends(m, k), false);
  }

  /** If the files hold the records of each queued variable generated hour by hour, precipitation is looked for in
      the whole A file. */
  lemma FoundInstantsKeepPrecip(task: Task, m: nat, k: nat)
    requires forall v :: v in PerHour.INSTANTS && v in task.queue ==>
                           PerHour.AreThere(v, task.files(m, k).0, task.files(m, k).1, k == 0)
    ensures PrecipPlace(task, m, k) == 0
  {
    PerHour.FoundRecordsRewind(task.queue, task.files(m, k).0, task.files(m, k).1, k == 0, |PerHour.INSTANTS|);
  }

  /** After hour 0 a missing snow flag loses precipitation too, if snow fall is queued and no later variable rewinds. */
  lemma SnowFlagMissingLosesPrecipitation(task: Task, m: nat, k: nat)
    requires k > 0 && PerHour.SNOW_WATER in task.queue
    requires PerHour.POTENTIAL_TEMPERATURE !in task.queue && PerHour.SOIL_TEMPERATURE !in task.queue
    requires var a := task.files(m, k).0; forall i :: 0 <= i < |a| ==> !IsWater(a[i], 195)
    ensures !task.HasInputAt(m, k, 11)
  {
    var (a, b) := task.files(m, k);
    var c := task.FluxPlace(m, k, 5);
    PerHour.InTurn(task.queue, a, b, c, false);
    PerHour.SnowWaterLeaves(a, b, c);
    var c1 := PerHour.PlaceAfter(PerHour.SNOW_WATER, a, b, c, false);
    assert c1.aPos == |a|;
    PerHour.ColumnWaterLeaves(a, b, c1, false);
    PerHour.SoilMoistureLeaves(a, b, c1, false);
    assert a[|a|..] == [];
  }

  function Rain(n: nat): Record {
    Record(0, 1, 8, 1, 0, Zeros(n))
  }

  /** Column water and precipitation are queued, and precipitation is all there is in the files. */
  function RainWithoutColumnWater(n: nat): Task {
    Task((m: nat, k: nat) => ([Rain(n)], []), {PerHour.COLUMN_WATER, 11}, n)
  }

  /** It can be lost otherwise: with column water queued and none in the files, the precipitation record has been
      passed when its loader comes to look for it. */
  lemma ColumnWaterLosesPrecipitation(n: nat, m: nat, k: nat)
    requires k > 0
    ensures var task := RainWithoutColumnWater(n);
            HasInput(11, task.files(m, k).0, task.files(m, k).1) && !HourHasInput(task, m, k)
  {
    var task := RainWithoutColumnWater(n);
    ColumnWaterPasses(task, m, k, Rain(n));
    HourInputs(task, m, k);
  }

  lemma ColumnWaterPasses(task: Task, m: nat, k: nat, rain: Record)
    requires task.queue == {PerHour.COLUMN_WATER, 11} && task.files(m, k) == ([rain], [])
    requires rain.category == 1 && rain.number == 8
    ensures FirstPrecip(task.files(m, k).0[PrecipPlace(task, m, k)..]).None?
  {
    var a, b: seq<Record> := [rain], [];
    assert PerHour.After(a, PerHour.IsPrecipitableWater, 0).None? by {
      assert PerHour.After(a, PerHour.IsPrecipitableWater, 1).None?;
    }
    var q := task.queue;
    assert PerHour.PlaceAfterAll(q, a, b, START, k == 0, 1) == START;
    assert PerHour.PlaceAfterAll(q, a, b, START, k == 0, 2) == Cursor(1, 0);
    assert PerHour.PlaceAfterAll(q, a, b, START, k == 0, 3) == Cursor(1, 0);
    assert PerHour.PlaceAfterAll(q, a, b, START, k == 0, 4) == Cursor(1, 0);
    assert a[1..] == [];
  }

  // ----- When a run succeeds -----

  lemma InputsDecideLoad(task: Task, size: Field -> nat, m: nat, v: int, k: nat)
    requires task.Fits() && task.Wants(v)
    ensures Succeeds(task.Load(size), m, v, k) <==> k == 0 || task.HasInputAt(m, k, v)
    ensures Succeeds(task.Load(size), m, v, k) ==>
              task.FitsAt(m, k, v) && Some(LoadedAt(task.Load(size), m, v, k).field) == task.Loads(m, k, v, k == 0)
  {
    assert task.FitsAt(m, k, v);
    assert task.Load(size)(m, k, v, k == 0).Some? <==> task.Loads(m, k, v, k == 0).Some?;
  }

  lemma InputsDecideLoads(task: Task, size: Field -> nat, m: nat, v: int)
    requires task.Fits() && task.Wants(v)
    ensures LoadsSucceed(task.Load(size), m, v) <==> task.HasInputs(m, v)
  {
    forall k: nat | k < STEPS
      ensures Succeeds(task.Load(size), m, v, k) <==> k == 0 || task.HasInputAt(m, k, v)
    {
      InputsDecideLoad(task, size, m, v, k);
    }
    if LoadsSucceed(task.Load(size), m, v) {
      forall k | 1 <= k < STEPS ensures task.HasInputAt(m, k, v) { assert Succeeds(task.Load(size), m, v, k); }
    }
  }

  /** Every queued variable of the members has its inputs. */
  ghost predicate RunHasInput(task: Task, members: nat) {
    forall m: nat, v: int :: m < members && task.Wants(v) ==> task.HasInputs(m, v)
  }

  /** In terms of the files alone. */
  lemma RunInputs(task: Task, members: nat)
    ensures RunHasInput(task, members) <==> forall m: nat, k :: m < members && 1 <= k < STEPS ==> IsComplete(task, m, k)
  {
    forall m: nat, k: nat | k > 0 ensures HourHasInput(task, m, k) <==> IsComplete(task, m, k) {
      HourInputs(task, m, k);
    }
    if RunHasInput(task, members) {
      forall m: nat, k | m < members && 1 <= k < STEPS ensures HourHasInput(task, m, k) {
        forall v | task.Wants(v) ensures task.HasInputAt(m, k, v) { assert task.HasInputs(m, v); }
      }
    }
    if forall m: nat, k :: m < members && 1 <= k < STEPS ==> IsComplete(task, m, k) {
      forall m: nat, v: int, k | m < members && task.Wants(v) && 1 <= k < STEPS ensures task.HasInputAt(m, k, v) {
        assert IsComplete(task, m, k) && HourHasInput(task, m, k);
      }
    }
  }

  lemma InputsDecideMember(task: Task, size: Field -> nat, m: nat)
    requires task.Fits()
    ensures MemberSucceeds(task.Load(size), task.queue, m) <==> forall v :: task.Wants(v) ==> task.HasInputs(m, v)
  {
    forall v | task.Wants(v) ensures LoadsSucceed(task.Load(size), m, v) <==> task.HasInputs(m, v) {
      InputsDecideLoads(task, size, m, v);
    }
    if MemberSucceeds(task.Load(size), task.queue, m) {
      forall v | task.Wants(v) ensures task.HasInputs(m, v) { assert LoadsSucceed(task.Load(size), m, v); }
    }
  }

  lemma InputsDecideRun(task: Task, size: Field -> nat, members: nat)
    requires task.Fits()
    ensures AllSucceed(task.Load(size), task.queue, 0, members) <==> RunHasInput(task, members)
  {
    forall m: nat
      ensures MemberSucceeds(task.Load(size), task.queue, m) <==> forall v :: task.Wants(v) ==> task.HasInputs(m, v)
    {
      InputsDecideMember(task, size, m);
    }
    if AllSucceed(task.Load(size), task.queue, 0, members) {
      forall m: nat, v: int | m < members && task.Wants(v) ensures task.HasInputs(m, v) {
        assert MemberSucceeds(task.Load(size), task.queue, m);
      }
    }
  }

  // ----- What a generator is given -----

  /** The fields of a generator's records by step; total precipitation has a placeholder for step 0. */
  function SeriesOf(v: int, records: seq<Message>, n: nat): (s: seq<Field>)
    ensures |s| == FirstRead(v) + |records|
  {
    (if FirstRead(v) == 1 then [Zeros(n)] else []) + seq(|records|, j requires 0 <= j < |records| => records[j].field)
  }

  /** What a generator reads from its buffer is the series of the member's own files. */
  lemma SeriesComeFromFiles(task: Task, size: Field -> nat, m: nat, v: int)
    requires task.Fits() && task.Wants(v) && task.HasInputs(m, v)
    ensures LoadsSucceed(task.Load(size), m, v)
    ensures SeriesOf(v, MemberRecords(task.Load(size), m, v), task.n) == task.Series(m, v)
  {
    InputsDecideLoads(task, size, m, v);
    var records := MemberRecords(task.Load(size), m, v);
    forall k: nat | k < STEPS ensures SeriesOf(v, records, task.n)[k] == task.FieldAt(m, v, k) {
      assert Succeeds(task.Load(size), m, v, k);
      InputsDecideLoad(task, size, m, v, k);
      if k >= FirstRead(v) { assert records[k - FirstRead(v)] == LoadedAt(task.Load(size), m, v, k); }
    }
  }

  // ----- What is archived, in terms of the input files -----

  /** The field archived for step k. */
  function Archived(task: Task, m: nat, v: int, k: nat): (f: Field)
    requires task.Fits() && task.Wants(v) && task.HasInputs(m, v) && k < STEPS
    ensures |f| == task.n
  {
    Integration.Emitted(task.Series(m, v), k, task.n, Integration.Factor(v))
  }

  lemma {:induction false} ValuedIsOnGrid(w: seq<Record>, number: int, n: nat)
    requires OnGrid(w, n)
    ensures |Valued(w, number, n)| == n
  {
    if w != [] {
      assert w[0] in w;
      ValuedIsOnGrid(w[1..], number, n);
    }
  }

  /** Downward minus upward flux at point i, a missing flux counting as zero. */
  function NetAt(rs: seq<Record>, category: int, n: nat, i: nat): real
    requires OnGrid(Fluxes(rs, category), n) && i < n
  {
    var w := Fluxes(rs, category);
    ValuedIsOnGrid(w, 192, n);
    ValuedIsOnGrid(w, 193, n);
    Valued(w, 192, n)[i] - Valued(w, 193, n)[i]
  }

  /** The sum of downward minus upward flux over the input files of steps 1 to k. */
  function NetSum(task: Task, m: nat, v: int, k: nat, i: nat): real
    requires task.Fits() && task.Wants(v) && IsNet(v) && task.HasInputs(m, v) && k < STEPS && i < task.n
  {
    if k == 0 then 0.0
    else
      NetInputFits(task, m, v, k);
      NetSum(task, m, v, k - 1, i) + NetAt(Both(task.files, m, k), NetCategory(v), task.n, i)
  }

  /** The first two fluxes the scan meets at each of the steps 1 to k are one downward and one upward. */
  predicate KindsDiffer(task: Task, m: nat, v: int, k: nat)
    requires IsNet(v)
  {
    forall j :: 1 <= j <= k ==> KindsDifferAt(Both(task.files, m, j), NetCategory(v))
  }

  predicate KindsDifferAt(rs: seq<Record>, category: int) {
    var w := Fluxes(rs, category);
    |w| >= 2 ==> w[0].number != w[1].number
  }

  /** What the loader finds is in the whole files of the step, and fits the grid. */
  lemma NetInputFits(task: Task, m: nat, v: int, k: nat)
    requires task.Fits() && task.Wants(v) && IsNet(v) && task.HasInputs(m, v) && 0 < k < STEPS
    ensures task.A(m, k, v) + task.B(m, k, v) == Both(task.files, m, k)
    ensures OnGrid(Fluxes(Both(task.files, m, k), NetCategory(v)), task.n)
  {
    assert task.FitsAt(m, k, v) && task.HasInputAt(m, k, v);
    FluxSeesWholeFiles(task, m, k, v);
  }

  lemma NetFieldAt(task: Task, m: nat, v: int, k: nat, i: nat)
    requires task.Fits() && task.Wants(v) && IsNet(v) && task.HasInputs(m, v) && 0 < k < STEPS && i < task.n
    requires KindsDifferAt(Both(task.files, m, k), NetCategory(v))
    ensures OnGrid(Fluxes(Both(task.files, m, k), NetCategory(v)), task.n)
    ensures task.FieldAt(m, v, k)[i] == NetAt(Both(task.files, m, k), NetCategory(v), task.n, i)
  {
    NetInputFits(task, m, v, k);
    assert task.FitsAt(m, k, v) && task.HasInputAt(m, k, v);
    NetIsDownMinusUp(Both(task.files, m, k), NetCategory(v), false, task.n);
  }

  /** x is the net flux of step j at point i. */
  predicate IsNetInput(task: Task, m: nat, v: int, j: nat, i: nat, x: real)
    requires IsNet(v) && i < task.n
  {
    var rs := Both(task.files, m, j);
    OnGrid(Fluxes(rs, NetCategory(v)), task.n) && x == NetAt(rs, NetCategory(v), task.n, i)
  }

  lemma {:induction false} NetSumIsSum(task: Task, m: nat, v: int, s: seq<Field>, k: nat, i: nat)
    requires task.Fits() && task.Wants(v) && IsNet(v) && task.HasInputs(m, v) && k < STEPS && i < task.n
    requires Integration.Series(s, k, task.n) && forall j :: 1 <= j <= k ==> IsNetInput(task, m, v, j, i, s[j][i])
    ensures Integration.Sum(s, k, task.n, i) == NetSum(task, m, v, k, i)
    decreases k
  {
    if k > 0 {
      NetSumIsSum(task, m, v, s, k - 1, i);
      assert IsNetInput(task, m, v, k, i, s[k][i]);
    }
  }

  /** The solar and thermal fields archived for step k are six hours times the sum of downward minus upward
      flux over the input files of steps 1 to k of the same member. */
  lemma NetRadiationIsDownMinusUp(task: Task, m: nat, v: int, k: nat, i: nat)
    requires task.Fits() && task.Wants(v) && IsNet(v) && task.HasInputs(m, v)
    requires k < STEPS && i < task.n && KindsDiffer(task, m, v, k)
    ensures Archived(task, m, v, k)[i] == 21600.0 * NetSum(task, m, v, k, i)
  {
    var s := task.Series(m, v);
    forall j | 1 <= j <= k ensures IsNetInput(task, m, v, j, i, s[j][i]) {
      assert KindsDifferAt(Both(task.files, m, j), NetCategory(v));
      NetFieldAt(task, m, v, j, i);
    }
    NetSumIsSum(task, m, v, s, k, i);
    assert Integration.Factor(v) == 21600.0;
  }

  lemma SingleInputFits(task: Task, m: nat, v: int, k: nat)
    requires task.Fits() && task.Wants(v) && IsSingle(v) && task.HasInputs(m, v) && 0 < k < STEPS
    ensures var r := FirstSingle(v, Both(task.files, m, k));
            r.Some? && |r.value.values| == task.n && task.FieldAt(m, v, k) == r.value.values
  {
    assert task.FitsAt(m, k, v) && task.HasInputAt(m, k, v);
    FluxSeesWholeFiles(task, m, k, v);
  }

  /** The sum of the input fluxes of steps 1 to k. */
  function SingleSum(task: Task, m: nat, v: int, k: nat, i: nat): real
    requires task.Fits() && task.Wants(v) && IsSingle(v) && task.HasInputs(m, v) && k < STEPS && i < task.n
  {
    if k == 0 then 0.0
    else
      SingleInputFits(task, m, v, k);
      SingleSum(task, m, v, k - 1, i) + FirstSingle(v, Both(task.files, m, k)).value.values[i]
  }

  /** x is the input flux of step j at point i. */
  predicate IsSingleInput(task: Task, m: nat, v: int, j: nat, i: nat, x: real)
    requires IsSingle(v)
  {
    var r := FirstSingle(v, Both(task.files, m, j));
    r.Some? && i < |r.value.values| && x == r.value.values[i]
  }

  lemma {:induction false} SingleSumIsSum(task: Task, m: nat, v: int, s: seq<Field>, k: nat, i: nat)
    requires task.Fits() && task.Wants(v) && IsSingle(v) && task.HasInputs(m, v) && k < STEPS && i < task.n
    requires Integration.Series(s, k, task.n) && forall j :: 1 <= j <= k ==> IsSingleInput(task, m, v, j, i, s[j][i])
    ensures Integration.Sum(s, k, task.n, i) == SingleSum(task, m, v, k, i)
    decreases k
  {
    if k > 0 {
      SingleSumIsSum(task, m, v, s, k - 1, i);
      assert IsSingleInput(task, m, v, k, i, s[k][i]);
    }
  }

  /** The outgoing and heat flux fields archived for step k are six hours times the sum of the input fluxes
      of steps 1 to k of the same member, with the sign turned. */
  lemma FluxTurnsSign(task: Task, m: nat, v: int, k: nat, i: nat)
    requires task.Fits() && task.Wants(v) && IsSingle(v) && task.HasInputs(m, v) && k < STEPS && i < task.n
    ensures Archived(task, m, v, k)[i] == -21600.0 * SingleSum(task, m, v, k, i)
  {
    var s := task.Series(m, v);
    forall j | 1 <= j <= k ensures IsSingleInput(task, m, v, j, i, s[j][i]) { SingleInputFits(task, m, v, j); }
    SingleSumIsSum(task, m, v, s, k, i);
    assert Integration.Factor(v) == -21600.0;
  }

  const SNOW := 2
  const PRECIPITATION := 11

  lemma PrecipInputFits(task: Task, m: nat, k: nat)
    requires task.Fits() && task.Wants(11) && task.HasInputs(m, 11) && 0 < k < STEPS
    ensures var r := FirstPrecip(task.A(m, k, 11)); r.Some? && |r.value| == task.n && task.FieldAt(m, 11, k) == r.value
  {
    assert task.FitsAt(m, k, 11) && task.HasInputAt(m, k, 11);
  }

  /** The sum of the precipitation of steps 1 to k, each the first record of what is left of the A file. */
  function PrecipSum(task: Task, m: nat, k: nat, i: nat): real
    requires task.Fits() && task.Wants(11) && task.HasInputs(m, 11) && k < STEPS && i < task.n
  {
    if k == 0 then 0.0
    else
      PrecipInputFits(task, m, k);
      PrecipSum(task, m, k - 1, i) + FirstPrecip(task.A(m, k, 11)).value[i]
  }

  /** x is the precipitation of step j at point i. */
  predicate IsPrecipInput(task: Task, m: nat, j: nat, i: nat, x: real) {
    var r := FirstPrecip(task.A(m, j, 11));
    r.Some? && i < |r.value| && x == r.value[i]
  }

  lemma {:induction false} PrecipSumIsSum(task: Task, m: nat, s: seq<Field>, k: nat, i: nat)
    requires task.Fits() && task.Wants(11) && task.HasInputs(m, 11) && k < STEPS && i < task.n
    requires Integration.Series(s, k, task.n) && forall j :: 1 <= j <= k ==> IsPrecipInput(task, m, j, i, s[j][i])
    ensures Integration.Sum(s, k, task.n, i) == PrecipSum(task, m, k, i)
    decreases k
  {
    if k > 0 {
      PrecipSumIsSum(task, m, s, k - 1, i);
      assert IsPrecipInput(task, m, k, i, s[k][i]);
    }
  }

  /** The precipitation archived for step k is the sum of that of the steps 1 to k itself. */
  lemma PrecipitationIsSummed(task: Task, m: nat, k: nat, i: nat)
    requires task.Fits() && task.Wants(11) && task.HasInputs(m, 11) && k < STEPS && i < task.n
    ensures Archived(task, m, 11, k)[i] == PrecipSum(task, m, k, i)
  {
    var s := task.Series(m, 11);
    forall j | 1 <= j <= k ensures IsPrecipInput(task, m, j, i, s[j][i]) { PrecipInputFits(task, m, j); }
    PrecipSumIsSum(task, m, s, k, i);
  }

  /** The A file has one precipitation record, with no negative value. */
  predicate RainsOnce(file: seq<Record>) {
    PrecipCount(file) == 1 && NonNegative(FirstPrecip(file))
  }

  predicate NonNegative(f: Option<Field>) {
    f.Some? ==> forall i :: 0 <= i < |f.value| ==> f.value[i] >= 0.0
  }

  /** Snow and precipitation are archived, and every step of the member after the first has one precipitation
      record, which the loader finds. */
  ghost predicate Rains(task: Task, m: nat) {
    && task.Fits() && task.Wants(SNOW) && task.Wants(PRECIPITATION) && task.HasInputs(m, PRECIPITATION)
    && forall k :: 1 <= k < STEPS ==> RainsOnce(task.files(m, k).0)
  }

  /** The flag that counts is that of the record the scan ends with; without flags there is none. */
  lemma SnowIsFlagged(file: seq<Record>, n: nat, p: nat, q: nat, i: nat)
    requires MoistureOnGrid(file, n) && i < n
    ensures EndsWith(file, p, q) ==> |file[q].values| == n && (IsSnow(file, n, i) <==> file[q].values[i] == 1.0)
    ensures (forall k :: 0 <= k < |file| ==> !IsWater(file[k], 195)) ==> !IsSnow(file, n, i)
  {
    if EndsWith(file, p, q) {
      ScanEndsWith(file, p, q);
      assert file[q] in file;
    }
    ScanSeesWhatIsThere(NOTHING_SEEN, file);
  }

  lemma RainIsInput(task: Task, m: nat)
    requires Rains(task, m)
    ensures task.HasInputs(m, SNOW) && task.HasInputs(m, PRECIPITATION)
  {
    forall k | 1 <= k < STEPS ensures task.HasInputAt(m, k, SNOW) {}
  }

  lemma {:induction false} PrecipCountFrom(rs: seq<Record>, p: nat)
    requires p <= |rs|
    ensures PrecipCount(rs) == PrecipCount(rs[..p]) + PrecipCount(rs[p..])
    ensures PrecipCount(rs[..p]) == 0 ==> FirstPrecip(rs) == FirstPrecip(rs[p..])
    decreases p
  {
    if p == 0 {
      assert rs[..0] == [] && rs[0..] == rs;
    } else {
      PrecipCountFrom(rs[1..], p - 1);
      assert rs[..p][1..] == rs[1..][..p - 1] && rs[1..][p - 1..] == rs[p..];
    }
  }

  lemma {:induction false} FoundPrecipCounts(rs: seq<Record>)
    requires FirstPrecip(rs).Some?
    ensures PrecipCount(rs) >= 1
  {
    if !IsMoisture(rs[0], APCP) { FoundPrecipCounts(rs[1..]); }
  }

  /** A step's one precipitation record is the one its loader finds, wherever it starts to look. */
  lemma OnePrecipIsFound(rs: seq<Record>, p: nat)
    requires p <= |rs| && PrecipCount(rs) == 1 && FirstPrecip(rs[p..]).Some?
    ensures FirstPrecip(rs[p..]) == FirstPrecip(rs)
  {
    PrecipCountFrom(rs, p);
    FoundPrecipCounts(rs[p..]);
  }

  /** The step's scan meets a snow record, and its flag at point i is 1. */
  predicate IsSnow(file: seq<Record>, n: nat, i: nat)
    requires MoistureOnGrid(file, n) && i < n
  {
    ScanStaysOnGrid(NOTHING_SEEN, file, n);
    var seen := SnowScan(NOTHING_SEEN, file);
    seen.Both() && seen.snow.value[i] == 1.0
  }

  /** A step's snow is its precipitation if it is flagged, and nothing otherwise. */
  lemma SnowOfStep(file: seq<Record>, n: nat, i: nat)
    requires MoistureOnGrid(file, n) && RainsOnce(file) && i < n
    ensures FirstPrecip(file).Some? && |FirstPrecip(file).value| == n
    ensures SnowField(file, n)[i] == if IsSnow(file, n, i) then FirstPrecip(file).value[i] else 0.0
    ensures 0.0 <= SnowField(file, n)[i] <= FirstPrecip(file).value[i]
  {
    OnePrecip(file, n);
    ScanStaysOnGrid(NOTHING_SEEN, file, n);
    ScanFindsThePrecip(NOTHING_SEEN, file);
    SnowIsAtMostPrecip(file, n, i);
  }

  lemma PrecipOfStep(task: Task, m: nat, k: nat)
    requires Rains(task, m) && 1 <= k < STEPS
    ensures Some(task.FieldAt(m, PRECIPITATION, k)) == FirstPrecip(task.files(m, k).0)
  {
    var a := task.files(m, k).0;
    assert RainsOnce(a) && task.FitsAt(m, k, PRECIPITATION) && task.HasInputAt(m, k, PRECIPITATION);
    OnePrecipIsFound(a, task.Place(m, k, PRECIPITATION).aPos);
  }

  lemma SnowIsScanned(task: Task, m: nat, k: nat)
    requires Rains(task, m) && 1 <= k < STEPS
    ensures task.HasInputs(m, SNOW) && MoistureOnGrid(task.files(m, k).0, task.n)
    ensures task.FieldAt(m, SNOW, k) == SnowField(task.files(m, k).0, task.n)
  {
    RainIsInput(task, m);
    assert task.FitsAt(m, k, SNOW) && task.A(m, k, SNOW) == task.files(m, k).0;
  }

  lemma RainOfStep(task: Task, m: nat, k: nat, i: nat)
    requires Rains(task, m) && 1 <= k < STEPS && i < task.n
    ensures task.HasInputs(m, SNOW) && MoistureOnGrid(task.files(m, k).0, task.n)
    ensures task.FieldAt(m, SNOW, k)[i]
         == if IsSnow(task.files(m, k).0, task.n, i) then task.FieldAt(m, PRECIPITATION, k)[i] else 0.0
    ensures 0.0 <= task.FieldAt(m, SNOW, k)[i] <= task.FieldAt(m, PRECIPITATION, k)[i]
  {
    assert RainsOnce(task.files(m, k).0);
    PrecipOfStep(task, m, k);
    SnowIsScanned(task, m, k);
    SnowOfStep(task.files(m, k).0, task.n, i);
  }

  /** The archived snow never exceeds the archived precipitation of the same member and step, and neither
      goes down from one step to the next. */
  lemma SnowIsWithinPrecipitation(task: Task, m: nat, k: nat, i: nat)
    requires Rains(task, m) && k < STEPS && i < task.n
    ensures task.HasInputs(m, SNOW) && task.HasInputs(m, PRECIPITATION)
    ensures 0.0 <= Archived(task, m, SNOW, k)[i] <= Archived(task, m, PRECIPITATION, k)[i]
    ensures k > 0 ==> Archived(task, m, SNOW, k - 1)[i] <= Archived(task, m, SNOW, k)[i]
                      && Archived(task, m, PRECIPITATION, k - 1)[i] <= Archived(task, m, PRECIPITATION, k)[i]
  {
    RainIsInput(task, m);
    var snow, precip := task.Series(m, SNOW), task.Series(m, PRECIPITATION);
    forall j | 1 <= j <= k ensures 0.0 <= snow[j][i] <= precip[j][i] { RainOfStep(task, m, j, i); }
    Integration.AccumulationsCompare(snow, precip, k, task.n, i);
  }

  /** The sum of the precipitation of the steps, of 1 to k, that are flagged as snow. */
  function FlaggedSum(task: Task, m: nat, k: nat, i: nat): real
    requires Rains(task, m) && k < STEPS && i < task.n
  {
    if k == 0 then 0.0
    else
      RainOfStep(task, m, k, i);
      FlaggedSum(task, m, k - 1, i)
      + if IsSnow(task.files(m, k).0, task.n, i) then task.FieldAt(m, PRECIPITATION, k)[i] else 0.0
  }

  /** x is the precipitation of step j at point i if the step is flagged there, and nothing otherwise. */
  ghost predicate IsFlaggedInput(task: Task, m: nat, j: nat, i: nat, x: real)
    requires Rains(task, m) && j < STEPS && i < task.n
  {
    && MoistureOnGrid(task.files(m, j).0, task.n)
    && x == if IsSnow(task.files(m, j).0, task.n, i) then task.FieldAt(m, PRECIPITATION, j)[i] else 0.0
  }

  lemma {:induction false} FlaggedSumIsSum(task: Task, m: nat, s: seq<Field>, k: nat, i: nat)
    requires Rains(task, m) && k < STEPS && i < task.n
    requires Integration.Series(s, k, task.n) && forall j :: 1 <= j <= k ==> IsFlaggedInput(task, m, j, i, s[j][i])
    ensures Integration.Sum(s, k, task.n, i) == FlaggedSum(task, m, k, i)
    decreases k
  {
    if k > 0 {
      FlaggedSumIsSum(task, m, s, k - 1, i);
      assert IsFlaggedInput(task, m, k, i, s[k][i]);
    }
  }

  /** The archived snow is the precipitation of exactly the steps flagged as snow. */
  lemma SnowIsFlaggedPrecipitation(task: Task, m: nat, k: nat, i: nat)
    requires Rains(task, m) && k < STEPS && i < task.n
    ensures task.HasInputs(m, SNOW) && Archived(task, m, SNOW, k)[i] == FlaggedSum(task, m, k, i)
  {
    RainIsInput(task, m);
    var s := task.Series(m, SNOW);
    forall j | 1 <= j <= k ensures IsFlaggedInput(task, m, j, i, s[j][i]) { RainOfStep(task, m, j, i); }
    FlaggedSumIsSum(task, m, s, k, i);
  }

  // ----- The archive of a whole run -----

  /** What a generator is called on in a good run: a queued variable of a member, with the member's records. */
  ghost predicate IsJob(load: Loader, queue: set<int>, o: Output) {
    && o.variable in LOAD_ORDER && o.variable in queue && LoadsSucceed(load, o.member, o.variable)
    && o.records == MemberRecords(load, o.member, o.variable)
  }

  /** No generator call is made twice. */
  predicate Distinct(os: seq<Output>) {
    forall p, q :: 0 <= p < q < |os| ==> os[p].member != os[q].member || os[p].variable != os[q].variable
  }

  ghost predicate Covers(os: seq<Output>, m: nat, v: int) {
    exists o :: o in os && o.member == m && o.variable == v
  }

  lemma CoversMore(os: seq<Output>, more: seq<Output>, m: nat, v: int)
    requires Covers(os, m, v)
    ensures Covers(os + more, m, v) && Covers(more + os, m, v)
  {
  }

  lemma {:induction false} MemberJobs(load: Loader, queue: set<int>, m: nat, j: nat)
    requires MemberSucceeds(load, queue, m) && j <= 7
    ensures var os := OutputsUpTo(load, queue, m, j);
            && Distinct(os)
            && (forall o :: o in os ==> o.member == m && o.variable in GENERATE_ORDER[..j] && IsJob(load, queue, o))
            && (forall v :: v in GENERATE_ORDER[..j] && v in queue ==> Covers(os, m, v))
  {
    if j > 0 {
      OrdersAreDistinct(j - 1);
      MemberJobs(load, queue, m, j - 1);
      var v, before, os := GENERATE_ORDER[j - 1], OutputsUpTo(load, queue, m, j - 1), OutputsUpTo(load, queue, m, j);
      assert GENERATE_ORDER[..j] == GENERATE_ORDER[..j - 1] + [v];
      forall p | 0 <= p < |before| ensures before[p].variable != v { assert before[p] in before; }
      forall u | u in GENERATE_ORDER[..j] && u in queue ensures Covers(os, m, u) {
        if u == v {
          assert Output(m, v, MemberRecords(load, m, v)) in os;
        } else {
          CoversMore(before, os[|before|..], m, u);
          assert os == before + os[|before|..];
        }
      }
    }
  }

  lemma DistinctAppend(before: seq<Output>, last: seq<Output>, m: nat)
    requires Distinct(before) && Distinct(last)
    requires forall o :: o in before ==> o.member < m
    requires forall o :: o in last ==> o.member == m
    ensures Distinct(before + last)
  {
  }

  /** Every queued variable of every member has its generator call. */
  ghost predicate CoversRun(os: seq<Output>, queue: set<int>, members: nat) {
    forall v, m: nat :: v in LOAD_ORDER && v in queue && m < members ==> Covers(os, m, v)
  }

  /** A good run calls a generator once for each member and queued variable, on that member's own records. */
  lemma {:induction false} RunJobs(load: Loader, queue: set<int>, members: nat)
    requires AllSucceed(load, queue, 0, members)
    ensures var os := AllOutputs(load, queue, 0, members);
            && Distinct(os) && CoversRun(os, queue, members)
            && forall o :: o in os ==> o.member < members && IsJob(load, queue, o)
  {
    if members > 0 {
      var m := members - 1;
      RunJobs(load, queue, m);
      MemberJobs(load, queue, m, 7);
      OrdersHaveTheSame();
      assert GENERATE_ORDER[..7] == GENERATE_ORDER;
      var before, last := AllOutputs(load, queue, 0, m), MemberOutputs(load, queue, m);
      assert AllOutputs(load, queue, 0, members) == before + last;
      DistinctAppend(before, last, m);
      forall v, u: nat | v in LOAD_ORDER && v in queue && u < members ensures Covers(before + last, u, v) {
        if u < m { CoversMore(before, last, u, v); } else { CoversMore(last, before, m, v); }
      }
    }
  }

  /** The 65 output files of a variable of a member are those its own input files determine. */
  ghost predicate ArchivedAs(e: seq<Integration.Emission>, task: Task, start: Calendar.Date, m: nat, v: int)
    requires task.Fits() && FileNames.IsCycle(start)
  {
    && task.Wants(v) && FileNames.IsVariable(v) && task.HasInputs(m, v)
    && Integration.AreOutputs(e, v, start, m, task.Series(m, v), task.n, STEPS)
  }

  /** Each of them: its name, the end of its interval, and its field. */
  lemma WrittenFile(e: seq<Integration.Emission>, task: Task, start: Calendar.Date, m: nat, v: int, k: nat)
    requires task.Fits() && FileNames.IsCycle(start) && ArchivedAs(e, task, start, m, v) && k < 65
    ensures |e| == 65 && e[k].name == FileNames.OutputName(v, start, 6 * k, m)
    ensures if v == 11 then e[k].end == start
            else Calendar.Valid(e[k].end) && Calendar.Minutes(e[k].end) == Calendar.Minutes(start) + 360 * k
    ensures e[k].field == Archived(task, m, v, k)
  {
    Integration.IntervalEnds(v, start, k);
    assert e[k] == Integration.Output(v, start, m, task.Series(m, v), task.n, k);
  }

  /** The files of each generator call of a run. */
  ghost predicate IsArchive(jobs: seq<Output>, out: seq<seq<Integration.Emission>>, task: Task, start: Calendar.Date)
    requires task.Fits() && FileNames.IsCycle(start)
  {
    && |out| == |jobs|
    && forall p :: 0 <= p < |out| ==> jobs[p].member < FileNames.NMembers(start)
                                      && ArchivedAs(out[p], task, start, jobs[p].member, jobs[p].variable)
  }

  /** One call of a generator. */
  method ArchiveOne(task: Task, size: Field -> nat, start: Calendar.Date, o: Output)
    returns (e: seq<Integration.Emission>)
    requires task.Fits() && FileNames.IsCycle(start) && IsJob(task.Load(size), task.queue, o)
    ensures ArchivedAs(e, task, start, o.member, o.variable)
  {
    OrdersHaveTheSame();
    InputsDecideLoads(task, size, o.member, o.variable);
    SeriesComeFromFiles(task, size, o.member, o.variable);
    e := Integration.Generate(o.variable, start, o.member, SeriesOf(o.variable, o.records, task.n), task.n);
  }

  /** The generator calls of a run. */
  method ArchiveAll(task: Task, size: Field -> nat, start: Calendar.Date, jobs: seq<Output>)
    returns (out: seq<seq<Integration.Emission>>)
    requires task.Fits() && FileNames.IsCycle(start)
    requires forall o :: o in jobs ==> o.member < FileNames.NMembers(start) && IsJob(task.Load(size), task.queue, o)
    ensures IsArchive(jobs, out, task, start)
  {
    out := [];
    for p := 0 to |jobs|
      invariant IsArchive(jobs[..p], out, task, start)
    {
      assert jobs[p] in jobs && jobs[..p + 1] == jobs[..p] + [jobs[p]];
      var e := ArchiveOne(task, size, start, jobs[p]);
      out := out + [e];
    }
    assert jobs[..|jobs|] == jobs;
  }

  /** All input files of a member can be opened. */
  predicate Opens(opens: (nat, nat) -> bool, m: nat) {
    forall k :: 0 <= k < STEPS ==> opens(m, k)
  }

  /** How many members a run finishes: those before the first with a file that cannot be opened. */
  method Reached(opens: (nat, nat) -> bool, members: nat) returns (r: nat)
    ensures r <= members && (forall m :: 0 <= m < r ==> Opens(opens, m)) && (r < members ==> !Opens(opens, r))
  {
    r := 0;
    while r < members && Opens(opens, r)
      invariant r <= members && forall m :: 0 <= m < r ==> Opens(opens, m)
    {
      r := r + 1;
    }
  }

  /** The time-integrated part of `main`: it ends with status 1 at the first member with an input file that
      cannot be opened, and with 0 if there is none. For the members before it nothing undefined happens
      exactly when the input files of every step from hour 6 on are complete; then each of these members and
      queued variables has had its generator call, once, and that wrote the 65 files the member's own input
      files determine. */
  method Archive(task: Task, size: Field -> nat, opens: (nat, nat) -> bool, start: Calendar.Date)
    returns (jobs: seq<Output>, out: seq<seq<Integration.Emission>>, reached: nat, status: int, ok: bool)
    requires FileNames.IsCycle(start) && task.n == FileNames.NPoints(start) && task.Fits()
    ensures reached <= FileNames.NMembers(start)
    ensures forall m :: 0 <= m < reached ==> Opens(opens, m)
    ensures status == if reached == FileNames.NMembers(start) then 0 else 1
    ensures status == 1 ==> !Opens(opens, reached)
    ensures ok <==> forall m: nat, k :: m < reached && 1 <= k < STEPS ==> IsComplete(task, m, k)
    ensures ok ==> Distinct(jobs) && CoversRun(jobs, task.queue, reached)
    ensures ok ==> forall o :: o in jobs ==> o.member < reached && o.variable in task.queue
    ensures ok ==> IsArchive(jobs, out, task, start)
  {
    reached := Reached(opens, FileNames.NMembers(start));
    status := if reached == FileNames.NMembers(start) then 0 else 1;
    jobs, ok := Run(task.Load(size), task.queue, 0, reached);
    InputsDecideRun(task, size, reached);
    RunInputs(task, reached);
    out := [];
    if ok {
      RunJobs(task.Load(size), task.queue, reached);
      out := ArchiveAll(task, size, start, jobs);
    }
  }

  /** No two files of a run have the same name, so none is overwritten. */
  lemma NothingIsOverwritten(jobs: seq<Output>, out: seq<seq<Integration.Emission>>, task: Task,
                             start: Calendar.Date, p: nat, k: nat, q: nat, l: nat)
    requires task.Fits() && FileNames.IsCycle(start)
    requires IsArchive(jobs, out, task, start) && Distinct(jobs)
    requires p < |out| && q < |out| && k < |out[p]| && l < |out[q]|
    requires out[p][k].name == out[q][l].name
    ensures p == q && k == l
  {
    var o, o' := jobs[p], jobs[q];
    assert ArchivedAs(out[p], task, start, o.member, o.variable);
    assert ArchivedAs(out[q], task, start, o'.member, o'.variable);
    FileNames.OutputNamesAreDistinct(o.variable, start, 6 * k, o.member, o'.variable, start, 6 * l, o'.member);
  }
}
