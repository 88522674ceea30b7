/** The id registries of grib-api/python/grib_interface.c and grib-api/fortran/grib_fortran.c as values:
    what push, get and clear do to the list of slots, and what that means over whole runs. */
module SlotList {
  import opened GribErrors

  /** A C pointer; 0 is NULL. */
  type Ptr = nat

  datatype Slot = Slot(id: int, p: Ptr)

  /** How the copies of the registry differ: the first id, whether a push may replace the pointer of a
      live id, whether clear ignores negative ids, the least id get will look for, what clear answers
      when it finds nothing, what it answers after freeing a slot that holds NULL, and whether it passes on
      the answer of the delete function. */
  datatype Kind = Kind(base: int, replacing: bool, guarded: bool, least: int, absent: int, emptied: int, passing: bool)

  const MIN_FILE_ID := 50000
  const NO_LEAST := -0x8000_0000

  const PYTHON_HANDLES := Kind(1, true, false, NO_LEAST, GRIB_INVALID_GRIB, GRIB_INVALID_GRIB, true)
  const FORTRAN_HANDLES := Kind(1, false, true, NO_LEAST, GRIB_SUCCESS, GRIB_SUCCESS, true)
  const FORTRAN_FILES := Kind(MIN_FILE_ID, false, false, MIN_FILE_ID, GRIB_INVALID_FILE, GRIB_SUCCESS, false)

  predicate Sane(k: Kind) {
    k.base >= 1 && k.least <= k.base
  }

  /** A call. `gid` is what the caller's id variable holds before a push; `status` is what the
      library's delete function answers. */
  datatype Op = Push(p: Ptr, gid: int) | Get(id: int) | Clear(id: int, status: int)

  /** The id a push stores in the caller's variable, the pointer a get returns, the code of a clear. */
  datatype Answer = Id(id: int) | Found(p: Ptr) | Code(code: int)

  /** One call's effect: the new state, the answer, and the pointers handed to the delete function. */
  datatype Effect<S> = Effect(state: S, answer: Answer, deleted: seq<Ptr>)

  // ----- The slot list -----

  /** Position of the first slot from i on with this id, or the length of the list. */
  function FindFrom(s: seq<Slot>, id: int, i: nat): (r: nat)
    requires i <= |s|
    ensures i <= r <= |s| && (r < |s| ==> s[r].id == id)
    decreases |s| - i
  {
    if i == |s| || s[i].id == id then i else FindFrom(s, id, i + 1)
  }

  function Find(s: seq<Slot>, id: int): nat {
    FindFrom(s, id, 0)
  }

  /** Position of the first freed slot from i on, or the length of the list. */
  function FirstFreeFrom(s: seq<Slot>, i: nat): (r: nat)
    requires i <= |s|
    ensures i <= r <= |s| && (r < |s| ==> s[r].id < 0)
    decreases |s| - i
  {
    if i == |s| || s[i].id < 0 then i else FirstFreeFrom(s, i + 1)
  }

  function FirstFree(s: seq<Slot>): nat {
    FirstFreeFrom(s, 0)
  }

  lemma {:induction false} FindIsFirst(s: seq<Slot>, id: int, i: nat, j: nat)
    requires i <= j < |s| && s[j].id == id
    ensures FindFrom(s, id, i) <= j
    decreases j - i
  {
    if s[i].id != id { FindIsFirst(s, id, i + 1, j); }
  }

  lemma {:induction false} FirstFreeIsFirst(s: seq<Slot>, i: nat, j: nat)
    requires i <= j < |s| && s[j].id < 0
    ensures FirstFreeFrom(s, i) <= j
    decreases j - i
  {
    if s[i].id >= 0 { FirstFreeIsFirst(s, i + 1, j); }
  }

  function PushStep(k: Kind, s: seq<Slot>, p: Ptr, gid: int): Effect<seq<Slot>> {
    var i := Find(s, gid);
    if k.replacing && gid > 0 && i < |s| then
      Effect(s[i := Slot(gid, p)], Id(gid), [s[i].p])
    else
      Allocate(k, s, p)
  }

  /** Reuses the first freed slot, or appends one. */
  function Allocate(k: Kind, s: seq<Slot>, p: Ptr): Effect<seq<Slot>> {
    var f := FirstFree(s);
    if f < |s| then Effect(s[f := Slot(-s[f].id, p)], Id(-s[f].id), [])
    else Effect(s + [Slot(k.base + |s|, p)], Id(k.base + |s|), [])
  }

  function GetStep(k: Kind, s: seq<Slot>, id: int): Effect<seq<Slot>> {
    var i := Find(s, id);
    Effect(s, Found(if id < k.least || i == |s| then 0 else s[i].p), [])
  }

  /** A freed slot's pointer goes to the delete function, unless it is NULL. */
  function NonNull(p: Ptr): seq<Ptr> {
    if p == 0 then [] else [p]
  }

  function Cleared(k: Kind, p: Ptr, status: int): Answer {
    Code(if p == 0 then k.emptied else if k.passing then status else GRIB_SUCCESS)
  }

  function ClearStep(k: Kind, s: seq<Slot>, id: int, status: int): Effect<seq<Slot>> {
    var i := Find(s, id);
    if k.guarded && id < 0 then Effect(s, Code(0), [])
    else if i == |s| then Effect(s, Code(k.absent), [])
    else
      Effect(s[i := Slot(-id, s[i].p)], Cleared(k, s[i].p, status), NonNull(s[i].p))
  }

  function Step(k: Kind, s: seq<Slot>, op: Op): Effect<seq<Slot>> {
    match op
    case Push(p, gid) => PushStep(k, s, p, gid)
    case Get(id) => GetStep(k, s, id)
    case Clear(id, status) => ClearStep(k, s, id, status)
  }

  /** The slot at position i has id base + i, negated while the slot is free. */
  predicate WellFormed(k: Kind, s: seq<Slot>) {
    forall i :: 0 <= i < |s| ==> s[i].id == k.base + i || s[i].id == -(k.base + i)
  }

  // ----- The map it stands for -----

  type Table = map<int, Ptr>

  predicate LiveAt(k: Kind, s: seq<Slot>, id: int) {
    k.base <= id < k.base + |s| && s[id - k.base].id > 0
  }

  /** The slot list stands for the map: its live slots are the map's entries. */
  ghost predicate Shows(k: Kind, s: seq<Slot>, m: Table) {
    && (forall id :: id in m <==> LiveAt(k, s, id))
    && (forall id :: id in m ==> m[id] == s[id - k.base].p)
  }

  /** The lowest id from `id` up that is not in use. */
  function LowestUnused(used: set<int>, id: int): (r: int)
    ensures r >= id && r !in used
    ensures forall j :: id <= j < r ==> j in used
    decreases used
  {
    if id !in used then id
    else
      var r := LowestUnused(used - {id}, id + 1);
      assert forall j :: id <= j < r ==> j in used by {
        forall j | id <= j < r ensures j in used {
          if j != id { assert j in used - {id}; }
        }
      }
      r
  }

  /** The registry as its callers see it: a partial map from ids to pointers. */
  function TableStep(k: Kind, m: Table, op: Op): Effect<Table> {
    match op
    case Push(p, gid) =>
      if k.replacing && gid in m then Effect(m[gid := p], Id(gid), [m[gid]])
      else var id := LowestUnused(m.Keys, k.base); Effect(m[id := p], Id(id), [])
    case Get(id) => Effect(m, Found(if id in m then m[id] else 0), [])
    case Clear(id, status) =>
      if id !in m then Effect(m, Code(if k.guarded && id < 0 then 0 else k.absent), [])
      else Effect(m - {id}, Cleared(k, m[id], status), NonNull(m[id]))
  }

  lemma FindLive(k: Kind, s: seq<Slot>, m: Table, id: int)
    requires Sane(k) && WellFormed(k, s) && Shows(k, s, m)
    ensures id in m <==> id > 0 && Find(s, id) < |s|
    ensures Find(s, id) < |s| ==> Find(s, id) == (if id > 0 then id else -id) - k.base
  {
    if LiveAt(k, s, id) { FindIsFirst(s, id, 0, id - k.base); }
  }

  lemma FirstFreeIsLowestUnused(k: Kind, s: seq<Slot>, m: Table)
    requires Sane(k) && WellFormed(k, s) && Shows(k, s, m)
    ensures LowestUnused(m.Keys, k.base) == k.base + FirstFree(s)
  {
    var f, low := FirstFree(s), LowestUnused(m.Keys, k.base);
    assert !LiveAt(k, s, k.base + f);
    assert k.base + f !in m;
    if low < k.base + f && !LiveAt(k, s, low) {
      FirstFreeIsFirst(s, 0, low - k.base);
    }
  }

  /** A call that reaches a freed slot by its negated id: a get then answers the pointer the slot used
      to hold, and an unguarded clear revives the slot. */
  predicate ReachesFreed(k: Kind, s: seq<Slot>, op: Op) {
    match op
    case Push(_, _) => false
    case Get(id) => k.least <= id < 0 && Find(s, id) < |s| && s[Find(s, id)].p != 0
    case Clear(id, _) => !k.guarded && id < 0 && Find(s, id) < |s|
  }

  /** A call on the slots acts as the same call on the map. */
  ghost predicate Refines(k: Kind, s: seq<Slot>, m: Table, op: Op) {
    var e, t := Step(k, s, op), TableStep(k, m, op);
    Shows(k, e.state, t.state) && e.answer == t.answer && e.deleted == t.deleted
  }

  /** Every call keeps the slots in place, and acts as the same call on the map exactly when it does not
      reach a freed slot. */
  lemma StepRefinesTable(k: Kind, s: seq<Slot>, m: Table, op: Op)
    requires Sane(k) && WellFormed(k, s) && Shows(k, s, m)
    ensures WellFormed(k, Step(k, s, op).state)
    ensures Refines(k, s, m, op) <==> !ReachesFreed(k, s, op)
  {
    match op
    case Push(p, gid) => PushRefines(k, s, m, p, gid);
    case Get(id) => FindLive(k, s, m, id);
    case Clear(id, status) => ClearRefines(k, s, m, id, status);
  }

  lemma ShowsAfterSet(k: Kind, s: seq<Slot>, m: Table, i: nat, live: bool, p: Ptr)
    requires Sane(k) && WellFormed(k, s) && Shows(k, s, m) && i < |s|
    ensures var id := k.base + i;
            var s' := s[i := Slot(if live then id else -id, p)];
            WellFormed(k, s') && Shows(k, s', if live then m[id := p] else m - {id})
  {
  }

  lemma ShowsAfterAppend(k: Kind, s: seq<Slot>, m: Table, p: Ptr)
    requires Sane(k) && WellFormed(k, s) && Shows(k, s, m)
    ensures var id := k.base + |s|;
            var s' := s + [Slot(id, p)];
            WellFormed(k, s') && Shows(k, s', m[id := p])
  {
  }

  lemma PushRefines(k: Kind, s: seq<Slot>, m: Table, p: Ptr, gid: int)
    requires Sane(k) && WellFormed(k, s) && Shows(k, s, m)
    ensures WellFormed(k, PushStep(k, s, p, gid).state)
    ensures Refines(k, s, m, Push(p, gid))
  {
    FindLive(k, s, m, gid);
    if k.replacing && gid in m {
      ShowsAfterSet(k, s, m, Find(s, gid), true, p);
    } else {
      AllocationRefines(k, s, m, p);
    }
  }

  /** A push that replaces nothing takes the lowest unused id. */
  lemma AllocationRefines(k: Kind, s: seq<Slot>, m: Table, p: Ptr)
    requires Sane(k) && WellFormed(k, s) && Shows(k, s, m)
    ensures var e := Allocate(k, s, p);
            var id := LowestUnused(m.Keys, k.base);
            WellFormed(k, e.state) && Shows(k, e.state, m[id := p]) && e.answer == Id(id) && e.deleted == []
  {
    FirstFreeIsLowestUnused(k, s, m);
    AllocatesFirstFree(k, s, m, p);
  }

  lemma AllocatesFirstFree(k: Kind, s: seq<Slot>, m: Table, p: Ptr)
    requires Sane(k) && WellFormed(k, s) && Shows(k, s, m)
    ensures var e := Allocate(k, s, p);
            var id := k.base + FirstFree(s);
            WellFormed(k, e.state) && Shows(k, e.state, m[id := p]) && e.answer == Id(id) && e.deleted == []
  {
    var f := FirstFree(s);
    if f < |s| {
      assert -s[f].id == k.base + f;
      ShowsAfterSet(k, s, m, f, true, p);
    } else {
      ShowsAfterAppend(k, s, m, p);
    }
  }

  lemma ClearRefines(k: Kind, s: seq<Slot>, m: Table, id: int, status: int)
    requires Sane(k) && WellFormed(k, s) && Shows(k, s, m)
    ensures WellFormed(k, ClearStep(k, s, id, status).state)
    ensures Refines(k, s, m, Clear(id, status)) <==> !ReachesFreed(k, s, Clear(id, status))
  {
    FindLive(k, s, m, id);
    var i := Find(s, id);
    if i < |s| && !(k.guarded && id < 0) {
      ShowsAfterSet(k, s, m, i, id < 0, s[i].p);
      if id < 0 {
        assert -id !in m;
        assert LiveAt(k, s[i := Slot(-id, s[i].p)], -id);
      }
    }
  }

  // ----- Runs -----

  datatype Trace<S> = Trace(state: S, answers: seq<Answer>, deleted: seq<Ptr>)

  function Run(k: Kind, s: seq<Slot>, ops: seq<Op>): Trace<seq<Slot>>
    decreases |ops|
  {
    if ops == [] then Trace(s, [], [])
    else
      var before := Run(k, s, ops[..|ops| - 1]);
      var e := Step(k, before.state, ops[|ops| - 1]);
      Trace(e.state, before.answers + [e.answer], before.deleted + e.deleted)
  }

  function TableRun(k: Kind, m: Table, ops: seq<Op>): Trace<Table>
    decreases |ops|
  {
    if ops == [] then Trace(m, [], [])
    else
      var before := TableRun(k, m, ops[..|ops| - 1]);
      var e := TableStep(k, before.state, ops[|ops| - 1]);
      Trace(e.state, before.answers + [e.answer], before.deleted + e.deleted)
  }

  lemma RunAppend(k: Kind, s: seq<Slot>, ops: seq<Op>, op: Op)
    ensures var before := Run(k, s, ops);
            var e := Step(k, before.state, op);
            Run(k, s, ops + [op]) == Trace(e.state, before.answers + [e.answer], before.deleted + e.deleted)
  {
  }

  lemma RunOneMore(k: Kind, s: seq<Slot>, ops: seq<Op>, n: nat)
    requires n < |ops|
    ensures var before := Run(k, s, ops[..n]);
            var e := Step(k, before.state, ops[n]);
            Run(k, s, ops[..n + 1]) == Trace(e.state, before.answers + [e.answer], before.deleted + e.deleted)
  {
    assert ops[..n + 1][..n] == ops[..n];
  }

  lemma TableRunOneMore(k: Kind, m: Table, ops: seq<Op>, n: nat)
    requires n < |ops|
    ensures var before := TableRun(k, m, ops[..n]);
            var e := TableStep(k, before.state, ops[n]);
            TableRun(k, m, ops[..n + 1]) == Trace(e.state, before.answers + [e.answer], before.deleted + e.deleted)
  {
    assert ops[..n + 1][..n] == ops[..n];
  }

  /** The slots that call i of a run finds. */
  function Before(k: Kind, ops: seq<Op>, i: nat): seq<Slot>
    requires i <= |ops|
  {
    Run(k, [], ops[..i]).state
  }

  lemma BeforeInPrefix(k: Kind, ops: seq<Op>, n: nat, i: nat)
    requires i <= n <= |ops|
    ensures Before(k, ops[..n], i) == Before(k, ops, i)
  {
    assert ops[..n][..i] == ops[..i];
  }

  lemma {:induction false} RunsAreWellFormed(k: Kind, ops: seq<Op>)
    requires Sane(k)
    ensures WellFormed(k, Run(k, [], ops).state)
    decreases |ops|
  {
    if ops != [] {
      RunsAreWellFormed(k, ops[..|ops| - 1]);
      StepGrows(k, Run(k, [], ops[..|ops| - 1]).state, ops[|ops| - 1]);
    }
  }

  /** No call of the run reaches a freed slot. */
  predicate AvoidsFreed(k: Kind, ops: seq<Op>) {
    forall i :: 0 <= i < |ops| ==> !ReachesFreed(k, Before(k, ops, i), ops[i])
  }

  lemma AvoidsFreedBefore(k: Kind, ops: seq<Op>, n: nat)
    requires n <= |ops| && AvoidsFreed(k, ops)
    ensures AvoidsFreed(k, ops[..n])
  {
    forall i | 0 <= i < n ensures !ReachesFreed(k, Before(k, ops[..n], i), ops[i]) { BeforeInPrefix(k, ops, n, i); }
  }

  /** The slot list has answered, deleted and kept what the map would. */
  ghost predicate ActsAsTable(k: Kind, ops: seq<Op>) {
    var r, t := Run(k, [], ops), TableRun(k, map[], ops);
    Shows(k, r.state, t.state) && r.answers == t.answers && r.deleted == t.deleted
  }

  lemma {:induction false} AvoidingFreedActsAsTable(k: Kind, ops: seq<Op>)
    requires Sane(k) && AvoidsFreed(k, ops)
    ensures ActsAsTable(k, ops)
    decreases |ops|
  {
    if ops != [] {
      var n := |ops| - 1;
      AvoidsFreedBefore(k, ops, n);
      AvoidingFreedActsAsTable(k, ops[..n]);
      RunsAreWellFormed(k, ops[..n]);
      StepRefinesTable(k, Before(k, ops, n), TableRun(k, map[], ops[..n]).state, ops[n]);
    }
  }

  lemma ReachingFreedShows(k: Kind, ops: seq<Op>, i: nat)
    requires Sane(k) && i < |ops| && ActsAsTable(k, ops[..i]) && ReachesFreed(k, Before(k, ops, i), ops[i])
    ensures !ActsAsTable(k, ops[..i + 1])
  {
    RunsAreWellFormed(k, ops[..i]);
    StepRefinesTable(k, Before(k, ops, i), TableRun(k, map[], ops[..i]).state, ops[i]);
    RunOneMore(k, [], ops, i);
    TableRunOneMore(k, map[], ops, i);
    var r, t := Run(k, [], ops[..i]), TableRun(k, map[], ops[..i]);
    var e, te := Step(k, r.state, ops[i]), TableStep(k, t.state, ops[i]);
    ConcatCancels(r.deleted, e.deleted, te.deleted);
    ConcatCancels(r.answers, [e.answer], [te.answer]);
  }

  lemma ConcatCancels<T>(a: seq<T>, b: seq<T>, c: seq<T>)
    ensures a + b == a + c <==> b == c
  {
    assert (a + b)[|a|..] == b;
    assert (a + c)[|a|..] == c;
  }

  /** A run from an empty registry answers, deletes and holds what the map does, all along, exactly when none
      of its calls reaches a freed slot. */
  lemma RunRefinesTable(k: Kind, ops: seq<Op>)
    requires Sane(k)
    ensures (forall n :: 0 <= n <= |ops| ==> ActsAsTable(k, ops[..n])) <==> AvoidsFreed(k, ops)
  {
    if AvoidsFreed(k, ops) {
      forall n | 0 <= n <= |ops| ensures ActsAsTable(k, ops[..n]) {
        AvoidsFreedBefore(k, ops, n);
        AvoidingFreedActsAsTable(k, ops[..n]);
      }
    } else {
      var i :| 0 <= i < |ops| && ReachesFreed(k, Before(k, ops, i), ops[i]);
      if ActsAsTable(k, ops[..i]) { ReachingFreedShows(k, ops, i); }
    }
  }

  /** In particular it does when gets and clears name ids a push could have answered. */
  lemma NonNegativeIdsAvoidFreed(k: Kind, ops: seq<Op>)
    requires Sane(k) && forall op :: op in ops ==> op.Push? || op.id >= 0
    ensures AvoidsFreed(k, ops)
  {
    forall i | 0 <= i < |ops| ensures !ReachesFreed(k, Before(k, ops, i), ops[i]) { assert ops[i] in ops; }
  }

  // ----- Space -----

  function Times(b: bool): nat {
    if b then 1 else 0
  }

  /** How many slots have a property. */
  function Tally(s: seq<Slot>, f: Slot -> bool): nat {
    if s == [] then 0 else Times(f(s[0])) + Tally(s[1..], f)
  }

  lemma {:induction false} TallyAfterUpdate(s: seq<Slot>, i: nat, x: Slot, f: Slot -> bool)
    requires i < |s|
    ensures Tally(s[i := x], f) + Times(f(s[i])) == Tally(s, f) + Times(f(x))
  {
    if i == 0 {
      assert s[i := x][1..] == s[1..];
    } else {
      TallyAfterUpdate(s[1..], i - 1, x, f);
      assert s[i := x][1..] == s[1..][i - 1 := x];
    }
  }

  lemma {:induction false} TallyAfterAppend(s: seq<Slot>, x: Slot, f: Slot -> bool)
    ensures Tally(s + [x], f) == Tally(s, f) + Times(f(x))
  {
    if s != [] {
      TallyAfterAppend(s[1..], x, f);
      assert (s + [x])[1..] == s[1..] + [x];
    } else {
      assert s + [x] == [x];
    }
  }

  lemma TallyOfLast(s: seq<Slot>, f: Slot -> bool)
    requires s != []
    ensures var n := |s| - 1; Tally(s, f) == Tally(s[..n], f) + Times(f(s[n]))
  {
    var n := |s| - 1;
    TallyAfterAppend(s[..n], s[n], f);
    assert s[..n] + [s[n]] == s;
  }

  lemma {:induction false} TallyFits(s: seq<Slot>, f: Slot -> bool)
    ensures Tally(s, f) <= |s|
    ensures (forall i :: 0 <= i < |s| ==> f(s[i])) ==> Tally(s, f) == |s|
  {
    if s != [] { TallyFits(s[1..], f); }
  }

  const IS_LIVE: Slot -> bool := (slot: Slot) => slot.id > 0

  /** The number of live entries. */
  function Live(s: seq<Slot>): nat {
    Tally(s, IS_LIVE)
  }

  /** The largest number of entries live at any time of the run. */
  function Peak(k: Kind, ops: seq<Op>): nat
    decreases |ops|
  {
    if ops == [] then 0
    else
      var earlier, now := Peak(k, ops[..|ops| - 1]), Live(Run(k, [], ops).state);
      if earlier < now then now else earlier
  }

  lemma LiveFits(k: Kind, s: seq<Slot>)
    requires Sane(k) && WellFormed(k, s)
    ensures Live(s) <= |s|
    ensures FirstFree(s) == |s| ==> Live(s) == |s|
  {
    TallyFits(s, IS_LIVE);
    if FirstFree(s) == |s| {
      forall i | 0 <= i < |s| ensures s[i].id > 0 {
        if s[i].id < 0 { FirstFreeIsFirst(s, 0, i); }
      }
    }
  }

  function LiveIds(k: Kind, s: seq<Slot>): (ids: set<int>)
    ensures forall id :: id in ids <==> LiveAt(k, s, id)
    decreases |s|
  {
    if s == [] then {}
    else
      var n := |s| - 1;
      var front := LiveIds(k, s[..n]);
      assert forall id :: LiveAt(k, s[..n], id) <==> id < k.base + n && LiveAt(k, s, id);
      if s[n].id > 0 then front + {k.base + n} else front
  }

  lemma {:induction false} LiveIdsAreCounted(k: Kind, s: seq<Slot>)
    ensures |LiveIds(k, s)| == Live(s)
    decreases |s|
  {
    if s != [] {
      LiveIdsAreCounted(k, s[..|s| - 1]);
      TallyOfLast(s, IS_LIVE);
    }
  }

  /** The peak of a run that acts as the map is the largest size of the map. */
  lemma LiveIsTableSize(k: Kind, s: seq<Slot>, m: Table)
    requires Shows(k, s, m)
    ensures |m| == Live(s)
  {
    LiveIdsAreCounted(k, s);
    var ids := LiveIds(k, s);
    forall id ensures id in m.Keys <==> id in ids {}
    assert m.Keys == ids;
  }

  lemma StepGrows(k: Kind, s: seq<Slot>, op: Op)
    requires Sane(k) && WellFormed(k, s)
    ensures var e := Step(k, s, op);
            && WellFormed(k, e.state)
            && (|e.state| == |s| || (|e.state| == |s| + 1 && FirstFree(e.state) == |e.state|
                                     && e.answer == Id(k.base + |s|)))
            && (e.answer.Id? ==> k.base <= e.answer.id < k.base + |e.state|)
  {
    match op
    case Push(p, gid) =>
      var f, s' := FirstFree(s), Step(k, s, op).state;
      if f < |s| {
        assert -s[f].id == k.base + f;
      } else if |s'| > |s| && FirstFree(s') < |s| {
        FirstFreeIsFirst(s, 0, FirstFree(s'));
      }
    case Get(id) =>
    case Clear(id, status) =>
  }

  /** No slot is ever wasted: the list is exactly as long as the largest number of entries ever live. */
  lemma {:induction false} SlotsEqualPeak(k: Kind, ops: seq<Op>)
    requires Sane(k)
    ensures |Run(k, [], ops).state| == Peak(k, ops)
    decreases |ops|
  {
    if ops != [] {
      var rest, op := ops[..|ops| - 1], ops[|ops| - 1];
      SlotsEqualPeak(k, rest);
      RunsAreWellFormed(k, rest);
      StepGrows(k, Run(k, [], rest).state, op);
      LiveFits(k, Run(k, [], ops).state);
    }
  }

  /** An id is issued by a run if some push of the run answered it. */
  predicate Issued(k: Kind, ops: seq<Op>, id: int) {
    Id(id) in Run(k, [], ops).answers
  }

  /** The ids a run hands out are the first `Peak` ids of the registry. */
  lemma IssuedIdsAreBelowPeak(k: Kind, ops: seq<Op>, id: int)
    requires Sane(k)
    ensures Issued(k, ops, id) <==> k.base <= id < k.base + Peak(k, ops)
  {
    SlotsEqualPeak(k, ops);
    IssuedIdsAreSlots(k, ops, id);
  }

  lemma {:induction false} IssuedIdsAreSlots(k: Kind, ops: seq<Op>, id: int)
    requires Sane(k)
    ensures Issued(k, ops, id) <==> k.base <= id < k.base + |Run(k, [], ops).state|
    decreases |ops|
  {
    if ops != [] {
      var rest, op := ops[..|ops| - 1], ops[|ops| - 1];
      IssuedIdsAreSlots(k, rest, id);
      RunsAreWellFormed(k, rest);
      StepGrows(k, Run(k, [], rest).state, op);
    }
  }

  /** Fortran file ids and message ids stay apart exactly while fewer than 50000 messages were live at
      once; `MIN_FILE_ID` promises nothing beyond that. */
  lemma FileAndMessageIdsCollide(messages: seq<Op>, files: seq<Op>)
    ensures (exists id :: Issued(FORTRAN_HANDLES, messages, id) && Issued(FORTRAN_FILES, files, id))
       <==> Peak(FORTRAN_HANDLES, messages) >= 50000 && Peak(FORTRAN_FILES, files) >= 1
  {
    forall id
      ensures Issued(FORTRAN_HANDLES, messages, id) <==> 1 <= id < 1 + Peak(FORTRAN_HANDLES, messages)
      ensures Issued(FORTRAN_FILES, files, id) <==> 50000 <= id < 50000 + Peak(FORTRAN_FILES, files)
    {
      IssuedIdsAreBelowPeak(FORTRAN_HANDLES, messages, id);
      IssuedIdsAreBelowPeak(FORTRAN_FILES, files, id);
    }
    if Peak(FORTRAN_HANDLES, messages) >= 50000 && Peak(FORTRAN_FILES, files) >= 1 {
      assert Issued(FORTRAN_HANDLES, messages, 50000) && Issued(FORTRAN_FILES, files, 50000);
    }
  }

  /** n pushes of n different pointers. */
  function Pushes(n: nat): (ops: seq<Op>)
    ensures |ops| == n && forall i :: 0 <= i < n ==> ops[i] == Push(i + 1, 0)
  {
    seq(n, i requires 0 <= i < n => Push(i + 1, 0))
  }

  lemma {:induction false} PushesFillSlots(k: Kind, n: nat)
    requires Sane(k)
    ensures var s := Run(k, [], Pushes(n)).state; |s| == n && FirstFree(s) == n
    decreases n
  {
    if n > 0 {
      PushesFillSlots(k, n - 1);
      assert Pushes(n)[..n - 1] == Pushes(n - 1);
      RunsAreWellFormed(k, Pushes(n - 1));
      StepGrows(k, Run(k, [], Pushes(n - 1)).state, Push(n, 0));
    }
  }

  /** The failing side is reached: 50000 messages and one file share the id 50000. */
  lemma FileAndMessageIdsCanCollide()
    ensures Issued(FORTRAN_HANDLES, Pushes(50000), 50000) && Issued(FORTRAN_FILES, Pushes(1), 50000)
  {
    PushesFillSlots(FORTRAN_HANDLES, 50000);
    PushesFillSlots(FORTRAN_FILES, 1);
    IssuedIdsAreSlots(FORTRAN_HANDLES, Pushes(50000), 50000);
    IssuedIdsAreSlots(FORTRAN_FILES, Pushes(1), 50000);
  }

  // ----- What the copies answer, with their own codes -----

  /** Python: a push under a live id replaces its handle, any other gets a new id, the first being 1; a clear answers
      what deleting the handle does, and -28 if there is none to delete. */
  lemma PythonMessages(m: Table, p: Ptr, id: int, status: int)
    ensures var push := TableStep(PYTHON_HANDLES, m, Push(p, id));
            if id in m then push == Effect(m[id := p], Id(id), [m[id]])
            else push.answer.Id? && push.answer.id !in m && push.deleted == [] && push.state == m[push.answer.id := p]
    ensures TableStep(PYTHON_HANDLES, map[], Push(p, id)).answer == Id(1)
    ensures TableStep(PYTHON_HANDLES, m, Clear(id, status))
         == if id in m && m[id] != 0 then Effect(m - {id}, Code(status), [m[id]]) else Effect(m - {id}, Code(-28), [])
  {
    assert id !in m ==> m - {id} == m;
  }

  /** Fortran: a push never replaces; a clear with nothing to delete is a success. */
  lemma FortranMessages(m: Table, p: Ptr, id: int, status: int)
    ensures var push := TableStep(FORTRAN_HANDLES, m, Push(p, id));
            push.answer.Id? && push.answer.id !in m && push.deleted == [] && push.state == m[push.answer.id := p]
    ensures TableStep(FORTRAN_HANDLES, map[], Push(p, id)).answer == Id(1)
    ensures TableStep(FORTRAN_HANDLES, m, Clear(id, status))
         == if id in m && m[id] != 0 then Effect(m - {id}, Code(status), [m[id]]) else Effect(m - {id}, Code(0), [])
  {
    assert id !in m ==> m - {id} == m;
  }

  /** Fortran files: ids from 50000 on; whether closing worked is not passed on, but an unknown id is answered -27. */
  lemma FortranFiles(m: Table, p: Ptr, id: int, status: int)
    ensures var push := TableStep(FORTRAN_FILES, m, Push(p, id));
            push.answer.Id? && push.answer.id !in m && push.deleted == [] && push.state == m[push.answer.id := p]
    ensures TableStep(FORTRAN_FILES, map[], Push(p, id)).answer == Id(50000)
    ensures TableStep(FORTRAN_FILES, m, Clear(id, status))
         == if id !in m then Effect(m, Code(-27), [])
            else Effect(m - {id}, Code(0), if m[id] != 0 then [m[id]] else [])
  {
  }

  /** A get by the negated id (a C int) of a freed slot finds the old pointer, except that no file id is below 50000. */
  lemma GetsOfFreedSlots(s: seq<Slot>, i: nat)
    requires i < |s| && i < 0x8000_0000
    ensures WellFormed(PYTHON_HANDLES, s) && s[i].id < 0 ==>
              GetStep(PYTHON_HANDLES, s, -(i + 1)).answer == Found(s[i].p)
              && GetStep(FORTRAN_HANDLES, s, -(i + 1)).answer == Found(s[i].p)
    ensures GetStep(FORTRAN_FILES, s, -(i + 50000)).answer == Found(0)
  {
    if WellFormed(PYTHON_HANDLES, s) && s[i].id < 0 {
      FindIsFirst(s, -(i + 1), 0, i);
      assert s[Find(s, -(i + 1))].id == -(i + 1);
    }
  }

  // ----- Python and Fortran -----

  /** A clear that has no handle to delete: the id is not live, or it holds NULL. */
  predicate ClearsNothing(k: Kind, s: seq<Slot>, op: Op) {
    op.Clear? && !(LiveAt(k, s, op.id) && s[op.id - k.base].p != 0)
  }

  /** A push that names a live id, which Python replaces. */
  predicate Replaces(k: Kind, s: seq<Slot>, op: Op) {
    op.Push? && LiveAt(k, s, op.gid)
  }

  /** A clear that makes a freed slot live again. */
  predicate Revives(k: Kind, s: seq<Slot>, op: Op) {
    op.Clear? && ReachesFreed(k, s, op)
  }

  /** The answers of the two languages to one call. */
  predicate AnswersAgree(s: seq<Slot>, op: Op, python: Answer, fortran: Answer) {
    if ClearsNothing(PYTHON_HANDLES, s, op)
    then python == Code(GRIB_INVALID_GRIB) && fortran == Code(GRIB_SUCCESS)
    else python == fortran
  }

  lemma LanguagesAgreeOnACall(s: seq<Slot>, op: Op)
    requires WellFormed(PYTHON_HANDLES, s)
    ensures var py, f := Step(PYTHON_HANDLES, s, op), Step(FORTRAN_HANDLES, s, op);
            py.state == f.state && py.deleted == f.deleted && AnswersAgree(s, op, py.answer, f.answer)
            <==> !Replaces(PYTHON_HANDLES, s, op) && !Revives(PYTHON_HANDLES, s, op)
  {
    var id := if op.Push? then op.gid else op.id;
    if LiveAt(PYTHON_HANDLES, s, id) { FindIsFirst(s, id, 0, id - 1); }
  }

  predicate NeverReplaces(k: Kind, ops: seq<Op>) {
    forall i :: 0 <= i < |ops| ==> !Replaces(k, Before(k, ops, i), ops[i])
  }

  predicate NeverRevives(k: Kind, ops: seq<Op>) {
    forall i :: 0 <= i < |ops| ==> !Revives(k, Before(k, ops, i), ops[i])
  }

  lemma NeverBefore(k: Kind, ops: seq<Op>, n: nat)
    requires n <= |ops|
    ensures NeverReplaces(k, ops) ==> NeverReplaces(k, ops[..n])
    ensures NeverRevives(k, ops) ==> NeverRevives(k, ops[..n])
  {
    forall i | 0 <= i < n ensures Before(k, ops[..n], i) == Before(k, ops, i) { BeforeInPrefix(k, ops, n, i); }
  }

  /** The two registries have gone through the same run, up to the codes of clears that found nothing. */
  predicate LanguagesAlike(ops: seq<Op>) {
    var py, f := Run(PYTHON_HANDLES, [], ops), Run(FORTRAN_HANDLES, [], ops);
    && py.state == f.state && py.deleted == f.deleted
    && AllAnswersAgree(ops, |ops|, py.answers, f.answers)
  }

  /** What LanguagesAlike says of the answers, for two runs of n calls. */
  predicate AllAnswersAgree(ops: seq<Op>, n: nat, python: seq<Answer>, fortran: seq<Answer>)
    requires n <= |ops|
  {
    && |python| == |fortran| == n
    && forall i :: 0 <= i < n ==> AnswersAgree(Before(PYTHON_HANDLES, ops, i), ops[i], python[i], fortran[i])
  }

  lemma AnswersOfPrefix(ops: seq<Op>, n: nat, python: seq<Answer>, fortran: seq<Answer>)
    requires n <= |ops|
    ensures AllAnswersAgree(ops[..n], n, python, fortran) <==> AllAnswersAgree(ops, n, python, fortran)
  {
    forall i | 0 <= i < n ensures Before(PYTHON_HANDLES, ops[..n], i) == Before(PYTHON_HANDLES, ops, i) {
      BeforeInPrefix(PYTHON_HANDLES, ops, n, i);
    }
  }

  lemma AnswersOneMore(ops: seq<Op>, n: nat, python: seq<Answer>, fortran: seq<Answer>, x: Answer, y: Answer)
    requires n < |ops| && AllAnswersAgree(ops, n, python, fortran)
    ensures AllAnswersAgree(ops, n + 1, python + [x], fortran + [y])
       <==> AnswersAgree(Before(PYTHON_HANDLES, ops, n), ops[n], x, y)
  {
    if AllAnswersAgree(ops, n + 1, python + [x], fortran + [y]) {
      assert (python + [x])[n] == x && (fortran + [y])[n] == y;
    }
  }

  /** One more call keeps the registries alike exactly if it neither replaces nor revives. */
  lemma LanguagesAlikeOneMore(ops: seq<Op>, n: nat)
    requires n < |ops| && LanguagesAlike(ops[..n])
    ensures LanguagesAlike(ops[..n + 1]) <==>
            !Replaces(PYTHON_HANDLES, Before(PYTHON_HANDLES, ops, n), ops[n])
            && !Revives(PYTHON_HANDLES, Before(PYTHON_HANDLES, ops, n), ops[n])
  {
    var s, op := Before(PYTHON_HANDLES, ops, n), ops[n];
    var py, f := Run(PYTHON_HANDLES, [], ops[..n]), Run(FORTRAN_HANDLES, [], ops[..n]);
    var ep, ef := Step(PYTHON_HANDLES, s, op), Step(FORTRAN_HANDLES, s, op);
    RunsAreWellFormed(PYTHON_HANDLES, ops[..n]);
    LanguagesAgreeOnACall(s, op);
    RunOneMore(PYTHON_HANDLES, [], ops, n);
    RunOneMore(FORTRAN_HANDLES, [], ops, n);
    ConcatCancels(py.deleted, ep.deleted, ef.deleted);
    AnswersOfPrefix(ops, n, py.answers, f.answers);
    AnswersOneMore(ops, n, py.answers, f.answers, ep.answer, ef.answer);
    AnswersOfPrefix(ops, n + 1, py.answers + [ep.answer], f.answers + [ef.answer]);
  }

  lemma {:induction false} AlikeWithoutReplacing(ops: seq<Op>, n: nat)
    requires n <= |ops| && NeverReplaces(PYTHON_HANDLES, ops) && NeverRevives(PYTHON_HANDLES, ops)
    ensures LanguagesAlike(ops[..n])
  {
    if n > 0 {
      AlikeWithoutReplacing(ops, n - 1);
      LanguagesAlikeOneMore(ops, n - 1);
    }
  }

  /** The two languages' registries go through the same states and give the same answers, except that a
      clear with nothing to delete is an error in Python and a success in Fortran, exactly when no push
      names a live id and no clear revives a freed one. */
  lemma LanguagesAgree(ops: seq<Op>)
    ensures (forall n :: 0 <= n <= |ops| ==> LanguagesAlike(ops[..n]))
       <==> NeverReplaces(PYTHON_HANDLES, ops) && NeverRevives(PYTHON_HANDLES, ops)
  {
    if NeverReplaces(PYTHON_HANDLES, ops) && NeverRevives(PYTHON_HANDLES, ops) {
      forall n | 0 <= n <= |ops| ensures LanguagesAlike(ops[..n]) { AlikeWithoutReplacing(ops, n); }
    } else {
      var i :| 0 <= i < |ops| && (Replaces(PYTHON_HANDLES, Before(PYTHON_HANDLES, ops, i), ops[i])
                                  || Revives(PYTHON_HANDLES, Before(PYTHON_HANDLES, ops, i), ops[i]));
      if LanguagesAlike(ops[..i]) { LanguagesAlikeOneMore(ops, i); }
    }
  }

  // ----- Handle lifetimes -----

  /** How often a sequence of pointers mentions p. */
  function Count(ps: seq<Ptr>, p: Ptr): nat {
    if ps == [] then 0 else Times(ps[0] == p) + Count(ps[1..], p)
  }

  lemma {:induction false} CountConcat(a: seq<Ptr>, b: seq<Ptr>, p: Ptr)
    ensures Count(a + b, p) == Count(a, p) + Count(b, p)
  {
    if a == [] {
      assert a + b == b;
    } else {
      CountConcat(a[1..], b, p);
      assert (a + b)[1..] == a[1..] + b;
    }
  }

  /** How often the run pushes p. */
  function Pushed(ops: seq<Op>, p: Ptr): nat
    decreases |ops|
  {
    if ops == [] then 0 else Pushed(ops[..|ops| - 1], p) + Times(IsPushOf(ops[|ops| - 1], p))
  }

  predicate IsPushOf(op: Op, p: Ptr) {
    op.Push? && op.p == p
  }

  /** How often the run revives a freed slot that holds p. */
  function Revived(k: Kind, ops: seq<Op>, p: Ptr): nat
    decreases |ops|
  {
    if ops == [] then 0
    else
      var n := |ops| - 1;
      Revived(k, ops[..n], p) + Times(RevivesHandle(k, Before(k, ops, n), ops[n], p))
  }

  predicate RevivesHandle(k: Kind, s: seq<Slot>, op: Op, p: Ptr) {
    Revives(k, s, op) && s[Find(s, op.id)].p == p
  }

  function Holder(p: Ptr): Slot -> bool {
    (slot: Slot) => slot.id > 0 && slot.p == p
  }

  /** How many live slots hold p. */
  function Held(s: seq<Slot>, p: Ptr): nat {
    Tally(s, Holder(p))
  }

  predicate NoNulls(s: seq<Slot>) {
    forall i :: 0 <= i < |s| ==> s[i].p != 0
  }

  /** What one call does to the balance of handle p. A clear that revives a freed slot of p adds two on the
      right, the slot that is live again and the deletion; no other call changes the balance. */
  lemma StepConservesHandles(k: Kind, s: seq<Slot>, op: Op, p: Ptr)
    requires Sane(k) && WellFormed(k, s) && NoNulls(s) && (op.Push? ==> op.p != 0)
    ensures NoNulls(Step(k, s, op).state)
    ensures var e := Step(k, s, op);
            Held(s, p) + Times(IsPushOf(op, p)) + 2 * Times(RevivesHandle(k, s, op, p))
            == Held(e.state, p) + Count(e.deleted, p)
  {
    match op
    case Get(id) =>
    case Push(q, gid) => PushConservesHandles(k, s, q, gid, p);
    case Clear(id, status) => ClearConservesHandles(k, s, id, status, p);
  }

  lemma PushConservesHandles(k: Kind, s: seq<Slot>, q: Ptr, gid: int, p: Ptr)
    requires Sane(k) && WellFormed(k, s)
    ensures var e := PushStep(k, s, q, gid);
            Held(s, p) + Times(q == p) == Held(e.state, p) + Count(e.deleted, p)
  {
    var i, f := Find(s, gid), FirstFree(s);
    if k.replacing && gid > 0 && i < |s| {
      TallyAfterUpdate(s, i, Slot(gid, q), Holder(p));
    } else if f < |s| {
      TallyAfterUpdate(s, f, Slot(-s[f].id, q), Holder(p));
    } else {
      TallyAfterAppend(s, Slot(k.base + |s|, q), Holder(p));
    }
  }

  lemma ClearConservesHandles(k: Kind, s: seq<Slot>, id: int, status: int, p: Ptr)
    requires Sane(k) && WellFormed(k, s) && NoNulls(s)
    ensures var e := ClearStep(k, s, id, status);
            Held(s, p) + 2 * Times(RevivesHandle(k, s, Clear(id, status), p)) == Held(e.state, p) + Count(e.deleted, p)
  {
    var i := Find(s, id);
    if i < |s| {
      assert id != 0;
      TallyAfterUpdate(s, i, Slot(-id, s[i].p), Holder(p));
    }
  }

  predicate NoNullPushes(ops: seq<Op>) {
    forall op :: op in ops && op.Push? ==> op.p != 0
  }

  /** Over every run and for every handle, times pushed + twice times revived = live slots that hold it +
      times deleted; so pushed = live + deleted exactly when no freed slot of the handle is revived. */
  lemma {:induction false} RunConservesHandles(k: Kind, ops: seq<Op>, p: Ptr)
    requires Sane(k) && NoNullPushes(ops)
    ensures var r := Run(k, [], ops);
            && NoNulls(r.state)
            && Pushed(ops, p) + 2 * Revived(k, ops, p) == Held(r.state, p) + Count(r.deleted, p)
            && (Pushed(ops, p) == Held(r.state, p) + Count(r.deleted, p) <==> Revived(k, ops, p) == 0)
    decreases |ops|
  {
    if ops != [] {
      var rest, op := ops[..|ops| - 1], ops[|ops| - 1];
      assert op in ops;
      RunConservesHandles(k, rest, p);
      var before := Run(k, [], rest);
      RunsAreWellFormed(k, rest);
      StepConservesHandles(k, before.state, op, p);
      CountConcat(before.deleted, Step(k, before.state, op).deleted, p);
    }
  }

  ghost predicate DistinctPushes(ops: seq<Op>) {
    forall p :: Pushed(ops, p) <= 1
  }

  lemma {:induction false} NeverRevivedHandles(k: Kind, ops: seq<Op>, p: Ptr)
    requires NeverRevives(k, ops)
    ensures Revived(k, ops, p) == 0
    decreases |ops|
  {
    if ops != [] {
      NeverBefore(k, ops, |ops| - 1);
      NeverRevivedHandles(k, ops[..|ops| - 1], p);
    }
  }

  /** What a freed slot holds has been deleted. */
  predicate FreedAreDeleted(s: seq<Slot>, deleted: seq<Ptr>) {
    forall i :: 0 <= i < |s| && s[i].id < 0 ==> Count(deleted, s[i].p) >= 1
  }

  lemma FreedAreDeletedAfterStep(k: Kind, s: seq<Slot>, deleted: seq<Ptr>, op: Op)
    requires Sane(k) && WellFormed(k, s) && NoNulls(s) && FreedAreDeleted(s, deleted)
    ensures var e := Step(k, s, op); FreedAreDeleted(e.state, deleted + e.deleted)
  {
    var e := Step(k, s, op);
    forall i | 0 <= i < |e.state| && e.state[i].id < 0 ensures Count(deleted + e.deleted, e.state[i].p) >= 1 {
      CountConcat(deleted, e.deleted, e.state[i].p);
      if e.state[i] != s[i] { assert e.deleted == [e.state[i].p]; }
    }
  }

  lemma {:induction false} FreedHandlesAreDeleted(k: Kind, ops: seq<Op>)
    requires Sane(k) && NoNullPushes(ops)
    ensures FreedAreDeleted(Run(k, [], ops).state, Run(k, [], ops).deleted)
    decreases |ops|
  {
    if ops != [] {
      var rest, op := ops[..|ops| - 1], ops[|ops| - 1];
      FreedHandlesAreDeleted(k, rest);
      RunsAreWellFormed(k, rest);
      RunConservesHandles(k, rest, 0);
      FreedAreDeletedAfterStep(k, Run(k, [], rest).state, Run(k, [], rest).deleted, op);
    }
  }

  lemma {:induction false} DeletionsStay(k: Kind, ops: seq<Op>, n: nat, m: nat)
    requires n <= m <= |ops|
    ensures Run(k, [], ops[..n]).deleted <= Run(k, [], ops[..m]).deleted
    decreases m
  {
    if n < m {
      DeletionsStay(k, ops, n, m - 1);
      RunOneMore(k, [], ops, m - 1);
    }
  }

  lemma CountPrefix(a: seq<Ptr>, b: seq<Ptr>, p: Ptr)
    requires a <= b
    ensures Count(a, p) <= Count(b, p)
  {
    CountConcat(a, b[|a|..], p);
    assert b == a + b[|a|..];
  }

  /** A revival deletes its handle once more. */
  lemma RevivalDeletesAgain(k: Kind, ops: seq<Op>, i: nat)
    requires Sane(k) && NoNullPushes(ops) && i < |ops| && Revives(k, Before(k, ops, i), ops[i])
    ensures var s := Before(k, ops, i); Count(Run(k, [], ops).deleted, s[Find(s, ops[i].id)].p) >= 2
  {
    var s, op := Before(k, ops, i), ops[i];
    var p := s[Find(s, op.id)].p;
    assert forall q :: q in ops[..i] ==> q in ops;
    FreedHandlesAreDeleted(k, ops[..i]);
    RunConservesHandles(k, ops[..i], p);
    RunOneMore(k, [], ops, i);
    CountConcat(Run(k, [], ops[..i]).deleted, [p], p);
    DeletionsStay(k, ops, i + 1, |ops|);
    assert ops[..|ops|] == ops;
    CountPrefix(Run(k, [], ops[..i + 1]).deleted, Run(k, [], ops).deleted, p);
  }

  ghost predicate DeletedAtMostOnce(k: Kind, ops: seq<Op>) {
    forall p :: Count(Run(k, [], ops).deleted, p) <= 1
  }

  /** Pushing distinct handles: each is deleted at most once exactly when no clear revives a freed slot; and
      then none is live and deleted at once. */
  lemma EachHandleDeletedAtMostOnce(k: Kind, ops: seq<Op>)
    requires Sane(k) && NoNullPushes(ops) && DistinctPushes(ops)
    ensures DeletedAtMostOnce(k, ops) <==> NeverRevives(k, ops)
    ensures NeverRevives(k, ops) ==>
              forall p :: Held(Run(k, [], ops).state, p) + Count(Run(k, [], ops).deleted, p) <= 1
  {
    if NeverRevives(k, ops) {
      forall p ensures Held(Run(k, [], ops).state, p) + Count(Run(k, [], ops).deleted, p) <= 1 {
        RunConservesHandles(k, ops, p);
        NeverRevivedHandles(k, ops, p);
      }
    } else {
      var i :| 0 <= i < |ops| && Revives(k, Before(k, ops, i), ops[i]);
      RevivalDeletesAgain(k, ops, i);
    }
  }

  /** A run that deletes its only handle twice: pushed as 1, cleared as 1 and cleared again as -1. */
  lemma ClearingTwiceDeletesTwice()
    ensures Run(PYTHON_HANDLES, [], [Push(5, -1), Clear(1, 0), Clear(-1, 0)]).deleted == [5, 5]
    ensures Run(FORTRAN_HANDLES, [], [Push(5, -1), Clear(1, 0), Clear(-1, 0)]).deleted == [5]
  {
    var ops := [Push(5, -1), Clear(1, 0), Clear(-1, 0)];
    forall k | k == PYTHON_HANDLES || k == FORTRAN_HANDLES
      ensures Run(k, [], ops).deleted == if k == PYTHON_HANDLES then [5, 5] else [5]
    {
      RunOneMore(k, [], ops, 0);
      RunOneMore(k, [], ops, 1);
      RunOneMore(k, [], ops, 2);
      assert ops[..3] == ops && ops[..0] == [];
      assert Before(k, ops, 1) == [Slot(1, 5)];
      assert Before(k, ops, 2) == [Slot(-1, 5)];
    }
  }

  /** The guarded registries never revive a slot, whatever they are called with. */
  lemma GuardedNeverRevives(k: Kind, ops: seq<Op>)
    requires k.guarded
    ensures NeverRevives(k, ops)
  {
  }

  /** Each slot, live or freed, stores a different handle. */
  predicate StoresDistinct(s: seq<Slot>) {
    forall i, j :: 0 <= i < j < |s| ==> s[i].p != s[j].p
  }

  predicate Stores(s: seq<Slot>, p: Ptr) {
    exists i :: 0 <= i < |s| && s[i].p == p
  }

  lemma StoredAfterStep(k: Kind, s: seq<Slot>, op: Op)
    requires StoresDistinct(s) && (op.Push? ==> !Stores(s, op.p))
    ensures var s' := Step(k, s, op).state;
            StoresDistinct(s') && forall p :: Stores(s', p) ==> Stores(s, p) || IsPushOf(op, p)
  {
    var s' := Step(k, s, op).state;
    forall p | Stores(s', p) ensures Stores(s, p) || IsPushOf(op, p) {
      var i :| 0 <= i < |s'| && s'[i].p == p;
      if i < |s| && s'[i].p == s[i].p { assert Stores(s, p); }
    }
  }

  lemma {:induction false} StoredHandlesAreDistinct(k: Kind, ops: seq<Op>)
    requires Sane(k) && DistinctPushes(ops)
    ensures StoresDistinct(Run(k, [], ops).state)
    ensures forall p :: Stores(Run(k, [], ops).state, p) ==> Pushed(ops, p) >= 1
    decreases |ops|
  {
    if ops != [] {
      var rest, op := ops[..|ops| - 1], ops[|ops| - 1];
      forall p ensures Pushed(rest, p) + Times(IsPushOf(op, p)) == Pushed(ops, p) <= 1 {}
      StoredHandlesAreDistinct(k, rest);
      if op.Push? { assert Pushed(rest, op.p) == 0; }
      StoredAfterStep(k, Run(k, [], rest).state, op);
    }
  }

  /** No handle sits in two live slots. */
  lemma LiveHandlesAreDistinct(k: Kind, ops: seq<Op>, id: int, other: int)
    requires Sane(k) && DistinctPushes(ops)
    requires var s := Run(k, [], ops).state;
             LiveAt(k, s, id) && LiveAt(k, s, other) && s[id - k.base].p == s[other - k.base].p
    ensures id == other
  {
    StoredHandlesAreDistinct(k, ops);
  }

  /** A live handle is deleted by one more call exactly when that call clears its own id, or replaces it. */
  lemma OnlyItsOwnIdDeletesAHandle(k: Kind, ops: seq<Op>, op: Op, id: int)
    requires Sane(k) && NoNullPushes(ops) && DistinctPushes(ops)
    requires LiveAt(k, Run(k, [], ops).state, id)
    ensures var s := Run(k, [], ops).state;
            s[id - k.base].p in Step(k, s, op).deleted
            <==> (op.Clear? && op.id == id) || (op.Push? && k.replacing && op.gid == id)
  {
    var s := Run(k, [], ops).state;
    StoredHandlesAreDistinct(k, ops);
    RunConservesHandles(k, ops, 0);
    RunsAreWellFormed(k, ops);
    DeletesWhatItFinds(k, s, op, id);
  }

  lemma DeletesWhatItFinds(k: Kind, s: seq<Slot>, op: Op, id: int)
    requires Sane(k) && WellFormed(k, s) && NoNulls(s) && StoresDistinct(s) && LiveAt(k, s, id)
    ensures s[id - k.base].p in Step(k, s, op).deleted
            <==> (op.Clear? && op.id == id) || (op.Push? && k.replacing && op.gid == id)
  {
    FindIsFirst(s, id, 0, id - k.base);
    match op
    case Get(_) =>
    case Push(_, gid) => FindIsWhere(k, s, gid);
    case Clear(x, _) => FindIsWhere(k, s, x);
  }

  lemma FindIsWhere(k: Kind, s: seq<Slot>, id: int)
    requires Sane(k) && WellFormed(k, s)
    ensures Find(s, id) < |s| ==> Find(s, id) == (if id > 0 then id else -id) - k.base
  {
  }
}
