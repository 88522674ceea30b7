/** The file list of grib-api/fortran/grib_fortran.c under threads. No mutex guards it: `push_file` and `clear_file`
    walk the list to a place and then write there, and other threads may write in between. */
module UnlockedFiles {
  import opened GribErrors
  import opened SlotList
  import opened Wrappers

  const FILES := FORTRAN_FILES

  /** The nodes ever allocated, by address, and the addresses on the list from `file_set` on. A node that has
      dropped off the list may still be written by a thread that walked to it. */
  datatype Memory = Memory(nodes: seq<Slot>, list: seq<nat>) {
    /** The i-th node of the list has the i-th id, or its negation. */
    predicate Valid() {
      forall i :: 0 <= i < |list| ==> list[i] < |nodes| && Numbered(nodes[list[i]], FILES.base + i)
    }

    function Slots(): (s: seq<Slot>)
      requires Valid()
      ensures |s| == |list| && forall i :: 0 <= i < |s| ==> s[i] == nodes[list[i]]
      ensures WellFormed(FILES, s)
    {
      seq(|list|, i requires 0 <= i < |list| => nodes[list[i]])
    }

    /** How many nodes of the list come before the one a new node is linked behind, and that one; None if it is
        not on the list. */
    function PlaceBehind(after: Option<nat>): (r: Option<nat>)
      ensures r.Some? ==> r.value <= |list| && (after.Some? ==> r.value > 0 && list[r.value - 1] == after.value)
    {
      match after
      case None => Some(0)
      case Some(a) => if a in list then Some(Position(list, a) + 1) else None
    }
  }

  predicate Numbered(x: Slot, id: int) {
    x.id == id || x.id == -id
  }

  function Position(list: seq<nat>, a: nat): (i: nat)
    requires a in list
    ensures i < |list| && list[i] == a
  {
    if list[0] == a then 0 else Position(list[1..], a) + 1
  }

  /** What a call has found when it stops walking, and will write: a freed node to reuse, the last node to link a
      new one behind, a node to negate, or nothing. */
  datatype Plan =
    | Reuse(p: Ptr, at: nat)
    | Link(p: Ptr, after: Option<nat>, id: int)
    | Negate(id: int, at: nat)
    | Missing(id: int)
  {
    predicate Fits(nodes: seq<Slot>) {
      match this
      case Reuse(_, at) => at < |nodes|
      case Link(_, None, id) => id == FILES.base
      case Link(_, Some(a), id) => a < |nodes| && Numbered(nodes[a], id - 1) && id > FILES.base
      case Negate(id, at) => at < |nodes| && Numbered(nodes[at], id)
      case Missing(_) => true
    }

    function Op(): Op {
      match this
      case Reuse(p, _) => Push(p, 0)
      case Link(p, _, _) => Push(p, 0)
      case Negate(id, _) => Clear(id, 0)
      case Missing(id) => Clear(id, 0)
    }
  }

  /** The walks of `push_file` and `clear_file`. */
  function Walk(m: Memory, op: Op): (plan: Plan)
    requires m.Valid() && !op.Get?
    ensures plan.Fits(m.nodes)
  {
    match op
    case Push(p, _) =>
      var i := FirstFree(m.Slots());
      if i < |m.list| then Reuse(p, m.list[i])
      else Link(p, if i == 0 then None else Some(m.list[i - 1]), FILES.base + i)
    case Clear(id, _) =>
      var i := Find(m.Slots(), id);
      if i < |m.list| then Negate(id, m.list[i]) else Missing(id)
  }

  /** What they write then, wherever the node is by now, and answer. */
  function Write(m: Memory, plan: Plan): (e: Effect<Memory>)
    requires m.Valid() && plan.Fits(m.nodes)
    ensures e.state.Valid() && |e.state.nodes| >= |m.nodes|
    ensures forall a, id :: 0 <= a < |m.nodes| && Numbered(m.nodes[a], id) ==> Numbered(e.state.nodes[a], id)
  {
    match plan
    case Reuse(p, at) =>
      var id := -m.nodes[at].id;
      Effect(m.(nodes := m.nodes[at := Slot(id, p)]), Id(id), [])
    case Link(p, after, id) =>
      var list := match m.PlaceBehind(after) case None => m.list case Some(i) => m.list[..i] + [|m.nodes|];
      Effect(Memory(m.nodes + [Slot(id, p)], list), Id(id), [])
    case Negate(_, at) =>
      var x := m.nodes[at];
      Effect(m.(nodes := m.nodes[at := Slot(-x.id, x.p)]), Code(GRIB_SUCCESS), NonNull(x.p))
    case Missing(_) => Effect(m, Code(GRIB_INVALID_FILE), [])
  }

  // ----- One write -----

  /** The place is still the one the walk was looking for. A new node may also take the place of a freed last one. */
  predicate InPlace(m: Memory, plan: Plan)
    requires m.Valid()
  {
    match plan
    case Reuse(_, at) => var i := FirstFree(m.Slots()); i < |m.list| && m.list[i] == at
    case Link(_, after, _) => m.PlaceBehind(after) == Some(FirstFree(m.Slots())) && |m.list| <= FirstFree(m.Slots()) + 1
    case Negate(id, at) => var i := Find(m.Slots(), id); i < |m.list| && m.list[i] == at
    case Missing(id) => Find(m.Slots(), id) == |m.list|
  }

  /** The write does to the list, answers and closes what the whole call would at this moment. */
  predicate IsWholeCall(m: Memory, plan: Plan)
    requires m.Valid() && plan.Fits(m.nodes)
  {
    var e := Write(m, plan);
    Step(FILES, m.Slots(), plan.Op()) == Effect(e.state.Slots(), e.answer, e.deleted)
  }

  /** An address is on the list once. */
  lemma PositionIs(m: Memory, i: nat)
    requires m.Valid() && i < |m.list|
    ensures Position(m.list, m.list[i]) == i
  {
  }

  /** A walk that nobody has come after is in place. */
  lemma FreshIsInPlace(m: Memory, op: Op)
    requires m.Valid() && !op.Get?
    ensures InPlace(m, Walk(m, op))
  {
    if m.list != [] { PositionIs(m, |m.list| - 1); }
  }

  lemma SlotsAfterSet(m: Memory, at: nat, x: Slot)
    requires m.Valid() && at < |m.nodes| && (x.id == m.nodes[at].id || x.id == -m.nodes[at].id)
    ensures var m' := m.(nodes := m.nodes[at := x]);
            m'.Valid() && m'.Slots() == if at in m.list then m.Slots()[Position(m.list, at) := x] else m.Slots()
  {
    var m' := m.(nodes := m.nodes[at := x]);
    forall i | 0 <= i < |m.list| && m.list[i] == at ensures Position(m.list, at) == i { PositionIs(m, i); }
    if at in m.list {
      assert m'.Slots() == m.Slots()[Position(m.list, at) := x];
    } else {
      assert m'.Slots() == m.Slots();
    }
  }

  lemma FreeIsNumbered(m: Memory)
    requires m.Valid()
    ensures var s := m.Slots();
            var f := FirstFree(s);
            f < |s| ==> -s[f].id == FILES.base + f && s[f].id != -s[f].id
  {
  }

  lemma ReuseIsWholeCall(m: Memory, plan: Plan)
    requires m.Valid() && plan.Reuse? && plan.Fits(m.nodes)
    ensures IsWholeCall(m, plan) <==> InPlace(m, plan)
  {
    var s, at := m.Slots(), plan.at;
    var f := FirstFree(s);
    FreeIsNumbered(m);
    SlotsAfterSet(m, at, Slot(-m.nodes[at].id, plan.p));
    if f < |s| && m.list[f] == at { PositionIs(m, f); }
  }

  lemma SlotsAfterLink(m: Memory, plan: Plan)
    requires m.Valid() && plan.Link? && plan.Fits(m.nodes)
    ensures var s, s', place := m.Slots(), Write(m, plan).state.Slots(), m.PlaceBehind(plan.after);
            if place.None? then s' == s
            else plan.id == FILES.base + place.value && s' == s[..place.value] + [Slot(plan.id, plan.p)]
  {
    var s, s', place := m.Slots(), Write(m, plan).state.Slots(), m.PlaceBehind(plan.after);
    if place.None? {
      assert s' == s;
    } else {
      assert s' == s[..place.value] + [Slot(plan.id, plan.p)];
    }
  }

  lemma LinkingIsAllocating(s: seq<Slot>, p: Ptr, i: nat)
    requires WellFormed(FILES, s) && i <= |s|
    ensures Allocate(FILES, s, p) == Effect(s[..i] + [Slot(FILES.base + i, p)], Id(FILES.base + i), [])
            <==> FirstFree(s) == i && |s| <= i + 1
  {
    var x, f := Slot(FILES.base + i, p), FirstFree(s);
    assert f < |s| ==> -s[f].id == FILES.base + f;
    if i < |s| {
      assert |s[..i] + [x]| == i + 1;
      if |s| == i + 1 { assert s[..i] + [x] == s[i := x]; }
    } else {
      assert s[..i] == s;
    }
  }

  lemma AllocatingShows(s: seq<Slot>, p: Ptr)
    requires WellFormed(FILES, s)
    ensures Allocate(FILES, s, p).state != s
  {
    var f := FirstFree(s);
    if f < |s| { assert s[f].id < 0 < -s[f].id; }
  }

  lemma LinkIsWholeCall(m: Memory, plan: Plan)
    requires m.Valid() && plan.Link? && plan.Fits(m.nodes)
    ensures IsWholeCall(m, plan) <==> InPlace(m, plan)
  {
    var s, place := m.Slots(), m.PlaceBehind(plan.after);
    SlotsAfterLink(m, plan);
    if place.None? { AllocatingShows(s, plan.p); } else { LinkingIsAllocating(s, plan.p, place.value); }
  }

  lemma NegateIsWholeCall(m: Memory, plan: Plan)
    requires m.Valid() && plan.Negate? && plan.Fits(m.nodes)
    ensures IsWholeCall(m, plan) <==> InPlace(m, plan)
  {
    var s, at := m.Slots(), plan.at;
    var i := Find(s, plan.id);
    SlotsAfterSet(m, at, Slot(-m.nodes[at].id, m.nodes[at].p));
    if i < |s| {
      assert s[i].id == plan.id != 0;
      PositionIs(m, i);
    }
  }

  /** A write acts as the whole call exactly when it is in place. */
  lemma WriteIsWholeCall(m: Memory, plan: Plan)
    requires m.Valid() && plan.Fits(m.nodes)
    ensures IsWholeCall(m, plan) <==> InPlace(m, plan)
  {
    match plan
    case Reuse(_, _) => ReuseIsWholeCall(m, plan);
    case Link(_, _, _) => LinkIsWholeCall(m, plan);
    case Negate(_, _) => NegateIsWholeCall(m, plan);
    case Missing(_) =>
  }

  // ----- Schedules -----

  /** The memory, what each thread will write, and what the writes so far have been and done. */
  datatype State =
    State(memory: Memory, plans: seq<Option<Plan>>, log: seq<Op>, answers: seq<Answer>, closed: seq<Ptr>)
  {
    predicate Valid() {
      && memory.Valid()
      && forall t :: 0 <= t < |plans| && plans[t].Some? ==> plans[t].value.Fits(memory.nodes)
    }

    /** The list, and all answers and closed files, are as if each call had been made as a whole. */
    predicate IsSequential()
      requires Valid()
    {
      Run(FILES, [], log) == Trace(memory.Slots(), answers, closed)
    }

    /** At most one thread is between its walk and its write. */
    predicate OneAtATime() {
      forall t, u :: 0 <= t < |plans| && 0 <= u < |plans| && plans[t].Some? && plans[u].Some? ==> t == u
    }
  }

  /** Thread t moves: to its write if it has walked, and otherwise it walks for the call. */
  datatype Move = Move(t: nat, op: Op)

  predicate Writes(s: State, move: Move) {
    move.t < |s.plans| && s.plans[move.t].Some?
  }

  function Next(s: State, move: Move): (r: State)
    requires s.Valid()
    ensures r.Valid() && |r.plans| == |s.plans|
  {
    if move.t >= |s.plans| then s
    else
      match s.plans[move.t]
      case Some(plan) =>
        var e := Write(s.memory, plan);
        State(e.state, s.plans[move.t := None], s.log + [plan.Op()], s.answers + [e.answer], s.closed + e.deleted)
      case None =>
        if move.op.Get? then s else s.(plans := s.plans[move.t := Some(Walk(s.memory, move.op))])
  }

  function Start(n: nat): (s: State)
    ensures s.Valid() && |s.plans| == n
  {
    State(Memory([], []), seq(n, _ => None), [], [], [])
  }

  function Play(n: nat, moves: seq<Move>): (s: State)
    ensures s.Valid() && |s.plans| == n
    decreases |moves|
  {
    if moves == [] then Start(n) else Next(Play(n, moves[..|moves| - 1]), moves[|moves| - 1])
  }

  /** What thread move.t writes next, if it does, is in place. */
  predicate MoveInPlace(s: State, move: Move)
    requires s.Valid()
  {
    Writes(s, move) ==> InPlace(s.memory, s.plans[move.t].value)
  }

  lemma AppendCancels<T>(a: seq<T>, x: seq<T>, y: seq<T>)
    ensures a + x == a + y <==> x == y
  {
    assert x == (a + x)[|a|..] && y == (a + y)[|a|..];
  }

  lemma WriteIsSequential(s: State, plan: Plan)
    requires s.Valid() && s.IsSequential() && plan.Fits(s.memory.nodes)
    ensures var e := Write(s.memory, plan);
            Run(FILES, [], s.log + [plan.Op()])
              == Trace(e.state.Slots(), s.answers + [e.answer], s.closed + e.deleted)
            <==> InPlace(s.memory, plan)
  {
    var e, whole := Write(s.memory, plan), Step(FILES, s.memory.Slots(), plan.Op());
    WriteIsWholeCall(s.memory, plan);
    RunAppend(FILES, [], s.log, plan.Op());
    AppendCancels(s.answers, [whole.answer], [e.answer]);
    AppendCancels(s.closed, whole.deleted, e.deleted);
  }

  lemma NextIsSequential(s: State, move: Move)
    requires s.Valid() && s.IsSequential()
    ensures Next(s, move).IsSequential() <==> MoveInPlace(s, move)
  {
    if Writes(s, move) { WriteIsSequential(s, s.plans[move.t].value); }
  }

  predicate SequentialAt(n: nat, moves: seq<Move>, i: nat)
    requires i <= |moves|
  {
    Play(n, moves[..i]).IsSequential()
  }

  predicate InPlaceAt(n: nat, moves: seq<Move>, i: nat)
    requires i < |moves|
  {
    MoveInPlace(Play(n, moves[..i]), moves[i])
  }

  lemma PlayOneMore(n: nat, moves: seq<Move>, i: nat)
    requires i < |moves|
    ensures Play(n, moves[..i + 1]) == Next(Play(n, moves[..i]), moves[i])
  {
    assert moves[..i + 1][..i] == moves[..i];
  }

  lemma OneMoreAt(n: nat, moves: seq<Move>, i: nat)
    requires i < |moves| && SequentialAt(n, moves, i)
    ensures SequentialAt(n, moves, i + 1) <==> InPlaceAt(n, moves, i)
  {
    PlayOneMore(n, moves, i);
    NextIsSequential(Play(n, moves[..i]), moves[i]);
  }

  lemma StartIsSequential(n: nat, moves: seq<Move>)
    ensures SequentialAt(n, moves, 0)
  {
    assert moves[..0] == [] && Start(n).memory.Slots() == [];
  }

  /** If each of some claims, once it holds, makes the next one hold exactly on a condition, they all hold exactly
      on all the conditions. */
  lemma {:induction false} ClaimsChain(claims: seq<bool>, conditions: seq<bool>, j: nat)
    requires |claims| == |conditions| + 1 && claims[0] && j <= |conditions|
    requires forall i :: 0 <= i < |conditions| && claims[i] ==> (claims[i + 1] <==> conditions[i])
    ensures (forall i :: 0 <= i <= j ==> claims[i]) <==> (forall i :: 0 <= i < j ==> conditions[i])
  {
    if j > 0 {
      ClaimsChain(claims, conditions, j - 1);
      assert claims[j - 1] ==> (claims[j - 1 + 1] <==> conditions[j - 1]);
    }
  }

  predicate AllSequential(n: nat, moves: seq<Move>) {
    forall i :: 0 <= i <= |moves| ==> SequentialAt(n, moves, i)
  }

  predicate AllInPlace(n: nat, moves: seq<Move>) {
    forall i :: 0 <= i < |moves| ==> InPlaceAt(n, moves, i)
  }

  /** The list, the answers and the closed files are those of the calls made one after another, at every point of a
      schedule, exactly when every write of it is in place. */
  lemma SequentialExactlyInPlace(n: nat, moves: seq<Move>)
    ensures AllSequential(n, moves) <==> AllInPlace(n, moves)
  {
    var claims := seq(|moves| + 1, i requires 0 <= i <= |moves| => SequentialAt(n, moves, i));
    var conditions := seq(|moves|, i requires 0 <= i < |moves| => InPlaceAt(n, moves, i));
    StartIsSequential(n, moves);
    forall i | 0 <= i < |moves| && claims[i] ensures claims[i + 1] <==> conditions[i] { OneMoreAt(n, moves, i); }
    ClaimsChain(claims, conditions, |moves|);
    assert forall i :: 0 <= i <= |moves| ==> claims[i] == SequentialAt(n, moves, i);
    assert forall i :: 0 <= i < |moves| ==> conditions[i] == InPlaceAt(n, moves, i);
  }

  // ----- Calls that do not overlap -----

  /** What a thread will write is what a walk would find now. */
  predicate Fresh(s: State)
    requires s.Valid()
  {
    forall t :: 0 <= t < |s.plans| && s.plans[t].Some? ==> s.plans[t].value == Walk(s.memory, s.plans[t].value.Op())
  }

  lemma WalkIsFor(m: Memory, op: Op)
    requires m.Valid() && !op.Get?
    ensures Walk(m, Walk(m, op).Op()) == Walk(m, op)
  {
  }

  lemma NextIsFresh(s: State, move: Move)
    requires s.Valid() && Fresh(s) && s.OneAtATime() && Next(s, move).OneAtATime()
    ensures Fresh(Next(s, move))
  {
    if move.t < |s.plans| && s.plans[move.t].None? && !move.op.Get? { WalkIsFor(s.memory, move.op); }
  }

  ghost predicate NoOverlap(n: nat, moves: seq<Move>) {
    forall i :: 0 <= i <= |moves| ==> Play(n, moves[..i]).OneAtATime()
  }

  lemma {:induction false} NoOverlapIsFresh(n: nat, moves: seq<Move>, i: nat)
    requires NoOverlap(n, moves) && i <= |moves|
    ensures Fresh(Play(n, moves[..i]))
  {
    if i > 0 {
      NoOverlapIsFresh(n, moves, i - 1);
      PlayOneMore(n, moves, i - 1);
      NextIsFresh(Play(n, moves[..i - 1]), moves[i - 1]);
    }
  }

  /** Calls that do not overlap act one after another. */
  lemma NoOverlapIsSequential(n: nat, moves: seq<Move>)
    requires NoOverlap(n, moves)
    ensures AllSequential(n, moves)
  {
    forall i | 0 <= i < |moves| ensures InPlaceAt(n, moves, i) {
      var s := Play(n, moves[..i]);
      NoOverlapIsFresh(n, moves, i);
      if Writes(s, moves[i]) { FreshIsInPlace(s.memory, s.plans[moves[i].t].value.Op()); }
    }
    SequentialExactlyInPlace(n, moves);
  }

  function Open(t: nat, p: Ptr): Move {
    Move(t, Push(p, 0))
  }

  lemma WalkWhileEmpty(s: State, t: nat, p: Ptr)
    requires s.Valid() && s.memory == Memory([], []) && t < |s.plans| && s.plans[t].None?
    ensures Next(s, Open(t, p)) == s.(plans := s.plans[t := Some(Link(p, None, FILES.base))])
  {
    assert s.memory.Slots() == [];
  }

  lemma LinkAtHead(s: State, t: nat, p: Ptr)
    requires s.Valid() && t < |s.plans| && s.plans[t] == Some(Link(p, None, FILES.base))
    ensures var x := Next(s, Open(t, p));
            && x.memory == Memory(s.memory.nodes + [Slot(FILES.base, p)], [|s.memory.nodes|])
            && x.memory.Slots() == [Slot(FILES.base, p)] && x.plans == s.plans[t := None]
            && x.log == s.log + [Push(p, 0)] && x.answers == s.answers + [Id(FILES.base)]
  {
    assert s.memory.list[..0] == [];
  }

  /** Two opens on an empty list that walk before either writes both answer the first id, and the list keeps the
      second file only. */
  lemma OverlappingOpensLoseAFile(s0: State, t: nat, u: nat, p: Ptr, q: Ptr)
    requires s0.Valid() && s0.memory == Memory([], [])
    requires t < |s0.plans| && u < |s0.plans| && t != u && s0.plans[t].None? && s0.plans[u].None?
    ensures var s := Next(Next(Next(Next(s0, Open(t, p)), Open(u, q)), Open(t, p)), Open(u, q));
            && s.log == s0.log + [Push(p, 0), Push(q, 0)] && s.answers == s0.answers + [Id(FILES.base), Id(FILES.base)]
            && s.memory.Slots() == [Slot(FILES.base, q)]
  {
    WalkWhileEmpty(s0, t, p);
    var s1 := Next(s0, Open(t, p));
    WalkWhileEmpty(s1, u, q);
    var s2 := Next(s1, Open(u, q));
    LinkAtHead(s2, t, p);
    LinkAtHead(Next(s2, Open(t, p)), u, q);
  }
}
