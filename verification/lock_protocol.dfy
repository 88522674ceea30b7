/** Threads calling the locked entry points of the registries in any interleaving. Each registry but the
    file list has a recursive mutex; making an iterator nests its own mutex around the handle mutex and
    around itself. */
module LockProtocol {
  import opened SlotList

  datatype Mutex = Handles | Indexes | MultiHandles | Iterators | KeysIterators

  /** One thread's steps. A call's reads of a list happen at its Load and its writes at its Store, so
      another thread's steps may come in between; likewise for the count of error files. Naming an error
      file reads the count again. */
  datatype Action =
    | Lock(m: Mutex)
    | Unlock(m: Mutex)
    | Load(m: Mutex)
    | Store(m: Mutex, op: Op)
    | LoadCount
    | StoreCount
    | NameFile

  /** The entry points: one push, get or clear on a registry; a new iterator over a message; or the dump of a
      message to an error file. The message may be unknown or the iterator may fail to be made (`made` false):
      then nothing is pushed. */
  datatype Call =
    | One(m: Mutex, op: Op)
    | NewIterator(keys: bool, gid: int, made: bool, iter: Ptr)
    | WriteOnFail(gid: int)

  function Locked(m: Mutex, op: Op): seq<Action> {
    [Lock(m), Load(m), Store(m, op), Unlock(m)]
  }

  /** What a call does, in order. */
  function Script(call: Call): seq<Action> {
    match call
    case One(m, op) => Locked(m, op)
    case NewIterator(keys, gid, made, iter) =>
      var m := if keys then KeysIterators else Iterators;
      [Lock(m)] + Locked(Handles, Get(gid)) + (if made then Locked(m, Push(iter, 0)) else []) + [Unlock(m)]
    case WriteOnFail(gid) =>
      [Lock(Handles), LoadCount, StoreCount, Unlock(Handles), NameFile] + Locked(Handles, Get(gid))
  }

  /** A recursive mutex: free, or held by one thread to some depth. */
  datatype Owner = Free | Owned(t: nat, depth: nat)

  /** What is left of a thread's call, the list and the count it has loaded, the answers its calls on each
      registry have got, and the numbers of the error files it has named. */
  datatype Thread = Thread(
    script: seq<Action>,
    local: seq<Slot>,
    count: nat,
    results: Mutex -> seq<Answer>,
    named: seq<nat>)

  const IDLE := Thread([], [], 0, m => [], [])

  /** A call that has taken effect, and the thread that made it. */
  datatype Entry = Entry(t: nat, op: Op)

  /** Shared lists, and, per registry, the calls that have taken effect and their answers, in order; the
      count of error files, and how often it was raised. */
  datatype State = State(
    locks: Mutex -> Owner,
    lists: Mutex -> seq<Slot>,
    log: Mutex -> seq<Entry>,
    answers: Mutex -> seq<Answer>,
    fileCount: nat,
    raised: nat,
    threads: seq<Thread>)

  type Kinds = Mutex -> Kind

  function Init(n: nat): State {
    State(m => Free, m => [], m => [], m => [], 0, 0, seq(n, i => IDLE))
  }

  function Set<T>(f: Mutex -> T, m: Mutex, x: T): Mutex -> T {
    x' => if x' == m then x else f(x')
  }

  /** How often thread t holds mutex m. */
  function Depth(s: State, m: Mutex, t: nat): nat {
    match s.locks(m)
    case Free => 0
    case Owned(u, d) => if u == t then d else 0
  }

  /** Thread t can take a step: it is not waiting for a mutex that another thread holds. */
  predicate Enabled(s: State, t: nat) {
    t < |s.threads| &&
    var script := s.threads[t].script;
    script == [] || !script[0].Lock? || s.locks(script[0].m).Free? || s.locks(script[0].m).t == t
  }

  /** The next action of thread t is done, but for its effect. */
  function Advance(s: State, t: nat): State
    requires t < |s.threads| && s.threads[t].script != []
  {
    s.(threads := s.threads[t := s.threads[t].(script := s.threads[t].script[1..])])
  }

  /** The effect of an action on what the mutexes hold. */
  function Locks(s: State, t: nat, a: Action): Mutex -> Owner {
    match a
    case Lock(m) => Set(s.locks, m, Owned(t, Depth(s, m, t) + 1))
    case Unlock(m) =>
      var d := Depth(s, m, t);
      if d == 0 then s.locks // not the owner: an error that changes nothing
      else Set(s.locks, m, if d == 1 then Free else Owned(t, d - 1))
    case _ => s.locks
  }

  /** The effect of an action on the lists and the thread's results. */
  function Effects(kinds: Kinds, s: State, t: nat, a: Action): State
    requires t < |s.threads|
  {
    var th := s.threads[t];
    match a
    case Lock(_) => s
    case Unlock(_) => s
    case Load(m) => s.(threads := s.threads[t := th.(local := s.lists(m))])
    case Store(m, op) =>
      var e := Step(kinds(m), th.local, op);
      s.(lists := Set(s.lists, m, e.state),
         log := Set(s.log, m, s.log(m) + [Entry(t, op)]),
         answers := Set(s.answers, m, s.answers(m) + [e.answer]),
         threads := s.threads[t := th.(results := Set(th.results, m, th.results(m) + [e.answer]))])
    case LoadCount => s.(threads := s.threads[t := th.(count := s.fileCount)])
    case StoreCount => s.(fileCount := th.count + 1, raised := s.raised + 1)
    case NameFile => s.(threads := s.threads[t := th.(named := th.named + [s.fileCount])])
  }

  /** One step of thread t; if it is idle it starts `call`. A thread that is not enabled stays put. */
  function Next(kinds: Kinds, s: State, t: nat, call: Call): State {
    if !Enabled(s, t) then s
    else if s.threads[t].script == [] then s.(threads := s.threads[t := s.threads[t].(script := Script(call))])
    else
      var a := s.threads[t].script[0];
      Effects(kinds, Advance(s, t), t, a).(locks := Locks(s, t, a))
  }

  /** A schedule says who moves next, and what an idle thread calls. */
  datatype Choice = Choice(t: nat, call: Call)

  function Play(kinds: Kinds, s: State, schedule: seq<Choice>): State
    decreases |schedule|
  {
    if schedule == [] then s
    else
      var last := schedule[|schedule| - 1];
      Next(kinds, Play(kinds, s, schedule[..|schedule| - 1]), last.t, last.call)
  }

  // ----- The discipline every script keeps -----

  function Rank(m: Mutex): nat {
    if m == Handles then 2 else 1
  }

  /** An action a thread may take that holds `held` and goes on with `rest`: it locks a new mutex only if that
      outranks all it holds, touches a list only under that list's mutex and raises the count only under the
      handle mutex, and stores right after loading. */
  ghost predicate Allowed(a: Action, rest: seq<Action>, held: multiset<Mutex>) {
    match a
    case Lock(m) => (m in held || forall x :: x in held ==> Rank(x) < Rank(m)) && !StoresFirst(rest)
    case Unlock(m) => m in held && !StoresFirst(rest)
    case Load(m) => m in held && StoresListFirst(rest) && rest[0].m == m
    case Store(m, _) => m in held && !StoresFirst(rest)
    case LoadCount => Handles in held && StoresCountFirst(rest)
    case StoreCount => Handles in held && !StoresFirst(rest)
    case NameFile => !StoresFirst(rest)
  }

  function After(a: Action, held: multiset<Mutex>): multiset<Mutex> {
    match a
    case Lock(m) => held + multiset{m}
    case Unlock(m) => held - multiset{m}
    case _ => held
  }

  /** Run from a thread that holds `held`, each action of the script is allowed and it ends holding nothing. */
  ghost predicate Disciplined(script: seq<Action>, held: multiset<Mutex>) {
    if script == [] then held == multiset{}
    else Allowed(script[0], script[1..], held) && Disciplined(script[1..], After(script[0], held))
  }

  predicate StoresListFirst(script: seq<Action>) {
    script != [] && script[0].Store?
  }

  predicate StoresCountFirst(script: seq<Action>) {
    script != [] && script[0].StoreCount?
  }

  predicate StoresFirst(script: seq<Action>) {
    StoresListFirst(script) || StoresCountFirst(script)
  }

  lemma DisciplinedCons(a: Action, rest: seq<Action>, held: multiset<Mutex>)
    requires Allowed(a, rest, held) && Disciplined(rest, After(a, held))
    ensures Disciplined([a] + rest, held)
  {
    assert ([a] + rest)[1..] == rest;
  }

  /** The part of `Locked` after its Lock, and what follows. */
  function Inside(m: Mutex, op: Op, tail: seq<Action>): seq<Action> {
    [Load(m)] + ([Store(m, op)] + ([Unlock(m)] + tail))
  }

  lemma InsideIsDisciplined(m: Mutex, op: Op, tail: seq<Action>, held: multiset<Mutex>)
    requires m in held && !StoresFirst(tail) && Disciplined(tail, held - multiset{m})
    ensures Disciplined(Inside(m, op, tail), held)
  {
    DisciplinedCons(Unlock(m), tail, held);
    DisciplinedCons(Store(m, op), [Unlock(m)] + tail, held);
    DisciplinedCons(Load(m), [Store(m, op)] + ([Unlock(m)] + tail), held);
  }

  lemma LockIsDisciplined(m: Mutex, rest: seq<Action>, held: multiset<Mutex>)
    requires m in held || forall x :: x in held ==> Rank(x) < Rank(m)
    requires !StoresFirst(rest) && Disciplined(rest, held + multiset{m})
    ensures Disciplined([Lock(m)] + rest, held)
  {
    DisciplinedCons(Lock(m), rest, held);
  }

  lemma LockedThen(m: Mutex, op: Op, tail: seq<Action>)
    ensures Locked(m, op) + tail == [Lock(m)] + Inside(m, op, tail)
    ensures !StoresFirst(Inside(m, op, tail))
  {
  }

  lemma LockedIsDisciplined(m: Mutex, op: Op, tail: seq<Action>, held: multiset<Mutex>)
    requires m in held || forall x :: x in held ==> Rank(x) < Rank(m)
    requires !StoresFirst(tail) && Disciplined(tail, held)
    ensures Disciplined(Locked(m, op) + tail, held)
  {
    var inside := held + multiset{m};
    assert inside - multiset{m} == held;
    InsideIsDisciplined(m, op, tail, inside);
    LockedThen(m, op, tail);
    LockIsDisciplined(m, Inside(m, op, tail), held);
  }

  /** What an iterator call does under its own mutex. */
  function IteratorPart(m: Mutex, gid: int, made: bool, iter: Ptr): seq<Action> {
    Locked(Handles, Get(gid)) + ((if made then Locked(m, Push(iter, 0)) else []) + [Unlock(m)])
  }

  lemma IteratorPartIsDisciplined(m: Mutex, gid: int, made: bool, iter: Ptr)
    requires m == Iterators || m == KeysIterators
    ensures Disciplined(IteratorPart(m, gid, made, iter), multiset{m})
  {
    var held, end := multiset{m}, [Unlock(m)];
    assert held - multiset{m} == multiset{} && end == [Unlock(m)] + [];
    DisciplinedCons(Unlock(m), [], held);
    if made {
      LockedIsDisciplined(m, Push(iter, 0), end, held);
    } else {
      assert [] + end == end;
    }
    LockedIsDisciplined(Handles, Get(gid), (if made then Locked(m, Push(iter, 0)) else []) + end, held);
  }

  lemma NewIteratorScript(keys: bool, gid: int, made: bool, iter: Ptr)
    ensures var m := if keys then KeysIterators else Iterators;
            Script(NewIterator(keys, gid, made, iter)) == [Lock(m)] + IteratorPart(m, gid, made, iter)
            && !StoresFirst(IteratorPart(m, gid, made, iter))
  {
  }

  lemma NewIteratorIsDisciplined(keys: bool, gid: int, made: bool, iter: Ptr)
    ensures Disciplined(Script(NewIterator(keys, gid, made, iter)), multiset{})
  {
    var m := if keys then KeysIterators else Iterators;
    assert multiset{} + multiset{m} == multiset{m};
    IteratorPartIsDisciplined(m, gid, made, iter);
    NewIteratorScript(keys, gid, made, iter);
    LockIsDisciplined(m, IteratorPart(m, gid, made, iter), multiset{});
  }

  /** What a dump does under the handle mutex, and what follows. */
  function CountPart(tail: seq<Action>): seq<Action> {
    [LoadCount] + ([StoreCount] + ([Unlock(Handles)] + tail))
  }

  lemma CountPartIsDisciplined(tail: seq<Action>)
    requires !StoresFirst(tail) && Disciplined(tail, multiset{})
    ensures Disciplined(CountPart(tail), multiset{Handles}) && !StoresFirst(CountPart(tail))
  {
    var held := multiset{Handles};
    assert held - multiset{Handles} == multiset{};
    DisciplinedCons(Unlock(Handles), tail, held);
    DisciplinedCons(StoreCount, [Unlock(Handles)] + tail, held);
    DisciplinedCons(LoadCount, [StoreCount] + ([Unlock(Handles)] + tail), held);
  }

  lemma WriteOnFailScript(gid: int)
    ensures Script(WriteOnFail(gid)) == [Lock(Handles)] + CountPart([NameFile] + (Locked(Handles, Get(gid)) + []))
  {
  }

  lemma WriteOnFailIsDisciplined(gid: int)
    ensures Disciplined(Script(WriteOnFail(gid)), multiset{})
  {
    var get := Locked(Handles, Get(gid)) + [];
    LockedIsDisciplined(Handles, Get(gid), [], multiset{});
    DisciplinedCons(NameFile, get, multiset{});
    CountPartIsDisciplined([NameFile] + get);
    assert multiset{} + multiset{Handles} == multiset{Handles};
    LockIsDisciplined(Handles, CountPart([NameFile] + get), multiset{});
    WriteOnFailScript(gid);
  }

  lemma ScriptsAreDisciplined(call: Call)
    ensures Disciplined(Script(call), multiset{}) && Script(call) != [] && !StoresFirst(Script(call))
  {
    match call
    case One(m, op) =>
      LockedIsDisciplined(m, op, [], multiset{});
      assert Locked(m, op) + [] == Locked(m, op);
    case NewIterator(keys, gid, made, iter) => NewIteratorIsDisciplined(keys, gid, made, iter);
    case WriteOnFail(gid) => WriteOnFailIsDisciplined(gid);
  }

  // ----- The invariant -----

  /** All that thread t holds. */
  function HeldBy(s: State, t: nat): multiset<Mutex> {
    multiset{}[Handles := Depth(s, Handles, t)][Indexes := Depth(s, Indexes, t)]
      [MultiHandles := Depth(s, MultiHandles, t)][Iterators := Depth(s, Iterators, t)]
      [KeysIterators := Depth(s, KeysIterators, t)]
  }

  lemma HeldByCounts(s: State, t: nat, m: Mutex)
    ensures HeldBy(s, t)[m] == Depth(s, m, t)
    ensures m in HeldBy(s, t) <==> Depth(s, m, t) > 0
  {
  }

  ghost predicate ThreadOk(s: State, t: nat)
    requires t < |s.threads|
  {
    var th := s.threads[t];
    && Disciplined(th.script, HeldBy(s, t))
    && (StoresListFirst(th.script) ==> th.local == s.lists(th.script[0].m))
    && (StoresCountFirst(th.script) ==> th.count == s.fileCount)
  }

  /** Thread t has got the logged answers to its calls, in order. */
  ghost predicate ResultsOk(s: State, t: nat, m: Mutex)
    requires t < |s.threads|
  {
    s.threads[t].results(m) == AnswersFor(t, s.log(m), s.answers(m))
  }

  function Ops(log: seq<Entry>): (ops: seq<Op>)
    ensures |ops| == |log| && forall i :: 0 <= i < |ops| ==> ops[i] == log[i].op
  {
    seq(|log|, i requires 0 <= i < |log| => log[i].op)
  }

  /** The answers to the calls of thread t, in order. */
  function AnswersFor(t: nat, log: seq<Entry>, answers: seq<Answer>): seq<Answer>
    decreases |log|
  {
    if log == [] || |answers| != |log| then []
    else
      var n := |log| - 1;
      AnswersFor(t, log[..n], answers[..n]) + if log[n].t == t then [answers[n]] else []
  }

  lemma AnswersForOneMore(t: nat, log: seq<Entry>, answers: seq<Answer>, e: Entry, answer: Answer)
    requires |log| == |answers|
    ensures AnswersFor(t, log + [e], answers + [answer])
         == AnswersFor(t, log, answers) + if e.t == t then [answer] else []
  {
    assert (log + [e])[..|log|] == log && (answers + [answer])[..|log|] == answers;
  }

  ghost predicate ListOk(kinds: Kinds, s: State, m: Mutex) {
    var r := Run(kinds(m), [], Ops(s.log(m)));
    s.lists(m) == r.state && s.answers(m) == r.answers && |s.log(m)| == |s.answers(m)|
  }

  ghost predicate LockOk(s: State, m: Mutex) {
    s.locks(m).Owned? ==> s.locks(m).depth > 0 && s.locks(m).t < |s.threads|
  }

  ghost predicate Inv(kinds: Kinds, s: State) {
    && (forall t :: 0 <= t < |s.threads| ==> ThreadOk(s, t))
    && (forall m :: ListOk(kinds, s, m) && LockOk(s, m))
    && (forall t, m :: 0 <= t < |s.threads| ==> ResultsOk(s, t, m))
    && s.fileCount == s.raised
  }

  lemma SameDepthsSameHeld(s: State, s': State, t: nat)
    requires forall m :: Depth(s', m, t) == Depth(s, m, t)
    ensures HeldBy(s', t) == HeldBy(s, t)
  {
  }

  lemma DepthAfterLock(s: State, s': State, t: nat, m: Mutex)
    requires Depth(s', m, t) == Depth(s, m, t) + 1
    requires forall x :: x != m ==> Depth(s', x, t) == Depth(s, x, t)
    ensures HeldBy(s', t) == HeldBy(s, t) + multiset{m}
  {
  }

  lemma DepthAfterUnlock(s: State, s': State, t: nat, m: Mutex)
    requires Depth(s, m, t) == Depth(s', m, t) + 1
    requires forall x :: x != m ==> Depth(s', x, t) == Depth(s, x, t)
    ensures HeldBy(s', t) == HeldBy(s, t) - multiset{m}
  {
  }

  /** Two threads never hold the same mutex. */
  lemma NotBothHold(s: State, t: nat, u: nat, m: Mutex)
    requires t != u
    ensures m !in HeldBy(s, t) || m !in HeldBy(s, u)
  {
    HeldByCounts(s, t, m);
    HeldByCounts(s, u, m);
  }

  /** What the mover holds after an enabled action it may take. */
  lemma HeldAfter(s: State, s': State, t: nat, a: Action)
    requires s'.locks == Locks(s, t, a)
    requires a.Lock? ==> s.locks(a.m).Free? || s.locks(a.m).t == t
    requires a.Unlock? ==> a.m in HeldBy(s, t)
    ensures HeldBy(s', t) == After(a, HeldBy(s, t))
  {
    if a.Lock? {
      DepthAfterLock(s, s', t, a.m);
    } else if a.Unlock? {
      HeldByCounts(s, t, a.m);
      DepthAfterUnlock(s, s', t, a.m);
    } else {
      SameDepthsSameHeld(s, s', t);
    }
  }

  /** What another thread holds stays the same. */
  lemma HeldByOthers(s: State, s': State, t: nat, a: Action, u: nat)
    requires s'.locks == Locks(s, t, a) && u != t
    requires a.Lock? ==> s.locks(a.m).Free? || s.locks(a.m).t == t
    ensures HeldBy(s', u) == HeldBy(s, u)
  {
    forall m ensures Depth(s', m, u) == Depth(s, m, u) {}
    SameDepthsSameHeld(s, s', u);
  }

  /** What one action of thread t does to the state, as far as the threads' scripts and loads go. */
  ghost predicate Moved(s: State, s': State, t: nat) {
    && t < |s.threads| == |s'.threads| && s.threads[t].script != []
    && var a, th := s.threads[t].script[0], s'.threads[t];
    && s'.locks == Locks(s, t, a)
    && th.script == s.threads[t].script[1..]
    && (a.Load? ==> th.local == s.lists(a.m))
    && (a.LoadCount? ==> th.count == s.fileCount)
    && (forall u :: 0 <= u < |s.threads| && u != t ==> s'.threads[u] == s.threads[u])
    && (forall m :: !(a.Store? && a.m == m) ==> s'.lists(m) == s.lists(m))
    && (!a.StoreCount? ==> s'.fileCount == s.fileCount)
  }

  lemma NextMoves(kinds: Kinds, s: State, t: nat, call: Call)
    requires t < |s.threads| && s.threads[t].script != [] && Enabled(s, t)
    ensures Moved(s, Next(kinds, s, t, call), t)
  {
  }

  /** Thread t is in a call and its next action is allowed and not blocked. */
  ghost predicate Acts(s: State, t: nat) {
    t < |s.threads| && s.threads[t].script != [] && Enabled(s, t) && ThreadOk(s, t)
  }

  /** Only a store on what u has loaded could spoil it, and the mover would have to hold the mutex that u holds. */
  lemma OthersStayOk(s: State, s': State, t: nat, u: nat)
    requires Acts(s, t) && Moved(s, s', t) && u < |s.threads| && u != t && ThreadOk(s, u)
    ensures ThreadOk(s', u)
  {
    var script := s.threads[u].script;
    HeldByOthers(s, s', t, s.threads[t].script[0], u);
    if StoresListFirst(script) { NotBothHold(s, t, u, script[0].m); }
    if StoresCountFirst(script) { NotBothHold(s, t, u, Handles); }
  }

  lemma MoverStaysOk(s: State, s': State, t: nat)
    requires Acts(s, t) && Moved(s, s', t)
    ensures ThreadOk(s', t)
  {
    HeldAfter(s, s', t, s.threads[t].script[0]);
  }

  /** A thread that starts a call touches nothing. */
  lemma StarterStaysOk(kinds: Kinds, s: State, t: nat, call: Call, u: nat)
    requires t < |s.threads| && u < |s.threads| && Idle(s, t) && ThreadOk(s, u) && ThreadOk(s, t)
    ensures ThreadOk(Next(kinds, s, t, call), u)
  {
    ScriptsAreDisciplined(call);
    SameDepthsSameHeld(s, Next(kinds, s, t, call), u);
  }

  lemma ThreadsStayOkMoved(s: State, s': State, t: nat, u: nat)
    requires Acts(s, t) && Moved(s, s', t) && u < |s.threads| && ThreadOk(s, u)
    ensures ThreadOk(s', u)
  {
    if u == t { MoverStaysOk(s, s', t); } else { OthersStayOk(s, s', t, u); }
  }

  lemma ThreadsStayOk(kinds: Kinds, s: State, t: nat, call: Call, u: nat)
    requires Inv(kinds, s) && u < |s.threads|
    ensures var s' := Next(kinds, s, t, call); |s'.threads| == |s.threads| && ThreadOk(s', u)
  {
    assert ThreadOk(s, u);
    if Enabled(s, t) {
      assert ThreadOk(s, t);
      if Idle(s, t) {
        StarterStaysOk(kinds, s, t, call, u);
      } else {
        NextMoves(kinds, s, t, call);
        ThreadsStayOkMoved(s, Next(kinds, s, t, call), t, u);
      }
    }
  }

  /** Thread t is about to store on list m. */
  predicate StoresOn(s: State, t: nat, m: Mutex) {
    t < |s.threads| && StoresListFirst(s.threads[t].script) && s.threads[t].script[0].m == m
  }

  lemma ListsStay(kinds: Kinds, s: State, t: nat, call: Call, m: Mutex)
    requires !StoresOn(s, t, m)
    ensures var s' := Next(kinds, s, t, call);
            s'.lists(m) == s.lists(m) && s'.log(m) == s.log(m) && s'.answers(m) == s.answers(m)
    ensures var s' := Next(kinds, s, t, call);
            && |s'.threads| == |s.threads|
            && forall u :: 0 <= u < |s.threads| ==> s'.threads[u].results(m) == s.threads[u].results(m)
  {
  }

  lemma ListsStayOk(kinds: Kinds, s: State, t: nat, call: Call, m: Mutex)
    requires Inv(kinds, s)
    ensures ListOk(kinds, Next(kinds, s, t, call), m)
  {
    assert ListOk(kinds, s, m);
    if StoresOn(s, t, m) {
      assert ThreadOk(s, t);
      var op := s.threads[t].script[0].op;
      RunAppend(kinds(m), [], Ops(s.log(m)), op);
      assert Ops(s.log(m) + [Entry(t, op)]) == Ops(s.log(m)) + [op];
    } else {
      ListsStay(kinds, s, t, call, m);
    }
  }

  lemma ResultsStayOk(kinds: Kinds, s: State, t: nat, call: Call, u: nat, m: Mutex)
    requires u < |s.threads| && ResultsOk(s, u, m) && |s.log(m)| == |s.answers(m)|
    ensures var s' := Next(kinds, s, t, call); |s'.threads| == |s.threads| && ResultsOk(s', u, m)
  {
    if StoresOn(s, t, m) {
      var op := s.threads[t].script[0].op;
      var answer := Step(kinds(m), s.threads[t].local, op).answer;
      AnswersForOneMore(u, s.log(m), s.answers(m), Entry(t, op), answer);
    } else {
      ListsStay(kinds, s, t, call, m);
    }
  }

  lemma CountStaysOk(kinds: Kinds, s: State, t: nat, call: Call)
    requires t < |s.threads| ==> ThreadOk(s, t)
    requires s.fileCount == s.raised
    ensures var s' := Next(kinds, s, t, call); s'.fileCount == s'.raised
  {
  }

  lemma LocksStayOk(kinds: Kinds, s: State, t: nat, call: Call, m: Mutex)
    requires Inv(kinds, s)
    ensures LockOk(Next(kinds, s, t, call), m)
  {
    assert LockOk(s, m);
  }

  lemma NextKeepsInv(kinds: Kinds, s: State, t: nat, call: Call)
    requires Inv(kinds, s)
    ensures Inv(kinds, Next(kinds, s, t, call))
    ensures |Next(kinds, s, t, call).threads| == |s.threads|
  {
    var s' := Next(kinds, s, t, call);
    forall u | 0 <= u < |s'.threads| ensures ThreadOk(s', u) { ThreadsStayOk(kinds, s, t, call, u); }
    forall m ensures ListOk(kinds, s', m) && LockOk(s', m) {
      ListsStayOk(kinds, s, t, call, m);
      LocksStayOk(kinds, s, t, call, m);
    }
    forall u, m | 0 <= u < |s'.threads| ensures ResultsOk(s', u, m) {
      assert ListOk(kinds, s, m) && ResultsOk(s, u, m);
      ResultsStayOk(kinds, s, t, call, u, m);
    }
    CountStaysOk(kinds, s, t, call);
  }

  lemma InitIsOk(kinds: Kinds, n: nat)
    ensures Inv(kinds, Init(n))
  {
  }

  lemma {:induction false} InvHolds(kinds: Kinds, n: nat, schedule: seq<Choice>)
    ensures Inv(kinds, Play(kinds, Init(n), schedule))
    ensures |Play(kinds, Init(n), schedule).threads| == n
    decreases |schedule|
  {
    InitIsOk(kinds, n);
    if schedule != [] {
      var rest, last := schedule[..|schedule| - 1], schedule[|schedule| - 1];
      InvHolds(kinds, n, rest);
      NextKeepsInv(kinds, Play(kinds, Init(n), rest), last.t, last.call);
    }
  }

  // ----- What holds in every reachable state -----

  /** Thread t is about to read or write the list under m. */
  predicate Accessing(s: State, t: nat, m: Mutex) {
    t < |s.threads| && var script := s.threads[t].script;
    script != [] && (script[0].Load? || script[0].Store?) && script[0].m == m
  }

  predicate Idle(s: State, t: nat) {
    t < |s.threads| && s.threads[t].script == []
  }

  /** A list is read and written only by the thread that owns its mutex, so by one thread at a time. */
  lemma AccessIsExclusive(kinds: Kinds, n: nat, schedule: seq<Choice>, t: nat, u: nat, m: Mutex)
    ensures var s := Play(kinds, Init(n), schedule);
            && (Accessing(s, t, m) ==> Depth(s, m, t) > 0)
            && (Accessing(s, t, m) && Accessing(s, u, m) ==> t == u)
  {
    InvHolds(kinds, n, schedule);
    var s := Play(kinds, Init(n), schedule);
    if t < n { assert ThreadOk(s, t); HeldByCounts(s, t, m); }
    if u < n { assert ThreadOk(s, u); HeldByCounts(s, u, m); }
  }

  /** Once a thread's outermost call has ended it holds no mutex: every depth is back to zero. */
  lemma IdleThreadsHoldNothing(kinds: Kinds, n: nat, schedule: seq<Choice>, t: nat, m: Mutex)
    ensures var s := Play(kinds, Init(n), schedule); Idle(s, t) ==> Depth(s, m, t) == 0
  {
    InvHolds(kinds, n, schedule);
    var s := Play(kinds, Init(n), schedule);
    if t < n {
      assert ThreadOk(s, t);
      HeldByCounts(s, t, m);
    }
  }

  /** Whatever the interleaving, each registry's list is that of its calls made one after the other, in the
      order they took effect, and each thread has got, in order, the answers this run gives its calls. */
  lemma ConcurrentCallsAreSequential(kinds: Kinds, n: nat, schedule: seq<Choice>, m: Mutex)
    ensures var s := Play(kinds, Init(n), schedule);
            var r := Run(kinds(m), [], Ops(s.log(m)));
            && s.lists(m) == r.state && |r.answers| == |s.log(m)|
            && forall t :: 0 <= t < |s.threads| ==> s.threads[t].results(m) == AnswersFor(t, s.log(m), r.answers)
  {
    InvHolds(kinds, n, schedule);
    InvIsSequential(kinds, Play(kinds, Init(n), schedule), m);
  }

  lemma InvIsSequential(kinds: Kinds, s: State, m: Mutex)
    requires Inv(kinds, s)
    ensures var r := Run(kinds(m), [], Ops(s.log(m)));
            && s.lists(m) == r.state && |r.answers| == |s.log(m)|
            && forall t :: 0 <= t < |s.threads| ==> s.threads[t].results(m) == AnswersFor(t, s.log(m), r.answers)
  {
    assert ListOk(kinds, s, m);
    forall t | 0 <= t < |s.threads| ensures s.threads[t].results(m) == AnswersFor(t, s.log(m), s.answers(m)) {
      assert ResultsOk(s, t, m);
    }
  }

  /** Raising the count of error files under the mutex loses no raise. */
  lemma NoRaiseIsLost(kinds: Kinds, n: nat, schedule: seq<Choice>)
    ensures var s := Play(kinds, Init(n), schedule); s.fileCount == s.raised
  {
    InvHolds(kinds, n, schedule);
  }

  /** The thread that blocks t, if t is blocked. */
  function Blocker(s: State, t: nat): nat
    requires t < |s.threads| && !Enabled(s, t)
  {
    s.locks(s.threads[t].script[0].m).t
  }

  lemma BlockerIsBusy(kinds: Kinds, s: State, t: nat)
    requires Inv(kinds, s) && t < |s.threads| && !Enabled(s, t)
    ensures var o := Blocker(s, t); o < |s.threads| && o != t && !Idle(s, o)
    ensures var o := Blocker(s, t); !Enabled(s, o) ==>
              Rank(s.threads[t].script[0].m) < Rank(s.threads[o].script[0].m)
  {
    var m, o := s.threads[t].script[0].m, Blocker(s, t);
    assert LockOk(s, m);
    assert ThreadOk(s, o);
    HeldByCounts(s, o, m);
    if !Enabled(s, o) { HeldByCounts(s, o, s.threads[o].script[0].m); }
  }

  /** Thread t is in a call and able to take its next step. */
  predicate CanMove(s: State, t: nat) {
    t < |s.threads| && !Idle(s, t) && Enabled(s, t)
  }

  /** No deadlock: a blocked thread waits for a thread that can move, or for one that waits for one that can. */
  lemma NoDeadlock(kinds: Kinds, s: State, t: nat)
    requires Inv(kinds, s) && t < |s.threads| && !Enabled(s, t)
    ensures var o := Blocker(s, t);
            o < |s.threads| && (CanMove(s, o) || (!Enabled(s, o) && CanMove(s, Blocker(s, o))))
  {
    var o := Blocker(s, t);
    BlockerIsBusy(kinds, s, t);
    if !Enabled(s, o) {
      BlockerIsBusy(kinds, s, o);
    }
  }

  /** Steps left in the calls under way among the first n threads. */
  function Remaining(threads: seq<Thread>): nat {
    if threads == [] then 0 else |threads[0].script| + Remaining(threads[1..])
  }

  lemma {:induction false} RemainingAfterUpdate(threads: seq<Thread>, t: nat, th: Thread)
    requires t < |threads|
    ensures Remaining(threads[t := th]) == Remaining(threads) - |threads[t].script| + |th.script|
  {
    if t == 0 {
      assert threads[t := th][1..] == threads[1..];
    } else {
      RemainingAfterUpdate(threads[1..], t - 1, th);
      assert threads[t := th][1..] == threads[1..][t - 1 := th];
    }
  }

  lemma {:induction false} NothingRemains(threads: seq<Thread>, t: nat)
    requires Remaining(threads) == 0 && t < |threads|
    ensures threads[t].script == []
  {
    if t > 0 { NothingRemains(threads[1..], t - 1); }
  }

  lemma {:induction false} SomethingRemains(threads: seq<Thread>) returns (t: nat)
    requires Remaining(threads) > 0
    ensures t < |threads| && threads[t].script != []
  {
    if threads[0].script != [] {
      t := 0;
    } else {
      t := SomethingRemains(threads[1..]);
      t := t + 1;
    }
  }

  lemma SomeoneCanMove(kinds: Kinds, s: State) returns (t: nat)
    requires Inv(kinds, s) && Remaining(s.threads) > 0
    ensures CanMove(s, t)
  {
    t := SomethingRemains(s.threads);
    if !Enabled(s, t) {
      NoDeadlock(kinds, s, t);
      t := if Enabled(s, Blocker(s, t)) then Blocker(s, t) else Blocker(s, Blocker(s, t));
    }
  }

  /** With no call under way every mutex is free. */
  lemma NothingUnderWay(kinds: Kinds, s: State)
    requires Inv(kinds, s) && Remaining(s.threads) == 0
    ensures forall t :: 0 <= t < |s.threads| ==> Idle(s, t)
    ensures forall m :: s.locks(m).Free?
  {
    forall t | 0 <= t < |s.threads| ensures Idle(s, t) { NothingRemains(s.threads, t); }
    forall m ensures s.locks(m).Free? {
      assert LockOk(s, m);
      if s.locks(m).Owned? {
        var t := s.locks(m).t;
        assert Idle(s, t) && ThreadOk(s, t);
        HeldByCounts(s, t, m);
        assert false;
      }
    }
  }

  /** A step of a thread in a call is one step less to go. */
  lemma MovesCountDown(kinds: Kinds, s: State, t: nat, call: Call)
    requires CanMove(s, t)
    ensures Remaining(Next(kinds, s, t, call).threads) == Remaining(s.threads) - 1
  {
    var s' := Next(kinds, s, t, call);
    RemainingAfterUpdate(s.threads, t, s'.threads[t]);
    assert s'.threads == s.threads[t := s'.threads[t]];
  }

  /** Each move of the schedule is a step of a thread that is in a call and not blocked. */
  predicate AllMove(kinds: Kinds, s: State, schedule: seq<Choice>)
    decreases |schedule|
  {
    schedule == [] ||
    var rest, last := schedule[..|schedule| - 1], schedule[|schedule| - 1];
    AllMove(kinds, s, rest) && CanMove(Play(kinds, s, rest), last.t)
  }

  lemma {:induction false} BusySchedulesCountDown(kinds: Kinds, s: State, schedule: seq<Choice>)
    requires Inv(kinds, s) && AllMove(kinds, s, schedule)
    ensures var s' := Play(kinds, s, schedule);
            Inv(kinds, s') && Remaining(s'.threads) == Remaining(s.threads) - |schedule|
    decreases |schedule|
  {
    if schedule != [] {
      var rest, last := schedule[..|schedule| - 1], schedule[|schedule| - 1];
      BusySchedulesCountDown(kinds, s, rest);
      NextKeepsInv(kinds, Play(kinds, s, rest), last.t, last.call);
      MovesCountDown(kinds, Play(kinds, s, rest), last.t, last.call);
    }
  }

  /** However the scheduler picks among the threads that can move, the calls under way end: such a schedule
      has at most the remaining steps, and when no thread can move any more, exactly these have been made,
      every thread is idle and every mutex free. */
  lemma EveryMaximalScheduleCompletes(kinds: Kinds, s: State, schedule: seq<Choice>)
    requires Inv(kinds, s) && AllMove(kinds, s, schedule)
    ensures |schedule| <= Remaining(s.threads)
    ensures var s' := Play(kinds, s, schedule);
            (forall t :: !CanMove(s', t)) ==>
              && |schedule| == Remaining(s.threads)
              && (forall t :: 0 <= t < |s'.threads| ==> Idle(s', t))
              && (forall m :: s'.locks(m).Free?)
  {
    BusySchedulesCountDown(kinds, s, schedule);
    var s' := Play(kinds, s, schedule);
    if forall t :: !CanMove(s', t) {
      if Remaining(s'.threads) > 0 {
        var t := SomeoneCanMove(kinds, s');
        assert false;
      }
      NothingUnderWay(kinds, s');
    }
  }

  lemma {:induction false} PlayConcat(kinds: Kinds, s: State, a: seq<Choice>, b: seq<Choice>)
    ensures Play(kinds, s, a + b) == Play(kinds, Play(kinds, s, a), b)
    decreases |b|
  {
    if b == [] {
      assert a + b == a;
    } else {
      PlayConcat(kinds, s, a, b[..|b| - 1]);
      assert (a + b)[..|a + b| - 1] == a + b[..|b| - 1];
    }
  }

  /** From any state, some schedule of exactly the remaining steps completes every call under way and
      leaves every mutex free. */
  lemma {:induction false} EveryCallCanComplete(kinds: Kinds, s: State) returns (schedule: seq<Choice>)
    requires Inv(kinds, s)
    ensures |schedule| == Remaining(s.threads)
    ensures var s' := Play(kinds, s, schedule);
            && (forall t :: 0 <= t < |s'.threads| ==> Idle(s', t))
            && (forall m :: s'.locks(m).Free?)
    decreases Remaining(s.threads)
  {
    if Remaining(s.threads) == 0 {
      schedule := [];
      NothingUnderWay(kinds, s);
    } else {
      var t := SomeoneCanMove(kinds, s);
      var first := Choice(t, One(Handles, Get(0)));
      var s1 := Next(kinds, s, t, first.call);
      NextKeepsInv(kinds, s, t, first.call);
      MovesCountDown(kinds, s, t, first.call);
      var rest := EveryCallCanComplete(kinds, s1);
      schedule := [first] + rest;
      assert Play(kinds, s, [first][..0]) == s;
      PlayConcat(kinds, s, [first], rest);
    }
  }
}
