/** What the log of LockProtocol has to do with the calls that threads make: each thread's operations take
    effect in the order in which it makes its calls, and none is lost or made up. */
module CallOrder {
  import opened LockProtocol
  import opened SlotList

  /** The calls thread t has started, after one more step. */
  function WithCall(calls: seq<Call>, s: State, last: Choice, t: nat): seq<Call> {
    calls + if last.t == t && Idle(s, t) then [last.call] else []
  }

  /** The calls thread t starts along a schedule, in order. */
  function Started(kinds: Kinds, s: State, schedule: seq<Choice>, t: nat): seq<Call>
    decreases |schedule|
  {
    if schedule == [] then []
    else
      var rest, last := schedule[..|schedule| - 1], schedule[|schedule| - 1];
      WithCall(Started(kinds, s, rest, t), Play(kinds, s, rest), last, t)
  }

  /** The operations on the list under m that a script still has to make. */
  function OpsOn(script: seq<Action>, m: Mutex): seq<Op> {
    if script == [] then []
    else (if StoresTo(script[0], m) then [script[0].op] else []) + OpsOn(script[1..], m)
  }

  predicate StoresTo(a: Action, m: Mutex) {
    a.Store? && a.m == m
  }

  /** An operation on the list under m. */
  datatype Operation = Operation(m: Mutex, op: Op)

  /** What a call does to the lists, in order, whatever its script: its one operation; or a look at the handle and,
      if the iterator is made, its push; or a look at the handle. */
  function Operations(call: Call): seq<Operation> {
    match call
    case One(m, op) => [Operation(m, op)]
    case NewIterator(keys, gid, made, iter) =>
      [Operation(Handles, Get(gid))]
      + if made then [Operation(if keys then KeysIterators else Iterators, Push(iter, 0))] else []
    case WriteOnFail(gid) => [Operation(Handles, Get(gid))]
  }

  /** What a script stores, in order. */
  function Stores(script: seq<Action>): seq<Operation> {
    if script == [] then []
    else StoredBy(script[0]) + Stores(script[1..])
  }

  function StoredBy(a: Action): seq<Operation> {
    if a.Store? then [Operation(a.m, a.op)] else []
  }

  lemma {:induction false} StoresConcat(a: seq<Action>, b: seq<Action>)
    ensures Stores(a + b) == Stores(a) + Stores(b)
  {
    if a == [] {
      assert a + b == b;
    } else {
      StoresConcat(a[1..], b);
      assert (a + b)[1..] == a[1..] + b && (a + b)[0] == a[0];
      Regroup(StoredBy(a[0]), Stores(a[1..]), Stores(b));
    }
  }

  lemma Regroup<T>(a: seq<T>, b: seq<T>, c: seq<T>)
    ensures (a + b) + c == a + (b + c)
  {
  }

  lemma LockedStores(m: Mutex, op: Op)
    ensures Stores(Locked(m, op)) == [Operation(m, op)]
  {
    var s := Locked(m, op);
    assert s[1..] == [Load(m), Store(m, op), Unlock(m)];
    assert s[2..] == [Store(m, op), Unlock(m)] && s[3..] == [Unlock(m)];
    assert Stores(s[3..]) == [] && Stores(s[2..]) == [Operation(m, op)] by { assert s[3..][1..] == []; }
  }

  lemma OneStoresNothing(a: Action)
    requires !a.Store?
    ensures Stores([a]) == []
  {
    assert [a][1..] == [];
  }

  lemma NewIteratorStores(keys: bool, gid: int, made: bool, iter: Ptr)
    ensures var call := NewIterator(keys, gid, made, iter); Stores(Script(call)) == Operations(call)
  {
    var m, end := if keys then KeysIterators else Iterators, [Unlock(if keys then KeysIterators else Iterators)];
    var rest := (if made then Locked(m, Push(iter, 0)) else []) + end;
    NewIteratorScript(keys, gid, made, iter);
    StoresConcat([Lock(m)], IteratorPart(m, gid, made, iter));
    OneStoresNothing(Lock(m));
    OneStoresNothing(Unlock(m));
    LockedThenStores(Handles, Get(gid), rest);
    if made { LockedThenStores(m, Push(iter, 0), end); } else { assert rest == end; }
  }

  lemma LockedThenStores(m: Mutex, op: Op, tail: seq<Action>)
    ensures Stores(Locked(m, op) + tail) == [Operation(m, op)] + Stores(tail)
  {
    StoresConcat(Locked(m, op), tail);
    LockedStores(m, op);
  }

  lemma WriteOnFailStores(gid: int)
    ensures Stores(Script(WriteOnFail(gid))) == Operations(WriteOnFail(gid))
  {
    var count := [Lock(Handles), LoadCount, StoreCount, Unlock(Handles), NameFile];
    StoresConcat(count, Locked(Handles, Get(gid)));
    LockedStores(Handles, Get(gid));
    assert count == [Lock(Handles)] + ([LoadCount] + ([StoreCount] + ([Unlock(Handles)] + [NameFile])));
    StoresConcat([Lock(Handles)], [LoadCount] + ([StoreCount] + ([Unlock(Handles)] + [NameFile])));
    StoresConcat([LoadCount], [StoreCount] + ([Unlock(Handles)] + [NameFile]));
    StoresConcat([StoreCount], [Unlock(Handles)] + [NameFile]);
    StoresConcat([Unlock(Handles)], [NameFile]);
    OneStoresNothing(Lock(Handles));
    OneStoresNothing(LoadCount);
    OneStoresNothing(StoreCount);
    OneStoresNothing(Unlock(Handles));
    OneStoresNothing(NameFile);
  }

  /** A call's script does to the lists what the call does, once and in that order. */
  lemma ScriptsDoTheirCalls(call: Call)
    ensures Stores(Script(call)) == Operations(call)
  {
    match call
    case One(m, op) => LockedStores(m, op);
    case NewIterator(keys, gid, made, iter) => NewIteratorStores(keys, gid, made, iter);
    case WriteOnFail(gid) => WriteOnFailStores(gid);
  }

  /** A dump raises the count of error files once and names one file after that; no other call does either. */
  lemma OnlyDumpsCount(call: Call)
    ensures var s := Script(call);
            && (call.WriteOnFail? ==> |s| > 4 && s[2] == StoreCount && s[4] == NameFile)
            && forall i :: 0 <= i < |s| ==>
                 (s[i].StoreCount? ==> call.WriteOnFail? && i == 2) && (s[i].NameFile? ==> call.WriteOnFail? && i == 4)
  {
  }

  /** From depth d on, m stays held until the script ends, which lets it go. */
  predicate HeldToTheEnd(script: seq<Action>, m: Mutex, d: int) {
    if script == [] then d == 0
    else
      var d' := if script[0] == Lock(m) then d + 1 else if script[0] == Unlock(m) then d - 1 else d;
      d >= 1 && HeldToTheEnd(script[1..], m, d')
  }

  lemma HeldOn(a: Action, rest: seq<Action>, m: Mutex, d: int)
    requires d >= 1
    requires HeldToTheEnd(rest, m, if a == Lock(m) then d + 1 else if a == Unlock(m) then d - 1 else d)
    ensures HeldToTheEnd([a] + rest, m, d)
  {
    assert ([a] + rest)[1..] == rest;
  }

  lemma HeldOverLocked(x: Mutex, op: Op, tail: seq<Action>, m: Mutex, d: int)
    requires d >= 1 && HeldToTheEnd(tail, m, d)
    ensures HeldToTheEnd(Locked(x, op) + tail, m, d)
  {
    var inside := if x == m then d + 1 else d;
    HeldOn(Unlock(x), tail, m, inside);
    HeldOn(Store(x, op), [Unlock(x)] + tail, m, inside);
    HeldOn(Load(x), [Store(x, op)] + ([Unlock(x)] + tail), m, inside);
    HeldOn(Lock(x), Inside(x, op, tail), m, d);
    LockedThen(x, op, tail);
  }

  /** A new iterator is looked for and pushed all under the mutex of its registry. */
  lemma IteratorsAreMadeUnderTheirMutex(keys: bool, gid: int, made: bool, iter: Ptr)
    ensures var m, s := if keys then KeysIterators else Iterators, Script(NewIterator(keys, gid, made, iter));
            s[0] == Lock(m) && HeldToTheEnd(s[1..], m, 1)
  {
    var m := if keys then KeysIterators else Iterators;
    var tail := (if made then Locked(m, Push(iter, 0)) else []) + [Unlock(m)];
    assert [Unlock(m)] + [] == [Unlock(m)] && [] + [Unlock(m)] == [Unlock(m)];
    HeldOn(Unlock(m), [], m, 1);
    HeldOverLocked(m, Push(iter, 0), [Unlock(m)], m, 1);
    HeldOverLocked(Handles, Get(gid), tail, m, 1);
    NewIteratorScript(keys, gid, made, iter);
  }

  /** Those of the operations that are on the list under m. */
  function OpsAt(done: seq<Operation>, m: Mutex): seq<Op> {
    if done == [] then [] else (if done[0].m == m then [done[0].op] else []) + OpsAt(done[1..], m)
  }

  lemma {:induction false} OpsOnAreStores(script: seq<Action>, m: Mutex)
    ensures OpsOn(script, m) == OpsAt(Stores(script), m)
  {
    if script != [] {
      OpsOnAreStores(script[1..], m);
      if script[0].Store? {
        var x := Operation(script[0].m, script[0].op);
        assert ([x] + Stores(script[1..]))[1..] == Stores(script[1..]);
      } else {
        assert [] + Stores(script[1..]) == Stores(script[1..]);
      }
    }
  }

  /** The operations on the list under m that calls consist of. */
  function CallOps(calls: seq<Call>, m: Mutex): seq<Op>
    decreases |calls|
  {
    if calls == [] then []
    else
      var n := |calls| - 1;
      CallOps(calls[..n], m) + OpsAt(Operations(calls[n]), m)
  }

  /** The logged operations of thread t. */
  function LoggedBy(t: nat, log: seq<Entry>): seq<Op>
    decreases |log|
  {
    if log == [] then []
    else
      var n := |log| - 1;
      LoggedBy(t, log[..n]) + if log[n].t == t then [log[n].op] else []
  }

  lemma LoggedOneMore(t: nat, log: seq<Entry>, e: Entry)
    ensures LoggedBy(t, log + [e]) == LoggedBy(t, log) + if e.t == t then [e.op] else []
  {
    assert (log + [e])[..|log|] == log;
  }

  lemma CallsOneMore(calls: seq<Call>, call: Call, m: Mutex)
    ensures CallOps(calls + [call], m) == CallOps(calls, m) + OpsOn(Script(call), m)
  {
    assert (calls + [call])[..|calls|] == calls;
    ScriptsDoTheirCalls(call);
    OpsOnAreStores(Script(call), m);
  }

  /** A store logs its operation and is done. */
  lemma StoreLogs(kinds: Kinds, s: State, t: nat, call: Call, m: Mutex)
    requires StoresOn(s, t, m)
    ensures var s' := Next(kinds, s, t, call);
            && s'.log(m) == s.log(m) + [Entry(t, s.threads[t].script[0].op)]
            && |s'.threads| == |s.threads| && s'.threads[t].script == s.threads[t].script[1..]
            && forall u :: 0 <= u < |s.threads| && u != t ==> s'.threads[u] == s.threads[u]
  {
  }

  /** Any other step leaves the log of m and what the scripts still do to m. */
  lemma OtherStepsKeepOps(kinds: Kinds, s: State, t: nat, call: Call, u: nat, m: Mutex)
    requires u < |s.threads| && !(u == t && Idle(s, u)) && !StoresOn(s, t, m)
    ensures var s' := Next(kinds, s, t, call);
            |s'.threads| == |s.threads| && OpsOn(s'.threads[u].script, m) == OpsOn(s.threads[u].script, m)
  {
  }

  /** A step moves what it stores from the script to the log. */
  lemma StepLogs(kinds: Kinds, s: State, t: nat, call: Call, u: nat, m: Mutex)
    requires u < |s.threads| && !(u == t && Idle(s, u))
    ensures var s' := Next(kinds, s, t, call);
            && |s'.threads| == |s.threads|
            && LoggedBy(u, s'.log(m)) + OpsOn(s'.threads[u].script, m)
               == LoggedBy(u, s.log(m)) + OpsOn(s.threads[u].script, m)
  {
    if StoresOn(s, t, m) {
      StoreLogs(kinds, s, t, call, m);
      LoggedOneMore(u, s.log(m), Entry(t, s.threads[t].script[0].op));
    } else {
      ListsStay(kinds, s, t, call, m);
      OtherStepsKeepOps(kinds, s, t, call, u, m);
    }
  }

  lemma StartLogs(kinds: Kinds, s: State, t: nat, call: Call, m: Mutex)
    requires Idle(s, t)
    ensures var s' := Next(kinds, s, t, call);
            |s'.threads| == |s.threads| && s'.log(m) == s.log(m) && s'.threads[t].script == Script(call)
  {
  }

  lemma OneMoreStep(kinds: Kinds, s: State, last: Choice, t: nat, m: Mutex, calls: seq<Call>)
    requires t < |s.threads| && CallOps(calls, m) == LoggedBy(t, s.log(m)) + OpsOn(s.threads[t].script, m)
    ensures var s' := Next(kinds, s, last.t, last.call);
            && |s'.threads| == |s.threads|
            && CallOps(WithCall(calls, s, last, t), m) == LoggedBy(t, s'.log(m)) + OpsOn(s'.threads[t].script, m)
  {
    if last.t == t && Idle(s, t) {
      StartLogs(kinds, s, t, last.call, m);
      CallsOneMore(calls, last.call, m);
    } else {
      StepLogs(kinds, s, last.t, last.call, t, m);
      assert calls + [] == calls;
    }
  }

  /** On every list the operations of the calls a thread has started are, in order, those the log has of it
      and those its call under way has still to make. */
  lemma {:induction false} StartedCallsAreLogged(kinds: Kinds, n: nat, schedule: seq<Choice>, t: nat, m: Mutex)
    requires t < n
    ensures var s := Play(kinds, Init(n), schedule);
            && |s.threads| == n
            && CallOps(Started(kinds, Init(n), schedule, t), m)
               == LoggedBy(t, s.log(m)) + OpsOn(s.threads[t].script, m)
    decreases |schedule|
  {
    InvHolds(kinds, n, schedule);
    if schedule != [] {
      var rest, last := schedule[..|schedule| - 1], schedule[|schedule| - 1];
      StartedCallsAreLogged(kinds, n, rest, t, m);
      OneMoreStep(kinds, Play(kinds, Init(n), rest), last, t, m, Started(kinds, Init(n), rest, t));
    }
  }

  /** Thread t's answers on a list are those to its logged operations, one each. */
  lemma {:induction false} OneAnswerEach(t: nat, log: seq<Entry>, answers: seq<Answer>)
    requires |log| == |answers|
    ensures |AnswersFor(t, log, answers)| == |LoggedBy(t, log)|
    decreases |log|
  {
    if log != [] { OneAnswerEach(t, log[..|log| - 1], answers[..|log| - 1]); }
  }

  /** A thread that has come to the end of its calls has had all their operations take effect, in order, and
      an answer to each. */
  lemma IdleThreadsHaveTheirAnswers(kinds: Kinds, n: nat, schedule: seq<Choice>, t: nat, m: Mutex)
    requires t < n && Idle(Play(kinds, Init(n), schedule), t)
    ensures var s := Play(kinds, Init(n), schedule);
            && CallOps(Started(kinds, Init(n), schedule, t), m) == LoggedBy(t, s.log(m))
            && |s.threads[t].results(m)| == |LoggedBy(t, s.log(m))|
  {
    StartedCallsAreLogged(kinds, n, schedule, t, m);
    InvHolds(kinds, n, schedule);
    var s := Play(kinds, Init(n), schedule);
    assert ListOk(kinds, s, m) && ResultsOk(s, t, m);
    OneAnswerEach(t, s.log(m), s.answers(m));
  }
}
