/** The names of the error files that `grib_f_write_on_fail` in grib-api/fortran/grib_fortran.c writes: the
    process id and a count that is raised under the handle mutex, and read again after it. */
module ErrorFiles {
  import opened LockProtocol

  /** A file named: by which thread, with which count. */
  datatype Named = Named(t: nat, number: nat)

  /** The files named along a schedule, in order. */
  function Given(kinds: Kinds, s: State, schedule: seq<Choice>): seq<Named>
    decreases |schedule|
  {
    if schedule == [] then []
    else
      var rest, t := schedule[..|schedule| - 1], schedule[|schedule| - 1].t;
      var now := Play(kinds, s, rest);
      Given(kinds, s, rest) + if Naming(now, t) then [Named(t, now.fileCount)] else []
  }

  /** Thread t names its file next. */
  predicate Naming(s: State, t: nat) {
    t < |s.threads| && s.threads[t].script != [] && s.threads[t].script[0].NameFile?
  }

  function NumbersOf(t: nat, given: seq<Named>): seq<nat>
    decreases |given|
  {
    if given == [] then []
    else
      var n := |given| - 1;
      NumbersOf(t, given[..n]) + if given[n].t == t then [given[n].number] else []
  }

  // ----- Dumps that have raised the count and not yet named their file -----

  predicate Owes(script: seq<Action>) {
    script != [] && !script[0].StoreCount? && (script[0].NameFile? || Owes(script[1..]))
  }

  function Pending(threads: seq<Thread>): nat {
    if threads == [] then 0 else (if Owes(threads[0].script) then 1 else 0) + Pending(threads[1..])
  }

  lemma {:induction false} PendingAfterUpdate(threads: seq<Thread>, t: nat, th: Thread)
    requires t < |threads|
    ensures Pending(threads[t := th]) + (if Owes(threads[t].script) then 1 else 0)
         == Pending(threads) + (if Owes(th.script) then 1 else 0)
  {
    if t == 0 {
      assert threads[t := th][1..] == threads[1..];
    } else {
      PendingAfterUpdate(threads[1..], t - 1, th);
      assert threads[t := th][1..] == threads[1..][t - 1 := th];
    }
  }

  lemma {:induction false} OwerIsPending(threads: seq<Thread>, t: nat)
    requires t < |threads| && Owes(threads[t].script)
    ensures Pending(threads) >= 1
  {
    if t > 0 { OwerIsPending(threads[1..], t - 1); }
  }

  /** Each raise of the count is followed by its naming before the next raise, and each naming follows one. */
  predicate Shaped(script: seq<Action>) {
    script == [] ||
    (Shaped(script[1..])
     && (script[0].StoreCount? ==> Owes(script[1..])) && (script[0].NameFile? ==> !Owes(script[1..])))
  }

  predicate Countless(script: seq<Action>) {
    forall i :: 0 <= i < |script| ==> !script[i].StoreCount? && !script[i].NameFile?
  }

  lemma {:induction false} CountlessIsShaped(script: seq<Action>)
    requires Countless(script)
    ensures Shaped(script) && !Owes(script)
  {
    if script != [] { CountlessIsShaped(script[1..]); }
  }

  lemma DumpIsShaped(tail: seq<Action>)
    requires Countless(tail)
    ensures var script := [Lock(Handles), LoadCount, StoreCount, Unlock(Handles), NameFile] + tail;
            Shaped(script) && !Owes(script)
  {
    var script := [Lock(Handles), LoadCount, StoreCount, Unlock(Handles), NameFile] + tail;
    CountlessIsShaped(tail);
    assert script[4..][1..] == tail;
    assert Shaped(script[4..]) && Owes(script[4..]);
    assert script[3..][1..] == script[4..];
    assert Shaped(script[3..]) && Owes(script[3..]);
    assert script[2..][1..] == script[3..];
    assert Shaped(script[2..]) && !Owes(script[2..]);
    assert script[1..][1..] == script[2..];
    assert Shaped(script[1..]) && !Owes(script[1..]);
  }

  lemma ScriptsAreShaped(call: Call)
    ensures Shaped(Script(call)) && !Owes(Script(call))
  {
    match call
    case One(m, op) => CountlessIsShaped(Script(call));
    case NewIterator(keys, gid, made, iter) => CountlessIsShaped(Script(call));
    case WriteOnFail(gid) => DumpIsShaped(Script(call)[5..]);
      assert Script(call) == [Lock(Handles), LoadCount, StoreCount, Unlock(Handles), NameFile] + Script(call)[5..];
  }

  predicate AllShaped(s: State) {
    forall t :: 0 <= t < |s.threads| ==> Shaped(s.threads[t].script)
  }

  // ----- The count, the names given and the names owed -----

  /** What a step does to a thread's script and to the count. */
  lemma StepCounts(kinds: Kinds, s: State, t: nat, call: Call)
    requires Inv(kinds, s) && Enabled(s, t)
    ensures var s' := Next(kinds, s, t, call);
            && |s'.threads| == |s.threads| && s'.threads == s.threads[t := s'.threads[t]]
            && var script, script' := s.threads[t].script, s'.threads[t].script;
               if script == [] then script' == Script(call) && s'.fileCount == s.fileCount
               else script' == script[1..] && s'.fileCount == s.fileCount + if script[0].StoreCount? then 1 else 0
  {
    assert ThreadOk(s, t);
  }

  /** The count always is what has been named plus what is still to be named. */
  lemma StepBalances(kinds: Kinds, s: State, t: nat, call: Call)
    requires Inv(kinds, s) && AllShaped(s)
    ensures var s' := Next(kinds, s, t, call);
            && AllShaped(s') && s'.fileCount >= s.fileCount
            && s'.fileCount + Pending(s.threads)
               == s.fileCount + Pending(s'.threads) + if Naming(s, t) then 1 else 0
    ensures Naming(s, t) ==> Pending(s.threads) >= 1
  {
    if Enabled(s, t) {
      StepCounts(kinds, s, t, call);
      ScriptsAreShaped(call);
      PendingAfterUpdate(s.threads, t, Next(kinds, s, t, call).threads[t]);
      if Naming(s, t) { OwerIsPending(s.threads, t); }
    }
  }

  lemma {:induction false} CountIsNamedAndOwed(kinds: Kinds, n: nat, schedule: seq<Choice>)
    ensures var s := Play(kinds, Init(n), schedule);
            AllShaped(s) && s.fileCount == |Given(kinds, Init(n), schedule)| + Pending(s.threads)
    decreases |schedule|
  {
    if schedule == [] {
      NothingPending(Init(n).threads);
    } else {
      var rest, last := schedule[..|schedule| - 1], schedule[|schedule| - 1];
      CountIsNamedAndOwed(kinds, n, rest);
      InvHolds(kinds, n, rest);
      StepBalances(kinds, Play(kinds, Init(n), rest), last.t, last.call);
    }
  }

  lemma {:induction false} NothingPending(threads: seq<Thread>)
    requires forall t :: 0 <= t < |threads| ==> threads[t].script == []
    ensures Pending(threads) == 0
  {
    if threads != [] { NothingPending(threads[1..]); }
  }

  /** The count, how many names are owed and the names given, after some of the moves. */
  datatype View = View(count: nat, pending: nat, given: seq<Named>)

  function ViewOf(kinds: Kinds, n: nat, schedule: seq<Choice>): View {
    var s := Play(kinds, Init(n), schedule);
    View(s.fileCount, Pending(s.threads), Given(kinds, Init(n), schedule))
  }

  /** From one move to the next the count does not fall, and a name given is the count, and was owed. */
  predicate Follows(v: View, w: View) {
    && v.count == |v.given| + v.pending && w.count == |w.given| + w.pending && v.count <= w.count
    && (w.given == v.given
        || (v.pending >= 1 && |w.given| == |v.given| + 1
            && w.given[..|v.given|] == v.given && w.given[|v.given|].number == v.count))
  }

  lemma MovesFollow(kinds: Kinds, n: nat, schedule: seq<Choice>, j: nat)
    requires j < |schedule|
    ensures Follows(ViewOf(kinds, n, schedule[..j]), ViewOf(kinds, n, schedule[..j + 1]))
  {
    var rest := schedule[..j];
    assert schedule[..j + 1][..j] == rest;
    CountIsNamedAndOwed(kinds, n, rest);
    CountIsNamedAndOwed(kinds, n, schedule[..j + 1]);
    InvHolds(kinds, n, rest);
    StepBalances(kinds, Play(kinds, Init(n), rest), schedule[j].t, schedule[j].call);
  }

  /** The views after each prefix of a schedule. */
  ghost predicate IsHistory(vs: seq<View>) {
    && vs != [] && vs[0] == View(0, 0, [])
    && forall j :: 0 <= j < |vs| - 1 ==> Follows(vs[j], vs[j + 1])
  }

  function History(kinds: Kinds, n: nat, schedule: seq<Choice>): (vs: seq<View>)
    ensures |vs| == |schedule| + 1 && forall j :: 0 <= j < |vs| ==> vs[j] == ViewOf(kinds, n, schedule[..j])
  {
    seq(|schedule| + 1, j requires 0 <= j <= |schedule| => ViewOf(kinds, n, schedule[..j]))
  }

  lemma HistoryIsOne(kinds: Kinds, n: nat, schedule: seq<Choice>)
    ensures IsHistory(History(kinds, n, schedule))
  {
    var vs := History(kinds, n, schedule);
    forall j | 0 <= j < |vs| - 1 ensures Follows(vs[j], vs[j + 1]) { MovesFollow(kinds, n, schedule, j); }
    assert schedule[..0] == [];
    NothingPending(Init(n).threads);
  }

  /** From move j on, every name given is at least the count at j, and no more than the count at k. */
  lemma {:induction false} GivenBetween(vs: seq<View>, j: nat, k: nat)
    requires IsHistory(vs) && j <= k < |vs|
    ensures vs[j].count <= vs[k].count && vs[j].given <= vs[k].given
    ensures forall i :: |vs[j].given| <= i < |vs[k].given| ==> vs[j].count <= vs[k].given[i].number <= vs[k].count
    decreases k
  {
    if j < k {
      GivenBetween(vs, j, k - 1);
      assert Follows(vs[k - 1], vs[k]);
    }
  }

  /** Names never go down, and the name of rank i is at least i + 1 and at most the count. */
  predicate Rising(given: seq<Named>, count: nat) {
    && (forall i, j :: 0 <= i < j < |given| ==> given[i].number <= given[j].number)
    && (forall i :: 0 <= i < |given| ==> i + 1 <= given[i].number <= count)
  }

  lemma {:induction false} NamesRise(vs: seq<View>, k: nat)
    requires IsHistory(vs) && k < |vs|
    ensures Rising(vs[k].given, vs[k].count)
    decreases k
  {
    if k > 0 {
      NamesRise(vs, k - 1);
      assert Follows(vs[k - 1], vs[k]);
    }
  }

  predicate AllDiffer(given: seq<Named>) {
    forall i, j :: 0 <= i < j < |given| ==> given[i].number != given[j].number
  }

  lemma {:induction false} DifferentNamesCount(given: seq<Named>, i: nat)
    requires Rising(given, |given|) && AllDiffer(given) && i < |given|
    ensures given[i].number == i + 1
    decreases |given| - i
  {
    if i + 1 < |given| { DifferentNamesCount(given, i + 1); }
  }

  /** The names are 1, 2, 3 and so on. */
  predicate CountsUp(given: seq<Named>) {
    forall i :: 0 <= i < |given| ==> given[i].number == i + 1
  }

  lemma {:induction false} OneAtATimeCountsUp(vs: seq<View>, k: nat)
    requires IsHistory(vs) && k < |vs| && forall j :: 0 <= j < k ==> vs[j].pending <= 1
    ensures CountsUp(vs[k].given)
    decreases k
  {
    if k > 0 {
      OneAtATimeCountsUp(vs, k - 1);
      assert Follows(vs[k - 1], vs[k]) && vs[k - 1].pending <= 1;
    }
  }

  /** Two dumps pending at once lead to one name given twice. */
  lemma TwoPendingCoincide(vs: seq<View>, j: nat)
    requires IsHistory(vs) && j < |vs| - 1 && vs[j].pending >= 2 && vs[|vs| - 1].pending == 0
    ensures !AllDiffer(vs[|vs| - 1].given)
  {
    var last := |vs| - 1;
    assert Follows(vs[j], vs[j + 1]) && Follows(vs[last - 1], vs[last]);
    GivenBetween(vs, j, last);
    NamesRise(vs, last);
    if AllDiffer(vs[last].given) { DifferentNamesCount(vs[last].given, |vs[j].given|); }
  }

  /** After every prefix of the schedule at most one dump has raised the count and not yet named its file. */
  ghost predicate OneAtATime(kinds: Kinds, s: State, schedule: seq<Choice>) {
    forall j :: 0 <= j <= |schedule| ==> Pending(Play(kinds, s, schedule[..j]).threads) <= 1
  }

  /** Once every dump has named its file, the names all differ exactly when never two dumps were between
      raising the count and naming their file. */
  lemma ErrorFilesDiffer(kinds: Kinds, n: nat, schedule: seq<Choice>)
    requires Pending(Play(kinds, Init(n), schedule).threads) == 0
    ensures AllDiffer(Given(kinds, Init(n), schedule)) <==> OneAtATime(kinds, Init(n), schedule)
  {
    var vs, last := History(kinds, n, schedule), |schedule|;
    HistoryIsOne(kinds, n, schedule);
    assert schedule[..last] == schedule && vs[last] == ViewOf(kinds, n, schedule);
    if OneAtATime(kinds, Init(n), schedule) {
      forall j | 0 <= j < last ensures vs[j].pending <= 1 {
        assert Pending(Play(kinds, Init(n), schedule[..j]).threads) <= 1;
      }
      OneAtATimeCountsUp(vs, last);
    } else {
      var j :| 0 <= j <= |schedule| && Pending(Play(kinds, Init(n), schedule[..j]).threads) > 1;
      assert vs[j] == ViewOf(kinds, n, schedule[..j]);
      TwoPendingCoincide(vs, j);
    }
  }

  /** The names given to a thread are those it has used, in order. */
  lemma {:induction false} GivenAreNamed(kinds: Kinds, n: nat, schedule: seq<Choice>, t: nat)
    requires t < n
    ensures var s := Play(kinds, Init(n), schedule);
            |s.threads| == n && s.threads[t].named == NumbersOf(t, Given(kinds, Init(n), schedule))
    decreases |schedule|
  {
    InvHolds(kinds, n, schedule);
    if schedule != [] {
      var rest, last := schedule[..|schedule| - 1], schedule[|schedule| - 1];
      GivenAreNamed(kinds, n, rest, t);
      var now := Play(kinds, Init(n), rest);
      NamedStep(kinds, now, last.t, last.call, t);
      var given := Given(kinds, Init(n), rest);
      NumbersOneMore(t, given, Named(last.t, now.fileCount));
      assert given + [] == given;
    }
  }

  lemma NumbersOneMore(t: nat, given: seq<Named>, more: Named)
    ensures NumbersOf(t, given + [more]) == NumbersOf(t, given) + if more.t == t then [more.number] else []
  {
    assert (given + [more])[..|given|] == given;
  }

  lemma NamedStep(kinds: Kinds, s: State, t: nat, call: Call, u: nat)
    requires u < |s.threads|
    ensures var s' := Next(kinds, s, t, call);
            u < |s'.threads| && s'.threads[u].named
                == s.threads[u].named + if u == t && Naming(s, t) then [s.fileCount] else []
  {
  }

  // ----- Two dumps with the same name -----

  lemma OneMoreMove(kinds: Kinds, s: State, schedule: seq<Choice>, t: nat, call: Call)
    ensures Play(kinds, s, schedule + [Choice(t, call)]) == Next(kinds, Play(kinds, s, schedule), t, call)
  {
    assert (schedule + [Choice(t, call)])[..|schedule|] == schedule;
  }

  /** Only thread t has moved since s, and it has named no file. */
  ghost predicate OnlyMoved(s: State, s': State, t: nat) {
    && t < |s.threads| == |s'.threads| && s'.threads[t].named == s.threads[t].named
    && forall u :: 0 <= u < |s.threads| && u != t ==> s'.threads[u] == s.threads[u]
  }

  /** Where thread t, started in s on a dump, is after its first i actions. */
  ghost predicate Raising(s: State, s': State, t: nat, gid: int, i: nat)
    requires i <= 4
  {
    && OnlyMoved(s, s', t)
    && s'.threads[t].script == Script(WriteOnFail(gid))[i..]
    && s'.locks(Handles) == (if i == 0 || i == 4 then Free else Owned(t, 1))
    && (i == 2 ==> s'.threads[t].count == s.fileCount)
    && s'.fileCount == s.fileCount + if i < 3 then 0 else 1
  }

  lemma RaisingStep(kinds: Kinds, s: State, s': State, t: nat, gid: int, i: nat, call: Call)
    requires i < 4 && Raising(s, s', t, gid, i)
    ensures Raising(s, Next(kinds, s', t, call), t, gid, i + 1)
  {
    var script := Script(WriteOnFail(gid));
    assert script[i..][0] == script[i] && script[i..][1..] == script[i + 1..];
    assert script[..4] == [Lock(Handles), LoadCount, StoreCount, Unlock(Handles)];
  }

  lemma {:induction false} RaiseAlone(kinds: Kinds, s: State, done: seq<Choice>, t: nat, gid: int, i: nat)
    returns (schedule: seq<Choice>)
    requires var now := Play(kinds, s, done); t < |now.threads| && Idle(now, t) && now.locks(Handles).Free?
    requires i <= 4
    ensures Raising(Play(kinds, s, done), Play(kinds, s, schedule), t, gid, i)
  {
    var call := WriteOnFail(gid);
    if i == 0 {
      schedule := done + [Choice(t, call)];
      OneMoreMove(kinds, s, done, t, call);
    } else {
      var before := RaiseAlone(kinds, s, done, t, gid, i - 1);
      schedule := before + [Choice(t, call)];
      OneMoreMove(kinds, s, before, t, call);
      RaisingStep(kinds, Play(kinds, s, done), Play(kinds, s, before), t, gid, i - 1, call);
    }
  }

  lemma RaisedIsNaming(s: State, s': State, t: nat, gid: int)
    requires Raising(s, s', t, gid, 4)
    ensures Naming(s', t)
  {
    assert Script(WriteOnFail(gid))[4..][0] == NameFile;
  }

  lemma NameAlone(kinds: Kinds, s: State, t: nat, call: Call)
    requires Naming(s, t)
    ensures var s' := Next(kinds, s, t, call);
            && s'.fileCount == s.fileCount && |s'.threads| == |s.threads|
            && (forall u :: 0 <= u < |s.threads| && u != t ==> s'.threads[u] == s.threads[u])
            && s'.threads[t].named == s.threads[t].named + [s.fileCount]
  {
  }

  /** Naming the file after the mutex has been let go defeats the count: two threads can name the same file. */
  lemma ErrorFilesCanCoincide(kinds: Kinds, gid: int) returns (schedule: seq<Choice>)
    ensures var s := Play(kinds, Init(2), schedule); |s.threads| == 2 && s.threads[0].named == s.threads[1].named == [2]
  {
    var call := WriteOnFail(gid);
    var first := RaiseAlone(kinds, Init(2), [], 0, gid, 4);
    RaisedIsNaming(Init(2), Play(kinds, Init(2), first), 0, gid);
    var both := RaiseAlone(kinds, Init(2), first, 1, gid, 4);
    RaisedIsNaming(Play(kinds, Init(2), first), Play(kinds, Init(2), both), 1, gid);
    NameAlone(kinds, Play(kinds, Init(2), both), 1, call);
    OneMoreMove(kinds, Init(2), both, 1, call);
    var named := both + [Choice(1, call)];
    NameAlone(kinds, Play(kinds, Init(2), named), 0, call);
    OneMoreMove(kinds, Init(2), named, 0, call);
    schedule := named + [Choice(0, call)];
  }
}
