/** The buffers of src/loadDataForVariable.c and the member loop of src/ncdcTigge.c. Loads append records to
    a reallocated array per variable; after 65 forecast hours the records are generated from and freed, and
    the same counters and arrays serve the next member. */
module RecordBuffers {
  import opened GribScan
  import opened Wrappers

  const MAX_RECORDS := 130
  const NUMBER_OF_VARIABLES := 13

  /** A stored record: its field and its length in bytes. */
  datatype Message = Message(field: Field, size: nat)

  /** An entry of a buffer: a record's copy, NULL after it was freed, or whatever `realloc` left there. */
  datatype Cell = Copy(field: Field) | Null | Garbage

  /** One variable's state: `numberOfSavedRecords`, its row of `bytesPerRecord`, its buffer (None for a NULL
      pointer), and whether anything undefined has been done with them. */
  datatype Var = Var(count: nat, sizes: seq<nat>, cells: Option<seq<Cell>>, undefined: bool)

  const FRESH := Var(0, seq(MAX_RECORDS, _ => 0), None, false)

  // ----- One variable -----

  /** `realloc` to n entries: what was there stays, anything beyond is indeterminate. */
  function Realloc(cells: Option<seq<Cell>>, n: nat): (r: seq<Cell>)
    ensures |r| == n
  {
    var old_ := if cells.Some? then cells.value else [];
    if n <= |old_| then old_[..n] else old_ + seq(n - |old_|, _ => Garbage)
  }

  /** `addGribRecordToArray`. */
  function Added(x: Var, m: Message): Var {
    var cells := Realloc(x.cells, x.count + 1)[x.count := Copy(m.field)];
    if x.count < |x.sizes| then
      Var(x.count + 1, x.sizes[x.count := m.size], Some(cells), x.undefined)
    else // the length is written outside the table
      Var(x.count + 1, x.sizes, Some(cells), true)
  }

  /** `loadDataForVariable`: a loader that fails answers NULL, which becomes the buffer. */
  function Loaded(x: Var, r: Option<Message>): Var {
    match r
    case None => x.(cells := None)
    case Some(m) => Added(x, m)
  }

  predicate Readable(x: Var, k: nat) {
    x.cells.Some? && k < |x.cells.value| && x.cells.value[k].Copy? && k < |x.sizes|
  }

  /** Total precipitation does not read its first record. */
  function FirstRead(v: int): nat {
    if v == 11 then 1 else 0
  }

  predicate AllReadable(x: Var, v: int) {
    forall k :: FirstRead(v) <= k < STEPS ==> Readable(x, k)
  }

  /** What a generator reads: record k and its length, for each step. */
  function Snapshot(x: Var, v: int): seq<Message>
    requires AllReadable(x, v)
  {
    assert forall k :: FirstRead(v) <= k < STEPS ==> Readable(x, k);
    seq(STEPS - FirstRead(v), j requires 0 <= j < STEPS - FirstRead(v) => RecordAt(x, j + FirstRead(v)))
  }

  function RecordAt(x: Var, k: nat): Message
    requires Readable(x, k)
  {
    Message(x.cells.value[k].field, x.sizes[k])
  }

  predicate Freeable(x: Var) {
    x.count == 0 || (x.cells.Some? && x.count <= |x.cells.value| && Garbage !in x.cells.value[..x.count])
  }

  function Nulls(n: nat): (s: seq<Cell>)
    ensures |s| == n && forall i :: 0 <= i < n ==> s[i] == Null
  {
    seq(n, _ => Null)
  }

  /** `freeDataForVariable`: frees the saved records and sets them to NULL; the buffer itself stays. */
  function Freed(x: Var): Var {
    if !Freeable(x) then x.(count := 0, undefined := true)
    else if x.count == 0 then x
    else x.(count := 0, cells := Some(Nulls(x.count) + x.cells.value[x.count..]))
  }

  /** After it, the records that were saved are NULL, and the rest of the buffer and the lengths are what they were. */
  lemma FreedRecordsAreNull(x: Var, k: nat)
    requires Freeable(x) && x.cells.Some? && k < |x.cells.value|
    ensures var y := Freed(x);
            && y.count == 0 && y.sizes == x.sizes && y.undefined == x.undefined
            && y.cells.Some? && |y.cells.value| == |x.cells.value|
            && y.cells.value[k] == if k < x.count then Null else x.cells.value[k]
  {
  }

  // ----- One member -----

  /** What the loader of variable v answers for a member and step, given whether it takes this for the
      member's first record (as it does when none is saved). */
  type Loader = (nat, nat, int, bool) -> Option<Message>

  function LoadAt(load: Loader, queued: bool, m: nat, k: nat, v: int, first: bool): Option<Message> {
    if queued then load(m, k, v, first) else None
  }

  /** The variable after the first k steps of member m. */
  function AfterLoads(x: Var, load: Loader, queued: bool, m: nat, v: int, k: nat): Var {
    if k == 0 then x
    else
      var y := AfterLoads(x, load, queued, m, v, k - 1);
      Loaded(y, LoadAt(load, queued, m, k - 1, v, y.count == 0))
  }

  function Checked(x: Var, queued: bool, v: int): Var {
    if queued && !AllReadable(x, v) then x.(undefined := true) else x
  }

  function AfterMember(x: Var, load: Loader, queued: bool, m: nat, v: int): Var {
    Freed(Checked(AfterLoads(x, load, queued, m, v, STEPS), queued, v))
  }

  predicate Succeeds(load: Loader, m: nat, v: int, k: nat) {
    load(m, k, v, k == 0).Some?
  }

  /** Every load of the variable succeeds, the first of the member being its step 0. */
  predicate LoadsSucceed(load: Loader, m: nat, v: int) {
    forall k :: 0 <= k < STEPS ==> Succeeds(load, m, v, k)
  }

  /** Ready for the next member: nothing saved, nothing undefined; the buffer may hold anything. */
  predicate Clean(x: Var) {
    x.count == 0 && |x.sizes| == MAX_RECORDS && !x.undefined
  }

  /** While loads succeed, record k is step k's, with its length beside it, whatever an earlier member left. */
  lemma {:induction false} LoadsLineUp(x: Var, load: Loader, m: nat, v: int, k: nat)
    requires Clean(x) && k <= STEPS
    requires forall j :: 0 <= j < k ==> Succeeds(load, m, v, j)
    ensures var y := AfterLoads(x, load, true, m, v, k);
            && y.count == k && |y.sizes| == MAX_RECORDS && !y.undefined
            && (k > 0 ==> y.cells.Some? && |y.cells.value| == k)
            && forall j :: 0 <= j < k ==>
                 Readable(y, j) && RecordAt(y, j) == LoadedAt(load, m, v, j)
  {
    if k > 0 {
      assert Succeeds(load, m, v, k - 1);
      LoadsLineUp(x, load, m, v, k - 1);
      var before, y := AfterLoads(x, load, true, m, v, k - 1), AfterLoads(x, load, true, m, v, k);
      assert y == Added(before, LoadedAt(load, m, v, k - 1));
      forall j | 0 <= j < k ensures Readable(y, j) && RecordAt(y, j) == LoadedAt(load, m, v, j) {
        if j < k - 1 { assert Readable(before, j) && RecordAt(before, j) == LoadedAt(load, m, v, j); }
      }
    }
  }

  /** A failed load is never made up for: fewer records are saved than steps taken. */
  lemma {:induction false} FailuresShowInCount(x: Var, load: Loader, m: nat, v: int, k: nat)
    requires Clean(x) && 0 < k <= STEPS
    ensures var y := AfterLoads(x, load, true, m, v, k);
            && y.count <= k
            && (y.cells.Some? ==> |y.cells.value| == y.count)
            && (y.count == k ==> y.cells.Some? && forall j :: 0 <= j < k ==> Succeeds(load, m, v, j))
  {
    if k > 1 { FailuresShowInCount(x, load, m, v, k - 1); }
  }

  /** What a member's generator reads when all its loads succeed: this member's records, in step order. */
  function MemberRecords(load: Loader, m: nat, v: int): seq<Message>
    requires LoadsSucceed(load, m, v)
  {
    seq(STEPS - FirstRead(v), j requires 0 <= j < STEPS - FirstRead(v) => LoadedAt(load, m, v, j + FirstRead(v)))
  }

  function LoadedAt(load: Loader, m: nat, v: int, k: nat): Message
    requires Succeeds(load, m, v, k)
  {
    load(m, k, v, k == 0).value
  }

  lemma SnapshotIsMemberRecords(y: Var, load: Loader, m: nat, v: int)
    requires LoadsSucceed(load, m, v)
    requires forall k :: 0 <= k < STEPS ==> Readable(y, k) && RecordAt(y, k) == LoadedAt(load, m, v, k)
    ensures AllReadable(y, v) && Snapshot(y, v) == MemberRecords(load, m, v)
  {
  }

  /** A member goes through without anything undefined exactly when all its loads succeed; then its generator
      reads exactly its own 65 records and their lengths, and the next member finds a clean state. */
  lemma MemberIsIsolated(x: Var, load: Loader, m: nat, v: int)
    requires Clean(x)
    ensures var y := AfterLoads(x, load, true, m, v, STEPS);
            && (LoadsSucceed(load, m, v) ==> AllReadable(y, v) && Snapshot(y, v) == MemberRecords(load, m, v))
            && (!AfterMember(x, load, true, m, v).undefined <==> LoadsSucceed(load, m, v))
            && (LoadsSucceed(load, m, v) ==> Clean(AfterMember(x, load, true, m, v)))
  {
    FailuresShowInCount(x, load, m, v, STEPS);
    if LoadsSucceed(load, m, v) {
      LoadsLineUp(x, load, m, v, STEPS);
      var y := AfterLoads(x, load, true, m, v, STEPS);
      SnapshotIsMemberRecords(y, load, m, v);
      forall k | 0 <= k < STEPS ensures Readable(y, k) {
        assert RecordAt(y, k) == LoadedAt(load, m, v, k);
      }
      forall i | 0 <= i < STEPS ensures y.cells.value[..STEPS][i] != Garbage { assert Readable(y, i); }
    } else {
      assert !Readable(AfterLoads(x, load, true, m, v, STEPS), STEPS - 1);
    }
  }

  /** A variable that is not on the list stays clean and empty. */
  lemma {:induction false} UnqueuedStaysClean(x: Var, load: Loader, m: nat, v: int, k: nat)
    requires Clean(x)
    ensures Clean(AfterLoads(x, load, false, m, v, k))
  {
    if k > 0 { UnqueuedStaysClean(x, load, m, v, k - 1); }
  }

  lemma {:induction false} UndefinedStays(x: Var, load: Loader, queued: bool, m: nat, v: int, k: nat)
    requires x.undefined
    ensures AfterLoads(x, load, queued, m, v, k).undefined
  {
    if k > 0 { UndefinedStays(x, load, queued, m, v, k - 1); }
  }

  // ----- The main loop -----

  /** The time-integrated variables, in the orders `main` loads, generates and frees them. */
  const LOAD_ORDER: seq<int> := [5, 6, 9, 7, 8, 11, 2]
  const GENERATE_ORDER: seq<int> := [5, 6, 9, 2, 7, 8, 11]
  const FREE_ORDER: seq<int> := [5, 6, 9, 7, 8, 2, 11]

  /** What one generator was given. */
  datatype Output = Output(member: nat, variable: int, records: seq<Message>)

  /** Every load of every queued variable of the member succeeds. */
  ghost predicate MemberSucceeds(load: Loader, queue: set<int>, m: nat) {
    forall v :: v in LOAD_ORDER && v in queue ==> LoadsSucceed(load, m, v)
  }

  /** What a member puts out, from its own loads alone: the first j variables in generating order. */
  ghost function OutputsUpTo(load: Loader, queue: set<int>, m: nat, j: nat): seq<Output>
    requires MemberSucceeds(load, queue, m) && j <= 7
  {
    if j == 0 then []
    else
      var v := GENERATE_ORDER[j - 1];
      OrdersAreDistinct(j - 1);
      OutputsUpTo(load, queue, m, j - 1) + if v in queue then [Output(m, v, MemberRecords(load, m, v))] else []
  }

  ghost function MemberOutputs(load: Loader, queue: set<int>, m: nat): seq<Output>
    requires MemberSucceeds(load, queue, m)
  {
    OutputsUpTo(load, queue, m, 7)
  }

  /** The turn of a variable among the generators. */
  function Turn(v: int): nat {
    if v == 5 then 0
    else if v == 6 then 1
    else if v == 9 then 2
    else if v == 2 then 3
    else if v == 7 then 4
    else if v == 8 then 5
    else 6
  }

  /** Outputs of member m from generators with turns below j, each after those with an earlier turn. */
  predicate InTurn(os: seq<Output>, m: nat, j: nat) {
    && (forall p :: 0 <= p < |os| ==> os[p].member == m && Turn(os[p].variable) < j)
    && (forall p, q :: 0 <= p < q < |os| ==> Turn(os[p].variable) < Turn(os[q].variable))
  }

  /** The generators are called in turn. */
  lemma {:induction false} OutputsInTurn(load: Loader, queue: set<int>, m: nat, j: nat)
    requires MemberSucceeds(load, queue, m) && j <= 7
    ensures InTurn(OutputsUpTo(load, queue, m, j), m, j)
  {
    if j > 0 {
      OutputsInTurn(load, queue, m, j - 1);
      assert Turn(GENERATE_ORDER[j - 1]) == j - 1;
    }
  }

  ghost predicate AllSucceed(load: Loader, queue: set<int>, first: nat, last: nat) {
    forall m :: first <= m < last ==> MemberSucceeds(load, queue, m)
  }

  /** The outputs of a run over members first, ..., last - 1. */
  ghost function AllOutputs(load: Loader, queue: set<int>, first: nat, last: nat): seq<Output>
    requires first <= last && AllSucceed(load, queue, first, last)
    decreases last
  {
    if first == last then []
    else AllOutputs(load, queue, first, last - 1) + MemberOutputs(load, queue, last - 1)
  }

  /** A run's outputs contain, member by member, what a run of that member alone puts out. */
  lemma {:induction false} MembersRunAlone(load: Loader, queue: set<int>, first: nat, m: nat, last: nat)
    requires first <= m < last && AllSucceed(load, queue, first, last)
    ensures AllSucceed(load, queue, m, m + 1)
    ensures AllOutputs(load, queue, first, last)
         == AllOutputs(load, queue, first, m) + AllOutputs(load, queue, m, m + 1) + AllOutputs(load, queue, m + 1, last)
    decreases last
  {
    if m + 1 < last { MembersRunAlone(load, queue, first, m, last - 1); }
    assert AllOutputs(load, queue, m, m + 1) == [] + MemberOutputs(load, queue, m);
  }

  /** The globals of src/ncdcTigge.h and the buffers of `main`, by variable. */
  class Tigge {
    const load: Loader
    const queue: set<int>
    var counts: array<nat>
    var sizes: array<seq<nat>>
    var cells: array<Option<seq<Cell>>>
    var undefined: array<bool>

    predicate Valid()
      reads this
    {
      counts.Length == sizes.Length == cells.Length == undefined.Length == NUMBER_OF_VARIABLES
    }

    /** Variable v's part of the state. */
    function At(v: int): Var
      requires Valid() && 0 <= v < NUMBER_OF_VARIABLES
      reads this, counts, sizes, cells, undefined
    {
      Var(counts[v], sizes[v], cells[v], undefined[v])
    }

    constructor (load: Loader, queue: set<int>)
      ensures Valid() && this.load == load && this.queue == queue
      ensures fresh(counts) && fresh(sizes) && fresh(cells) && fresh(undefined)
      ensures forall v :: 0 <= v < NUMBER_OF_VARIABLES ==> At(v) == FRESH
    {
      this.load, this.queue := load, queue;
      counts := new nat[NUMBER_OF_VARIABLES](_ => 0);
      sizes := new seq<nat>[NUMBER_OF_VARIABLES](_ => FRESH.sizes);
      cells := new Option<seq<Cell>>[NUMBER_OF_VARIABLES](_ => None);
      undefined := new bool[NUMBER_OF_VARIABLES](_ => false);
    }

    /** Only variable v's part has changed. */
    twostate predicate OthersKept(v: int)
      requires Valid() && old(Valid())
      reads this, counts, sizes, cells, undefined
    {
      forall u :: 0 <= u < NUMBER_OF_VARIABLES && u != v ==> At(u) == old(At(u))
    }

    /** `addGribRecordToArray`. */
    method AddRecord(v: int, m: Message)
      requires Valid() && 0 <= v < NUMBER_OF_VARIABLES
      modifies counts, sizes, cells, undefined
      ensures At(v) == Added(old(At(v)), m) && OthersKept(v)
    {
      var prevSize := counts[v];
      var array_ := Realloc(cells[v], prevSize + 1);
      if prevSize < |sizes[v]| {
        sizes[v] := sizes[v][prevSize := m.size];
      } else {
        undefined[v] := true;
      }
      cells[v] := Some(array_[prevSize := Copy(m.field)]);
      counts[v] := counts[v] + 1;
    }

    /** `loadDataForVariable`, with the assignment of its answer to the buffer. */
    method Load(v: int, m: nat, k: nat)
      requires Valid() && 0 <= v < NUMBER_OF_VARIABLES
      modifies counts, sizes, cells, undefined
      ensures At(v) == Loaded(old(At(v)), LoadAt(load, v in queue, m, k, v, old(At(v)).count == 0)) && OthersKept(v)
    {
      if v !in queue {
        cells[v] := None;
        return;
      }
      var r := load(m, k, v, counts[v] == 0);
      if r.None? {
        cells[v] := None;
      } else {
        AddRecord(v, r.value);
      }
    }

    /** What a generator reads, step by step; `generateVariable` does nothing for a variable not queued. */
    method Generate(v: int) returns (records: seq<Message>)
      requires Valid() && 0 <= v < NUMBER_OF_VARIABLES
      modifies undefined
      ensures At(v) == Checked(old(At(v)), v in queue, v) && OthersKept(v)
      ensures v in queue && AllReadable(old(At(v)), v) ==> records == Snapshot(old(At(v)), v)
      ensures v !in queue ==> records == []
    {
      records := [];
      if v !in queue { return; }
      ghost var x := At(v);
      for k := FirstRead(v) to STEPS
        invariant At(v) == x.(undefined := x.undefined || !(forall j :: FirstRead(v) <= j < k ==> Readable(x, j)))
        invariant OthersKept(v)
        invariant (forall j :: FirstRead(v) <= j < k ==> Readable(x, j)) ==>
                    |records| == k - FirstRead(v)
                    && forall j :: 0 <= j < |records| ==> records[j] == RecordAt(x, j + FirstRead(v))
      {
        if Readable(At(v), k) {
          records := records + [RecordAt(At(v), k)];
        } else {
          undefined[v] := true;
        }
      }
    }

    /** `freeDataForVariable`. */
    method Free(v: int)
      requires Valid() && 0 <= v < NUMBER_OF_VARIABLES
      modifies counts, cells, undefined
      ensures At(v) == Freed(old(At(v))) && OthersKept(v)
    {
      ghost var x := At(v);
      if !Freeable(At(v)) {
        undefined[v] := true;
      } else {
        for i := 0 to counts[v]
          invariant At(v) == x.(cells := cells[v]) && OthersKept(v)
          invariant i == 0 ==> cells[v] == x.cells
          invariant i > 0 ==> cells[v] == Some(Nulls(i) + x.cells.value[i..])
        {
          ghost var before := cells[v].value;
          assert before == Nulls(i) + x.cells.value[i..];
          cells[v] := Some(cells[v].value[i := Null]);
          assert before[i := Null] == Nulls(i + 1) + x.cells.value[i + 1..];
        }
      }
      counts[v] := 0;
    }

    /** The loads of one member. */
    method LoadMember(m: nat)
      requires Valid()
      modifies counts, sizes, cells, undefined
      ensures forall v :: 0 <= v < NUMBER_OF_VARIABLES ==>
                At(v) == if v in LOAD_ORDER then AfterLoads(old(At(v)), load, v in queue, m, v, STEPS) else old(At(v))
    {
      for k := 0 to STEPS
        invariant forall v :: 0 <= v < NUMBER_OF_VARIABLES ==>
                    At(v) == if v in LOAD_ORDER then AfterLoads(old(At(v)), load, v in queue, m, v, k) else old(At(v))
      {
        label before:
        LoadHour(m, k);
        forall v | 0 <= v < NUMBER_OF_VARIABLES
          ensures At(v) == if v in LOAD_ORDER then AfterLoads(old(At(v)), load, v in queue, m, v, k + 1) else old(At(v))
        {
          assert v in LOAD_ORDER ==> old@before(At(v)) == AfterLoads(old(At(v)), load, v in queue, m, v, k);
        }
      }
    }

    /** The loads of one member and forecast hour. */
    method LoadHour(m: nat, k: nat)
      requires Valid()
      modifies counts, sizes, cells, undefined
      ensures forall v :: 0 <= v < NUMBER_OF_VARIABLES ==>
                At(v) == if v in LOAD_ORDER
                         then Loaded(old(At(v)), LoadAt(load, v in queue, m, k, v, old(At(v)).count == 0))
                         else old(At(v))
    {
      for j := 0 to |LOAD_ORDER|
        invariant forall v :: 0 <= v < NUMBER_OF_VARIABLES ==>
                    At(v) == if v in LOAD_ORDER[..j]
                             then Loaded(old(At(v)), LoadAt(load, v in queue, m, k, v, old(At(v)).count == 0))
                             else old(At(v))
      {
        OrdersAreDistinct(j);
        Load(LOAD_ORDER[j], m, k);
      }
      assert LOAD_ORDER[..|LOAD_ORDER|] == LOAD_ORDER;
    }

    ghost predicate AllClean()
      requires Valid()
      reads this, counts, sizes, cells, undefined
    {
      forall v :: v in LOAD_ORDER ==> 0 <= v < NUMBER_OF_VARIABLES && Clean(At(v))
    }

    ghost predicate AnyUndefined()
      requires Valid()
      reads this, counts, sizes, cells, undefined
    {
      exists j :: 0 <= j < 7 && At(LOAD_ORDER[j]).undefined
    }

    /** Whether nothing undefined has been done with any of the variables. */
    method AllDefined() returns (ok: bool)
      requires Valid()
      ensures ok <==> !AnyUndefined()
      ensures AllClean() ==> ok
    {
      ok := true;
      for j := 0 to 7
        invariant ok <==> forall i :: 0 <= i < j ==> !At(LOAD_ORDER[i]).undefined
      {
        OrdersAreDistinct(j);
        ok := ok && !undefined[LOAD_ORDER[j]];
      }
    }

    /** Each queued variable's buffer holds the member's own records. */
    ghost predicate HoldsMember(m: nat)
      requires Valid()
      reads this, counts, sizes, cells, undefined
    {
      && MemberSucceeds(load, queue, m)
      && forall v :: v in LOAD_ORDER && v in queue ==>
           0 <= v < NUMBER_OF_VARIABLES && AllReadable(At(v), v) && Snapshot(At(v), v) == MemberRecords(load, m, v)
    }

    /** The generators of one member, in order. */
    method GenerateMember(m: nat) returns (out: seq<Output>)
      requires Valid()
      modifies undefined
      ensures forall v :: 0 <= v < NUMBER_OF_VARIABLES ==>
                At(v) == if v in GENERATE_ORDER then Checked(old(At(v)), v in queue, v) else old(At(v))
      ensures old(HoldsMember(m)) ==> out == MemberOutputs(load, queue, m)
    {
      out := [];
      ghost var good := HoldsMember(m);
      for j := 0 to 7
        invariant forall v :: 0 <= v < NUMBER_OF_VARIABLES ==>
                    At(v) == if v in GENERATE_ORDER[..j] then Checked(old(At(v)), v in queue, v) else old(At(v))
        invariant good ==> out == OutputsUpTo(load, queue, m, j)
      {
        OrdersAreDistinct(j);
        var v := GENERATE_ORDER[j];
        var records := Generate(v);
        if v in queue { out := out + [Output(m, v, records)]; }
      }
      assert GENERATE_ORDER[..7] == GENERATE_ORDER;
    }

    /** Frees all seven buffers' records. */
    method FreeMember()
      requires Valid()
      modifies counts, cells, undefined
      ensures forall v :: 0 <= v < NUMBER_OF_VARIABLES ==>
                At(v) == if v in FREE_ORDER then Freed(old(At(v))) else old(At(v))
    {
      for j := 0 to 7
        invariant forall v :: 0 <= v < NUMBER_OF_VARIABLES ==>
                    At(v) == if v in FREE_ORDER[..j] then Freed(old(At(v))) else old(At(v))
      {
        OrdersAreDistinct(j);
        Free(FREE_ORDER[j]);
      }
      assert FREE_ORDER[..7] == FREE_ORDER;
    }

    /** One turn of the member loop. */
    method RunMember(m: nat) returns (out: seq<Output>)
      requires Valid()
      modifies counts, sizes, cells, undefined
      ensures forall v :: v in LOAD_ORDER ==>
                0 <= v < NUMBER_OF_VARIABLES && At(v) == AfterMember(old(At(v)), load, v in queue, m, v)
      ensures old(AllClean()) && MemberSucceeds(load, queue, m) ==> out == MemberOutputs(load, queue, m)
    {
      OrdersHaveTheSame();
      if AllClean() && MemberSucceeds(load, queue, m) {
        forall v | v in LOAD_ORDER && v in queue
          ensures var y := AfterLoads(At(v), load, true, m, v, STEPS);
                  AllReadable(y, v) && Snapshot(y, v) == MemberRecords(load, m, v)
        {
          MemberIsIsolated(At(v), load, m, v);
        }
      }
      LoadMember(m);
      out := GenerateMember(m);
      FreeMember();
    }

    /** A member keeps a clean state clean exactly if its loads succeed; nothing mends an undefined one. */
    method RunMemberChecked(m: nat) returns (out: seq<Output>)
      requires Valid()
      modifies counts, sizes, cells, undefined
      ensures old(AnyUndefined()) ==> AnyUndefined()
      ensures old(AllClean()) ==>
                if MemberSucceeds(load, queue, m) then AllClean() && out == MemberOutputs(load, queue, m)
                else AnyUndefined()
    {
      OrdersHaveTheSame();
      ghost var x := map v | v in LOAD_ORDER && 0 <= v < NUMBER_OF_VARIABLES :: At(v);
      ghost var wasClean, wasUndefined := AllClean(), AnyUndefined();
      out := RunMember(m);
      ghost var y := map v | v in LOAD_ORDER && 0 <= v < NUMBER_OF_VARIABLES :: At(v);
      assert wasClean ==> AllCleanIn(x);
      assert wasUndefined ==> AnyUndefinedIn(x);
      AfterMembers(x, y, load, queue, m);
      assert AnyUndefinedIn(y) ==> AnyUndefined();
    }
  }

  /** The member loop of `main`, from a fresh start. Nothing undefined happens exactly when every load of a
      queued variable succeeds, and then the outputs are those of the members one by one. */
  method Run(load: Loader, queue: set<int>, first: nat, last: nat) returns (out: seq<Output>, ok: bool)
    requires first <= last
    ensures ok <==> AllSucceed(load, queue, first, last)
    ensures ok ==> out == AllOutputs(load, queue, first, last)
  {
    var tigge := new Tigge(load, queue);
    out := [];
    OrdersHaveTheSame();
    for m := first to last
      invariant tigge.Valid() && tigge.load == load && tigge.queue == queue
      invariant fresh(tigge.counts) && fresh(tigge.sizes) && fresh(tigge.cells) && fresh(tigge.undefined)
      invariant AllSucceed(load, queue, first, m) ==> tigge.AllClean() && out == AllOutputs(load, queue, first, m)
      invariant !AllSucceed(load, queue, first, m) ==> tigge.AnyUndefined()
    {
      OneMoreMember(load, queue, first, m);
      var more := tigge.RunMemberChecked(m);
      out := out + more;
    }
    ok := tigge.AllDefined();
  }

  lemma OneMoreMember(load: Loader, queue: set<int>, first: nat, m: nat)
    requires first <= m
    ensures AllSucceed(load, queue, first, m + 1)
       <==> AllSucceed(load, queue, first, m) && MemberSucceeds(load, queue, m)
    ensures AllSucceed(load, queue, first, m + 1) ==>
              AllOutputs(load, queue, first, m + 1) == AllOutputs(load, queue, first, m) + MemberOutputs(load, queue, m)
  {
  }

  ghost predicate HoldsAll(x: map<int, Var>) {
    forall v :: v in LOAD_ORDER ==> v in x
  }

  ghost predicate AllCleanIn(x: map<int, Var>)
    requires HoldsAll(x)
  {
    forall v :: v in LOAD_ORDER ==> Clean(x[v])
  }

  ghost predicate AnyUndefinedIn(x: map<int, Var>)
    requires HoldsAll(x)
  {
    exists j :: 0 <= j < 7 && x[LOAD_ORDER[j]].undefined
  }

  /** What one member does to the seven variables. */
  lemma AfterMembers(x: map<int, Var>, y: map<int, Var>, load: Loader, queue: set<int>, m: nat)
    requires HoldsAll(x) && HoldsAll(y)
    requires forall v :: v in LOAD_ORDER ==> y[v] == AfterMember(x[v], load, v in queue, m, v)
    ensures AnyUndefinedIn(x) ==> AnyUndefinedIn(y)
    ensures AllCleanIn(x) ==> if MemberSucceeds(load, queue, m) then AllCleanIn(y) else AnyUndefinedIn(y)
  {
    if AnyUndefinedIn(x) {
      var j :| 0 <= j < 7 && x[LOAD_ORDER[j]].undefined;
      UndefinedStays(x[LOAD_ORDER[j]], load, LOAD_ORDER[j] in queue, m, LOAD_ORDER[j], STEPS);
      assert y[LOAD_ORDER[j]].undefined;
    }
    if AllCleanIn(x) { AfterCleanMembers(x, load, queue, m); }
  }

  lemma AfterCleanMembers(x: map<int, Var>, load: Loader, queue: set<int>, m: nat)
    requires forall v :: v in LOAD_ORDER ==> v in x && Clean(x[v])
    ensures MemberSucceeds(load, queue, m) ==>
              forall v :: v in LOAD_ORDER ==> Clean(AfterMember(x[v], load, v in queue, m, v))
    ensures !MemberSucceeds(load, queue, m) ==>
              exists j :: 0 <= j < 7
                && AfterMember(x[LOAD_ORDER[j]], load, LOAD_ORDER[j] in queue, m, LOAD_ORDER[j]).undefined
  {
    forall v | v in LOAD_ORDER
      ensures v in queue ==> (AfterMember(x[v], load, v in queue, m, v).undefined <==> !LoadsSucceed(load, m, v))
      ensures v !in queue || LoadsSucceed(load, m, v) ==> Clean(AfterMember(x[v], load, v in queue, m, v))
    {
      if v in queue {
        MemberIsIsolated(x[v], load, m, v);
      } else {
        UnqueuedStaysClean(x[v], load, m, v, STEPS);
      }
    }
    if !MemberSucceeds(load, queue, m) {
      var v :| v in LOAD_ORDER && v in queue && !LoadsSucceed(load, m, v);
      var j :| 0 <= j < 7 && LOAD_ORDER[j] == v;
      assert AfterMember(x[LOAD_ORDER[j]], load, LOAD_ORDER[j] in queue, m, LOAD_ORDER[j]).undefined;
    }
  }

  lemma OrdersHaveTheSame()
    ensures forall v :: v in LOAD_ORDER <==> v in GENERATE_ORDER
    ensures forall v :: v in LOAD_ORDER <==> v in FREE_ORDER
    ensures forall v :: v in LOAD_ORDER ==> 0 <= v < NUMBER_OF_VARIABLES
  {
  }

  /** Each order lists the seven variables once. */
  lemma OrdersAreDistinct(j: nat)
    requires j < 7
    ensures 0 <= LOAD_ORDER[j] < NUMBER_OF_VARIABLES && LOAD_ORDER[j] !in LOAD_ORDER[..j]
    ensures 0 <= GENERATE_ORDER[j] < NUMBER_OF_VARIABLES && GENERATE_ORDER[j] !in GENERATE_ORDER[..j]
    ensures 0 <= FREE_ORDER[j] < NUMBER_OF_VARIABLES && FREE_ORDER[j] !in FREE_ORDER[..j]
    ensures GENERATE_ORDER[j] in LOAD_ORDER && FREE_ORDER[j] in LOAD_ORDER
    ensures LOAD_ORDER[..j + 1] == LOAD_ORDER[..j] + [LOAD_ORDER[j]]
    ensures GENERATE_ORDER[..j + 1] == GENERATE_ORDER[..j] + [GENERATE_ORDER[j]]
    ensures FREE_ORDER[..j + 1] == FREE_ORDER[..j] + [FREE_ORDER[j]]
  {
  }
}
