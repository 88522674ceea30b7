/** Type lookup over the ring of loaded modules: `SWIG_MangledTypeQueryModule` in
    grib-api/python/gribapi_swig_wrap.c, a binary search in each module's table of types. */
module ModuleQuery {
  import opened CString
  import opened Wrappers

  /** A table of type names; a name may be missing. */
  datatype Name = NoName | Name(text: string)

  type Table = seq<Name>

  /** Every name is there, in strictly increasing `strcmp` order. */
  predicate Sorted(t: Table) {
    && (forall i :: 0 <= i < |t| ==> t[i].Name?)
    && (forall i, j :: 0 <= i < j < |t| ==> Strcmp(t[i].text, t[j].text) < 0)
  }

  predicate Lists(t: Table, name: string) {
    exists i :: 0 <= i < |t| && t[i] == Name(name)
  }

  /** In a sorted table, comparing with one entry settles all entries on one side of it. */
  lemma SortedOnOneSide(t: Table, i: nat, j: nat, name: string)
    requires Sorted(t) && i < |t| && j < |t|
    ensures Strcmp(name, t[i].text) < 0 && i <= j ==> Strcmp(name, t[j].text) < 0
    ensures Strcmp(name, t[i].text) > 0 && j <= i ==> Strcmp(name, t[j].text) > 0
  {
    StrcmpIsAntisymmetric(t[i].text, name);
    StrcmpIsAntisymmetric(t[j].text, name);
    if Strcmp(name, t[i].text) < 0 && i < j { StrcmpIsTransitive(name, t[i].text, t[j].text); }
    if Strcmp(name, t[i].text) > 0 && j < i { StrcmpIsTransitive(t[j].text, t[i].text, name); }
  }

  /** The binary search of one table, with the unsigned index that must not go below zero. What it finds
      has the name; in a sorted table it finds the name if it is there. */
  method Search(t: Table, name: string) returns (r: Option<nat>)
    ensures r.Some? ==> r.value < |t| && t[r.value] == Name(name)
    ensures Sorted(t) ==> (r.Some? <==> Lists(t, name))
  {
    if |t| == 0 { return None; }
    var l, u := 0, |t| - 1;
    while true
      invariant 0 <= l <= u < |t|
      invariant Sorted(t) ==> forall j :: 0 <= j < |t| && !(l <= j <= u) ==> t[j] != Name(name)
      decreases u - l
    {
      var i := (l + u) / 2;
      if t[i].NoName? { return None; }
      var compare := Strcmp(name, t[i].text);
      if compare == 0 { return Some(i); }
      if Sorted(t) {
        forall j | 0 <= j < |t| && (if compare < 0 then i <= j else j <= i) ensures t[j] != Name(name) {
          SortedOnOneSide(t, i, j, name);
        }
      }
      if compare < 0 {
        if i == 0 { return None; }
        u := i - 1;
      } else {
        l := i + 1;
      }
      if l > u { return None; }
    }
  }

  // ----- The ring -----

  /** `swig_module_info`: a table and the next module of the circular list. */
  class Module {
    const types: Table
    var next: Module

    constructor (types: Table)
      ensures this.types == types && next == this
    {
      this.types, next := types, this;
    }
  }

  /** The modules from `start` up to, but not including, the first return to `end`; if they are the same,
      all the way round. */
  ghost predicate IsPath(path: seq<Module>, start: Module, end: Module)
    reads path
  {
    && 0 < |path| && path[0] == start && path[|path| - 1].next == end
    && (forall i {:trigger path[i].next} :: 0 <= i < |path| - 1 ==> path[i].next == path[i + 1])
    && (forall i :: 1 <= i < |path| ==> path[i] != end)
  }

  function Tables(path: seq<Module>): (ts: seq<Table>)
    ensures |ts| == |path| && forall i :: 0 <= i < |ts| ==> ts[i] == path[i].types
  {
    seq(|path|, i requires 0 <= i < |path| => path[i].types)
  }

  /** Linear search of one table, and of a row of tables. */
  function Position(t: Table, name: string, i: nat): (r: nat)
    requires i <= |t|
    ensures i <= r <= |t| && (r < |t| ==> t[r] == Name(name))
    ensures forall j :: i <= j < r ==> t[j] != Name(name)
    decreases |t| - i
  {
    if i == |t| || t[i] == Name(name) then i else Position(t, name, i + 1)
  }

  function LinearQuery(ts: seq<Table>, name: string, k: nat): Option<(nat, nat)>
    requires k <= |ts|
    decreases |ts| - k
  {
    if k == |ts| then None
    else if Lists(ts[k], name) then Some((k, Position(ts[k], name, 0)))
    else LinearQuery(ts, name, k + 1)
  }

  lemma SortedHasOnePosition(t: Table, name: string, i: nat)
    requires Sorted(t) && i < |t| && t[i] == Name(name)
    ensures Position(t, name, 0) == i
  {
  }

  /** `SWIG_MangledTypeQueryModule`. It comes back to `end` and stops; what it answers has the name; and
      over sorted tables it answers exactly what a linear search of the modules in order would. */
  method Query(start: Module, end: Module, name: string, ghost path: seq<Module>)
    returns (r: Option<(Module, nat)>)
    requires IsPath(path, start, end)
    ensures r.Some? ==> r.value.0 in path && r.value.1 < |r.value.0.types|
                        && r.value.0.types[r.value.1] == Name(name)
    ensures (forall m :: m in path ==> Sorted(m.types)) ==>
              match LinearQuery(Tables(path), name, 0)
              case None => r.None?
              case Some((k, i)) => k < |path| && r == Some((path[k], i))
  {
    var iter := start;
    ghost var k := 0;
    while true
      invariant 0 <= k < |path| && iter == path[k]
      invariant (forall m :: m in path ==> Sorted(m.types)) ==>
                  LinearQuery(Tables(path), name, k) == LinearQuery(Tables(path), name, 0)
      decreases |path| - k
    {
      var found := Search(iter.types, name);
      if found.Some? {
        if Sorted(iter.types) { SortedHasOnePosition(iter.types, name, found.value); }
        return Some((iter, found.value));
      }
      iter := iter.next;
      k := k + 1;
      if iter == end { return None; }
    }
  }

  lemma {:induction false} LinearQueryFindsFirst(ts: seq<Table>, name: string, k: nat)
    requires k <= |ts|
    ensures match LinearQuery(ts, name, k)
            case None => forall j :: k <= j < |ts| ==> !Lists(ts[j], name)
            case Some((m, i)) =>
              && k <= m < |ts| && i < |ts[m]| && ts[m][i] == Name(name)
              && (forall j :: k <= j < m ==> !Lists(ts[j], name))
              && (forall j :: 0 <= j < i ==> ts[m][j] != Name(name))
    decreases |ts| - k
  {
    if k < |ts| && !Lists(ts[k], name) { LinearQueryFindsFirst(ts, name, k + 1); }
  }
}
