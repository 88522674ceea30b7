/** The cast lists of the SWIG runtime (grib-api/python/gribapi_swig_wrap.c): doubly linked, with every
    lookup moving the entry it finds to the front. */
module CastList {

  /** `swig_cast_info`. */
  class Cast {
    var target: TypeInfo
    var next: Cast?
    var prev: Cast?

    constructor (target: TypeInfo)
      ensures this.target == target && next == null && prev == null
    {
      this.target, next, prev := target, null, null;
    }
  }

  /** What a lookup can see of a cast: the node, the type it casts from, and that type's name. */
  datatype Entry = Entry(node: Cast, target: TypeInfo, name: string)

  /** `SWIG_TypeCheck` looks for a name, `SWIG_TypeCheckStruct` for a type. */
  datatype Query = ByName(name: string) | ByType(target: TypeInfo)

  predicate Matches(e: Entry, q: Query) {
    match q
    case ByName(name) => e.name == name
    case ByType(t) => e.target == t
  }

  // ----- Move to front, on sequences -----

  /** Linear search: the position of the first match from i on, or the length of the list. */
  function FirstFrom(s: seq<Entry>, q: Query, i: nat): (r: nat)
    requires i <= |s|
    ensures i <= r <= |s| && (r < |s| ==> Matches(s[r], q))
    decreases |s| - i
  {
    if i == |s| || Matches(s[i], q) then i else FirstFrom(s, q, i + 1)
  }

  function First(s: seq<Entry>, q: Query): nat {
    FirstFrom(s, q, 0)
  }

  lemma {:induction false} FirstIsFirst(s: seq<Entry>, q: Query, i: nat, j: nat)
    requires i <= j < |s| && Matches(s[j], q)
    ensures FirstFrom(s, q, i) <= j
    decreases j - i
  {
    if !Matches(s[i], q) { FirstIsFirst(s, q, i + 1, j); }
  }

  /** The node a linear search answers, or null. */
  function Found(s: seq<Entry>, q: Query): Cast? {
    if First(s, q) < |s| then s[First(s, q)].node else null
  }

  /** That is the node of the first entry with the name, or the type, looked for; null only if there is none. */
  lemma FoundIsFirst(s: seq<Entry>, q: Query, i: nat)
    requires i < |s| && (if q.ByName? then s[i].name == q.name else s[i].target == q.target)
    requires forall j :: 0 <= j < i ==> if q.ByName? then s[j].name != q.name else s[j].target != q.target
    ensures Found(s, q) == s[i].node
  {
    FirstIsFirst(s, q, 0, i);
  }

  lemma NothingFound(s: seq<Entry>, q: Query)
    requires forall j :: 0 <= j < |s| ==> if q.ByName? then s[j].name != q.name else s[j].target != q.target
    ensures Found(s, q) == null && AfterLookup(s, q) == s
  {
  }

  /** The position in the old list of what stands at position j after position i has moved to the front. */
  function Origin(i: nat, j: nat): (k: nat)
    ensures j > 0 ==> k != i
  {
    if j == 0 then i else if j <= i then j - 1 else j
  }

  function ToFront<T>(s: seq<T>, i: nat): (r: seq<T>)
    requires i < |s|
    ensures |r| == |s|
    ensures forall j :: 0 <= j < |r| ==> r[j] == s[Origin(i, j)]
  {
    seq(|s|, j requires 0 <= j < |s| => s[Origin(i, j)])
  }

  function AfterLookup(s: seq<Entry>, q: Query): seq<Entry> {
    if First(s, q) < |s| then ToFront(s, First(s, q)) else s
  }

  /** A lookup that finds its entry at position i takes it out and puts it in front of the others. */
  lemma LookupMovesToFront(s: seq<Entry>, q: Query, i: nat)
    requires i < |s| && Matches(s[i], q) && forall j :: 0 <= j < i ==> !Matches(s[j], q)
    ensures AfterLookup(s, q) == [s[i]] + s[..i] + s[i + 1..]
  {
    FirstIsFirst(s, q, 0, i);
    ToFrontTakesOut(s, i);
  }

  lemma ToFrontTakesOut<T>(s: seq<T>, i: nat)
    requires i < |s|
    ensures ToFront(s, i) == [s[i]] + s[..i] + s[i + 1..]
  {
  }

  function AfterLookups(s: seq<Entry>, qs: seq<Query>): seq<Entry>
    decreases |qs|
  {
    if qs == [] then s else AfterLookups(AfterLookup(s, qs[0]), qs[1..])
  }

  predicate DistinctNodes(s: seq<Entry>) {
    forall i, j :: 0 <= i < j < |s| ==> s[i].node != s[j].node
  }

  /** The name of an entry is its type's. */
  predicate Named(s: seq<Entry>) {
    forall i :: 0 <= i < |s| ==> s[i].name == s[i].target.name
  }

  /** Entries with the same name have the same type. */
  predicate Coherent(s: seq<Entry>) {
    forall i, j :: 0 <= i < |s| && 0 <= j < |s| && s[i].name == s[j].name ==> s[i].target == s[j].target
  }

  lemma FirstIs(s: seq<Entry>, q: Query, i: nat)
    requires i < |s| && Matches(s[i], q) && forall j :: 0 <= j < i ==> !Matches(s[j], q)
    ensures First(s, q) == i
  {
    FirstIsFirst(s, q, 0, i);
  }

  lemma ToFrontPermutes<T>(s: seq<T>, i: nat)
    requires i < |s|
    ensures multiset(ToFront(s, i)) == multiset(s)
  {
    assert s == s[..i] + [s[i]] + s[i + 1..];
    ToFrontTakesOut(s, i);
  }

  /** A lookup permutes the list, and keeps what is true of its entries. */
  lemma LookupPermutes(s: seq<Entry>, q: Query)
    ensures multiset(AfterLookup(s, q)) == multiset(s)
    ensures DistinctNodes(s) ==> DistinctNodes(AfterLookup(s, q))
    ensures Named(s) ==> Named(AfterLookup(s, q))
    ensures Coherent(s) ==> Coherent(AfterLookup(s, q))
  {
    var i := First(s, q);
    if i < |s| {
      ToFrontPermutes(s, i);
      if DistinctNodes(s) { NodesAfterMove(s, i); }
      if Coherent(s) { CoherentAfterMove(s, i); }
    }
  }

  lemma NodesAfterMove(s: seq<Entry>, i: nat)
    requires i < |s| && DistinctNodes(s)
    ensures DistinctNodes(ToFront(s, i))
  {
  }

  lemma CoherentAfterMove(s: seq<Entry>, i: nat)
    requires i < |s| && Coherent(s)
    ensures Coherent(ToFront(s, i))
  {
  }

  lemma MoveKeepsOtherAnswers(s: seq<Entry>, i: nat, later: Query)
    requires i < |s| && !Matches(s[i], later)
    ensures Found(ToFront(s, i), later) == Found(s, later)
  {
    var r, k := ToFront(s, i), First(s, later);
    if k < |s| {
      var at := if k < i then k + 1 else k;
      assert Origin(i, at) == k;
      forall j | 0 <= j < at ensures !Matches(r[j], later) {
        if Matches(s[Origin(i, j)], later) { FirstIsFirst(s, later, 0, Origin(i, j)); }
      }
      FirstIs(r, later, at);
    } else if First(r, later) < |r| {
      FirstIsFirst(s, later, 0, Origin(i, First(r, later)));
    }
  }

  /** A lookup changes what a later one answers exactly when it brings to the front an entry the later
      one also matches but would not have reached first. */
  lemma LookupChangesAnswer(s: seq<Entry>, q: Query, later: Query)
    requires DistinctNodes(s)
    ensures Found(AfterLookup(s, q), later) != Found(s, later)
       <==> First(s, q) < |s| && Matches(s[First(s, q)], later) && First(s, later) != First(s, q)
  {
    var i := First(s, q);
    if i < |s| {
      if Matches(s[i], later) {
        FirstIs(ToFront(s, i), later, 0);
      } else {
        MoveKeepsOtherAnswers(s, i, later);
      }
    }
  }

  lemma CoherentLookupKeepsAnswer(s: seq<Entry>, q: Query, later: Query)
    requires DistinctNodes(s) && Named(s) && Coherent(s)
    ensures Found(AfterLookup(s, q), later) == Found(s, later)
  {
    LookupChangesAnswer(s, q, later);
    var i, k := First(s, q), First(s, later);
    if i < |s| && Matches(s[i], later) {
      // both queries match exactly the entries with this type
      FirstIsFirst(s, later, 0, i);
      assert s[k].name == s[i].name && s[k].target == s[i].target;
      FirstIsFirst(s, q, 0, k);
    }
  }

  /** After any history of lookups, each lookup answers what a linear search of the original list would. */
  lemma {:induction false} HistoryDoesNotMatter(s: seq<Entry>, history: seq<Query>, q: Query)
    requires DistinctNodes(s) && Named(s) && Coherent(s)
    ensures Found(AfterLookups(s, history), q) == Found(s, q)
    decreases |history|
  {
    if history != [] {
      LookupPermutes(s, history[0]);
      HistoryDoesNotMatter(AfterLookup(s, history[0]), history[1..], q);
      CoherentLookupKeepsAnswer(s, history[0], q);
    }
  }

  /** On a list with two types of one name it does matter: some single lookup changes the answer to some
      other. */
  lemma IncoherentListRemembers(s: seq<Entry>) returns (q: Query, later: Query)
    requires DistinctNodes(s) && Named(s) && !Coherent(s)
    ensures Found(AfterLookups(s, [q]), later) != Found(s, later)
  {
    var i, j :| 0 <= i < |s| && 0 <= j < |s| && s[i].name == s[j].name && s[i].target != s[j].target;
    later := ByName(s[i].name);
    FirstIsFirst(s, later, 0, i);
    var k := if s[First(s, later)].target == s[i].target then j else i;
    q := ByType(s[k].target);
    TypeLookupChangesNameLookup(s, k);
    assert AfterLookups(s, [q]) == AfterLookup(s, q) by {
      assert [q][1..] == [];
    }
  }

  lemma TypeLookupChangesNameLookup(s: seq<Entry>, k: nat)
    requires DistinctNodes(s) && Named(s) && k < |s|
    requires var f := First(s, ByName(s[k].name)); f < |s| && s[f].target != s[k].target
    ensures Found(AfterLookup(s, ByType(s[k].target)), ByName(s[k].name)) != Found(s, ByName(s[k].name))
  {
    var q := ByType(s[k].target);
    FirstIsFirst(s, q, 0, k);
    LookupChangesAnswer(s, q, ByName(s[k].name));
  }

  /** Lookups of one sort only never matter, whatever the names. */
  lemma {:induction false} NameLookupsNeverMatter(s: seq<Entry>, history: seq<Query>, q: Query)
    requires DistinctNodes(s) && q.ByName? && forall h :: h in history ==> h.ByName?
    ensures Found(AfterLookups(s, history), q) == Found(s, q)
    decreases |history|
  {
    if history != [] {
      assert history[0] in history;
      LookupPermutes(s, history[0]);
      NameLookupsNeverMatter(AfterLookup(s, history[0]), history[1..], q);
      LookupChangesAnswer(s, history[0], q);
    }
  }

  // ----- Building a list -----

  /** Types already loaded by other modules, by name. */
  type Loaded = map<string, TypeInfo>

  ghost predicate NamesAgree(loaded: Loaded) {
    forall name :: name in loaded ==> loaded[name].name == name
  }

  /** One turn of the loop in `SWIG_InitializeModule` that fills a type's list. `own` says that the type is
      this module's and not one found loaded. A loaded cast type replaces the module's own; a cast that a
      loaded type already has is only looked up; any other cast becomes the head. */
  function AddCast(s: seq<Entry>, e: Entry, own: bool, loaded: Loaded): seq<Entry> {
    if e.name in loaded && own then [Entry(e.node, loaded[e.name], loaded[e.name].name)] + s
    else if e.name in loaded && First(s, ByName(e.name)) < |s| then AfterLookup(s, ByName(e.name))
    else [e] + s
  }

  function AddCasts(s: seq<Entry>, es: seq<Entry>, own: bool, loaded: Loaded): seq<Entry>
    decreases |es|
  {
    if es == [] then s else AddCast(AddCasts(s, es[..|es| - 1], own, loaded), es[|es| - 1], own, loaded)
  }

  predicate HasName(s: seq<Entry>, name: string) {
    exists i :: 0 <= i < |s| && s[i].name == name
  }

  predicate DistinctNames(s: seq<Entry>) {
    forall i, j :: 0 <= i < j < |s| ==> s[i].name != s[j].name
  }

  lemma MoveKeepsNames(s: seq<Entry>, i: nat, name: string)
    requires i < |s|
    ensures HasName(ToFront(s, i), name) <==> HasName(s, name)
    ensures DistinctNames(s) ==> DistinctNames(ToFront(s, i))
  {
    var r := ToFront(s, i);
    if HasName(s, name) {
      var k :| 0 <= k < |s| && s[k].name == name;
      var at := if k == i then 0 else if k < i then k + 1 else k;
      assert Origin(i, at) == k && r[at].name == name;
    }
    if HasName(r, name) {
      var j :| 0 <= j < |r| && r[j].name == name;
      assert s[Origin(i, j)].name == name;
    }
    if DistinctNames(s) {
      forall a, b | 0 <= a < b < |r| ensures r[a].name != r[b].name {
        assert Origin(i, a) != Origin(i, b);
      }
    }
  }

  lemma AddCastNames(s: seq<Entry>, e: Entry, own: bool, loaded: Loaded, name: string)
    requires NamesAgree(loaded)
    ensures HasName(AddCast(s, e, own, loaded), name) <==> HasName(s, name) || name == e.name
  {
    var r := AddCast(s, e, own, loaded);
    if e.name in loaded && !own && First(s, ByName(e.name)) < |s| {
      MoveKeepsNames(s, First(s, ByName(e.name)), name);
    } else {
      assert r[0].name == e.name && r[1..] == s;
      if HasName(s, name) {
        var k :| 0 <= k < |s| && s[k].name == name;
        assert r[k + 1].name == name;
      }
      if HasName(r, name) && name != e.name {
        var j :| 0 <= j < |r| && r[j].name == name;
        assert s[j - 1].name == name;
      }
    }
  }

  /** The list ends up with exactly the names it had and the names the module declares. */
  lemma {:induction false} AddCastsNames(s: seq<Entry>, es: seq<Entry>, own: bool, loaded: Loaded, name: string)
    requires NamesAgree(loaded)
    ensures HasName(AddCasts(s, es, own, loaded), name) <==> HasName(s, name) || HasName(es, name)
    decreases |es|
  {
    if es != [] {
      var rest, e := es[..|es| - 1], es[|es| - 1];
      AddCastsNames(s, rest, own, loaded, name);
      AddCastNames(AddCasts(s, rest, own, loaded), e, own, loaded, name);
      HasNameOfLast(es, name);
    }
  }

  lemma HasNameOfLast(es: seq<Entry>, name: string)
    requires es != []
    ensures HasName(es, name) <==> HasName(es[..|es| - 1], name) || name == es[|es| - 1].name
    ensures DistinctNames(es) ==> !HasName(es[..|es| - 1], es[|es| - 1].name)
  {
  }

  /** On a type of the module itself every cast becomes the head in its turn, cast i from the loaded type of its name
      if there is one, and otherwise from the one declared. */
  lemma {:induction false} OwnCastsAreListedBackwards(s: seq<Entry>, es: seq<Entry>, loaded: Loaded)
    requires NamesAgree(loaded)
    ensures var r := AddCasts(s, es, true, loaded);
            && |r| == |es| + |s| && r[|es|..] == s
            && forall i :: 0 <= i < |es| ==>
                 r[|es| - 1 - i]
                 == Entry(es[i].node, if es[i].name in loaded then loaded[es[i].name] else es[i].target, es[i].name)
    decreases |es|
  {
    if es != [] { OwnCastsAreListedBackwards(s, es[..|es| - 1], loaded); }
  }

  /** The casts a loaded type is given: those not loaded or not listed before. */
  function NewCasts(s: seq<Entry>, es: seq<Entry>, loaded: Loaded): seq<Entry>
    decreases |es|
  {
    if es == [] then []
    else
      var rest, e := es[..|es| - 1], es[|es| - 1];
      NewCasts(s, rest, loaded) + if e.name in loaded && HasName(s, e.name) then [] else [e]
  }

  /** A type found loaded keeps its casts and gets just those, as they are declared. */
  lemma {:induction false} LoadedTypeGetsNewCasts(s: seq<Entry>, es: seq<Entry>, loaded: Loaded)
    requires NamesAgree(loaded) && DistinctNames(es)
    ensures multiset(AddCasts(s, es, false, loaded)) == multiset(s) + multiset(NewCasts(s, es, loaded))
    decreases |es|
  {
    if es == [] {
      assert multiset(s) + multiset([]) == multiset(s);
    } else {
      var rest, e := es[..|es| - 1], es[|es| - 1];
      var before := AddCasts(s, rest, false, loaded);
      LoadedTypeGetsNewCasts(s, rest, loaded);
      AddCastsNames(s, rest, false, loaded, e.name);
      HasNameOfLast(es, e.name);
      if e.name in loaded && HasName(s, e.name) {
        var k :| 0 <= k < |before| && before[k].name == e.name;
        FirstIsFirst(before, ByName(e.name), 0, k);
        ToFrontPermutes(before, First(before, ByName(e.name)));
      } else {
        assert !(e.name in loaded && First(before, ByName(e.name)) < |before|);
        assert multiset([e] + before) == multiset([e]) + multiset(before);
      }
    }
  }

  /** No name is listed twice, if no name was declared twice and a list found loaded only names loaded types. */
  lemma {:induction false} AddCastsKeepsNamesDistinct(s: seq<Entry>, es: seq<Entry>, own: bool, loaded: Loaded)
    requires NamesAgree(loaded) && DistinctNames(s) && DistinctNames(es)
    requires own ==> s == []
    requires forall i :: 0 <= i < |s| ==> s[i].name in loaded
    ensures DistinctNames(AddCasts(s, es, own, loaded))
    decreases |es|
  {
    if es != [] {
      var rest, e := es[..|es| - 1], es[|es| - 1];
      AddCastsKeepsNamesDistinct(s, rest, own, loaded);
      var before := AddCasts(s, rest, own, loaded);
      AddCastsNames(s, rest, own, loaded, e.name);
      HasNameOfLast(es, e.name);
      if e.name in loaded && !own && First(before, ByName(e.name)) < |before| {
        MoveKeepsNames(before, First(before, ByName(e.name)), e.name);
      } else {
        assert !HasName(before, e.name) by {
          if HasName(before, e.name) && e.name in loaded && !own {
            var k :| 0 <= k < |before| && before[k].name == e.name;
            FirstIsFirst(before, ByName(e.name), 0, k);
          }
        }
      }
    }
  }

  /** Distinct names make a list on which the history of lookups does not matter. */
  lemma DistinctNamesAreCoherent(s: seq<Entry>)
    requires DistinctNames(s)
    ensures Coherent(s)
  {
  }

  // ----- The linked list -----

  ghost function NodeAt(casts: seq<Cast>, i: int): Cast? {
    if 0 <= i < |casts| then casts[i] else null
  }

  predicate Is(c: Cast, q: Query)
    reads c
  {
    match q
    case ByName(name) => c.target.name == name
    case ByType(t) => c.target == t
  }

  ghost function EntryOf(c: Cast): Entry
    reads c`target
  {
    Entry(c, c.target, c.target.name)
  }

  ghost function EntriesUpTo(casts: seq<Cast>, n: nat): (s: seq<Entry>)
    requires n <= |casts|
    reads casts`target
    ensures |s| == n
    ensures forall i :: 0 <= i < n ==> s[i] == EntryOf(casts[i])
  {
    if n == 0 then [] else EntriesUpTo(casts, n - 1) + [EntryOf(casts[n - 1])]
  }

  ghost function Entries(casts: seq<Cast>): (s: seq<Entry>)
    reads casts`target
    ensures |s| == |casts|
    ensures forall i :: 0 <= i < |s| ==> s[i] == EntryOf(casts[i])
  {
    EntriesUpTo(casts, |casts|)
  }

  ghost predicate Unlinked(c: Cast, ty: TypeInfo)
    reads c, ty`casts
  {
    c !in ty.casts && c.next == null && c.prev == null
  }

  /** `swig_type_info`. */
  class TypeInfo {
    const name: string
    var cast: Cast?
    ghost var casts: seq<Cast>

    constructor (name: string)
      ensures this.name == name && cast == null && casts == [] && Valid()
    {
      this.name, cast, casts := name, null, [];
    }

    ghost function At(i: int): Cast?
      reads this`casts
    {
      NodeAt(casts, i)
    }

    ghost predicate Valid()
      reads this`cast, this`casts, casts`next, casts`prev
    {
      && cast == At(0)
      && (forall i {:trigger casts[i].next} :: 0 <= i < |casts| ==> casts[i].next == At(i + 1))
      && (forall i {:trigger casts[i].prev} :: 0 <= i < |casts| ==> casts[i].prev == At(i - 1))
      && (forall i, j :: 0 <= i < j < |casts| ==> casts[i] != casts[j])
    }

    ghost function View(): seq<Entry>
      reads this`casts, casts`target
    {
      Entries(casts)
    }

    /** The loop of both checks. */
    method Search(q: Query) returns (iter: Cast?, ghost i: nat)
      requires Valid()
      ensures i == First(View(), q) && iter == At(i)
    {
      iter := cast;
      i := 0;
      while iter != null && !Is(iter, q)
        invariant i <= |casts| && iter == At(i)
        invariant FirstFrom(View(), q, i) == First(View(), q)
        decreases |casts| - i
      {
        iter := iter.next;
        i := i + 1;
      }
    }

    /** Both checks: finds the first match and relinks it at the front. */
    method Lookup(q: Query) returns (iter: Cast?)
      requires Valid()
      modifies this`cast, this`casts, casts`next, casts`prev
      ensures Valid() && iter == Found(old(View()), q)
      ensures View() == AfterLookup(old(View()), q)
      ensures forall x :: x in casts <==> x in old(casts)
      ensures iter == null ==> casts == old(casts)
    {
      ghost var i;
      iter, i := Search(q);
      if iter == null { return; }
      if iter == cast {
        ToFrontOfFirst(View());
        return;
      }
      MoveToTop(iter, i);
    }

    /** Takes node i out of the links of its neighbours. */
    method Unlink(iter: Cast, ghost i: nat)
      requires Valid() && 0 < i < |casts| && iter == casts[i]
      modifies casts`next, casts`prev
      ensures forall k {:trigger casts[k].next} :: 0 <= k < |casts| ==>
                casts[k].next == At(if k == i - 1 then i + 1 else k + 1)
      ensures forall k {:trigger casts[k].prev} :: 0 <= k < |casts| ==>
                casts[k].prev == At(if k == i + 1 then i - 1 else k - 1)
    {
      iter.prev.next := iter.next;
      if iter.next != null {
        iter.next.prev := iter.prev;
      }
    }

    /** Takes node i out of the list and puts it before the head. */
    method Relink(iter: Cast, ghost i: nat)
      requires Valid() && 0 < i < |casts| && iter == casts[i]
      modifies this`cast, casts`next, casts`prev
      ensures cast == iter
      ensures forall k {:trigger casts[k].next} :: 0 <= k < |casts| ==> casts[k].next == At(NextAfterMove(i, k))
      ensures forall k {:trigger casts[k].prev} :: 0 <= k < |casts| ==> casts[k].prev == At(PrevAfterMove(i, k))
    {
      Unlink(iter, i);
      iter.next := cast;
      iter.prev := null;
      if cast != null { cast.prev := iter; }
      cast := iter;
    }

    /** One turn of the loop in `SWIG_InitializeModule`. */
    method Add(c: Cast, own: bool, loaded: Loaded)
      requires Valid() && NamesAgree(loaded) && c !in casts && c.next == null && c.prev == null
      modifies this`cast, this`casts, casts`next, casts`prev, c
      ensures Valid() && (forall x :: x in casts ==> x in old(casts) || x == c)
      ensures View() == AddCast(old(View()), old(EntryOf(c)), own, loaded)
    {
      if c.target.name !in loaded {
        Prepend(c);
      } else if own {
        AddWithTarget(c, loaded[c.target.name]);
      } else {
        var ocast := Lookup(ByName(c.target.name));
        if ocast == null { Prepend(c); }
      }
    }

    method AddWithTarget(c: Cast, target: TypeInfo)
      requires Valid() && c !in casts && c.next == null && c.prev == null
      modifies this`cast, this`casts, casts`prev, c
      ensures Valid() && casts == [c] + old(casts)
      ensures View() == [Entry(c, target, target.name)] + old(View())
    {
      c.target := target;
      Prepend(c);
    }

    method Prepend(c: Cast)
      requires Valid() && c !in casts && c.next == null && c.prev == null
      modifies this`cast, this`casts, casts`prev, c`next
      ensures Valid() && casts == [c] + old(casts)
      ensures View() == [EntryOf(c)] + old(View())
    {
      EntriesAfterPrepend(c, casts);
      LinkFirst(c);
      LinksAfterPrepend(c, casts);
      casts := [c] + casts;
    }

    /** Links a new node before the head. */
    method LinkFirst(c: Cast)
      requires Valid() && c !in casts && c.next == null && c.prev == null
      modifies this`cast, casts`prev, c`next
      ensures cast == c && c.next == At(0) && c.prev == null
      ensures forall i {:trigger casts[i].next} :: 0 <= i < |casts| ==> casts[i].next == At(i + 1)
      ensures forall i {:trigger casts[i].prev} :: 0 <= i < |casts| ==> casts[i].prev == if i == 0 then c else At(i - 1)
    {
      if cast != null {
        cast.prev := c;
        c.next := cast;
      }
      cast := c;
    }

    method MoveToTop(iter: Cast, ghost i: nat)
      requires Valid() && 0 < i < |casts| && iter == casts[i]
      modifies this`cast, this`casts, casts`next, casts`prev
      ensures Valid() && casts == ToFront(old(casts), i)
      ensures View() == ToFront(old(View()), i)
      ensures forall x :: x in casts <==> x in old(casts)
    {
      EntriesAfterMove(casts, i);
      ToFrontMembers(casts, i);
      CastsAfterMove(casts, i);
      Relink(iter, i);
      LinksAfterMove(casts, i);
      casts := ToFront(casts, i);
    }
  }

  lemma ToFrontOfFirst(s: seq<Entry>)
    requires s != []
    ensures ToFront(s, 0) == s
  {
  }

  lemma EntriesAfterPrepend(c: Cast, s: seq<Cast>)
    ensures Entries([c] + s) == [EntryOf(c)] + Entries(s)
  {
  }

  lemma LinksAfterPrepend(c: Cast, s: seq<Cast>)
    requires c !in s && c.next == NodeAt(s, 0) && c.prev == null
    requires forall i {:trigger s[i].next} :: 0 <= i < |s| ==> s[i].next == NodeAt(s, i + 1)
    requires forall i {:trigger s[i].prev} :: 0 <= i < |s| ==> s[i].prev == if i == 0 then c else NodeAt(s, i - 1)
    ensures var r := [c] + s;
            && (forall j {:trigger r[j].next} :: 0 <= j < |r| ==> r[j].next == NodeAt(r, j + 1))
            && (forall j {:trigger r[j].prev} :: 0 <= j < |r| ==> r[j].prev == NodeAt(r, j - 1))
  {
    var r := [c] + s;
    forall j | 0 <= j < |r| ensures r[j].next == NodeAt(r, j + 1) && r[j].prev == NodeAt(r, j - 1) {
      if j > 0 { assert r[j] == s[j - 1]; }
    }
  }

  lemma LinksAfterMove(s: seq<Cast>, i: nat)
    requires 0 < i < |s|
    requires forall k {:trigger s[k].next} :: 0 <= k < |s| ==> s[k].next == NodeAt(s, NextAfterMove(i, k))
    requires forall k {:trigger s[k].prev} :: 0 <= k < |s| ==> s[k].prev == NodeAt(s, PrevAfterMove(i, k))
    ensures var r := ToFront(s, i);
            && (forall j {:trigger r[j].next} :: 0 <= j < |r| ==> r[j].next == NodeAt(r, j + 1))
            && (forall j {:trigger r[j].prev} :: 0 <= j < |r| ==> r[j].prev == NodeAt(r, j - 1))
  {
    var r := ToFront(s, i);
    forall j | 0 <= j < |r| ensures r[j].next == NodeAt(r, j + 1) && r[j].prev == NodeAt(r, j - 1) {
      NeighboursAfterMove(s, i, j);
      var k := Origin(i, j);
      assert s[k].next == NodeAt(s, NextAfterMove(i, k)) && s[k].prev == NodeAt(s, PrevAfterMove(i, k));
    }
  }

  /** Where the neighbours of position k were before position i moved to the front. */
  function NextAfterMove(i: nat, k: nat): int {
    if k == i then 0 else if k == i - 1 then i + 1 else k + 1
  }

  function PrevAfterMove(i: nat, k: nat): int {
    if k == i then -1 else if k == 0 then i else if k == i + 1 then i - 1 else k - 1
  }

  lemma ToFrontMembers(s: seq<Cast>, i: nat)
    requires i < |s|
    ensures forall x :: x in ToFront(s, i) <==> x in s
  {
    ToFrontPermutes(s, i);
    forall x ensures x in ToFront(s, i) <==> x in s {
      assert x in multiset(ToFront(s, i)) <==> x in multiset(s);
    }
  }

  lemma CastsAfterMove(s: seq<Cast>, i: nat)
    requires i < |s| && forall a, b :: 0 <= a < b < |s| ==> s[a] != s[b]
    ensures var r := ToFront(s, i); forall a, b :: 0 <= a < b < |r| ==> r[a] != r[b]
  {
  }

  lemma EntriesAfterMove(casts: seq<Cast>, i: nat)
    requires i < |casts|
    ensures Entries(ToFront(casts, i)) == ToFront(Entries(casts), i)
  {
  }

  /** The neighbours of position j after position i has moved to the front, by where j came from. */
  lemma NeighboursAfterMove(s: seq<Cast>, i: nat, j: nat)
    requires 0 < i < |s| && j < |s|
    ensures var r, k := ToFront(s, i), Origin(i, j);
            && r[j] == s[k]
            && NodeAt(r, j + 1) == NodeAt(s, NextAfterMove(i, k))
            && NodeAt(r, j - 1) == NodeAt(s, PrevAfterMove(i, k))
  {
  }

  lemma AddCastsStep(s: seq<Entry>, es: seq<Entry>, n: nat, own: bool, loaded: Loaded)
    requires n < |es|
    ensures AddCasts(s, es[..n + 1], own, loaded) == AddCast(AddCasts(s, es[..n], own, loaded), es[n], own, loaded)
  {
    assert es[..n + 1][..n] == es[..n];
  }

  /** The casts declared from position n on are still as they were: in no list, with the entries es. */
  ghost predicate Pending(ty: TypeInfo, declared: seq<Cast>, es: seq<Entry>, n: nat)
    reads ty`casts, declared
  {
    |es| == |declared| && forall i :: n <= i < |declared| ==> Unlinked(declared[i], ty) && EntryOf(declared[i]) == es[i]
  }

  predicate Different(declared: seq<Cast>) {
    forall i, j :: 0 <= i < j < |declared| ==> declared[i] != declared[j]
  }

  /** The list holds only casts it held before and casts declared. */
  ghost predicate Within(ty: TypeInfo, before: seq<Cast>, declared: seq<Cast>)
    reads ty`casts
  {
    forall i :: 0 <= i < |ty.casts| ==> ty.casts[i] in before || ty.casts[i] in declared
  }

  /** One turn of the loop: the casts still to come are not touched. */
  method AddDeclared(ty: TypeInfo, declared: seq<Cast>, n: nat, own: bool, loaded: Loaded,
                     ghost es: seq<Entry>, ghost first: seq<Cast>)
    requires ty.Valid() && NamesAgree(loaded) && n < |declared| && Different(declared)
    requires Pending(ty, declared, es, n) && Within(ty, first, declared)
    modifies ty, ty.casts, declared[n]
    ensures ty.Valid() && ty.View() == AddCast(old(ty.View()), es[n], own, loaded)
    ensures Pending(ty, declared, es, n + 1) && Within(ty, first, declared)
  {
    ghost var c, before := declared[n], ty.casts;
    ty.Add(declared[n], own, loaded);
    forall i | n + 1 <= i < |declared| ensures Unlinked(declared[i], ty) && EntryOf(declared[i]) == es[i] {
      assert declared[i] != c && declared[i] !in before;
    }
    forall i | 0 <= i < |ty.casts| ensures ty.casts[i] in first || ty.casts[i] in declared {
      assert ty.casts[i] in ty.casts;
    }
  }

  /** The loop itself: the casts a module declares for one type. */
  method FillCastList(ty: TypeInfo, declared: seq<Cast>, own: bool, loaded: Loaded)
    requires ty.Valid() && NamesAgree(loaded) && Different(declared)
    requires forall i :: 0 <= i < |declared| ==> Unlinked(declared[i], ty)
    modifies ty, ty.casts, declared
    ensures ty.Valid() && ty.View() == AddCasts(old(ty.View()), old(Entries(declared)), own, loaded)
  {
    ghost var before, es := ty.View(), Entries(declared);
    for n := 0 to |declared|
      invariant ty.Valid() && ty.View() == AddCasts(before, es[..n], own, loaded)
      invariant Pending(ty, declared, es, n) && Within(ty, old(ty.casts), declared)
    {
      AddCastsStep(before, es, n, own, loaded);
      AddDeclared(ty, declared, n, own, loaded, es, old(ty.casts));
    }
    assert es[..|declared|] == es;
  }

  /** `SWIG_TypeCheck`. */
  method TypeCheck(c: string, ty: TypeInfo?) returns (r: Cast?)
    requires ty != null ==> ty.Valid()
    modifies if ty == null then {} else {ty}, if ty == null then [] else ty.casts
    ensures ty == null ==> r == null
    ensures ty != null ==> ty.Valid() && r == Found(old(ty.View()), ByName(c))
    ensures ty != null ==> ty.View() == AfterLookup(old(ty.View()), ByName(c))
  {
    r := null;
    if ty != null { r := ty.Lookup(ByName(c)); }
  }

  /** `SWIG_TypeCheckStruct`. */
  method TypeCheckStruct(from: TypeInfo, ty: TypeInfo?) returns (r: Cast?)
    requires ty != null ==> ty.Valid()
    modifies if ty == null then {} else {ty}, if ty == null then [] else ty.casts
    ensures ty == null ==> r == null
    ensures ty != null ==> ty.Valid() && r == Found(old(ty.View()), ByType(from))
    ensures ty != null ==> ty.View() == AfterLookup(old(ty.View()), ByType(from))
  {
    r := null;
    if ty != null { r := ty.Lookup(ByType(from)); }
  }
}
