/** The option registry and the references to options. */
module Options {
  import opened PointerList
  import opened SortedList

  /** The identity of a creator, an owner or the application object. */
  type Creator = int

  // ---------- lookup ----------

  function NameOf(o: Option?): string {
    if o == null then "" else o.name
  }

  /** The first option of a name; null when there is none. */
  function Named(s: seq<Option?>, name: string): Option? {
    if s == [] then null else if NameOf(s[0]) == name then s[0] else Named(s[1..], name)
  }

  predicate Matches(o: Option?, name: string, creator: Creator) {
    o != null && o.name == name && o.creator == creator
  }

  /** What the scan of a block of equal names ends with. */
  function Scan(s: seq<Option?>, name: string, creator: Creator): Outcome<Option?> {
    if s == [] then Exited(1)
    else if NameOf(s[0]) != name || s[0] == null then Returned(null)
    else if s[0].creator == creator then Returned(s[0])
    else Scan(s[1..], name, creator)
  }

  /** Lookup by name and creator. */
  function Owned(s: seq<Option?>, name: string, creator: Creator): Outcome<Option?> {
    var i := Place(NameOf, s, name);
    if i < |s| && NameOf(s[i]) == name then Scan(s[i..], name, creator) else Returned(null)
  }

  predicate NoNull(s: seq<Option?>) {
    null !in s
  }

  predicate HasMatch(s: seq<Option?>, name: string, creator: Creator) {
    exists j :: 0 <= j < |s| && Matches(s[j], name, creator)
  }

  predicate AllNamed(s: seq<Option?>, name: string) {
    forall j :: 0 <= j < |s| ==> NameOf(s[j]) == name
  }

  /** `Named` skips the options before the first of the name. */
  lemma {:induction false} NamedIsFirst(s: seq<Option?>, name: string)
    requires NoNull(s)
    ensures Named(s, name) == null <==> !Present(NameOf, s, name)
    ensures forall i :: (0 <= i < |s| && NameOf(s[i]) == name && forall j :: 0 <= j < i ==> NameOf(s[j]) != name)
                        ==> Named(s, name) == s[i]
  {
    if s != [] && NameOf(s[0]) != name {
      NamedIsFirst(s[1..], name);
      assert forall j :: 0 < j < |s| ==> s[1..][j - 1] == s[j];
    }
  }

  lemma NoneNamedPast(s: seq<Option?>, name: string)
    requires Sorted(NameOf, s) && s != [] && AtMost(name, NameOf(s[0])) && NameOf(s[0]) != name
    ensures forall j :: 0 <= j < |s| ==> NameOf(s[j]) != name
  {
    CompareSwaps(NameOf(s[0]), name);
    CompareZero(NameOf(s[0]), name);
    forall j | 0 <= j < |s|
      ensures NameOf(s[j]) != name
    {
      assert j > 0 ==> AtMost(NameOf(s[0]), NameOf(s[j]));
    }
  }

  lemma {:induction false} ScanFinds(s: seq<Option?>, name: string, creator: Creator)
    requires NoNull(s) && Sorted(NameOf, s)
    requires forall j :: 0 <= j < |s| ==> AtMost(name, NameOf(s[j]))
    ensures var r := Scan(s, name, creator);
            && (r.Returned? && r.value != null <==> HasMatch(s, name, creator))
            && (r.Returned? && r.value != null ==> r.value in s && Matches(r.value, name, creator))
            && (r == Exited(1) <==> AllNamed(s, name) && !HasMatch(s, name, creator))
  {
    if s != [] {
      if s[0].name != name {
        NoneNamedPast(s, name);
      } else if s[0].creator != creator {
        ScanFinds(s[1..], name, creator);
        assert forall j :: 0 < j < |s| ==> s[1..][j - 1] == s[j];
        if HasMatch(s, name, creator) {
          var j :| 0 <= j < |s| && Matches(s[j], name, creator);
          assert Matches(s[1..][j - 1], name, creator);
        }
        assert AllNamed(s[1..], name) ==> AllNamed(s, name);
      } else {
        assert Matches(s[0], name, creator) && s[0] in s;
      }
    }
  }

  /**
   * Lookup by name and creator finds a match whenever there is one; without one it gives null, or
   * ends the program: exactly when the name is there and the last option of the list has it.
   */
  lemma LookupFindsOwned(s: seq<Option?>, name: string, creator: Creator)
    requires NoNull(s) && Sorted(NameOf, s)
    ensures var r := Owned(s, name, creator);
            && (r.Returned? && r.value != null <==> HasMatch(s, name, creator))
            && (r.Returned? && r.value != null ==> r.value in s && Matches(r.value, name, creator))
            && (r == Exited(1) <==> s != [] && s[|s| - 1].name == name && !HasMatch(s, name, creator))
  {
    var i := Place(NameOf, s, name);
    PlaceSplits(NameOf, s, name);
    MatchesAreRight(s, name, creator, i);
    if i < |s| {
      assert NoNull(s[i..]) && Sorted(NameOf, s[i..]);
      hide Compare, Scan, Present;
      if NameOf(s[i]) != name {
        NoneNamedPast(s[i..], name);
        assert !HasMatch(s[i..], name, creator);
        assert s[i..][|s| - i - 1] == s[|s| - 1];
      } else {
        ScanFinds(s[i..], name, creator);
        EndDecides(s[i..], name);
      }
    } else if s != [] {
      CompareZero(name, name);
      assert s[|s| - 1].name != name;
    }
  }

  /** All matches lie right of the split. */
  lemma MatchesAreRight(s: seq<Option?>, name: string, creator: Creator, i: nat)
    requires Splits(NameOf, s, name, i)
    ensures HasMatch(s, name, creator) <==> HasMatch(s[i..], name, creator)
  {
    CompareZero(name, name);
    if HasMatch(s, name, creator) {
      var j :| 0 <= j < |s| && Matches(s[j], name, creator);
      assert i <= j && Matches(s[i..][j - i], name, creator);
    }
    if HasMatch(s[i..], name, creator) {
      var j :| 0 <= j < |s| - i && Matches(s[i..][j], name, creator);
      assert Matches(s[i + j], name, creator);
    }
  }

  lemma EndDecides(s: seq<Option?>, name: string)
    requires Sorted(NameOf, s) && s != [] && NameOf(s[0]) == name
    ensures AllNamed(s, name) <==> NameOf(s[|s| - 1]) == name
  {
    if NameOf(s[|s| - 1]) == name {
      forall j | 0 < j < |s| - 1
        ensures NameOf(s[j]) == name
      {
        CompareSwaps(NameOf(s[j]), name);
        CompareZero(NameOf(s[j]), name);
        assert AtMost(NameOf(s[0]), NameOf(s[j])) && AtMost(NameOf(s[j]), NameOf(s[|s| - 1]));
      }
    }
  }

  /** Lookup by name alone: the leftmost option of that name, null when there is none. */
  lemma LookupFindsNamed(s: seq<Option?>, name: string)
    requires NoNull(s) && Sorted(NameOf, s)
    ensures var i := Place(NameOf, s, name);
            && (Present(NameOf, s, name) <==> i < |s| && NameOf(s[i]) == name)
            && Named(s, name) == (if i < |s| && NameOf(s[i]) == name then s[i] else null)
  {
    CompareZero(name, name);
    PlaceSplits(NameOf, s, name);
    SplitFinds(NameOf, s, name, Place(NameOf, s, name));
    NamedIsFirst(s, name);
  }

  // ---------- the graph of options and references ----------

  /** The live references with their option, the live options with their users and value, the registry. */
  datatype Graph = Graph(
    option: map<OptRef, Option?>,
    users: map<Option, seq<OptRef>>,
    value: map<Option, int>,
    registry: seq<Option?>)

  function Count<T(==)>(s: seq<T>, x: T): nat {
    multiset(s)[x]
  }

  /** Every reference points at a live option or at none. */
  predicate NoDangling(g: Graph) {
    forall r <- g.option :: g.option[r] == null || g.option[r] in g.users
  }

  /** A reference is among the users of the option it points at once, and among no others. */
  predicate UsersExact(g: Graph) {
    && (forall o <- g.users :: forall r <- g.users[o] :: r in g.option)
    && (forall o <- g.users, r <- g.option :: Count(g.users[o], r) == if g.option[r] == o then 1 else 0)
  }

  /** The registry holds each live option once, in the order of names. */
  predicate RegistryExact(g: Graph) {
    && NoNull(g.registry)
    && (forall o <- g.registry :: o in g.users)
    && (forall o <- g.users :: Count(g.registry, o) == 1)
    && g.value.Keys == g.users.Keys
  }

  ghost predicate Inv(g: Graph) {
    NoDangling(g) && UsersExact(g) && RegistryExact(g) && Sorted(NameOf, g.registry)
  }

  // ---------- the steps ----------

  function DelReference(g: Graph, r: OptRef): (h: Graph)
    requires r in g.option && (g.option[r] != null ==> g.option[r] in g.users)
    ensures h.option == g.option && h.users.Keys == g.users.Keys
    ensures g.option[r] == null ==> h == g
  {
    if g.option[r] == null then g
    else g.(users := g.users[g.option[r] := Disconnected(g.users[g.option[r]], r)])
  }

  function NewReference(g: Graph, r: OptRef, o: Option): Graph
    requires o in g.users
  {
    g.(option := g.option[r := o], users := g.users[o := g.users[o] + [r]])
  }

  /** new_option of a new object. */
  function Register(g: Graph, o: Option): Graph {
    g.(users := g.users[o := []], value := g.value[o := 0],
       registry := Insert(g.registry, Place(NameOf, g.registry, o.name), o))
  }

  /** del_option: no user keeps the option. */
  function Remove(g: Graph, o: Option): Graph
    requires o in g.users
  {
    Graph(map r <- g.option :: if r in g.users[o] then null else g.option[r],
          g.users - {o}, g.value - {o}, Disconnected(g.registry, o))
  }

  /** The option a reference switches to, after it left the old one. */
  function Point(g: Graph, r: OptRef, o: Option?): Graph
    requires o != null ==> o in g.users
  {
    if o == null then g.(option := g.option[r := null]) else NewReference(g, r, o)
  }

  datatype Op =
    | NewRef(r: OptRef)
    | NewRefTo(r: OptRef, o: Option)
    | Create(r: OptRef, made: Option?)
    | Use(r: OptRef)
    | UseNamed(r: OptRef, name: string)
    | Default(r: OptRef, name: string, app: Creator)
    | Destroy(r: OptRef)
    | Delete(o: Option)

  /** Calls go to live objects, and new objects are new. */
  predicate Allowed(g: Graph, op: Op) {
    match op
    case NewRef(r) => r !in g.option
    case NewRefTo(r, o) => r !in g.option && o !in g.users
    case Create(r, made) => r in g.option && (made != null ==> made !in g.users)
    case Use(r) => r in g.option
    case UseNamed(r, _) => r in g.option
    case Default(r, _, _) => r in g.option
    case Destroy(r) => r in g.option
    case Delete(o) => o in g.users
  }

  /** `Exited` when a lookup ends the program. */
  function Step(g: Graph, op: Op): Outcome<Graph>
    requires NoDangling(g) && RegistryExact(g) && Allowed(g, op)
  {
    match op
    case NewRef(r) => Returned(Point(g, r, null))
    case NewRefTo(r, o) => Returned(NewReference(Register(g, o), r, o))
    case Create(r, made) =>
      var g1 := DelReference(g, r);
      Returned(if made == null then Point(g1, r, null) else NewReference(Register(g1, made), r, made))
    case Use(r) =>
      Returned(if g.option[r] == null then g else NewReference(DelReference(g, r), r, g.option[r]))
    case UseNamed(r, name) =>
      NamedIsLive(g, name);
      Returned(Point(DelReference(g, r), r, Named(g.registry, name)))
    case Default(r, name, app) =>
      (match Owned(g.registry, name, app)
       case Exited(c) => Exited(c)
       case Returned(o) =>
         OwnedIsLive(g, name, app);
         Returned(if o == null || g.option[r] == null then g
                  else g.(value := g.value[g.option[r] := g.value[o]])))
    case Destroy(r) =>
      var o := g.option[r];
      var g1 := DelReference(g, r);
      var g2 := if o != null && o.creator == r.owner then Remove(g1, o) else g1;
      Returned(g2.(option := g2.option - {r}))
    case Delete(o) => Returned(Remove(g, o))
  }

  lemma {:induction false} NamedIn(s: seq<Option?>, name: string)
    ensures Named(s, name) == null || Named(s, name) in s
  {
    if s != [] && NameOf(s[0]) != name {
      NamedIn(s[1..], name);
    }
  }

  lemma NamedIsLive(g: Graph, name: string)
    requires RegistryExact(g)
    ensures Named(g.registry, name) != null ==> Named(g.registry, name) in g.users
  {
    NamedIn(g.registry, name);
  }

  lemma {:induction false} ScanIn(s: seq<Option?>, name: string, creator: Creator)
    ensures var r := Scan(s, name, creator); r.Returned? && r.value != null ==> r.value in s
  {
    if s != [] && NameOf(s[0]) == name && s[0] != null && s[0].creator != creator {
      ScanIn(s[1..], name, creator);
    }
  }

  lemma OwnedIsLive(g: Graph, name: string, creator: Creator)
    requires RegistryExact(g)
    ensures var r := Owned(g.registry, name, creator); r.Returned? && r.value != null ==> r.value in g.users
  {
    ScanIn(g.registry[Place(NameOf, g.registry, name)..], name, creator);
  }

  // ---------- every step keeps the invariant ----------

  lemma CountAppend<T>(s: seq<T>, x: T, y: T)
    ensures Count(s + [x], y) == Count(s, y) + if x == y then 1 else 0
    ensures y in s <==> Count(s, y) > 0
    ensures y in s + [x] <==> y in s || y == x
  {
  }

  lemma CountDisconnected<T>(s: seq<T>, x: T, y: T)
    ensures Count(Disconnected(s, x), y) == if x == y && Count(s, x) > 0 then Count(s, x) - 1 else Count(s, y)
    ensures y in Disconnected(s, x) ==> y in s
  {
    if y in Disconnected(s, x) {
      assert Count(Disconnected(s, x), y) > 0;
    }
  }

  /** A new user, for a reference that is no user yet. */
  lemma NewUser(g: Graph, r: OptRef, o: Option)
    requires UsersExact(g) && o in g.users && forall p <- g.users :: Count(g.users[p], r) == 0
    ensures UsersExact(NewReference(g, r, o))
  {
    hide Count;
    var h := NewReference(g, r, o);
    forall p <- h.users, q <- h.option
      ensures Count(h.users[p], q) == if h.option[q] == p then 1 else 0
    {
      CountAppend(g.users[o], r, q);
      if q != r {
        assert Count(g.users[p], q) == if g.option[q] == p then 1 else 0;
      } else {
        assert Count(g.users[p], r) == 0;
      }
    }
    forall p <- h.users, q <- h.users[p]
      ensures q in h.option
    {
      CountAppend(g.users[o], r, q);
    }
  }

  lemma NotAUser(g: Graph, r: OptRef)
    requires NoDangling(g) && UsersExact(g) && (r in g.option ==> g.option[r] == null)
    ensures forall p <- g.users :: Count(g.users[p], r) == 0
  {
    forall p <- g.users
      ensures Count(g.users[p], r) == 0
    {
      if r !in g.option {
        assert r !in g.users[p];
      }
    }
  }

  lemma NewReferenceKeeps(g: Graph, r: OptRef, o: Option)
    requires Inv(g) && o in g.users && (r in g.option ==> g.option[r] == null)
    ensures Inv(NewReference(g, r, o))
  {
    hide UsersExact, Sorted, NoNull, Count;
    NotAUser(g, r);
    NewUser(g, r, o);
  }

  lemma RegisterKeeps(g: Graph, o: Option)
    requires Inv(g) && o !in g.users
    ensures Inv(Register(g, o))
  {
    PlaceSplits(NameOf, g.registry, o.name);
    InsertionSorts(NameOf, g.registry, Place(NameOf, g.registry, o.name), o);
  }

  /** A reference that left its option: the state between `del_reference` and the new option. */
  function Detached(g: Graph, r: OptRef): Graph
    requires r in g.option && NoDangling(g)
  {
    Point(DelReference(g, r), r, null)
  }

  lemma DetachedUsers(g: Graph, r: OptRef)
    requires UsersExact(g) && NoDangling(g) && r in g.option
    ensures UsersExact(Detached(g, r))
  {
    hide Count, Disconnected;
    var h, o := Detached(g, r), g.option[r];
    if o != null {
      forall p <- h.users, q <- h.option
        ensures Count(h.users[p], q) == if h.option[q] == p then 1 else 0
      {
        CountDisconnected(g.users[o], r, q);
        assert Count(g.users[p], q) == if g.option[q] == p then 1 else 0;
        assert Count(g.users[p], r) == if g.option[r] == p then 1 else 0;
      }
      forall p <- h.users, q <- h.users[p]
        ensures q in h.option
      {
        CountDisconnected(g.users[o], r, q);
      }
    } else {
      assert forall p <- g.users :: Count(g.users[p], r) == if g.option[r] == p then 1 else 0;
    }
  }

  lemma DetachedKeeps(g: Graph, r: OptRef)
    requires Inv(g) && r in g.option
    ensures Inv(Detached(g, r))
  {
    hide Sorted, UsersExact, Disconnected, Count, NoNull;
    DetachedUsers(g, r);
  }

  /** The references to a removed option are null after it, all others as before. */
  lemma RemoveClearsItsUsers(g: Graph, o: Option)
    requires Inv(g) && o in g.users
    ensures forall r <- g.option :: Remove(g, o).option[r] == if g.option[r] == o then null else g.option[r]
  {
    forall r <- g.option
      ensures Remove(g, o).option[r] == if g.option[r] == o then null else g.option[r]
    {
      assert Count(g.users[o], r) == if g.option[r] == o then 1 else 0;
    }
  }

  lemma RemoveKeepsRegistry(g: Graph, o: Option)
    requires RegistryExact(g) && o in g.users && Sorted(NameOf, g.registry)
    ensures RegistryExact(Remove(g, o)) && Sorted(NameOf, Remove(g, o).registry)
  {
    var h := Remove(g, o);
    assert Count(g.registry, o) == 1 && Count(h.registry, o) == 0;
    hide Sorted;
    DisconnectedSorted(g.registry, o);
    forall p <- h.registry
      ensures p in h.users
    {
      assert Count(h.registry, p) > 0;
    }
  }

  lemma RemoveKeepsUsers(g: Graph, o: Option)
    requires Inv(g) && o in g.users
    ensures NoDangling(Remove(g, o)) && UsersExact(Remove(g, o))
  {
    hide Sorted, RegistryExact, Disconnected;
    RemoveClearsItsUsers(g, o);
  }

  lemma RemoveKeeps(g: Graph, o: Option)
    requires Inv(g) && o in g.users
    ensures Inv(Remove(g, o))
  {
    hide NoDangling, UsersExact, RegistryExact, Sorted, Remove;
    RemoveKeepsUsers(g, o);
    RemoveKeepsRegistry(g, o);
  }

  lemma InsertedNotNull(s: seq<Option?>, i: nat, o: Option)
    requires i <= |s| && NoNull(s)
    ensures NoNull(Insert(s, i, o))
  {
  }

  lemma DisconnectedSorted(s: seq<Option?>, x: Option?)
    requires Sorted(NameOf, s)
    ensures Sorted(NameOf, Disconnected(s, x))
    ensures NoNull(s) ==> NoNull(Disconnected(s, x))
  {
    var t := Disconnected(s, x);
    if x in s {
      var k := First(s, x);
      assert forall j :: 0 <= j < |t| ==> t[j] == s[if j < k then j else j + 1];
    }
  }

  /** A reference without an option can go. */
  lemma ForgetKeeps(g: Graph, r: OptRef)
    requires Inv(g) && r in g.option && g.option[r] == null
    ensures Inv(g.(option := g.option - {r}))
  {
    var h := g.(option := g.option - {r});
    forall p <- h.users, q <- h.users[p]
      ensures q in h.option
    {
      assert Count(g.users[p], q) > 0;
    }
  }

  lemma StepKeepsInv(g: Graph, op: Op)
    requires Inv(g) && Allowed(g, op) && Step(g, op).Returned?
    ensures Inv(Step(g, op).value)
  {
    match op
    case NewRef(r) =>
      NewRefKeeps(g, r);
    case NewRefTo(r, o) =>
      RegisterKeeps(g, o);
      NewReferenceKeeps(Register(g, o), r, o);
    case Create(r, made) =>
      CreateKeeps(g, r, made);
    case Use(r) =>
      PointKeeps(g, r, g.option[r]);
    case UseNamed(r, name) =>
      NamedIsLive(g, name);
      PointKeeps(g, r, Named(g.registry, name));
    case Default(r, name, app) =>
      OwnedIsLive(g, name, app);
    case Destroy(r) =>
      DestroyKeeps(g, r);
    case Delete(o) =>
      RemoveKeeps(g, o);
  }

  lemma NewRefKeeps(g: Graph, r: OptRef)
    requires Inv(g) && r !in g.option
    ensures Inv(Point(g, r, null))
  {
    forall p <- g.users
      ensures Count(g.users[p], r) == 0
    {
      assert r !in g.users[p];
    }
  }

  /** Pointing at an option forgets what the reference pointed at. */
  lemma PointForgets(g: Graph, r: OptRef, o: Option?)
    requires r in g.option && NoDangling(g) && (o != null ==> o in g.users)
    ensures Point(DelReference(g, r), r, o) == Point(Detached(g, r), r, o)
  {
    hide Disconnected;
    assert g.option[r := null][r := o] == g.option[r := o];
    assert DelReference(g, r).users == Detached(g, r).users;
  }

  lemma RegisterForgets(g: Graph, r: OptRef, o: Option)
    requires r in g.option && NoDangling(g)
    ensures NewReference(Register(DelReference(g, r), o), r, o) == NewReference(Register(Detached(g, r), o), r, o)
  {
    assert g.option[r := null][r := o] == g.option[r := o];
  }

  lemma CreateKeeps(g: Graph, r: OptRef, made: Option?)
    requires Inv(g) && Allowed(g, Create(r, made))
    ensures Inv(Step(g, Create(r, made)).value)
  {
    hide UsersExact, Sorted, Insert;
    DetachedKeeps(g, r);
    if made != null {
      RegisterForgets(g, r, made);
      var d := Detached(g, r);
      assert made !in d.users && d.option[r] == null;
      RegisterKeeps(d, made);
      NewReferenceKeeps(Register(d, made), r, made);
      hide Inv, NewReference, Register, Detached, DelReference;
    }
  }

  lemma PointKeeps(g: Graph, r: OptRef, o: Option?)
    requires Inv(g) && r in g.option && (o != null ==> o in g.users)
    ensures Inv(Point(DelReference(g, r), r, o))
  {
    hide UsersExact, Sorted;
    DetachedKeeps(g, r);
    PointForgets(g, r, o);
    if o != null {
      var d := Detached(g, r);
      assert o in d.users && d.option[r] == null;
      NewReferenceKeeps(d, r, o);
      hide Inv, NewReference, Detached, DelReference;
    }
  }

  lemma DestroyForgets(g: Graph, r: OptRef, o: Option)
    requires Inv(g) && r in g.option && g.option[r] == o
    ensures Remove(DelReference(g, r), o).option - {r} == Remove(Detached(g, r), o).option - {r}
    ensures Remove(Detached(g, r), o).option[r] == null
  {
    hide UsersExact, Sorted, RegistryExact, Disconnected;
  }

  lemma DestroyKeeps(g: Graph, r: OptRef)
    requires Inv(g) && r in g.option
    ensures Inv(Step(g, Destroy(r)).value)
  {
    hide UsersExact, Sorted, Disconnected;
    var o, d := g.option[r], Detached(g, r);
    DetachedKeeps(g, r);
    if o != null && o.creator == r.owner {
      assert o in d.users;
      RemoveKeeps(d, o);
      DestroyForgets(g, r, o);
      ForgetKeeps(Remove(d, o), r);
    } else {
      ForgetKeeps(d, r);
      assert DelReference(g, r).option - {r} == d.option - {r};
    }
    hide Inv;
  }

  /** A run of allowed steps, none of which ends the program. */
  predicate Reaches(g: Graph, ops: seq<Op>, h: Graph)
    decreases |ops|
  {
    if ops == [] then h == g else
      && NoDangling(g) && RegistryExact(g) && Allowed(g, ops[0])
      && Step(g, ops[0]).Returned?
      && Reaches(Step(g, ops[0]).value, ops[1..], h)
  }

  const EMPTY := Graph(map[], map[], map[], [])

  lemma {:induction false} RunKeepsInv(g: Graph, ops: seq<Op>, h: Graph)
    requires Inv(g) && Reaches(g, ops, h)
    ensures Inv(h)
    decreases |ops|
  {
    if ops != [] {
      StepKeepsInv(g, ops[0]);
      RunKeepsInv(Step(g, ops[0]).value, ops[1..], h);
    }
  }

  /**
   * After every run from the empty program a reference is in the users of an option exactly once if
   * it points at that option and not at all otherwise, and no reference points at a removed option.
   */
  lemma NeverDangling(ops: seq<Op>, h: Graph)
    requires Reaches(EMPTY, ops, h)
    ensures forall r <- h.option :: h.option[r] == null || h.option[r] in h.users
    ensures forall o <- h.users, r <- h.option :: multiset(h.users[o])[r] == if h.option[r] == o then 1 else 0
  {
    RunKeepsInv(EMPTY, ops, h);
  }

  /** A graph that agrees with `Register` everywhere is it. */
  lemma Registered(g: Graph, o: Option, h: Graph)
    requires o !in g.users && g.users.Keys == g.value.Keys
    requires h.option.Keys == g.option.Keys && forall r <- g.option :: h.option[r] == g.option[r]
    requires h.users.Keys == h.value.Keys == g.users.Keys + {o} && h.users[o] == [] && h.value[o] == 0
    requires forall p <- g.users :: h.users[p] == g.users[p] && h.value[p] == g.value[p]
    requires h.registry == Insert(g.registry, Place(NameOf, g.registry, o.name), o)
    ensures h == Register(g, o)
  {
    hide Insert, Place;
    assert h.option == g.option;
    assert h.users == g.users[o := []] && h.value == g.value[o := 0];
  }

  /** A graph that agrees with `Remove` everywhere is it. */
  lemma Removed(g: Graph, o: Option, h: Graph)
    requires o in g.users && g.users.Keys == g.value.Keys
    requires h.option.Keys == g.option.Keys
    requires forall r <- g.option :: h.option[r] == if r in g.users[o] then null else g.option[r]
    requires h.users.Keys == h.value.Keys == g.users.Keys - {o}
    requires forall p <- h.users :: h.users[p] == g.users[p] && h.value[p] == g.value[p]
    requires h.registry == Disconnected(g.registry, o)
    ensures h == Remove(g, o)
  {
    hide Disconnected;
    assert h.option == Remove(g, o).option;
    assert h.users == Remove(g, o).users && h.value == Remove(g, o).value;
  }

  // ---------- the objects ----------

  class Option {
    const name: string
    const creator: Creator
    var value: int
    var users: seq<OptRef>

    constructor (creator: Creator, name: string)
      ensures this.name == name && this.creator == creator && users == [] && value == 0
    {
      this.name, this.creator, value, users := name, creator, 0, [];
    }

    method NewReferenceFrom(r: OptRef)
      modifies `users
      ensures users == old(users) + [r]
    {
      users := users + [r];
    }

    method DelReferenceFrom(r: OptRef)
      modifies `users
      ensures users == Disconnected(old(users), r)
    {
      users := Disconnected(users, r);
    }

    method PreRemove()
      modifies (set r <- users)`option
      ensures forall r <- users :: r.option == null
    {
      var i := 0;
      while i < |users|
        invariant i <= |users| && forall j :: 0 <= j < i ==> users[j].option == null
      {
        users[i].OptionRemoving();
        i := i + 1;
      }
    }
  }

  /** The registry `cl_options`; the ghost sets hold the objects that have not been deleted. */
  class Registry {
    const list: SortedList<Option?>
    ghost var refs: set<OptRef>
    ghost var opts: set<Option>

    constructor ()
      ensures Valid() && G() == EMPTY && fresh(list) && fresh(list.list) && fresh(list.list.Items)
    {
      list := new SortedList(NameOf, 2, 2, true);
      refs, opts := {}, {};
    }

    ghost function G(): Graph
      requires list.list.Valid()
      reads this, refs, opts, list, list.list, list.list.Items
    {
      Graph(map r <- refs :: r.option, map o <- opts :: o.users, map o <- opts :: o.value, list.Contents())
    }

    /** What the graph says of each object. */
    lemma Snapshot()
      requires list.list.Valid()
      ensures G().option.Keys == refs && forall r <- refs :: G().option[r] == r.option
      ensures G().users.Keys == G().value.Keys == opts
      ensures forall o <- opts :: G().users[o] == o.users && G().value[o] == o.value
      ensures G().registry == list.Contents()
    {
    }

    ghost predicate Listed()
      reads this, list, list.list, list.list.Items
    {
      list.Valid() && list.key == NameOf && list.Duplicates && NoNull(list.Contents())
    }

    ghost predicate Valid()
      reads this, refs, opts, list, list.list, list.list.Items
    {
      Listed() && Inv(G())
    }

    /** A live reference points at a live option, whose users are live. */
    lemma Live(r: OptRef)
      requires Valid() && r in refs
      ensures G().option[r] == r.option
      ensures r.option != null ==> r.option in opts && forall q <- r.option.users :: q in refs
      ensures NoDangling(G()) && RegistryExact(G()) && Inv(G()) && NoNull(G().registry)
    {
      Snapshot();
      hide G, RegistryExact, Sorted;
      if r.option != null {
        assert G().option[r] in G().users;
        assert forall q <- G().users[r.option] :: q in G().option;
      }
    }

    /** The option in the sorted list, at the left end of its name. */
    method InsertOption(o: Option)
      requires Listed() && list.list.HasRoom()
      modifies list.list, list.list.Items
      ensures Listed()
      ensures list.Contents() == Insert(old(list.Contents()), Place(NameOf, old(list.Contents()), o.name), o)
      ensures list.list.Items == old(list.list.Items) || fresh(list.list.Items)
    {
      hide Sorted, Compare, Splits, Place, Insert, NoNull;
      ghost var s := list.Contents();
      InsertedNotNull(s, Place(NameOf, s, o.name), o);
      var i := list.Add(o);
      PlaceIsTheSplit(NameOf, s, o.name, i);
    }

    method NewOption(o: Option)
      requires Listed() && list.list.HasRoom() && o !in opts && o.users == [] && o.value == 0
      modifies `opts, list.list, list.list.Items
      ensures Listed() && G() == Register(old(G()), o) && opts == old(opts) + {o}
      ensures list.list.Items == old(list.list.Items) || fresh(list.list.Items)
    {
      hide Sorted, Place, G, Register, Insert, NoNull;
      ghost var g := G();
      Snapshot();
      InsertOption(o);
      opts := opts + {o};
      Snapshot();
      Registered(g, o, G());
    }

    method GetNamed(name: string) returns (o: Option?)
      requires Listed()
      ensures o == Named(list.Contents(), name)
    {
      var found, idx := list.Search(name);
      PlaceIsTheSplit(NameOf, list.Contents(), name, idx);
      LookupFindsNamed(list.Contents(), name);
      if found {
        var r := list.list.At(idx);
        return r.value;
      }
      return null;
    }

    /** From an option of the name back to the first of its block. */
    method StartOfBlock(name: string, hit: nat) returns (idx: nat)
      requires list.list.Valid() && NoNull(list.Contents())
      requires hit < |list.Contents()| && NameOf(list.Contents()[hit]) == name
      ensures idx <= hit && forall j :: idx <= j <= hit ==> NameOf(list.Contents()[j]) == name
      ensures idx > 0 ==> NameOf(list.Contents()[idx - 1]) != name
    {
      hide Compare;
      idx := hit;
      if idx > 0 {
        idx := idx - 1;
        var r := list.list.At(idx);
        CompareZero(name, NameOf(r.value));
        while Compare(name, NameOf(r.value)) == 0 && idx > 0
          invariant 0 <= idx < hit && r == Returned(list.Contents()[idx])
          invariant Compare(name, NameOf(r.value)) == 0 <==> name == NameOf(r.value)
          invariant forall j :: idx < j <= hit ==> NameOf(list.Contents()[j]) == name
        {
          idx := idx - 1;
          r := list.list.At(idx);
          CompareZero(name, NameOf(r.value));
        }
        if Compare(name, NameOf(r.value)) != 0 {
          idx := idx + 1;
        }
      }
    }

    method ScanBlock(name: string, creator: Creator, start: nat) returns (r: Outcome<Option?>)
      requires list.list.Valid() && NoNull(list.Contents()) && start < |list.Contents()|
      ensures r == Scan(list.Contents()[start..], name, creator)
    {
      hide Compare;
      ghost var s := list.Contents();
      var idx := start;
      r := list.list.At(idx);
      CompareZero(name, NameOf(s[idx]));
      while Compare(name, NameOf(r.value)) == 0 && r.value.creator != creator && idx < list.list.count
        invariant start <= idx < |s| && r == Returned(s[idx])
        invariant Compare(name, NameOf(s[idx])) == 0 <==> name == NameOf(s[idx])
        invariant Scan(s[start..], name, creator) == Scan(s[idx..], name, creator)
        decreases |s| - idx
      {
        assert s[idx..][1..] == s[idx + 1..];
        idx := idx + 1;
        r := list.list.At(idx);
        if r.Exited? {
          return;
        }
        CompareZero(name, NameOf(s[idx]));
        if Compare(name, NameOf(r.value)) == 0 && r.value.creator == creator {
          return;
        }
      }
      if Compare(name, NameOf(r.value)) == 0 && r.value.creator == creator {
        return;
      }
      return Returned(null);
    }

    method GetOwned(name: string, creator: Creator) returns (r: Outcome<Option?>)
      requires Listed()
      ensures r == Owned(list.Contents(), name, creator)
    {
      hide Compare, Scan;
      var found, idx := list.Search(name);
      PlaceIsTheSplit(NameOf, list.Contents(), name, idx);
      SplitFinds(NameOf, list.Contents(), name, idx);
      if !found {
        return Returned(null);
      }
      ghost var place := idx;
      idx := StartOfBlock(name, idx);
      CompareZero(NameOf(list.Contents()[idx]), name);
      assert idx == place;
      r := ScanBlock(name, creator, idx);
    }

    /** pre_remove, seen from all the references. */
    method ClearUsers(o: Option)
      requires forall r <- o.users :: r in refs
      modifies refs`option
      ensures forall r <- refs :: r.option == if r in o.users then null else old(r.option)
    {
      o.PreRemove();
    }

    /** del_option on the objects. */
    method Unlink(o: Option)
      requires list.list.Valid() && o in opts && forall r <- o.users :: r in refs
      modifies `opts, refs`option, list.list, list.list.Items
      ensures list.list.Valid() && list.list.Items == old(list.list.Items)
      ensures opts == old(opts) - {o}
      ensures forall r <- refs :: r.option == if r in o.users then null else old(r.option)
      ensures list.Contents() == Disconnected(old(list.Contents()), o)
    {
      ClearUsers(o);
      list.list.Disconn(o);
      opts := opts - {o};
    }

    method DelOption(o: Option)
      requires Listed() && o in opts && forall r <- o.users :: r in refs
      modifies `opts, refs`option, list.list, list.list.Items
      ensures Listed() && G() == Remove(old(G()), o)
      ensures list.list.Items == old(list.list.Items)
    {
      ghost var g := G();
      DisconnectedSorted(g.registry, o);
      hide Sorted, NoNull, Compare, Disconnected, Remove, G;
      Snapshot();
      Unlink(o);
      Snapshot();
      Removed(g, o, G());
    }

    // ---------- the references, seen from the registry ----------

    method Detach(r: OptRef)
      requires list.list.Valid() && r in refs && (r.option != null ==> r.option in opts)
      modifies opts`users
      ensures list.list.Valid() && G() == DelReference(old(G()), r)
      ensures r.option != null ==> forall q <- r.option.users :: q in old(r.option.users)
    {
      hide Disconnected;
      ghost var g := G();
      if r.option != null {
        forall q <- Disconnected(r.option.users, r)
          ensures q in r.option.users
        {
          CountDisconnected(r.option.users, r, q);
        }
        r.option.DelReferenceFrom(r);
        assert G().option == g.option && G().value == g.value;
        assert G().users == DelReference(g, r).users;
      }
    }

    method Attach(r: OptRef, o: Option)
      requires list.list.Valid() && o in opts
      modifies opts`users, `refs, r`option
      ensures list.list.Valid() && G() == NewReference(old(G()), r, o)
      ensures refs == old(refs) + {r} && r.option == o
    {
      ghost var g := G();
      r.option := o;
      refs := refs + {r};
      o.NewReferenceFrom(r);
      assert G().option == g.option[r := o] && G().value == g.value;
      assert G().users == NewReference(g, r, o).users;
    }

    method Clear(r: OptRef)
      requires list.list.Valid()
      modifies `refs, r`option
      ensures list.list.Valid() && G() == Point(old(G()), r, null)
      ensures refs == old(refs) + {r} && r.option == null
    {
      ghost var g := G();
      r.option := null;
      refs := refs + {r};
      assert G().option == g.option[r := null] && G().value == g.value && G().users == g.users;
    }

    /** The option's assignment operator. */
    method Assign(o: Option, from: Option)
      requires list.list.Valid() && o in opts && from in opts
      modifies o`value
      ensures o.value == old(from.value)
      ensures list.list.Valid() && G() == old(G()).(value := old(G()).value[o := old(G()).value[from]])
    {
      ghost var g := G();
      o.value := from.value;
      assert G().users == g.users && G().option == g.option;
      assert G().value == g.value[o := g.value[from]];
    }

    /** The end of a reference. */
    ghost method Forget(r: OptRef)
      requires list.list.Valid()
      modifies `refs
      ensures list.list.Valid() && G() == old(G()).(option := old(G()).option - {r}) && refs == old(refs) - {r}
    {
      ghost var g := G();
      refs := refs - {r};
      assert G().option == g.option - {r};
    }
  }

  /** The types of option; `create` makes no object for the first and the last. */
  datatype Kind = NonOpt | IntegerOpt | FloatOpt | BoolOpt | StringOpt | PointerOpt | UnknownOpt

  class OptRef {
    const owner: Creator
    var option: Option?

    constructor (app: Registry, owner: Creator)
      requires app.Valid()
      modifies app`refs
      ensures this.owner == owner && this !in old(app.refs)
      ensures app.Valid() && Returned(app.G()) == Step(old(app.G()), NewRef(this))
    {
      this.owner := owner;
      new;
      hide Inv;
      ghost var g := app.G();
      app.Clear(this);
      NewRefKeeps(g, this);
    }

    constructor To(app: Registry, owner: Creator, o: Option)
      requires app.Valid() && app.list.list.HasRoom()
      requires o !in app.opts && o.users == [] && o.value == 0
      modifies app`refs, app`opts, app.opts`users, o`users, app.list.list, app.list.list.Items
      ensures this.owner == owner && this !in old(app.refs)
      ensures app.Valid() && Returned(app.G()) == Step(old(app.G()), NewRefTo(this, o))
    {
      this.owner := owner;
      new;
      hide Inv, Register, NewReference, Sorted, NoDangling, UsersExact, RegistryExact, NoNull, Registry.G;
      ghost var g := app.G();
      app.Snapshot();
      StepKeepsInv(g, NewRefTo(this, o));
      app.NewOption(o);
      app.Attach(this, o);
    }

    method OptionRemoving()
      modifies `option
      ensures option == null
    {
      option := null;
    }

    method Create(app: Registry, creator: Creator, kind: Kind, name: string) returns (made: Option?)
      requires app.Valid() && this in app.refs && app.list.list.HasRoom()
      modifies `option, app`refs, app`opts, app.opts`users, app.list.list, app.list.list.Items
      ensures made == null <==> kind.NonOpt? || kind.UnknownOpt?
      ensures made != null ==> fresh(made) && made.name == name && made.creator == creator
      ensures app.Valid() && Returned(app.G()) == Step(old(app.G()), Op.Create(this, made))
    {
      hide Inv, Register, NewReference, DelReference, Sorted, NoDangling, UsersExact, RegistryExact, NoNull, Registry.G;
      ghost var g := app.G();
      app.Snapshot();
      app.Live(this);
      app.Detach(this);
      if kind.NonOpt? || kind.UnknownOpt? {
        made := null;
        app.Clear(this);
      } else {
        made := new Option(creator, name);
        app.NewOption(made);
        app.Attach(this, made);
      }
      StepKeepsInv(g, Op.Create(this, made));
    }

    method Use(app: Registry)
      requires app.Valid() && this in app.refs
      modifies `option, app`refs, app.opts`users
      ensures app.Valid() && Returned(app.G()) == Step(old(app.G()), Op.Use(this))
    {
      hide Inv, NewReference, DelReference, Sorted, NoDangling, UsersExact, RegistryExact, NoNull, Registry.G;
      ghost var g := app.G();
      app.Snapshot();
      app.Live(this);
      StepKeepsInv(g, Op.Use(this));
      if option != null {
        app.Detach(this);
        app.Attach(this, option);
      }
    }

    method UseNamed(app: Registry, name: string) returns (o: Option?)
      requires app.Valid() && this in app.refs
      modifies `option, app`refs, app.opts`users
      ensures o == Named(old(app.list.Contents()), name) && o == option
      ensures app.Valid() && Returned(app.G()) == Step(old(app.G()), Op.UseNamed(this, name))
    {
      hide Inv, NewReference, DelReference, Named, Sorted, NoDangling, UsersExact, RegistryExact, NoNull, Registry.G;
      ghost var g := app.G();
      app.Snapshot();
      app.Live(this);
      StepKeepsInv(g, Op.UseNamed(this, name));
      NamedIsLive(g, name);
      app.Detach(this);
      o := app.GetNamed(name);
      if o != null {
        app.Attach(this, o);
      } else {
        app.Clear(this);
      }
    }

    /** `exited` says that the lookup ended the program. */
    method DefaultOption(app: Registry, name: string, application: Creator) returns (exited: bool)
      requires app.Valid() && this in app.refs
      modifies app.opts`value
      ensures app.Valid()
      ensures exited <==> Step(old(app.G()), Default(this, name, application)).Exited?
      ensures !exited ==> Returned(app.G()) == Step(old(app.G()), Default(this, name, application))
      ensures var d := Owned(old(app.list.Contents()), name, application);
              var copied := d.Returned? && d.value != null && option != null;
              && (exited <==> d.Exited?)
              && (copied ==> option.value == old(d.value.value))
              && forall o <- app.opts :: o != option || !copied ==> o.value == old(o.value)
      ensures app.refs == old(app.refs) && app.opts == old(app.opts) && option == old(option)
      ensures app.list.Contents() == old(app.list.Contents())
      ensures forall r <- app.refs :: r.option == old(r.option)
      ensures forall o <- app.opts :: o.users == old(o.users)
    {
      hide Inv, Owned, Sorted, NoDangling, UsersExact, RegistryExact, NoNull, Registry.G;
      ghost var g := app.G();
      app.Snapshot();
      app.Live(this);
      OwnedIsLive(g, name, application);
      var r := app.GetOwned(name, application);
      if r.Exited? {
        return true;
      }
      exited := false;
      StepKeepsInv(g, Default(this, name, application));
      if r.value != null && option != null {
        app.Assign(option, r.value);
      }
    }

    /** The destructor. */
    method Destroy(app: Registry)
      requires app.Valid() && this in app.refs
      modifies app.refs`option, app`refs, app`opts, app.opts`users, app.list.list, app.list.list.Items
      ensures app.Valid() && Returned(app.G()) == Step(old(app.G()), Op.Destroy(this))
    {
      hide Inv, Remove, DelReference, Sorted, NoDangling, UsersExact, RegistryExact, NoNull, Registry.G;
      ghost var g := app.G();
      app.Snapshot();
      app.Live(this);
      StepKeepsInv(g, Op.Destroy(this));
      if option != null {
        app.Detach(this);
        if option.creator == owner {
          app.DelOption(option);
        }
      }
      app.Forget(this);
    }
  }
}
