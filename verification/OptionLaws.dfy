/** What each operation on options and references leaves, part by part: where references point, which options there
  are, who uses them, and their values. */
module OptionLaws {
  import opened PointerList
  import opened SortedList
  import opened Options

  /** The options, their values and the registry are as they were. */
  predicate SameOptions(g: Graph, h: Graph) {
    h.value == g.value && h.registry == g.registry && h.users.Keys == g.users.Keys
  }

  /** `r` has left the users of every option but `o`, and nobody else has moved. */
  predicate UsersMoved(g: Graph, h: Graph, r: OptRef, o: Option?) {
    forall p <- g.users :: p in h.users
      && multiset(h.users[p]) == multiset(g.users[p]) - multiset{r} + (if p == o then multiset{r} else multiset{})
  }

  lemma DisconnectedMultiset(g: Graph, r: OptRef, p: Option)
    requires Inv(g) && r in g.option && p in g.users
    ensures multiset(Disconnected(g.users[p], r)) == multiset(g.users[p]) - multiset{r}
    ensures p != g.option[r] ==> multiset(g.users[p]) == multiset(g.users[p]) - multiset{r}
  {
    assert Count(g.users[p], r) == if g.option[r] == p then 1 else 0;
  }

  /** The same references and options; `r` has left its option's users. */
  predicate Left(g: Graph, g1: Graph, r: OptRef) {
    g1.option == g.option && SameOptions(g, g1) && UsersMoved(g, g1, r, null)
  }

  lemma LeftUsers(g: Graph, r: OptRef)
    requires Inv(g) && r in g.option
    ensures (g.option[r] != null ==> g.option[r] in g.users) && Left(g, DelReference(g, r), r)
  {
    forall p <- g.users
      ensures multiset(Disconnected(g.users[p], r)) == multiset(g.users[p]) - multiset{r}
      ensures p != g.option[r] ==> multiset(g.users[p]) == multiset(g.users[p]) - multiset{r}
    {
      hide *;
      DisconnectedMultiset(g, r, p);
    }
    hide UsersExact, RegistryExact, Sorted, Left;
    LeftOn(g, r);
  }

  lemma LeftOn(g: Graph, r: OptRef)
    requires r in g.option && (g.option[r] != null ==> g.option[r] in g.users)
    requires forall p <- g.users :: multiset(Disconnected(g.users[p], r)) == multiset(g.users[p]) - multiset{r}
                                    && (p != g.option[r] ==> multiset(g.users[p]) == multiset(g.users[p]) - multiset{r})
    ensures Left(g, DelReference(g, r), r)
  {
    hide Disconnected;
  }

  /** A new reference points at none and changes nothing else. */
  lemma NewRefEffect(g: Graph, r: OptRef)
    requires Inv(g) && r !in g.option
    ensures Step(g, NewRef(r)) == Returned(g.(option := g.option[r := null]))
  {
  }

  /** A reference to a new option: the option is registered with value 0 and this reference as its only user. */
  lemma NewRefToEffect(g: Graph, r: OptRef, o: Option)
    requires Inv(g) && r !in g.option && o !in g.users
    ensures var h := Step(g, NewRefTo(r, o)).value;
            && h.option == g.option[r := o] && h.value == g.value[o := 0] && h.users == g.users[o := [r]]
            && multiset(h.registry) == multiset(g.registry) + multiset{o}
  {
    hide Inv, Insert;
    assert [] + [r] == [r];
  }

  /** create: the reference leaves its option for the one made, registered with value 0, or for none. */
  lemma CreateEffect(g: Graph, r: OptRef, made: Option?)
    requires Inv(g) && Allowed(g, Create(r, made))
    ensures var h := Step(g, Create(r, made)).value;
            && h.option == g.option[r := made] && UsersMoved(g, h, r, null)
            && (if made == null then SameOptions(g, h)
                else
                  && h.value == g.value[made := 0] && h.users.Keys == g.users.Keys + {made} && h.users[made] == [r]
                  && multiset(h.registry) == multiset(g.registry) + multiset{made})
  {
    hide Inv, Insert, DelReference, Left, UsersMoved, SameOptions, Point, NewReference, Register;
    LeftUsers(g, r);
    LivePart(g);
    CreateOn(g, DelReference(g, r), r, made);
  }

  lemma LivePart(g: Graph)
    requires Inv(g)
    ensures NoDangling(g) && RegistryExact(g) && g.value.Keys == g.users.Keys
  {
  }

  lemma CreateOn(g: Graph, g1: Graph, r: OptRef, made: Option?)
    requires Left(g, g1, r) && (made != null ==> made !in g.users)
    ensures var h := if made == null then Point(g1, r, null) else NewReference(Register(g1, made), r, made);
            && h.option == g.option[r := made] && UsersMoved(g, h, r, null)
            && (if made == null then SameOptions(g, h)
                else
                  && h.value == g.value[made := 0] && h.users.Keys == g.users.Keys + {made} && h.users[made] == [r]
                  && multiset(h.registry) == multiset(g.registry) + multiset{made})
  {
    hide Left, UsersMoved, SameOptions, Register, NewReference, Insert;
    if made == null {
      PointOn(g, g1, r, null);
    } else {
      RegisterOn(g, g1, r, made);
    }
  }

  lemma RegisterOn(g: Graph, g1: Graph, r: OptRef, made: Option)
    requires Left(g, g1, r) && made !in g.users
    ensures var h := NewReference(Register(g1, made), r, made);
            && h.option == g.option[r := made] && UsersMoved(g, h, r, null)
            && h.value == g.value[made := 0] && h.users.Keys == g.users.Keys + {made} && h.users[made] == [r]
            && multiset(h.registry) == multiset(g.registry) + multiset{made}
  {
    hide Insert, UsersMoved;
    assert [] + [r] == [r];
    assert NewReference(Register(g1, made), r, made).users == g1.users[made := [r]];
    OneMore(g, g1, NewReference(Register(g1, made), r, made), r, made);
  }

  /** One more option changes nothing for the users of the others. */
  lemma OneMore(g: Graph, g1: Graph, h: Graph, r: OptRef, made: Option)
    requires UsersMoved(g, g1, r, null) && made !in g.users && h.users == g1.users[made := [r]]
    ensures UsersMoved(g, h, r, null)
  {
    forall p <- g.users
      ensures p in h.users && multiset(h.users[p]) == multiset(g.users[p]) - multiset{r}
    {
      assert h.users[p] == g1.users[p];
    }
  }

  /** use: the reference, if it has an option, becomes the last of its users; nothing else changes. */
  lemma UseEffect(g: Graph, r: OptRef)
    requires Inv(g) && r in g.option
    ensures var h, o := Step(g, Use(r)).value, g.option[r];
            && h.option == g.option && SameOptions(g, h)
            && (o == null ==> h == g)
            && (o != null ==> o in h.users && |h.users[o]| == |g.users[o]| > 0 && h.users[o][|g.users[o]| - 1] == r
                              && multiset(h.users[o]) == multiset(g.users[o]))
            && forall p <- g.users :: p != o ==> h.users[p] == g.users[p]
  {
    hide Disconnected, Count, Sorted, NoNull;
    var o := g.option[r];
    if o != null {
      UserIff(g, r, o);
      hide Inv, NoDangling, UsersExact, RegistryExact;
      assert g.option[r := o] == g.option;
      SameSize(g.users[o], r);
    }
  }

  lemma SameSize(s: seq<OptRef>, r: OptRef)
    requires Count(s, r) == 1
    ensures var t := Disconnected(s, r) + [r]; |t| == |s| > 0 && t[|s| - 1] == r && multiset(t) == multiset(s)
  {
    assert |multiset(Disconnected(s, r) + [r])| == |multiset(s)|;
  }

  /** use by name: the reference leaves its option for the leftmost one of the name, or none; options stay. */
  lemma UseNamedEffect(g: Graph, r: OptRef, name: string)
    requires Inv(g) && r in g.option
    ensures var h, o := Step(g, UseNamed(r, name)).value, Named(g.registry, name);
            h.option == g.option[r := o] && SameOptions(g, h) && UsersMoved(g, h, r, o)
  {
    hide Inv, Named, DelReference, Left, UsersMoved, SameOptions, Point;
    LivePart(g);
    NamedIsLive(g, name);
    LeftUsers(g, r);
    PointOn(g, DelReference(g, r), r, Named(g.registry, name));
  }

  lemma PointOn(g: Graph, g1: Graph, r: OptRef, o: Option?)
    requires Left(g, g1, r) && (o != null ==> o in g.users)
    ensures var h := Point(g1, r, o);
            h.option == g.option[r := o] && SameOptions(g, h) && UsersMoved(g, h, r, o)
  {
    forall p <- g.users
      ensures multiset(Point(g1, r, o).users[p]) ==
              multiset(g.users[p]) - multiset{r} + (if p == o then multiset{r} else multiset{})
    {
    }
  }

  /** `i` is the first option of the name and the creator. */
  predicate FirstMatch(s: seq<Option?>, name: string, creator: Creator, i: nat) {
    i < |s| && Matches(s[i], name, creator) && forall j :: 0 <= j < i ==> !Matches(s[j], name, creator)
  }

  lemma {:induction false} ScanIsFirst(s: seq<Option?>, name: string, creator: Creator, i: nat)
    requires NoNull(s) && FirstMatch(s, name, creator, i) && forall j :: 0 <= j <= i ==> NameOf(s[j]) == name
    ensures Scan(s, name, creator) == Returned(s[i])
  {
    if i > 0 {
      assert !Matches(s[0], name, creator);
      assert forall j :: 0 < j <= i ==> s[1..][j - 1] == s[j];
      ScanIsFirst(s[1..], name, creator, i - 1);
    }
  }

  /** From the place of a name to an option of that name all have it. */
  lemma BlockOfName(s: seq<Option?>, name: string, p: nat, i: nat, j: nat)
    requires Sorted(NameOf, s) && Splits(NameOf, s, name, p) && p <= j <= i < |s| && NameOf(s[i]) == name
    ensures NameOf(s[j]) == name
  {
    CompareSwaps(NameOf(s[j]), name);
    CompareZero(NameOf(s[j]), name);
    assert AtMost(name, NameOf(s[j])) && (j < i ==> AtMost(NameOf(s[j]), NameOf(s[i])));
  }

  lemma NotBeforePlace(s: seq<Option?>, name: string, p: nat, i: nat)
    requires Splits(NameOf, s, name, p) && i < |s| && NameOf(s[i]) == name
    ensures p <= i
  {
    CompareZero(name, name);
  }

  lemma MatchInSuffix(s: seq<Option?>, name: string, creator: Creator, p: nat, i: nat)
    requires NoNull(s) && FirstMatch(s, name, creator, i) && p <= i
    requires forall j :: p <= j <= i ==> NameOf(s[j]) == name
    ensures NoNull(s[p..]) && FirstMatch(s[p..], name, creator, i - p)
    ensures s[p..][i - p] == s[i] && forall j :: 0 <= j <= i - p ==> NameOf(s[p..][j]) == name
  {
  }

  /** Lookup by name and creator finds the leftmost match. */
  lemma OwnedIsFirst(s: seq<Option?>, name: string, creator: Creator, i: nat)
    requires NoNull(s) && Sorted(NameOf, s) && FirstMatch(s, name, creator, i)
    ensures Owned(s, name, creator) == Returned(s[i])
  {
    hide Compare, Scan, Sorted, Splits, NoNull, Place;
    var p := Place(NameOf, s, name);
    PlaceSplits(NameOf, s, name);
    NotBeforePlace(s, name, p, i);
    forall j | p <= j <= i
      ensures NameOf(s[j]) == name
    {
      BlockOfName(s, name, p, i, j);
    }
    MatchInSuffix(s, name, creator, p, i);
    ScanIsFirst(s[p..], name, creator, i - p);
  }

  /** The default: if the lookup finds an option and the reference has one, that one gets the found option's value,
      which keeps its own; without either nothing changes. The program ends exactly when the lookup does. */
  lemma DefaultEffect(g: Graph, r: OptRef, name: string, app: Creator)
    requires Inv(g) && r in g.option
    ensures var d, s := Owned(g.registry, name, app), Step(g, Default(r, name, app));
            if d.Exited? then s == Exited(d.code)
            else
              && s.Returned? && s.value.option == g.option && s.value.users == g.users && s.value.registry == g.registry
              && s.value.value.Keys == g.value.Keys
              && (forall o <- g.value :: o != g.option[r] || d.value == null ==> s.value.value[o] == g.value[o])
              && (g.option[r] != null && d.value != null ==>
                  g.option[r] in g.value && d.value in g.value && s.value.value[g.option[r]] == g.value[d.value])
  {
    OwnedIsLive(g, name, app);
    hide Owned, Sorted;
  }

  /** A reference that goes leaves its option's users. An option of its owner goes too, and every other reference to
      that option then points at none; otherwise only the reference goes. */
  lemma DestroyEffect(g: Graph, r: OptRef)
    requires Inv(g) && r in g.option
    ensures NoDangling(g) && RegistryExact(g) && Destroyed(g, Step(g, Destroy(r)).value, r)
  {
    hide *;
    LivePart(g);
    LeftUsers(g, r);
    StillUsers(g, DelReference(g, r), r);
    StepDestroys(g, r);
    DestroyOn(g, DelReference(g, r), r, g.option[r]);
  }

  predicate Destroyed(g: Graph, h: Graph, r: OptRef)
    requires r in g.option
  {
    var o := g.option[r];
    && h.option.Keys == g.option.Keys - {r}
    && (if o != null && o.creator == r.owner then
          && (forall q <- h.option :: h.option[q] == if g.option[q] == o then null else g.option[q])
          && h.users.Keys == g.users.Keys - {o} && h.value == g.value - {o}
          && multiset(h.registry) == multiset(g.registry) - multiset{o}
        else (forall q <- h.option :: h.option[q] == g.option[q]) && SameOptions(g, h))
    && (forall p <- h.users :: p in g.users && multiset(h.users[p]) == multiset(g.users[p]) - multiset{r})
  }

  /** What is left once `r`, which has left its users, goes. */
  function Gone(g1: Graph, r: OptRef, o: Option?): Graph
    requires o != null ==> o in g1.users
  {
    var h := if o != null && o.creator == r.owner then Remove(g1, o) else g1;
    h.(option := h.option - {r})
  }

  lemma StepDestroys(g: Graph, r: OptRef)
    requires NoDangling(g) && RegistryExact(g) && r in g.option && (g.option[r] != null ==> g.option[r] in g.users)
    ensures Allowed(g, Destroy(r))
    ensures (g.option[r] != null ==> g.option[r] in DelReference(g, r).users)
            && Step(g, Destroy(r)) == Returned(Gone(DelReference(g, r), r, g.option[r]))
  {
    hide NoDangling, RegistryExact, DelReference, Remove;
  }

  /** Who else uses the option `r` left. */
  lemma StillUsers(g: Graph, g1: Graph, r: OptRef)
    requires Inv(g) && r in g.option && Left(g, g1, r)
    ensures forall o <- g.users, q <- g.option :: q != r ==> (q in g1.users[o] <==> g.option[q] == o)
  {
    forall o <- g.users, q <- g.option | q != r
      ensures q in g1.users[o] <==> g.option[q] == o
    {
      UserIff(g, q, o);
      assert q in g1.users[o] <==> multiset(g1.users[o])[q] > 0;
    }
  }

  lemma DestroyOn(g: Graph, g1: Graph, r: OptRef, o: Option?)
    requires Left(g, g1, r) && r in g.option && (o != null ==> o in g.users)
    requires forall o <- g.users, q <- g.option :: q != r ==> (q in g1.users[o] <==> g.option[q] == o)
    requires g.option[r] == o
    ensures (o != null ==> o in g1.users) && Destroyed(g, Gone(g1, r, o), r)
  {
    hide Disconnected;
  }

  lemma UserIff(g: Graph, q: OptRef, o: Option)
    requires Inv(g) && q in g.option && o in g.users
    ensures Count(g.users[o], q) == if g.option[q] == o then 1 else 0
  {
  }

  /** delete: the option goes, its users point at none, all else stays. */
  lemma DeleteEffect(g: Graph, o: Option)
    requires Inv(g) && o in g.users
    ensures var h := Step(g, Delete(o)).value;
            && h.option.Keys == g.option.Keys
            && (forall q <- g.option :: h.option[q] == if g.option[q] == o then null else g.option[q])
            && h.users == g.users - {o} && h.value == g.value - {o}
            && multiset(h.registry) == multiset(g.registry) - multiset{o}
  {
    forall q <- g.option
      ensures q in g.users[o] <==> g.option[q] == o
    {
      UserIff(g, q, o);
      assert q in g.users[o] <==> Count(g.users[o], q) > 0;
    }
    hide Inv, Disconnected;
  }
}
