/** Splitting, joining and walking argz vectors undo each other. */
module ArgzLaws {
  import opened Argz

  // ---------- argz_create_sep keeps the fields ----------

  function Finish(fields: seq<string>): seq<string>
    requires fields != []
  {
    NonEmpty(fields) + if fields[|fields| - 1] == "" then [""] else []
  }

  function Prefixed(cur: string, fields: seq<string>): (r: seq<string>)
    requires fields != []
    ensures r != []
  {
    [cur + fields[0]] + fields[1..]
  }

  lemma {:induction false} VectorAppend(xs: seq<string>, y: string)
    ensures Vector(xs + [y]) == Vector(xs) + y + [EOS]
  {
    if xs == [] {
      assert [] + [y] == [y] && [y][1..] == [];
    } else {
      VectorAppend(xs[1..], y);
      assert (xs + [y])[1..] == xs[1..] + [y];
    }
  }

  lemma FinishHead(x: string, rest: seq<string>)
    requires rest != []
    ensures Finish([x] + rest) == (if x == "" then [] else [x]) + Finish(rest)
  {
    var all := [x] + rest;
    assert all[1..] == rest && all[|all| - 1] == rest[|rest| - 1];
  }

  lemma PrefixNothing(fields: seq<string>)
    requires fields != []
    ensures Prefixed("", fields) == fields
  {
    assert "" + fields[0] == fields[0];
  }

  lemma PrefixMore(cur: string, c: char, rest: seq<string>)
    requires rest != []
    ensures Prefixed(cur + [c], rest) == Prefixed(cur, [[c] + rest[0]] + rest[1..])
  {
    assert cur + [c] + rest[0] == cur + ([c] + rest[0]);
  }

  lemma PrefixEmpty(cur: string, rest: seq<string>)
    ensures Prefixed(cur, [""] + rest) == [cur] + rest
  {
    assert cur + "" == cur;
  }

  lemma PackEnd(done: seq<string>, cur: string)
    ensures Vector(done) + cur + [EOS] == Vector(done + Finish(Prefixed(cur, [""])))
  {
    VectorAppend(done, cur);
    PrefixEmpty(cur, []);
    assert [cur] + [] == [cur] && [""] + [] == [""];
    assert NonEmpty([cur]) == if cur == "" then [] else [cur];
    assert Finish([cur]) == [cur];
  }

  lemma {:induction false} PackFrom(done: seq<string>, cur: string, str: string, delim: char)
    requires EOS !in cur && EOS !in str && delim != EOS
    ensures Pack(Vector(done) + cur, str, delim) == Vector(done + Finish(Prefixed(cur, Split(str, delim))))
    decreases |str|, 1
  {
    if str == [] {
      PackEnd(done, cur);
    } else if str[0] == delim {
      PackDelimiter(done, cur, str, delim);
    } else {
      assert Vector(done) + cur + [str[0]] == Vector(done) + (cur + [str[0]]);
      PackFrom(done, cur + [str[0]], str[1..], delim);
      PrefixMore(cur, str[0], Split(str[1..], delim));
      hide Finish, Prefixed, Vector;
    }
  }

  lemma {:induction false} PackDelimiter(done: seq<string>, cur: string, str: string, delim: char)
    requires EOS !in cur && EOS !in str && delim != EOS && str != [] && str[0] == delim
    ensures Pack(Vector(done) + cur, str, delim) == Vector(done + Finish(Prefixed(cur, Split(str, delim))))
    decreases |str|, 0
  {
    hide Finish, Prefixed, Vector;
    var out, rest := Vector(done) + cur, Split(str[1..], delim);
    PrefixEmpty(cur, rest);
    FinishHead(cur, rest);
    PrefixNothing(rest);
    if cur != "" {
      assert out[|out| - 1] == cur[|cur| - 1];
      VectorAppend(done, cur);
      assert out + [EOS] == Vector(done + [cur]) + "";
      PackFrom(done + [cur], "", str[1..], delim);
      assert done + [cur] + Finish(rest) == done + ([cur] + Finish(rest));
    } else {
      VectorEnds(done);
      assert out == Vector(done);
      PackFrom(done, "", str[1..], delim);
      assert [] + Finish(rest) == Finish(rest);
    }
  }

  lemma {:induction false} VectorEnds(es: seq<string>)
    ensures Vector(es) == [] <==> es == []
    ensures es != [] ==> Vector(es)[|Vector(es)| - 1] == EOS
  {
    if es != [] {
      VectorEnds(es[1..]);
    }
  }

  /** argz_create_sep gives the vector of the non-empty fields, with an empty one after a final delimiter. */
  lemma CreateSepKeepsFields(str: string, delim: char)
    requires EOS !in str && delim != EOS
    ensures Pack([], str, delim) == Vector(Kept(str, delim))
  {
    assert Vector([]) + "" == [];
    PackFrom([], "", str, delim);
    PrefixNothing(Split(str, delim));
    assert [] + Kept(str, delim) == Kept(str, delim);
  }

  // ---------- round trips ----------

  lemma {:induction false} SplitField(d: string, t: string, delim: char)
    requires delim !in d
    ensures Split(d + [delim] + t, delim) == [d] + Split(t, delim)
  {
    var s := d + [delim] + t;
    if d == [] {
      assert s[1..] == t;
    } else {
      assert s[1..] == d[1..] + [delim] + t;
      SplitField(d[1..], t, delim);
      assert [d[0]] + d[1..] == d;
    }
  }

  lemma {:induction false} SplitSingle(d: string, delim: char)
    requires delim !in d
    ensures Split(d, delim) == [d]
  {
    if d != [] {
      SplitSingle(d[1..], delim);
      assert [d[0]] + d[1..] == d;
    }
  }

  lemma {:induction false} SplitUndoesJoin(ds: seq<string>, delim: char)
    requires ds != [] && Free(ds, delim)
    ensures Split(Join(ds, delim), delim) == ds
    decreases |ds|
  {
    if |ds| == 1 {
      SplitSingle(ds[0], delim);
    } else {
      SplitUndoesJoin(ds[1..], delim);
      SplitField(ds[0], Join(ds[1..], delim), delim);
    }
  }

  lemma {:induction false} NonEmptyAll(ds: seq<string>)
    requires NoneEmpty(ds)
    ensures NonEmpty(ds) == ds
  {
    if ds != [] {
      NonEmptyAll(ds[1..]);
    }
  }

  lemma {:induction false} JoinFree(ds: seq<string>, sep: char, c: char)
    requires Free(ds, c) && c != sep
    ensures c !in Join(ds, sep)
    decreases |ds|
  {
    if |ds| > 1 {
      JoinFree(ds[1..], sep, c);
    }
  }

  /** Splitting what was joined gives the vector of the same entries. */
  lemma CreateSepUndoesJoin(ds: seq<string>, delim: char)
    requires ds != [] && NoneEmpty(ds) && Free(ds, delim) && Free(ds, EOS) && delim != EOS
    ensures Pack([], Join(ds, delim), delim) == Vector(ds)
  {
    JoinFree(ds, delim, EOS);
    CreateSepKeepsFields(Join(ds, delim), delim);
    SplitUndoesJoin(ds, delim);
    NonEmptyAll(ds);
    assert ds + [] == ds;
  }

  lemma FirstEntry(d: string, t: string)
    requires EOS !in d
    ensures var v := d + [EOS] + t; EOS in v && End(v) == |d| && v[..|d|] == d && v[|d| + 1..] == t
  {
    var v := d + [EOS] + t;
    assert v[|d|] == EOS;
    assert forall j :: 0 <= j < |d| ==> v[j] == d[j];
  }

  /** A walk over a vector meets its entries in order, each once. */
  lemma {:induction false} EntriesOfVector(ds: seq<string>)
    requires Free(ds, EOS)
    ensures Entries(Vector(ds)) == ds
    decreases |ds|
  {
    hide Entries, End;
    if ds != [] {
      var v := Vector(ds);
      FirstEntry(ds[0], Vector(ds[1..]));
      EntriesStep(v, |ds[0]|);
      EntriesOfVector(ds[1..]);
    } else {
      NoEntries();
    }
  }

  /** All terminators but the last become separators, at the first byte too. */
  function Swapped(v: string, sep: char): string {
    if |v| <= 1 then v else [if v[0] == EOS then sep else v[0]] + Swapped(v[1..], sep)
  }

  lemma {:induction false} SwappedAppend(d: string, t: string, sep: char)
    requires EOS !in d && t != []
    ensures Swapped(d + t, sep) == d + Swapped(t, sep)
  {
    if d == [] {
      assert d + t == t && [] + Swapped(t, sep) == Swapped(t, sep);
    } else {
      assert (d + t)[1..] == d[1..] + t;
      SwappedAppend(d[1..], t, sep);
    }
  }

  lemma {:induction false} SwappedVector(ds: seq<string>, sep: char)
    requires ds != [] && Free(ds, EOS)
    ensures Swapped(Vector(ds), sep) == Join(ds, sep) + [EOS]
    decreases |ds|
  {
    var rest := Vector(ds[1..]);
    assert ds[0] + [EOS] + rest == ds[0] + ([EOS] + rest);
    SwappedAppend(ds[0], [EOS] + rest, sep);
    if |ds| == 1 {
      assert rest == [] && [EOS] + rest == [EOS];
    } else {
      VectorEnds(ds[1..]);
      assert ([EOS] + rest)[1..] == rest;
      SwappedVector(ds[1..], sep);
      assert ds[0] + ([sep] + (Join(ds[1..], sep) + [EOS])) == ds[0] + [sep] + Join(ds[1..], sep) + [EOS];
    }
  }

  lemma {:induction false} SwappedAt(v: string, sep: char)
    ensures |Swapped(v, sep)| == |v|
    ensures forall i :: 0 <= i < |v| ==> Swapped(v, sep)[i] == if i < |v| - 1 && v[i] == EOS then sep else v[i]
  {
    if |v| > 1 {
      SwappedAt(v[1..], sep);
    }
  }

  /** argz_stringify joins the entries of a vector whose first entry is not empty. */
  lemma StringifyJoins(ds: seq<string>, sep: char)
    requires ds != [] && ds[0] != "" && Free(ds, EOS)
    ensures Stringified(Vector(ds), sep) == Join(ds, sep) + [EOS]
  {
    var v := Vector(ds);
    assert v[0] == ds[0][0];
    SwappedAt(v, sep);
    SwappedVector(ds, sep);
    assert Stringified(v, sep) == Swapped(v, sep);
  }

  lemma {:induction false} SplitFree(str: string, delim: char, c: char)
    requires c !in str || c == delim
    ensures Free(Split(str, delim), c)
  {
    if str != [] {
      SplitFree(str[1..], delim, c);
    }
  }

  lemma {:induction false} NonEmptyFree(fields: seq<string>, c: char)
    requires Free(fields, c)
    ensures Free(NonEmpty(fields), c)
  {
    if fields != [] {
      NonEmptyFree(fields[1..], c);
    }
  }

  /** No entry that comes out of argz_create_sep holds the delimiter. */
  lemma CreateSepEntries(str: string, delim: char)
    requires EOS !in str && delim != EOS
    ensures Entries(Pack([], str, delim)) == Kept(str, delim)
    ensures Free(Kept(str, delim), delim) && Free(Kept(str, delim), EOS)
  {
    CreateSepKeepsFields(str, delim);
    SplitFree(str, delim, delim);
    SplitFree(str, delim, EOS);
    NonEmptyFree(Split(str, delim), delim);
    NonEmptyFree(Split(str, delim), EOS);
    EntriesOfVector(Kept(str, delim));
  }

  // ---------- insertion ----------

  /** The entry that holds the byte at `b`. */
  function EntryAt(ds: seq<string>, b: nat): (k: nat)
    requires b < |Vector(ds)|
    ensures k < |ds|
  {
    if b <= |ds[0]| then 0 else 1 + EntryAt(ds[1..], b - |ds[0]| - 1)
  }

  lemma {:induction false} VectorConcat(xs: seq<string>, ys: seq<string>)
    ensures Vector(xs + ys) == Vector(xs) + Vector(ys)
  {
    if xs == [] {
      assert xs + ys == ys;
    } else {
      assert (xs + ys)[1..] == xs[1..] + ys;
      VectorConcat(xs[1..], ys);
    }
  }

  lemma {:induction false} StartWithin(d: string, rest: string, b: nat)
    requires EOS !in d && b <= |d|
    ensures EntryStart(d + [EOS] + rest, b) == 0
  {
    if b > 0 {
      StartWithin(d, rest, b - 1);
    }
  }

  lemma {:induction false} StartPast(d: string, rest: string, b: nat)
    requires b <= |rest|
    ensures EntryStart(d + [EOS] + rest, |d| + 1 + b) == |d| + 1 + EntryStart(rest, b)
  {
    if b > 0 && rest[b - 1] != EOS {
      StartPast(d, rest, b - 1);
    }
  }

  /** An entry starts where the vector of those before it ends. */
  lemma {:induction false} StartOfEntry(ds: seq<string>, b: nat)
    requires Free(ds, EOS) && b < |Vector(ds)|
    ensures EntryStart(Vector(ds), b) == |Vector(ds[..EntryAt(ds, b)])|
    decreases |ds|
  {
    var d, rest := ds[0], ds[1..];
    if b <= |d| {
      StartWithin(d, Vector(rest), b);
      assert ds[..0] == [];
    } else {
      var k := EntryAt(rest, b - |d| - 1);
      StartPast(d, Vector(rest), b - |d| - 1);
      StartOfEntry(rest, b - |d| - 1);
      assert ds[..k + 1][1..] == rest[..k];
    }
  }

  /** argz_insert puts the new entry in front of the one that holds the given byte, all others unchanged. */
  lemma InsertIsListInsert(ds: seq<string>, b: nat, entry: string)
    requires Free(ds, EOS) && b < |Vector(ds)|
    ensures var v, k, j := Vector(ds), EntryStart(Vector(ds), b), EntryAt(ds, b);
            k <= |v| && v[..k] + entry + [EOS] + v[k..] == Vector(ds[..j] + [entry] + ds[j..])
  {
    hide Vector;
    var j := EntryAt(ds, b);
    StartOfEntry(ds, b);
    assert ds == ds[..j] + ds[j..];
    VectorConcat(ds[..j], ds[j..]);
    VectorConcat(ds[..j] + [entry], ds[j..]);
    VectorAppend(ds[..j], entry);
  }

  /** The first entry is the one without a terminator before the byte. */
  lemma FirstEntryIff(ds: seq<string>, b: nat)
    requires Free(ds, EOS) && b < |Vector(ds)|
    ensures EOS in Vector(ds)[..b] <==> EntryAt(ds, b) > 0
  {
    var v := Vector(ds);
    if b <= |ds[0]| {
      assert v[..b] == ds[0][..b];
    } else {
      assert v[..b][|ds[0]|] == EOS;
    }
  }
}
