/** The user library search path of libltdl. */
module SearchPath {
  import opened Argz
  import opened ArgzLaws

  // ---------- canonicalize_path ----------

  function After(s: string): char
    requires s != []
  {
    if |s| > 1 then s[1] else EOS
  }

  /** The loop of canonicalize_path; `started` says that something was copied. */
  function Canonical(s: string, started: bool): string {
    if s == [] then []
    else if s[0] == PATHSEP && (!started || After(s) == PATHSEP || After(s) == EOS) then Canonical(s[1..], started)
    else if s[0] != '/' then [s[0]] + Canonical(s[1..], true)
    else if After(s) != PATHSEP && After(s) != EOS && After(s) != '/' then ['/'] + Canonical(s[1..], true)
    else Canonical(s[1..], started)
  }

  predicate OnlySeparators(s: string) {
    forall i :: 0 <= i < |s| ==> s[i] == PATHSEP || s[i] == '/'
  }

  /** Nothing is left of a path exactly when it is all slashes and colons. */
  lemma {:induction false} CanonicalEmptyIff(s: string)
    requires EOS !in s
    ensures Canonical(s, false) == [] <==> OnlySeparators(s)
  {
    if s != [] {
      CanonicalEmptyIff(s[1..]);
      assert |s| > 1 ==> s[1] in s;
      assert OnlySeparators(s) <==> (s[0] == PATHSEP || s[0] == '/') && OnlySeparators(s[1..]) by {
        assert forall i :: 0 < i < |s| ==> s[1..][i - 1] == s[i];
      }
    }
  }

  /** The character copied when the loop is at position `src`, if one is. */
  function Copied(path: string, src: nat, started: bool): string
    requires src < |path|
  {
    var next := if src + 1 < |path| then path[src + 1] else EOS;
    if path[src] == PATHSEP && (!started || next == PATHSEP || next == EOS) then []
    else if path[src] != '/' then [path[src]]
    else if next != PATHSEP && next != EOS && next != '/' then ['/']
    else []
  }

  lemma {:induction false} CanonicalStep(path: string, src: nat, started: bool)
    requires src < |path|
    ensures var c := Copied(path, src, started);
            Canonical(path[src..], started) == c + Canonical(path[src + 1..], started || c != [])
  {
    var s := path[src..];
    assert s[1..] == path[src + 1..] && s[0] == path[src];
    assert After(s) == if src + 1 < |path| then path[src + 1] else EOS;
  }

  /** The loop that writes the canonical path; its length, not its text, is what the caller tests. */
  method CanonicalizePath(path: string) returns (canonical: array<char>, dest: nat)
    requires EOS !in path
    ensures fresh(canonical) && dest < canonical.Length
    ensures canonical[..dest] == Canonical(path, false) && canonical[dest] == EOS
  {
    hide Canonical;
    canonical := new char[1 + |path|];
    dest := 0;
    var src := 0;
    Ends(path);
    while src < |path|
      invariant dest <= src <= |path|
      invariant canonical[..dest] + Canonical(path[src..], dest > 0) == Canonical(path, false)
    {
      ghost var out, c := canonical[..dest], Copied(path, src, dest > 0);
      CanonicalStep(path, src, dest > 0);
      Regroup(out, c, Canonical(path[src + 1..], dest > 0 || c != []));
      var next := if src + 1 < |path| then path[src + 1] else EOS;
      if path[src] == PATHSEP && (dest == 0 || next == PATHSEP || next == EOS) {
        assert c == [] && out + c == out;
      } else if path[src] != '/' {
        canonical[dest] := path[src];
        dest := dest + 1;
        assert canonical[..dest] == out + c;
      } else if next != PATHSEP && next != EOS && next != '/' {
        canonical[dest] := '/';
        dest := dest + 1;
        assert canonical[..dest] == out + c;
      } else {
        assert c == [] && out + c == out;
      }
      src := src + 1;
    }
    canonical[dest] := EOS;
  }

  lemma Regroup(a: string, b: string, c: string)
    ensures a + (b + c) == (a + b) + c
  {
  }

  lemma {:induction false} Ends(path: string)
    ensures path[0..] == path && path[|path|..] == [] && Canonical([], true) == Canonical([], false) == []
    ensures forall s: string :: [] + s == s == s + []
  {
  }

  // ---------- adding a directory ----------

  /** An assertion of the code stops the program. */
  datatype Outcome = Done(path: Option<string>) | Aborted

  predicate Addable(dir: string) {
    dir != "" && EOS !in dir && !OnlySeparators(dir)
  }

  /** The bytes before the first terminator. */
  function Text(buffer: string): string
    requires EOS in buffer
  {
    buffer[..End(buffer)]
  }

  function Extended(path: string, dir: string): string {
    Stringified(Pack([], path, PATHSEP) + dir + [EOS], PATHSEP)
  }

  lemma ExtendedEnds(path: string, dir: string)
    ensures EOS in Extended(path, dir)
  {
    var w := Extended(path, dir);
    assert w[|w| - 1] == EOS;
  }

  /** The same with the directory put in front of the entry that holds the byte at `b`. */
  function ExtendedAt(path: string, dir: string, b: nat): string
    requires b <= |Pack([], path, PATHSEP)|
  {
    var v := Pack([], path, PATHSEP);
    var k := EntryStart(v, b);
    Stringified(v[..k] + dir + [EOS] + v[k..], PATHSEP)
  }

  /** A place to insert at: within the split path and past its first entry. */
  predicate Insertable(path: string, b: nat) {
    var v := Pack([], path, PATHSEP);
    b <= |path| && b < |v| && EOS in v[..b]
  }

  lemma {:induction false} PackEnds(out: string, str: string, delim: char)
    ensures var v := Pack(out, str, delim); |v| > 0 && v[|v| - 1] == EOS
    decreases |str|
  {
    if str != [] {
      PackEnds(if str[0] != delim then out + [str[0]]
               else if out != [] && out[|out| - 1] != EOS then out + [EOS]
               else out,
               str[1..], delim);
    }
  }

  lemma ExtendedAtEnds(path: string, dir: string, b: nat)
    requires b < |Pack([], path, PATHSEP)|
    ensures EOS in ExtendedAt(path, dir, b)
  {
    PackEnds([], path, PATHSEP);
    var w := ExtendedAt(path, dir, b);
    assert w[|w| - 1] == EOS;
  }

  /** lt_dlpath_insertdir: the first directory is stored as it is. */
  function DirInserted(path: Option<string>, before: Option<nat>, dir: string): Outcome
    requires before.Some? ==> path.Some? && Insertable(path.value, before.value)
  {
    if Canonical(dir, false) == [] then Aborted
    else
      match path
      case None => Done(Some(dir))
      case Some(p) =>
        if before.None? then ExtendedEnds(p, dir); Done(Some(Text(Extended(p, dir))))
        else ExtendedAtEnds(p, dir, before.value); Done(Some(Text(ExtendedAt(p, dir, before.value))))
  }

  /** lt_dladdsearchdir: nothing happens for no directory. */
  function AddDir(path: Option<string>, dir: string): Outcome {
    if dir == "" then Done(path) else DirInserted(path, None, dir)
  }

  function AddAll(path: Option<string>, dirs: seq<string>): Outcome
    decreases |dirs|
  {
    if dirs == [] then Done(path)
    else
      match AddDir(path, dirs[0])
      case Aborted => Aborted
      case Done(p) => AddAll(p, dirs[1..])
  }

  class UserPath {
    var path: array?<char>

    ghost predicate Valid()
      reads this, path
    {
      path != null ==> EOS in path[..]
    }

    ghost function Value(): Option<string>
      requires Valid()
      reads this, path
    {
      if path == null then None else Some(Text(path[..]))
    }

    constructor ()
      ensures Valid() && Value() == None
    {
      path := null;
    }

    method InsertDir(before: Option<nat>, dir: string) returns (aborted: bool)
      requires Valid() && dir != "" && EOS !in dir
      requires before.Some? ==> Value().Some? && Insertable(Value().value, before.value)
      modifies this
      ensures Valid() && (path == old(path) || fresh(path))
      ensures aborted <==> DirInserted(old(Value()), before, dir).Aborted?
      ensures aborted ==> Value() == old(Value())
      ensures !aborted ==> Done(Value()) == DirInserted(old(Value()), before, dir)
    {
      var canonical, dest := CanonicalizePath(dir);
      if dest == 0 {
        return true;
      }
      aborted := false;
      if path == null {
        path := Duplicate(dir);
      } else if before.None? {
        path := Extend(path, dir);
      } else {
        path := ExtendBefore(path, before.value, dir);
      }
    }

    /** lt_dlinsertsearchdir: a position outside the path is an error. */
    method InsertSearchDir(before: int, dir: string) returns (errors: int, aborted: bool)
      requires Valid() && EOS !in dir
      requires Value().Some? && 0 <= before < |Value().value| ==> Insertable(Value().value, before)
      modifies this
      ensures Valid() && (path == old(path) || fresh(path))
      ensures errors == if old(Value()).Some? && 0 <= before < |old(Value()).value| then 0 else 1
      ensures errors == 1 || dir == "" ==> !aborted && Value() == old(Value())
      ensures errors == 0 && dir != "" ==>
                var r := DirInserted(old(Value()), Some(before), dir);
                (aborted <==> r.Aborted?) && Value() == if aborted then old(Value()) else r.path
    {
      aborted := false;
      var length := 0;
      if path != null {
        var text := CString(path);
        length := |text|;
      }
      if before < 0 || before >= length {
        return 1, false;
      }
      errors := 0;
      if dir != "" {
        aborted := InsertDir(Some(before), dir);
      }
    }

    method AddSearchDir(dir: Option<string>) returns (aborted: bool)
      requires Valid() && (dir.Some? ==> EOS !in dir.value)
      modifies this
      ensures Valid() && (path == old(path) || fresh(path))
      ensures dir.None? ==> !aborted && Value() == old(Value())
      ensures dir.Some? ==> (aborted <==> AddDir(old(Value()), dir.value).Aborted?)
      ensures dir.Some? && !aborted ==> Done(Value()) == AddDir(old(Value()), dir.value)
    {
      aborted := false;
      if dir.Some? && dir.value != "" {
        aborted := InsertDir(None, dir.value);
      }
    }
  }

  lemma TextOf(buffer: string, t: string, rest: string)
    requires EOS !in t && buffer == t + [EOS] + rest
    ensures EOS in buffer && Text(buffer) == t
  {
    FirstEntry(t, rest);
  }

  method Duplicate(s: string) returns (copy: array<char>)
    requires EOS !in s
    ensures fresh(copy) && EOS in copy[..] && Text(copy[..]) == s
  {
    copy := new char[|s| + 1];
    forall i | 0 <= i < |s| {
      copy[i] := s[i];
    }
    copy[|s|] := EOS;
    assert copy[..] == s + [EOS] + [];
    TextOf(copy[..], s, []);
  }

  /** The C string in a buffer. */
  method CString(buffer: array<char>) returns (s: string)
    requires EOS in buffer[..]
    ensures s == Text(buffer[..]) && EOS !in s
  {
    s := [];
    while buffer[|s|] != EOS
      invariant |s| <= End(buffer[..]) && s == buffer[..|s|] && EOS !in s
      decreases buffer.Length - |s|
    {
      s := s + [buffer[|s|]];
    }
  }

  /** Splits the path, appends the directory and joins again. */
  method Extend(path: array<char>, dir: string) returns (extended: array<char>)
    requires EOS in path[..] && dir != "" && EOS !in dir
    ensures fresh(extended) && EOS in extended[..]
    ensures EOS in Extended(Text(path[..]), dir)
    ensures Text(extended[..]) == Text(Extended(Text(path[..]), dir))
  {
    var p := CString(path);
    ExtendedEnds(p, dir);
    var argz, argz_len := CreateSep(p, PATHSEP);
    var longer, longer_len := Append(argz, argz_len, dir + [EOS]);
    assert longer[..longer_len] == Pack([], p, PATHSEP) + dir + [EOS];
    Stringify(longer, longer_len, PATHSEP);
    extended := longer;
    PrefixText(extended[..], longer_len);
  }

  /** Splits the path, inserts the directory and joins again. */
  method ExtendBefore(path: array<char>, before: nat, dir: string) returns (extended: array<char>)
    requires EOS in path[..] && dir != "" && EOS !in dir && Insertable(Text(path[..]), before)
    ensures fresh(extended) && EOS in extended[..]
    ensures EOS in ExtendedAt(Text(path[..]), dir, before)
    ensures Text(extended[..]) == Text(ExtendedAt(Text(path[..]), dir, before))
  {
    var p := CString(path);
    ExtendedAtEnds(p, dir, before);
    var argz, argz_len := CreateSep(p, PATHSEP);
    ghost var v := argz[..argz_len];
    assert argz[..before] == v[..before];
    var longer, longer_len := Insert(argz, argz_len, before, dir);
    assert longer[..longer_len] == longer[..];
    Stringify(longer, longer_len, PATHSEP);
    extended := longer;
    assert extended[..longer_len] == extended[..];
  }

  lemma PrefixText(buffer: string, n: nat)
    requires n <= |buffer| && EOS in buffer[..n]
    ensures EOS in buffer && Text(buffer) == Text(buffer[..n])
  {
    var k := End(buffer[..n]);
    assert buffer[k] == buffer[..n][k] == EOS;
    assert forall j :: 0 <= j < k ==> buffer[j] == buffer[..n][j];
  }

  // ---------- every run ----------

  lemma AddKeepsJoin(ds: seq<string>, dir: string)
    requires ds != [] && NoneEmpty(ds) && Free(ds, PATHSEP) && Free(ds, EOS)
    requires Addable(dir) && PATHSEP !in dir
    ensures AddDir(Some(Join(ds, PATHSEP)), dir) == Done(Some(Join(ds + [dir], PATHSEP)))
  {
    var all, p := ds + [dir], Join(ds, PATHSEP);
    CanonicalEmptyIff(dir);
    CreateSepUndoesJoin(ds, PATHSEP);
    VectorAppend(ds, dir);
    assert Free(all, EOS);
    StringifyJoins(all, PATHSEP);
    JoinFree(all, PATHSEP, EOS);
    ExtendedEnds(p, dir);
    assert Extended(p, dir) == Join(all, PATHSEP) + [EOS] + [];
    TextOf(Extended(p, dir), Join(all, PATHSEP), []);
  }

  lemma {:induction false} AddAllJoins(ds: seq<string>, more: seq<string>)
    requires ds != [] && NoneEmpty(ds) && Free(ds, PATHSEP) && Free(ds, EOS)
    requires Free(more, PATHSEP) && forall i :: 0 <= i < |more| ==> Addable(more[i])
    ensures AddAll(Some(Join(ds, PATHSEP)), more) == Done(Some(Join(ds + more, PATHSEP)))
    decreases |more|
  {
    if more == [] {
      assert ds + more == ds;
    } else {
      AddKeepsJoin(ds, more[0]);
      assert ds + [more[0]] + more[1..] == ds + more;
      AddAllJoins(ds + [more[0]], more[1..]);
    }
  }

  /** The first directory is the whole path. */
  lemma FirstDir(dirs: seq<string>)
    requires dirs != [] && Addable(dirs[0])
    ensures AddAll(None, dirs) == AddAll(Some(Join([dirs[0]], PATHSEP)), dirs[1..])
  {
    CanonicalEmptyIff(dirs[0]);
    hide Canonical, OnlySeparators;
    assert AddDir(None, dirs[0]) == Done(Some(dirs[0]));
  }

  /** Directories without a colon are stored joined, and splitting the path gives them back in order. */
  lemma AddedDirsComeBack(dirs: seq<string>)
    requires dirs != [] && Free(dirs, PATHSEP) && forall i :: 0 <= i < |dirs| ==> Addable(dirs[i])
    ensures AddAll(None, dirs) == Done(Some(Join(dirs, PATHSEP)))
    ensures Pack([], Join(dirs, PATHSEP), PATHSEP) == Vector(dirs)
    ensures Entries(Pack([], Join(dirs, PATHSEP), PATHSEP)) == dirs
  {
    hide AddAll, Join, Pack, Entries, OnlySeparators, Vector;
    FirstDir(dirs);
    AddAllJoins([dirs[0]], dirs[1..]);
    assert [dirs[0]] + dirs[1..] == dirs;
    CreateSepUndoesJoin(dirs, PATHSEP);
    EntriesOfVector(dirs);
  }

  lemma {:induction false} AddAllEndsFree(path: Option<string>, dirs: seq<string>)
    requires path.Some? ==> EOS !in path.value
    requires forall i :: 0 <= i < |dirs| ==> EOS !in dirs[i]
    requires AddAll(path, dirs).Done? && AddAll(path, dirs).path.Some?
    ensures EOS !in AddAll(path, dirs).path.value
    decreases |dirs|
  {
    if dirs != [] {
      AddAllEndsFree(AddDir(path, dirs[0]).path, dirs[1..]);
    }
  }

  /** The directories come back exactly when none of them holds a colon. */
  lemma ComeBackIff(dirs: seq<string>)
    requires dirs != [] && forall i :: 0 <= i < |dirs| ==> Addable(dirs[i])
    ensures (AddAll(None, dirs).Done? && AddAll(None, dirs).path.Some?
             && Entries(Pack([], AddAll(None, dirs).path.value, PATHSEP)) == dirs)
            <==> Free(dirs, PATHSEP)
  {
    if Free(dirs, PATHSEP) {
      AddedDirsComeBack(dirs);
    }
    var r := AddAll(None, dirs);
    if r.Done? && r.path.Some? {
      AddAllEndsFree(None, dirs);
      CreateSepEntries(r.path.value, PATHSEP);
    }
  }

  /** A directory of slashes and colons alone stops the program. */
  lemma AbortsIff(path: Option<string>, dir: string)
    requires EOS !in dir
    ensures AddDir(path, dir).Aborted? <==> dir != "" && OnlySeparators(dir)
  {
    CanonicalEmptyIff(dir);
  }

  // ---------- runs that also insert ----------

  lemma InsertKeepsJoin(ds: seq<string>, b: nat, dir: string)
    requires ds != [] && NoneEmpty(ds) && Free(ds, PATHSEP) && Free(ds, EOS)
    requires Addable(dir) && PATHSEP !in dir && Insertable(Join(ds, PATHSEP), b)
    ensures b < |Vector(ds)| && EntryAt(ds, b) > 0
    ensures var j := EntryAt(ds, b);
            DirInserted(Some(Join(ds, PATHSEP)), Some(b), dir) == Done(Some(Join(ds[..j] + [dir] + ds[j..], PATHSEP)))
  {
    var p := Join(ds, PATHSEP);
    CanonicalEmptyIff(dir);
    CreateSepUndoesJoin(ds, PATHSEP);
    FirstEntryIff(ds, b);
    InsertIsListInsert(ds, b, dir);
    var all := ds[..EntryAt(ds, b)] + [dir] + ds[EntryAt(ds, b)..];
    assert all[0] == ds[0];
    StringifyJoins(all, PATHSEP);
    JoinFree(all, PATHSEP, EOS);
    ExtendedAtEnds(p, dir, b);
    hide EntryAt, Join, Vector, Pack, EntryStart, Stringified;
    assert ExtendedAt(p, dir, b) == Join(all, PATHSEP) + [EOS] + [];
    TextOf(ExtendedAt(p, dir, b), Join(all, PATHSEP), []);
  }

  /** Adding at the end, or in front of the directory at a position of the path. */
  datatype PathOp = AddLast(dir: string) | InsertAt(before: nat, dir: string)

  function Apply(path: string, op: PathOp): Outcome
    requires op.InsertAt? ==> Insertable(path, op.before)
  {
    if op.AddLast? then AddDir(Some(path), op.dir) else DirInserted(Some(path), Some(op.before), op.dir)
  }

  /** What the operation means for the list of directories. */
  function ListAfter(ds: seq<string>, op: PathOp): seq<string>
    requires op.InsertAt? ==> op.before < |Vector(ds)|
  {
    if op.AddLast? then ds + [op.dir]
    else
      var j := EntryAt(ds, op.before);
      ds[..j] + [op.dir] + ds[j..]
  }

  /** `path` and `ds` after the same operations, each on an addable directory without colon at a proper place. */
  predicate Follows(path: string, ds: seq<string>, ops: seq<PathOp>, path': string, ds': seq<string>)
    decreases |ops|
  {
    if ops == [] then path' == path && ds' == ds
    else
      && Addable(ops[0].dir) && PATHSEP !in ops[0].dir
      && (ops[0].InsertAt? ==> Insertable(path, ops[0].before) && ops[0].before < |Vector(ds)|)
      && Apply(path, ops[0]).Done? && Apply(path, ops[0]).path.Some?
      && Follows(Apply(path, ops[0]).path.value, ListAfter(ds, ops[0]), ops[1..], path', ds')
  }

  predicate Entered(ds: seq<string>) {
    ds != [] && NoneEmpty(ds) && Free(ds, PATHSEP) && Free(ds, EOS)
  }

  lemma {:induction false} EnteredAfter(ds: seq<string>, op: PathOp)
    requires Entered(ds) && Addable(op.dir) && PATHSEP !in op.dir
    requires op.InsertAt? ==> op.before < |Vector(ds)| && EntryAt(ds, op.before) <= |ds|
    ensures Entered(ListAfter(ds, op))
  {
    hide Vector, EntryAt, OnlySeparators;
  }

  lemma {:induction false} OpIsListOp(ds: seq<string>, op: PathOp)
    requires Entered(ds) && Addable(op.dir) && PATHSEP !in op.dir
    requires op.InsertAt? ==> Insertable(Join(ds, PATHSEP), op.before) && op.before < |Vector(ds)|
    ensures Entered(ListAfter(ds, op))
    ensures Apply(Join(ds, PATHSEP), op) == Done(Some(Join(ListAfter(ds, op), PATHSEP)))
  {
    hide Join, Vector, EntryAt, NoneEmpty, Free, Addable, AddDir, DirInserted, Insertable;
    EnteredAfter(ds, op);
    if op.AddLast? {
      AddKeepsJoin(ds, op.dir);
    } else {
      InsertKeepsJoin(ds, op.before, op.dir);
    }
  }

  /** After any mix of additions and insertions the path is the joined list, and splits back into it. */
  lemma {:induction false} PathIsTheList(ds: seq<string>, ops: seq<PathOp>, path': string, ds': seq<string>)
    requires Entered(ds) && Follows(Join(ds, PATHSEP), ds, ops, path', ds')
    ensures path' == Join(ds', PATHSEP) && Entries(Pack([], path', PATHSEP)) == ds'
    decreases |ops|
  {
    hide Join, Apply, ListAfter, Entries, Pack, Vector, Insertable;
    if ops == [] {
      CreateSepUndoesJoin(ds, PATHSEP);
      EntriesOfVector(ds);
    } else {
      OpIsListOp(ds, ops[0]);
      PathIsTheList(ListAfter(ds, ops[0]), ops[1..], path', ds');
    }
  }
}
