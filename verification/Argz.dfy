/** Argz vectors, strings separated by NUL bytes, and the library search path kept in one. */
module Argz {
  const EOS: char := '\0'
  const PATHSEP: char := ':'

  datatype Option<T> = None | Some(value: T)

  // ---------- the reference: lists of strings ----------

  /** Each entry with its terminator. */
  function Vector(entries: seq<string>): string {
    if entries == [] then [] else entries[0] + [EOS] + Vector(entries[1..])
  }

  /** The entries with separators between them. */
  function Join(entries: seq<string>, sep: char): string {
    if entries == [] then [] else if |entries| == 1 then entries[0] else entries[0] + [sep] + Join(entries[1..], sep)
  }

  /** The fields between delimiters, empty ones included; there is always one. */
  function Split(str: string, delim: char): (fields: seq<string>)
    ensures |fields| > 0
  {
    if str == [] then [""]
    else
      var rest := Split(str[1..], delim);
      if str[0] == delim then [""] + rest else [[str[0]] + rest[0]] + rest[1..]
  }

  function NonEmpty(fields: seq<string>): seq<string> {
    if fields == [] then [] else (if fields[0] == "" then [] else [fields[0]]) + NonEmpty(fields[1..])
  }

  /** What argz_create_sep keeps: the non-empty fields, and an empty last entry after a final delimiter. */
  function Kept(str: string, delim: char): seq<string> {
    var fields := Split(str, delim);
    NonEmpty(fields) + if fields[|fields| - 1] == "" then [""] else []
  }

  predicate Free(entries: seq<string>, c: char) {
    forall i :: 0 <= i < |entries| ==> c !in entries[i]
  }

  predicate NoneEmpty(entries: seq<string>) {
    forall i :: 0 <= i < |entries| ==> entries[i] != ""
  }

  /** The entries of a vector. */
  function Entries(v: string): seq<string> {
    if EOS !in v then []
    else
      var k := End(v);
      [v[..k]] + Entries(v[k + 1..])
  }

  /** The first terminator, as strchr finds it. */
  function End(v: string): (k: nat)
    requires EOS in v
    ensures k < |v| && v[k] == EOS && forall j :: 0 <= j < k ==> v[j] != EOS
  {
    if v[0] == EOS then 0 else 1 + End(v[1..])
  }

  // ---------- the byte loops ----------

  /** The rest of the loop of argz_create_sep, with `out` written so far. */
  function Pack(out: string, str: string, delim: char): string
    decreases |str|
  {
    if str == [] then out + [EOS]
    else if str[0] != delim then Pack(out + [str[0]], str[1..], delim)
    else if out != [] && out[|out| - 1] != EOS then Pack(out + [EOS], str[1..], delim)
    else Pack(out, str[1..], delim)
  }

  /** Every terminator but the last byte, and not the first byte, becomes a separator. */
  function Stringified(v: string, sep: char): string {
    seq(|v|, i requires 0 <= i < |v| => if 0 < i < |v| - 1 && v[i] == EOS then sep else v[i])
  }

  /** Memory is always found. */
  method CreateSep(str: string, delim: char) returns (argz: array<char>, argz_len: nat)
    requires EOS !in str
    ensures fresh(argz) && 0 < argz_len <= argz.Length
    ensures argz[..argz_len] == Pack([], str, delim)
  {
    argz_len := 1 + |str|;
    argz := new char[argz_len];
    var p, q := 0, 0;
    while p < |str|
      invariant p <= |str| && q <= p
      invariant argz_len == q + 1 + (|str| - p)
      invariant Pack(argz[..q], str[p..], delim) == Pack([], str, delim)
    {
      ghost var out := argz[..q];
      assert str[p..][1..] == str[p + 1..];
      if str[p] == delim {
        if q > 0 && argz[q - 1] != EOS {
          argz[q] := EOS;
          q := q + 1;
          assert argz[..q] == out + [EOS];
        } else {
          argz_len := argz_len - 1;
        }
      } else {
        argz[q] := str[p];
        q := q + 1;
        assert argz[..q] == out + [str[p]];
      }
      p := p + 1;
    }
    assert str[p..] == [];
    ghost var out := argz[..q];
    argz[q] := EOS;
    assert argz[..argz_len] == out + [EOS];
  }

  /** Appends bytes to a vector, which a null pointer makes empty. */
  method Append(argz: array?<char>, argz_len: nat, buf: string) returns (argz': array?<char>, argz_len': nat)
    requires if argz == null then argz_len == 0 else 0 < argz_len <= argz.Length
    ensures argz' == argz || fresh(argz')
    ensures if argz' == null then argz_len' == 0 else 0 < argz_len' <= argz'.Length
    ensures argz_len' == argz_len + |buf|
    ensures argz' != null ==>
              argz'[..argz_len'] == (if argz == null then [] else old(argz[..argz_len])) + buf
  {
    if |buf| == 0 {
      return argz, argz_len;
    }
    argz_len' := argz_len + |buf|;
    var mem := new char[argz_len'];
    if argz != null {
      forall i | 0 <= i < argz_len {
        mem[i] := argz[i];
      }
    }
    label Copied:
    forall i | 0 <= i < |buf| {
      mem[argz_len + i] := buf[i];
    }
    assert argz != null ==> mem[..argz_len] == argz[..argz_len];
    assert mem[argz_len..argz_len'] == buf;
    assert mem[..argz_len'] == mem[..argz_len] + mem[argz_len..argz_len'];
    argz' := mem;
  }

  /** The start of the entry that holds the byte at `b`. */
  function EntryStart(v: string, b: nat): (k: nat)
    requires b <= |v|
    ensures k <= b
  {
    if b == 0 || v[b - 1] == EOS then b else EntryStart(v, b - 1)
  }

  /**
   * argz_insert in front of the entry that holds `before`. In the first entry the code would go on to
   * read the byte in front of the buffer, so some terminator comes before `before`.
   */
  method Insert(argz: array<char>, argz_len: nat, before: nat, entry: string)
      returns (argz': array<char>, argz_len': nat)
    requires 0 < argz_len <= argz.Length && before < argz_len
    requires EOS in argz[..before] && EOS !in entry && entry != ""
    ensures fresh(argz') && argz_len' == argz'.Length == argz_len + |entry| + 1
    ensures var v := argz[..argz_len];
            var k := EntryStart(v, before);
            argz'[..] == v[..k] + entry + [EOS] + v[k..]
  {
    ghost var v := argz[..argz_len];
    var b := before;
    while b >= 0 && argz[b - 1] != EOS
      invariant 0 < b <= before && EOS in argz[..b]
      invariant EntryStart(v, b) == EntryStart(v, before)
      decreases b
    {
      assert argz[..b] == argz[..b - 1] + [argz[b - 1]];
      b := b - 1;
    }
    var entry_len := |entry| + 1;
    argz_len' := argz_len + entry_len;
    argz' := new char[argz_len'];
    forall i | 0 <= i < b {
      argz'[i] := argz[i];
    }
    forall i | b <= i < argz_len {
      argz'[i + entry_len] := argz[i];
    }
    forall i | 0 <= i < entry_len {
      argz'[b + i] := if i < |entry| then entry[i] else EOS;
    }
    assert EntryStart(v, before) == b && argz[..argz_len] == v;
    assert argz'[..] == v[..b] + entry + [EOS] + v[b..];
  }

  /** The entry after `entry`; the first for None. */
  method Next(argz: array?<char>, argz_len: nat, entry: Option<nat>) returns (next: Option<nat>)
    requires if argz == null then argz_len == 0 else 0 < argz_len <= argz.Length && argz[argz_len - 1] == EOS
    requires entry.Some? ==> entry.value < argz_len
    ensures entry.None? ==> next == if argz_len > 0 then Some(0) else None
    ensures entry.Some? ==> EOS in argz[entry.value..argz_len]
    ensures entry.Some? ==>
              var k := entry.value + End(argz[entry.value..argz_len]) + 1;
              next == if k < argz_len then Some(k) else None
  {
    match entry
    case None =>
      return if argz_len > 0 then Some(0) else None;
    case Some(start) =>
      ghost var v := argz[start..argz_len];
      assert v[argz_len - 1 - start] == EOS;
      var k := start;
      while argz[k] != EOS
        invariant start <= k < argz_len
        invariant forall j :: 0 <= j < k - start ==> v[j] != EOS
        decreases argz_len - k
      {
        k := k + 1;
      }
      assert v[k - start] == EOS;
      return if k + 1 < argz_len then Some(k + 1) else None;
  }

  /** Writes the separators in place. */
  method Stringify(argz: array<char>, argz_len: nat, sep: char)
    requires 2 <= argz_len <= argz.Length
    modifies argz
    ensures argz[..argz_len] == if sep != EOS then Stringified(old(argz[..argz_len]), sep) else old(argz[..argz_len])
  {
    if sep != EOS {
      var len := argz_len - 1;
      len := len - 1;
      while len > 0
        invariant 0 <= len <= argz_len - 2
        invariant forall i :: 0 <= i < argz_len ==>
                    argz[i] == if len < i < argz_len - 1 && old(argz[i]) == EOS then sep else old(argz[i])
      {
        if argz[len] == EOS {
          argz[len] := sep;
        }
        len := len - 1;
      }
      assert argz[..argz_len] == Stringified(old(argz[..argz_len]), sep);
    }
  }

  lemma EntriesStep(v: string, k: nat)
    requires EOS in v && k == End(v)
    ensures Entries(v) == [v[..k]] + Entries(v[k + 1..])
  {
    hide End;
  }

  lemma NoEntries()
    ensures Entries([]) == []
  {
  }

  /** The entries from an offset on. */
  function Remaining(all: string, entry: Option<nat>): seq<string> {
    if entry.Some? && entry.value <= |all| then Entries(all[entry.value..]) else []
  }

  /** One entry of a walk. */
  lemma VisitStep(all: string, start: nat)
    requires start < |all| && EOS in all[start..]
    ensures var k := End(all[start..]);
            start + k < |all| && Remaining(all, Some(start)) == [all[start..][..k]]
              + Remaining(all, if start + k + 1 < |all| then Some(start + k + 1) else None)
  {
    hide Entries, End;
    var v := all[start..];
    var k := End(v);
    EntriesStep(v, k);
    assert v[k + 1..] == all[start + k + 1..];
    NoEntries();
    assert start + k + 1 == |all| ==> v[k + 1..] == [];
  }

  lemma Associate<T>(xs: seq<T>, y: T, zs: seq<T>)
    ensures xs + ([y] + zs) == xs + [y] + zs
  {
  }

  /** The loop over a vector: the strings at each entry in turn. */
  method Visit(argz: array<char>, argz_len: nat) returns (visited: seq<string>)
    requires 0 < argz_len <= argz.Length && argz[argz_len - 1] == EOS
    ensures visited == Entries(argz[..argz_len])
  {
    hide Remaining, Entries, End;
    ghost var all := argz[..argz_len];
    visited := [];
    var entry := Next(argz, argz_len, None);
    WalkEnds(all);
    ghost var rest := Entries(all);
    while entry.Some?
      invariant entry.Some? ==> entry.value < argz_len
      invariant rest == Remaining(all, entry) && visited + rest == Entries(all)
      decreases if entry.Some? then argz_len - entry.value else 0
    {
      var start := entry.value;
      assert all[start..] == argz[start..argz_len];
      var name := ReadString(argz, argz_len, start);
      entry := Next(argz, argz_len, entry);
      VisitStep(all, start);
      rest := Remaining(all, entry);
      Associate(visited, name, rest);
      visited := visited + [name];
    }
  }

  lemma WalkEnds(all: string)
    ensures Remaining(all, Some(0)) == Entries(all) && Remaining(all, None) == []
  {
    assert all[0..] == all;
  }

  /** The C string at an offset. */
  method ReadString(argz: array<char>, argz_len: nat, start: nat) returns (s: string)
    requires start < argz_len <= argz.Length && argz[argz_len - 1] == EOS
    ensures EOS in argz[start..argz_len] && s == argz[start..argz_len][..End(argz[start..argz_len])]
  {
    ghost var v := argz[start..argz_len];
    assert v[argz_len - 1 - start] == EOS;
    s := [];
    while argz[start + |s|] != EOS
      invariant start + |s| < argz_len && s == v[..|s|] && forall j :: 0 <= j < |s| ==> v[j] != EOS
      decreases argz_len - start - |s|
    {
      s := s + [argz[start + |s|]];
    }
    assert v[|s|] == EOS;
  }
}
