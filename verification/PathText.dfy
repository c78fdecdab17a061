/** What canonicalize_path makes of a path's text. */
module PathText {
  import opened Argz
  import opened ArgzLaws
  import opened SearchPath

  predicate IsSeparator(c: char) {
    c == '/' || c == ':'
  }

  /** The characters that are neither slash nor colon. */
  function Names(s: string): string {
    if s == [] then [] else (if IsSeparator(s[0]) then [] else [s[0]]) + Names(s[1..])
  }

  lemma NamesAppend(c: char, t: string)
    ensures Names([c] + t) == (if IsSeparator(c) then [] else [c]) + Names(t)
  {
    assert ([c] + t)[1..] == t;
  }

  /** Only slashes and colons are dropped: all other characters stay, in order. */
  lemma {:induction false} CanonicalKeepsNames(s: string, started: bool)
    ensures Names(Canonical(s, started)) == Names(s)
  {
    if s != [] {
      CanonicalKeepsNames(s[1..], started);
      CanonicalKeepsNames(s[1..], true);
      NamesAppend(s[0], Canonical(s[1..], true));
    }
  }

  /** No slash is left at the end, before another one or before a colon. */
  predicate SlashesLead(s: string) {
    forall i :: 0 <= i < |s| && s[i] == '/' ==> i + 1 < |s| && !IsSeparator(s[i + 1])
  }

  lemma SlashesAppend(c: char, t: string)
    requires SlashesLead(t) && (c == '/' ==> t != [] && !IsSeparator(t[0]))
    ensures SlashesLead([c] + t)
  {
    var s := [c] + t;
    forall i | 0 <= i < |s| && s[i] == '/'
      ensures i + 1 < |s| && !IsSeparator(s[i + 1])
    {
      if i > 0 {
        assert t[i - 1] == '/';
      }
    }
  }

  /** A character that is no separator is copied. */
  lemma NameIsCopied(s: string, started: bool)
    requires s != [] && !IsSeparator(s[0])
    ensures Canonical(s, started) == [s[0]] + Canonical(s[1..], true)
  {
  }

  lemma {:induction false} CanonicalSlashes(s: string, started: bool)
    requires EOS !in s
    ensures SlashesLead(Canonical(s, started))
  {
    if s != [] {
      CanonicalSlashes(s[1..], started);
      CanonicalSlashes(s[1..], true);
      if Canonical(s, started) != Canonical(s[1..], started) {
        if s[0] == '/' {
          NameIsCopied(s[1..], true);
        }
        SlashesAppend(s[0], Canonical(s[1..], true));
      }
    }
  }

  /** Fields, each behind a colon. */
  function Behind(fields: seq<string>): string {
    if fields == [] then [] else [':'] + fields[0] + Behind(fields[1..])
  }

  lemma {:induction false} JoinIsBehind(f: string, fields: seq<string>)
    ensures Join([f] + fields, ':') == f + Behind(fields)
    decreases |fields|
  {
    var all := [f] + fields;
    assert all[1..] == fields;
    if fields == [] {
      assert f + [] == f;
    } else {
      JoinIsBehind(fields[0], fields[1..]);
      assert [fields[0]] + fields[1..] == fields;
      assert f + [':'] + (fields[0] + Behind(fields[1..])) == f + ([':'] + fields[0] + Behind(fields[1..]));
    }
  }

  lemma BehindFirst(f: string, fields: seq<string>)
    requires f != ""
    ensures Behind(NonEmpty([f] + fields)) == [':'] + f + Behind(NonEmpty(fields))
  {
    assert ([f] + fields)[1..] == fields;
    assert ([f] + NonEmpty(fields))[1..] == NonEmpty(fields);
  }

  lemma EmptyFirst(fields: seq<string>)
    ensures NonEmpty([""] + fields) == NonEmpty(fields)
  {
    assert ([""] + fields)[1..] == fields;
  }

  lemma NothingBehind()
    ensures NonEmpty([]) == [] && Behind([]) == []
  {
  }

  /** From within a path without slashes: the rest of the field, and each further non-empty field behind a colon. */
  lemma {:induction false} CanonicalRest(s: string)
    requires EOS !in s && '/' !in s
    ensures Canonical(s, true) == Split(s, ':')[0] + Behind(NonEmpty(Split(s, ':')[1..]))
  {
    hide Behind, NonEmpty, Join;
    NothingBehind();
    if s != [] {
      CanonicalRest(s[1..]);
      if s[0] != ':' {
        RestAtName(s);
      } else {
        RestAtColon(s);
      }
    } else {
      assert [""][1..] == [];
    }
  }

  lemma RestAtName(s: string)
    requires EOS !in s && '/' !in s && s != [] && s[0] != ':'
    requires Canonical(s[1..], true) == Split(s[1..], ':')[0] + Behind(NonEmpty(Split(s[1..], ':')[1..]))
    ensures Canonical(s, true) == Split(s, ':')[0] + Behind(NonEmpty(Split(s, ':')[1..]))
  {
    hide Behind, NonEmpty;
    var fields := Split(s[1..], ':');
    var rest := Behind(NonEmpty(fields[1..]));
    assert Split(s, ':') == [[s[0]] + fields[0]] + fields[1..];
    assert ([s[0]] + fields[0]) + rest == [s[0]] + (fields[0] + rest);
  }

  lemma RestAtColon(s: string)
    requires EOS !in s && '/' !in s && s != [] && s[0] == ':'
    requires Canonical(s[1..], true) == Split(s[1..], ':')[0] + Behind(NonEmpty(Split(s[1..], ':')[1..]))
    ensures Canonical(s, true) == Split(s, ':')[0] + Behind(NonEmpty(Split(s, ':')[1..]))
  {
    hide Behind, NonEmpty;
    var t := s[1..];
    var fields := Split(t, ':');
    assert Split(s, ':') == [""] + fields && fields == [fields[0]] + fields[1..];
    if t == [] || t[0] == ':' {
      EmptyFirst(fields[1..]);
    } else {
      BehindFirst(fields[0], fields[1..]);
      var rest := Behind(NonEmpty(fields[1..]));
      assert [':'] + (fields[0] + rest) == [':'] + fields[0] + rest;
    }
  }

  /** A path without slashes becomes its non-empty fields with one colon between them. */
  lemma {:induction false} CanonicalJoinsFields(s: string)
    requires EOS !in s && '/' !in s
    ensures Canonical(s, false) == Join(NonEmpty(Split(s, ':')), ':')
  {
    if s != [] {
      var t := s[1..];
      var fields := Split(t, ':');
      if s[0] == ':' {
        CanonicalJoinsFields(t);
        EmptyFirst(fields);
      } else {
        CanonicalRest(t);
        var f := [s[0]] + fields[0];
        assert Split(s, ':') == [f] + fields[1..];
        assert NonEmpty([f] + fields[1..]) == [f] + NonEmpty(fields[1..]) by {
          assert ([f] + fields[1..])[1..] == fields[1..];
        }
        JoinIsBehind(f, NonEmpty(fields[1..]));
        assert f + Behind(NonEmpty(fields[1..])) == [s[0]] + (fields[0] + Behind(NonEmpty(fields[1..])));
      }
    }
  }

  /** It never starts with a colon. */
  lemma {:induction false} CanonicalStart(s: string)
    ensures Canonical(s, false) != [] ==> Canonical(s, false)[0] != ':'
  {
    if s != [] {
      CanonicalStart(s[1..]);
    }
  }

  /** Where a slash stands alone between colons the code looks at the text before it is cleaned: `a:/:b` keeps both
      colons. */
  lemma EmptyFieldStays()
    ensures Canonical("a:/:b", false) == "a::b"
  {
    var s := "a:/:b";
    assert s[1..] == ":/:b" && s[1..][1..] == "/:b" && s[1..][1..][1..] == ":b" && s[1..][1..][1..][1..] == "b";
    assert Canonical("b", true) == "b" && Canonical(":b", true) == ":b" && Canonical("/:b", true) == ":b";
    assert Canonical(":/:b", true) == "::b";
  }
}
