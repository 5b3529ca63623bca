/** Extension routing (src/router.c): the suffix of a path from its last
    `.` is looked up, exactly, in a constant table. */
module Router {
  import opened CStrings

  /** The handler functions the table can name. */
  datatype HandlerKind = Lua | Python | Php | Js | Sqlite | Cmod

  /** `handlers[]`, in table order. */
  const Handlers: seq<(string, HandlerKind)> :=
    [(".lua", Lua), (".py", Python), (".php", Php), (".js", Js), (".db", Sqlite), (".cmod", Cmod)]

  /** The loop of `find_handler`: scan `table` in order and stop at the
      first entry whose extension equals `key`. */
  function Lookup(table: seq<(string, HandlerKind)>, key: string): Option<HandlerKind>
  {
    if |table| == 0 then None
    else if table[0].0 == key then Some(table[0].1)
    else Lookup(table[1..], key)
  }

  /** The scan finds an entry exactly when some entry has the key, and what it
      finds is the value of the first such entry. */
  lemma {:induction false} LookupFirstMatch(table: seq<(string, HandlerKind)>, key: string)
    ensures Lookup(table, key).Some? <==> exists i :: 0 <= i < |table| && table[i].0 == key
    ensures Lookup(table, key).Some? ==>
              exists i :: 0 <= i < |table| && table[i] == (key, Lookup(table, key).value) &&
                          forall j :: 0 <= j < i ==> table[j].0 != key
  {
    if |table| > 0 && table[0].0 != key {
      LookupFirstMatch(table[1..], key);
      assert forall i :: 1 <= i < |table| ==> table[i] == table[1..][i - 1];
      if Lookup(table, key).Some? {
        var i :| 0 <= i < |table| - 1 && table[1..][i] == (key, Lookup(table, key).value) &&
                 forall j :: 0 <= j < i ==> table[1..][j].0 != key;
        assert table[i + 1] == (key, Lookup(table, key).value);
        assert forall j :: 1 <= j < i + 1 ==> table[j].0 == table[1..][j - 1].0;
      }
    }
  }

  /** `find_handler`: no handler for a path without a dot; otherwise the
      table entry equal to the whole suffix that starts at the last dot. */
  function FindHandler(path: string): (r: Option<HandlerKind>)
  {
    match LastIndexOf(path, '.')
    case None => None
    case Some(d) => Lookup(Handlers, path[d..])
  }

  predicate EndsWith(s: string, t: string) {
    |t| <= |s| && s[|s| - |t|..] == t
  }

  /** No two table entries share an extension, so at most one can match. */
  lemma HandlersDistinct()
    ensures forall i, j :: 0 <= i < j < |Handlers| ==> Handlers[i].0 != Handlers[j].0
  {
  }

  /** No extension in the table is a proper prefix of another. */
  lemma PrefixFree(n: nat, m: nat)
    requires n < |Handlers| && m < |Handlers|
    requires n != m
    ensures !StartsWith(Handlers[n].0, Handlers[m].0)
  {
    var a, b := Handlers[n].0, Handlers[m].0;
    assert a[1] != b[1] || a[2] != b[2];
  }

  /** Every extension in the table is a dot followed by no other dot. */
  lemma ExtensionShape(i: nat)
    requires i < |Handlers|
    ensures |Handlers[i].0| >= 2 && Handlers[i].0[0] == '.'
    ensures forall j :: 1 <= j < |Handlers[i].0| ==> Handlers[i].0[j] != '.'
  {
  }

  /** A path without a dot gets no handler. */
  lemma NoDotNoHandler(path: string)
    requires forall j :: 0 <= j < |path| ==> path[j] != '.'
    ensures FindHandler(path).None?
  {
  }

  /** The table in full: a path selects kind `k` exactly when it ends in an
      extension the table maps to `k`, whatever comes before that extension
      (other dots included). */
  lemma FindHandlerSpec(path: string, k: HandlerKind)
    ensures FindHandler(path) == Some(k) <==>
            exists i :: 0 <= i < |Handlers| && Handlers[i].1 == k && EndsWith(path, Handlers[i].0)
  {
    HandlersDistinct();
    if LastIndexOf(path, '.').Some? {
      LookupFirstMatch(Handlers, path[LastIndexOf(path, '.').value..]);
    }
    if FindHandler(path) == Some(k) {
      var d := LastIndexOf(path, '.').value;
      var i :| 0 <= i < |Handlers| && Handlers[i] == (path[d..], k);
      assert EndsWith(path, Handlers[i].0);
    }
    if i :| 0 <= i < |Handlers| && Handlers[i].1 == k && EndsWith(path, Handlers[i].0) {
      var e := Handlers[i].0;
      ExtensionShape(i);
      var d := |path| - |e|;
      assert path[d] == e[0] == '.';
      forall j | d < j < |path| ensures path[j] != '.' {
        assert path[j] == e[j - d];
      }
      LastDotAt(path, d);
      assert path[d..] == e;
      LookupFirstMatch(Handlers, e);
    }
  }

  /** The last dot of `path` is at `d` when `path[d]` is a dot and none follows. */
  lemma LastDotAt(path: string, d: nat)
    requires d < |path| && path[d] == '.'
    requires forall j :: d < j < |path| ==> path[j] != '.'
    ensures LastIndexOf(path, '.') == Some(d)
  {
  }

  /** Only the last dot counts: any text before a known extension, earlier
      extensions included, selects that extension's handler. */
  lemma LastExtensionWins(prefix: string, i: nat)
    requires i < |Handlers|
    ensures FindHandler(prefix + Handlers[i].0) == Some(Handlers[i].1)
  {
    var path := prefix + Handlers[i].0;
    assert EndsWith(path, Handlers[i].0);
    FindHandlerSpec(path, Handlers[i].1);
  }

  /** The key runs to the end of the path: text after the last extension,
      such as `/b` in `a.lua/b`, leaves the lookup without a match. */
  lemma TrailingTextAfterExtension(prefix: string, i: nat, rest: string)
    requires i < |Handlers| && |rest| > 0
    requires forall j :: 0 <= j < |rest| ==> rest[j] != '.'
    ensures FindHandler(prefix + Handlers[i].0 + rest).None?
  {
    var e := Handlers[i].0;
    var path := prefix + e + rest;
    ExtensionShape(i);
    var d := |prefix|;
    forall j | d < j < |path| ensures path[j] != '.' {
      if j < d + |e| { assert path[j] == e[j - d]; } else { assert path[j] == rest[j - d - |e|]; }
    }
    LastDotAt(path, d);
    assert path[d..] == e + rest;
    assert |path[d..]| > |e|;
    LookupFirstMatch(Handlers, e + rest);
    forall n | 0 <= n < |Handlers| ensures Handlers[n].0 != e + rest {
      if Handlers[n].0 == e + rest {
        assert Handlers[n].0[..|e|] == e;
        PrefixFree(n, i);
      }
    }
  }

  /** Matching is case-sensitive: upper-case `.LUA` is not `.lua`. */
  lemma UpperCaseExtension(prefix: string)
    ensures FindHandler(prefix + ".LUA").None?
  {
    var path := prefix + ".LUA";
    forall j | |prefix| < j < |path| ensures path[j] != '.' {
      assert path[j] == ".LUA"[j - |prefix|];
    }
    LastDotAt(path, |prefix|);
    assert path[|prefix|..] == ".LUA";
    LookupFirstMatch(Handlers, ".LUA");
  }
}
