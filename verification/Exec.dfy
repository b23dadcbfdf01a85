/**
 Finding commands: find_command and its callers in exec.c. What the command table
 serves is what a search of functions, built-in commands and PATH would find now.
 */
module Exec {
  import opened Canonical
  import opened CmdTable
  import opened PathSearch

  datatype Kind = Regular | Other | Missing

  // what stat64 finds at a name, from a working directory
  type Files = (string, string) -> Kind

  predicate IsAbs(s: string) { s != "" && s[0] == '/' }

  // absolute names do not depend on the working directory
  ghost predicate Rooted(files: Files) { forall c, d, n :: n != "" && n[0] == '/' ==> files(c, n) == files(d, n) }

  predicate IsThere(elems: seq<string>, name: string, files: Files, cwd: string, i: nat)
    requires i < |elems|
  {
    files(cwd, Full(elems[i], name)) == Regular
  }

  // --- The search ---

  // the first element of PATH from i on that has the program
  ghost function Search(elems: seq<string>, name: string, files: Files, cwd: string, i: nat): (r: Option<nat>)
    requires i <= |elems|
    decreases |elems| - i
  {
    if i == |elems| then None else if IsThere(elems, name, files, cwd, i) then Some(i)
        else Search(elems, name, files, cwd, i + 1)
  }

  ghost function Fresh(name: string, elems: seq<string>, files: Files, cwd: string, builtins: set<string>,
      funcs: map<string, nat>): (c: Cmd) {
    if name in funcs then Function(funcs[name])
    else if name in builtins then Builtin
    else
      var r := Search(elems, name, files, cwd, 0);
      if r.Some? then Normal(r.value) else Unknown
  }

  // the answer find_command owes: names with a slash are not searched for
  ghost function Answer(name: string, abs: bool, elems: seq<string>, files: Files, cwd: string, builtins: set<string>,
      funcs: map<string, nat>): (c: Cmd) {
    if '/' in name then if abs && files(cwd, name) == Missing then Unknown else Normal(-1)
    else Fresh(name, elems, files, cwd, builtins, funcs)
  }

  lemma AnswerIs(name: string, abs: bool, elems: seq<string>, files: Files, cwd: string, builtins: set<string>,
      funcs: map<string, nat>)
    ensures var cmd := Answer(name, abs, elems, files, cwd, builtins, funcs);
            if '/' in name then cmd == if abs && files(cwd, name) == Missing then Unknown else Normal(-1)
            else if name in funcs then cmd == Function(funcs[name])
            else if name in builtins then cmd == Builtin
            else
              match cmd
              case Normal(i) =>
                && 0 <= i < |elems|
                && files(cwd, if elems[i] == "" then name else elems[i] + "/" + name) == Regular
                && forall k :: 0 <= k < i ==>
                       files(cwd, if elems[k] == "" then name else elems[k] + "/" + name) != Regular
              case Unknown =>
                forall k :: 0 <= k < |elems| ==>
                  files(cwd, if elems[k] == "" then name else elems[k] + "/" + name) != Regular
              case _ => false
  {
    hide Search;
    SearchIs(elems, name, files, cwd, 0);
    var r := Search(elems, name, files, cwd, 0);
    forall k | 0 <= k < if r.Some? then r.value else |elems|
      ensures files(cwd, if elems[k] == "" then name else elems[k] + "/" + name) != Regular
    {
      assert !IsThere(elems, name, files, cwd, k);
    }
  }

  lemma {:induction false} SearchSkips(elems: seq<string>, name: string, files: Files, cwd: string, i: nat, j: nat)
    requires i <= j <= |elems| && forall k :: i <= k < j ==> !IsThere(elems, name, files, cwd, k)
    ensures Search(elems, name, files, cwd, i) == Search(elems, name, files, cwd, j)
    decreases j - i
  {
    if i < j { SearchSkips(elems, name, files, cwd, i + 1, j); }
  }

  lemma {:induction false} SearchIs(elems: seq<string>, name: string, files: Files, cwd: string, i: nat)
    requires i <= |elems|
    ensures var r := Search(elems, name, files, cwd, i);
            if r.Some? then i <= r.value < |elems| && IsThere(elems, name, files, cwd, r.value) &&
                forall k :: i <= k < r.value ==> !IsThere(elems, name, files, cwd, k)
            else forall k :: i <= k < |elems| ==> !IsThere(elems, name, files, cwd, k)
    decreases |elems| - i
  {
    if i < |elems| && !IsThere(elems, name, files, cwd, i) { SearchIs(elems, name, files, cwd, i + 1); }
  }

  // --- What an entry promises ---

  // after a cd only the absolute elements are known
  ghost predicate Half(elems: seq<string>, name: string, files: Files, cwd: string, idx: int) {
    && 0 <= idx < |elems| && (IsAbs(Full(elems[idx], name)) ==> IsThere(elems, name, files, cwd, idx))
    && forall k :: 0 <= k < idx && IsAbs(Full(elems[k], name)) ==> !IsThere(elems, name, files, cwd, k)
  }

  ghost predicate EntOk(x: string, e: Ent, elems: seq<string>, files: Files, cwd: string, builtins: set<string>,
      funcs: map<string, nat>) {
    match e.cmd
    case Normal(idx) => x !in builtins && x !in funcs && idx >= 0 &&
      if e.rehash then Half(elems, x, files, cwd, idx) else Search(elems, x, files, cwd, 0) == Some(idx)
    case Builtin => x in builtins && x !in funcs && !e.rehash
    case Function(f) => x in funcs && funcs[x] == f && !e.rehash
    case Unknown => false
  }

  ghost predicate TableOk(entries: map<string, Ent>, elems: seq<string>, files: Files, cwd: string,
      builtins: set<string>, funcs: map<string, nat>) {
    && (forall x :: x in entries ==> EntOk(x, entries[x], elems, files, cwd, builtins, funcs))
    && (forall x :: x in funcs ==> x in entries)
  }

  class Commands {
    const table: Table
    const builtins: set<string>
    const files: Files
    var path: string
    var cwd: string
    ghost var funcs: map<string, nat>   // the functions that are defined

    ghost predicate Valid()
      reads this, table, table.cmdtable
    {
      table.Valid() && Rooted(files) && Plain(path) && TableOk(table.entries, Split(path), files, cwd, builtins, funcs)
    }

    constructor (b: set<string>, f: Files, p: string, dir: string)
      requires Rooted(f) && Plain(p)
      ensures Valid() && funcs == map[] && path == p && cwd == dir && builtins == b && files == f && fresh(table) &&
          fresh(table.cmdtable)
    {
      var t := new Table();
      table, builtins, files, path, cwd, funcs := t, b, f, p, dir, map[];
    }

    // the loop of find_command over PATH: prev is the index of an entry to be checked again, or -1
    method SearchPath(pathval: string, name: string, prev: int) returns (idx: int)
      requires Rooted(files) && Plain(pathval) && prev >= -1 &&
          (prev >= 0 ==> Half(Split(pathval), name, files, cwd, prev))
      ensures var r := Search(Split(pathval), name, files, cwd, 0); if r.Some? then idx == r.value else idx == -1
    {
      hide Split, Full, IsAbs, Search, Rooted;
      ghost var elems := Split(pathval);
      PlainElems(pathval);
      var rest := Some(pathval);
      var i := -1;
      while rest.Some?
        invariant -1 <= i < |elems| && elems[i + 1..] == if rest.Some? then Split(rest.value) else []
        invariant rest.Some? ==> Plain(rest.value)
        invariant forall k :: 0 <= k <= i ==> !IsThere(elems, name, files, cwd, k)
        decreases |elems| - i
      {
        ghost var left := elems[i + 1..];
        var fullname, pathopt, more := Padvance(rest.value, name);
        i, rest := i + 1, more;
        assert left[0] == elems[i] && left[1..] == elems[i + 1..];
        PlainDir(elems[i]);
        SearchSkips(elems, name, files, cwd, 0, i);
        if IsAbs(fullname) && i <= prev {
          if i < prev { continue; }
          SearchHit(elems, name, files, cwd, i);
          return i;
        }
        if files(cwd, fullname) == Regular {
          SearchHit(elems, name, files, cwd, i);
          return i;
        }
      }
      assert |elems[i + 1..]| == 0;
      SearchSkips(elems, name, files, cwd, 0, |elems|);
      SearchHit(elems, name, files, cwd, |elems|);
      idx := -1;
    }

    // find_command: alt is a PATH other than the shell's own
    method FindCommand(name: string, noFunc: bool, abs: bool, alt: Option<string>) returns (cmd: Cmd)
      requires Valid() && (alt.Some? ==> Plain(alt.value))
      modifies table, table.cmdtable
      ensures Valid()
      ensures '/' in name ==> cmd == if abs && files(cwd, name) == Missing then Unknown else Normal(-1)
      ensures '/' !in name && !noFunc && name in funcs ==> cmd == Function(funcs[name])
      ensures '/' !in name && (noFunc || name !in funcs) && name in builtins ==> cmd == Builtin
      ensures '/' !in name && (noFunc || name !in funcs) && name !in builtins ==>
                var elems := Split(if alt.Some? then alt.value else path);
                match cmd
                case Normal(i) =>
                  && 0 <= i < |elems|
                  && files(cwd, if elems[i] == "" then name else elems[i] + "/" + name) == Regular
                  && forall k :: 0 <= k < i ==>
                         files(cwd, if elems[k] == "" then name else elems[k] + "/" + name) != Regular
                case Unknown =>
                  forall k :: 0 <= k < |elems| ==>
                    files(cwd, if elems[k] == "" then name else elems[k] + "/" + name) != Regular
                case _ => false
      ensures table.entries ==
          if '/' in name || alt.Some? || (noFunc && name in funcs) then old(table.entries)
          else if cmd.Unknown? then old(table.entries) - {name} else old(table.entries)[name := Ent(name, cmd, false)]
    {
      hide TableOk, Rooted, Split, Search, Plain, Answer;
      cmd := Resolve(name, noFunc, abs, alt);
      AnswerIs(name, abs, Split(if alt.Some? then alt.value else path), files, cwd, builtins, if noFunc then map[]
          else funcs);
    }

    method Resolve(name: string, noFunc: bool, abs: bool, alt: Option<string>) returns (cmd: Cmd)
      requires Valid() && (alt.Some? ==> Plain(alt.value))
      modifies table, table.cmdtable
      ensures Valid()
      ensures cmd == Answer(name, abs, Split(if alt.Some? then alt.value else path), files, cwd, builtins, if noFunc
          then map[] else funcs)
      ensures table.entries ==
          if '/' in name || alt.Some? || (noFunc && name in funcs) then old(table.entries)
          else if cmd.Unknown? then old(table.entries) - {name} else old(table.entries)[name := Ent(name, cmd, false)]
    {
      hide TableOk, Rooted, Split, Search, Plain;
      if '/' in name {
        return if abs && files(cwd, name) == Missing then Unknown else Normal(-1);
      }
      ghost var elems := Split(path);
      var updatetbl := alt.None?;
      var cmdp := table.Lookup(name, false);
      EntryIs(table.entries, name, elems, files, cwd, builtins, funcs);
      var prev := -1;
      if cmdp {
        var e := table.Entry();
        assert e == table.entries[name];
        if (e.cmd.Normal? && alt.Some?) || (e.cmd.Function? && noFunc) {
          updatetbl, cmdp := false, false;
        } else if !e.rehash {
          SameAnswer(name, elems, Split(if alt.Some? then alt.value else path), files, cwd, builtins, funcs, if noFunc
              then map[] else funcs);
          return e.cmd;
        } else {
          prev := e.cmd.index;
        }
      }
      if name in builtins {
        cmd := Builtin;
      } else {
        var idx := SearchPath(if alt.Some? then alt.value else path, name, prev);
        cmd := if idx >= 0 then Normal(idx) else Unknown;
      }
      if updatetbl {
        Record(name, cmd, cmdp);
      }
    }

    // the outcome of a search goes into the table
    method Record(name: string, cmd: Cmd, cmdp: bool)
      requires Valid() && name !in funcs && cmd == Fresh(name, Split(path), files, cwd, builtins, funcs)
      requires (cmdp <==> name in table.entries) && (cmdp ==> table.At(name))
      modifies table, table.cmdtable
      ensures Valid() && table.entries ==
          if cmd.Unknown? then old(table.entries) - {name} else old(table.entries)[name := Ent(name, cmd, false)]
    {
      hide TableOk, Rooted, Split, Search, Plain;
      ghost var entries := table.entries;
      FreshOk(entries, name, Split(path), files, cwd, builtins, funcs);
      if cmd.Unknown? {
        if cmdp { table.Delete(); }
      } else {
        var p := table.Lookup(name, true);
        table.Put(cmd, false);
        assert table.entries == entries[name := Ent(name, cmd, false)];
      }
    }

    // setting PATH: changepath, and then the assignment
    method ChangePath(newval: string)
      requires Valid() && Plain(newval)
      modifies this`path, table, table.cmdtable
      ensures Valid() && path == newval
      ensures var n := if old(path) == newval then 9999 else Common(Split(old(path)), Split(newval));
              var entries := old(table.entries);
              table.entries == map x | x in entries &&
                  !(entries[x].cmd.Normal? && entries[x].cmd.index >= n) :: entries[x]
      ensures forall x :: x in old(table.entries) && old(table.entries)[x].cmd.Normal? && x in table.entries ==>
                var i := table.entries[x].cmd.index;
                    0 <= i < |Split(newval)| && i < |Split(old(path))| &&
                    Split(newval)[..i + 1] == Split(old(path))[..i + 1]
    {
      hide TableOk, Rooted, Split, Search, Plain;
      var firstchange := FirstChange(path, newval);
      ghost var entries := table.entries;
      table.Clear(firstchange, -1);
      StillOk(entries, table.entries, Split(path), Split(newval), path == newval, firstchange, files, cwd, builtins,
          funcs);
      path := newval;
    }

    // hash -r
    method HashR()
      requires Valid()
      modifies table, table.cmdtable
      ensures Valid()
      ensures var entries := old(table.entries);
              table.entries == map x | x in entries && !entries[x].cmd.Normal? :: entries[x]
    {
      hide Rooted, Split, Search, Plain;
      assert forall x :: x in table.entries && table.entries[x].cmd.Normal? ==> table.entries[x].cmd.index >= 0;
      table.Clear(0, -1);
    }

    // cd
    method ChangeDir(dir: string)
      requires Valid()
      modifies this`cwd, table, table.cmdtable
      ensures Valid() && cwd == dir
      ensures var entries := old(table.entries);
              table.entries == map x | x in entries ::
                  Ent(x, entries[x].cmd, entries[x].rehash || entries[x].cmd.Normal?)
    {
      hide TableOk, Split, Search, Plain, Rooted;
      ghost var entries := table.entries;
      table.HashCd();
      Moved(entries, table.entries, Split(path), files, cwd, dir, builtins, funcs);
      cwd := dir;
    }

    method Defun(name: string, body: nat)
      requires Valid()
      modifies this`funcs, table, table.cmdtable
      ensures Valid() && funcs == old(funcs)[name := body]
      ensures table.entries == old(table.entries)[name := Ent(name, Function(body), false)]
    {
      hide Rooted, Split, Search, Plain;
      ghost var entries := table.entries;
      var p := table.Lookup(name, true);
      table.Put(Function(body), false);
      assert table.entries == entries[name := Ent(name, Function(body), false)];
      funcs := funcs[name := body];
    }

    method UnsetFunc(name: string)
      requires Valid()
      modifies this`funcs, table, table.cmdtable
      ensures Valid() && funcs == old(funcs) - {name}
      ensures table.entries == if name in old(funcs) then old(table.entries) - {name} else old(table.entries)
    {
      hide Rooted, Split, Search, Plain;
      ghost var entries := table.entries;
      var cmdp := table.Lookup(name, false);
      if cmdp {
        var e := table.Entry();
        if e.cmd.Function? {
          table.Delete();
        }
      }
      funcs := funcs - {name};
    }
  }

  // what an entry that may be served says
  lemma EntryIs(entries: map<string, Ent>, name: string, elems: seq<string>, files: Files, cwd: string,
      builtins: set<string>, funcs: map<string, nat>)
    requires TableOk(entries, elems, files, cwd, builtins, funcs)
    ensures name in funcs <==> name in entries && entries[name].cmd.Function?
    ensures name in entries ==> !entries[name].cmd.Unknown?
    ensures name in entries && !entries[name].rehash ==>
        entries[name].cmd == Fresh(name, elems, files, cwd, builtins, funcs)
    ensures name in entries && entries[name].cmd.Builtin? ==> name in builtins
    ensures name in entries && entries[name].rehash ==>
        entries[name].cmd.Normal? && Half(elems, name, files, cwd, entries[name].cmd.index)
    ensures name in entries && entries[name].cmd.Normal? ==> name !in builtins
  {
    hide Half, Search;
  }

  // a function or a built-in command does not depend on PATH, and nothing else on functions
  lemma SameAnswer(name: string, elems: seq<string>, elems': seq<string>, files: Files, cwd: string,
      builtins: set<string>,
                   funcs: map<string, nat>, funcs': map<string, nat>)
    requires elems' == elems || !Fresh(name, elems, files, cwd, builtins, funcs).Normal?
    requires Fresh(name, elems, files, cwd, builtins, funcs) != Unknown
    requires funcs' == funcs || (name !in funcs && name !in funcs')
    ensures Fresh(name, elems', files, cwd, builtins, funcs') == Fresh(name, elems, files, cwd, builtins, funcs)
  {
  }

  lemma FreshOk(entries: map<string, Ent>, name: string, elems: seq<string>, files: Files, cwd: string,
      builtins: set<string>, funcs: map<string, nat>)
    requires TableOk(entries, elems, files, cwd, builtins, funcs) && name !in funcs
    ensures var c := Fresh(name, elems, files, cwd, builtins, funcs);
            if c.Unknown? then TableOk(entries - {name}, elems, files, cwd, builtins, funcs)
            else TableOk(entries[name := Ent(name, c, false)], elems, files, cwd, builtins, funcs)
  {
    hide Half, Search;
  }

  lemma SearchHit(elems: seq<string>, name: string, files: Files, cwd: string, i: nat)
    requires i <= |elems|
    ensures if i < |elems| then IsThere(elems, name, files, cwd, i) ==> Search(elems, name, files, cwd, i) == Some(i)
            else Search(elems, name, files, cwd, i) == None
  {
  }

  // entries that are kept point to elements that have not changed
  lemma StillOk(entries: map<string, Ent>, entries': map<string, Ent>, elems: seq<string>, elems': seq<string>,
      same: bool, firstchange: nat,
                files: Files, cwd: string, builtins: set<string>, funcs: map<string, nat>)
    requires TableOk(entries, elems, files, cwd, builtins, funcs) &&
        (if same then elems' == elems else firstchange == Common(elems, elems'))
    requires entries' == map x | x in entries && !Stale(entries[x].cmd, firstchange, -1) :: entries[x]
    ensures TableOk(entries', elems', files, cwd, builtins, funcs)
    ensures forall x :: x in entries' && entries'[x].cmd.Normal? ==>
              var i := entries'[x].cmd.index; 0 <= i < |elems| && i < |elems'| && elems'[..i + 1] == elems[..i + 1]
  {
    hide Search, Half;
    forall x | x in entries'
      ensures EntOk(x, entries'[x], elems', files, cwd, builtins, funcs)
      ensures entries'[x].cmd.Normal? ==> var i := entries'[x].cmd.index;
          0 <= i < |elems| && i < |elems'| && elems'[..i + 1] == elems[..i + 1]
    {
      if entries'[x].cmd.Normal? {
        var i := entries[x].cmd.index;
        IndexIn(elems, x, files, cwd, entries[x].rehash, i);
        if !same {
          assert elems[..i + 1] == elems[..firstchange][..i + 1] && elems'[..i + 1] == elems'[..firstchange][..i + 1];
        }
        SameUpTo(elems, elems', x, files, cwd, i);
      }
    }
  }

  lemma IndexIn(elems: seq<string>, name: string, files: Files, cwd: string, rehash: bool, i: int)
    requires if rehash then Half(elems, name, files, cwd, i)
             else i >= 0 && Search(elems, name, files, cwd, 0) == Some(i)
    ensures 0 <= i < |elems|
  {
    SearchIs(elems, name, files, cwd, 0);
  }

  lemma SameUpTo(elems: seq<string>, elems': seq<string>, name: string, files: Files, cwd: string, i: nat)
    requires i < |elems| && i < |elems'| && elems'[..i + 1] == elems[..i + 1]
    ensures Half(elems, name, files, cwd, i) ==> Half(elems', name, files, cwd, i)
    ensures Search(elems, name, files, cwd, 0) == Some(i) ==> Search(elems', name, files, cwd, 0) == Some(i)
  {
    forall k | 0 <= k <= i ensures elems'[k] == elems[k] {
      assert elems'[k] == elems'[..i + 1][k] && elems[k] == elems[..i + 1][k];
    }
    if Search(elems, name, files, cwd, 0) == Some(i) {
      SearchIs(elems, name, files, cwd, 0);
      forall k | 0 <= k < i ensures !IsThere(elems', name, files, cwd, k) {
        assert !IsThere(elems, name, files, cwd, k);
      }
      SearchSkips(elems', name, files, cwd, 0, i);
    }
  }

  lemma Moved(entries: map<string, Ent>, entries': map<string, Ent>, elems: seq<string>, files: Files, cwd: string,
      dir: string,
              builtins: set<string>, funcs: map<string, nat>)
    requires TableOk(entries, elems, files, cwd, builtins, funcs) && Rooted(files) &&
        entries' == map x | x in entries :: CmdTable.Marked(entries[x])
    ensures TableOk(entries', elems, files, dir, builtins, funcs)
  {
    hide Search, Half, Rooted;
    forall x | x in entries' ensures EntOk(x, entries'[x], elems, files, dir, builtins, funcs) {
      if entries[x].cmd.Normal? {
        IndexIn(elems, x, files, cwd, entries[x].rehash, entries[x].cmd.index);
        Absolute(elems, x, files, cwd, dir, entries[x].cmd.index);
      }
    }
  }

  lemma Absolute(elems: seq<string>, name: string, files: Files, cwd: string, dir: string, i: nat)
    requires Rooted(files) && i < |elems| &&
        (Half(elems, name, files, cwd, i) || Search(elems, name, files, cwd, 0) == Some(i))
    ensures Half(elems, name, files, dir, i)
  {
    hide Full;
    SearchIs(elems, name, files, cwd, 0);
    forall k | 0 <= k <= i && IsAbs(Full(elems[k], name))
        ensures IsThere(elems, name, files, dir, k) == IsThere(elems, name, files, cwd, k) { }
  }
}
