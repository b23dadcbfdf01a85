/**
 The command hash table of dash: the chains of exec.c, as a map from names to entries.
 */
module CmdTable {
  const CMDTABLESIZE := 31

  // a program by its index in PATH, a built-in command, or a function; Unknown is no command
  datatype Cmd = Normal(index: int) | Builtin | Function(body: nat) | Unknown

  datatype Ent = Ent(name: string, cmd: Cmd, rehash: bool)

  function Total(s: string): (n: nat) { if s == "" then 0 else Total(s[..|s| - 1]) + s[|s| - 1] as nat }

  function Hash(name: string): (b: nat)
    ensures b < CMDTABLESIZE
  {
    ((if name == "" then 0 else name[0] as nat * 16) + Total(name)) % 0x8000 % CMDTABLESIZE
  }

  ghost predicate In(chain: seq<Ent>, x: string) { exists i :: 0 <= i < |chain| && chain[i].name == x }

  // chain b holds exactly the entries whose names hash to b, each once
  ghost predicate ChainOk(chain: seq<Ent>, b: nat, entries: map<string, Ent>) {
    && (forall i :: 0 <= i < |chain| ==>
        chain[i].name in entries && entries[chain[i].name] == chain[i] && Hash(chain[i].name) == b)
    && (forall i, j :: 0 <= i < j < |chain| ==> chain[i].name != chain[j].name)
    && (forall x :: x in entries && Hash(x) == b ==> In(chain, x))
  }

  ghost predicate Rep(tab: seq<seq<Ent>>, entries: map<string, Ent>) {
    |tab| == CMDTABLESIZE && (forall b :: 0 <= b < |tab| ==> ChainOk(tab[b], b, entries)) &&
        forall x :: x in entries ==> entries[x].name == x
  }

  // what clearcmdentry removes
  predicate Stale(c: Cmd, firstchange: int, builtinloc: int) {
    (c.Normal? && c.index >= firstchange) || (c.Builtin? && builtinloc >= firstchange)
  }

  function Marked(e: Ent): (e': Ent) { if e.cmd.Normal? then e.(rehash := true) else e }

  class Table {
    const cmdtable: array<seq<Ent>>
    var lastcmdentry: (nat, nat)
    ghost var entries: map<string, Ent>

    ghost predicate Valid()
      reads this, cmdtable
    {
      Rep(cmdtable[..], entries)
    }

    // the last lookup was of x, and found it
    ghost predicate At(x: string)
      reads this, cmdtable
    {
      var (b, i) := lastcmdentry; b < cmdtable.Length && i < |cmdtable[b]| && cmdtable[b][i].name == x
    }

    constructor ()
      ensures Valid() && entries == map[] && fresh(cmdtable)
    {
      cmdtable := new seq<Ent>[CMDTABLESIZE](_ => []);
      lastcmdentry, entries := (0, 0), map[];
    }

    // cmdlookup: with add, an entry that is not there is made, and is no command yet
    method Lookup(name: string, add: bool) returns (cmdp: bool)
      requires Valid()
      modifies this, cmdtable
      ensures Valid() && (cmdp <==> name in entries) && (cmdp ==> At(name))
      ensures name in old(entries) || !add ==> entries == old(entries)
      ensures name !in old(entries) && add ==>
          cmdp && entries == old(entries)[name := entries[name]] && entries[name].cmd.Unknown?
    {
      hide Rep;
      var hashval := if name == "" then 0 else name[0] as nat * 16;
      var p := 0;
      while p < |name|
        invariant p <= |name| && hashval == (if name == "" then 0 else name[0] as nat * 16) + Total(name[..p])
      {
        assert name[..p + 1][..p] == name[..p];
        hashval := hashval + name[p] as nat;
        p := p + 1;
      }
      assert name[..|name|] == name;
      var b := hashval % 0x8000 % CMDTABLESIZE;
      var i := Scan(b, name);
      cmdp := i < |cmdtable[b]|;
      if !cmdp && add {
        var junk: bool := *;
        var e := Ent(name, Unknown, junk);
        Appended(cmdtable[..], entries, e);
        cmdtable[b] := cmdtable[b] + [e];
        entries := entries[name := e];
        cmdp := true;
      }
      lastcmdentry := (b, i);
    }

    method Scan(b: nat, name: string) returns (i: nat)
      requires Valid() && b == Hash(name)
      ensures b < cmdtable.Length && i <= |cmdtable[b]| && (i < |cmdtable[b]| <==> name in entries)
      ensures i < |cmdtable[b]| ==> cmdtable[b][i] == entries[name] && entries[name].name == name
    {
      i := 0;
      assert ChainOk(cmdtable[..][b], b, entries);
      while i < |cmdtable[b]| && cmdtable[b][i].name != name
        invariant i <= |cmdtable[b]| && forall j :: 0 <= j < i ==> cmdtable[b][j].name != name
      {
        i := i + 1;
      }
    }

    // the entry of the last lookup
    method Entry() returns (e: Ent)
      requires Valid() && exists x :: At(x)
      ensures At(e.name) && e.name in entries && e == entries[e.name]
    {
      var (b, i) := lastcmdentry;
      e := cmdtable[b][i];
      assert ChainOk(cmdtable[..][b], b, entries);
    }

    // the entry of the last lookup is changed
    method Put(cmd: Cmd, rehash: bool)
      requires Valid() && exists x :: At(x)
      modifies this`entries, cmdtable
      ensures Valid()
      ensures var (b, i) := lastcmdentry; var x := old(cmdtable[b][i].name);
          entries == old(entries)[x := Ent(x, cmd, rehash)]
    {
      hide Rep;
      var (b, i) := lastcmdentry;
      var e := cmdtable[b][i].(cmd := cmd, rehash := rehash);
      Changed(cmdtable[..], entries, b, i, e);
      cmdtable[b] := cmdtable[b][i := e];
      entries := entries[e.name := e];
    }

    // delete_cmd_entry
    method Delete()
      requires Valid() && exists x :: At(x)
      modifies this`entries, cmdtable
      ensures Valid()
      ensures var (b, i) := lastcmdentry; entries == old(entries) - {old(cmdtable[b][i].name)}
    {
      hide Rep;
      var (b, i) := lastcmdentry;
      Deleted(cmdtable[..], entries, b, i);
      entries := entries - {cmdtable[b][i].name};
      cmdtable[b] := cmdtable[b][..i] + cmdtable[b][i + 1..];
    }

    // clearcmdentry
    method Clear(firstchange: int, builtinloc: int)
      requires Valid()
      modifies this`entries, cmdtable
      ensures Valid()
      ensures entries == map x | x in old(entries) &&
          !Stale(old(entries)[x].cmd, firstchange, builtinloc) :: old(entries)[x]
      ensures forall x :: x in old(entries) ==>
                var c := old(entries)[x].cmd;
                (x in entries <==> match c
                                   case Normal(i) => i < firstchange
                                   case Builtin => builtinloc < firstchange
                                   case _ => true)
    {
      hide Rep;
      ghost var entries0 := entries;
      var b := 0;
      RepSize(cmdtable[..], entries);
      while b < CMDTABLESIZE
        invariant b <= CMDTABLESIZE == cmdtable.Length && Valid() && Fewer(entries0, entries, firstchange, builtinloc)
        invariant forall x :: x in entries && Hash(x) < b ==> !Stale(entries[x].cmd, firstchange, builtinloc)
      {
        ClearChain(b, firstchange, builtinloc);
        assert forall x :: x in entries && Hash(x) < b + 1 ==> Hash(x) < b || Hash(x) == b;
        b := b + 1;
      }
    }

    method ClearChain(b: nat, firstchange: int, builtinloc: int)
      requires Valid() && b < cmdtable.Length
      modifies this`entries, cmdtable
      ensures Valid() && Fewer(old(entries), entries, firstchange, builtinloc)
      ensures forall x :: x in entries && Hash(x) == b ==> !Stale(entries[x].cmd, firstchange, builtinloc)
    {
      hide Rep, Stale, Hash;
      var i := 0;
      while i < |cmdtable[b]|
        invariant i <= |cmdtable[b]| && Valid() && Fewer(old(entries), entries, firstchange, builtinloc)
        invariant forall j :: 0 <= j < i ==> !Stale(cmdtable[b][j].cmd, firstchange, builtinloc)
        decreases |cmdtable[b]| - i
      {
        if Stale(cmdtable[b][i].cmd, firstchange, builtinloc) {
          Deleted(cmdtable[..], entries, b, i);
          entries := entries - {cmdtable[b][i].name};
          cmdtable[b] := cmdtable[b][..i] + cmdtable[b][i + 1..];
        } else {
          i := i + 1;
        }
      }
      AllOf(cmdtable[..], entries, b);
    }

    // hashcd: programs are looked up again before they are used
    method HashCd()
      requires Valid()
      modifies this`entries, cmdtable
      ensures Valid() && entries == map x | x in old(entries) :: Marked(old(entries)[x])
    {
      hide Rep;
      ghost var entries0 := entries;
      var b := 0;
      RepSize(cmdtable[..], entries);
      while b < CMDTABLESIZE
        invariant b <= CMDTABLESIZE == cmdtable.Length && Valid() && entries.Keys == entries0.Keys
        invariant forall x :: x in entries ==> entries[x] == if Hash(x) < b then Marked(entries0[x]) else entries0[x]
      {
        ghost var entries1 := entries;
        MarkChain(b);
        assert forall x :: x in entries ==> (Hash(x) < b + 1 <==> Hash(x) < b || Hash(x) == b);
        b := b + 1;
      }
    }

    method MarkChain(b: nat)
      requires Valid() && b < cmdtable.Length
      modifies this`entries, cmdtable
      ensures Valid() && entries.Keys == old(entries).Keys
      ensures forall x :: x in entries ==>
          entries[x] == if Hash(x) == b then Marked(old(entries)[x]) else old(entries)[x]
    {
      hide Rep, Hash;
      var i := 0;
      ghost var chain0 := cmdtable[b];
      ChainIs(cmdtable[..], entries, b);
      while i < |cmdtable[b]|
        invariant i <= |cmdtable[b]| == |chain0| && Valid() && entries.Keys == old(entries).Keys
        invariant forall j :: 0 <= j < |chain0| ==> cmdtable[b][j] == if j < i then Marked(chain0[j]) else chain0[j]
        invariant forall x :: x in entries && Hash(x) != b ==> entries[x] == old(entries)[x]
      {
        var e := Marked(cmdtable[b][i]);
        Changed(cmdtable[..], entries, b, i, e);
        cmdtable[b] := cmdtable[b][i := e];
        entries := entries[e.name := e];
        i := i + 1;
      }
      AllOf(cmdtable[..], entries, b);
      forall x | x in entries && Hash(x) == b ensures entries[x] == Marked(old(entries)[x]) {
        var j :| 0 <= j < |chain0| && cmdtable[b][j] == entries[x];
        ChainIs(cmdtable[..], entries, b);
        assert cmdtable[b][j].name == chain0[j].name;
      }
    }
  }

  ghost predicate Fewer(m: map<string, Ent>, m': map<string, Ent>, firstchange: int, builtinloc: int) {
    && (forall x :: x in m' ==> x in m && m'[x] == m[x])
    && (forall x :: x in m && !Stale(m[x].cmd, firstchange, builtinloc) ==> x in m')
  }

  lemma RepSize(tab: seq<seq<Ent>>, entries: map<string, Ent>)
    requires Rep(tab, entries)
    ensures |tab| == CMDTABLESIZE
  {
  }

  lemma AllOf(tab: seq<seq<Ent>>, entries: map<string, Ent>, b: nat)
    requires Rep(tab, entries) && b < |tab|
    ensures forall x :: x in entries && Hash(x) == b ==> entries[x] in tab[b]
  {
    assert ChainOk(tab[b], b, entries);
    forall x | x in entries && Hash(x) == b ensures entries[x] in tab[b] {
      var i :| 0 <= i < |tab[b]| && tab[b][i].name == x;
    }
  }

  lemma ChainIs(tab: seq<seq<Ent>>, entries: map<string, Ent>, b: nat)
    requires Rep(tab, entries) && b < |tab|
    ensures forall i :: 0 <= i < |tab[b]| ==> tab[b][i].name in entries && entries[tab[b][i].name] == tab[b][i]
    ensures forall x :: x in entries ==> entries[x].name == x
  {
    assert ChainOk(tab[b], b, entries);
  }

  lemma Appended(tab: seq<seq<Ent>>, entries: map<string, Ent>, e: Ent)
    requires Rep(tab, entries) && e.name !in entries
    ensures Rep(tab[Hash(e.name) := tab[Hash(e.name)] + [e]], entries[e.name := e])
  {
    hide Hash;
    var b, entries' := Hash(e.name), entries[e.name := e];
    var tab' := tab[b := tab[b] + [e]];
    forall c | 0 <= c < |tab| ensures ChainOk(tab'[c], c, entries') {
      assert ChainOk(tab[c], c, entries);
      if c == b { ChainMore(tab[b], b, entries, e); }
    }
  }

  lemma ChainMore(chain: seq<Ent>, b: nat, entries: map<string, Ent>, e: Ent)
    requires ChainOk(chain, b, entries) && e.name !in entries && Hash(e.name) == b
    ensures ChainOk(chain + [e], b, entries[e.name := e])
  {
    hide Hash;
    var chain' := chain + [e];
    forall x | x in entries[e.name := e] && Hash(x) == b ensures In(chain', x) {
      if x == e.name {
        assert chain'[|chain|].name == x;
      } else {
        var i :| 0 <= i < |chain| && chain[i].name == x;
        assert chain'[i].name == x;
      }
    }
  }

  lemma Changed(tab: seq<seq<Ent>>, entries: map<string, Ent>, b: nat, i: nat, e: Ent)
    requires Rep(tab, entries) && b < |tab| && i < |tab[b]| && tab[b][i].name == e.name
    ensures Rep(tab[b := tab[b][i := e]], entries[e.name := e])
    ensures e.name in entries && entries[e.name] == tab[b][i] && Hash(e.name) == b
  {
    hide Hash;
    var entries' := entries[e.name := e];
    assert ChainOk(tab[b], b, entries);
    var tab' := tab[b := tab[b][i := e]];
    forall c | 0 <= c < |tab| ensures ChainOk(tab'[c], c, entries') {
      assert ChainOk(tab[c], c, entries);
      if c == b { ChainSet(tab[b], b, entries, i, e); }
    }
  }

  lemma ChainSet(chain: seq<Ent>, b: nat, entries: map<string, Ent>, i: nat, e: Ent)
    requires ChainOk(chain, b, entries) && i < |chain| && chain[i].name == e.name
    ensures ChainOk(chain[i := e], b, entries[e.name := e])
  {
    hide Hash;
    var chain' := chain[i := e];
    forall x | x in entries && Hash(x) == b ensures In(chain', x) {
      var j :| 0 <= j < |chain| && chain[j].name == x;
      assert chain'[j].name == x;
    }
  }

  lemma Deleted(tab: seq<seq<Ent>>, entries: map<string, Ent>, b: nat, i: nat)
    requires Rep(tab, entries) && b < |tab| && i < |tab[b]|
    ensures Rep(tab[b := tab[b][..i] + tab[b][i + 1..]], entries - {tab[b][i].name})
    ensures tab[b][i].name in entries && entries[tab[b][i].name] == tab[b][i]
  {
    hide Hash;
    var entries' := entries - {tab[b][i].name};
    assert ChainOk(tab[b], b, entries);
    var tab' := tab[b := tab[b][..i] + tab[b][i + 1..]];
    forall c | 0 <= c < |tab| ensures ChainOk(tab'[c], c, entries') {
      assert ChainOk(tab[c], c, entries);
      if c == b { ChainLess(tab[b], b, entries, i); }
    }
  }

  lemma ChainLess(chain: seq<Ent>, b: nat, entries: map<string, Ent>, i: nat)
    requires ChainOk(chain, b, entries) && i < |chain|
    ensures ChainOk(chain[..i] + chain[i + 1..], b, entries - {chain[i].name})
  {
    hide Hash;
    var chain' := chain[..i] + chain[i + 1..];
    forall j | 0 <= j < |chain'| ensures chain'[j] == chain[if j < i then j else j + 1] { }
    forall x | x in entries && x != chain[i].name && Hash(x) == b ensures In(chain', x) {
      var j :| 0 <= j < |chain| && chain[j].name == x;
      assert chain'[if j < i then j else j - 1].name == x;
    }
  }
}
