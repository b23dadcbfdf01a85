/**
 PATH as a list of directories, and how much of it an assignment leaves alone: padvance
 and changepath of exec.c.
 */
module PathSearch {
  import opened Canonical

  // the elements of a PATH: there is always one, which may be empty
  function Split(path: string): (elems: seq<string>)
    ensures elems != []
  {
    if path == "" then [""]
    else
      var rest := Split(path[1..]);
      if path[0] == ':' then [""] + rest else [[path[0]] + rest[0]] + rest[1..]
  }

  // with colons in between they make the PATH again
  lemma {:induction false} SplitJoins(path: string)
    ensures var elems := Split(path);
            path == Joined(elems) && forall i :: 0 <= i < |elems| ==> ':' !in elems[i]
  {
    if path != "" {
      SplitJoins(path[1..]);
      var elems, rest := Split(path), Split(path[1..]);
      assert path == [path[0]] + path[1..];
      if path[0] == ':' {
        assert elems[1..] == rest;
      } else {
        assert elems[1..] == rest[1..];
        assert elems[0][1..] == rest[0];
      }
    }
  }

  ghost function Joined(elems: seq<string>): (path: string)
    requires elems != []
  {
    if |elems| == 1 then elems[0] else elems[0] + ":" + Joined(elems[1..])
  }

  function Full(dir: string, name: string): (s: string) { if dir == "" then name else dir + "/" + name }

  predicate Plain(path: string) { '%' !in path }

  // --- padvance ---

  // the directory of an element: options come after a percent sign
  function Dir(elem: string): (d: string) { if elem == "" || elem[0] == '%' then "" else [elem[0]] + Dir(elem[1..]) }

  lemma {:induction false} PlainDir(elem: string)
    requires Plain(elem)
    ensures Dir(elem) == elem
  {
    if elem != "" { PlainDir(elem[1..]); }
  }

  // the next candidate; path is what is left of PATH
  method Padvance(path: string, name: string) returns (fullname: string, pathopt: Option<string>, rest: Option<string>)
    ensures fullname == Full(Dir(Split(path)[0]), name) && (pathopt.Some? <==> '%' in Split(path)[0])
    ensures var d := Dir(Split(path)[0]);
            if d == "" then fullname == name
            else |fullname| > |d| && fullname[..|d|] == d && fullname[|d|] == '/' && fullname[|d| + 1..] == name
    ensures Split(path)[1..] == if rest.Some? then Split(rest.value) else []
    ensures Plain(path) && rest.Some? ==> Plain(rest.value)
  {
    hide Split, Dir;
    var p := 0;
    while p < |path| && path[p] != ':' && path[p] != '%'
      invariant p <= |path| && forall i :: 0 <= i < p ==> path[i] != ':' && path[i] != '%'
    {
      p := p + 1;
    }
    var q := p;
    pathopt := None;
    if p < |path| && path[p] == '%' {
      q := p + 1;
      pathopt := Some(path[q..]);
      while q < |path| && path[q] != ':'
        invariant p < q <= |path| && forall i :: 0 <= i < q ==> path[i] != ':'
      {
        q := q + 1;
      }
    }
    fullname := Full(path[..p], name);
    rest := if q < |path| then Some(path[q + 1..]) else None;
    FirstElem(path, q);
    DirEnd(path[..q], p);
    assert path[..q][..p] == path[..p];
  }

  // the first element ends at the first colon
  lemma {:induction false} FirstElem(path: string, q: nat)
    requires q <= |path| && (forall i :: 0 <= i < q ==> path[i] != ':') && (q < |path| ==> path[q] == ':')
    ensures Split(path)[0] == path[..q] && Split(path)[1..] == if q < |path| then Split(path[q + 1..]) else []
  {
    if q == 0 {
      if path != "" { assert Split(path) == [""] + Split(path[1..]); }
    } else {
      FirstElem(path[1..], q - 1);
      assert path[..q] == [path[0]] + path[1..][..q - 1];
      assert q < |path| ==> path[1..][q..] == path[q + 1..];
    }
  }

  lemma {:induction false} DirEnd(elem: string, p: nat)
    requires p <= |elem| && (forall i :: 0 <= i < p ==> elem[i] != '%') && (p < |elem| ==> elem[p] == '%')
    ensures Dir(elem) == elem[..p] && ('%' in elem <==> p < |elem|)
  {
    if p > 0 {
      DirEnd(elem[1..], p - 1);
      assert elem[..p] == [elem[0]] + elem[1..][..p - 1];
      assert elem == [elem[0]] + elem[1..];
    }
  }

  lemma {:induction false} PlainElems(path: string)
    requires Plain(path)
    ensures forall i :: 0 <= i < |Split(path)| ==> Plain(Split(path)[i])
  {
    if path != "" { PlainElems(path[1..]); }
  }

  // --- changepath ---

  // how many elements two lists have in common at their start
  function Common(a: seq<string>, b: seq<string>): (n: nat)
    ensures n <= |a| && n <= |b| && a[..n] == b[..n] && (n < |a| && n < |b| ==> a[n] != b[n])
  {
    if a == [] || b == [] || a[0] != b[0] then 0 else 1 + Common(a[1..], b[1..])
  }

  function Colons(s: string): (n: nat) {
    if s == "" then 0 else Colons(s[..|s| - 1]) + if s[|s| - 1] == ':' then 1 else 0
  }

  lemma {:induction false} ColonsFirst(s: string)
    requires s != ""
    ensures Colons(s) == (if s[0] == ':' then 1 else 0) + Colons(s[1..])
  {
    if |s| > 1 {
      ColonsFirst(s[..|s| - 1]);
      assert s[1..][..|s| - 2] == s[..|s| - 1][1..];
    }
  }

  // the two differ first at k
  lemma {:induction false} CommonAt(old': string, new': string, k: nat)
    requires k <= |old'| && k <= |new'| && old'[..k] == new'[..k] && (k < |old'| || k < |new'|)
    requires k < |old'| && k < |new'| ==> old'[k] != new'[k]
    ensures Common(Split(old'), Split(new')) ==
            Colons(new'[..k]) + if (k == |old'| && new'[k] == ':') || (k == |new'| && old'[k] == ':') then 1 else 0
  {
    if k > 0 {
      var a, b := old'[1..], new'[1..];
      assert a[..k - 1] == old'[..k][1..] && b[..k - 1] == new'[..k][1..];
      assert old'[0] == old'[..k][0] == new'[0];
      CommonAt(a, b, k - 1);
      ColonsFirst(new'[..k]);
      if new'[0] == ':' {
        assert Split(old')[1..] == Split(a) && Split(new')[1..] == Split(b);
      } else {
        SameFirst(new'[0], Split(a), Split(b));
      }
    } else if old' != "" && new' != "" {
      assert Split(old')[0] != Split(new')[0] by { ElemStart(old'); ElemStart(new'); }
    } else if old' != "" {
      ElemStart(old');
    } else {
      ElemStart(new');
    }
  }

  lemma ElemStart(path: string)
    requires path != ""
    ensures if path[0] == ':' then Split(path)[0] == "" else Split(path)[0] != "" && Split(path)[0][0] == path[0]
  {
  }

  lemma SameFirst(c: char, a: seq<string>, b: seq<string>)
    requires a != [] && b != []
    ensures Common([[c] + a[0]] + a[1..], [[c] + b[0]] + b[1..]) == Common(a, b)
  {
    var a', b' := [[c] + a[0]] + a[1..], [[c] + b[0]] + b[1..];
    assert a'[0][1..] == a[0] && b'[0][1..] == b[0] && a'[1..] == a[1..] && b'[1..] == b[1..];
  }

  // the first element of PATH that changes
  method FirstChange(pathval: string, newval: string) returns (firstchange: nat)
    ensures firstchange == if pathval == newval then 9999 else Common(Split(pathval), Split(newval))
  {
    var old', o, n := pathval, 0, 0;
    firstchange := 9999;
    var idx := 0;
    while true
      invariant n <= |newval| && o <= |old'| && idx == Colons(newval[..n]) && o == n
      invariant if old' == pathval then pathval[..n] == newval[..n] && firstchange == 9999
                else old' == newval && firstchange == Common(Split(pathval), Split(newval))
      decreases |newval| - n
    {
      if (if o < |old'| then n == |newval| || old'[o] != newval[n] else n < |newval|) {
        CommonAt(old', newval, n);
        firstchange := idx;
        if (o == |old'| && n < |newval| && newval[n] == ':') || (o < |old'| && old'[o] == ':' && n == |newval|) {
          firstchange := firstchange + 1;
        }
        old', o := newval, n;
      }
      if n == |newval| { break; }
      assert newval[..n + 1][..n] == newval[..n];
      if newval[n] == ':' { idx := idx + 1; }
      n, o := n + 1, o + 1;
    }
    assert pathval[..|pathval|] == pathval && newval[..|newval|] == newval;
  }
}
