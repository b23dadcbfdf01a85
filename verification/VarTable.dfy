/**
 The variables of dash and who owns their texts: var.c. A variable made local is
 saved in a record; its text may then be shared between the variable and records.
 */
module VarTable {
  import opened Canonical

  datatype Flags = Flags(exported: bool, readonly: bool, strfixed: bool, textfixed: bool, stacked: bool, unset: bool)

  // text is the address of name=value, val what comes after the equals sign
  datatype Entry = Entry(flags: Flags, text: nat, val: string)

  // a localvar: saved is None for a variable that did not exist
  datatype Rec = Rec(name: string, saved: Option<Entry>)

  type Table = map<string, Entry>

  // the text is freed when it is replaced
  predicate Owned(e: Entry) { !e.flags.textfixed && !e.flags.stacked }

  // nothing but unset: such an entry is removed
  predicate Gone(f: Flags) { f.unset && !f.exported && !f.readonly && !f.strfixed }

  ghost predicate HoldsText(r: Rec, t: nat) { r.saved.Some? && Owned(r.saved.value) && r.saved.value.text == t }

  // some record after the first k owns text t for name x
  ghost predicate OwnedLater(recs: seq<Rec>, k: nat, x: string, t: nat) {
    exists j :: k <= j < |recs| && recs[j].name == x && HoldsText(recs[j], t)
  }

  // records are for variables that are there to stay
  ghost predicate Kept(tab: Table, recs: seq<Rec>) {
    && (forall i :: 0 <= i < |recs| ==> recs[i].name in tab && tab[recs[i].name].flags.strfixed)
    && (forall i, j :: 0 <= i < j < |recs| && recs[i].name == recs[j].name ==>
        recs[i].saved.Some? && recs[i].saved.value.flags.strfixed)
  }

  // no variable is kept, or has been saved, with nothing but the flag that marks a new one
  ghost predicate NoneGone(tab: Table, recs: seq<Rec>) {
    && (forall x :: x in tab ==> !Gone(tab[x].flags))
    && (forall i :: 0 <= i < |recs| && recs[i].saved.Some? ==> !Gone(recs[i].saved.value.flags))
  }

  // every owned text is allocated and has one owner
  ghost predicate Owning(tab: Table, recs: seq<Rec>, live: set<nat>) {
    && (forall x :: x in tab && Owned(tab[x]) ==> tab[x].text in live)
    && (forall i :: 0 <= i < |recs| && recs[i].saved.Some? && Owned(recs[i].saved.value) ==>
        recs[i].saved.value.text in live)
    && (forall x, y :: x in tab && y in tab && x != y && Owned(tab[x]) && Owned(tab[y]) ==> tab[x].text != tab[y].text)
    && (forall x, i :: x in tab && 0 <= i < |recs| && Owned(tab[x]) ==> !HoldsText(recs[i], tab[x].text))
    && (forall i, j :: 0 <= i < j < |recs| && recs[i].saved.Some? && Owned(recs[i].saved.value) ==>
        !HoldsText(recs[j], recs[i].saved.value.text))
  }

  // every other text is static, or owned by an older record of the same variable
  ghost predicate Backed(tab: Table, recs: seq<Rec>, fixed: set<nat>) {
    && (forall x :: x in tab && !Owned(tab[x]) ==> tab[x].text in fixed || OwnedLater(recs, 0, x, tab[x].text))
    && (forall i :: 0 <= i < |recs| && recs[i].saved.Some? && !Owned(recs[i].saved.value) ==>
          recs[i].saved.value.text in fixed || OwnedLater(recs, i + 1, recs[i].name, recs[i].saved.value.text))
  }

  ghost predicate HasOwner(tab: Table, recs: seq<Rec>, t: nat) {
    (exists x :: x in tab && Owned(tab[x]) && tab[x].text == t) || exists i :: 0 <= i < |recs| && HoldsText(recs[i], t)
  }

  // every allocated text will be freed by its owner
  ghost predicate NoLeak(tab: Table, recs: seq<Rec>, live: set<nat>) {
    forall t :: t in live ==> HasOwner(tab, recs, t)
  }

  // no text that can be reached has been freed, none can be freed twice, and none is lost
  ghost predicate Sound(tab: Table, recs: seq<Rec>, live: set<nat>, fixed: set<nat>) {
    Kept(tab, recs) && Owning(tab, recs, live) && Backed(tab, recs, fixed) && NoLeak(tab, recs, live) && live !! fixed
  }

  // text t is held by nobody
  ghost predicate Spare(tab: Table, recs: seq<Rec>, t: nat) {
    && (forall x :: x in tab ==> tab[x].text != t)
    && (forall i :: 0 <= i < |recs| && recs[i].saved.Some? ==> recs[i].saved.value.text != t)
  }

  // --- Owners ---

  // an owner that is not the variable x stays
  lemma OwnerStays(tab: Table, recs: seq<Rec>, tab': Table, x: string, t: nat)
    requires HasOwner(tab, recs, t) && !(x in tab && Owned(tab[x]) && tab[x].text == t)
    requires forall y :: y in tab && y != x ==> y in tab' && tab'[y] == tab[y]
    ensures HasOwner(tab', recs, t)
  {
    if i :| 0 <= i < |recs| && HoldsText(recs[i], t) {
    } else {
      var y :| y in tab && Owned(tab[y]) && tab[y].text == t;
      assert y in tab' && Owned(tab'[y]) && tab'[y].text == t;
    }
  }

  lemma OwnerShift(r: Rec, recs: seq<Rec>, tab: Table, t: nat)
    ensures HasOwner(tab, [r] + recs, t) <==> HasOwner(tab, recs, t) || HoldsText(r, t)
  {
    var all := [r] + recs;
    if HoldsText(r, t) { assert HoldsText(all[0], t); }
    if i :| 0 <= i < |recs| && HoldsText(recs[i], t) { assert HoldsText(all[i + 1], t); }
    if i :| 0 <= i < |all| && HoldsText(all[i], t) { assert i == 0 || HoldsText(recs[i - 1], t); }
  }

  lemma OwnerIs(tab: Table, recs: seq<Rec>, x: string)
    requires x in tab && Owned(tab[x])
    ensures HasOwner(tab, recs, tab[x].text)
  {
  }

  lemma ReplacedLeak(tab: Table, recs: seq<Rec>, live: set<nat>, x: string, e: Entry, live': set<nat>)
    requires NoLeak(tab, recs, live)
    requires live' == (if x in tab && Owned(tab[x]) then live - {tab[x].text} else live) +
        (if Owned(e) then {e.text} else {})
    ensures NoLeak(tab[x := e], recs, live')
  {
    hide HasOwner;
    var tab' := tab[x := e];
    forall t | t in live' ensures HasOwner(tab', recs, t) {
      if Owned(e) && t == e.text { OwnerIs(tab', recs, x); } else { OwnerStays(tab, recs, tab', x, t); }
    }
  }

  lemma RemovedLeak(tab: Table, recs: seq<Rec>, live: set<nat>, x: string)
    requires NoLeak(tab, recs, live) && x in tab
    ensures NoLeak(tab - {x}, recs, if Owned(tab[x]) then live - {tab[x].text} else live)
  {
    hide HasOwner;
    forall t | t in live && !(Owned(tab[x]) && t == tab[x].text) ensures HasOwner(tab - {x}, recs, t) {
      OwnerStays(tab, recs, tab - {x}, x, t);
    }
  }

  lemma SavedLeak(tab: Table, recs: seq<Rec>, live: set<nat>, x: string)
    requires NoLeak(tab, recs, live) && x in tab
    ensures NoLeak(tab[x := Localised(tab[x])], [Rec(x, Some(tab[x]))] + recs, live)
  {
    hide HasOwner;
    var r, tab' := Rec(x, Some(tab[x])), tab[x := Localised(tab[x])];
    forall t | t in live ensures HasOwner(tab', [r] + recs, t) {
      OwnerShift(r, recs, tab', t);
      if !HoldsText(r, t) { OwnerStays(tab, recs, tab', x, t); }
    }
  }

  lemma RestoredLeak(tab: Table, recs: seq<Rec>, live: set<nat>)
    requires NoLeak(tab, recs, live) && recs != [] && recs[0].saved.Some? && recs[0].name in tab
    ensures var x := recs[0].name;
            NoLeak(tab[x := recs[0].saved.value], recs[1..], if Owned(tab[x]) then live - {tab[x].text} else live)
  {
    hide HasOwner;
    var x, e, rest := recs[0].name, recs[0].saved.value, recs[1..];
    var tab' := tab[x := e];
    RestSaved(recs);
    forall t | t in live && !(Owned(tab[x]) && t == tab[x].text) ensures HasOwner(tab', rest, t) {
      OwnerShift(recs[0], rest, tab, t);
      if HoldsText(recs[0], t) { OwnerIs(tab', rest, x); } else { OwnerStays(tab, rest, tab', x, t); }
    }
  }

  lemma DroppedLeak(tab: Table, recs: seq<Rec>, live: set<nat>)
    requires NoLeak(tab, recs, live) && recs != []
    ensures var r := recs[0];
            NoLeak(tab, recs[1..], if r.saved.Some? && Owned(r.saved.value) then live - {r.saved.value.text} else live)
  {
    hide HasOwner;
    RestSaved(recs);
    forall t | t in live && !HoldsText(recs[0], t) ensures HasOwner(tab, recs[1..], t) {
      OwnerShift(recs[0], recs[1..], tab, t);
    }
  }

  lemma SameLeak(tab: Table, recs: seq<Rec>, live: set<nat>, x: string, e: Entry)
    requires NoLeak(tab, recs, live) && x in tab && e.text == tab[x].text && Owned(e) == Owned(tab[x])
    ensures NoLeak(tab[x := e], recs, live)
  {
    hide HasOwner;
    var tab' := tab[x := e];
    forall t | t in live ensures HasOwner(tab', recs, t) {
      if Owned(tab[x]) && tab[x].text == t { OwnerIs(tab', recs, x); } else { OwnerStays(tab, recs, tab', x, t); }
    }
  }

  // --- Steps ---

  lemma NotLater(tab: Table, recs: seq<Rec>, live: set<nat>, x: string, k: nat, y: string)
    requires Owning(tab, recs, live) && x in tab && Owned(tab[x])
    ensures !OwnedLater(recs, k, y, tab[x].text)
  {
  }

  // the text of an entry that owns it is nobody else's
  lemma OwnText(tab: Table, recs: seq<Rec>, live: set<nat>, fixed: set<nat>, x: string)
    requires Sound(tab, recs, live, fixed) && x in tab && Owned(tab[x])
    ensures tab[x].text in live && Spare(tab - {x}, recs, tab[x].text)
  {
    hide OwnedLater;
    var t := tab[x].text;
    forall y | y in tab && y != x ensures tab[y].text != t { NotLater(tab, recs, live, x, 0, y); }
    forall i | 0 <= i < |recs| && recs[i].saved.Some? ensures recs[i].saved.value.text != t {
      NotLater(tab, recs, live, x, i + 1, recs[i].name);
      assert Owned(recs[i].saved.value) ==> !HoldsText(recs[i], t);
    }
  }

  // a variable gets a new text, or is removed
  lemma Replaced(tab: Table, recs: seq<Rec>, live: set<nat>, fixed: set<nat>, x: string, e: Entry, live': set<nat>)
    requires Sound(tab, recs, live, fixed) && (x in tab && tab[x].flags.strfixed ==> e.flags.strfixed)
    requires live' == (if x in tab && Owned(tab[x]) then live - {tab[x].text} else live) +
        (if Owned(e) then {e.text} else {})
    requires if Owned(e) then e.text !in fixed && Spare(tab, recs, e.text) else e.text in fixed
    ensures Sound(tab[x := e], recs, live', fixed)
  {
    if x in tab && Owned(tab[x]) { OwnText(tab, recs, live, fixed, x); }
    var tab' := tab[x := e];
    assert Backed(tab', recs, fixed);
    ReplacedOwning(tab, recs, live, fixed, x, e, live');
    ReplacedLeak(tab, recs, live, x, e, live');
  }

  lemma ReplacedOwning(tab: Table, recs: seq<Rec>, live: set<nat>, fixed: set<nat>, x: string, e: Entry,
      live': set<nat>)
    requires Sound(tab, recs, live, fixed)
    requires x in tab && Owned(tab[x]) ==> Spare(tab - {x}, recs, tab[x].text)
    requires live' == (if x in tab && Owned(tab[x]) then live - {tab[x].text} else live) +
        (if Owned(e) then {e.text} else {})
    requires Owned(e) ==> Spare(tab, recs, e.text)
    ensures Owning(tab[x := e], recs, live')
  {
    hide Kept, Backed;
    forall y | y in tab && y != x && x in tab && Owned(tab[x]) ensures tab[y].text != tab[x].text {
      assert y in tab - {x};
    }
  }

  lemma Removed(tab: Table, recs: seq<Rec>, live: set<nat>, fixed: set<nat>, x: string)
    requires Sound(tab, recs, live, fixed) && x in tab && !tab[x].flags.strfixed
    ensures Sound(tab - {x}, recs, if Owned(tab[x]) then live - {tab[x].text} else live, fixed)
  {
    hide HasOwner;
    RemovedLeak(tab, recs, live, x);
    if Owned(tab[x]) {
      OwnText(tab, recs, live, fixed, x);
      forall y | y in tab && y != x ensures tab[y].text != tab[x].text { assert y in tab - {x}; }
    }
  }

  lemma LaterShift(r: Rec, recs: seq<Rec>, k: nat, x: string, t: nat)
    ensures OwnedLater(recs, k, x, t) <==> OwnedLater([r] + recs, k + 1, x, t)
    ensures OwnedLater(recs, k, x, t) ==> OwnedLater([r] + recs, 0, x, t)
  {
    if OwnedLater(recs, k, x, t) {
      var j :| k <= j < |recs| && recs[j].name == x && HoldsText(recs[j], t);
      assert ([r] + recs)[j + 1] == recs[j];
    }
    if OwnedLater([r] + recs, k + 1, x, t) {
      var j :| k + 1 <= j < |[r] + recs| && ([r] + recs)[j].name == x && HoldsText(([r] + recs)[j], t);
      assert recs[j - 1] == ([r] + recs)[j];
    }
  }

  function Localised(e: Entry): (e': Entry) { e.(flags := e.flags.(strfixed := true, textfixed := true)) }

  // mklocal of a variable that exists: the record takes over its text
  lemma Saved(tab: Table, recs: seq<Rec>, live: set<nat>, fixed: set<nat>, x: string)
    requires Sound(tab, recs, live, fixed) && x in tab
    ensures Sound(tab[x := Localised(tab[x])], [Rec(x, Some(tab[x]))] + recs, live, fixed)
  {
    hide OwnedLater;
    var r, tab' := Rec(x, Some(tab[x])), tab[x := Localised(tab[x])];
    var recs' := [r] + recs;
    forall i | 0 <= i < |recs| ensures recs'[i + 1] == recs[i] { }
    SavedBacked(tab, recs, fixed, x);
    SavedKept(tab, recs, x);
    SavedOwning(tab, recs, live, x);
    SavedLeak(tab, recs, live, x);
  }

  lemma SavedKept(tab: Table, recs: seq<Rec>, x: string)
    requires Kept(tab, recs) && x in tab
    ensures Kept(tab[x := Localised(tab[x])], [Rec(x, Some(tab[x]))] + recs)
  {
    var r, tab' := Rec(x, Some(tab[x])), tab[x := Localised(tab[x])];
    var recs' := [r] + recs;
    forall i, j | 0 <= i < j < |recs'| && recs'[i].name == recs'[j].name
        ensures recs'[i].saved.Some? && recs'[i].saved.value.flags.strfixed {
      assert recs'[j] == recs[j - 1];
      if i > 0 { assert recs'[i] == recs[i - 1]; }
    }
  }

  lemma SavedOwning(tab: Table, recs: seq<Rec>, live: set<nat>, x: string)
    requires Owning(tab, recs, live) && x in tab
    ensures Owning(tab[x := Localised(tab[x])], [Rec(x, Some(tab[x]))] + recs, live)
  {
    var r, tab' := Rec(x, Some(tab[x])), tab[x := Localised(tab[x])];
    var recs' := [r] + recs;
    forall i | 1 <= i < |recs'| ensures recs'[i] == recs[i - 1] { }
  }

  lemma SavedBacked(tab: Table, recs: seq<Rec>, fixed: set<nat>, x: string)
    requires Backed(tab, recs, fixed) && x in tab
    ensures Backed(tab[x := Localised(tab[x])], [Rec(x, Some(tab[x]))] + recs, fixed)
  {
    hide OwnedLater;
    var r, tab' := Rec(x, Some(tab[x])), tab[x := Localised(tab[x])];
    var recs' := [r] + recs;
    forall y | y in tab' && !Owned(tab'[y]) ensures tab'[y].text in fixed || OwnedLater(recs', 0, y, tab'[y].text) {
      LaterShift(r, recs, 0, y, tab[y].text);
      if y == x && Owned(tab[x]) { FirstOwns(r, recs); }
    }
    forall i | 0 <= i < |recs'| && recs'[i].saved.Some? && !Owned(recs'[i].saved.value)
      ensures recs'[i].saved.value.text in fixed || OwnedLater(recs', i + 1, recs'[i].name, recs'[i].saved.value.text)
    {
      LaterShift(r, recs, i, recs'[i].name, recs'[i].saved.value.text);
      if i > 0 { assert recs'[i] == recs[i - 1]; }
    }
  }

  lemma FirstOwns(r: Rec, recs: seq<Rec>)
    requires r.saved.Some? && Owned(r.saved.value)
    ensures OwnedLater([r] + recs, 0, r.name, r.saved.value.text)
  {
    assert ([r] + recs)[0] == r;
  }

  // mklocal of a new variable
  lemma Started(tab: Table, recs: seq<Rec>, live: set<nat>, fixed: set<nat>, x: string)
    requires Sound(tab, recs, live, fixed) && x in tab && tab[x].flags.strfixed && forall i :: 0 <= i < |recs| ==>
        recs[i].name != x
    ensures Sound(tab, [Rec(x, None)] + recs, live, fixed)
  {
    hide OwnedLater;
    var r := Rec(x, None);
    var recs' := [r] + recs;
    forall t | t in live ensures HasOwner(tab, recs', t) { OwnerShift(r, recs, tab, t); }
    forall i | 1 <= i < |recs'| ensures recs'[i] == recs[i - 1] { }
    forall y | y in tab && !Owned(tab[y]) ensures tab[y].text in fixed || OwnedLater(recs', 0, y, tab[y].text) {
      LaterShift(r, recs, 0, y, tab[y].text);
    }
    forall i | 0 <= i < |recs'| && recs'[i].saved.Some? && !Owned(recs'[i].saved.value)
      ensures recs'[i].saved.value.text in fixed || OwnedLater(recs', i + 1, recs'[i].name, recs'[i].saved.value.text)
    {
      LaterShift(r, recs, i, recs'[i].name, recs'[i].saved.value.text);
    }
  }

  // --- Taking a record off ---

  lemma RestSaved(recs: seq<Rec>)
    requires recs != []
    ensures recs == [recs[0]] + recs[1..]
  {
  }

  // poplocalvars: the saved variable comes back, and the text of the local one is freed
  lemma Restored(tab: Table, recs: seq<Rec>, live: set<nat>, fixed: set<nat>)
    requires Sound(tab, recs, live, fixed) && recs != [] && recs[0].saved.Some?
    ensures var x := recs[0].name;
            Sound(tab[x := recs[0].saved.value], recs[1..], if Owned(tab[x]) then live - {tab[x].text} else live, fixed)
  {
    hide OwnedLater;
    var x, e, rest := recs[0].name, recs[0].saved.value, recs[1..];
    if Owned(tab[x]) { OwnText(tab, recs, live, fixed, x); }
    RestoredKept(tab, recs);
    RestoredOwning(tab, recs, live);
    RestoredBacked(tab, recs, live, fixed);
    RestoredLeak(tab, recs, live);
  }

  lemma RestoredKept(tab: Table, recs: seq<Rec>)
    requires Kept(tab, recs) && recs != [] && recs[0].saved.Some?
    ensures Kept(tab[recs[0].name := recs[0].saved.value], recs[1..])
  {
    var x, rest := recs[0].name, recs[1..];
    forall i | 0 <= i < |rest| ensures rest[i] == recs[i + 1] { }
    forall i | 0 <= i < |rest| && rest[i].name == x ensures recs[0].saved.value.flags.strfixed {
      assert recs[i + 1].name == recs[0].name;
    }
  }

  lemma RestoredOwning(tab: Table, recs: seq<Rec>, live: set<nat>)
    requires Owning(tab, recs, live) && recs != [] && recs[0].saved.Some? && recs[0].name in tab
    requires Owned(tab[recs[0].name]) ==> Spare(tab - {recs[0].name}, recs, tab[recs[0].name].text)
    ensures var x := recs[0].name;
            Owning(tab[x := recs[0].saved.value], recs[1..], if Owned(tab[x]) then live - {tab[x].text} else live)
  {
    var x, e, rest := recs[0].name, recs[0].saved.value, recs[1..];
    forall i | 0 <= i < |rest| ensures rest[i] == recs[i + 1] { }
    forall y | y in tab && y != x && Owned(tab[x]) ensures tab[y].text != tab[x].text { assert y in tab - {x}; }
    forall y | y in tab && y != x && Owned(tab[y]) && Owned(e) ensures tab[y].text != e.text {
      assert !HoldsText(recs[0], tab[y].text);
    }
  }

  lemma RestoredBacked(tab: Table, recs: seq<Rec>, live: set<nat>, fixed: set<nat>)
    requires Sound(tab, recs, live, fixed) && recs != [] && recs[0].saved.Some?
    ensures Backed(tab[recs[0].name := recs[0].saved.value], recs[1..], fixed)
  {
    hide OwnedLater, HoldsText;
    var x, e, rest := recs[0].name, recs[0].saved.value, recs[1..];
    RestSaved(recs);
    var tab' := tab[x := e];
    forall y | y in tab' && !Owned(tab'[y]) ensures tab'[y].text in fixed || OwnedLater(rest, 0, y, tab'[y].text) {
      LaterShift(recs[0], rest, 0, y, tab'[y].text);
      if y != x { OtherFirst(recs, y, tab[y].text); }
    }
    forall i | 0 <= i < |rest| && rest[i].saved.Some? && !Owned(rest[i].saved.value)
      ensures rest[i].saved.value.text in fixed || OwnedLater(rest, i + 1, rest[i].name, rest[i].saved.value.text)
    {
      assert rest[i] == recs[i + 1];
      LaterShift(recs[0], rest, i + 1, rest[i].name, rest[i].saved.value.text);
    }
  }

  // the first record is not of y
  lemma OtherFirst(recs: seq<Rec>, y: string, t: nat)
    requires recs != [] && recs[0].name != y
    ensures OwnedLater(recs, 0, y, t) ==> OwnedLater(recs, 1, y, t)
  {
  }

  // a record whose text nobody needs any more goes
  lemma DroppedBacked(tab: Table, recs: seq<Rec>, fixed: set<nat>)
    requires Backed(tab, recs, fixed) && recs != []
    requires recs[0].saved.Some? && Owned(recs[0].saved.value) && recs[0].name in tab && !Owned(tab[recs[0].name]) ==>
        tab[recs[0].name].text != recs[0].saved.value.text
    ensures Backed(tab, recs[1..], fixed)
  {
    hide OwnedLater;
    var rest := recs[1..];
    RestSaved(recs);
    forall y | y in tab && !Owned(tab[y]) ensures tab[y].text in fixed || OwnedLater(rest, 0, y, tab[y].text) {
      LaterShift(recs[0], rest, 0, y, tab[y].text);
      if y == recs[0].name { TextFirst(recs, y, tab[y].text); } else { OtherFirst(recs, y, tab[y].text); }
    }
    forall i | 0 <= i < |rest| && rest[i].saved.Some? && !Owned(rest[i].saved.value)
      ensures rest[i].saved.value.text in fixed || OwnedLater(rest, i + 1, rest[i].name, rest[i].saved.value.text)
    {
      LaterShift(recs[0], rest, i + 1, rest[i].name, rest[i].saved.value.text);
      assert rest[i] == recs[i + 1];
    }
  }

  lemma DroppedKept(tab: Table, recs: seq<Rec>)
    requires Kept(tab, recs) && recs != []
    ensures Kept(tab, recs[1..]) &&
        (recs[0].saved.None? ==> forall i :: 0 <= i < |recs[1..]| ==> recs[1..][i].name != recs[0].name)
  {
    var rest := recs[1..];
    forall i | 0 <= i < |rest| ensures rest[i] == recs[i + 1] { }
  }

  lemma DroppedOwning(tab: Table, recs: seq<Rec>, live: set<nat>)
    requires Owning(tab, recs, live) && recs != []
    ensures var r := recs[0];
        Owning(tab, recs[1..], if r.saved.Some? && Owned(r.saved.value) then live - {r.saved.value.text} else live)
  {
    var r, rest := recs[0], recs[1..];
    forall i | 0 <= i < |rest| ensures rest[i] == recs[i + 1] { }
    if r.saved.Some? && Owned(r.saved.value) {
      forall x | x in tab && Owned(tab[x]) ensures tab[x].text != r.saved.value.text {
        assert !HoldsText(recs[0], tab[x].text);
      }
      forall i | 0 <= i < |rest| && rest[i].saved.Some? && Owned(rest[i].saved.value)
          ensures rest[i].saved.value.text != r.saved.value.text {
        assert !HoldsText(recs[i + 1], r.saved.value.text);
      }
    }
  }

  // the record of a new variable has no text
  lemma Dropped(tab: Table, recs: seq<Rec>, live: set<nat>, fixed: set<nat>)
    requires Sound(tab, recs, live, fixed) && recs != [] && recs[0].saved.None?
    ensures Sound(tab, recs[1..], live, fixed) && forall i :: 0 <= i < |recs[1..]| ==> recs[1..][i].name != recs[0].name
  {
    hide Kept, Owning, Backed, NoLeak;
    DroppedKept(tab, recs);
    DroppedOwning(tab, recs, live);
    DroppedBacked(tab, recs, fixed);
    DroppedLeak(tab, recs, live);
  }

  // poplocalvars(1) after an assignment: the saved text is freed
  lemma DroppedSaved(tab: Table, recs: seq<Rec>, live: set<nat>, fixed: set<nat>)
    requires Sound(tab, recs, live, fixed) && recs != [] && recs[0].saved.Some? &&
        tab[recs[0].name].text != recs[0].saved.value.text
    ensures Sound(tab, recs[1..], if Owned(recs[0].saved.value) then live - {recs[0].saved.value.text} else live, fixed)
    ensures recs[0].name in tab && (Owned(recs[0].saved.value) ==> recs[0].saved.value.text in live)
  {
    hide Owning, Backed, NoLeak;
    DroppedLeak(tab, recs, live);
    DroppedKept(tab, recs);
    DroppedOwning(tab, recs, live);
    DroppedBacked(tab, recs, fixed);
    if Owned(recs[0].saved.value) { OwnedLive(tab, recs, live); }
  }

  lemma OwnedLive(tab: Table, recs: seq<Rec>, live: set<nat>)
    requires Owning(tab, recs, live) && recs != [] && recs[0].saved.Some? && Owned(recs[0].saved.value)
    ensures recs[0].saved.value.text in live
  {
  }

  // poplocalvars(1) without an assignment: the variable takes the text back
  lemma TakenBack(tab: Table, recs: seq<Rec>, live: set<nat>, fixed: set<nat>, e: Entry)
    requires Sound(tab, recs, live, fixed) && recs != [] && recs[0].saved.Some? &&
        tab[recs[0].name].text == recs[0].saved.value.text == e.text
    requires Owned(e) == Owned(recs[0].saved.value) && e.flags.strfixed == recs[0].saved.value.flags.strfixed
    ensures Sound(tab[recs[0].name := e], recs[1..], live, fixed)
  {
    hide Kept, Owning, Backed, NoLeak, Owned;
    SharedText(tab, recs, live, fixed);
    Restored(tab, recs, live, fixed);
    SameOwner(tab[recs[0].name := recs[0].saved.value], recs[1..], live, fixed, recs[0].name, e);
    assert tab[recs[0].name := recs[0].saved.value][recs[0].name := e] == tab[recs[0].name := e];
  }

  // a text that a record has, the variable does not own
  lemma SharedText(tab: Table, recs: seq<Rec>, live: set<nat>, fixed: set<nat>)
    requires Sound(tab, recs, live, fixed) && recs != [] && recs[0].saved.Some? &&
        tab[recs[0].name].text == recs[0].saved.value.text
    ensures recs[0].name in tab && !Owned(tab[recs[0].name])
  {
    if Owned(tab[recs[0].name]) { OwnText(tab, recs, live, fixed, recs[0].name); }
  }

  // other flags, but the same text and the same owner
  lemma SameOwner(tab: Table, recs: seq<Rec>, live: set<nat>, fixed: set<nat>, x: string, e: Entry)
    requires Sound(tab, recs, live, fixed) && x in tab && e.text == tab[x].text && Owned(e) == Owned(tab[x])
    requires tab[x].flags.strfixed ==> e.flags.strfixed || forall i :: 0 <= i < |recs| ==> recs[i].name != x
    ensures Sound(tab[x := e], recs, live, fixed)
  {
    hide OwnedLater, HoldsText, NoLeak;
    SameLeak(tab, recs, live, x, e);
  }

  lemma TextFirst(recs: seq<Rec>, y: string, t: nat)
    requires recs != [] && !HoldsText(recs[0], t)
    ensures OwnedLater(recs, 0, y, t) ==> OwnedLater(recs, 1, y, t)
  {
  }
}
