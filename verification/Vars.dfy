/**
 Setting, unsetting and localising shell variables: popping a frame brings back what
 its variables were when they were first made local in it, and no text is freed twice
 or while it can still be reached.
 */
module Vars {
  import opened Bits
  import opened Canonical
  import opened VarTable

  const NO_FLAGS := Flags(false, false, false, false, false, false)
  const VSTRFIXED := NO_FLAGS.(strfixed := true)

  // what setvareq makes of the flags it is given and those the variable has
  function Merge(f: Flags, v: Flags): (r: Flags) {
    Flags(f.exported || v.exported, f.readonly || v.readonly, f.strfixed || v.strfixed, f.textfixed, f.stacked, f.unset)
  }

  function Exporting(f: Flags, aflag: bool): (r: Flags) { f.(exported := f.exported || aflag) }

  // all records, the newest first
  ghost function Flat(fs: seq<seq<Rec>>): (recs: seq<Rec>) { if fs == [] then [] else fs[0] + Flat(fs[1..]) }

  // --- What a frame remembers ---

  ghost predicate HasRec(frame: seq<Rec>, x: string) { exists i :: 0 <= i < |frame| && frame[i].name == x }

  // what x was when it was first made local in the frame
  ghost function Oldest(frame: seq<Rec>, x: string): (e: Option<Entry>)
    requires HasRec(frame, x)
  {
    if HasRec(frame[1..], x) then Oldest(frame[1..], x) else frame[0].saved
  }

  ghost predicate SnapOk(frame: seq<Rec>, snap: map<string, Option<Entry>>) {
    forall x :: (x in snap <==> HasRec(frame, x)) && (x in snap ==> Oldest(frame, x) == snap[x])
  }

  lemma HasFirst(r: Rec, frame: seq<Rec>, x: string)
    ensures HasRec([r] + frame, x) <==> r.name == x || HasRec(frame, x)
    ensures HasRec(frame, x) ==> Oldest([r] + frame, x) == Oldest(frame, x)
    ensures r.name == x && !HasRec(frame, x) ==> Oldest([r] + frame, x) == r.saved
  {
    var f := [r] + frame;
    assert f[0] == r && f[1..] == frame;
    if HasRec(frame, x) {
      var i :| 0 <= i < |frame| && frame[i].name == x;
      assert f[i + 1].name == x;
    }
    if HasRec(f, x) && r.name != x {
      var i :| 0 <= i < |f| && f[i].name == x;
      assert frame[i - 1].name == x;
    }
  }

  // the snapshot after x has been made local
  ghost function Snapped(snap: map<string, Option<Entry>>, x: string, e: Option<Entry>): (s: map<string,
      Option<Entry>>) {
    if x in snap then snap else snap[x := e]
  }

  lemma SnapMore(r: Rec, frame: seq<Rec>, snap: map<string, Option<Entry>>)
    requires SnapOk(frame, snap)
    ensures SnapOk([r] + frame, Snapped(snap, r.name, r.saved))
  {
    hide HasRec, Oldest;
    var snap' := Snapped(snap, r.name, r.saved);
    forall x ensures (x in snap' <==> HasRec([r] + frame, x)) && (x in snap' ==> Oldest([r] + frame, x) == snap'[x]) {
      HasFirst(r, frame, x);
    }
  }

  function Look(tab: Table, x: string): (e: Option<Entry>) { if x in tab then Some(tab[x]) else None }

  // the value of a variable, if it has one
  function Value(tab: Table, x: string): (v: Option<string>) {
    if x in tab && !tab[x].flags.unset then Some(tab[x].val) else None
  }

  // no entry is kept for nothing, but perhaps that of x
  ghost predicate NoneGoneBut(tab: Table, recs: seq<Rec>, x: string) {
    && (forall y :: y in tab && y != x ==> !Gone(tab[y].flags))
    && (forall i :: 0 <= i < |recs| && recs[i].saved.Some? ==> !Gone(recs[i].saved.value.flags))
  }

  // the entries whose text is on the stack are marked so
  ghost predicate Marked(tab: Table, recs: seq<Rec>, onStack: set<nat>) {
    && (forall x :: x in tab ==> (tab[x].flags.stacked <==> tab[x].text in onStack))
    && (forall i :: 0 <= i < |recs| && recs[i].saved.Some? ==>
        (recs[i].saved.value.flags.stacked <==> recs[i].saved.value.text in onStack))
  }

  class Variables {
    var tab: Table
    var frames: seq<seq<Rec>>       // localvar_stack, the innermost frame first
    var live: set<nat>              // texts that are allocated, but for those that are lost
    var nextText: nat
    var aflag: bool
    ghost var fixed: set<nat>       // texts that are never freed
    ghost const onStack: set<nat>   // those of them that are on the stack
    ghost var lost: set<nat>        // texts on the heap that nothing will free any more
    ghost var snaps: seq<map<string, Option<Entry>>>

    ghost predicate Base()
      reads this
    {
      && Sound(tab, Flat(frames), live, fixed) && Marked(tab, Flat(frames), onStack)
      && onStack <= fixed && lost <= fixed && forall t :: t in live || t in fixed ==> t < nextText
    }

    // the same, but that the caller has one text in hand that belongs to nobody else
    ghost predicate Holding(hand: Option<nat>)
      reads this
    {
      if hand.None? then Base()
      else
        && hand.value in live && hand.value !in fixed
        && Sound(tab, Flat(frames), live - {hand.value}, fixed) && Marked(tab, Flat(frames), onStack)
        && onStack <= fixed && lost <= fixed && forall t :: t in live || t in fixed ==> t < nextText
    }

    ghost predicate Valid()
      reads this
    {
      && Base() && NoneGone(tab, Flat(frames)) && |snaps| == |frames|
      && forall k :: 0 <= k < |frames| ==> SnapOk(frames[k], snaps[k])
    }

    // the shell at its start: every text is static, or on the stack
    constructor (init: Table, env: set<nat>, stack: set<nat>, top: nat, a: bool)
      requires forall x :: x in init ==> !Owned(init[x]) && init[x].text in env && !Gone(init[x].flags)
      requires forall x :: x in init ==> (init[x].flags.stacked <==> init[x].text in stack)
      requires stack <= env && forall t :: t in env ==> t < top
      ensures Valid() && tab == init && frames == [] && aflag == a && lost == {} && fixed == env && onStack == stack
    {
      tab, frames, live, nextText, aflag := init, [], {}, top, a;
      fixed, lost, onStack, snaps := env, {}, stack, [];
    }

    // ckfree
    method Free(t: nat)
      requires t in live
      modifies this`live
      ensures live == old(live) - {t}
    {
      live := live - {t};
    }

    // ckmalloc
    method Alloc() returns (t: nat)
      requires Base()
      modifies this`live, this`nextText
      ensures Holding(Some(t)) && live == old(live) + {t} && t == old(nextText) && nextText == t + 1
    {
      hide Sound;
      t := nextText;
      nextText := nextText + 1;
      live := live + {t};
      assert live - {t} == old(live);
    }

    method SetVarEq(name: string, val: string, f: Flags, noset: bool, nosave: bool, s: nat) returns (ok: bool)
      requires Holding(if nosave then Some(s) else None) && NoneGoneBut(tab, Flat(frames), name)
      requires nosave ==> !f.textfixed && !f.stacked
      requires f.textfixed || f.stacked ==> s in fixed && (f.stacked <==> s in onStack)
      modifies this`tab, this`live, this`nextText
      ensures Holding(if ok && noset && nosave then Some(s) else None) && (ok && !noset ==> NoneGone(tab, Flat(frames)))
      ensures ok == !(name in old(tab) && old(tab)[name].flags.readonly)
      ensures !ok || noset ==> tab == old(tab)
      ensures ok && !noset ==>
          tab == SetTable(old(tab), name, val, Exporting(f, aflag), if name in tab then tab[name].text else 0)
      ensures ok && !noset && name in tab ==>
          tab[name].text == if f.textfixed || f.stacked || nosave then s else old(nextText)
      ensures ok && !noset ==> Assigned(old(tab), tab, name, val, f, aflag)
      ensures ok && !noset && name in old(tab) && Owned(old(tab)[name]) ==> old(tab)[name].text !in live
    {
      hide Sound, NoneGone, NoneGoneBut, Marked, Assigned;
      ghost var recs, tab0 := Flat(frames), tab;
      if name in tab ==> !tab[name].flags.readonly { SetAssigned(tab, name, val, f, aflag); }
      var flags := Exporting(f, aflag);
      if name in tab {
        if tab[name].flags.readonly {
          if nosave { Free(s); }
          return false;
        }
        if noset { return true; }
        if Gone(flags) && !tab[name].flags.strfixed {
          Remove(name, nosave, s);
          return true;
        }
        flags := Merge(flags, tab[name].flags);
      } else {
        if noset { return true; }
        if Gone(flags) {
          if nosave { Free(s); }
          RemovedGone(tab, recs, name);
          assert tab - {name} == tab;
          return true;
        }
      }
      Store(name, val, flags, nosave, s);
      StoredGone(tab0, recs, name, tab[name]);
      ok := true;
    }

    // the text of a variable is freed, if it is its own, and then the entry
    method Remove(name: string, nosave: bool, s: nat)
      requires Holding(if nosave then Some(s) else None) && NoneGoneBut(tab, Flat(frames), name)
      requires name in tab && !tab[name].flags.strfixed
      modifies this`tab, this`live
      ensures Base() && NoneGone(tab, Flat(frames)) && tab == old(tab) - {name}
      ensures Owned(old(tab)[name]) ==> old(tab)[name].text !in live
    {
      hide Sound, NoneGone, NoneGoneBut, Marked;
      ghost var recs, live0 := Flat(frames), if nosave then live - {s} else live;
      var vp := tab[name];
      Removed(tab, recs, live0, fixed, name);
      RemovedGone(tab, recs, name);
      MarkedGone(tab, recs, onStack, name);
      if Owned(vp) {
        OwnText(tab, recs, live0, fixed, name);
        Free(vp.text);
      }
      tab := tab - {name};
      if nosave { Free(s); }
      assert live == if Owned(vp) then live0 - {vp.text} else live0;
    }

    // the last part of setvareq: the text of the variable is freed, if it is its own, and the new one put in
    method Store(name: string, val: string, flags: Flags, nosave: bool, s: nat)
      requires Holding(if nosave then Some(s) else None)
      requires name in tab && tab[name].flags.strfixed ==> flags.strfixed
      requires nosave ==> !flags.textfixed && !flags.stacked
      requires flags.textfixed || flags.stacked ==> s in fixed && (flags.stacked <==> s in onStack)
      modifies this`tab, this`live, this`nextText
      ensures Base() && name in tab && tab == old(tab)[name := Entry(flags, tab[name].text, val)]
      ensures tab[name].text == if flags.textfixed || flags.stacked || nosave then s else old(nextText)
      ensures name in old(tab) && Owned(old(tab)[name]) ==> old(tab)[name].text !in live
    {
      hide Sound, Marked;
      ghost var recs, live0 := Flat(frames), if nosave then live - {s} else live;
      var t := s;
      LiveNotFixed(tab, recs, live0, fixed);
      if name in tab && Owned(tab[name]) {
        OwnText(tab, recs, live0, fixed, name);
        Free(tab[name].text);
      }
      if !flags.textfixed && !flags.stacked && !nosave {
        t := nextText;
        nextText, live := nextText + 1, live + {t};
      }
      ghost var e := Entry(flags, t, val);
      if Owned(e) { Unheld(tab, recs, live0, fixed, t); }
      assert live == (if name in tab && Owned(tab[name]) then live0 - {tab[name].text} else live0) +
          (if Owned(e) then {t} else {});
      Replaced(tab, recs, live0, fixed, name, e, live);
      MarkedSet(tab, recs, onStack, name, e);
      tab := tab[name := Entry(flags, t, val)];
    }

    method SetVar(name: string, val: Option<string>, f: Flags) returns (ok: bool)
      requires Base() && NoneGoneBut(tab, Flat(frames), name) && !f.textfixed && !f.stacked
      modifies this`tab, this`live, this`nextText
      ensures Base() && (ok ==> NoneGone(tab, Flat(frames)))
      ensures ok == !(name in old(tab) && old(tab)[name].flags.readonly)
      ensures !ok ==> tab == old(tab)
      ensures ok ==>
          tab == SetTable(old(tab), name, if val.Some? then val.value
          else "", Exporting(f.(unset := f.unset || val.None?), aflag),
                                     if name in tab then tab[name].text else 0)
      ensures ok ==> Assigned(old(tab), tab, name, if val.Some? then val.value else "",
          f.(unset := f.unset || val.None?), aflag)
    {
      hide Sound, SetTable, Marked, NoneGone, NoneGoneBut, Assigned;
      var s := Alloc();
      ok := SetVarEq(name, if val.Some? then val.value else "", f.(unset := f.unset || val.None?), false, true, s);
    }

    method UnsetVar(name: string) returns (ok: bool)
      requires Valid()
      modifies this`tab, this`live, this`nextText
      ensures Valid() && (ok ==> Value(tab, name).None?) && (!ok ==> tab == old(tab))
      ensures ok == !(name in old(tab) && old(tab)[name].flags.readonly)
      ensures ok ==> (name in tab <==> aflag || (name in old(tab) && old(tab)[name].flags.strfixed))
      ensures ok && name in tab ==>
          (tab[name].flags.exported <==> aflag || (name in old(tab) && old(tab)[name].flags.exported))
      ensures forall y :: y != name ==> Look(tab, y) == Look(old(tab), y)
    {
      hide Sound, SnapOk;
      ok := SetVar(name, None, NO_FLAGS);
    }

    method PushLocalVars()
      requires Valid()
      modifies this`frames, this`snaps
      ensures Valid() && tab == old(tab) && snaps == [map[]] + old(snaps) && frames == [[]] + old(frames)
    {
      hide Sound, NoneGone;
      assert Flat([[]] + frames) == Flat(frames) by { assert ([[]] + frames)[1..] == frames; }
      frames, snaps := [[]] + frames, [map[]] + snaps;
    }

    // mklocal name, or name=val
    method MkLocal(name: string, val: Option<string>) returns (ok: bool)
      requires Valid() && frames != []
      modifies this
      ensures Valid() && aflag == old(aflag) && frames != [] && frames[1..] == old(frames)[1..]
      ensures ok == !(val.Some? && name in old(tab) && old(tab)[name].flags.readonly)
      ensures ok ==> snaps == [Snapped(old(snaps)[0], name, Look(old(tab), name))] + old(snaps)[1..]
      ensures ok ==> lost == old(lost)
      ensures !ok ==> frames == old(frames) && snaps == old(snaps) && name in old(tab) &&
                      lost == old(lost) + if Owned(old(tab)[name]) then {old(tab)[name].text} else {}
      ensures !ok || (val.None? && name in old(tab)) ==> name in old(tab) && var e := old(tab)[name];
          tab == old(tab)[name := Entry(e.flags.(strfixed := true, textfixed := true), e.text, e.val)]
      ensures ok && (val.Some? || name !in old(tab)) ==>
          name in tab && tab[name].flags.strfixed && !tab[name].flags.readonly && !tab[name].flags.textfixed &&
              (tab[name].flags.exported <==> aflag || (name in old(tab) && old(tab)[name].flags.exported))
      ensures forall y :: y != name ==> Look(tab, y) == Look(old(tab), y)
      ensures ok ==> Value(tab, name) == if val.Some? then val else Value(old(tab), name)
    {
      hide Sound, SnapOk, NoneGone, NoneGoneBut, Marked, Snapped, Assigned;
      if name !in tab {
        NoRecord(tab, Flat(frames), live, fixed, name);
        GoneBut(tab, Flat(frames), name);
        if val.Some? {
          ok := SetVarEq(name, val.value, VSTRFIXED, false, false, 0);
        } else {
          ok := SetVar(name, None, VSTRFIXED);
        }
        Started(tab, Flat(frames), live, fixed, name);
        MoreGone(tab, Flat(frames), Rec(name, None));
        MarkedNew(tab, Flat(frames), onStack, name);
        Link(Rec(name, None));
      } else {
        ok := Save(name, val);
      }
    }

    // a new record at the front of the innermost frame
    method Link(r: Rec)
      requires frames != [] && |snaps| == |frames| && forall k :: 0 <= k < |frames| ==> SnapOk(frames[k], snaps[k])
      modifies this`frames, this`snaps
      ensures Flat(frames) == [r] + Flat(old(frames)) && |frames| == |old(frames)| == |snaps|
      ensures frames == [[r] + old(frames)[0]] + old(frames)[1..]
      ensures snaps == [Snapped(old(snaps)[0], r.name, r.saved)] + old(snaps)[1..]
      ensures forall k :: 0 <= k < |frames| ==> SnapOk(frames[k], snaps[k])
    {
      hide SnapOk, Snapped;
      SnapMore(r, frames[0], snaps[0]);
      FlatMore(r, frames);
      snaps := [Snapped(snaps[0], r.name, r.saved)] + snaps[1..];
      frames := [[r] + frames[0]] + frames[1..];
    }

    // mklocal of a variable that exists
    method Save(name: string, val: Option<string>) returns (ok: bool)
      requires Valid() && frames != [] && name in tab
      modifies this
      ensures Valid() && aflag == old(aflag) && frames != [] && frames[1..] == old(frames)[1..]
      ensures ok == !(val.Some? && old(tab)[name].flags.readonly)
      ensures ok ==> snaps == [Snapped(old(snaps)[0], name, Some(old(tab)[name]))] + old(snaps)[1..]
      ensures ok ==> lost == old(lost)
      ensures !ok ==> frames == old(frames) && snaps == old(snaps) &&
                      tab == old(tab)[name := Localised(old(tab)[name])] &&
                      lost == old(lost) + if Owned(old(tab)[name]) then {old(tab)[name].text} else {}
      ensures ok && val.None? ==> tab == old(tab)[name := Localised(old(tab)[name])]
      ensures ok && val.Some? ==>
          name in tab &&
              tab[name].flags == Flags(aflag || old(tab)[name].flags.exported, false, true, false, false, false)
      ensures forall y :: y != name ==> Look(tab, y) == Look(old(tab), y)
      ensures ok && val.Some? ==> Value(tab, name) == val
    {
      hide Sound, SnapOk, NoneGone, Marked, Snapped, Assigned;
      var frames0 := frames;
      ghost var snaps0 := snaps;
      var lvp := Localise(name);
      ok := true;
      if val.Some? {
        GoneBut(tab, Flat(frames), name);
        ok := SetVarEq(name, val.value, NO_FLAGS, false, false, 0);
        if !ok { Abandon(lvp, frames0, snaps0); }
      }
    }

    // the record takes over the text
    method Localise(name: string) returns (lvp: Rec)
      requires Valid() && frames != [] && name in tab
      modifies this`tab, this`frames, this`snaps
      ensures Valid() && lvp == Rec(name, Some(old(tab)[name])) && tab == old(tab)[name := Localised(old(tab)[name])]
      ensures frames == [[lvp] + old(frames)[0]] + old(frames)[1..] && Flat(frames) == [lvp] + Flat(old(frames))
      ensures snaps == [Snapped(old(snaps)[0], name, Some(old(tab)[name]))] + old(snaps)[1..]
    {
      hide Sound, SnapOk, NoneGone, Marked, Snapped;
      ghost var recs := Flat(frames);
      lvp := Rec(name, Some(tab[name]));
      VarTable.Saved(tab, recs, live, fixed, name);
      SavedGone(tab, recs, name);
      MarkedSaved(tab, recs, onStack, name);
      Link(lvp);
      tab := tab[name := Localised(tab[name])];
    }

    // the program leaves without linking the record: its text is never freed
    method Abandon(lvp: Rec, frames0: seq<seq<Rec>>, ghost snaps0: seq<map<string, Option<Entry>>>)
      requires Base() && NoneGone(tab, Flat(frames)) && lvp.saved.Some? && Flat(frames) == [lvp] + Flat(frames0)
      requires |snaps0| == |frames0| && forall k :: 0 <= k < |frames0| ==> SnapOk(frames0[k], snaps0[k])
      modifies this`frames, this`snaps, this`live, this`fixed, this`lost
      ensures Valid() && frames == frames0 && snaps == snaps0
      ensures lost == old(lost) + if Owned(lvp.saved.value) then {lvp.saved.value.text} else {}
    {
      hide Sound, SnapOk, NoneGone, Marked;
      var vp := lvp.saved.value;
      Leaked(tab, Flat(frames0), live, fixed, lvp);
      LeakedMore(tab, Flat(frames0), onStack, lvp);
      frames, snaps := frames0, snaps0;
      if Owned(vp) {
        live, fixed, lost := live - {vp.text}, fixed + {vp.text}, lost + {vp.text};
      }
    }

    // --- poplocalvars ---

    // the first record of the innermost frame goes, and is returned
    method Unlink() returns (lvp: Rec)
      requires frames != [] && frames[0] != []
      modifies this`frames
      ensures lvp == old(frames)[0][0] && frames == [old(frames)[0][1..]] + old(frames)[1..]
      ensures Flat(old(frames)) == [lvp] + Flat(frames) && Flat(old(frames))[1..] == Flat(frames)
    {
      lvp := frames[0][0];
      FlatLess(frames);
      frames := [frames[0][1..]] + frames[1..];
    }

    // the loop body without keep
    method Restore() returns (lvp: Rec)
      requires Base() && NoneGone(tab, Flat(frames)) && frames != [] && frames[0] != []
      modifies this`tab, this`frames, this`live, this`nextText
      ensures Base() && NoneGone(tab, Flat(frames))
      ensures lvp == old(frames)[0][0] && frames == [old(frames)[0][1..]] + old(frames)[1..]
      ensures Back(tab, lvp.name, lvp.saved, aflag) && forall y :: y != lvp.name ==> Look(tab, y) == Look(old(tab), y)
    {
      hide Sound, NoneGone, NoneGoneBut, Marked;
      ghost var recs := Flat(frames);
      lvp := Unlink();
      RecordKept(tab, recs, live, fixed);
      var vp := tab[lvp.name];
      MarkedLess(tab, recs, onStack);
      GoneLess(tab, recs);
      if lvp.saved.None? {
        var e := vp.(flags := vp.flags.(strfixed := false, readonly := false));
        Dropped(tab, recs, live, fixed);
        SameOwner(tab, Flat(frames), live, fixed, lvp.name, e);
        MarkedSame(tab, Flat(frames), onStack, lvp.name, e);
        ButSet(tab, Flat(frames), lvp.name, e);
        tab := tab[lvp.name := e];
        var ok := SetVar(lvp.name, None, NO_FLAGS);
      } else {
        Restored(tab, recs, live, fixed);
        MarkedBack(tab, recs, onStack);
        BackGone(tab, recs);
        if Owned(vp) {
          OwnText(tab, recs, live, fixed, lvp.name);
          Free(vp.text);
        }
        tab := tab[lvp.name := lvp.saved.value];
      }
    }

    // the loop body with keep
    method Keep() returns (lvp: Rec)
      requires Base() && NoneGone(tab, Flat(frames)) && frames != [] && frames[0] != []
      modifies this`tab, this`frames, this`live, this`nextText
      ensures Base() && NoneGone(tab, Flat(frames))
      ensures lvp == old(frames)[0][0] && frames == [old(frames)[0][1..]] + old(frames)[1..]
      ensures forall y :: y != lvp.name ==> Look(tab, y) == Look(old(tab), y)
      ensures KeptAs(old(tab), tab, lvp.name, lvp.saved, aflag)
    {
      hide Sound, NoneGone, NoneGoneBut, Marked;
      ghost var recs := Flat(frames);
      RecordKept(tab, recs, live, fixed);
      lvp := Unsave();
      if Gone(tab[lvp.name].flags) {
        var ok := SetVar(lvp.name, None, NO_FLAGS);
      } else {
        AllGone(tab, Flat(frames), lvp.name);
      }
    }

    // the record goes, and the variable gets the bits that say who frees what
    method Unsave() returns (lvp: Rec)
      requires Base() && NoneGone(tab, Flat(frames)) && frames != [] && frames[0] != []
      modifies this`tab, this`frames, this`live
      ensures Base() && NoneGoneBut(tab, Flat(frames), lvp.name)
      ensures lvp == old(frames)[0][0] && frames == [old(frames)[0][1..]] + old(frames)[1..]
      ensures lvp.name in tab && lvp.name in old(tab) && tab == old(tab)[lvp.name := tab[lvp.name]]
      ensures var e, e0 := tab[lvp.name], old(tab)[lvp.name];
              e.val == e0.val && e.flags == e0.flags.(strfixed := StrFixed(lvp.saved), textfixed := e.flags.textfixed)
    {
      hide Sound, NoneGone, NoneGoneBut, Marked;
      ghost var recs := Flat(frames);
      RecordKept(tab, recs, live, fixed);
      lvp := Unlink();
      MarkedLess(tab, recs, onStack);
      GoneLess(tab, recs);
      var e := Settle(lvp, recs);
      MarkedSame(tab, Flat(frames), onStack, lvp.name, e);
      ButSet(tab, Flat(frames), lvp.name, e);
      tab := tab[lvp.name := e];
    }

    // who frees the texts from now on: the entry e is to replace that of the variable
    method Settle(lvp: Rec, ghost recs: seq<Rec>) returns (e: Entry)
      requires recs != [] && recs[0] == lvp && recs[1..] == Flat(frames) && lvp.name in tab
      requires Sound(tab, recs, live, fixed) && Marked(tab, recs, onStack)
      modifies this`live
      ensures Sound(tab[lvp.name := e], Flat(frames), live, fixed) && live <= old(live)
      ensures var e0 := tab[lvp.name];
              e == e0.(flags := e0.flags.(strfixed := StrFixed(lvp.saved), textfixed := e.flags.textfixed))
    {
      hide Sound, Marked;
      RecordKept(tab, recs, live, fixed);
      var vp := tab[lvp.name];
      e := vp.(flags := vp.flags.(strfixed := StrFixed(lvp.saved)));
      if lvp.saved.Some? && vp.text == lvp.saved.value.text {
        e := e.(flags := e.flags.(textfixed := lvp.saved.value.flags.textfixed));
        SameStack(tab, recs, onStack);
        TakenBack(tab, recs, live, fixed, e);
      } else {
        if lvp.saved.Some? {
          DroppedSaved(tab, recs, live, fixed);
          if Owned(lvp.saved.value) { Free(lvp.saved.value.text); }
        } else {
          Dropped(tab, recs, live, fixed);
        }
        SameOwner(tab, Flat(frames), live, fixed, lvp.name, e);
      }
    }

    method PopLocalVars(keep: bool)
      requires Valid() && frames != []
      modifies this`tab, this`frames, this`live, this`nextText, this`snaps
      ensures Valid() && frames == old(frames)[1..] && snaps == old(snaps)[1..]
      ensures forall x :: x !in old(snaps)[0] ==> Look(tab, x) == Look(old(tab), x)
      ensures !keep ==> forall x :: x in old(snaps)[0] ==> Back(tab, x, old(snaps)[0][x], aflag)
      ensures keep ==> forall x :: x in old(snaps)[0] ==> KeptAs(old(tab), tab, x, old(snaps)[0][x], aflag)
    {
      hide Sound, Marked, NoneGone, SnapOk, Back, KeptAs, PopState;
      ghost var snap, outer, snaps0 := snaps[0], frames[1..], snaps;
      FrameKept(tab, frames, live, fixed);
      PopStart(tab, frames[0], snap, aflag, keep);
      while frames[0] != []
        invariant frames != [] && frames == [frames[0]] + outer && snaps == snaps0 && Base() &&
            NoneGone(tab, Flat(frames))
        invariant PopState(old(tab), tab, frames[0], snap, aflag, keep)
        decreases |frames[0]|
      {
        ghost var tab0, frame0 := tab, frames[0];
        var lvp: Rec;
        if keep { lvp := Keep(); } else { lvp := Restore(); }
        assert frames[0] == frame0[1..];
        FrameKept(tab, frames, live, fixed);
        PopStep(old(tab), tab0, tab, frame0, snap, aflag, keep);
      }
      PopEnd(old(tab), tab, snap, aflag, keep);
      assert Flat(frames) == Flat(frames[1..]);
      assert forall k :: 0 <= k < |outer| ==> SnapOk(outer[k], snaps0[1..][k]);
      frames, snaps := frames[1..], snaps[1..];
    }

    method UnwindLocalVars(stop: nat)
      requires Valid() && stop <= |frames|
      modifies this`tab, this`frames, this`live, this`nextText, this`snaps
      ensures Valid() && frames == old(frames)[|old(frames)| - stop..] && snaps == old(snaps)[|old(frames)| - stop..]
      ensures var popped := old(snaps)[..|old(frames)| - stop]; forall x :: Unwound(old(tab), tab, popped, aflag, x)
    {
      hide Base, NoneGone, SnapOk, Back, Unwound;
      ghost var i := 0;
      forall x ensures Unwound(tab, tab, [], aflag, x) { NoneUnwound(tab, aflag, x); }
      while |frames| > stop
        invariant Valid() && i <= |old(frames)| && |old(snaps)| == |old(frames)| && |frames| >= stop
        invariant frames == old(frames)[i..] && snaps == old(snaps)[i..]
        invariant forall x :: Unwound(old(tab), tab, old(snaps)[..i], aflag, x)
        decreases |frames|
      {
        ghost var tab1, snap := tab, snaps[0];
        PopLocalVars(false);
        i := i + 1;
        ghost var done := old(snaps)[..i];
        assert done[..|done| - 1] == old(snaps)[..i - 1];
        forall x ensures Unwound(old(tab), tab, done, aflag, x) { UnwindStep(old(tab), tab1, tab, done, aflag, x); }
      }
    }

    // --- Whole runs ---

    // a command at top level: after an error the unfinished calls are unwound
    method Command(body: seq<Op>) returns (ok: bool)
      requires Valid() && frames == []
      modifies this
      ensures Valid() && frames == [] && aflag == old(aflag)
      ensures ok ==> forall x :: !Touched(body, x) ==> Like(Look(old(tab), x), Look(tab, x), aflag)
    {
      hide Base, NoneGone, SnapOk, Touched, Like, Unwound;
      ok := Call(body);
      if !ok { UnwindLocalVars(0); }
    }

    // a function call: what its body does to variables it has made local first does not outlast it
    method Call(body: seq<Op>) returns (ok: bool)
      requires Valid()
      modifies this
      ensures aflag == old(aflag) && Valid()
      ensures if ok then frames == old(frames) && snaps == old(snaps) else Above(frames, old(frames))
      ensures ok ==> forall x :: !Touched(body, x) ==> Like(Look(old(tab), x), Look(tab, x), aflag)
      decreases body, 1
    {
      hide Base, NoneGone, SnapOk, Back, Touched, Like;
      PushLocalVars();
      ok := Run(body);
      if ok {
        ghost var tab1, snap := tab, snaps[0];
        PopLocalVars(false);
        forall x | !Touched(body, x) ensures Like(Look(old(tab), x), Look(tab, x), aflag) {
          CallX(old(tab), tab1, tab, snap, body, aflag, x);
        }
      }
    }

    // an error leaves at once, with the frames of unfinished calls still there
    method Run(ops: seq<Op>) returns (ok: bool)
      requires Valid() && frames != []
      modifies this
      ensures aflag == old(aflag) && Valid() && Above(frames, old(frames)[1..])
      ensures ok ==> frames[1..] == old(frames)[1..] && snaps[1..] == old(snaps)[1..]
      ensures ok ==> forall x :: RunX(old(tab), tab, old(snaps)[0], snaps[0], ops, aflag, x)
      decreases ops, 0
    {
      hide Base, NoneGone, SnapOk, RunX;
      ok := true;
      if ops != [] {
        ok := Do(ops[0]);
        if ok {
          ghost var tab1, snap1 := tab, snaps[0];
          ok := Run(ops[1..]);
          if ok {
            forall x ensures RunX(old(tab), tab, old(snaps)[0], snaps[0], ops, aflag, x) {
              RunStep(old(tab), tab1, tab, old(snaps)[0], snap1, snaps[0], ops, aflag, x);
            }
          }
        }
      } else {
        forall x ensures RunX(tab, tab, snaps[0], snaps[0], [], aflag, x) { NoRun(tab, snaps[0], aflag, x); }
      }
    }

    method Do(op: Op) returns (ok: bool)
      requires Valid() && frames != []
      modifies this
      ensures aflag == old(aflag) && Valid() && Above(frames, old(frames)[1..])
      ensures ok ==> frames[1..] == old(frames)[1..] && snaps[1..] == old(snaps)[1..]
      ensures ok ==> forall x :: DoX(old(tab), tab, old(snaps)[0], snaps[0], op, aflag, x)
      decreases op, 2
    {
      hide Sound, Marked, NoneGone, SnapOk;
      match op
      case Assign(x, v, f) =>
        GoneBut(tab, Flat(frames), x);
        ok := SetVar(x, Some(v), f.(textfixed := false, stacked := false));
      case Unset(x) => ok := UnsetVar(x);
      case Local(x, v) => ok := MkLocal(x, v);
      case Function(body) => ok := Call(body);
    }
  }

  // fs0 with further frames inside
  ghost predicate Above(fs: seq<seq<Rec>>, fs0: seq<seq<Rec>>) { |fs| > |fs0| && fs[|fs| - |fs0|..] == fs0 }

  // the table after an assignment with text t
  function SetTable(tab: Table, name: string, val: string, flags: Flags, t: nat): (r: Table) {
    if Gone(flags) && (name in tab ==> !tab[name].flags.strfixed) then tab - {name}
    else tab[name := Entry(if name in tab then Merge(flags, tab[name].flags) else flags, t, val)]
  }

  // an assignment gives the variable its value and the flags of the call, and those of export and of a fixed
  // entry stay; it is not kept for nothing, and no other variable changes
  ghost predicate Assigned(tab0: Table, tab: Table, name: string, val: string, f: Flags, aflag: bool) {
    var exported := f.exported || aflag || (name in tab0 && tab0[name].flags.exported);
    var strfixed := f.strfixed || (name in tab0 && tab0[name].flags.strfixed);
    && (name !in tab <==> f.unset && !f.exported && !aflag && !f.readonly && !strfixed)
    && (name in tab ==>
          && tab[name].val == val
          && tab[name].flags == Flags(exported, f.readonly, strfixed, f.textfixed, f.stacked, f.unset))
    && forall y :: y != name ==> (y in tab <==> y in tab0) && (y in tab ==> tab[y] == tab0[y])
  }

  lemma SetAssigned(tab: Table, name: string, val: string, f: Flags, aflag: bool)
    requires name in tab ==> !tab[name].flags.readonly
    ensures forall t :: Assigned(tab, SetTable(tab, name, val, Exporting(f, aflag), t), name, val, f, aflag)
  {
  }

  lemma Unheld(tab: Table, recs: seq<Rec>, live: set<nat>, fixed: set<nat>, t: nat)
    requires Sound(tab, recs, live, fixed) && t !in live && t !in fixed
    ensures Spare(tab, recs, t)
  {
  }

  lemma NoRecord(tab: Table, recs: seq<Rec>, live: set<nat>, fixed: set<nat>, x: string)
    requires Sound(tab, recs, live, fixed) && x !in tab
    ensures forall i :: 0 <= i < |recs| ==> recs[i].name != x
  {
  }

  lemma GoneBut(tab: Table, recs: seq<Rec>, x: string)
    requires NoneGone(tab, recs)
    ensures NoneGoneBut(tab, recs, x)
  {
  }

  lemma FlatMore(r: Rec, fs: seq<seq<Rec>>)
    requires fs != []
    ensures Flat([[r] + fs[0]] + fs[1..]) == [r] + Flat(fs)
  {
    FlatCons([r] + fs[0], fs[1..]);
    Assoc([r], fs[0], Flat(fs[1..]));
  }

  lemma FlatCons(f: seq<Rec>, fs: seq<seq<Rec>>)
    ensures Flat([f] + fs) == f + Flat(fs)
  {
    assert ([f] + fs)[1..] == fs;
  }

  lemma LiveNotFixed(tab: Table, recs: seq<Rec>, live: set<nat>, fixed: set<nat>)
    requires Sound(tab, recs, live, fixed)
    ensures live !! fixed
  {
  }

  lemma MoreGone(tab: Table, recs: seq<Rec>, r: Rec)
    requires NoneGone(tab, recs) && (r.saved.Some? ==> !Gone(r.saved.value.flags))
    ensures NoneGone(tab, [r] + recs)
  {
  }

  lemma SavedGone(tab: Table, recs: seq<Rec>, x: string)
    requires NoneGone(tab, recs) && x in tab
    ensures NoneGone(tab[x := Localised(tab[x])], [Rec(x, Some(tab[x]))] + recs)
  {
  }

  // a record that is lost with its text
  lemma Leaked(tab: Table, recs: seq<Rec>, live: set<nat>, fixed: set<nat>, r: Rec)
    requires Sound(tab, [r] + recs, live, fixed) && r.saved.Some?
    ensures var t := r.saved.value.text;
            if Owned(r.saved.value) then t in live && Sound(tab, recs, live - {t}, fixed + {t})
                else Sound(tab, recs, live, fixed)
  {
    var all, t := [r] + recs, r.saved.value.text;
    assert all[0] == r && all[1..] == recs;
    DroppedKept(tab, all);
    DroppedOwning(tab, all, live);
    LeakedBacked(tab, recs, fixed, r);
  }

  lemma LeakedBacked(tab: Table, recs: seq<Rec>, fixed: set<nat>, r: Rec)
    requires Backed(tab, [r] + recs, fixed) && r.saved.Some?
    ensures Backed(tab, recs, if Owned(r.saved.value) then fixed + {r.saved.value.text} else fixed)
  {
    hide OwnedLater;
    var all := [r] + recs;
    assert all[0] == r && all[1..] == recs;
    forall y | y in tab && !Owned(tab[y])
      ensures tab[y].text in fixed || (Owned(r.saved.value) && tab[y].text == r.saved.value.text) ||
          OwnedLater(recs, 0, y, tab[y].text)
    {
      LaterShift(r, recs, 0, y, tab[y].text);
      if !HoldsText(r, tab[y].text) { TextFirst(all, y, tab[y].text); }
    }
    forall i | 0 <= i < |recs| && recs[i].saved.Some? && !Owned(recs[i].saved.value)
      ensures recs[i].saved.value.text in fixed || OwnedLater(recs, i + 1, recs[i].name, recs[i].saved.value.text)
    {
      assert all[i + 1] == recs[i];
      LaterShift(r, recs, i + 1, recs[i].name, recs[i].saved.value.text);
    }
  }

  lemma StoredGone(tab: Table, recs: seq<Rec>, x: string, e: Entry)
    requires NoneGoneBut(tab, recs, x) && !Gone(e.flags)
    ensures NoneGone(tab[x := e], recs)
  {
  }

  lemma RemovedGone(tab: Table, recs: seq<Rec>, x: string)
    requires NoneGoneBut(tab, recs, x)
    ensures NoneGone(tab - {x}, recs)
  {
  }

  // --- What popping does ---

  // x is again what it was; under set -a a new variable stays as an exported one without a value
  ghost predicate Back(tab: Table, x: string, was: Option<Entry>, aflag: bool) {
    if was.Some? then Look(tab, x) == was
    else if aflag then x in tab && Owned(tab[x]) && tab[x].flags == NO_FLAGS.(exported := true, unset := true)
    else x !in tab
  }

  // so it is restored exactly when it existed or set -a is off
  lemma BackExactly(tab: Table, x: string, was: Option<Entry>, aflag: bool)
    requires Back(tab, x, was, aflag)
    ensures Look(tab, x) == was <==> was.Some? || !aflag
    ensures was.None? ==> Value(tab, x).None?
  {
  }

  predicate StrFixed(was: Option<Entry>) { was.Some? && was.value.flags.strfixed }

  // x has kept its value and flags, except that it can be removed again if it could before; then it is, if nothing
  // keeps it
  ghost predicate KeptAs(tab0: Table, tab: Table, x: string, was: Option<Entry>, aflag: bool) {
    x in tab0 &&
    var f := tab0[x].flags.(strfixed := was.Some? && was.value.flags.strfixed);
    if f.unset && !f.exported && !f.readonly && !f.strfixed then Back(tab, x, None, aflag)
    else x in tab && tab[x].val == tab0[x].val && tab[x].flags == f.(textfixed := tab[x].flags.textfixed)
  }

  lemma KeptValue(tab0: Table, tab: Table, x: string, was: Option<Entry>, aflag: bool)
    requires KeptAs(tab0, tab, x, was, aflag)
    ensures Value(tab, x) == Value(tab0, x)
  {
  }

  // x has the value and flags it had, but perhaps those about its memory
  ghost predicate Still(tab0: Table, tab: Table, x: string) {
    x in tab0 && x in tab && tab[x].val == tab0[x].val &&
    tab[x].flags == tab0[x].flags.(strfixed := true, textfixed := tab[x].flags.textfixed)
  }

  ghost predicate PopX(tab0: Table, tab: Table, frame: seq<Rec>, snap: map<string, Option<Entry>>, aflag: bool,
      keep: bool, x: string) {
    && (HasRec(frame, x) ==> x in snap && Oldest(frame, x) == snap[x] && (keep ==> Still(tab0, tab, x)))
    && (x !in snap ==> Look(tab, x) == Look(tab0, x))
    && (x in snap && !HasRec(frame, x) ==>
        if keep then KeptAs(tab0, tab, x, snap[x], aflag) else Back(tab, x, snap[x], aflag))
  }

  // the records of frame are still to be taken off
  ghost predicate PopState(tab0: Table, tab: Table, frame: seq<Rec>, snap: map<string, Option<Entry>>, aflag: bool,
      keep: bool) {
    forall x :: PopX(tab0, tab, frame, snap, aflag, keep, x)
  }

  ghost predicate FrameIn(tab: Table, frame: seq<Rec>) {
    forall x :: HasRec(frame, x) ==> x in tab && tab[x].flags.strfixed
  }

  lemma FrameKept(tab: Table, frames: seq<seq<Rec>>, live: set<nat>, fixed: set<nat>)
    requires Sound(tab, Flat(frames), live, fixed) && frames != []
    ensures FrameIn(tab, frames[0])
  {
    forall x | HasRec(frames[0], x) ensures x in tab && tab[x].flags.strfixed {
      var i :| 0 <= i < |frames[0]| && frames[0][i].name == x;
      assert Flat(frames)[i] == frames[0][i];
    }
  }

  lemma PopStart(tab: Table, frame: seq<Rec>, snap: map<string, Option<Entry>>, aflag: bool, keep: bool)
    requires SnapOk(frame, snap) && FrameIn(tab, frame)
    ensures PopState(tab, tab, frame, snap, aflag, keep)
  {
    hide HasRec, Oldest;
  }

  lemma PopStep(tab0: Table, tab1: Table, tab: Table, frame: seq<Rec>, snap: map<string, Option<Entry>>, aflag: bool,
      keep: bool)
    requires frame != [] && PopState(tab0, tab1, frame, snap, aflag, keep) && FrameIn(tab, frame[1..])
    requires forall y :: y != frame[0].name ==> Look(tab, y) == Look(tab1, y)
    requires var r := frame[0];
        if keep then KeptAs(tab1, tab, r.name, r.saved, aflag) else Back(tab, r.name, r.saved, aflag)
    ensures PopState(tab0, tab, frame[1..], snap, aflag, keep)
  {
    hide HasRec, Oldest, Back, KeptAs, Still;
    var r, rest := frame[0], frame[1..];
    assert frame == [r] + rest;
    forall x ensures PopX(tab0, tab, rest, snap, aflag, keep, x) {
      assert PopX(tab0, tab1, frame, snap, aflag, keep, x);
      HasFirst(r, rest, x);
      if x != r.name {
        OtherStep(tab0, tab1, tab, if x in snap then snap[x] else None, aflag, x);
      } else if keep {
        assert Still(tab0, tab1, x);
        KeepStep(tab0, tab1, tab, r.saved, aflag, x);
      }
    }
  }

  lemma OtherStep(tab0: Table, tab1: Table, tab: Table, was: Option<Entry>, aflag: bool, x: string)
    requires Look(tab, x) == Look(tab1, x)
    ensures (Still(tab0, tab1, x) <==> Still(tab0, tab, x)) && (Back(tab1, x, was, aflag) <==> Back(tab, x, was, aflag))
    ensures KeptAs(tab0, tab1, x, was, aflag) <==> KeptAs(tab0, tab, x, was, aflag)
  {
  }

  lemma KeepStep(tab0: Table, tab1: Table, tab: Table, was: Option<Entry>, aflag: bool, x: string)
    requires Still(tab0, tab1, x) && KeptAs(tab1, tab, x, was, aflag)
    ensures KeptAs(tab0, tab, x, was, aflag) && (x in tab && tab[x].flags.strfixed ==> Still(tab0, tab, x))
  {
    var f0, f1 := tab0[x].flags.(strfixed := StrFixed(was)), tab1[x].flags.(strfixed := StrFixed(was));
    assert f0.(textfixed := false) == f1.(textfixed := false);
    assert Gone(f0) == Gone(f1);
  }

  lemma PopEnd(tab0: Table, tab: Table, snap: map<string, Option<Entry>>, aflag: bool, keep: bool)
    requires PopState(tab0, tab, [], snap, aflag, keep)
    ensures forall x :: x !in snap ==> Look(tab, x) == Look(tab0, x)
    ensures !keep ==> forall x :: x in snap ==> Back(tab, x, snap[x], aflag)
    ensures keep ==> forall x :: x in snap ==> KeptAs(tab0, tab, x, snap[x], aflag)
  {
    hide Oldest, Back, KeptAs;
    forall x ensures x !in snap ==> Look(tab, x) == Look(tab0, x) { assert PopX(tab0, tab, [], snap, aflag, keep, x); }
    forall x | x in snap ensures if keep then KeptAs(tab0, tab, x, snap[x], aflag) else Back(tab, x, snap[x], aflag) {
      assert PopX(tab0, tab, [], snap, aflag, keep, x) && !HasRec([], x);
    }
  }

  // what the outermost of some frames, the innermost first, remembers of x
  ghost function Outermost(snaps: seq<map<string, Option<Entry>>>, x: string): (was: Option<Option<Entry>>) {
    if snaps == [] then None
    else if x in snaps[|snaps| - 1] then Some(snaps[|snaps| - 1][x])
    else Outermost(snaps[..|snaps| - 1], x)
  }

  ghost predicate Unwound(tab0: Table, tab: Table, snaps: seq<map<string, Option<Entry>>>, aflag: bool, x: string) {
    var was := Outermost(snaps, x);
    if was.Some? then Back(tab, x, was.value, aflag) else Look(tab, x) == Look(tab0, x)
  }

  lemma NoneUnwound(tab: Table, aflag: bool, x: string)
    ensures Unwound(tab, tab, [], aflag, x)
  {
  }

  lemma UnwindStep(tab0: Table, tab1: Table, tab: Table, snaps: seq<map<string, Option<Entry>>>, aflag: bool, x: string)
    requires snaps != [] && Unwound(tab0, tab1, snaps[..|snaps| - 1], aflag, x)
    requires var snap := snaps[|snaps| - 1];
        if x in snap then Back(tab, x, snap[x], aflag) else Look(tab, x) == Look(tab1, x)
    ensures Unwound(tab0, tab, snaps, aflag, x)
  {
  }

  // --- Runs ---

  datatype Op = Assign(name: string, val: string, flags: Flags) | Unset(name: string) | Local(name: string,
      value: Option<string>) | Function(body: seq<Op>)

  // a body may change x in the table of its caller: it sets x before it makes x local
  predicate Touched(ops: seq<Op>, x: string)
    decreases ops, 0
  {
    ops != [] && (Touches(ops[0], x) || (!(ops[0].Local? && ops[0].name == x) && Touched(ops[1..], x)))
  }

  predicate Touches(op: Op, x: string)
    decreases op, 1
  {
    match op
    case Assign(y, _, _) => x == y
    case Unset(y) => x == y
    case Local(_, _) => false
    case Function(body) => Touched(body, x)
  }

  // the same, but that under set -a a variable that was not there may be exported without a value
  ghost predicate Like(e0: Option<Entry>, e: Option<Entry>, aflag: bool) {
    e == e0 || (aflag && e0.None? && e.Some? && e.value.flags == NO_FLAGS.(exported := true, unset := true))
  }

  ghost predicate DoX(tab0: Table, tab: Table, snap0: map<string, Option<Entry>>, snap: map<string, Option<Entry>>,
      op: Op, aflag: bool, x: string) {
    && (x in snap0 ==> x in snap && snap[x] == snap0[x])
    && (op.Local? && op.name == x ==> x in snap)
    && (x !in snap0 && x in snap ==> op.Local? && op.name == x && snap[x] == Look(tab0, x))
    && (x !in snap && !Touches(op, x) ==> Like(Look(tab0, x), Look(tab, x), aflag))
  }

  ghost predicate RunX(tab0: Table, tab: Table, snap0: map<string, Option<Entry>>, snap: map<string, Option<Entry>>,
      ops: seq<Op>, aflag: bool, x: string) {
    && (x in snap0 ==> x in snap && snap[x] == snap0[x])
    && (x !in snap0 && x in snap && !Touched(ops, x) ==> Like(Look(tab0, x), snap[x], aflag))
    && (x !in snap && !Touched(ops, x) ==> Like(Look(tab0, x), Look(tab, x), aflag))
  }

  lemma NoRun(tab: Table, snap: map<string, Option<Entry>>, aflag: bool, x: string)
    ensures RunX(tab, tab, snap, snap, [], aflag, x)
  {
  }

  lemma RunStep(tab0: Table, tab1: Table, tab: Table, snap0: map<string, Option<Entry>>, snap1: map<string,
      Option<Entry>>,
                snap: map<string, Option<Entry>>, ops: seq<Op>, aflag: bool, x: string)
    requires ops != [] && DoX(tab0, tab1, snap0, snap1, ops[0], aflag, x) &&
        RunX(tab1, tab, snap1, snap, ops[1..], aflag, x)
    ensures RunX(tab0, tab, snap0, snap, ops, aflag, x)
  {
    hide Touches;
  }

  lemma CallX(tab0: Table, tab1: Table, tab: Table, snap: map<string, Option<Entry>>, body: seq<Op>, aflag: bool,
      x: string)
    requires RunX(tab0, tab1, map[], snap, body, aflag, x) && !Touched(body, x)
    requires if x in snap then Back(tab, x, snap[x], aflag) else Look(tab, x) == Look(tab1, x)
    ensures Like(Look(tab0, x), Look(tab, x), aflag)
  {
  }

  // --- Steps of popping ---

  lemma FlatLess(fs: seq<seq<Rec>>)
    requires fs != [] && fs[0] != []
    ensures Flat(fs) == [fs[0][0]] + Flat([fs[0][1..]] + fs[1..]) && Flat(fs)[1..] == Flat([fs[0][1..]] + fs[1..])
  {
    var fs' := [fs[0][1..]] + fs[1..];
    assert fs[0] == [fs[0][0]] + fs[0][1..] && fs'[1..] == fs[1..];
    Assoc([fs[0][0]], fs[0][1..], Flat(fs[1..]));
  }

  lemma RecordKept(tab: Table, recs: seq<Rec>, live: set<nat>, fixed: set<nat>)
    requires Sound(tab, recs, live, fixed) && recs != []
    ensures recs[0].name in tab && tab[recs[0].name].flags.strfixed
    ensures forall i :: 0 <= i < |recs[1..]| && recs[1..][i].name == recs[0].name ==>
        recs[0].saved.Some? && recs[0].saved.value.flags.strfixed
  {
    forall i | 0 <= i < |recs[1..]| ensures recs[1..][i] == recs[i + 1] { }
  }

  lemma MarkedNew(tab: Table, recs: seq<Rec>, onStack: set<nat>, x: string)
    requires Marked(tab, recs, onStack)
    ensures Marked(tab, [Rec(x, None)] + recs, onStack)
  {
  }

  lemma MarkedLess(tab: Table, recs: seq<Rec>, onStack: set<nat>)
    requires Marked(tab, recs, onStack) && recs != []
    ensures Marked(tab, recs[1..], onStack)
  {
  }

  lemma MarkedSame(tab: Table, recs: seq<Rec>, onStack: set<nat>, x: string, e: Entry)
    requires Marked(tab, recs, onStack) && x in tab && e.text == tab[x].text && e.flags.stacked == tab[x].flags.stacked
    ensures Marked(tab[x := e], recs, onStack)
  {
  }

  lemma MarkedBack(tab: Table, recs: seq<Rec>, onStack: set<nat>)
    requires Marked(tab, recs, onStack) && recs != [] && recs[0].saved.Some?
    ensures Marked(tab[recs[0].name := recs[0].saved.value], recs[1..], onStack)
  {
  }

  lemma SameStack(tab: Table, recs: seq<Rec>, onStack: set<nat>)
    requires Marked(tab, recs, onStack) && recs != [] && recs[0].saved.Some? && recs[0].name in tab
    requires tab[recs[0].name].text == recs[0].saved.value.text
    ensures tab[recs[0].name].flags.stacked == recs[0].saved.value.flags.stacked
  {
  }

  lemma GoneLess(tab: Table, recs: seq<Rec>)
    requires NoneGone(tab, recs) && recs != []
    ensures NoneGone(tab, recs[1..])
  {
  }

  lemma ButSet(tab: Table, recs: seq<Rec>, x: string, e: Entry)
    requires NoneGone(tab, recs)
    ensures NoneGoneBut(tab[x := e], recs, x)
  {
  }

  lemma AllGone(tab: Table, recs: seq<Rec>, x: string)
    requires NoneGoneBut(tab, recs, x) && x in tab && !Gone(tab[x].flags)
    ensures NoneGone(tab, recs)
  {
  }

  lemma BackGone(tab: Table, recs: seq<Rec>)
    requires NoneGone(tab, recs) && recs != [] && recs[0].saved.Some?
    ensures NoneGone(tab[recs[0].name := recs[0].saved.value], recs[1..])
  {
  }

  lemma MarkedGone(tab: Table, recs: seq<Rec>, onStack: set<nat>, x: string)
    requires Marked(tab, recs, onStack)
    ensures Marked(tab - {x}, recs, onStack)
  {
  }

  lemma MarkedSet(tab: Table, recs: seq<Rec>, onStack: set<nat>, x: string, e: Entry)
    requires Marked(tab, recs, onStack) && (e.flags.stacked <==> e.text in onStack)
    ensures Marked(tab[x := e], recs, onStack)
  {
  }

  lemma LeakedMore(tab: Table, recs: seq<Rec>, onStack: set<nat>, r: Rec)
    requires Marked(tab, [r] + recs, onStack) && NoneGone(tab, [r] + recs)
    ensures Marked(tab, recs, onStack) && NoneGone(tab, recs)
  {
    var all := [r] + recs;
    assert forall i :: 0 <= i < |recs| ==> all[i + 1] == recs[i];
  }

  lemma MarkedSaved(tab: Table, recs: seq<Rec>, onStack: set<nat>, x: string)
    requires Marked(tab, recs, onStack) && x in tab
    ensures Marked(tab[x := Localised(tab[x])], [Rec(x, Some(tab[x]))] + recs, onStack)
  {
  }
}
