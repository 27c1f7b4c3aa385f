/** Removals (kernel/di.c): a client that leaves an entity alone once it has
    asked for its removal hears of the removal, whatever else happens. */
module XdiRemoval {
  import opened Words
  import opened XdiFragment
  import opened XdiState
  import opened XdiSafety

  /** All of the REMOVE is out: no fragment of it can follow. */
  predicate AllOut(n: Ent) {
    Assigned(n) && n.req == REMOVE && n.final && !n.part && (n.mInd == 0 || n.xCurrent == |n.x|)
  }

  /** An entity is noted for removal only when its REMOVE is out. */
  predicate RemovalsOut(a: Xdi)
    requires Shape(a)
  {
    forall e: Byte :: a.removePending[e] ==> e in a.ents && AllOut(a.ents[e])
  }

  /** The client keeps away from an entity whose removal is under way. */
  predicate Patient(a: Xdi, ev: Event)
    requires Shape(a)
  {
    ev.Posts? ==> !a.removePending[ev.e]
  }

  /** One entity changes, and is out if it is noted. */
  lemma OneStaysOut(a: Xdi, b: Xdi, e: Byte)
    requires Shape(a) && Shape(b) && RemovalsOut(a) && e in b.ents
    requires b.ents == a.ents[e := b.ents[e]]
    requires forall k: Byte | k != e :: b.removePending[k] == a.removePending[k]
    requires b.removePending[e] ==> AllOut(b.ents[e])
    ensures RemovalsOut(b)
  {
  }

  /** Behind the last byte there is no further fragment to take. */
  lemma NothingLeft(n: Ent)
    requires ValidPos(n.x, n.xCurrent, n.xOffset) && n.xCurrent == |n.x|
    ensures Take(n.x, n.xCurrent, n.xOffset, CHUNK).cur == |n.x|
  {
  }

  lemma SendStaysOut(a: Xdi, ref: Word)
    requires Good(a) && RemovalsOut(a) && a.queue != []
    ensures Good(SendOne(a, ref).a) && RemovalsOut(SendOne(a, ref).a)
  {
    hide Names, Slots, Take;
    SendKeeps(a, ref);
    var e := a.queue[0];
    if e in a.ents {
      if a.ents[e].xCurrent == |a.ents[e].x| {
        NothingLeft(a.ents[e]);
      }
      OneStaysOut(a, SendOne(a, ref).a, e);
    }
  }

  lemma PutStaysOut(a: Xdi, e: Byte, n: Ent, live: bool)
    requires Shape(a) && RemovalsOut(a)
    requires live ==> e in a.ents && ValidPos(n.x, n.xCurrent, n.xOffset) && (a.removePending[e] ==> AllOut(n))
    requires live ==> e != 0
    ensures Shape(Put(a, e, n, live)) && RemovalsOut(Put(a, e, n, live))
  {
  }

  lemma AnswerStaysOut(a: Xdi, e: Byte, n: Ent, live: bool, rc: Byte, id: Byte, ch: Byte, ext: Dword)
    requires Shape(a) && RemovalsOut(a)
    requires live ==> e != 0 && e in a.ents && ValidPos(n.x, n.xCurrent, n.xOffset)
    requires live && a.removePending[e] ==> AllOut(n)
    ensures var b := Answer(a, e, n, live, rc, id, ch, ext).a; Shape(b) && RemovalsOut(b)
  {
    hide RemovalsOut, Put, Settle;
    if rc == OK_FC {
      var b := a.(fcId := a.fcId[ch := id], fcSkip := a.fcSkip[ch := false]);
      SameNotes(a, b);
      PutStaysOut(b, e, Done(n, rc).(count := 0), live);
    } else if ext == RELEASED_FC {
      var b := a.(noCancel := a.noCancel[e := true]);
      SameNotes(a, b);
      PutStaysOut(b, e, n.(rc := rc, complete := 0xff), live);
    } else {
      SettleStaysOut(a, e, n, live, rc, id, ch);
    }
  }

  lemma SettleStaysOut(a: Xdi, e: Byte, n: Ent, live: bool, rc: Byte, id: Byte, ch: Byte)
    requires Shape(a) && RemovalsOut(a)
    requires live ==> e != 0 && e in a.ents && ValidPos(n.x, n.xCurrent, n.xOffset)
    requires live && a.removePending[e] ==> AllOut(n)
    ensures var b := Settle(a, e, n, live, rc, id, ch).a; Shape(b) && RemovalsOut(b)
  {
    hide RemovalsOut, Put;
    if !a.noCancel[e] && a.fcId[ch] == id {
      var b := a.(fcId := a.fcId[ch := 0]);
      SameNotes(a, b);
      var m := if rc != OK || !a.fcSkip[ch] then if ch == n.reqCh then Done(n, rc).(count := 0) else n.(rc := rc) else n;
      PutStaysOut(b, e, m, live);
    } else {
      var m := n.(count := if 0 < n.count then n.count - 1 else 0);
      PutStaysOut(a, e, m, live);
      PutStaysOut(a, e, Done(m, rc), live);
    }
  }

  lemma SameNotes(a: Xdi, b: Xdi)
    requires Shape(a) && RemovalsOut(a) && a.ents == b.ents && a.removePending == b.removePending
    requires |b.idTable| == |b.idType| == |b.fcId| == |b.fcSkip| == |b.noCancel| == 0x100
    ensures Shape(b) && RemovalsOut(b)
  {
  }

  lemma KnownStaysOut(a: Xdi, e: Byte, rc: Byte, id: Byte, ch: Byte, ext: Dword)
    requires Good(a) && RemovalsOut(a) && e != 0 && a.idTable[id] == e
    ensures var b := Known(a, e, rc, id, ch, ext).a; Shape(b) && RemovalsOut(b)
  {
    hide Answer, Slots, Put;
    var n := a.ents[e].(rcCh := ch);
    if !Removes(a, e, rc) {
      AnswerStaysOut(a, e, n, true, rc, id, ch, ext);
    } else if NotYet(a, e, ext) {
      PutStaysOut(a, e, n, true);
    } else {
      var b := Unlinked(a, e, id, ext);
      assert RemovalsOut(b);
      AnswerStaysOut(b, e, n.(id := 0, count := if 1 < n.count then 1 else n.count), false, rc, id, ch, ext);
    }
  }

  lemma ReturnStaysOut(a: Xdi, rc: Byte, id: Byte, ch: Byte, ref: Word, ext: Dword)
    requires Good(a) && RemovalsOut(a) && FairAssign(a, rc, id, ref)
    ensures var b := ReturnCode(a, rc, id, ch, ref, ext).a; Shape(b) && RemovalsOut(b)
  {
    hide Known, Names, Slots;
    if rc != READY_INT && a.idTable[id] != 0 {
      KnownStaysOut(a, a.idTable[id], rc, id, ch, ext);
    }
  }

  /** What a patient client does, and anything the card does, keeps it so. */
  lemma StepStaysOut(a: Xdi, ev: Event)
    requires Good(a) && Enabled(a, ev) && RemovalsOut(a) && Patient(a, ev)
    ensures Good(Step(a, ev)) && RemovalsOut(Step(a, ev))
  {
    hide Good, Names, Slots, Answer, Known, AssignRc, SendOne, ReturnCode;
    StepKeeps(a, ev);
    match ev
    case Posts(e, req, ch, x) =>
      if !a.ents[e].busy {
        OneStaysOut(a, Step(a, ev), e);
      }
    case Assigns(e, id, req, ch, x) =>
      OneStaysOut(a, Step(a, ev), e);
    case Sends(ref) =>
      SendStaysOut(a, ref);
    case EndsBatch(e) =>
      EndStaysOut(a, e);
    case Returns(rc, id, ch, ref, ext) =>
      ReturnStaysOut(a, rc, id, ch, ref, ext);
  }

  lemma EndStaysOut(a: Xdi, e: Byte)
    requires Good(a) && RemovalsOut(a) && (e in a.ents && a.ents[e].req == UREMOVE ==> Assigned(a.ents[e]))
    ensures Shape(EndBatch(a, e)) && RemovalsOut(EndBatch(a, e))
  {
  }

  /** The event completes the removal of the entity. */
  predicate Completes(a: Xdi, ev: Event, e: Byte)
    requires Good(a)
  {
    ev.Returns? && e != 0 && a.idTable[ev.id] == e && Removes(a, e, ev.rc) && !NotYet(a, e, ev.ext)
  }

  /** The event sends the last fragment of a REMOVE for it. */
  predicate SendsRemove(a: Xdi, ev: Event, e: Byte)
    requires Good(a) && Enabled(a, ev)
  {
    ev.Sends? && a.queue[0] == e && e in a.ents && Assigned(a.ents[e]) && a.ents[e].req == REMOVE
    && exists r :: r in SendOne(a, ev.ref).out && r.last
  }

  lemma ReturnNotes(a: Xdi, rc: Byte, id: Byte, ch: Byte, ref: Word, ext: Dword, e: Byte)
    requires Good(a)
    ensures var b := ReturnCode(a, rc, id, ch, ref, ext).a;
            && |b.removePending| == 0x100
            && (b.removePending[e] <==> a.removePending[e] && !Completes(a, Returns(rc, id, ch, ref, ext), e))
  {
    hide Answer, Slots;
    var k := a.idTable[id];
    if k != 0 {
      var n := a.ents[k].(rcCh := ch);
      AnswerNotes(a, k, n, true, rc, id, ch, ext);
      AnswerNotes(Unlinked(a, k, id, ext), k, n.(id := 0, count := if 1 < n.count then 1 else n.count), false, rc, id, ch, ext);
    }
  }

  lemma AnswerNotes(a: Xdi, e: Byte, n: Ent, live: bool, rc: Byte, id: Byte, ch: Byte, ext: Dword)
    requires Shape(a)
    ensures Answer(a, e, n, live, rc, id, ch, ext).a.removePending == a.removePending
  {
  }

  /** An entity is noted for removal from the moment its REMOVE is out until the
      return code that completes it, whatever else happens. */
  lemma NotedIff(a: Xdi, ev: Event, e: Byte)
    requires Good(a) && Enabled(a, ev)
    ensures Good(Step(a, ev))
    ensures Step(a, ev).removePending[e] <==> (a.removePending[e] && !Completes(a, ev, e)) || SendsRemove(a, ev, e)
  {
    hide Names, Slots, Take, ReturnCode;
    StepKeeps(a, ev);
    if ev.Returns? {
      ReturnNotes(a, ev.rc, ev.id, ev.ch, ev.ref, ev.ext, e);
    }
    if ev.Sends? && a.queue[0] in a.ents {
      var out := SendOne(a, ev.ref).out;
      assert out == [out[0]] && out[0] in out;
    }
  }

  predicate PatientRun(a: Xdi, evs: seq<Event>, b: Xdi)
    requires Good(a)
    decreases |evs|
  {
    if evs == [] then a == b
    else
      Enabled(a, evs[0]) && Patient(a, evs[0]) &&
      (StepKeeps(a, evs[0]); PatientRun(Step(a, evs[0]), evs[1..], b))
  }

  /** In every run with patient clients, a return code that completes a removal
      is passed on to the client. */
  lemma {:induction false} RemovalsAreReported(a: Xdi, evs: seq<Event>, b: Xdi)
    requires Good(a) && RemovalsOut(a) && PatientRun(a, evs, b)
    ensures Good(b) && RemovalsOut(b)
    ensures forall id: Byte, ch: Byte, ext: Dword ::
              b.idTable[id] != 0 && Removes(b, b.idTable[id], OK) && !NotYet(b, b.idTable[id], ext) ==>
                Reported(b, id, ch, ext)
    decreases |evs|
  {
    hide Step, Names, Slots, Enabled, Known;
    if evs != [] {
      StepStaysOut(a, evs[0]);
      RemovalsAreReported(Step(a, evs[0]), evs[1..], b);
    } else {
      forall id: Byte, ch: Byte, ext: Dword |
          b.idTable[id] != 0 && Removes(b, b.idTable[id], OK) && !NotYet(b, b.idTable[id], ext)
        ensures Reported(b, id, ch, ext)
      {
        RemovalReachesClient(b, b.idTable[id], id, ch, ext);
      }
    }
  }

  /** The return code OK for an Id makes a callback for its entity, which is
      gone then. */
  predicate Reported(a: Xdi, id: Byte, ch: Byte, ext: Dword)
    requires Good(a)
  {
    var e := a.idTable[id];
    var r := ReturnCode(a, OK, id, ch, 0, ext);
    |r.calls| == 1 && r.calls[0].no == e && r.calls[0].ent.id == 0 && e !in r.a.ents
  }

  lemma Initially()
    ensures RemovalsOut(Empty())
  {
  }

  /** The flags an entity number stands with. */
  datatype Flags = Flags(removePending: bool, noCancel: bool)

  function FlagsOf(a: Xdi, e: Byte): Flags
    requires Shape(a)
  {
    Flags(a.removePending[e], a.noCancel[e])
  }

  /** The next entity with a number starts without flags if the last one was
      removed by a REMOVE, except that released flow control is noted behind it;
      after a UREMOVE it starts with the flags of the last one. */
  lemma FlagsLeftBehind(a: Xdi, e: Byte, ch: Byte, ext: Dword, glob: Byte, req: Byte, x: seq<seq<Byte>>)
    requires Good(a) && e in a.ents && Assigned(a.ents[e])
    ensures Removes(a, e, OK) && !NotYet(a, e, ext) ==>
              var b := Known(a, e, OK, a.ents[e].id, ch, ext).a;
              e !in b.ents && Shape(b) && var c := PostAssign(b, e, glob, req, ch, x);
              Shape(c) && e in c.ents && FlagsOf(c, e) == Flags(false, ext == RELEASED_FC)
    ensures a.ents[e].req == UREMOVE ==>
              var b := EndBatch(a, e);
              e !in b.ents && Shape(b) && var c := PostAssign(b, e, glob, req, ch, x);
              Shape(c) && e in c.ents && FlagsOf(c, e) == FlagsOf(a, e)
  {
    hide Answer, Names, Slots;
    var id := a.ents[e].id;
    if Removes(a, e, OK) && !NotYet(a, e, ext) {
      FlagsAfterRemove(a, e, ch, ext);
    }
    if a.ents[e].req == UREMOVE {
      FlagsAfterUremove(a, e);
    }
  }

  lemma FlagsAfterRemove(a: Xdi, e: Byte, ch: Byte, ext: Dword)
    requires Good(a) && e in a.ents && Assigned(a.ents[e]) && Removes(a, e, OK) && !NotYet(a, e, ext)
    ensures var b := Known(a, e, OK, a.ents[e].id, ch, ext).a;
            Shape(b) && e !in b.ents && FlagsOf(b, e) == Flags(false, ext == RELEASED_FC)
  {
    var id := a.ents[e].id;
    assert Unlinked(a, e, id, ext).fcId[ch] != id;
  }

  lemma FlagsAfterUremove(a: Xdi, e: Byte)
    requires Good(a) && e in a.ents && Assigned(a.ents[e]) && a.ents[e].req == UREMOVE
    ensures var b := EndBatch(a, e); Shape(b) && e !in b.ents && FlagsOf(b, e) == FlagsOf(a, e)
  {
  }

  const FIRST := [Assigns(1, NL_ID, 1, 0, []), Sends(0), Returns(ASSIGN_OK, 0x21, 0, 0, 0)]
  const THEN := [Returns(OK, 0x21, 0, 0, RELEASED_FC), Posts(1, UREMOVE, 0, []), Sends(0)]

  /** And there are runs in which one is set then: an entity is assigned, hears of
      released flow control, and is removed by a UREMOVE. */
  lemma FlagsReached() returns (b: Xdi)
    ensures Runs(Empty(), FIRST + THEN, b)
    ensures Good(b) && 1 in b.ents && Assigned(b.ents[1]) && b.ents[1].req == UREMOVE && b.noCancel[1]
  {
    hide Runs;
    var a := Assigned1();
    b := Uremoved1(a);
    RunsConcat(Empty(), FIRST, a, THEN, b);
    RunKeeps(Empty(), FIRST + THEN, b);
  }

  /** The first entity with its Id, and nothing else. */
  predicate OneEntity(a: Xdi) {
    && Good(a) && a.ents.Keys == {1} && a.idTable[0x21] == 1 && a.ents[1].id == 0x21 && a.queue == []
    && !a.ents[1].busy && a.ents[1].count == 0 && !a.removePending[1] && a.fcId[0] == 0
  }

  lemma Assigned1() returns (a: Xdi)
    ensures Runs(Empty(), FIRST, a) && OneEntity(a)
  {
    var a0 := Empty();
    var a1 := Step(a0, FIRST[0]);
    StepKeeps(a0, FIRST[0]);
    assert a1.queue == [1];
    var a2 := Step(a1, FIRST[1]);
    StepKeeps(a1, FIRST[1]);
    assert a2.assigns[0] == 1 && a2.ents[1].id == NL_ID && a2.queue == [];
    a := Step(a2, FIRST[2]);
    StepKeeps(a2, FIRST[2]);
    RunsThree(a0, FIRST[0], a1, FIRST[1], a2, FIRST[2], a);
  }

  lemma Uremoved1(a: Xdi) returns (b: Xdi)
    requires OneEntity(a)
    ensures Runs(a, THEN, b) && Good(b)
    ensures 1 in b.ents && Assigned(b.ents[1]) && b.ents[1].req == UREMOVE && b.noCancel[1]
  {
    var a1 := Step(a, THEN[0]);
    StepKeeps(a, THEN[0]);
    assert a1.noCancel[1] && !a1.ents[1].busy && a1.queue == [] && a1.ents[1].id == 0x21;
    var a2 := Step(a1, THEN[1]);
    StepKeeps(a1, THEN[1]);
    assert a2.queue == [1] && a2.ents[1].req == UREMOVE;
    b := Step(a2, THEN[2]);
    StepKeeps(a2, THEN[2]);
    RunsThree(a, THEN[0], a1, THEN[1], a2, THEN[2], b);
  }

  lemma RunsThree(a: Xdi, ev0: Event, a1: Xdi, ev1: Event, a2: Xdi, ev2: Event, b: Xdi)
    requires Good(a) && Enabled(a, ev0) && a1 == Step(a, ev0)
    requires Good(a1) && Enabled(a1, ev1) && a2 == Step(a1, ev1)
    requires Good(a2) && Enabled(a2, ev2) && b == Step(a2, ev2) && Good(b)
    ensures Runs(a, [ev0, ev1, ev2], b)
  {
    hide Good, Step, Enabled;
    assert [ev0, ev1, ev2][1..] == [ev1, ev2] && [ev1, ev2][1..] == [ev2] && [ev2][1..] == [];
    assert Runs(b, [], b);
    assert Runs(a2, [ev2], b);
    assert Runs(a1, [ev1, ev2], b);
  }

  lemma {:induction false} RunsConcat(a: Xdi, evs: seq<Event>, b: Xdi, more: seq<Event>, c: Xdi)
    requires Good(a) && Runs(a, evs, b) && Good(b) && Runs(b, more, c)
    ensures Runs(a, evs + more, c)
    decreases |evs|
  {
    hide Good, Step, Enabled;
    if evs == [] {
      assert evs + more == more;
    } else {
      StepKeeps(a, evs[0]);
      RunsConcat(Step(a, evs[0]), evs[1..], b, more, c);
      assert (evs + more)[1..] == evs[1..] + more;
    }
  }
}
