/** What every step of the protocol keeps of the adapter's tables, and what a
    completed removal does. */
module XdiSafety {
  import opened Words
  import opened XdiFragment
  import opened XdiState

  datatype Event =
    | Posts(e: Byte, req: Byte, ch: Byte, x: seq<seq<Byte>>)
    | Assigns(e: Byte, id: Byte, req: Byte, ch: Byte, x: seq<seq<Byte>>)
    | Sends(ref: Word)
    | EndsBatch(e: Byte)
    | Returns(rc: Byte, id: Byte, ch: Byte, ref: Word, ext: Dword)

  /** What may happen next: clients post for entities they have, or ask for a new
      one with one of the global Ids; the card is fair. */
  predicate Enabled(a: Xdi, ev: Event)
    requires Shape(a)
  {
    match ev
    case Posts(e, _, _, _) => e in a.ents
    case Assigns(e, id, req, _, _) => e != 0 && e !in a.ents && id % 0x20 == 0 && req != UREMOVE
    case Sends(_) => a.queue != []
    case EndsBatch(e) => e in a.ents && a.ents[e].req == UREMOVE ==> Assigned(a.ents[e])
    case Returns(rc, id, _, ref, _) => FairAssign(a, rc, id, ref)
  }

  function Step(a: Xdi, ev: Event): Xdi
    requires Good(a) && Enabled(a, ev)
  {
    match ev
    case Posts(e, req, ch, x) => Post(a, e, req, ch, x)
    case Assigns(e, id, req, ch, x) => PostAssign(a, e, id, req, ch, x)
    case Sends(ref) => SendOne(a, ref).a
    case EndsBatch(e) => EndBatch(a, e)
    case Returns(rc, id, ch, ref, ext) => ReturnCode(a, rc, id, ch, ref, ext).a
  }

  lemma FreeKeeps(a: Xdi, e: Byte, id: Byte)
    requires Good(a) && a.idTable[id] == e
    ensures Good(Free(a, e, id))
    ensures forall ch: Byte :: id != 0 ==> Free(a, e, id).fcId[ch] != id
  {
  }

  /** Sending touches neither the Id tables nor the Id of the entity. */
  lemma DispatchKeeps(a: Xdi, e: Byte, n: Ent, data: seq<Byte>, left: bool, ref: Word)
    requires Good(a) && e in a.ents && n.id == a.ents[e].id && ValidPos(n.x, n.xCurrent, n.xOffset)
    ensures Good(Dispatch(a, e, n, data, left, ref).a)
  {
    hide Names, Slots;
    var s := Dispatch(a, e, n, data, left, ref).a;
    var b := s.(ents := a.ents);
    SameNames(a, b);
    SameSlots(a, b);
    PutKeeps(b, e, s.ents[e], true);
    assert s == Put(b, e, s.ents[e], true);
  }

  lemma SendKeeps(a: Xdi, ref: Word)
    requires Good(a) && a.queue != []
    ensures Good(SendOne(a, ref).a)
  {
    hide Take, Names, Slots, Dispatch;
    var e, b := a.queue[0], a.(queue := a.queue[1..]);
    SameNames(a, b);
    SameSlots(a, b);
    if e in a.ents {
      var n := a.ents[e];
      var t := Take(n.x, n.xCurrent, n.xOffset, CHUNK);
      DispatchKeeps(b, e, n.(xCurrent := t.cur, xOffset := t.off), t.data, t.cur < |n.x|, ref);
    }
  }

  lemma PutKeeps(a: Xdi, e: Byte, n: Ent, live: bool)
    requires Good(a)
    requires live ==> e in a.ents && n.id == a.ents[e].id && ValidPos(n.x, n.xCurrent, n.xOffset)
    ensures Good(Put(a, e, n, live))
  {
  }

  lemma AnswerKeeps(a: Xdi, e: Byte, n: Ent, live: bool, rc: Byte, id: Byte, ch: Byte, ext: Dword)
    requires Good(a)
    requires live ==> e in a.ents && n.id == a.ents[e].id && ValidPos(n.x, n.xCurrent, n.xOffset)
    requires rc == OK_FC ==> a.idTable[id] != 0
    ensures Good(Answer(a, e, n, live, rc, id, ch, ext).a)
  {
    hide Names, Put;
    var r := Answer(a, e, n, live, rc, id, ch, ext);
    if rc == OK_FC {
      var b := a.(fcId := a.fcId[ch := id], fcSkip := a.fcSkip[ch := false]);
      SameNames(a, b);
      PutKeeps(b, e, Done(n, rc).(count := 0), live);
    } else if ext == RELEASED_FC {
      var b := a.(noCancel := a.noCancel[e := true]);
      SameNames(a, b);
      PutKeeps(b, e, n.(rc := rc, complete := 0xff), live);
    } else if !a.noCancel[e] && a.fcId[ch] == id {
      var b := a.(fcId := a.fcId[ch := 0]);
      SameNames(a, b);
      var m := if rc != OK || !a.fcSkip[ch] then if ch == n.reqCh then Done(n, rc).(count := 0) else n.(rc := rc) else n;
      PutKeeps(b, e, m, live);
    } else {
      var m := n.(count := if 0 < n.count then n.count - 1 else 0);
      PutKeeps(a, e, m, live);
      PutKeeps(a, e, Done(m, rc), live);
    }
  }

  lemma SameNames(a: Xdi, b: Xdi)
    requires Good(a) && Shape(b) && a.idTable == b.idTable && a.ents == b.ents
    ensures Names(b)
  {
  }

  lemma KnownKeeps(a: Xdi, e: Byte, rc: Byte, id: Byte, ch: Byte, ext: Dword)
    requires Good(a) && e != 0 && a.idTable[id] == e
    ensures Good(Known(a, e, rc, id, ch, ext).a)
  {
    hide Answer, Slots, Free, Put;
    var n := a.ents[e].(rcCh := ch);
    if !Removes(a, e, rc) {
      AnswerKeeps(a, e, n, true, rc, id, ch, ext);
    } else if NotYet(a, e, ext) {
      PutKeeps(a, e, n, true);
    } else {
      var b := a.(rcExtension := a.rcExtension || (a.idType[e] == NL_ID && ext == REMOVE_COMPLETE),
                  removePending := a.removePending[e := false],
                  noCancel := a.noCancel[e := false]);
      SameNames(a, b);
      SameSlots(a, b);
      FreeKeeps(b, e, id);
      assert Unlinked(a, e, id, ext) == Free(b, e, id);
      AnswerKeeps(Free(b, e, id), e, n.(id := 0, count := if 1 < n.count then 1 else n.count), false, rc, id, ch, ext);
    }
  }

  lemma SameSlots(a: Xdi, b: Xdi)
    requires Good(a) && Shape(b) && a.idTable == b.idTable && a.fcId == b.fcId
    ensures Slots(b)
  {
  }

  lemma AssignKeeps(a: Xdi, e: Byte, rc: Byte, id: Byte)
    requires Good(a) && e in a.ents && a.idTable[id] == 0 && id % 0x20 != 0 && !Assigned(a.ents[e])
    ensures Good(AssignRc(a, e, rc, id).a)
  {
  }

  /** The tables stay consistent, whatever happens in whatever order. */
  lemma StepKeeps(a: Xdi, ev: Event)
    requires Good(a) && Enabled(a, ev)
    ensures Good(Step(a, ev))
  {
    match ev
    case Posts(e, req, ch, x) =>
      PostKeeps(a, e, req, ch, x);
    case Assigns(e, id, req, ch, x) =>
      var n := Ent(id, req, ch, 0, 0, false, false, false, [], 0, 0, 0, 0, 0);
      NewKeeps(a, e, n);
      PostKeeps(a.(ents := a.ents[e := n]), e, req, ch, x);
    case Sends(ref) =>
      SendKeeps(a, ref);
    case EndsBatch(e) =>
      if e in a.ents && a.ents[e].req == UREMOVE && a.ents[e].id != 0 {
        FreeKeeps(a, a.idTable[a.ents[e].id], a.ents[e].id);
      }
    case Returns(rc, id, ch, ref, ext) =>
      ReturnKeeps(a, rc, id, ch, ref, ext);
  }

  lemma PostKeeps(a: Xdi, e: Byte, req: Byte, ch: Byte, x: seq<seq<Byte>>)
    requires Good(a) && e in a.ents
    ensures Good(Post(a, e, req, ch, x))
  {
  }

  lemma NewKeeps(a: Xdi, e: Byte, n: Ent)
    requires Good(a) && e != 0 && e !in a.ents && !Assigned(n) && ValidPos(n.x, n.xCurrent, n.xOffset)
    ensures Good(a.(ents := a.ents[e := n]))
  {
  }

  lemma ReturnKeeps(a: Xdi, rc: Byte, id: Byte, ch: Byte, ref: Word, ext: Dword)
    requires Good(a) && FairAssign(a, rc, id, ref)
    ensures Good(ReturnCode(a, rc, id, ch, ref, ext).a)
  {
    hide Known, AssignRc;
    if rc != READY_INT {
      if a.idTable[id] != 0 {
        KnownKeeps(a, a.idTable[id], rc, id, ch, ext);
      } else if rc / 0x10 == 0xe && ref in a.assigns && a.assigns[ref] in a.ents {
        AssignKeeps(a, a.assigns[ref], rc, id);
      }
    }
  }

  /** A run of the driver: each event enabled when it happens. */
  predicate Runs(a: Xdi, evs: seq<Event>, b: Xdi)
    requires Good(a)
    decreases |evs|
  {
    if evs == [] then a == b
    else
      Enabled(a, evs[0]) && (StepKeeps(a, evs[0]); Runs(Step(a, evs[0]), evs[1..], b))
  }

  /** In every run, a flow controlled channel belongs to an Id in the table, an
      Id in the table to an entity that bears it; so whenever an Id leaves the
      table, no channel is left to it. */
  lemma {:induction false} RunKeeps(a: Xdi, evs: seq<Event>, b: Xdi)
    requires Good(a) && Runs(a, evs, b)
    ensures Good(b)
    ensures forall ch: Byte, id: Byte :: id != 0 && b.idTable[id] == 0 ==> b.fcId[ch] != id
    decreases |evs|
  {
    hide Step, Names, Enabled;
    if evs != [] {
      StepKeeps(a, evs[0]);
      RunKeeps(Step(a, evs[0]), evs[1..], b);
    }
  }

  // ------------------------------------------------------------------ ASSIGN

  /** An entity without an Id is waiting for the answer to the ASSIGN with this
      reference. */
  predicate AssignWaits(a: Xdi, e: Byte, ref: Word) {
    ref in a.assigns && a.assigns[ref] == e && e in a.ents && !Assigned(a.ents[e])
  }

  /** The ASSIGN at the head of the queue goes out whole, under the global Id,
      and its entity waits for the answer. */
  lemma AssignGoesOut(a: Xdi, ref: Word)
    requires Good(a) && a.queue != [] && a.queue[0] in a.ents && !Assigned(a.ents[a.queue[0]])
    ensures var e, s := a.queue[0], SendOne(a, ref); var n := a.ents[e];
            && s.out == [Request(e, n.id, n.reqCh, n.req, Take(n.x, n.xCurrent, n.xOffset, CHUNK).data, true)]
            && Good(s.a) && AssignWaits(s.a, e, ref) && s.a.queue == a.queue[1..] && s.a.idTable == a.idTable
            && s.a.ents[e].id == n.id == s.a.idType[e]
  {
    hide Names, Slots, Take;
    SendKeeps(a, ref);
  }

  /** A code that completes the removal of a network entity, and says so. */
  predicate Teaches(a: Xdi, ev: Event)
    requires Good(a)
  {
    ev.Returns? && var e := a.idTable[ev.id];
    e != 0 && Removes(a, e, ev.rc) && a.idType[e] == NL_ID && ev.ext == REMOVE_COMPLETE
  }

  lemma AnswerOnly(a: Xdi, e: Byte, n: Ent, live: bool, rc: Byte, id: Byte, ch: Byte, ext: Dword)
    requires Shape(a)
    ensures var b := Answer(a, e, n, live, rc, id, ch, ext).a;
            b.rcExtension == a.rcExtension && b.assigns == a.assigns
  {
  }

  lemma ReturnOnly(a: Xdi, rc: Byte, id: Byte, ch: Byte, ref: Word, ext: Dword)
    requires Good(a)
    ensures var b := ReturnCode(a, rc, id, ch, ref, ext).a;
            && b.assigns == a.assigns
            && (b.rcExtension <==> a.rcExtension || Teaches(a, Returns(rc, id, ch, ref, ext)))
  {
    hide Answer, Slots;
    var e := a.idTable[id];
    if e != 0 {
      var n := a.ents[e].(rcCh := ch);
      AnswerOnly(a, e, n, true, rc, id, ch, ext);
      AnswerOnly(Unlinked(a, e, id, ext), e, n.(id := 0, count := if 1 < n.count then 1 else n.count), false, rc, id, ch, ext);
    }
  }

  lemma StepOnly(a: Xdi, ev: Event)
    requires Good(a) && Enabled(a, ev)
    ensures Step(a, ev).rcExtension <==> a.rcExtension || Teaches(a, ev)
    ensures forall ref | ref in a.assigns && ev != Sends(ref) ::
              ref in Step(a, ev).assigns && Step(a, ev).assigns[ref] == a.assigns[ref]
  {
    hide Names, Slots, Take, ReturnCode;
    if ev.Returns? {
      ReturnOnly(a, ev.rc, ev.id, ev.ch, ev.ref, ev.ext);
    }
  }

  /** It stays the one that is waiting under the reference until another ASSIGN
      goes out with it. */
  lemma {:induction false} ReferenceStays(a: Xdi, evs: seq<Event>, b: Xdi, ref: Word)
    requires Good(a) && Runs(a, evs, b) && ref in a.assigns && Sends(ref) !in evs
    ensures ref in b.assigns && b.assigns[ref] == a.assigns[ref]
    decreases |evs|
  {
    hide Step, Good, Enabled;
    if evs != [] {
      StepKeeps(a, evs[0]);
      StepOnly(a, evs[0]);
      assert evs[0] in evs;
      ReferenceStays(Step(a, evs[0]), evs[1..], b, ref);
    }
  }

  /** The answer: a new Id in the table and at the entity, or no entity, no Id and
      no slot for it. Either way the client hears of it, once. */
  lemma AssignAnswered(a: Xdi, e: Byte, rc: Byte, id: Byte, ch: Byte, ref: Word, ext: Dword)
    requires Good(a) && AssignWaits(a, e, ref) && a.idTable[id] == 0 && id % 0x20 != 0 && rc / 0x10 == 0xe
    ensures var r := ReturnCode(a, rc, id, ch, ref, ext);
            && r.code == 1 && |r.calls| == 1 && r.calls[0].no == e
            && r.calls[0].ent == a.ents[e].(id := id, rc := rc, busy := false, complete := 0xff)
            && r.a.queue == a.queue && Good(r.a)
            && if rc == ASSIGN_OK then
                 r.a.ents == a.ents[e := r.calls[0].ent] && r.a.idTable == a.idTable[id := e]
               else
                 && r.a.ents == a.ents - {e} && r.a.idTable == a.idTable
                 && forall k: Byte :: r.a.fcId[k] == a.fcId[k] != id
  {
    hide Names;
    ReturnKeeps(a, rc, id, ch, ref, ext);
    assert a.idTable[id := 0] == a.idTable;
    forall k: Byte
      ensures Cleared(a.fcId, id)[k] == a.fcId[k] != id
    {
      assert a.fcId[k] != 0 ==> a.idTable[a.fcId[k]] != 0;
    }
  }

  /** A return code that is for nobody changes nothing, and one is for nobody if
      and only if its Id is in no use and no ASSIGN waits for it. */
  lemma ForNobody(a: Xdi, rc: Byte, id: Byte, ch: Byte, ref: Word, ext: Dword)
    requires Good(a) && rc != READY_INT
    ensures var r := ReturnCode(a, rc, id, ch, ref, ext);
            && (r.code == 2 <==> a.idTable[id] == 0 && !(rc / 0x10 == 0xe && ref in a.assigns && a.assigns[ref] in a.ents))
            && (r.code == 2 ==> r.a == a && r.calls == [])
            && (r.code == 0 <==> a.idTable[id] != 0)
  {
  }

  // ----------------------------------------------------------------- removal

  /** A card that says when a removal is complete: its acknowledgement of the
      REMOVE leaves everything but the channel noted, and the client in peace;
      what the removal is remembered by stays for the code that completes it. */
  lemma AcknowledgedOnly(a: Xdi, e: Byte, id: Byte, ch: Byte, ext: Dword)
    requires Good(a) && e != 0 && a.idTable[id] == e && Removes(a, e, OK) && NotYet(a, e, ext)
    ensures var r := Known(a, e, OK, id, ch, ext);
            && r.a == a.(ents := a.ents[e := a.ents[e].(rcCh := ch)]) && r.calls == []
            && Removes(r.a, e, OK) && !NotYet(r.a, e, REMOVE_COMPLETE)
  {
  }

  predicate Taught(a: Xdi, evs: seq<Event>, b: Xdi)
    requires Good(a) && Runs(a, evs, b)
    decreases |evs|
  {
    evs != [] && (StepKeeps(a, evs[0]); Teaches(a, evs[0]) || Taught(Step(a, evs[0]), evs[1..], b))
  }

  /** The driver learns what kind of card it has from the first such code, and
      does not forget it. */
  lemma {:induction false} KnowsTheCard(a: Xdi, evs: seq<Event>, b: Xdi)
    requires Good(a) && Runs(a, evs, b)
    ensures b.rcExtension <==> a.rcExtension || Taught(a, evs, b)
    decreases |evs|
  {
    hide Step, Good, Enabled, Teaches;
    if evs != [] {
      StepKeeps(a, evs[0]);
      StepOnly(a, evs[0]);
      KnowsTheCard(Step(a, evs[0]), evs[1..], b);
    }
  }

  /** A return code that completes a removal frees the entity and its Id, and is
      passed on to the client if the last fragment of the REMOVE had gone out,
      however many return codes were still expected; else only if it says that
      flow control was released. */
  lemma RemovalReachesClient(a: Xdi, e: Byte, id: Byte, ch: Byte, ext: Dword)
    requires Good(a) && e != 0 && a.idTable[id] == e && Removes(a, e, OK) && !NotYet(a, e, ext)
    ensures var r, n := Known(a, e, OK, id, ch, ext), a.ents[e];
            && e !in r.a.ents && r.a.idTable == a.idTable[id := 0]
            && (forall c: Byte :: r.a.fcId[c] != id)
            && (r.calls != [] <==> (n.final && !n.part) || ext == RELEASED_FC)
            && |r.calls| <= 1
            && (r.calls != [] ==> r.calls[0].no == e && r.calls[0].ent.id == 0 && r.calls[0].ent.rc == OK)
            && (n.final && !n.part && ext != RELEASED_FC ==> !r.calls[0].ent.busy && r.calls[0].ent.count == 0)
  {
    var b := a.(rcExtension := a.rcExtension || (a.idType[e] == NL_ID && ext == REMOVE_COMPLETE),
                removePending := a.removePending[e := false],
                noCancel := a.noCancel[e := false]);
    assert id != 0;
    assert Free(b, e, id).fcId[ch] != id;
  }
}
