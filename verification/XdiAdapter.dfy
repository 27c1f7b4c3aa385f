/** The adapter object: pr_out and isdn_rc (kernel/di.c) on its tables, and the
    credit counters it shares with the card. */
module XdiAdapter {
  import opened Words
  import opened XdiFragment
  import opened XdiState
  import opened XdiSafety

  /** The difference of two byte counters is what the totals allow, or less. */
  lemma Credits(granted: nat, sent: nat)
    requires sent <= granted
    ensures var ready := (granted % 0x100 - sent % 0x100) % 0x100;
            && ready == (granted - sent) % 0x100
            && sent + ready <= granted
  {
    var g, s := granted / 0x100, sent / 0x100;
    var d := (granted - sent) / 0x100;
    var q := granted % 0x100 - sent % 0x100;
    assert granted - sent == 0x100 * (g - s) + q;
    assert q == 0x100 * (d - g + s) + (granted - sent) % 0x100;
  }

  /** Up to `n` turns of pr_out; `last` is the entity served last, 0 if the last
      turn found none. */
  datatype Served = Served(a: Xdi, out: seq<Request>, last: Byte)

  function Serve(a: Xdi, refs: seq<Word>, n: nat): (r: Served)
    requires Good(a) && n <= |refs|
    ensures Good(r.a) && |r.out| <= n
    decreases n
  {
    if n == 0 then Served(a, [], 0)
    else
      var p := Serve(a, refs, n - 1);
      if p.a.queue == [] then p
      else
        SendKeeps(p.a, refs[n - 1]);
        var s := SendOne(p.a, refs[n - 1]);
        Served(s.a, p.out + s.out, if s.out == [] then 0 else p.a.queue[0])
  }

  lemma {:induction false} ServeNone(a: Xdi, refs: seq<Word>, n: nat)
    requires Good(a) && n <= |refs| && a.queue == []
    ensures Serve(a, refs, n) == Served(a, [], 0)
  {
    hide Good, SendOne;
    if n != 0 {
      ServeNone(a, refs, n - 1);
    }
  }

  /** Everyone in the queue is there to be served. */
  predicate Present(a: Xdi) {
    forall e | e in a.queue :: e in a.ents
  }

  lemma SendInTurn(a: Xdi, ref: Word)
    requires Good(a) && a.queue != [] && Present(a)
    ensures var s := SendOne(a, ref);
            && |s.out| == 1 && s.out[0].no == a.queue[0] && Present(s.a)
            && (s.a.queue == a.queue[1..] || s.a.queue == a.queue[1..] + [a.queue[0]])
  {
    hide Take, Names, Slots;
    assert a.queue[0] in a.queue;
    forall k | k in a.queue[1..]
      ensures k in a.queue
    {
    }
  }

  /** Each gets its turn in the order of the queue, before anyone gets another
      one, and there are turns until the credits or the queue are used up. */
  lemma {:induction false} ServedInTurn(a: Xdi, refs: seq<Word>, n: nat)
    requires Good(a) && n <= |refs| && Present(a)
    ensures var r := Serve(a, refs, n);
            && Present(r.a)
            && (|r.out| == n || r.a.queue == [])
            && (forall k | 0 <= k < n && k < |a.queue| :: k < |r.out| && r.out[k].no == a.queue[k])
            && (n <= |a.queue| ==> a.queue[n..] <= r.a.queue)
            && (n != 0 && |r.out| == n ==> r.last == r.out[n - 1].no)
    decreases n
  {
    hide Good, SendOne, Present;
    if n != 0 {
      ServedInTurn(a, refs, n - 1);
      var p := Serve(a, refs, n - 1);
      if p.a.queue != [] {
        SendInTurn(p.a, refs[n - 1]);
      }
    }
  }

  lemma NobodyServed(a: Xdi, refs: seq<Word>, n: nat)
    requires Good(a) && n <= |refs|
    ensures a.queue == [] || n == 0 ==> Serve(a, refs, n) == Served(a, [], 0) && EndBatch(a, 0) == a
  {
    if a.queue == [] {
      ServeNone(a, refs, n);
    }
  }

  lemma MoreWaiting(a: Xdi)
    requires Good(a)
    ensures Good(a.(readyInt := 1))
  {
  }

  /** More turns with an empty queue change nothing. */
  lemma {:induction false} ServeStops(a: Xdi, refs: seq<Word>, k: nat, n: nat)
    requires Good(a) && k <= n <= |refs| && (k < n ==> Serve(a, refs, k).a.queue == [])
    ensures Serve(a, refs, n) == Serve(a, refs, k)
    decreases n
  {
    hide Good, SendOne;
    if k < n {
      ServeStops(a, refs, k, n - 1);
    }
  }

  /** A request that has to wait asks for an interrupt when there is room. */
  function Asked(a: Xdi, ready: nat): Xdi {
    if ready == 0 && a.readyInt == 0 && a.queue != [] then a.(readyInt := 1) else a
  }

  /** The interrupt that was asked for is taken for one, and no other. */
  lemma AskedAnswered(a: Xdi, id: Byte, ch: Byte, ref: Word, ext: Dword)
    requires Good(a) && a.readyInt == 0 && a.queue != []
    ensures Good(Asked(a, 0)) && ReturnCode(Asked(a, 0), READY_INT, id, ch, ref, ext) == Out(a, [], 0)
    ensures ReturnCode(a, READY_INT, id, ch, ref, ext) == Out(a, [], 2)
  {
    MoreWaiting(a);
    assert a.(readyInt := 1).(readyInt := 0) == a;
  }

  class Adapter {
    var ents: map<Byte, Ent>
    var queue: seq<Byte>
    var assigns: map<Word, Byte>
    const idTable: array<Byte>
    const idType: array<Byte>
    const fcId: array<Byte>
    const fcSkip: array<bool>
    const removePending: array<bool>
    const noCancel: array<bool>
    var rcExtension: bool
    var readyInt: nat
    var reqInput: Byte            // in the card's memory, written by pr_out
    var reqOutput: Byte           // in the card's memory, written by the card
    var requests: seq<Request>    // what went to the card
    var calls: seq<Call>          // the callbacks
    ghost var sent: nat           // what reqInput and reqOutput count
    ghost var granted: nat

    ghost predicate Tables()
    {
      && idTable.Length == idType.Length == fcId.Length == 0x100
      && fcSkip.Length == removePending.Length == noCancel.Length == 0x100
      && idTable != idType && idTable != fcId && idType != fcId
      && fcSkip != removePending && fcSkip != noCancel && removePending != noCancel
    }

    function State(): Xdi
      reads `ents, `queue, `assigns, `rcExtension, `readyInt, idTable, idType, fcId, fcSkip, removePending, noCancel
    {
      Xdi(ents, queue, assigns, idTable[..], idType[..], fcId[..], fcSkip[..], removePending[..], noCancel[..],
          rcExtension, readyInt)
    }

    ghost predicate Valid()
      reads this, idTable, idType, fcId, fcSkip, removePending, noCancel
    {
      && Tables() && Good(State())
      && reqInput == sent % 0x100 && reqOutput == granted % 0x100 && sent <= granted
    }

    constructor ()
      ensures Valid() && State() == Empty()
      ensures fresh(idTable) && fresh(idType) && fresh(fcId) && fresh(fcSkip) && fresh(removePending) && fresh(noCancel)
      ensures requests == [] && calls == [] && sent == granted == 0
    {
      idTable := new Byte[0x100](_ => 0);
      idType := new Byte[0x100](_ => 0);
      fcId := new Byte[0x100](_ => 0);
      fcSkip := new bool[0x100](_ => false);
      removePending := new bool[0x100](_ => false);
      noCancel := new bool[0x100](_ => false);
      ents, queue, assigns, rcExtension, readyInt := map[], [], map[], false, 0;
      reqInput, reqOutput, requests, calls, sent, granted := 0, 0, [], [], 0, 0;
      new;
      assert State() == Empty();
    }

    /** Clear an Id out of the flow control table. */
    method ClearSlots(id: Byte)
      requires Tables()
      modifies fcId
      ensures fcId[..] == Cleared(old(fcId[..]), id)
    {
      for i := 0 to 0x100
        invariant forall k | 0 <= k < i :: fcId[k] == if old(fcId[k]) == id then 0 else old(fcId[k])
        invariant forall k | i <= k < 0x100 :: fcId[k] == old(fcId[k])
      {
        if fcId[i] == id {
          fcId[i] := 0;
        }
      }
    }

    method FreeEntity(e: Byte, id: Byte)
      requires Tables() && Shape(State())
      modifies `ents, fcId, idTable
      ensures State() == Free(old(State()), e, id)
    {
      ents := ents - {e};
      ClearSlots(id);
      SetId(id, 0);
    }

    method Callback(e: Byte, n: Ent)
      modifies `calls
      ensures calls == old(calls) + [Call(e, n)]
    {
      calls := calls + [Call(e, n)];
    }

    method Store(e: Byte, n: Ent, live: bool)
      modifies `ents
      ensures State() == Put(old(State()), e, n, live)
    {
      if live {
        ents := ents[e := n];
      }
    }

    /* One cell of a table, and what that is for the whole state. */

    method SetSlot(k: Byte, v: Byte)
      requires Tables()
      modifies fcId
      ensures State() == old(State()).(fcId := old(State()).fcId[k := v])
    {
      fcId[k] := v;
    }

    method SetSkip(k: Byte, v: bool)
      requires Tables()
      modifies fcSkip
      ensures State() == old(State()).(fcSkip := old(State()).fcSkip[k := v])
    {
      fcSkip[k] := v;
    }

    method SetRemovePending(k: Byte, v: bool)
      requires Tables()
      modifies removePending
      ensures State() == old(State()).(removePending := old(State()).removePending[k := v])
    {
      removePending[k] := v;
    }

    method SetNoCancel(k: Byte, v: bool)
      requires Tables()
      modifies noCancel
      ensures State() == old(State()).(noCancel := old(State()).noCancel[k := v])
    {
      noCancel[k] := v;
    }

    method SetId(k: Byte, v: Byte)
      requires Tables()
      modifies idTable
      ensures State() == old(State()).(idTable := old(State()).idTable[k := v])
    {
      idTable[k] := v;
    }

    method SetType(k: Byte, v: Byte)
      requires Tables()
      modifies idType
      ensures State() == old(State()).(idType := old(State()).idType[k := v])
    {
      idType[k] := v;
    }

    method Deliver(e: Byte, n: Ent, live: bool)
      modifies `ents, `calls
      ensures State() == Put(old(State()), e, n, live) && calls == old(calls) + [Call(e, n)]
    {
      hide State, Put;
      Store(e, n, live);
      Callback(e, n);
    }

    method FlowControl(ch: Byte, id: Byte)
      requires Tables()
      modifies fcId, fcSkip
      ensures var a := old(State());
              State() == a.(fcId := a.fcId[ch := id], fcSkip := a.fcSkip[ch := false])
    {
      SetSlot(ch, id);
      SetSkip(ch, false);
    }

    /** A completed removal: forget what was noted for the entity, free it. */
    method Unlink(e: Byte, id: Byte, ext: Dword)
      requires Tables() && Shape(State())
      modifies `ents, `rcExtension, fcId, idTable, removePending, noCancel
      ensures State() == Unlinked(old(State()), e, id, ext)
    {
      if idType[e] == NL_ID && ext == REMOVE_COMPLETE {
        rcExtension := true;
      }
      SetRemovePending(e, false);
      SetNoCancel(e, false);
      FreeEntity(e, id);
    }

    /** The end of flow control. */
    method EndFlowControl(e: Byte, n: Ent, live: bool, rc: Byte, id: Byte, ch: Byte)
      requires Tables() && Shape(State()) && !noCancel[e] && fcId[ch] == id
      modifies `ents, `calls, fcId
      ensures var r := Settle(old(State()), e, n, live, rc, id, ch);
              State() == r.a && calls == old(calls) + r.calls
    {
      assert State().fcId[ch] == id && State().fcSkip[ch] == fcSkip[ch] && !State().noCancel[e];
      hide Shape, State, Put;
      SetSlot(ch, 0);
      if rc != OK || !fcSkip[ch] {
        var m := n.(rc := rc);
        if ch == m.reqCh {
          m := m.(busy := false, count := 0, complete := 0xff);
        }
        Deliver(e, m, live);
      } else {
        Store(e, n, live);
      }
    }

    /** The end of flow control, or one return code less to wait for. */
    method SettleRc(e: Byte, n: Ent, live: bool, rc: Byte, id: Byte, ch: Byte)
      requires Tables() && Shape(State())
      modifies `ents, `calls, fcId
      ensures var r := Settle(old(State()), e, n, live, rc, id, ch);
              State() == r.a && calls == old(calls) + r.calls
    {
      assert State().fcId[ch] == fcId[ch] && State().noCancel[e] == noCancel[e];
      if !noCancel[e] && fcId[ch] == id {
        EndFlowControl(e, n, live, rc, id, ch);
        return;
      }
      hide Shape, State, Put;
      var m := n;
      if 0 < m.count {
        m := m.(count := m.count - 1);
      }
      if (noCancel[e] || m.final) && m.count == 0 && !m.part {
        m := m.(rc := rc, busy := false, complete := 0xff);
        Deliver(e, m, live);
      } else {
        Store(e, m, live);
      }
    }

    /** The second half of isdn_rc for an Id in the table. */
    method AnswerRc(e: Byte, n: Ent, live: bool, rc: Byte, id: Byte, ch: Byte, ext: Dword)
      requires Tables() && Shape(State())
      modifies `ents, `calls, fcId, fcSkip, noCancel
      ensures var r := Answer(old(State()), e, n, live, rc, id, ch, ext);
              State() == r.a && calls == old(calls) + r.calls
    {
      hide State, Put, Settle;
      if rc == OK_FC {
        FlowControl(ch, id);
        Deliver(e, Done(n, rc).(count := 0), live);
      } else if ext == RELEASED_FC {
        SetNoCancel(e, true);
        Deliver(e, n.(rc := rc, complete := 0xff), live);
      } else {
        SettleRc(e, n, live, rc, id, ch);
      }
    }

    method KnownRc(e: Byte, rc: Byte, id: Byte, ch: Byte, ext: Dword)
      requires Tables() && Shape(State()) && e in ents
      modifies `ents, `calls, `rcExtension, idTable, fcId, fcSkip, removePending, noCancel
      ensures var r := Known(old(State()), e, rc, id, ch, ext);
              State() == r.a && calls == old(calls) + r.calls
    {
      assert State().ents == ents && State().removePending[e] == removePending[e];
      assert State().idType[e] == idType[e] && State().rcExtension == rcExtension;
      hide Answer, State, Unlinked, Put, Shape;
      var n, live := ents[e].(rcCh := ch), true;
      if removePending[e] && rc == OK {
        if idType[e] == NL_ID && rcExtension && ext != REMOVE_COMPLETE {
          Store(e, n, true);
          return;
        }
        Unlink(e, id, ext);
        n, live := n.(id := 0, count := if 1 < n.count then 1 else n.count), false;
      }
      AnswerRc(e, n, live, rc, id, ch, ext);
    }

    method AssignAnswer(e: Byte, rc: Byte, id: Byte)
      requires Tables() && Shape(State()) && e in ents
      modifies `ents, `calls, idTable, fcId
      ensures var r := AssignRc(old(State()), e, rc, id);
              State() == r.a && calls == old(calls) + r.calls
    {
      var n := Done(ents[e].(id := id), rc);
      ents := ents[e := n];
      Callback(e, n);
      if rc == ASSIGN_OK {
        SetId(id, e);
      } else {
        FreeEntity(e, id);
      }
    }

    /** `isdn_rc`. */
    method IsdnRc(rc: Byte, id: Byte, ch: Byte, ref: Word, ext: Dword) returns (code: nat)
      requires Valid() && FairAssign(State(), rc, id, ref)
      modifies this, idTable, fcId, fcSkip, removePending, noCancel
      ensures Valid()
      ensures var r := ReturnCode(old(State()), rc, id, ch, ref, ext);
              State() == r.a && calls == old(calls) + r.calls && code == r.code
      ensures requests == old(requests) && sent == old(sent) && granted == old(granted)
    {
      hide Known, AssignRc, Names, Slots;
      ReturnKeeps(State(), rc, id, ch, ref, ext);
      if rc == READY_INT {
        if 0 < readyInt {
          readyInt := readyInt - 1;
          return 0;
        }
        return 2;
      }
      var e := idTable[id];
      if e != 0 {
        Live(State(), id);
        KnownRc(e, rc, id, ch, ext);
        return 0;
      }
      if rc / 0x10 == 0xe {
        if ref in assigns && assigns[ref] in ents {
          AssignAnswer(assigns[ref], rc, id);
          return 1;
        }
      }
      return 2;
    }

    /** A client's request for an entity of its own. */
    method DataReq(e: Byte, req: Byte, ch: Byte, x: seq<seq<Byte>>)
      requires Valid() && e in ents
      modifies `ents, `queue
      ensures Valid() && State() == Post(old(State()), e, req, ch, x)
    {
      PostKeeps(State(), e, req, ch, x);
      var n := ents[e];
      if !n.busy {
        ents := ents[e := n.(req := req, reqCh := ch, x := x, busy := true, final := false, xCurrent := 0, xOffset := 0)];
        queue := queue + [e];
      }
    }

    method FindFree() returns (e: Byte)
      requires |ents| < 0xff
      ensures e != 0 && e !in ents && forall k: Byte | 0 < k < e :: k in ents
    {
      e := 1;
      while e in ents
        invariant 0 < e <= |ents| + 1
        invariant forall k: Byte | 0 < k < e :: k in ents
        decreases |ents| + 1 - e
      {
        Numbered(ents, e as int + 1);
        e := e + 1;
      }
    }

    method NewEntity(e: Byte, n: Ent)
      requires Valid() && e != 0 && e !in ents && !Assigned(n) && n.x == [] && n.xCurrent == n.xOffset == 0
      modifies `ents
      ensures Valid() && State() == old(State()).(ents := old(ents)[e := n])
    {
      hide Good;
      NewKeeps(State(), e, n);
      ents := ents[e := n];
    }

    /** A client's request that makes an entity: under the first free number,
        unless there are too many already. */
    method AssignReq(id: Byte, req: Byte, ch: Byte, x: seq<seq<Byte>>, eMax: Byte) returns (e: Byte)
      requires Valid() && id % 0x20 == 0
      modifies `ents, `queue
      ensures Valid()
      ensures e == 0 <==> eMax <= |old(ents)|
      ensures e != 0 ==> e !in old(ents) && forall k: Byte | 0 < k < e :: k in old(ents)
      ensures State() == if e == 0 then old(State()) else PostAssign(old(State()), e, id, req, ch, x)
    {
      hide Good, Shape, Names, Slots, Post;
      e := 0;
      if eMax <= |ents| {
        return;
      }
      e := FindFree();
      var n := Ent(id, req, ch, 0, 0, false, false, false, [], 0, 0, 0, 0, 0);
      NewEntity(e, n);
      DataReq(e, req, ch, x);
    }

    /** A fragment for an entity that has its Id. */
    method SendFragment(e: Byte, n: Ent, data: seq<Byte>, left: bool, ghost ref: Word)
      requires Tables() && Shape(State()) && Assigned(n)
      modifies `ents, `queue, `requests, fcSkip, removePending
      ensures var s := Dispatch(old(State()), e, n, data, left, ref);
              State() == s.a && requests == old(requests) + s.out
    {
      var m := n.(count := n.count + 1);
      if left && n.mInd != 0 {
        requests := requests + [Request(e, m.id, m.reqCh, m.mInd, data, false)];
        ents := ents[e := m.(part := true)];
        queue := queue + [e];
      } else {
        requests := requests + [Request(e, m.id, m.reqCh, m.req, data, true)];
        ents := ents[e := m.(final := true, part := false)];
        if fcId[m.reqCh] == m.id {
          SetSkip(m.reqCh, true);
        }
        if m.req == REMOVE {
          SetRemovePending(e, true);
        }
      }
    }

    method SendAssign(e: Byte, n: Ent, data: seq<Byte>, ghost left: bool, ref: Word)
      requires Tables() && Shape(State()) && !Assigned(n)
      modifies `ents, `assigns, `requests, idType
      ensures var s := Dispatch(old(State()), e, n, data, left, ref);
              State() == s.a && requests == old(requests) + s.out
    {
      SetType(e, n.id);
      requests := requests + [Request(e, n.id, n.reqCh, n.req, data, true)];
      ents := ents[e := n.(mInd := ChainCode(n.id), final := true, part := false)];
      assigns := assigns[ref := e];
    }

    /** One turn of pr_out's loop. */
    method SendNext(ref: Word) returns (found: bool)
      requires Tables() && Shape(State()) && queue != []
      modifies `ents, `queue, `assigns, `requests, idType, fcSkip, removePending
      ensures var s := SendOne(old(State()), ref);
              State() == s.a && requests == old(requests) + s.out && (found <==> s.out != [])
    {
      hide Take;
      var e := queue[0];
      queue := queue[1..];
      found := e in ents;
      if found {
        var n := ents[e];
        var r := CopyOut(n.x, n.xCurrent, n.xOffset);
        assert State() == old(State()).(queue := queue);
        hide State;
        var m := n.(xCurrent := r.cur, xOffset := r.off);
        if m.id % 0x20 != 0 {
          SendFragment(e, m, r.data, r.cur < |n.x|, ref);
        } else {
          SendAssign(e, m, r.data, r.cur < |n.x|, ref);
        }
      }
    }

    /** The credits left; if there are none, the card is asked to say when there
        are. */
    method PrReady() returns (ready: Byte)
      requires Valid() && queue != []
      modifies `readyInt
      ensures Valid() && State() == Asked(old(State()), ready)
      ensures ready == (granted - sent) % 0x100 && sent + ready <= granted
      ensures ready == granted - sent <==> granted - sent < 0x100
      ensures ready == 0 ==> 0 < readyInt
    {
      hide Good;
      Credits(granted, sent);
      MoreWaiting(State());
      ready := (reqOutput - reqInput) % 0x100;
      if ready == 0 {
        if readyInt == 0 {
          readyInt := readyInt + 1;
        }
      }
    }

    /** The loop of `pr_out`. */
    method ServeQueue(refs: seq<Word>, ready: Byte) returns (last: Byte, reqCount: nat)
      requires Tables() && Good(State()) && ready <= |refs|
      modifies `ents, `queue, `assigns, `requests, idType, fcSkip, removePending
      ensures Good(State())
      ensures var s := Serve(old(State()), refs, ready);
              && State() == s.a && last == s.last && reqCount == |s.out|
              && requests == old(requests) + s.out
    {
      hide Good, SendOne, State;
      last, reqCount := 0, 0;
      var k: nat := 0;
      assert requests + [] == requests;
      while !Idle() && k < ready
        invariant k <= ready
        invariant Good(State())
        invariant var s := Serve(old(State()), refs, k);
                  && State() == s.a && last == s.last && reqCount == |s.out|
                  && requests == old(requests) + s.out
        decreases ready - k
      {
        last := Head();
        SendKeeps(State(), refs[k]);
        var found := SendNext(refs[k]);
        if found {
          reqCount := reqCount + 1;
        } else {
          last := 0;
        }
        k := k + 1;
      }
      ServeStops(old(State()), refs, k, ready);
    }

    /** `look_req`, none and which. */
    predicate Idle()
      reads `ents, `queue, `assigns, `rcExtension, `readyInt, idTable, idType, fcId, fcSkip, removePending, noCancel
      ensures Idle() <==> State().queue == []
    {
      queue == []
    }

    function Head(): (e: Byte)
      requires !Idle()
      reads `ents, `queue, `assigns, `rcExtension, `readyInt, idTable, idType, fcId, fcSkip, removePending, noCancel
      ensures e == State().queue[0]
    {
      queue[0]
    }

    /** Tell the card of the requests sent. */
    method Announce(reqCount: nat)
      requires reqInput == sent % 0x100
      modifies `reqInput, `sent
      ensures sent == old(sent) + reqCount && reqInput == sent % 0x100
    {
      reqInput := (reqInput + reqCount) % 0x100;
      sent := sent + reqCount;
    }

    /** `pr_out` with credits. */
    method SendBatch(refs: seq<Word>, ready: Byte)
      requires Valid() && ready == (granted - sent) % 0x100 && ready <= |refs|
      modifies `ents, `queue, `assigns, `requests, `reqInput, `sent, idTable, idType, fcId, fcSkip, removePending
      ensures Valid()
      ensures var s := Serve(old(State()), refs, ready);
              && State() == EndBatch(s.a, s.last)
              && requests == old(requests) + s.out
              && sent == old(sent) + |s.out|
    {
      hide Good, Serve, EndBatch, State;
      Credits(granted, sent);
      var last, reqCount := ServeQueue(refs, ready);
      Announce(reqCount);
      assert reqOutput == granted % 0x100;
      RemoveUnanswered(last);
    }

    /** `pr_out`: serve the queue while the credits last. However the counters
        have wrapped, no more is sent than the card has room for. */
    method PrOut(refs: seq<Word>)
      requires Valid() && 0xff <= |refs|
      modifies this, idTable, idType, fcId, fcSkip, removePending
      ensures Valid() && calls == old(calls) && granted == old(granted)
      ensures var ready := (granted - old(sent)) % 0x100;
              var s := Serve(Asked(old(State()), ready), refs, ready);
              && State() == EndBatch(s.a, s.last)
              && requests == old(requests) + s.out
              && sent == old(sent) + |s.out|
    {
      hide Good, Serve, EndBatch;
      Credits(granted, sent);
      NobodyServed(State(), refs, (granted - sent) % 0x100);
      if queue != [] {
        var ready := PrReady();
        if ready != 0 {
          SendBatch(refs, ready);
        } else {
          NobodyServed(State(), refs, 0);
        }
      }
    }

    /** The end of `pr_out`. */
    method RemoveUnanswered(last: Byte)
      requires Tables() && Good(State())
      modifies `ents, fcId, idTable
      ensures State() == EndBatch(old(State()), last) && Good(State())
    {
      if last in ents && ents[last].req == UREMOVE && ents[last].id != 0 {
        var id := ents[last].id;
        FreeKeeps(State(), idTable[id], id);
        FreeEntity(idTable[id], id);
      }
    }

    /** The card frees request buffers. */
    method CardConsumes(n: nat)
      requires Valid()
      modifies `reqOutput, `granted
      ensures Valid() && granted == old(granted) + n
    {
      reqOutput := (reqOutput + n) % 0x100;
      granted := granted + n;
    }
  }

  /** Numbers in use up to `n` are at least so many entities. */
  lemma Numbered(ents: map<Byte, Ent>, n: int)
    requires 0 < n <= 0x100 && forall k: Byte | 0 < k < n :: k in ents
    ensures n - 1 <= |ents|
    decreases n
  {
    if 1 < n {
      Numbered(ents - {n - 1}, n - 1);
      assert ents.Keys == (ents - {n - 1}).Keys + {n - 1};
    }
  }

  lemma Live(a: Xdi, id: Byte)
    requires Good(a) && a.idTable[id] != 0
    ensures a.idTable[id] in a.ents
  {
  }
}
