/** Flow control (kernel/di.c): OK_FC gives the client its turn although the
    card still owes a return code; whether that code is passed on when it comes
    depends on what was sent in the meantime. */
module XdiFlow {
  import opened Words
  import opened XdiFragment
  import opened XdiState
  import opened XdiSafety

  /** The channel of an entity is flow controlled, and no removal or release in
      progress changes the rules. */
  predicate Controlled(a: Xdi, e: Byte, id: Byte, ch: Byte)
    requires Shape(a)
  {
    && e in a.ents && a.idTable[id] == e != 0 && a.ents[e].id == id
    && a.fcId[ch] == id && !a.noCancel[e] && !a.removePending[e] && a.ents[e].req != REMOVE
  }

  /** OK_FC: the slot is taken, and the client is called back with its request
      done. */
  lemma ControlStarts(a: Xdi, e: Byte, id: Byte, ch: Byte, ext: Dword)
    requires Good(a) && e != 0 && a.idTable[id] == e && !a.noCancel[e] && !a.removePending[e] && a.ents[e].req != REMOVE
    ensures var r := Known(a, e, OK_FC, id, ch, ext);
            && Good(r.a) && Controlled(r.a, e, id, ch) && !r.a.fcSkip[ch]
            && |r.calls| == 1 && r.calls[0].no == e && !r.calls[0].ent.busy && r.calls[0].ent.count == 0
  {
    KnownKeeps(a, e, OK_FC, id, ch, ext);
  }

  /** What clients do and pr_out sends while the channel is controlled. */
  datatype Exchanged = Exchanged(a: Xdi, out: seq<Request>)

  function Exchange(a: Xdi, ev: Event): (x: Exchanged)
    requires Good(a) && Enabled(a, ev) && (ev.Posts? || ev.Assigns? || ev.Sends?)
    ensures Good(x.a)
  {
    StepKeeps(a, ev);
    Exchanged(Step(a, ev), if ev.Sends? then SendOne(a, ev.ref).out else [])
  }

  /** Nobody asks for the removal of the entity. */
  predicate Stays(e: Byte, ev: Event) {
    ev.Posts? && ev.e == e ==> ev.req != REMOVE
  }

  /** The last fragment of a request of the entity on the channel. */
  predicate LastOn(r: Request, e: Byte, ch: Byte) {
    r.no == e && r.ch == ch && r.last
  }

  lemma ExchangeKeeps(a: Xdi, ev: Event, e: Byte, id: Byte, ch: Byte)
    requires Good(a) && Enabled(a, ev) && (ev.Posts? || ev.Assigns? || ev.Sends?)
    requires Controlled(a, e, id, ch) && Stays(e, ev)
    ensures var x := Exchange(a, ev);
            && Good(x.a) && Controlled(x.a, e, id, ch)
            && (x.a.fcSkip[ch] <==> a.fcSkip[ch] || exists r :: r in x.out && LastOn(r, e, ch))
  {
    hide Names, Slots, Take;
    StepKeeps(a, ev);
    if ev.Sends? {
      SendKeepsControl(a, ev.ref, e, id, ch);
    }
  }

  lemma SendKeepsControl(a: Xdi, ref: Word, e: Byte, id: Byte, ch: Byte)
    requires Good(a) && Controlled(a, e, id, ch) && a.queue != []
    ensures var s := SendOne(a, ref);
            && Controlled(s.a, e, id, ch)
            && (s.a.fcSkip[ch] <==> a.fcSkip[ch] || exists r :: r in s.out && LastOn(r, e, ch))
  {
    hide Slots, Take;
    var h, s := a.queue[0], SendOne(a, ref);
    if h in a.ents {
      assert s.out == [s.out[0]] && s.out[0] in s.out;
    }
  }

  /** Any run of such events, from any queue, with any data. */
  function ExchangeAll(a: Xdi, evs: seq<Event>): (x: Exchanged)
    requires Good(a) && Possible(a, evs)
    ensures Good(x.a)
    decreases |evs|
  {
    if evs == [] then Exchanged(a, [])
    else
      var x := Exchange(a, evs[0]);
      var y := ExchangeAll(x.a, evs[1..]);
      Exchanged(y.a, x.out + y.out)
  }

  predicate Possible(a: Xdi, evs: seq<Event>)
    requires Good(a)
    decreases |evs|
  {
    evs == [] ||
    (var ev := evs[0];
     Enabled(a, ev) && (ev.Posts? || ev.Assigns? || ev.Sends?) && Possible(Exchange(a, ev).a, evs[1..]))
  }

  /** The driver remembers exactly whether a request of the entity went out on the
      channel while it was controlled. */
  lemma {:induction false} SkipMeansSent(a: Xdi, evs: seq<Event>, e: Byte, id: Byte, ch: Byte)
    requires Good(a) && Possible(a, evs) && Controlled(a, e, id, ch)
    requires forall ev | ev in evs :: Stays(e, ev)
    ensures var x := ExchangeAll(a, evs);
            && Good(x.a) && Controlled(x.a, e, id, ch)
            && (x.a.fcSkip[ch] <==> a.fcSkip[ch] || exists r :: r in x.out && LastOn(r, e, ch))
    decreases |evs|
  {
    hide Good, Controlled, Exchange, Step, Enabled, LastOn;
    if evs != [] {
      assert evs[0] in evs;
      ExchangeKeeps(a, evs[0], e, id, ch);
      var x := Exchange(a, evs[0]);
      SkipMeansSent(x.a, evs[1..], e, id, ch);
    }
  }

  /** The return code that ends flow control frees the slot. It is passed on if
      it is not OK or no request went out in the meantime, and ends the entity's
      request if that is on the same channel; else it is kept back, and what that
      request waits for stays. */
  lemma ControlEnds(a: Xdi, e: Byte, id: Byte, ch: Byte, rc: Byte, ext: Dword)
    requires Good(a) && Controlled(a, e, id, ch) && rc != OK_FC && ext != RELEASED_FC
    ensures var r := Known(a, e, rc, id, ch, ext);
            && Good(r.a) && r.a.fcId[ch] == 0 && e in r.a.ents && |r.calls| <= 1
            && (r.calls != [] <==> rc != OK || !a.fcSkip[ch])
            && (r.calls != [] ==> r.calls == [Call(e, r.a.ents[e])] && r.a.ents[e].rc == rc)
            && (r.calls != [] ==> var m, n := r.a.ents[e], a.ents[e];
                  if ch == n.reqCh then !m.busy && m.count == 0 else m.busy == n.busy && m.count == n.count)
            && (r.calls == [] ==> r.a.ents[e] == a.ents[e].(rcCh := ch))
  {
    KnownKeeps(a, e, rc, id, ch, ext);
  }

  /** The next return code on the channel frees the slot. It is kept back, with
      what a request waits for unchanged, if and only if it is OK and the last
      fragment of a request was among those sent. */
  predicate EndsControl(a: Xdi, out: seq<Request>, e: Byte, id: Byte, ch: Byte, rc: Byte, ext: Dword)
    requires Shape(a) && e in a.ents
  {
    var r := Known(a, e, rc, id, ch, ext);
    && |r.a.fcId| == 0x100 && r.a.fcId[ch] == 0
    && (r.calls == [] <==> rc == OK && exists q :: q in out && LastOn(q, e, ch))
    && (r.calls == [] ==> e in r.a.ents && r.a.ents[e] == a.ents[e].(rcCh := ch))
  }

  /** All together: from OK_FC over anything clients post and pr_out sends to the
      next return code on the channel. */
  lemma FlowControlCycle(a: Xdi, s: Xdi, evs: seq<Event>, x: Exchanged,
                         e: Byte, id: Byte, ch: Byte, ext: Dword, rc: Byte, ext': Dword)
    requires Good(a) && e in a.ents && a.idTable[id] == e != 0
    requires !a.noCancel[e] && !a.removePending[e] && a.ents[e].req != REMOVE
    requires s == Known(a, e, OK_FC, id, ch, ext).a && Good(s) && Possible(s, evs) && x == ExchangeAll(s, evs)
    requires rc != OK_FC && ext' != RELEASED_FC && forall ev | ev in evs :: Stays(e, ev)
    ensures e in x.a.ents && EndsControl(x.a, x.out, e, id, ch, rc, ext')
  {
    hide Known, ExchangeAll, Possible, LastOn, Names, Slots;
    ControlStarts(a, e, id, ch, ext);
    SkipMeansSent(s, evs, e, id, ch);
    ControlEnds(x.a, e, id, ch, rc, ext');
  }

  /** Return codes OK, one after the other. */
  function Answers(a: Xdi, e: Byte, id: Byte, ch: Byte, n: nat): (r: Out)
    requires Shape(a)
    decreases n
  {
    if n == 0 then Out(a, [], 0)
    else
      var r := Answers(a, e, id, ch, n - 1);
      if Shape(r.a) && e in r.a.ents then
        var s := Known(r.a, e, OK, id, ch, 0);
        Out(s.a, r.calls + s.calls, 0)
      else r
  }

  /** The card announces that the flow is released: the client is told and gets
      nothing else, and from then on no return code is kept back. */
  lemma ReleaseAnnounced(a: Xdi, e: Byte, id: Byte, ch: Byte, rc: Byte)
    requires Good(a) && e != 0 && a.idTable[id] == e && !Removes(a, e, rc) && rc != OK_FC
    ensures var r := Known(a, e, rc, id, ch, RELEASED_FC);
            && Good(r.a) && r.a.noCancel[e] && r.a.fcId == a.fcId
            && r.a.ents[e] == a.ents[e].(rcCh := ch, rc := rc, complete := 0xff)
            && r.calls == [Call(e, r.a.ents[e])]
  {
    KnownKeeps(a, e, rc, id, ch, RELEASED_FC);
  }

  /** A request of which nothing is left to send: out completely, on a channel
      without flow control, or anything after the flow was released. */
  predicate Waits(a: Xdi, e: Byte, id: Byte, ch: Byte) {
    && Shape(a) && e in a.ents && a.idTable[id] == e != 0 && !a.removePending[e] && !a.ents[e].part
    && (a.noCancel[e] || (a.fcId[ch] != id && a.ents[e].final))
  }

  lemma OneAnswer(a: Xdi, e: Byte, id: Byte, ch: Byte)
    requires Waits(a, e, id, ch) && 0 < a.ents[e].count
    ensures var r := Known(a, e, OK, id, ch, 0);
            && Waits(r.a, e, id, ch) && r.a.ents[e].count == a.ents[e].count - 1
            && if 1 < a.ents[e].count then r.calls == [] else |r.calls| == 1 && !r.calls[0].ent.busy
  {
  }

  /** It is answered by as many codes as it has fragments; the last one is passed
      on, and no other. */
  lemma {:induction false} LastAnswer(a: Xdi, e: Byte, id: Byte, ch: Byte, n: nat)
    requires Waits(a, e, id, ch) && n <= a.ents[e].count && 0 < a.ents[e].count
    ensures var r := Answers(a, e, id, ch, n);
            && Waits(r.a, e, id, ch) && r.a.ents[e].count == a.ents[e].count - n
            && if n < a.ents[e].count then r.calls == [] else |r.calls| == 1 && !r.calls[0].ent.busy
    decreases n
  {
    hide Known;
    if n != 0 {
      LastAnswer(a, e, id, ch, n - 1);
      OneAnswer(Answers(a, e, id, ch, n - 1).a, e, id, ch);
    }
  }
}
