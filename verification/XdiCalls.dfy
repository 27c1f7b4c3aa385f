/** Return codes and callbacks (kernel/di.c): outside flow control and removals,
    the card gets each request as it was posted, in fragments, and a client hears
    of each exactly once, when the card has answered the last fragment. */
module XdiCalls {
  import opened Words
  import opened XdiFragment
  import opened XdiState
  import opened XdiSafety

  const OUTSTANDING := 15

  /** A request as its client posts it, with the Id its entity has then. */
  datatype Asked = Asked(id: Byte, req: Byte, ch: Byte, x: seq<seq<Byte>>)

  /** What an observer of client and card notes of one entity. `sent` and
      `answered` are fragments that get a return code; `kind` is the global Id of
      its ASSIGN and `asked` the current request, or the last one; `reqs` is what
      the card got for that and `out` its data, `complete` if that was all. */
  datatype Hist = Hist(
    posts: nat, sent: nat, answered: nat, calls: nat,
    kind: Byte, asked: Asked, reqs: seq<Request>, out: seq<seq<Byte>>, complete: bool)

  datatype System = System(a: Xdi, h: map<Byte, Hist>)

  predicate Quiet(a: Xdi)
    requires Shape(a)
  {
    forall k: Byte :: a.fcId[k] == 0 && !a.removePending[k] && !a.noCancel[k]
  }

  predicate Distinct(q: seq<Byte>) {
    forall i, j | 0 <= i < j < |q| :: q[i] != q[j]
  }

  /** The fragments still to come. */
  predicate Underway(n: Ent, out: seq<seq<Byte>>)
    requires ValidPos(n.x, n.xCurrent, n.xOffset)
  {
    if n.mInd != 0 then out + Fragments(n.x, n.xCurrent, n.xOffset) == Fragments(n.x, 0, 0)
    else out == [] && n.xCurrent == 0 && n.xOffset == 0
  }

  /** All fragments; without chaining, only what fits one. */
  predicate AllSent(n: Ent, out: seq<seq<Byte>>) {
    out == if n.mInd != 0 then Fragments(n.x, 0, 0) else [Take(n.x, 0, 0, CHUNK).data]
  }

  /** What a request goes out as: chained fragments if it is not an ASSIGN and
      its kind has a code for them, else only what fits one. */
  function Data(p: Asked, kind: Byte): seq<seq<Byte>> {
    if p.id % 0x20 != 0 && ChainCode(kind) != 0 then Fragments(p.x, 0, 0) else [Take(p.x, 0, 0, CHUNK).data]
  }

  /** Fragments as the card gets them: all with the Id and the channel of the
      request; its code is that of the last one, `done` if that is out, and the
      others bear the code that says there is more. */
  function Coded(e: Byte, kind: Byte, p: Asked, out: seq<seq<Byte>>, done: bool): (rs: seq<Request>)
    ensures |rs| == |out|
    ensures forall i | 0 <= i < |out| ::
              var last := done && i == |out| - 1;
              rs[i] == Request(e, p.id, p.ch, if last then p.req else ChainCode(kind), out[i], last)
  {
    seq(|out|, i requires 0 <= i < |out| =>
      var last := done && i == |out| - 1;
      Request(e, p.id, p.ch, if last then p.req else ChainCode(kind), out[i], last))
  }

  /** The card gets what was asked for, and all of it. */
  predicate Carried(e: Byte, n: Ent, h: Hist) {
    && h.reqs == Coded(e, h.kind, h.asked, h.out, h.complete)
    && (h.complete ==> h.out == Data(h.asked, h.kind))
    && (n.busy ==> h.asked == Asked(n.id, n.req, n.reqCh, n.x))
    && (Assigned(n) || n.final ==> n.mInd == ChainCode(h.kind))
    && (!Assigned(n) ==> n.id == h.kind)
  }

  lemma CodedGrows(e: Byte, kind: Byte, p: Asked, out: seq<seq<Byte>>, data: seq<Byte>, last: bool)
    ensures Coded(e, kind, p, out, false)
            + [Request(e, p.id, p.ch, if last then p.req else ChainCode(kind), data, last)]
         == Coded(e, kind, p, out + [data], last)
  {
  }

  /** The entity's flags tell what the observer sees. */
  predicate Tracks(n: Ent, h: Hist, waiting: bool)
    requires ValidPos(n.x, n.xCurrent, n.xOffset)
  {
    && n.req != REMOVE && n.req != UREMOVE
    && h.sent == h.answered + n.count
    && h.posts == h.calls + (if n.busy then 1 else 0)
    && (waiting <==> n.busy && !n.final)
    && (n.busy ==> (n.final <==> h.complete))
    && (!n.busy || n.final ==> !n.part)
    && if Assigned(n) then
         && (waiting ==> Underway(n, h.out) && (n.part <==> h.out != []))
         && (n.busy && n.final ==> AllSent(n, h.out) && 0 < n.count)
         && (!n.busy ==> n.count == 0)
       else
         && n.busy && n.count == 0
         && (waiting ==> h.out == [] && n.xCurrent == 0 && n.xOffset == 0)
  }

  predicate Inv(s: System): (b: bool)
    ensures b ==> Good(s.a)
  {
    && Good(s.a) && Quiet(s.a)
    && s.h.Keys == s.a.ents.Keys
    && Distinct(s.a.queue)
    && (forall e | e in s.a.queue :: e in s.a.ents)
    && (forall e | e in s.a.ents ::
          Tracks(s.a.ents[e], s.h[e], e in s.a.queue) && Carried(e, s.a.ents[e], s.h[e]))
  }

  /** What may happen: no removals, no flow control, at most 15 fragments without
      a return code, and the card answers what it was sent, once. */
  predicate Allowed(s: System, ev: Event)
    requires Inv(s)
  {
    Enabled(s.a, ev) &&
    match ev
    case Posts(e, req, _, _) => Assigned(s.a.ents[e]) && req != REMOVE && req != UREMOVE
    case Assigns(_, _, req, _, _) => req != REMOVE && req != UREMOVE
    case Sends(_) => s.a.queue[0] in s.a.queue && s.a.ents[s.a.queue[0]].count < OUTSTANDING
    case EndsBatch(_) => false
    case Returns(rc, id, _, ref, ext) =>
      && rc != OK_FC && rc != READY_INT && ext != RELEASED_FC
      && if s.a.idTable[id] != 0 then s.h[s.a.idTable[id]].answered < s.h[s.a.idTable[id]].sent
         else ref in s.a.assigns && s.a.assigns[ref] in s.a.ents ==> s.a.ents[s.a.assigns[ref]].final
  }

  function Observe(s: System, ev: Event): (h: map<Byte, Hist>)
    requires Inv(s) && Allowed(s, ev)
  {
    match ev
    case Posts(e, req, ch, x) =>
      var g := s.h[e];
      if s.a.ents[e].busy then s.h
      else
        s.h[e := g.(posts := g.posts + 1, asked := Asked(s.a.ents[e].id, req, ch, x), reqs := [], out := [],
                    complete := false)]
    case Assigns(e, id, req, ch, x) => s.h[e := Hist(1, 0, 0, 0, id, Asked(id, req, ch, x), [], [], false)]
    case Sends(ref) =>
      var r := SendOne(s.a, ref).out[0];
      var g := s.h[r.no];
      var sent := if r.id % 0x20 != 0 then g.sent + 1 else g.sent;
      s.h[r.no := g.(sent := sent, reqs := g.reqs + [r], out := g.out + [r.data], complete := r.last)]
    case Returns(rc, id, ch, ref, ext) =>
      var r := ReturnCode(s.a, rc, id, ch, ref, ext);
      if s.a.idTable[id] != 0 then
        var e := s.a.idTable[id];
        var g := s.h[e];
        s.h[e := g.(answered := g.answered + 1, calls := g.calls + |r.calls|)]
      else if r.code == 1 then
        var e := r.calls[0].no;
        if e in r.a.ents then s.h[e := s.h[e].(calls := s.h[e].calls + 1)] else s.h - {e}
      else s.h
  }

  function Next(s: System, ev: Event): System
    requires Inv(s) && Allowed(s, ev)
  {
    System(Step(s.a, ev), Observe(s, ev))
  }

  /** One entity and its history change, the queue as they say. */
  lemma OneChanges(s: System, t: System, e: Byte)
    requires Inv(s) && Good(t.a) && Quiet(t.a) && e in t.a.ents
    requires t.a.ents == s.a.ents[e := t.a.ents[e]] && t.h.Keys == s.h.Keys + {e} && t.h == s.h[e := t.h[e]]
    requires Distinct(t.a.queue)
    requires forall k: Byte | k != e :: k in t.a.queue <==> k in s.a.queue
    requires Tracks(t.a.ents[e], t.h[e], e in t.a.queue) && Carried(e, t.a.ents[e], t.h[e])
    ensures Inv(t)
  {
    hide Good, Quiet, Tracks, Carried;
  }

  lemma PostTracks(s: System, e: Byte, req: Byte, ch: Byte, x: seq<seq<Byte>>)
    requires Inv(s) && Allowed(s, Posts(e, req, ch, x))
    ensures Inv(Next(s, Posts(e, req, ch, x)))
  {
    hide Names, Slots, Fragments, Take, Rest;
    StepKeeps(s.a, Posts(e, req, ch, x));
    var t := Next(s, Posts(e, req, ch, x));
    if !s.a.ents[e].busy {
      var n := t.a.ents[e];
      assert [] + Fragments(n.x, 0, 0) == Fragments(n.x, 0, 0);
      OneChanges(s, t, e);
    }
  }

  lemma AssignTracks(s: System, e: Byte, id: Byte, req: Byte, ch: Byte, x: seq<seq<Byte>>)
    requires Inv(s) && Allowed(s, Assigns(e, id, req, ch, x))
    ensures Inv(Next(s, Assigns(e, id, req, ch, x)))
  {
    hide Names, Slots, Fragments, Take, Rest;
    StepKeeps(s.a, Assigns(e, id, req, ch, x));
    OneChanges(s, Next(s, Assigns(e, id, req, ch, x)), e);
  }

  lemma FragmentsUnfold(x: seq<seq<Byte>>, cur: nat, off: nat, out: seq<seq<Byte>>)
    requires ValidPos(x, cur, off)
    ensures var t := Take(x, cur, off, CHUNK);
            out + Fragments(x, cur, off) == (out + [t.data]) + if t.cur < |x| then Fragments(x, t.cur, t.off) else []
  {
    hide Take, Rest;
    var t := Take(x, cur, off, CHUNK);
    var more := if t.cur < |x| then Fragments(x, t.cur, t.off) else [];
    assert out + ([t.data] + more) == (out + [t.data]) + more;
  }

  /** Serving the head of the queue, and putting it back at the end. */
  lemma Rotate(q: seq<Byte>)
    requires Distinct(q) && q != []
    ensures Distinct(q[1..]) && Distinct(q[1..] + [q[0]])
    ensures q[0] !in q[1..]
    ensures forall k: Byte | k != q[0] :: (k in q[1..] <==> k in q) && (k in q[1..] + [q[0]] <==> k in q)
  {
    assert q == [q[0]] + q[1..];
  }

  lemma SendTables(s: System, ref: Word)
    requires Inv(s) && Allowed(s, Sends(ref))
    ensures var t, e := Next(s, Sends(ref)), s.a.queue[0];
            && e in s.a.ents && e in t.a.ents && e in t.h && Good(t.a) && Quiet(t.a)
  {
    hide Names, Slots, Take, Distinct;
    StepKeeps(s.a, Sends(ref));
    assert s.a.queue[0] in s.a.queue;
  }

  /** What sending an ASSIGN does to its entity and to what is noted of it. */
  lemma AssignEffect(s: System, ref: Word)
    requires Inv(s) && Allowed(s, Sends(ref)) && s.a.queue[0] in s.a.ents && !Assigned(s.a.ents[s.a.queue[0]])
    ensures var t, e := Next(s, Sends(ref)), s.a.queue[0];
            var n, g := s.a.ents[e], s.h[e];
            var c := Take(n.x, n.xCurrent, n.xOffset, CHUNK);
            && e in t.a.ents && e in t.h && e !in t.a.queue
            && t.a.ents[e] == n.(xCurrent := c.cur, xOffset := c.off, mInd := ChainCode(n.id), final := true, part := false)
            && t.h[e] == g.(reqs := g.reqs + [Request(e, n.id, n.reqCh, n.req, c.data, true)], out := g.out + [c.data],
                            complete := true)
  {
    hide Names, Slots, Quiet, Fragments, Take, Rest, Distinct, ChainCode, Coded, Tracks, Carried;
    Rotate(s.a.queue);
  }

  lemma AssignSent(s: System, ref: Word)
    requires Inv(s) && Allowed(s, Sends(ref)) && s.a.queue[0] in s.a.ents && !Assigned(s.a.ents[s.a.queue[0]])
    ensures var t, e := Next(s, Sends(ref)), s.a.queue[0];
            && e in t.a.ents && e in t.h && Good(t.a) && Tracks(t.a.ents[e], t.h[e], e in t.a.queue)
            && Carried(e, t.a.ents[e], t.h[e])
  {
    hide Names, Slots, Quiet, Fragments, Take, Rest, Distinct, ChainCode, Coded, Next;
    StepKeeps(s.a, Sends(ref));
    var e := s.a.queue[0];
    assert e in s.a.queue;
    AssignEffect(s, ref);
    NextGood(s, Sends(ref));
    var n, g := s.a.ents[e], s.h[e];
    var data := Take(n.x, 0, 0, CHUNK).data;
    CodedGrows(e, g.kind, g.asked, g.out, data, true);
    assert g.out + [data] == [data];
  }

  lemma NextGood(s: System, ev: Event)
    requires Inv(s) && Allowed(s, ev)
    ensures Good(Next(s, ev).a)
  {
    hide Inv, Allowed, Observe;
    InvGood(s, ev);
    StepKeeps(s.a, ev);
  }

  lemma InvGood(s: System, ev: Event)
    requires Inv(s) && Allowed(s, ev)
    ensures Good(s.a) && Enabled(s.a, ev)
  {
    hide Good, Quiet, Tracks, Carried, Distinct;
  }

  /** One fragment, as the entity and as the observer see it. */
  lemma FragmentTracks(n: Ent, g: Hist, more: bool, rs: seq<Request>)
    requires ValidPos(n.x, n.xCurrent, n.xOffset) && Assigned(n) && Tracks(n, g, true)
    requires more == (Take(n.x, n.xCurrent, n.xOffset, CHUNK).cur < |n.x| && n.mInd != 0)
    ensures var t := Take(n.x, n.xCurrent, n.xOffset, CHUNK);
            var m := n.(xCurrent := t.cur, xOffset := t.off, count := n.count + 1, part := more, final := !more);
            Tracks(m, g.(sent := g.sent + 1, reqs := rs, out := g.out + [t.data], complete := !more), more)
  {
    hide Fragments, Take, Rest;
    FragmentsUnfold(n.x, n.xCurrent, n.xOffset, g.out);
  }

  lemma FragmentCarried(e: Byte, n: Ent, g: Hist, more: bool)
    requires ValidPos(n.x, n.xCurrent, n.xOffset) && Assigned(n) && Tracks(n, g, true) && Carried(e, n, g)
    requires more == (Take(n.x, n.xCurrent, n.xOffset, CHUNK).cur < |n.x| && n.mInd != 0)
    ensures var t := Take(n.x, n.xCurrent, n.xOffset, CHUNK);
            var m := n.(xCurrent := t.cur, xOffset := t.off, count := n.count + 1, part := more, final := !more);
            var r := Request(e, n.id, n.reqCh, if more then n.mInd else n.req, t.data, !more);
            Carried(e, m, g.(sent := g.sent + 1, reqs := g.reqs + [r], out := g.out + [t.data], complete := !more))
  {
    hide Fragments, Take, Rest, Coded, ChainCode;
    FragmentTracks(n, g, more, g.reqs);
    CodedGrows(e, g.kind, g.asked, g.out, Take(n.x, n.xCurrent, n.xOffset, CHUNK).data, !more);
  }

  /** What sending a fragment does to its entity and to what is noted of it. */
  lemma FragmentEffect(s: System, ref: Word)
    requires Inv(s) && Allowed(s, Sends(ref)) && s.a.queue[0] in s.a.ents && Assigned(s.a.ents[s.a.queue[0]])
    requires !s.a.ents[s.a.queue[0]].final
    ensures var t, e := Next(s, Sends(ref)), s.a.queue[0];
            var n, g := s.a.ents[e], s.h[e];
            var c := Take(n.x, n.xCurrent, n.xOffset, CHUNK);
            var more := c.cur < |n.x| && n.mInd != 0;
            var r := Request(e, n.id, n.reqCh, if more then n.mInd else n.req, c.data, !more);
            && e in t.a.ents && e in t.h && (e in t.a.queue <==> more)
            && t.a.ents[e] == n.(xCurrent := c.cur, xOffset := c.off, count := n.count + 1, part := more, final := !more)
            && t.h[e] == g.(sent := g.sent + 1, reqs := g.reqs + [r], out := g.out + [c.data], complete := !more)
  {
    hide Inv, Good, Shape, Fragments, Take, Distinct, ChainCode, Coded, Tracks, Carried;
    InvQueue(s);
    Rotate(s.a.queue);
  }

  lemma InvQueue(s: System)
    requires Inv(s) && s.a.queue != []
    ensures Shape(s.a) && Distinct(s.a.queue) && s.a.queue[0] in s.a.queue && s.a.queue[0] in s.a.ents
    ensures s.h.Keys == s.a.ents.Keys
  {
    hide Tracks, Carried, Quiet, Names, Slots;
  }

  lemma FragmentSent(s: System, ref: Word)
    requires Inv(s) && Allowed(s, Sends(ref)) && s.a.queue[0] in s.a.ents && Assigned(s.a.ents[s.a.queue[0]])
    ensures var t, e := Next(s, Sends(ref)), s.a.queue[0];
            && e in t.a.ents && e in t.h && Good(t.a) && Tracks(t.a.ents[e], t.h[e], e in t.a.queue)
            && Carried(e, t.a.ents[e], t.h[e])
  {
    hide Names, Slots, Quiet, Take, Distinct, Tracks, Carried, Next, Fragments, Rest;
    var e := s.a.queue[0];
    assert e in s.a.queue;
    var n := s.a.ents[e];
    var more := Take(n.x, n.xCurrent, n.xOffset, CHUNK).cur < |n.x| && n.mInd != 0;
    StillGoing(n, s.h[e]);
    FragmentCarried(e, n, s.h[e], more);
    FragmentEffect(s, ref);
    NextGood(s, Sends(ref));
    FragmentTracks(n, s.h[e], more, Next(s, Sends(ref)).h[e].reqs);
  }

  lemma StillGoing(n: Ent, g: Hist)
    requires ValidPos(n.x, n.xCurrent, n.xOffset) && Tracks(n, g, true)
    ensures n.busy && !n.final
  {
  }

  lemma SendTracks(s: System, ref: Word)
    requires Inv(s) && Allowed(s, Sends(ref))
    ensures Inv(Next(s, Sends(ref)))
  {
    hide Names, Slots, Fragments, Take, Rest, Distinct, Tracks, Carried;
    SendTables(s, ref);
    if Assigned(s.a.ents[s.a.queue[0]]) {
      FragmentSent(s, ref);
    } else {
      AssignSent(s, ref);
    }
    Rotate(s.a.queue);
    OneChanges(s, Next(s, Sends(ref)), s.a.queue[0]);
  }

  /** What a return code for an entity does to it and to what is noted of it. */
  lemma AnswerEffect(s: System, rc: Byte, id: Byte, ch: Byte, ref: Word, ext: Dword)
    requires Inv(s) && Allowed(s, Returns(rc, id, ch, ref, ext)) && s.a.idTable[id] != 0
    ensures var e, r, t := s.a.idTable[id], ReturnCode(s.a, rc, id, ch, ref, ext), Next(s, Returns(rc, id, ch, ref, ext));
            e in s.a.ents && var n := s.a.ents[e];
            var m := n.(rcCh := ch, count := n.count - 1);
            var passed := n.final && n.count == 1 && !n.part;
            && t.a == s.a.(ents := s.a.ents[e := if passed then Done(m, rc) else m])
            && r.calls == (if passed then [Call(e, Done(m, rc))] else [])
            && t.h == s.h[e := s.h[e].(answered := s.h[e].answered + 1, calls := s.h[e].calls + |r.calls|)]
  {
    hide Names, Slots, Fragments, Take, Rest, Coded, Data, ChainCode, Carried, Distinct;
    IdIsLive(s.a, id);
  }

  /** A return code for an entity: it counts one down, and is passed on exactly
      if it answers the last fragment of a request that is out completely. */
  lemma AnswerTracks(s: System, rc: Byte, id: Byte, ch: Byte, ref: Word, ext: Dword)
    requires Inv(s) && Allowed(s, Returns(rc, id, ch, ref, ext)) && s.a.idTable[id] != 0
    ensures Inv(Next(s, Returns(rc, id, ch, ref, ext)))
    ensures var e, r := s.a.idTable[id], ReturnCode(s.a, rc, id, ch, ref, ext);
            && |r.calls| <= 1
            && (r.calls != [] <==> s.h[e].answered + 1 == s.h[e].sent && s.a.ents[e].busy && s.h[e].complete)
            && (r.calls != [] ==> r.calls[0].no == e && r.calls[0].ent.rc == rc && !r.calls[0].ent.busy &&
                                  AllSent(s.a.ents[e], s.h[e].out))
  {
    hide Names, Slots, Fragments, Take, Rest, Coded, Data, ChainCode, Next, Known;
    IdIsLive(s.a, id);
    AnswerEffect(s, rc, id, ch, ref, ext);
    NextGood(s, Returns(rc, id, ch, ref, ext));
    OneChanges(s, Next(s, Returns(rc, id, ch, ref, ext)), s.a.idTable[id]);
  }

  lemma IdIsLive(a: Xdi, id: Byte)
    requires Good(a) && a.idTable[id] != 0
    ensures id != 0 && a.idTable[id] in a.ents && a.ents[a.idTable[id]].id == id && Assigned(a.ents[a.idTable[id]])
  {
  }

  lemma AssignedTracks(s: System, rc: Byte, id: Byte, ch: Byte, ref: Word, ext: Dword)
    requires Inv(s) && Allowed(s, Returns(rc, id, ch, ref, ext)) && s.a.idTable[id] == 0
    ensures Inv(Next(s, Returns(rc, id, ch, ref, ext)))
  {
    hide Names, Slots, Fragments, Take, Rest, Coded, Data, ChainCode;
    StepKeeps(s.a, Returns(rc, id, ch, ref, ext));
    var t := Next(s, Returns(rc, id, ch, ref, ext));
    if rc / 0x10 == 0xe && ref in s.a.assigns && s.a.assigns[ref] in s.a.ents {
      var e := s.a.assigns[ref];
      if rc == ASSIGN_OK {
        OneChanges(s, t, e);
      }
    }
  }

  lemma NextKeeps(s: System, ev: Event)
    requires Inv(s) && Allowed(s, ev)
    ensures Inv(Next(s, ev))
  {
    hide Inv, Next, Observe;
    match ev
    case Posts(e, req, ch, x) => PostTracks(s, e, req, ch, x);
    case Assigns(e, id, req, ch, x) => AssignTracks(s, e, id, req, ch, x);
    case Sends(ref) => SendTracks(s, ref);
    case EndsBatch(_) =>
    case Returns(rc, id, ch, ref, ext) =>
      if s.a.idTable[id] != 0 {
        AnswerTracks(s, rc, id, ch, ref, ext);
      } else {
        AssignedTracks(s, rc, id, ch, ref, ext);
      }
  }

  /** Any run of allowed events from a state that is as it should be. */
  predicate Reaches(s: System, evs: seq<Event>, t: System)
    requires Inv(s)
    decreases |evs|
  {
    if evs == [] then s == t
    else Allowed(s, evs[0]) && (NextKeeps(s, evs[0]); Reaches(Next(s, evs[0]), evs[1..], t))
  }

  /** In every such run, from the start of the driver: XMOREC is the fragments
      sent less the return codes received, each request but the one in progress
      was called back exactly once, and of the last one posted the card has got
      fragments with its Id, its channel and its data, its code on the last of
      them and the code that announces more on the others; all of them, once the
      last one is out. */
  lemma {:induction false} EveryRequestOnce(s: System, evs: seq<Event>, t: System)
    requires Inv(s) && Reaches(s, evs, t)
    ensures Inv(t)
    ensures forall e | e in t.a.ents ::
              && t.h[e].sent - t.h[e].answered == t.a.ents[e].count
              && t.h[e].posts - t.h[e].calls == (if t.a.ents[e].busy then 1 else 0)
              && var h := t.h[e];
                 && h.reqs == Coded(e, h.kind, h.asked, h.out, h.complete)
                 && (h.complete ==> h.out == Data(h.asked, h.kind))
    decreases |evs|
  {
    hide Next, Good, Quiet, Allowed, AllSent, Underway, Distinct, Coded, Data;
    if evs != [] {
      NextKeeps(s, evs[0]);
      EveryRequestOnce(Next(s, evs[0]), evs[1..], t);
    }
  }

  lemma Initially()
    ensures Inv(System(Empty(), map[]))
  {
  }
}
