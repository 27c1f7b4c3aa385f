/** The driver's side of the request and return code protocol (kernel/di.c),
    as a state and its steps: a client posts, pr_out sends one request to the
    card, the card returns a code. */
module XdiState {
  import opened Words
  import opened XdiFragment

  const OK := 0xff
  const OK_FC := 0xfc
  const READY_INT := 0xfd
  const ASSIGN_OK := 0xef
  const REMOVE := 0xff
  const UREMOVE := 0xfe
  const REMOVE_COMPLETE := 8
  const RELEASED_FC := 0xb
  const NL_ID := 0x20
  const BLLC_ID := 0x60
  const TASK_ID := 0x80
  const MAN_ID := 0xe0
  const N_MDATA := 1
  const LL_MDATA := 9

  /** An ENTITY. `count`, `part`, `final` and `busy` are XMOREC, XMOREP, XMOREF
      and XBUSY of its More field. */
  datatype Ent = Ent(
    id: Byte, req: Byte, reqCh: Byte, mInd: Byte,
    count: nat, part: bool, final: bool, busy: bool,
    x: seq<seq<Byte>>, xCurrent: nat, xOffset: nat,
    rc: Byte, rcCh: Byte, complete: Byte)

  /** The low five bits of an Id are zero until the card has assigned one. */
  predicate Assigned(n: Ent) {
    n.id % 0x20 != 0
  }

  /** An ADAPTER. 0 stands for no entity, and for no Id. */
  datatype Xdi = Xdi(
    ents: map<Byte, Ent>,
    queue: seq<Byte>,
    assigns: map<Word, Byte>,
    idTable: seq<Byte>,
    idType: seq<Byte>,
    fcId: seq<Byte>,
    fcSkip: seq<bool>,
    removePending: seq<bool>,
    noCancel: seq<bool>,
    rcExtension: bool,
    readyInt: nat)

  predicate Shape(a: Xdi) {
    && |a.idTable| == |a.idType| == |a.fcId| == |a.fcSkip| == |a.removePending| == |a.noCancel| == 0x100
    && 0 !in a.ents.Keys
    && (forall e | e in a.ents :: ValidPos(a.ents[e].x, a.ents[e].xCurrent, a.ents[e].xOffset))
  }

  /** An Id in the table is that of a live entity, and a live entity that was
      assigned an Id is in the table. */
  predicate Names(a: Xdi)
    requires Shape(a)
  {
    && (forall id: Byte :: a.idTable[id] != 0 ==> a.idTable[id] in a.ents && a.ents[a.idTable[id]].id == id && id % 0x20 != 0)
    && (forall e | e in a.ents :: Assigned(a.ents[e]) ==> a.idTable[a.ents[e].id] == e)
  }

  /** A flow controlled channel belongs to an Id that is in use. */
  predicate Slots(a: Xdi)
    requires Shape(a)
  {
    forall ch: Byte :: a.fcId[ch] != 0 ==> a.idTable[a.fcId[ch]] != 0
  }

  predicate Good(a: Xdi): (b: bool)
    ensures b ==> Shape(a)
  {
    Shape(a) && Names(a) && Slots(a)
  }

  function Empty(): (a: Xdi)
    ensures Good(a)
  {
    var z: seq<Byte> := seq(0x100, _ => 0);
    var f := seq(0x100, _ => false);
    Xdi(map[], [], map[], z, z, z, f, f, f, false, 0)
  }

  /** A request of an entity; ignored while an earlier one is in progress. */
  function Post(a: Xdi, e: Byte, req: Byte, ch: Byte, x: seq<seq<Byte>>): Xdi
    requires e in a.ents
  {
    var n := a.ents[e];
    if n.busy then a
    else a.(ents := a.ents[e := n.(req := req, reqCh := ch, x := x, busy := true, final := false, xCurrent := 0, xOffset := 0)],
            queue := a.queue + [e])
  }

  /** The request that makes an entity: it takes the free number `e`. */
  function PostAssign(a: Xdi, e: Byte, id: Byte, req: Byte, ch: Byte, x: seq<seq<Byte>>): Xdi
    requires e !in a.ents
  {
    var n := Ent(id, req, ch, 0, 0, false, false, false, [], 0, 0, 0, 0, 0);
    Post(a.(ents := a.ents[e := n]), e, req, ch, x)
  }

  /** A request as the card gets it; `last` says it is the last fragment. */
  datatype Request = Request(no: Byte, id: Byte, ch: Byte, req: Byte, data: seq<Byte>, last: bool)

  datatype Sent = Sent(a: Xdi, out: seq<Request>)

  function ChainCode(id: Byte): Byte {
    if id == BLLC_ID then LL_MDATA
    else if id == NL_ID || id == TASK_ID || id == MAN_ID then N_MDATA
    else 0
  }

  /** Hand a fragment of the entity's request to the card; `left` says there is
      more behind it. `ref` is the reference the card's request buffer carries. */
  function Dispatch(a: Xdi, e: Byte, n: Ent, data: seq<Byte>, left: bool, ref: Word): Sent
    requires Shape(a)
  {
    if !Assigned(n) then
      Sent(a.(ents := a.ents[e := n.(mInd := ChainCode(n.id), final := true, part := false)],
              idType := a.idType[e := n.id],
              assigns := a.assigns[ref := e]),
           [Request(e, n.id, n.reqCh, n.req, data, true)])
    else if left && n.mInd != 0 then
      Sent(a.(ents := a.ents[e := n.(count := n.count + 1, part := true)],
              queue := a.queue + [e]),
           [Request(e, n.id, n.reqCh, n.mInd, data, false)])
    else
      Sent(a.(ents := a.ents[e := n.(count := n.count + 1, part := false, final := true)],
              fcSkip := if a.fcId[n.reqCh] == n.id then a.fcSkip[n.reqCh := true] else a.fcSkip,
              removePending := if n.req == REMOVE then a.removePending[e := true] else a.removePending),
           [Request(e, n.id, n.reqCh, n.req, data, true)])
  }

  /** One turn of pr_out for the entity at the head of the queue. */
  function SendOne(a: Xdi, ref: Word): (s: Sent)
    requires Shape(a) && a.queue != []
    ensures |s.out| <= 1
  {
    var e := a.queue[0];
    var b := a.(queue := a.queue[1..]);
    if e !in a.ents then Sent(b, [])
    else
      var n := a.ents[e];
      var t := Take(n.x, n.xCurrent, n.xOffset, CHUNK);
      Dispatch(b, e, n.(xCurrent := t.cur, xOffset := t.off), t.data, t.cur < |n.x|, ref)
  }

  function Cleared(s: seq<Byte>, id: Byte): (t: seq<Byte>)
    ensures |t| == |s|
    ensures forall k | 0 <= k < |s| :: t[k] == if s[k] == id then 0 else s[k]
  {
    seq(|s|, k requires 0 <= k < |s| => if s[k] == id then 0 else s[k])
  }

  /** Take an Id out of the tables, and its entity out of the driver. */
  function Free(a: Xdi, e: Byte, id: Byte): Xdi
    requires Shape(a)
  {
    a.(ents := a.ents - {e}, fcId := Cleared(a.fcId, id), idTable := a.idTable[id := 0])
  }

  /** The adapter's side of a completed removal. */
  function Unlinked(a: Xdi, e: Byte, id: Byte, ext: Dword): (b: Xdi)
    requires Shape(a)
    ensures Shape(b)
  {
    Free(a.(rcExtension := a.rcExtension || (a.idType[e] == NL_ID && ext == REMOVE_COMPLETE),
            removePending := a.removePending[e := false],
            noCancel := a.noCancel[e := false]), e, id)
  }

  /** The end of pr_out: if the entity served last asked for its removal without
      a return code, it is gone. */
  function EndBatch(a: Xdi, e: Byte): Xdi
    requires Shape(a)
  {
    if e in a.ents && a.ents[e].req == UREMOVE && a.ents[e].id != 0 then
      Free(a, a.idTable[a.ents[e].id], a.ents[e].id)
    else a
  }

  /** A callback, with the entity as the client sees it then. */
  datatype Call = Call(no: Byte, ent: Ent)

  datatype Out = Out(a: Xdi, calls: seq<Call>, code: nat)

  function Done(n: Ent, rc: Byte): Ent {
    n.(rc := rc, busy := false, complete := 0xff)
  }

  /** Whether a return code completes the removal of the entity. */
  predicate Removes(a: Xdi, e: Byte, rc: Byte)
    requires Shape(a)
  {
    a.removePending[e] && rc == OK
  }

  /** Cards that say when a removal is complete also acknowledge the request
      itself; this acknowledgement is not the one. */
  predicate NotYet(a: Xdi, e: Byte, ext: Dword)
    requires Shape(a)
  {
    a.idType[e] == NL_ID && a.rcExtension && ext != REMOVE_COMPLETE
  }

  function Put(a: Xdi, e: Byte, n: Ent, live: bool): Xdi {
    if live then a.(ents := a.ents[e := n]) else a
  }

  /** A return code that is an answer to a request: the end of flow control, or
      one less to wait for. */
  function Settle(a: Xdi, e: Byte, n: Ent, live: bool, rc: Byte, id: Byte, ch: Byte): (r: Out)
    requires Shape(a)
    ensures r.code == 0
  {
    if !a.noCancel[e] && a.fcId[ch] == id then
      var b := a.(fcId := a.fcId[ch := 0]);
      if rc != OK || !a.fcSkip[ch] then
        var m := if ch == n.reqCh then Done(n, rc).(count := 0) else n.(rc := rc);
        Out(Put(b, e, m, live), [Call(e, m)], 0)
      else Out(Put(b, e, n, live), [], 0)
    else
      var m := n.(count := if 0 < n.count then n.count - 1 else 0);
      if (a.noCancel[e] || m.final) && m.count == 0 && !m.part then
        Out(Put(a, e, Done(m, rc), live), [Call(e, Done(m, rc))], 0)
      else Out(Put(a, e, m, live), [], 0)
  }

  /** What a return code does with an entity that is still there (`live`), or was
      just removed: flow control, its release, or the answer to a request. */
  function Answer(a: Xdi, e: Byte, n: Ent, live: bool, rc: Byte, id: Byte, ch: Byte, ext: Dword): (r: Out)
    requires Shape(a)
    ensures r.code == 0
  {
    if rc == OK_FC then
      var m := Done(n, rc).(count := 0);
      Out(Put(a.(fcId := a.fcId[ch := id], fcSkip := a.fcSkip[ch := false]), e, m, live), [Call(e, m)], 0)
    else if ext == RELEASED_FC then
      var m := n.(rc := rc, complete := 0xff);
      Out(Put(a.(noCancel := a.noCancel[e := true]), e, m, live), [Call(e, m)], 0)
    else Settle(a, e, n, live, rc, id, ch)
  }

  /** A return code for an Id in the table. */
  function Known(a: Xdi, e: Byte, rc: Byte, id: Byte, ch: Byte, ext: Dword): (r: Out)
    requires Shape(a) && e in a.ents
    ensures r.code == 0
  {
    var n := a.ents[e].(rcCh := ch);
    if !Removes(a, e, rc) then Answer(a, e, n, true, rc, id, ch, ext)
    else if NotYet(a, e, ext) then Out(Put(a, e, n, true), [], 0)
    else
      Answer(Unlinked(a, e, id, ext), e, n.(id := 0, count := if 1 < n.count then 1 else n.count), false, rc, id, ch, ext)
  }

  /** The answer to an ASSIGN: the entity gets the Id, or goes. */
  function AssignRc(a: Xdi, e: Byte, rc: Byte, id: Byte): (r: Out)
    requires Shape(a) && e in a.ents
    ensures r.code == 1
  {
    var m := Done(a.ents[e].(id := id), rc);
    if rc == ASSIGN_OK then
      Out(a.(ents := a.ents[e := m], idTable := a.idTable[id := e]), [Call(e, m)], 1)
    else
      Out(Free(a, e, id), [Call(e, m)], 1)
  }

  /** `isdn_rc`. 2 says the code is not for us. */
  function ReturnCode(a: Xdi, rc: Byte, id: Byte, ch: Byte, ref: Word, ext: Dword): Out
    requires Good(a)
  {
    if rc == READY_INT then
      if 0 < a.readyInt then Out(a.(readyInt := a.readyInt - 1), [], 0) else Out(a, [], 2)
    else if a.idTable[id] != 0 then Known(a, a.idTable[id], rc, id, ch, ext)
    else if rc / 0x10 == 0xe && ref in a.assigns && a.assigns[ref] in a.ents then
      AssignRc(a, a.assigns[ref], rc, id)
    else Out(a, [], 2)
  }

  /** What the card owes the driver: an Id it assigns is one of its own, and
      answers an ASSIGN that is waiting for one. */
  predicate FairAssign(a: Xdi, rc: Byte, id: Byte, ref: Word)
    requires Shape(a)
  {
    rc != READY_INT && a.idTable[id] == 0 && rc / 0x10 == 0xe && ref in a.assigns && a.assigns[ref] in a.ents ==>
      id % 0x20 != 0 && !Assigned(a.ents[a.assigns[ref]])
  }
}
