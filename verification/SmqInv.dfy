/** What every step of the queue keeps. */
module SmqInv {
  import opened SmqMap
  import opened SmqRing
  import opened SmqOwn
  import opened Smq

  function Nodes(ms: seq<Msg>): (r: seq<Node>)
    ensures |r| == |ms|
  {
    seq(|ms|, i requires 0 <= i < |ms| => ms[i].node)
  }

  function Starts(xs: seq<Node>): (r: seq<int>)
    ensures |r| == |xs|
  {
    seq(|xs|, i requires 0 <= i < |xs| => xs[i].at)
  }

  /** Published and not yet read. */
  function Unread(s: State): seq<Msg> {
    if |s.received| <= |s.published| then s.published[|s.received|..] else []
  }

  /** Given back and not yet reclaimed. */
  function Returned(s: State): seq<Node> {
    if s.reclaimed <= |s.freed| then s.freed[s.reclaimed..] else []
  }

  /** The range the producer has taken but not yet published. */
  function InFlight(pc: ProducerPc): seq<Node> {
    match pc
    case PAllocated(node) => [node]
    case PCopied(msg) => [msg.node]
    case PWritten(msg) => [msg.node]
    case _ => []
  }

  /** The range the consumer is giving back. */
  function Freeing(cpc: ConsumerPc): seq<Node> {
    if cpc.CFreeing? then [cpc.node] else []
  }

  /** The ranges of all outstanding messages. */
  function Outstanding(s: State): multiset<Node> {
    Total(Nodes(Unread(s)), Nodes(s.held), Freeing(s.cpc), Returned(s), InFlight(s.pc))
  }

  function Total(unread: seq<Node>, held: seq<Node>, freeing: seq<Node>, returned: seq<Node>, flying: seq<Node>): multiset<Node> {
    multiset(unread) + multiset(held) + multiset(freeing) + multiset(returned) + multiset(flying)
  }

  /** The oldest slot still needed: the consumer reads a node again after it has moved its index on. */
  function SentBase(s: State): int {
    if s.cpc.CAdvanced? then s.cpc.slot else s.sentRead
  }

  function FreeBase(s: State): int {
    if s.pc.PAdvanced? then s.pc.slot else s.freeRead
  }

  /** The message's data lies in its blocks. */
  predicate Intact(blocks: seq<int>, m: Msg) {
    Contents(blocks, m.node) == m.data
  }

  predicate AllIntact(blocks: seq<int>, ms: seq<Msg>) {
    forall i :: 0 <= i < |ms| ==> Intact(blocks, ms[i])
  }

  predicate ConsumerOk(n: int, s: State) {
    match s.cpc
    case CIdle => true
    case CChecked(slot) => slot == s.sentRead && Unread(s) != []
    case CAdvanced(slot) => 0 <= slot < n && s.sentRead == NextIndex(n, slot) && Unread(s) != []
    case CFreeing(node) => 0 <= s.freeWrite < |s.free| && s.free[s.freeWrite] == node.at
  }

  predicate ProducerOk(n: int, s: State) {
    match s.pc
    case PChecked(slot) => slot == s.freeRead && Returned(s) != []
    case PAdvanced(slot) => 0 <= slot < n && s.freeRead == NextIndex(n, slot) && Returned(s) != []
    case PCopied(msg) => Intact(s.blocks, msg)
    case PWritten(msg) => Intact(s.blocks, msg) && 0 <= s.sentWrite < |s.sent| && s.sent[s.sentWrite] == msg.node
    case _ => true
  }

  ghost predicate Inv(n: int, s: State) {
    && Shape(n, s)
    && WellFormed(s.map_)
    && |s.received| <= |s.published| && s.received == s.published[..|s.received|] && s.reclaimed <= |s.freed|
    && Owns(s.map_, Outstanding(s))
    && Ring(n, s.sent, SentBase(s), s.sentWrite, Nodes(Unread(s)))
    && Ring(n, s.free, FreeBase(s), s.freeWrite, Starts(Returned(s)))
    && ConsumerOk(n, s)
    && ProducerOk(n, s)
    && AllIntact(s.blocks, Unread(s))
    && AllIntact(s.blocks, s.held)
  }

  lemma InitInv(n: int)
    requires 1 < n <= 256
    ensures Inv(n, Init(n))
  {
    hide Ring;
    assert Ring(n, Init(n).sent, 0, 0, []) && Ring(n, Init(n).free, 0, 0, []) by {
      EmptyRing(n, Init(n).sent);
      EmptyRing(n, Init(n).free);
    }
    assert Outstanding(Init(n)) == multiset{};
    assert Nodes([]) == [] && Starts([]) == [];
  }

  lemma EmptyRing<T>(n: int, buf: seq<T>)
    requires |buf| == n > 0
    ensures Ring(n, buf, 0, 0, [])
  {
  }

  /** Every message outstanding has its range inside the blocks. */
  lemma OutstandingIn(n: int, s: State, x: Node)
    requires Inv(n, s) && x in Outstanding(s)
    ensures 0 <= x.at && 1 <= x.n && x.at + x.n < n
  {
    hide Outstanding, Ring, Intact;
    assert Marked(s.map_, x);
  }

  /** Neither ring is ever full: outstanding messages, wherever they are, number at most num_blocks - 1. */
  lemma NoOverrun(n: int, s: State)
    requires Inv(n, s)
    ensures |Unread(s)| + |s.held| + |Freeing(s.cpc)| + |Returned(s)| + |InFlight(s.pc)| <= n - 1
  {
    hide Ring, Unread, Returned, InFlight, Freeing, Intact, Owns, ConsumerOk, ProducerOk, WellFormed;
    OwnsBound(s.map_, Outstanding(s));
  }

  /** The oldest range given back is outstanding. */
  lemma ReturnedOut(n: int, s: State)
    requires Inv(n, s) && Starts(Returned(s)) != []
    ensures Returned(s) != [] && 0 <= Starts(Returned(s))[0] < n
  {
    var r := Returned(s);
    assert r[0] in multiset(r);
    hide Inv, Unread, Returned;
    OutstandingIn(n, s, r[0]);
  }

  lemma ReclaimCheckInv(n: int, s: State)
    requires Inv(n, s)
    ensures !Step(n, s, ReclaimCheck).BadParm?
    ensures Step(n, s, ReclaimCheck).Next? ==> Inv(n, Step(n, s, ReclaimCheck).s)
  {
    hide Owns, WellFormed, NextIndex, Ring, AllIntact, Intact, Outstanding, Nodes, Unread, Returned, Starts;
    if s.pc.PIdle? {
      RingHead(n, s.free, s.freeRead, s.freeWrite, Starts(Returned(s)));
      if s.freeRead != s.freeWrite {
        ReturnedOut(n, s);
        var s' := s.(pc := PChecked(s.freeRead));
        SameHistory(s, s');
      }
    }
  }

  lemma ReclaimAdvanceInv(n: int, s: State)
    requires Inv(n, s)
    ensures Step(n, s, ReclaimAdvance).Next? ==> Inv(n, Step(n, s, ReclaimAdvance).s)
    ensures !Step(n, s, ReclaimAdvance).BadParm?
  {
    hide Ring, Owns, WellFormed, Intact, AllIntact, NextIndex, Outstanding, Nodes, Unread, Returned, Starts;
    if s.pc.PChecked? {
      var s' := s.(pc := PAdvanced(s.pc.slot), freeRead := NextIndex(n, s.freeRead));
      SameHistory(s, s');
    }
  }

  /** The oldest range given back is taken out of the list. */
  lemma ReturnedHead(s: State, s': State)
    requires s.reclaimed < |s.freed| && s' == s.(pc := s'.pc, map_ := s'.map_, reclaimed := s.reclaimed + 1)
    requires InFlight(s.pc) == InFlight(s'.pc) == []
    ensures var x := s.freed[s.reclaimed];
            && Returned(s) != [] && Returned(s)[0] == x && Starts(Returned(s))[0] == x.at
            && Starts(Returned(s)) != [] && Starts(Returned(s')) == Starts(Returned(s))[1..]
            && x in Outstanding(s) && Outstanding(s') == Outstanding(s) - multiset{x}
  {
    hide Nodes, InFlight, Freeing, Total;
    var back, x := Returned(s), s.freed[s.reclaimed];
    assert back == [x] + Returned(s');
    DropReturned(Nodes(Unread(s)), Nodes(s.held), Freeing(s.cpc), x, Returned(s'));
  }

  lemma DropReturned(unread: seq<Node>, held: seq<Node>, freeing: seq<Node>, x: Node, rest: seq<Node>)
    ensures x in Total(unread, held, freeing, [x] + rest, [])
    ensures Total(unread, held, freeing, rest, []) == Total(unread, held, freeing, [x] + rest, []) - multiset{x}
  {
    assert multiset([x] + rest) == multiset{x} + multiset(rest);
  }

  lemma ReclaimPutInv(n: int, s: State)
    requires Inv(n, s)
    ensures Step(n, s, ReclaimPut).Next? ==> Inv(n, Step(n, s, ReclaimPut).s)
    ensures !Step(n, s, ReclaimPut).BadParm?
  {
    hide Owns, WellFormed, Intact, AllIntact, NextIndex, Release, Ring, Outstanding, Starts, Nodes;
    if s.pc.PAdvanced? {
      var x := s.freed[s.reclaimed];
      var s' := s.(pc := PIdle, map_ := Release(s.map_, x.at), reclaimed := s.reclaimed + 1);
      ReturnedHead(s, s');
      RingHead(n, s.free, s.pc.slot, s.freeWrite, Starts(Returned(s)));
      RingPop(n, s.free, s.pc.slot, s.freeWrite, Starts(Returned(s)));
      OwnsStart(s.map_, Outstanding(s), x);
      OwnsRemove(s.map_, Outstanding(s), x);
      ReleaseWellFormed(s.map_, x.at);
      assert Step(n, s, ReclaimPut) == Next(s');
    }
  }

  lemma AllocInv(n: int, s: State, node: Node)
    requires Inv(n, s)
    ensures Step(n, s, Alloc(node)).Next? ==> Inv(n, Step(n, s, Alloc(node)).s)
    ensures !Step(n, s, Alloc(node)).BadParm?
  {
    hide Owns, WellFormed, Intact, AllIntact, NextIndex, Allocate, Ring, Outstanding, Starts, Nodes, Unread, Returned;
    if s.pc.PIdle? && node.n >= 1 && Window(s.map_, node.at, node.n) {
      var s' := s.(pc := PAllocated(node), map_ := Allocate(s.map_, node.at, node.n));
      OwnsAdd(s.map_, Outstanding(s), node);
      AllocateWellFormed(s.map_, node.at, node.n);
      AddFlying(s, s', node);
    }
  }

  lemma AddFlying(s: State, s': State, node: Node)
    requires s' == s.(pc := s'.pc, map_ := s'.map_, blocks := s'.blocks)
    ensures Unread(s') == Unread(s) && Returned(s') == Returned(s)
    ensures InFlight(s.pc) == [] && InFlight(s'.pc) == [node] ==> Outstanding(s') == Outstanding(s) + multiset{node}
    ensures InFlight(s'.pc) == [] && InFlight(s.pc) == [node] ==>
            Outstanding(s') == Outstanding(s) - multiset{node} && node in Outstanding(s)
    ensures InFlight(s'.pc) == InFlight(s.pc) ==> Outstanding(s') == Outstanding(s)
  {
    hide Nodes, InFlight, Freeing;
  }

  /** Writing the blocks of one range leaves the contents of ranges apart from it. */
  lemma PutApart(blocks: seq<int>, x: Node, data: seq<int>, m: Msg)
    requires Apart(x, m.node) && |data| <= x.n && Intact(blocks, m)
    ensures Intact(Smq.Put(blocks, x.at, data), m)
  {
    var r := Smq.Put(blocks, x.at, data);
    if 0 <= m.node.at && 0 <= m.node.n && m.node.at + m.node.n <= |blocks| {
      assert forall i :: m.node.at <= i < m.node.at + m.node.n ==> r[i] == blocks[i];
      assert r[m.node.at..m.node.at + m.node.n] == blocks[m.node.at..m.node.at + m.node.n];
    }
  }

  lemma PutAll(blocks: seq<int>, x: Node, data: seq<int>, ms: seq<Msg>)
    requires |data| <= x.n && AllIntact(blocks, ms) && (forall i :: 0 <= i < |ms| ==> Apart(x, ms[i].node))
    ensures AllIntact(Smq.Put(blocks, x.at, data), ms)
  {
    hide Intact, Smq.Put;
    forall i | 0 <= i < |ms| ensures Intact(Smq.Put(blocks, x.at, data), ms[i]) {
      PutApart(blocks, x, data, ms[i]);
    }
  }

  /** The range in flight is apart from every message published or held. */
  lemma InFlightApart(n: int, s: State, x: Node)
    requires Inv(n, s) && InFlight(s.pc) == [x]
    ensures forall i :: 0 <= i < |Unread(s)| ==> Apart(x, Unread(s)[i].node)
    ensures forall i :: 0 <= i < |s.held| ==> Apart(x, s.held[i].node)
  {
    var p, u, h := Outstanding(s), Nodes(Unread(s)), Nodes(s.held);
    assert Owns(s.map_, p);
    hide Ring, WellFormed, AllIntact, Unread, Returned, InFlight, ProducerOk, ConsumerOk;
    assert multiset([x])[x] == 1 && p[x] == 1;
    forall i | 0 <= i < |u| ensures Apart(x, u[i]) {
      assert multiset(u)[u[i]] > 0;
      assert u[i] in p && u[i] != x;
    }
    forall i | 0 <= i < |h| ensures Apart(x, h[i]) {
      assert multiset(h)[h[i]] > 0;
      assert h[i] in p && h[i] != x;
    }
    assert forall i :: 0 <= i < |u| ==> u[i] == Unread(s)[i].node;
    assert forall i :: 0 <= i < |h| ==> h[i] == s.held[i].node;
  }

  lemma FlyingOut(s: State, x: Node)
    requires InFlight(s.pc) == [x]
    ensures x in Outstanding(s)
  {
    hide Nodes, Unread, Returned, Freeing, InFlight;
    assert x in multiset([x]);
  }

  lemma CopyInv(n: int, s: State, data: seq<int>)
    requires Inv(n, s)
    ensures Step(n, s, Copy(data)).Next? ==> Inv(n, Step(n, s, Copy(data)).s)
    ensures !Step(n, s, Copy(data)).BadParm?
  {
    hide Owns, WellFormed, AllIntact, NextIndex, Ring, Smq.Put, Intact, Outstanding, Nodes, Unread, Returned, Starts;
    if s.pc.PAllocated? && |data| == s.pc.node.n {
      var x := s.pc.node;
      var s' := s.(pc := PCopied(Msg(x, data)), blocks := Smq.Put(s.blocks, x.at, data));
      InFlightApart(n, s, x);
      PutAll(s.blocks, x, data, Unread(s));
      PutAll(s.blocks, x, data, s.held);
      FlyingOut(s, x);
      OutstandingIn(n, s, x);
      PutOwn(s.blocks, x, data);
      AddFlying(s, s', x);
    }
  }

  lemma PutOwn(blocks: seq<int>, x: Node, data: seq<int>)
    requires 0 <= x.at && 0 <= x.n && x.at + x.n <= |blocks| && |data| == x.n
    ensures Intact(Smq.Put(blocks, x.at, data), Msg(x, data))
  {
    assert Smq.Put(blocks, x.at, data)[x.at..x.at + x.n] == data;
  }

  lemma CopyFailInv(n: int, s: State, data: seq<int>)
    requires Inv(n, s)
    ensures Step(n, s, CopyFail(data)).Next? ==> Inv(n, Step(n, s, CopyFail(data)).s)
    ensures !Step(n, s, CopyFail(data)).BadParm?
  {
    hide Owns, WellFormed, AllIntact, NextIndex, Ring, Smq.Put, Intact, Release, Outstanding, Nodes, Unread, Returned, Starts;
    if s.pc.PAllocated? && |data| <= s.pc.node.n {
      var x := s.pc.node;
      var s' := s.(pc := PIdle, blocks := Smq.Put(s.blocks, x.at, data), map_ := Release(s.map_, x.at));
      InFlightApart(n, s, x);
      PutAll(s.blocks, x, data, Unread(s));
      PutAll(s.blocks, x, data, s.held);
      AddFlying(s, s', x);
      OwnsStart(s.map_, Outstanding(s), x);
      OwnsRemove(s.map_, Outstanding(s), x);
      ReleaseWellFormed(s.map_, x.at);
    }
  }

  lemma WriteNodeInv(n: int, s: State)
    requires Inv(n, s)
    ensures Step(n, s, WriteNode).Next? ==> Inv(n, Step(n, s, WriteNode).s)
    ensures !Step(n, s, WriteNode).BadParm?
  {
    hide Owns, WellFormed, AllIntact, NextIndex, Ring, Intact, Outstanding, Starts, Nodes, Unread, Returned;
    if s.pc.PCopied? {
      var s' := s.(pc := PWritten(s.pc.msg), sent := s.sent[s.sentWrite := s.pc.msg.node]);
      RingWrite(n, s.sent, SentBase(s), s.sentWrite, Nodes(Unread(s)), s.pc.msg.node);
      assert Unread(s') == Unread(s) && Returned(s') == Returned(s) && Outstanding(s') == Outstanding(s) by {
        SameHistory(s, s');
      }
    }
  }

  lemma SameHistory(s: State, s': State)
    requires s'.published == s.published && s'.received == s.received && s'.freed == s.freed && s'.reclaimed == s.reclaimed
    ensures Unread(s') == Unread(s) && Returned(s') == Returned(s)
    ensures s'.held == s.held && InFlight(s'.pc) == InFlight(s.pc) && Freeing(s'.cpc) == Freeing(s.cpc) ==>
            Outstanding(s') == Outstanding(s)
  {
    hide Nodes;
  }

  lemma PublishHistory(s: State, s': State, m: Msg)
    requires |s.received| <= |s.published| && s.received == s.published[..|s.received|]
    requires s' == s.(pc := PIdle, sentWrite := s'.sentWrite, published := s.published + [m]) && InFlight(s.pc) == [m.node]
    ensures Unread(s') == Unread(s) + [m] && Returned(s') == Returned(s) && Outstanding(s') == Outstanding(s)
    ensures Nodes(Unread(s')) == Nodes(Unread(s)) + [m.node]
    ensures s'.received == s'.published[..|s'.received|]
  {
    hide Total, Returned, InFlight;
    assert Unread(s') == Unread(s) + [m];
    assert Nodes(Unread(s')) == Nodes(Unread(s)) + [m.node];
    SameReturned(s, s');
    LandUnread(m.node, Nodes(Unread(s)), Nodes(s.held), Freeing(s.cpc), Returned(s));
    NoneFlying(s'.pc);
  }

  lemma SameReturned(s: State, s': State)
    requires s'.freed == s.freed && s'.reclaimed == s.reclaimed
    ensures Returned(s') == Returned(s)
  {
  }

  lemma LandUnread(x: Node, unread: seq<Node>, held: seq<Node>, freeing: seq<Node>, returned: seq<Node>)
    ensures Total(unread + [x], held, freeing, returned, []) == Total(unread, held, freeing, returned, [x])
  {
    assert multiset(unread + [x]) == multiset(unread) + multiset([x]);
  }

  lemma NoneFlying(pc: ProducerPc)
    requires pc == PIdle
    ensures InFlight(pc) == []
  {
  }

  lemma PublishInv(n: int, s: State)
    requires Inv(n, s)
    ensures Step(n, s, Publish).Next? ==> Inv(n, Step(n, s, Publish).s)
    ensures !Step(n, s, Publish).BadParm?
  {
    hide Owns, WellFormed, NextIndex, Ring, Intact, Outstanding, Nodes, Unread, Returned, Starts;
    if s.pc.PWritten? {
      var m := s.pc.msg;
      var s' := s.(pc := PIdle, sentWrite := NextIndex(n, s.sentWrite), published := s.published + [m]);
      NoOverrun(n, s);
      RingPush(n, s.sent, SentBase(s), s.sentWrite, Nodes(Unread(s)));
      PublishHistory(s, s', m);
      assert Step(n, s, Publish) == Next(s');
    }
  }

  lemma ReceiveCheckInv(n: int, s: State)
    requires Inv(n, s)
    ensures !Step(n, s, ReceiveCheck).BadParm?
    ensures Step(n, s, ReceiveCheck).Next? ==> Inv(n, Step(n, s, ReceiveCheck).s)
  {
    hide Owns, WellFormed, NextIndex, Ring, AllIntact, Intact, Outstanding, Nodes, Unread, Returned, Starts;
    if s.cpc.CIdle? {
      RingHead(n, s.sent, s.sentRead, s.sentWrite, Nodes(Unread(s)));
      if s.sentRead != s.sentWrite {
        UnreadOut(n, s);
        var s' := s.(cpc := CChecked(s.sentRead));
        SameHistory(s, s');
      }
    }
  }

  /** The oldest message not yet read is outstanding. */
  lemma UnreadOut(n: int, s: State)
    requires Inv(n, s) && Nodes(Unread(s)) != []
    ensures Unread(s) != [] && 0 <= Nodes(Unread(s))[0].at < n
    ensures Nodes(Unread(s))[0] in Outstanding(s)
  {
    var u := Nodes(Unread(s));
    assert u[0] in multiset(u);
    hide Inv, Unread, Returned;
    OutstandingIn(n, s, u[0]);
  }

  lemma ReceiveAdvanceInv(n: int, s: State)
    requires Inv(n, s)
    ensures Step(n, s, ReceiveAdvance).Next? ==> Inv(n, Step(n, s, ReceiveAdvance).s)
    ensures !Step(n, s, ReceiveAdvance).BadParm?
  {
    hide Owns, WellFormed, NextIndex, Ring, AllIntact, Intact, Outstanding, Nodes, Unread, Returned, Starts;
    if s.cpc.CChecked? {
      var s' := s.(cpc := CAdvanced(s.cpc.slot), sentRead := NextIndex(n, s.sentRead));
      SameHistory(s, s');
    }
  }

  lemma ReceiveHistory(s: State, s': State, m: Msg)
    requires |s.received| < |s.published| && s.received == s.published[..|s.received|] && m == s.published[|s.received|]
    requires s' == s.(cpc := CIdle, held := s.held + [m], received := s.received + [m]) && s.cpc.CAdvanced?
    ensures Unread(s) != [] && Unread(s)[0] == m && Unread(s') == Unread(s)[1..]
    ensures Nodes(Unread(s)) != [] && Nodes(Unread(s))[0] == m.node && Nodes(Unread(s')) == Nodes(Unread(s))[1..]
    ensures Returned(s') == Returned(s) && Outstanding(s') == Outstanding(s)
    ensures |s'.received| <= |s'.published| && s'.received == s'.published[..|s'.received|]
  {
    hide Total, Returned, InFlight;
    assert Unread(s') == Unread(s)[1..];
    assert Nodes(Unread(s)) == [m.node] + Nodes(Unread(s'));
    assert Nodes(s'.held) == Nodes(s.held) + [m.node];
    SameReturned(s, s');
    TakeUnread(m.node, Nodes(Unread(s')), Nodes(s.held), Returned(s), InFlight(s.pc));
  }

  lemma TakeUnread(x: Node, unread: seq<Node>, held: seq<Node>, returned: seq<Node>, flying: seq<Node>)
    ensures Total([x] + unread, held, [], returned, flying) == Total(unread, held + [x], [], returned, flying)
  {
    assert multiset([x] + unread) == multiset{x} + multiset(unread);
    assert multiset(held + [x]) == multiset(held) + multiset{x};
  }

  lemma ReceiveReadInv(n: int, s: State)
    requires Inv(n, s)
    ensures Step(n, s, ReceiveRead).Next? ==> Inv(n, Step(n, s, ReceiveRead).s)
    ensures !Step(n, s, ReceiveRead).BadParm?
  {
    hide Owns, WellFormed, NextIndex, Ring, Outstanding, Nodes, Returned, Starts, Contents;
    if s.cpc.CAdvanced? {
      var m := s.published[|s.received|];
      assert Unread(s)[0] == m && Intact(s.blocks, m);
      var s' := s.(cpc := CIdle, held := s.held + [m], received := s.received + [m]);
      ReceiveHistory(s, s', m);
      RingHead(n, s.sent, s.cpc.slot, s.sentWrite, Nodes(Unread(s)));
      RingPop(n, s.sent, s.cpc.slot, s.sentWrite, Nodes(Unread(s)));
      assert Step(n, s, ReceiveRead) == Next(s');
    }
  }

  lemma DropHeld(s: State, k: nat)
    requires k < |s.held|
    ensures Nodes(s.held) == Nodes(s.held)[..k] + [s.held[k].node] + Nodes(s.held)[k + 1..]
    ensures Nodes(s.held[..k] + s.held[k + 1..]) == Nodes(s.held)[..k] + Nodes(s.held)[k + 1..]
  {
  }

  lemma MoveHeld(x: Node, before: seq<Node>, after: seq<Node>, unread: seq<Node>, returned: seq<Node>, flying: seq<Node>)
    ensures Total(unread, before + [x] + after, [], returned, flying) == Total(unread, before + after, [x], returned, flying)
    ensures x in Total(unread, before + [x] + after, [], returned, flying)
  {
  }

  lemma FreeHistory(s: State, s': State, k: nat)
    requires k < |s.held| && s.cpc.CIdle?
    requires s' == s.(cpc := CFreeing(s.held[k].node), free := s'.free, held := s.held[..k] + s.held[k + 1..])
    ensures Unread(s') == Unread(s) && Returned(s') == Returned(s)
    ensures Outstanding(s') == Outstanding(s) && s.held[k].node in Outstanding(s)
  {
    assert Unread(s') == Unread(s) && Returned(s') == Returned(s);
    hide Nodes, Unread, Returned, InFlight, Total;
    var x, h := s.held[k].node, Nodes(s.held);
    DropHeld(s, k);
    MoveHeld(x, h[..k], h[k + 1..], Nodes(Unread(s)), Returned(s), InFlight(s.pc));
  }

  lemma FreeWriteInv(n: int, s: State, k: nat)
    requires Inv(n, s)
    ensures Step(n, s, FreeWrite(k)).Next? ==> Inv(n, Step(n, s, FreeWrite(k)).s)
    ensures !Step(n, s, FreeWrite(k)).BadParm?
  {
    hide Owns, WellFormed, NextIndex, Ring, Intact, Outstanding, Nodes, Unread, Returned, Starts;
    if s.cpc.CIdle? && k < |s.held| {
      var x := s.held[k].node;
      var s' := s.(cpc := CFreeing(x), free := s.free[s.freeWrite := x.at], held := s.held[..k] + s.held[k + 1..]);
      FreeHistory(s, s', k);
      OutstandingIn(n, s, x);
      RingWrite(n, s.free, FreeBase(s), s.freeWrite, Starts(Returned(s)), x.at);
      assert Step(n, s, FreeWrite(k)) == Next(s');
    }
  }

  lemma ReturnHistory(s: State, s': State, x: Node)
    requires s.reclaimed <= |s.freed| && s.cpc == CFreeing(x)
    requires s' == s.(cpc := CIdle, freeWrite := s'.freeWrite, freed := s.freed + [x])
    ensures Unread(s') == Unread(s) && Starts(Returned(s')) == Starts(Returned(s)) + [x.at]
    ensures Outstanding(s') == Outstanding(s) && s'.reclaimed <= |s'.freed|
    ensures Returned(s') == Returned(s) + [x]
  {
    assert Returned(s') == Returned(s) + [x] && Unread(s') == Unread(s);
    assert Starts(Returned(s')) == Starts(Returned(s)) + [x.at];
    hide Nodes, Unread, Returned, Starts, InFlight;
  }

  lemma FreeAdvanceInv(n: int, s: State)
    requires Inv(n, s)
    ensures Step(n, s, FreeAdvance).Next? ==> Inv(n, Step(n, s, FreeAdvance).s)
    ensures !Step(n, s, FreeAdvance).BadParm?
  {
    hide Owns, WellFormed, NextIndex, Ring, AllIntact, Intact, Outstanding, Nodes, Unread, Returned, Starts;
    if s.cpc.CFreeing? {
      var x := s.cpc.node;
      var s' := s.(cpc := CIdle, freeWrite := NextIndex(n, s.freeWrite), freed := s.freed + [x]);
      NoOverrun(n, s);
      RingPush(n, s.free, FreeBase(s), s.freeWrite, Starts(Returned(s)));
      ReturnHistory(s, s', x);
      assert Step(n, s, FreeAdvance) == Next(s');
    }
  }
}
