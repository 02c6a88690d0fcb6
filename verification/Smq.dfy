/**
 The queue between one producer and one consumer as a state machine: every step of either side that touches shared
 memory is a step of its own, and the steps of the two sides interleave in any order.
 */
module Smq {
  import opened SmqMap
  import opened SmqRing
  import opened SmqOwn

  /** A message: where it lies and the contents of its blocks. */
  datatype Msg = Msg(node: Node, data: seq<int>)

  /** Where the producer is in smq_alloc_send. */
  datatype ProducerPc =
    | PIdle
    | PChecked(slot: int)           // node->index_block checked
    | PAdvanced(slot: int)          // index_free_read moved on, node not yet read again
    | PAllocated(node: Node)        // blocks taken
    | PCopied(msg: Msg)             // payload copied
    | PWritten(msg: Msg)            // node written to the ring

  /** Where the consumer is in smq_receive or smq_free. */
  datatype ConsumerPc =
    | CIdle
    | CChecked(slot: int)
    | CAdvanced(slot: int)          // index_sent_read moved on, node not yet read again
    | CFreeing(node: Node)          // node written to the free ring

  /**
   The shared memory and both sides' own state. The last four fields record what has happened: the messages
   published and received, the ranges given back, and how many of those the producer has reclaimed.
   */
  datatype State = State(
    map_: Map, pc: ProducerPc, sentWrite: int, freeRead: int, sent: seq<Node>,
    cpc: ConsumerPc, sentRead: int, freeWrite: int, free: seq<int>, held: seq<Msg>,
    blocks: seq<int>,
    published: seq<Msg>, received: seq<Msg>, freed: seq<Node>, reclaimed: nat)

  datatype Action =
    | ReclaimCheck | ReclaimAdvance | ReclaimPut
    | Alloc(node: Node) | Copy(data: seq<int>) | CopyFail(data: seq<int>) | WriteNode | Publish
    | ReceiveCheck | ReceiveAdvance | ReceiveRead
    | FreeWrite(k: nat) | FreeAdvance

  /** BadParm is SMQ_EBADPARM; Disabled, the step is not the next one of its side. */
  datatype Outcome = Next(s: State) | BadParm | Disabled

  predicate Shape(n: int, s: State) {
    && 1 < n <= 256 && |s.map_| == n - 1 && |s.sent| == n && |s.free| == n && |s.blocks| == n
    && 0 <= s.sentWrite < n && 0 <= s.freeRead < n && 0 <= s.sentRead < n && 0 <= s.freeWrite < n
  }

  /** The contents of blocks from `at` on. */
  function Contents(blocks: seq<int>, x: Node): seq<int> {
    if 0 <= x.at && 0 <= x.n && x.at + x.n <= |blocks| then blocks[x.at..x.at + x.n] else []
  }

  /** The blocks with the data written from `at` on. */
  function Put(blocks: seq<int>, at: int, data: seq<int>): (r: seq<int>)
    ensures |r| == |blocks|
  {
    seq(|blocks|, i requires 0 <= i < |blocks| => if at <= i < at + |data| then data[i - at] else blocks[i])
  }

  function Init(n: int): State
    requires 1 < n <= 256
  {
    State(seq(n - 1, _ => 0), PIdle, 0, 0, seq(n, _ => Node(0, 0)),
          CIdle, 0, 0, seq(n, _ => 0), [], seq(n, _ => 0), [], [], [], 0)
  }

  /** smq_alloc_send. Any free window may be taken; smq_blockmap_get picks one of them. */
  function ProducerStep(n: int, s: State, a: Action): Outcome
    requires Shape(n, s)
  {
    match a
    case ReclaimCheck =>
      if !s.pc.PIdle? || s.freeRead == s.freeWrite then Disabled
      else if s.free[s.freeRead] >= n then BadParm
      else Next(s.(pc := PChecked(s.freeRead)))
    case ReclaimAdvance =>
      if !s.pc.PChecked? then Disabled
      else Next(s.(pc := PAdvanced(s.pc.slot), freeRead := NextIndex(n, s.freeRead)))
    case ReclaimPut =>
      if !s.pc.PAdvanced? || !(0 <= s.pc.slot < n) then Disabled
      else Next(s.(pc := PIdle, map_ := Release(s.map_, s.free[s.pc.slot]), reclaimed := s.reclaimed + 1))
    case Alloc(node) =>
      if !s.pc.PIdle? || node.n < 1 || !Window(s.map_, node.at, node.n) then Disabled
      else Next(s.(pc := PAllocated(node), map_ := Allocate(s.map_, node.at, node.n)))
    case Copy(data) =>
      if !s.pc.PAllocated? || |data| != s.pc.node.n then Disabled
      else Next(s.(pc := PCopied(Msg(s.pc.node, data)), blocks := Put(s.blocks, s.pc.node.at, data)))
    case CopyFail(data) =>
      if !s.pc.PAllocated? || |data| > s.pc.node.n then Disabled
      else Next(s.(pc := PIdle, blocks := Put(s.blocks, s.pc.node.at, data), map_ := Release(s.map_, s.pc.node.at)))
    case WriteNode =>
      if !s.pc.PCopied? then Disabled
      else Next(s.(pc := PWritten(s.pc.msg), sent := s.sent[s.sentWrite := s.pc.msg.node]))
    case Publish =>
      if !s.pc.PWritten? then Disabled
      else Next(s.(pc := PIdle, sentWrite := NextIndex(n, s.sentWrite), published := s.published + [s.pc.msg]))
    case _ => Disabled
  }

  /** smq_receive and smq_free; any message held may be given back. */
  function ConsumerStep(n: int, s: State, a: Action): Outcome
    requires Shape(n, s)
  {
    match a
    case ReceiveCheck =>
      if !s.cpc.CIdle? || s.sentRead == s.sentWrite then Disabled
      else if s.sent[s.sentRead].at >= n then BadParm
      else Next(s.(cpc := CChecked(s.sentRead)))
    case ReceiveAdvance =>
      if !s.cpc.CChecked? then Disabled
      else Next(s.(cpc := CAdvanced(s.cpc.slot), sentRead := NextIndex(n, s.sentRead)))
    case ReceiveRead =>
      if !s.cpc.CAdvanced? || !(0 <= s.cpc.slot < n) then Disabled
      else
        var msg := Msg(s.sent[s.cpc.slot], Contents(s.blocks, s.sent[s.cpc.slot]));
        Next(s.(cpc := CIdle, held := s.held + [msg], received := s.received + [msg]))
    case FreeWrite(k) =>
      if !s.cpc.CIdle? || k >= |s.held| then Disabled
      else if s.held[k].node.at >= n then BadParm
      else Next(s.(cpc := CFreeing(s.held[k].node), free := s.free[s.freeWrite := s.held[k].node.at],
                   held := s.held[..k] + s.held[k + 1..]))
    case FreeAdvance =>
      if !s.cpc.CFreeing? then Disabled
      else Next(s.(cpc := CIdle, freeWrite := NextIndex(n, s.freeWrite), freed := s.freed + [s.cpc.node]))
    case _ => Disabled
  }

  predicate IsProducer(a: Action) {
    match a
    case ReceiveCheck => false case ReceiveAdvance => false case ReceiveRead => false
    case FreeWrite(_) => false case FreeAdvance => false
    case _ => true
  }

  function Step(n: int, s: State, a: Action): Outcome
    requires Shape(n, s)
  {
    if IsProducer(a) then ProducerStep(n, s, a) else ConsumerStep(n, s, a)
  }

  lemma StepShape(n: int, s: State, a: Action)
    requires Shape(n, s)
    ensures Step(n, s, a).Next? ==> Shape(n, Step(n, s, a).s)
  {
  }
}
