/** Every interleaving of the producer's and the consumer's steps. */
module SmqRun {
  import opened SmqMap
  import opened SmqRing
  import opened SmqOwn
  import opened Smq
  import opened SmqInv

  lemma StepInv(n: int, s: State, a: Action)
    requires Inv(n, s)
    ensures Shape(n, s) && !Step(n, s, a).BadParm?
    ensures Step(n, s, a).Next? ==> Inv(n, Step(n, s, a).s)
  {
    InvShape(n, s);
    hide Inv, Step, Shape;
    match a
    case ReclaimCheck => ReclaimCheckInv(n, s);
    case ReclaimAdvance => ReclaimAdvanceInv(n, s);
    case ReclaimPut => ReclaimPutInv(n, s);
    case Alloc(node) => AllocInv(n, s, node);
    case Copy(data) => CopyInv(n, s, data);
    case CopyFail(data) => CopyFailInv(n, s, data);
    case WriteNode => WriteNodeInv(n, s);
    case Publish => PublishInv(n, s);
    case ReceiveCheck => ReceiveCheckInv(n, s);
    case ReceiveAdvance => ReceiveAdvanceInv(n, s);
    case ReceiveRead => ReceiveReadInv(n, s);
    case FreeWrite(k) => FreeWriteInv(n, s, k);
    case FreeAdvance => FreeAdvanceInv(n, s);
  }

  lemma InvShape(n: int, s: State)
    requires Inv(n, s)
    ensures Shape(n, s)
  {
  }

  /** The steps in order, as long as each is the next one of its side. */
  function Exec(n: int, s: State, acts: seq<Action>): Outcome
    requires Shape(n, s)
    decreases acts
  {
    if acts == [] then Next(s)
    else
      var r := Step(n, s, acts[0]);
      StepShape(n, s, acts[0]);
      if r.Next? then Exec(n, r.s, acts[1..]) else r
  }

  /** What the queue promises in a state. */
  ghost predicate Safe(n: int, s: State) {
    // Outstanding messages hold disjoint ranges, which are exactly the nonzero part of the map.
    && Owns(s.map_, Outstanding(s))
    // There are fewer of them than slots in a ring, so neither ring runs over.
    && |Outstanding(s)| <= n - 1 && |Unread(s)| < n && |Returned(s)| < n
    // Messages arrive in the order they were sent, each once, with the data that was sent.
    && s.received <= s.published
    // What the consumer holds stays as it was received until it is given back.
    && AllIntact(s.blocks, s.held)
    // The ring holds the messages sent and not yet read.
    && Ring(n, s.sent, SentBase(s), s.sentWrite, Nodes(Unread(s)))
  }

  lemma InvSafe(n: int, s: State)
    requires Inv(n, s)
    ensures Safe(n, s)
  {
    hide Outstanding, Ring, AllIntact, WellFormed, Unread, Returned, ConsumerOk, ProducerOk;
    OwnsBound(s.map_, Outstanding(s));
    NoOverrun(n, s);
  }

  lemma {:induction false} ExecInv(n: int, s: State, acts: seq<Action>)
    requires Inv(n, s)
    ensures Shape(n, s) && !Exec(n, s, acts).BadParm?
    ensures Exec(n, s, acts).Next? ==> Inv(n, Exec(n, s, acts).s)
    decreases acts
  {
    InvShape(n, s);
    if acts != [] {
      hide Inv, Step, Shape;
      StepInv(n, s, acts[0]);
      var r := Step(n, s, acts[0]);
      if r.Next? {
        ExecInv(n, r.s, acts[1..]);
      }
    }
  }

  /** In every interleaving the queue keeps its promises, and no node is ever found out of range. */
  lemma EveryInterleaving(n: int, acts: seq<Action>)
    requires 1 < n <= 256
    ensures Shape(n, Init(n)) && !Exec(n, Init(n), acts).BadParm?
    ensures Exec(n, Init(n), acts).Next? ==> Safe(n, Exec(n, Init(n), acts).s)
  {
    InitInv(n);
    ExecInv(n, Init(n), acts);
    if Exec(n, Init(n), acts).Next? {
      InvSafe(n, Exec(n, Init(n), acts).s);
    }
  }
}
