/**
 Damage to control packets.  The network of `Network` damages DATA and ACK, which
 is loss.  An ERROR or OACK of the receiver's end with one opcode bit flipped is
 an ACK nobody sent; here is exactly when that is harmless.
 */
module Phantoms {
  import opened Basics
  import opened Codec
  import opened Corruption
  import opened DataPlane
  import opened LockedPeer
  import opened Network
  import opened Progress
  import opened Delivery

  datatype Step = Ordinary(m: Move) | Phantom(p: Packet)

  ghost predicate Controls(controls: set<Packet>) {
    forall p :: p in controls ==> IsControl(p)
  }

  /** The one damage to a control packet that makes an ACK of it. */
  function PhantomEvent(link: Link, p: Packet): Event
    requires IsControl(p)
  {
    EncodedHasAnOpcode(p);
    Datagram(link.receiverTid, FlipOpcodeBit(Encode(p), AckBit(p)))
  }

  lemma EncodedHasAnOpcode(p: Packet)
    ensures |Encode(p)| >= 2
  {
    hide EncodeOptions;
  }

  /** Any other damage makes something the network model already lets arrive at either end. */
  lemma OtherDamageIsOrdinary(link: Link, j: Joint, p: Packet, bit: nat)
    requires IsControl(p) && bit < 16 && |Encode(p)| >= 2
    ensures var bytes := FlipOpcodeBit(Encode(p), bit);
      && (bit != AckBit(p) ==> Possible(link, j, ToSender(Datagram(link.receiverTid, bytes))))
      && Possible(link, j, ToReceiver(Datagram(link.senderTid, bytes)))
  {
    hide FlipOpcodeBit, Parse, Encode;
    FlippedControlIsAckIff(p, bit);
  }

  predicate Allowed(link: Link, controls: set<Packet>, j: Joint, step: Step) {
    match step
    case Ordinary(m) => Possible(link, j, m)
    case Phantom(p) => p in controls && IsControl(p)
  }

  function Take(link: Link, controls: set<Packet>, j: Joint, step: Step): Joint
    requires Allowed(link, controls, j, step)
  {
    match step
    case Ordinary(m) => Apply(link, j, m)
    case Phantom(p) => SenderReads(link, j, PhantomEvent(link, p))
  }

  predicate AllAllowed(link: Link, controls: set<Packet>, j: Joint, steps: seq<Step>)
    decreases |steps|
  {
    steps == [] ||
    (Allowed(link, controls, j, steps[0]) && AllAllowed(link, controls, Take(link, controls, j, steps[0]), steps[1..]))
  }

  function Run(link: Link, controls: set<Packet>, j: Joint, steps: seq<Step>): Joint
    requires AllAllowed(link, controls, j, steps)
    decreases |steps|
  {
    if steps == [] then j else Run(link, controls, Take(link, controls, j, steps[0]), steps[1..])
  }

  /** No control packet damaged into an ACK names a block of the transfer. */
  ghost predicate NamesNoBlock(link: Link, controls: set<Packet>) {
    forall p :: p in controls && IsControl(p) ==> !(1 <= AckNumber(p) <= Total(link))
  }

  lemma PhantomIsAck(link: Link, p: Packet)
    requires IsControl(p)
    ensures Classify(link.receiverTid, PhantomEvent(link, p)) == Deliver(GotPacket(Acknowledgement(AckNumber(p))))
  {
    hide FlipOpcodeBit, Parse, Encode;
    EncodedHasAnOpcode(p);
    FlippedControlIsAckIff(p, AckBit(p));
    FlippingKeepsLength(Encode(p), AckBit(p));
  }

  lemma FlippingKeepsLength(bytes: Bytes, bit: nat)
    requires |bytes| >= 2 && bit < 16
    ensures |FlipOpcodeBit(bytes, bit)| == |bytes|
  {
  }

  lemma PhantomKeepsInvariant(link: Link, j: Joint, p: Packet)
    requires Invariant(link, j) && IsControl(p) && Total(link) < WIRE_NUMBERS
    requires !(1 <= AckNumber(p) <= Total(link))
    ensures Invariant(link, SenderReads(link, j, PhantomEvent(link, p)))
  {
    hide PhantomEvent, AckNumber;
    PhantomIsAck(link, p);
    SenderKeepsInvariant(link, j, PhantomEvent(link, p));
  }

  lemma {:induction false} RunKeepsInvariant(link: Link, controls: set<Packet>, j: Joint, steps: seq<Step>)
    requires Sound(link) && Total(link) < WIRE_NUMBERS && NamesNoBlock(link, controls)
    requires Invariant(link, j) && AllAllowed(link, controls, j, steps)
    ensures Invariant(link, Run(link, controls, j, steps))
    decreases |steps|
  {
    hide Apply, Possible, Invariant, Sound, SenderReads, PhantomEvent, AckNumber;
    if steps != [] {
      match steps[0] {
        case Ordinary(m) =>
          ShortTransfersStayFresh(link, j, m);
          ApplyKeepsInvariant(link, j, m);
        case Phantom(p) => PhantomKeepsInvariant(link, j, p);
      }
      RunKeepsInvariant(link, controls, Take(link, controls, j, steps[0]), steps[1..]);
    }
  }

  function Lifted(moves: seq<Move>): seq<Step> {
    seq(|moves|, k requires 0 <= k < |moves| => Ordinary(moves[k]))
  }

  lemma {:induction false} LiftedThenPhantom(link: Link, controls: set<Packet>, j: Joint, moves: seq<Move>, p: Packet)
    requires Admissible(link, j, moves) && p in controls && IsControl(p)
    ensures AllAllowed(link, controls, j, Lifted(moves) + [Phantom(p)])
    ensures Run(link, controls, j, Lifted(moves) + [Phantom(p)])
            == SenderReads(link, Exec(link, j, moves), PhantomEvent(link, p))
    decreases |moves|
  {
    hide Apply, Possible, SenderReads, PhantomEvent;
    var steps := Lifted(moves) + [Phantom(p)];
    if moves == [] {
      assert steps == [Phantom(p)] && steps[1..] == [];
      assert AllAllowed(link, controls, Take(link, controls, j, steps[0]), []);
    } else {
      LiftedThenPhantom(link, controls, Apply(link, j, moves[0]), moves[1..], p);
      assert steps[0] == Ordinary(moves[0]) && steps[1..] == Lifted(moves[1..]) + [Phantom(p)];
    }
  }

  /** On sound terms a block before the last but one never ends the receiver. */
  lemma EarlyBlocksAreWhole(link: Link, b: nat)
    requires Sound(link) && 1 <= b && b + 2 <= Total(link)
    ensures !EndsReceiver(link, b)
  {
    TotalWithinFinal(link);
    BlockExtendsPrefix(link.payload, b, link.sender.blockSize);
    BlockBounds(|link.payload|, link.sender.blockSize, b + 1);
  }

  /** The block before it delivered and acknowledged, the phantom acknowledges one that is not there. */
  lemma PhantomOvertakes(link: Link, controls: set<Packet>, p: Packet) returns (steps: seq<Step>)
    requires Sound(link) && Total(link) < WIRE_NUMBERS
    requires p in controls && IsControl(p) && 1 <= AckNumber(p) <= Total(link)
    ensures AllAllowed(link, controls, Start(link), steps) && !Safe(link, Run(link, controls, Start(link), steps))
  {
    var n := AckNumber(p);
    forall b | 1 <= b < n - 1
      ensures !EndsReceiver(link, b)
    {
      EarlyBlocksAreWhole(link, b);
    }
    hide EndsReceiver, Sound, PhantomEvent, AckNumber, Safe;
    var moves, j := ChainReaches(link, n - 1);
    PhantomTaken(link, j, p);
    LiftedThenPhantom(link, controls, Start(link), moves, p);
    steps := Lifted(moves) + [Phantom(p)];
  }

  lemma PhantomTaken(link: Link, j: Joint, p: Packet)
    requires IsControl(p) && 1 <= AckNumber(p) <= Total(link) < WIRE_NUMBERS && Chained(link, j, AckNumber(p) - 1)
    ensures !Safe(link, SenderReads(link, j, PhantomEvent(link, p)))
  {
    hide PhantomEvent, AckNumber;
    PhantomIsAck(link, p);
    ChainHasNext(link, j, AckNumber(p) - 1);
    InvariantOrders(link, j);
    AckResolvesExactly(AckNumber(p), j.s.lastAcked, j.s.highestSent);
  }

  ghost predicate SafeUnderDamage(link: Link, controls: set<Packet>) {
    forall steps :: AllAllowed(link, controls, Start(link), steps) ==>
      Safe(link, Run(link, controls, Start(link), steps))
  }

  /**
   With control packets subject to opcode damage too, every schedule of a sound
   link of at most 65535 blocks is safe if and only if none of the numbers they
   can turn into is that of a block of the transfer.
   */
  lemma SafeUnderDamageIff(link: Link, controls: set<Packet>)
    requires Sound(link) && Total(link) < WIRE_NUMBERS && Controls(controls)
    ensures SafeUnderDamage(link, controls) <==> NamesNoBlock(link, controls)
  {
    hide Sound, Safe, AckNumber, IsControl, Allowed;
    if NamesNoBlock(link, controls) {
      forall steps | AllAllowed(link, controls, Start(link), steps)
        ensures Safe(link, Run(link, controls, Start(link), steps))
      {
        StartInvariant(link);
        RunKeepsInvariant(link, controls, Start(link), steps);
        InvariantIsSafe(link, Run(link, controls, Start(link), steps));
      }
    } else {
      var p :| p in controls && IsControl(p) && 1 <= AckNumber(p) <= Total(link);
      var steps := PhantomOvertakes(link, controls, p);
    }
  }
}
