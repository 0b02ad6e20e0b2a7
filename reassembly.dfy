/**
 * Inbound side of the bridge protocol: the shared message buffer that packets are
 * appended into, the transport seen as an inbox of HID packets plus the record of
 * what was sent, the completion rule of getMessage and getMessage itself.
 */
module Reassembly {
  import opened Wrappers
  import opened Bytes
  import opened Framer

  const HID_PACKET_SIZE := 64
  /** The marker every packet from the bridge starts with: "ABC". */
  const MAGIC_HEADER: seq<Byte> := [0x41, 0x42, 0x43]
  /** Offset of the Medtronic reply inside a reassembled message. */
  const REPLY_OFFSET := 33

  /** What the transport delivers: a 64-byte HID report, or nothing yet. */
  type HidPacket = p: seq<Byte> | |p| == 0 || |p| == HID_PACKET_SIZE witness []

  // ---------------------------------------------------------------------------
  // Packet fields
  // ---------------------------------------------------------------------------

  predicate MarkerOk(p: HidPacket)
    requires |p| == HID_PACKET_SIZE
  {
    p[..3] == MAGIC_HEADER
  }

  /** The declared payload size, the byte after the marker. */
  function Size(p: HidPacket): Byte
    requires |p| == HID_PACKET_SIZE
  {
    p[3]
  }

  /** The first payload byte. */
  function Byte1(p: HidPacket): Byte
    requires |p| == HID_PACKET_SIZE
  {
    p[4]
  }

  /** The frame-type byte of the packet tail at SIZE - 1; None when that index is outside the packet. */
  function FrameType(p: HidPacket): Option<Byte>
    requires |p| == HID_PACKET_SIZE
  {
    if 1 <= Size(p) <= |p| then Some(p[Size(p) - 1]) else None
  }

  /** The bytes a packet contributes: after the marker, b[1 .. 1 + b[0]) of b = packet[3..]. */
  function Extracted(p: HidPacket): (e: seq<Byte>)
    requires |p| == HID_PACKET_SIZE
    ensures |e| == Size(p)
  {
    var b := p[3..];
    Window(b, 1, b[0])
  }

  // ---------------------------------------------------------------------------
  // Message buffer
  // ---------------------------------------------------------------------------

  /** The accumulator shared by every exchange; it must be reset between messages. */
  class MessageBuffer {
    var bytes: seq<Byte>
    var messageLength: nat
    var valid: bool
    /** The string view of the bytes, null until setValid. */
    var payload: Option<string>

    ghost predicate Valid()
      reads this
    {
      messageLength == |bytes| && payload == (if valid then Some(AsChars(bytes)) else None)
    }

    predicate IsReset()
      reads this
    {
      bytes == [] && messageLength == 0 && !valid && payload == None
    }

    constructor ()
      ensures Valid() && IsReset()
    {
      bytes, valid, messageLength, payload := [], false, 0, None;
    }

    method Reset()
      modifies this
      ensures Valid() && IsReset()
    {
      bytes := [];
      valid := false;
      messageLength := 0;
      payload := None;
    }

    method SetValid()
      requires messageLength == |bytes|
      modifies this`payload, this`valid
      ensures Valid() && valid
    {
      payload := Some(AsChars(bytes));
      valid := true;
    }

    /**
     * Appends the b[0] bytes after the length byte of b to the message, keeping
     * what was there as a prefix, and marks the buffer valid.
     */
    method ExtractPacketIntoMessage(b: seq<Byte>)
      requires Valid() && |b| >= 1
      modifies this
      ensures Valid() && valid
      ensures bytes == old(bytes) + Window(b, 1, b[0])
      ensures messageLength == old(messageLength) + b[0]
    {
      var packetLen := b[0];
      var tmpbuff := new Byte[messageLength + packetLen](_ => 0);
      var n := CopyBytes(tmpbuff, 0, bytes, messageLength, 0);
      n := CopyBytes(tmpbuff, messageLength, b, packetLen, 1);
      assert Window(bytes, 0, messageLength) == bytes;
      bytes := tmpbuff[..];
      messageLength := messageLength + packetLen;
      SetValid();
    }
  }

  // ---------------------------------------------------------------------------
  // Transport
  // ---------------------------------------------------------------------------

  /**
   * The HID transport as the engine sees it: the packets the bridge delivers, in
   * order, a read cursor into them and the frames sent so far. Reading past the
   * last delivered packet stands for the abort timer firing.
   */
  class Link {
    const inbox: seq<HidPacket>
    var position: nat
    var sent: seq<seq<Byte>>

    constructor (inbox: seq<HidPacket>)
      ensures this.inbox == inbox && position == 0 && sent == []
    {
      this.inbox := inbox;
      position := 0;
      sent := [];
    }

    method Send(frame: array<Byte>)
      modifies this
      ensures sent == old(sent) + [frame[..]] && position == old(position)
    {
      sent := sent + [frame[..]];
    }

    method Receive() returns (packet: Option<HidPacket>)
      modifies this
      ensures sent == old(sent)
      ensures old(position) < |inbox| ==> packet == Some(inbox[old(position)]) && position == old(position) + 1
      ensures old(position) >= |inbox| ==> packet == None && position == old(position)
    {
      if position < |inbox| {
        packet := Some(inbox[position]);
        position := position + 1;
      } else {
        packet := None;
      }
    }
  }

  // ---------------------------------------------------------------------------
  // Completion rule
  // ---------------------------------------------------------------------------

  /** The two flags getMessage takes; waitForENQ wins over remote command mode. */
  datatype Policy = Policy(waitForEnq: bool, inRemoteCommandMode: bool)

  /**
   * The caller-selected completion condition for one packet: under waitForENQ the
   * first payload byte is ENQ; in remote command mode the packet is short (size
   * below 60); otherwise it is short, or its first byte is ENQ, EOT or ACK, or its
   * frame type is ETX or ETB.
   */
  predicate PolicyCompletes(policy: Policy, p: HidPacket)
    requires |p| == HID_PACKET_SIZE
  {
    if policy.waitForEnq then Byte1(p) == ENQ
    else if policy.inRemoteCommandMode then Size(p) < HID_PACKET_SIZE - 4
    else
      Size(p) < HID_PACKET_SIZE - 4 || Byte1(p) == ENQ || Byte1(p) == EOT || Byte1(p) == ACK ||
      FrameType(p) == Some(ETX) || FrameType(p) == Some(ETB)
  }

  /** The accumulated message carries an ACK at the reply offset. */
  predicate AckReply(message: seq<Byte>)
  {
    |message| > REPLY_OFFSET && message[REPLY_OFFSET] == ACK
  }

  datatype Step = Complete | Invalid | NeedMore

  /** The decision after a non-empty packet was appended, giving `message`. */
  function StepAfter(policy: Policy, message: seq<Byte>, p: HidPacket): Step
    requires |p| == HID_PACKET_SIZE
  {
    if AckReply(message) then Complete
    else if !MarkerOk(p) then Invalid
    else if PolicyCompletes(policy, p) then Complete
    else NeedMore
  }

  datatype MessageError = Timeout | InvalidPacket

  /** Outcome of one getMessage: the result, the read position after it and the buffer afterwards. */
  datatype Reassembly = Reassembly(outcome: Result<seq<Byte>, MessageError>, next: nat, bytes: seq<Byte>)

  /** getMessage reading `packets` from position `from` on, starting from buffer contents `acc`. */
  function Reassemble(policy: Policy, acc: seq<Byte>, packets: seq<HidPacket>, from: nat): (r: Reassembly)
    ensures from <= r.next
    ensures from <= |packets| ==> r.next <= |packets|
    ensures r.outcome.Ok? ==> r.outcome.value == r.bytes
    decreases |packets| - from
  {
    if from >= |packets| then Reassembly(Err(Timeout), from, acc)
    else
      var p := packets[from];
      if |p| == 0 then Reassemble(policy, acc, packets, from + 1)
      else
        var message := acc + Extracted(p);
        match StepAfter(policy, message, p)
        case Complete => Reassembly(Ok(message), from + 1, message)
        case Invalid => Reassembly(Err(InvalidPacket), from + 1, message)
        case NeedMore => Reassemble(policy, message, packets, from + 1)
  }

  /**
   * getMessage: reads packets until the message is complete, a packet is invalid or
   * no packet arrives; an empty read appends nothing. The buffer is not reset here.
   */
  method GetMessage(buffer: MessageBuffer, link: Link, policy: Policy) returns (r: Result<seq<Byte>, MessageError>)
    requires buffer.Valid()
    modifies buffer, link
    ensures buffer.Valid()
    ensures var s := Reassemble(policy, old(buffer.bytes), link.inbox, old(link.position));
      r == s.outcome && buffer.bytes == s.bytes && link.position == s.next
    ensures link.sent == old(link.sent)
  {
    ghost var s0 := Reassemble(policy, buffer.bytes, link.inbox, link.position);
    while true
      invariant buffer.Valid()
      invariant link.sent == old(link.sent)
      invariant Reassemble(policy, buffer.bytes, link.inbox, link.position) == s0
      decreases |link.inbox| - link.position
    {
      var raw := link.Receive();
      if raw.None? {
        return Err(Timeout);
      }
      var packet := raw.value;
      if |packet| == 0 {
        continue;
      }
      ghost var before := buffer.bytes;
      buffer.ExtractPacketIntoMessage(packet[3..]);
      assert buffer.bytes == before + Extracted(packet);
      if buffer.messageLength > REPLY_OFFSET && buffer.bytes[REPLY_OFFSET] == ACK {
        return Ok(buffer.bytes);
      }
      if !MarkerOk(packet) {
        return Err(InvalidPacket);
      }
      if PolicyCompletes(policy, packet) {
        return Ok(buffer.bytes);
      }
    }
  }

  // ---------------------------------------------------------------------------
  // Properties of the completion rule
  // ---------------------------------------------------------------------------

  /** What a packet adds to the message: nothing when empty. */
  function Contribution(p: HidPacket): seq<Byte>
  {
    if |p| == 0 then [] else Extracted(p)
  }

  /** Everything packets[from..to] contribute, in order. */
  function Appended(packets: seq<HidPacket>, from: nat, to: nat): seq<Byte>
    requires from <= to <= |packets|
    decreases |packets| - from
  {
    if from == to then [] else Contribution(packets[from]) + Appended(packets, from + 1, to)
  }

  /**
   * getMessage keeps the previous buffer as a prefix and appends exactly what the
   * packets it read contribute.
   */
  lemma {:induction false} ReassembledBytes(policy: Policy, acc: seq<Byte>, packets: seq<HidPacket>, from: nat)
    requires from <= |packets|
    ensures var r := Reassemble(policy, acc, packets, from);
      r.bytes == acc + Appended(packets, from, r.next)
    decreases |packets| - from
  {
    if from == |packets| {
      assert acc + Appended(packets, from, from) == acc;
    } else {
      var p := packets[from];
      var r := Reassemble(policy, acc, packets, from);
      if |p| == 0 {
        assert r == Reassemble(policy, acc, packets, from + 1);
        ReassembledBytes(policy, acc, packets, from + 1);
        assert Appended(packets, from, r.next) == Appended(packets, from + 1, r.next);
      } else {
        var message := acc + Extracted(p);
        var step := StepAfter(policy, message, p);
        if step == NeedMore {
          assert r == Reassemble(policy, message, packets, from + 1);
          ReassembledBytes(policy, message, packets, from + 1);
          assert Appended(packets, from, r.next) == Extracted(p) + Appended(packets, from + 1, r.next);
          } else {
          assert r.next == from + 1 && r.bytes == message;
          assert Appended(packets, from, from + 1) == Extracted(p) + Appended(packets, from + 1, from + 1);
        }
      }
    }
  }

  /**
   * Where getMessage stops reading: a timeout has used up every packet, any other
   * outcome was decided by the last packet read, which was not empty.
   */
  lemma {:induction false} ReassembleStops(policy: Policy, acc: seq<Byte>, packets: seq<HidPacket>, from: nat)
    ensures var r := Reassemble(policy, acc, packets, from);
      (r.outcome == Err(Timeout) ==> r.next == if from < |packets| then |packets| else from) &&
      (r.outcome != Err(Timeout) ==> from < r.next <= |packets| && |packets[r.next - 1]| > 0)
    decreases |packets| - from
  {
    if from < |packets| {
      var p := packets[from];
      if |p| == 0 {
        ReassembleStops(policy, acc, packets, from + 1);
      } else if StepAfter(policy, acc + Extracted(p), p) == NeedMore {
        ReassembleStops(policy, acc + Extracted(p), packets, from + 1);
      }
    }
  }

  /** Empty reads add nothing to the message: each only moves the read position. */
  lemma {:induction false} SkipsEmptyPackets(policy: Policy, acc: seq<Byte>, packets: seq<HidPacket>, from: nat, n: nat)
    requires from + n <= |packets|
    requires forall i :: from <= i < from + n ==> |packets[i]| == 0
    ensures Reassemble(policy, acc, packets, from) == Reassemble(policy, acc, packets, from + n)
    decreases n
  {
    if n > 0 {
      SkipsEmptyPackets(policy, acc, packets, from + 1, n - 1);
    }
  }

  /**
   * N empty reads followed by a packet that puts ACK at the reply offset complete
   * the message with exactly N + 1 reads, whatever the policy and whatever follows.
   */
  lemma AckAfterEmptyPackets(policy: Policy, acc: seq<Byte>, packets: seq<HidPacket>, from: nat, n: nat)
    requires from + n < |packets|
    requires forall i :: from <= i < from + n ==> |packets[i]| == 0
    requires |packets[from + n]| == HID_PACKET_SIZE && AckReply(acc + Extracted(packets[from + n]))
    ensures var m := acc + Extracted(packets[from + n]);
      Reassemble(policy, acc, packets, from) == Reassembly(Ok(m), from + n + 1, m)
  {
    SkipsEmptyPackets(policy, acc, packets, from, n);
  }

  /**
   * The order of the checks after a non-empty packet: an ACK at the reply offset
   * completes the message before the marker is looked at; otherwise a bad marker
   * is an invalid packet whatever the policy; otherwise the policy decides between
   * completing and reading on.
   */
  lemma PacketOutcome(policy: Policy, acc: seq<Byte>, packets: seq<HidPacket>, from: nat)
    requires from < |packets| && |packets[from]| == HID_PACKET_SIZE
    ensures var p := packets[from];
      var m := acc + Extracted(p);
      var r := Reassemble(policy, acc, packets, from);
      (AckReply(m) ==> r == Reassembly(Ok(m), from + 1, m)) &&
      (!AckReply(m) && !MarkerOk(p) ==> r == Reassembly(Err(InvalidPacket), from + 1, m)) &&
      (!AckReply(m) && MarkerOk(p) && PolicyCompletes(policy, p) ==> r == Reassembly(Ok(m), from + 1, m)) &&
      (!AckReply(m) && MarkerOk(p) && !PolicyCompletes(policy, p) ==> r == Reassemble(policy, m, packets, from + 1))
  {
  }

  /**
   * Whether the non-empty packet at the read position completes the message with
   * that one read: an Ok outcome with the read position just past it.
   */
  predicate CompletesAt(policy: Policy, acc: seq<Byte>, packets: seq<HidPacket>, from: nat)
  {
    var r := Reassemble(policy, acc, packets, from);
    r.outcome.Ok? && r.next == from + 1
  }

  /** A well-marked packet without an ACK reply completes the message exactly when the policy says so. */
  lemma PolicyDecides(policy: Policy, acc: seq<Byte>, packets: seq<HidPacket>, from: nat)
    requires from < |packets| && |packets[from]| == HID_PACKET_SIZE
    requires MarkerOk(packets[from]) && !AckReply(acc + Extracted(packets[from]))
    ensures CompletesAt(policy, acc, packets, from) <==> PolicyCompletes(policy, packets[from])
  {
    if !PolicyCompletes(policy, packets[from]) {
      ReassembleStops(policy, acc + Extracted(packets[from]), packets, from + 1);
    }
  }

  /** Under waitForENQ such a packet completes the message exactly when its first byte is ENQ. */
  lemma WaitForEnqCompletion(acc: seq<Byte>, packets: seq<HidPacket>, from: nat, inRemote: bool)
    requires from < |packets| && |packets[from]| == HID_PACKET_SIZE
    requires MarkerOk(packets[from]) && !AckReply(acc + Extracted(packets[from]))
    ensures CompletesAt(Policy(true, inRemote), acc, packets, from) <==> Byte1(packets[from]) == ENQ
  {
    PolicyDecides(Policy(true, inRemote), acc, packets, from);
  }

  /** In remote command mode such a packet completes the message exactly when it is short. */
  lemma RemoteModeCompletion(acc: seq<Byte>, packets: seq<HidPacket>, from: nat)
    requires from < |packets| && |packets[from]| == HID_PACKET_SIZE
    requires MarkerOk(packets[from]) && !AckReply(acc + Extracted(packets[from]))
    ensures CompletesAt(Policy(false, true), acc, packets, from) <==> Size(packets[from]) < 60
  {
    PolicyDecides(Policy(false, true), acc, packets, from);
  }

  /** Under the default policy: short, or first byte ENQ/EOT/ACK, or tail frame type ETX/ETB. */
  lemma DefaultCompletion(acc: seq<Byte>, packets: seq<HidPacket>, from: nat)
    requires from < |packets| && |packets[from]| == HID_PACKET_SIZE
    requires MarkerOk(packets[from]) && !AckReply(acc + Extracted(packets[from]))
    ensures CompletesAt(Policy(false, false), acc, packets, from) <==>
      Size(packets[from]) < 60 || Byte1(packets[from]) in {ENQ, EOT, ACK} || FrameType(packets[from]) in {Some(ETX), Some(ETB)}
  {
    PolicyDecides(Policy(false, false), acc, packets, from);
  }

  // ---------------------------------------------------------------------------
  // getMessage as written: the callbacks it makes
  // ---------------------------------------------------------------------------

  /**
   * The successive calls getMessage makes to its callback as written. On a bad
   * marker it reports the error and then also ends the async loop, whose final
   * step reports the message as a success: two callbacks. A timeout is the timer's
   * single callback (no packet arrives after it in this model).
   */
  function CallbacksAsWritten(policy: Policy, acc: seq<Byte>, packets: seq<HidPacket>, from: nat)
    : (cbs: seq<Result<seq<Byte>, MessageError>>)
    ensures |cbs| == 1 || |cbs| == 2
    decreases |packets| - from
  {
    if from >= |packets| then [Err(Timeout)]
    else
      var p := packets[from];
      if |p| == 0 then CallbacksAsWritten(policy, acc, packets, from + 1)
      else
        var message := acc + Extracted(p);
        match StepAfter(policy, message, p)
        case Complete => [Ok(message)]
        case Invalid => [Err(InvalidPacket), Ok(message)]
        case NeedMore => CallbacksAsWritten(policy, message, packets, from + 1)
  }

  /** A packet without the "ABC" marker makes the as-written getMessage report failure, then success. */
  lemma InvalidPacketReportedTwice()
    ensures CallbacksAsWritten(Policy(false, false), [], [Zeros(64)], 0) == [Err(InvalidPacket), Ok([])]
  {
    var p: HidPacket := Zeros(64);
    assert [Zeros(64)][0] == p && |p| != 0;
    assert Extracted(p) == [];
    assert [] + Extracted(p) == [];
    assert !AckReply([]);
    assert !MarkerOk(p) by { assert p[0] != MAGIC_HEADER[0]; }
    assert StepAfter(Policy(false, false), [], p) == Invalid;
  }

  /**
   * Reassemble, the corrected getMessage, reports exactly the first callback of the
   * as-written one; the two differ precisely on the invalid packets, where the
   * as-written code adds a spurious success.
   */
  lemma {:induction false} ReassembleIsFirstCallback(policy: Policy, acc: seq<Byte>, packets: seq<HidPacket>, from: nat)
    ensures var cbs := CallbacksAsWritten(policy, acc, packets, from);
      cbs[0] == Reassemble(policy, acc, packets, from).outcome &&
      (|cbs| == 2 <==> Reassemble(policy, acc, packets, from).outcome == Err(InvalidPacket))
    decreases |packets| - from
  {
    if from < |packets| {
      var p := packets[from];
      if |p| == 0 {
        ReassembleIsFirstCallback(policy, acc, packets, from + 1);
      } else if StepAfter(policy, acc + Extracted(p), p) == NeedMore {
        ReassembleIsFirstCallback(policy, acc + Extracted(p), packets, from + 1);
      }
    }
  }
}
