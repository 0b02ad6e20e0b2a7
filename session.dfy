/**
 * The exchanges built on the framer and the reassembler: one command and its
 * reply (bcnCommandResponse), the reply parsers, the eight-step connection
 * handshake of getConfigInfo, the multi-part page read of getRecords and the
 * nine-page history loop of fetchData. Each is a method over the shared message
 * buffer and the transport, proved against a function that runs the same
 * exchange over the delivered packets from the current read position on.
 */
module Session {
  import opened Wrappers
  import opened Bytes
  import opened Framer
  import opened Reassembly

  /** Where the Medtronic message starts inside a reassembled reply. */
  const MESSAGE_OFFSET := 33
  const PART_SIZE := 256

  // ---------------------------------------------------------------------------
  // Reply parsers
  // ---------------------------------------------------------------------------

  /** decodeMessage's record type: the first byte of the message, undefined when it is empty. */
  function RecordType(message: seq<Byte>): (t: Option<Byte>)
    ensures t.Some? <==> |message| > 0
    ensures t.Some? ==> t.value == message[0]
  {
    if |message| == 0 then None else Some(message[0])
  }

  /** The Medtronic message of a reply, as the readModel and readPage parsers cut it. */
  function PagePart(reply: seq<Byte>): (m: seq<Byte>)
    ensures |m| == if |reply| > MESSAGE_OFFSET then |reply| - MESSAGE_OFFSET else 0
    ensures forall j :: 0 <= j < |m| ==> m[j] == reply[MESSAGE_OFFSET + j]
  {
    Drop(reply, MESSAGE_OFFSET)
  }

  /**
   * The readModel parser: with m the Medtronic message, the string of m[0]
   * characters read from m[1..], clamped at the end of the reply.
   */
  function ModelNumber(reply: seq<Byte>): (model: string)
    ensures |reply| <= MESSAGE_OFFSET + 1 ==> model == ""
    ensures |reply| > MESSAGE_OFFSET ==> |model| == Min(reply[MESSAGE_OFFSET], |reply| - MESSAGE_OFFSET - 1)
    ensures forall i :: 0 <= i < |model| ==> model[i] as int == reply[MESSAGE_OFFSET + 1 + i]
  {
    var m := PagePart(reply);
    if |m| == 0 then "" else AsChars(Slice(m, 1, m[0]))
  }

  // ---------------------------------------------------------------------------
  // One command and its reply
  // ---------------------------------------------------------------------------

  /**
   * Sends a frame and waits for the reply (policy waitForENQ as given, never remote
   * mode). On success the buffer is reset and the reply returned; on failure the
   * buffer keeps what was accumulated.
   */
  method CommandResponse(buffer: MessageBuffer, link: Link, frame: array<Byte>, waitForEnq: bool)
    returns (r: Result<seq<Byte>, MessageError>)
    requires buffer.Valid()
    modifies buffer, link
    ensures buffer.Valid()
    ensures link.sent == old(link.sent) + [frame[..]]
    ensures var s := Reassemble(Policy(waitForEnq, false), old(buffer.bytes), link.inbox, old(link.position));
      r == s.outcome && link.position == s.next &&
      (r.Ok? ==> buffer.IsReset()) && (r.Err? ==> buffer.bytes == s.bytes)
  {
    link.Send(frame);
    r := GetMessage(buffer, link, Policy(waitForEnq, false));
    if r.Ok? {
      buffer.Reset();
    }
  }

  // ---------------------------------------------------------------------------
  // Connection handshake (getConfigInfo)
  // ---------------------------------------------------------------------------

  const HANDSHAKE_STEPS := 8

  datatype ConnectError = Transport(failure: MessageError) | ExpectedEot | ExpectedAck(step: string)

  /** The error text the driver reports. */
  function ErrorText(e: ConnectError): string
  {
    match e
    case Transport(Timeout) => "Timeout error."
    case Transport(InvalidPacket) => "Invalid USB packet received."
    case ExpectedEot => "Expected EOT."
    case ExpectedAck(step) => "Expected ACK during connect:" + step
  }

  /**
   * The frame of handshake step k: the meter probe X, NAK, ENQ, WRITE, QUERY and
   * MAGIC as short control packets, then OPEN_CONNECTION and the model query as
   * Medtronic command packets.
   */
  function HandshakeFrame(crc: Crc8, session: Session, k: nat): seq<Byte>
    requires k < HANDSHAKE_STEPS
  {
    if k == 0 then ControlPacket([0x58], 1)
    else if k == 1 then ControlPacket([NAK], 1)
    else if k == 2 then ControlPacket([ENQ], 1)
    else if k == 3 then ControlPacket(GET_WRITE, 2)
    else if k == 4 then ControlPacket(GET_QUERY, 2)
    else if k == 5 then ControlPacket(GET_MAGIC, 2)
    else if k == 6 then MedtronicPacket(crc, session, OPEN_CONNECTION, None, None)
    else MedtronicPacket(crc, session, SEND_MESSAGE, Some([READ_MODEL]), None)
  }

  /** Step k's frame, for every k: nothing past the last step. */
  function HandshakeFrameOf(crc: Crc8, session: Session): nat -> seq<Byte>
  {
    (k: nat) => if k < HANDSHAKE_STEPS then HandshakeFrame(crc, session, k) else []
  }

  /** The send log `sent` followed by the frames of steps 0 to n - 1, in step order. */
  function FrameLog(frame: nat -> seq<Byte>, sent: seq<seq<Byte>>, n: nat): seq<seq<Byte>>
  {
    if n == 0 then sent else FrameLog(frame, sent, n - 1) + [frame(n - 1)]
  }

  /** The log keeps what was sent before, then holds the frame of step j at position j after it. */
  lemma {:induction false} FrameLogInOrder(frame: nat -> seq<Byte>, sent: seq<seq<Byte>>, n: nat)
    ensures var log := FrameLog(frame, sent, n);
      |log| == |sent| + n && log[..|sent|] == sent &&
      forall j :: 0 <= j < n ==> log[|sent| + j] == frame(j)
  {
    if n > 0 {
      FrameLogInOrder(frame, sent, n - 1);
    }
  }

  /** The record-type check after step k, or None when the step checks nothing or passes. */
  function StepCheck(k: nat, reply: seq<Byte>): (e: Option<ConnectError>)
    ensures k == 0 || k >= 6 ==> e == None
    ensures k == 1 ==> (e == None <==> RecordType(reply) == Some(EOT))
    ensures 2 <= k <= 5 ==> (e == None <==> RecordType(reply) == Some(ACK))
  {
    if k == 1 then
      if RecordType(reply) == Some(EOT) then None else Some(ExpectedEot)
    else if k == 2 then
      if RecordType(reply) == Some(ACK) then None else Some(ExpectedAck("ENQ"))
    else if k == 3 then
      if RecordType(reply) == Some(ACK) then None else Some(ExpectedAck("WRITE"))
    else if k == 4 then
      if RecordType(reply) == Some(ACK) then None else Some(ExpectedAck("QUERY"))
    else if k == 5 then
      if RecordType(reply) == Some(ACK) then None else Some(ExpectedAck("MAGIC"))
    else None
  }

  /** Outcome of one handshake task: the checked reply or the error, the read position and the buffer after. */
  datatype StepRun = StepRun(reply: Result<seq<Byte>, ConnectError>, next: nat, bytes: seq<Byte>)

  /** Task k of the handshake: its command's reply (waiting for ENQ only in the probe), then its check. */
  function HandshakeStep(k: nat, acc: seq<Byte>, packets: seq<HidPacket>, from: nat): (st: StepRun)
    ensures from <= st.next
    ensures st.reply.Ok? ==> st.bytes == [] && StepCheck(k, st.reply.value) == None
  {
    var s := Reassemble(Policy(k == 0, false), acc, packets, from);
    if s.outcome.Err? then StepRun(Err(Transport(s.outcome.error)), s.next, s.bytes)
    else if StepCheck(k, s.outcome.value).Some? then StepRun(Err(StepCheck(k, s.outcome.value).value), s.next, [])
    else StepRun(Ok(s.outcome.value), s.next, [])
  }

  /** Outcome of a handshake: its result, the number of frames sent, the read position and the buffer after. */
  datatype Handshake = Handshake(result: Result<string, ConnectError>, steps: nat, next: nat, bytes: seq<Byte>)

  /** The handshake from task k on, with buffer contents `acc`, reading the packets from position `from`. */
  function RunHandshake(k: nat, acc: seq<Byte>, packets: seq<HidPacket>, from: nat): (h: Handshake)
    requires k < HANDSHAKE_STEPS
    ensures k < h.steps <= HANDSHAKE_STEPS
    ensures from <= h.next
    ensures h.result.Ok? ==> h.steps == HANDSHAKE_STEPS && h.bytes == []
    decreases HANDSHAKE_STEPS - k
  {
    var st := HandshakeStep(k, acc, packets, from);
    if st.reply.Err? then Handshake(Err(st.reply.error), k + 1, st.next, st.bytes)
    else if k == HANDSHAKE_STEPS - 1 then Handshake(Ok(ModelNumber(st.reply.value)), HANDSHAKE_STEPS, st.next, [])
    else RunHandshake(k + 1, [], packets, st.next)
  }

  /** Once task k succeeds and is not the last, the handshake goes on with task k + 1 on an empty buffer. */
  lemma HandshakeContinues(k: nat, acc: seq<Byte>, packets: seq<HidPacket>, from: nat)
    requires k < HANDSHAKE_STEPS
    ensures var st := HandshakeStep(k, acc, packets, from);
      var h := RunHandshake(k, acc, packets, from);
      (st.reply.Err? ==> h == Handshake(Err(st.reply.error), k + 1, st.next, st.bytes)) &&
      (st.reply.Ok? && k == HANDSHAKE_STEPS - 1 ==> h == Handshake(Ok(ModelNumber(st.reply.value)), HANDSHAKE_STEPS, st.next, [])) &&
      (st.reply.Ok? && k < HANDSHAKE_STEPS - 1 ==> h == RunHandshake(k + 1, [], packets, st.next))
  {
  }

  method BuildHandshakeFrame(crc: Crc8, session: Session, k: nat) returns (frame: array<Byte>)
    requires k < HANDSHAKE_STEPS
    ensures fresh(frame)
    ensures frame[..] == HandshakeFrame(crc, session, k)
  {
    if k == 0 {
      frame := BuildPacket([0x58], 1);
    } else if k == 1 {
      frame := BuildPacket([NAK], 1);
    } else if k == 2 {
      frame := BuildPacket([ENQ], 1);
    } else if k == 3 {
      frame := BuildPacket(GET_WRITE, 2);
    } else if k == 4 {
      frame := BuildPacket(GET_QUERY, 2);
    } else if k == 5 {
      frame := BuildPacket(GET_MAGIC, 2);
    } else if k == 6 {
      frame := BuildMedtronicPacket(crc, session, OPEN_CONNECTION, None, None);
    } else {
      frame := BuildMedtronicPacket(crc, session, SEND_MESSAGE, Some([READ_MODEL]), None);
    }
  }

  /** One task of getConfigInfo: sends the step's frame and checks the reply's record type. */
  method RunStep(buffer: MessageBuffer, link: Link, crc: Crc8, session: Session, k: nat)
    returns (reply: Result<seq<Byte>, ConnectError>)
    requires k < HANDSHAKE_STEPS && buffer.Valid()
    modifies buffer, link
    ensures buffer.Valid()
    ensures var st := HandshakeStep(k, old(buffer.bytes), link.inbox, old(link.position));
      reply == st.reply && buffer.bytes == st.bytes && link.position == st.next &&
      link.sent == old(link.sent) + [HandshakeFrameOf(crc, session)(k)]
  {
    var frame := BuildHandshakeFrame(crc, session, k);
    var r := CommandResponse(buffer, link, frame, k == 0);
    if r.Err? {
      return Err(Transport(r.error));
    }
    var check := StepCheck(k, r.value);
    if check.Some? {
      return Err(check.value);
    }
    return Ok(r.value);
  }

  /** Task k of the handshake, and where the handshake stands after it. */
  method HandshakeTask(buffer: MessageBuffer, link: Link, crc: Crc8, session: Session, k: nat)
    returns (reply: Result<seq<Byte>, ConnectError>)
    requires k < HANDSHAKE_STEPS && buffer.Valid()
    modifies buffer, link
    ensures buffer.Valid()
    ensures link.sent == old(link.sent) + [HandshakeFrameOf(crc, session)(k)]
    ensures var h := RunHandshake(k, old(buffer.bytes), link.inbox, old(link.position));
      (reply.Err? ==> h == Handshake(Err(reply.error), k + 1, link.position, buffer.bytes)) &&
      (reply.Ok? && k == HANDSHAKE_STEPS - 1 ==> h == Handshake(Ok(ModelNumber(reply.value)), HANDSHAKE_STEPS, link.position, buffer.bytes)) &&
      (reply.Ok? && k < HANDSHAKE_STEPS - 1 ==> h == RunHandshake(k + 1, buffer.bytes, link.inbox, link.position))
  {
    HandshakeContinues(k, buffer.bytes, link.inbox, link.position);
    reply := RunStep(buffer, link, crc, session, k);
  }

  /**
   * getConfigInfo: the eight tasks in order (async.series), the first waiting for
   * ENQ; each task, once it succeeds, starts the next and the first failure ends
   * the handshake. The frames sent are exactly the first `steps` handshake frames;
   * on success the result is the model number read from the last reply.
   */
  method GetConfigInfo(buffer: MessageBuffer, link: Link, crc: Crc8, session: Session)
    returns (r: Result<string, ConnectError>)
    requires buffer.Valid()
    modifies buffer, link
    ensures buffer.Valid()
    ensures var h := RunHandshake(0, old(buffer.bytes), link.inbox, old(link.position));
      r == h.result && buffer.bytes == h.bytes && link.position == h.next &&
      link.sent == FrameLog(HandshakeFrameOf(crc, session), old(link.sent), h.steps)
  {
    r := HandshakeFrom(buffer, link, crc, session, 0, link.sent);
  }

  /** The tasks of getConfigInfo from task k on, after the frames of tasks 0 to k - 1 were sent after `sent`. */
  method HandshakeFrom(buffer: MessageBuffer, link: Link, crc: Crc8, session: Session, k: nat, ghost sent: seq<seq<Byte>>)
    returns (r: Result<string, ConnectError>)
    requires k < HANDSHAKE_STEPS && buffer.Valid()
    requires link.sent == FrameLog(HandshakeFrameOf(crc, session), sent, k)
    modifies buffer, link
    ensures buffer.Valid()
    ensures var h := RunHandshake(k, old(buffer.bytes), link.inbox, old(link.position));
      r == h.result && buffer.bytes == h.bytes && link.position == h.next &&
      link.sent == FrameLog(HandshakeFrameOf(crc, session), sent, h.steps)
    decreases HANDSHAKE_STEPS - k
  {
    ghost var log := FrameLog(HandshakeFrameOf(crc, session), sent, k + 1);
    var reply := HandshakeTask(buffer, link, crc, session, k);
    assert link.sent == log;
    if reply.Err? {
      return Err(reply.error);
    }
    if k == HANDSHAKE_STEPS - 1 {
      return Ok(ModelNumber(reply.value));
    }
    r := HandshakeFrom(buffer, link, crc, session, k + 1, sent);
  }

  /**
   * A failed handshake names the step that failed, and that step was the last one
   * started: EOT is expected only after NAK (the second frame), an ACK only after
   * ENQ, WRITE, QUERY and MAGIC (frames three to six).
   */
  lemma {:induction false} HandshakeErrorNamesLastStep(k: nat, acc: seq<Byte>, packets: seq<HidPacket>, from: nat)
    requires k < HANDSHAKE_STEPS
    ensures var h := RunHandshake(k, acc, packets, from);
      (h.result == Err(ExpectedEot) ==> h.steps == 2) &&
      (h.result.Err? && h.result.error.ExpectedAck? ==>
        3 <= h.steps <= 6 &&
        h.result.error.step == ["ENQ", "WRITE", "QUERY", "MAGIC"][h.steps - 3])
    decreases HANDSHAKE_STEPS - k
  {
    var st := HandshakeStep(k, acc, packets, from);
    if st.reply.Ok? && k < HANDSHAKE_STEPS - 1 {
      HandshakeErrorNamesLastStep(k + 1, [], packets, st.next);
    }
  }

  /**
   * An ENQ reply that is not an ACK ends the handshake with the ENQ error after
   * three frames: WRITE, QUERY, MAGIC, OPEN_CONNECTION and the model query are
   * never sent.
   */
  lemma EnqWithoutAckStops(acc: seq<Byte>, packets: seq<HidPacket>, from: nat)
    requires var h0 := Reassemble(Policy(true, false), acc, packets, from);
      h0.outcome.Ok? &&
      var h1 := Reassemble(Policy(false, false), [], packets, h0.next);
      h1.outcome.Ok? && RecordType(h1.outcome.value) == Some(EOT) &&
      var h2 := Reassemble(Policy(false, false), [], packets, h1.next);
      h2.outcome.Ok? && RecordType(h2.outcome.value) != Some(ACK)
    ensures RunHandshake(0, acc, packets, from).result == Err(ExpectedAck("ENQ"))
    ensures RunHandshake(0, acc, packets, from).steps == 3
  {
  }

  // ---------------------------------------------------------------------------
  // Page read (getRecords)
  // ---------------------------------------------------------------------------

  datatype PageError = Receive(failure: MessageError) | PartTooLong(part: nat)

  /** Copying `part` over `page` at offset `at`, as Uint8Array.set does. */
  function Overlay(page: seq<Byte>, part: seq<Byte>, at: nat): (r: seq<Byte>)
    requires at + |part| <= |page|
    ensures |r| == |page|
  {
    page[..at] + part + page[at + |part|..]
  }

  /** Part k fits the page of n parts when it ends by the end of the page. */
  ghost predicate Fits(parts: seq<seq<Byte>>, n: nat)
  {
    forall k :: 0 <= k < |parts| ==> PART_SIZE * k + |parts[k]| <= PART_SIZE * n
  }

  /** The page of n parts after the parts so far were copied at 256 * k, in order, over zeros. */
  function Assemble(parts: seq<seq<Byte>>, n: nat): (page: seq<Byte>)
    requires Fits(parts, n)
    ensures |page| == PART_SIZE * n
  {
    if parts == [] then Zeros(PART_SIZE * n)
    else
      var k := |parts| - 1;
      Overlay(Assemble(parts[..k], n), parts[k], PART_SIZE * k)
  }

  /** Copying one more part is one more overlay, at the part's own offset. */
  lemma AssembleAppend(parts: seq<seq<Byte>>, part: seq<Byte>, n: nat)
    requires Fits(parts, n) && PART_SIZE * |parts| + |part| <= PART_SIZE * n
    ensures Fits(parts + [part], n)
    ensures Assemble(parts + [part], n) == Overlay(Assemble(parts, n), part, PART_SIZE * |parts|)
  {
    assert (parts + [part])[..|parts|] == parts;
  }

  /**
   * Parts no longer than 256 bytes land exactly at 256 * k: every position of the
   * page holds the byte of the part it falls in, or zero where no part reached.
   */
  lemma {:induction false} AssemblePlacesParts(parts: seq<seq<Byte>>, n: nat)
    requires Fits(parts, n)
    requires forall k :: 0 <= k < |parts| ==> |parts[k]| <= PART_SIZE
    ensures forall i :: 0 <= i < PART_SIZE * n ==>
        Assemble(parts, n)[i] == if i / PART_SIZE < |parts| && i % PART_SIZE < |parts[i / PART_SIZE]|
                   then parts[i / PART_SIZE][i % PART_SIZE] else 0
  {
    var page := Assemble(parts, n);
    if parts != [] {
      var k := |parts| - 1;
      var prefix := parts[..k];
      AssemblePlacesParts(prefix, n);
      var before := Assemble(prefix, n);
      assert page == Overlay(before, parts[k], PART_SIZE * k);
      forall i | 0 <= i < PART_SIZE * n
        ensures page[i] == if i / PART_SIZE < |parts| && i % PART_SIZE < |parts[i / PART_SIZE]|
                           then parts[i / PART_SIZE][i % PART_SIZE] else 0
      {
        var q, m := i / PART_SIZE, i % PART_SIZE;
        assert before[i] == if q < |prefix| && m < |prefix[q]| then prefix[q][m] else 0;
        PartOf(i, k);
        OverlayAt(before, parts[k], PART_SIZE * k, i);
        if q < k {
          assert page[i] == before[i];
          assert parts[q] == prefix[q];
        } else if q == k {
          assert m == i - PART_SIZE * k;
          assert page[i] == if m < |parts[k]| then parts[k][m] else before[i];
        } else {
          assert q >= |prefix|;
          assert before[i] == 0;
          assert page[i] == before[i];
        }
      }
    }
  }

  /** Position i of a page falls in part i / 256, at offset i % 256. */
  lemma PartOf(i: nat, k: nat)
    ensures i / PART_SIZE < k <==> i < PART_SIZE * k
    ensures i / PART_SIZE == k <==> PART_SIZE * k <= i < PART_SIZE * k + PART_SIZE
    ensures i / PART_SIZE == k ==> i % PART_SIZE == i - PART_SIZE * k
  {
    var q := i / PART_SIZE;
    assert i == PART_SIZE * q + i % PART_SIZE;
    if q < k {
      assert PART_SIZE * q + PART_SIZE <= PART_SIZE * k;
    } else if q > k {
      assert PART_SIZE * q >= PART_SIZE * k + PART_SIZE;
    }
  }

  /** Position i of an overlay comes from the part where the part covers it, else from the page. */
  lemma OverlayAt(page: seq<Byte>, part: seq<Byte>, at: nat, i: nat)
    requires at + |part| <= |page| && i < |page|
    ensures Overlay(page, part, at)[i] == if at <= i < at + |part| then part[i - at] else page[i]
  {
    var r := Overlay(page, part, at);
    assert r == (page[..at] + part) + page[at + |part|..];
    if i < at {
      assert r[i] == page[..at][i];
    } else if i < at + |part| {
      assert r[i] == (page[..at] + part)[i];
    } else {
      assert r[i] == page[at + |part|..][i - at - |part|];
    }
  }

  /** Outcome of a page read: the page or error, every part read, the read position and the buffer after. */
  datatype PageRead = PageRead(result: Result<seq<Byte>, PageError>, parts: seq<seq<Byte>>, next: nat, bytes: seq<Byte>)

  /**
   * The rest of a page read of n parts, the parts so far already copied: each part
   * is the Medtronic message of one reply read in remote command mode; the buffer
   * is reset after each reply; a part reaching past the page end fails.
   */
  function ReadParts(n: nat, parts: seq<seq<Byte>>, acc: seq<Byte>, packets: seq<HidPacket>, from: nat): (pr: PageRead)
    requires |parts| <= n && Fits(parts, n)
    ensures from <= pr.next
    ensures parts <= pr.parts && |pr.parts| <= n
    ensures pr.result.Ok? ==>
      |pr.parts| == n && Fits(pr.parts, n) && pr.result.value == Assemble(pr.parts, n)
    decreases n - |parts|
  {
    if |parts| == n then PageRead(Ok(Assemble(parts, n)), parts, from, acc)
    else
      var s := Reassemble(Policy(false, true), acc, packets, from);
      if s.outcome.Err? then PageRead(Err(Receive(s.outcome.error)), parts, s.next, s.bytes)
      else
        var part := PagePart(s.outcome.value);
        if PART_SIZE * |parts| + |part| > PART_SIZE * n then
          PageRead(Err(PartTooLong(|parts|)), parts + [part], s.next, [])
        else
          ReadParts(n, parts + [part], [], packets, s.next)
  }

  /** One part further: the reply's outcome decides between failing, overflowing the page and reading on. */
  lemma ReadPartsContinues(n: nat, parts: seq<seq<Byte>>, acc: seq<Byte>, packets: seq<HidPacket>, from: nat)
    requires |parts| < n && Fits(parts, n)
    ensures var s := Reassemble(Policy(false, true), acc, packets, from);
      var pr := ReadParts(n, parts, acc, packets, from);
      (s.outcome.Err? ==> pr == PageRead(Err(Receive(s.outcome.error)), parts, s.next, s.bytes)) &&
      (s.outcome.Ok? ==>
        var part := PagePart(s.outcome.value);
        (PART_SIZE * |parts| + |part| > PART_SIZE * n ==>
          pr == PageRead(Err(PartTooLong(|parts|)), parts + [part], s.next, [])) &&
        (PART_SIZE * |parts| + |part| <= PART_SIZE * n ==>
          Fits(parts + [part], n) && pr == ReadParts(n, parts + [part], [], packets, s.next)))
  {
  }

  /** Receives one reply in remote command mode, cuts its Medtronic message and resets the buffer. */
  method ReceivePart(buffer: MessageBuffer, link: Link) returns (r: Result<seq<Byte>, MessageError>)
    requires buffer.Valid()
    modifies buffer, link
    ensures buffer.Valid() && link.sent == old(link.sent)
    ensures var s := Reassemble(Policy(false, true), old(buffer.bytes), link.inbox, old(link.position));
      link.position == s.next && (r.Ok? <==> s.outcome.Ok?) &&
      (r.Ok? ==> r.value == PagePart(s.outcome.value) && buffer.bytes == []) &&
      (r.Err? ==> r.error == s.outcome.error && buffer.bytes == s.bytes)
  {
    var reply := GetMessage(buffer, link, Policy(false, true));
    if reply.Err? {
      return Err(reply.error);
    }
    buffer.Reset();
    return Ok(PagePart(reply.value));
  }

  /** page.set(part, 256 * k) for the next part k. */
  method CopyPart(page: array<Byte>, k: nat, ghost parts: seq<seq<Byte>>, part: seq<Byte>, n: nat)
    requires k == |parts| && Fits(parts + [part], n)
    requires page.Length == PART_SIZE * n && Fits(parts, n) && page[..] == Assemble(parts, n)
    modifies page
    ensures page[..] == Assemble(parts + [part], n)
  {
    ghost var before := page[..];
    assert (parts + [part])[k] == part;
    AssembleAppend(parts, part, n);
    var copied := CopyBytes(page, PART_SIZE * k, part, |part|, 0);
    assert Window(part, 0, |part|) == part;
    assert page[..] == Overlay(before, part, PART_SIZE * |parts|);
  }

  /**
   * getRecords: sends the command packet and its padding packet, then reads n
   * parts into a 256 * n byte page, resetting the buffer after each; any receive
   * failure aborts without a page.
   */
  method GetRecords(buffer: MessageBuffer, link: Link, command1: array<Byte>, command2: array<Byte>, n: nat)
    returns (r: Result<seq<Byte>, PageError>)
    requires buffer.Valid()
    modifies buffer, link
    ensures buffer.Valid()
    ensures link.sent == old(link.sent) + [command1[..]] + [command2[..]]
    ensures var pr := ReadParts(n, [], old(buffer.bytes), link.inbox, old(link.position));
      r == pr.result && buffer.bytes == pr.bytes && link.position == pr.next
  {
    link.Send(command1);
    link.Send(command2);
    ghost var pr0 := ReadParts(n, [], buffer.bytes, link.inbox, link.position);
    ghost var parts: seq<seq<Byte>> := [];
    var page := new Byte[PART_SIZE * n](_ => 0);
    var count := 0;
    assert page[..] == Assemble([], n);
    while count < n
      invariant count == |parts| <= n && Fits(parts, n)
      invariant buffer.Valid()
      invariant link.sent == old(link.sent) + [command1[..]] + [command2[..]]
      invariant page.Length == PART_SIZE * n && page[..] == Assemble(parts, n)
      invariant ReadParts(n, parts, buffer.bytes, link.inbox, link.position) == pr0
      decreases n - count
    {
      ReadPartsContinues(n, parts, buffer.bytes, link.inbox, link.position);
      var part := ReceivePart(buffer, link);
      if part.Err? {
        return Err(Receive(part.error));
      }
      if PART_SIZE * count + |part.value| > page.Length {
        return Err(PartTooLong(count));
      }
      CopyPart(page, count, parts, part.value, n);
      parts := parts + [part.value];
      count := count + 1;
    }
    return Ok(page[..]);
  }

  // ---------------------------------------------------------------------------
  // History download (fetchData)
  // ---------------------------------------------------------------------------

  const HISTORY_PAGES := 9
  const PARTS_PER_PAGE := 4

  /** The padding packet buildPaddingPacket returns for a command and parameter. */
  function PaddingPacket(crc: Crc8, header: seq<Byte>, command: seq<Byte>, parameter: seq<Byte>): seq<Byte>
  {
    [0, 0, 0, SECOND_PACKET_LENGTH] + Zeros(PADDING_LENGTH) + [PaddingChecksum(crc, header, command, parameter)]
  }

  /** READ_HISTORY as a plain command, sent before every page. */
  function HistoryCommand(crc: Crc8, session: Session): seq<Byte>
  {
    MedtronicPacket(crc, session, SEND_MESSAGE, Some([READ_HISTORY]), None)
  }

  /** The readPage command for page k: READ_HISTORY with parameter [1, k]. */
  function ReadPageCommand(crc: Crc8, session: Session, k: Byte): seq<Byte>
  {
    MedtronicPacket(crc, session, SEND_MESSAGE, Some([READ_HISTORY]), Some([1, k]))
  }

  /** The padding packet that follows the readPage command for page k. */
  function ReadPagePadding(crc: Crc8, session: Session, k: Byte): seq<Byte>
  {
    PaddingPacket(crc, session.header, [READ_HISTORY], [1, k])
  }

  /** The three frames of history page k, in the order they are sent. */
  function PageFrames(crc: Crc8, session: Session, k: Byte): seq<seq<Byte>>
  {
    [HistoryCommand(crc, session), ReadPageCommand(crc, session, k), ReadPagePadding(crc, session, k)]
  }

  datatype FetchError = CommandFailed(page: nat, failure: MessageError) | PageFailed(page: nat, reason: PageError)

  /** Outcome of one page of the download: the page or error, the send log, the read position and the buffer after. */
  datatype PageFetch = PageFetch(result: Result<seq<Byte>, FetchError>, sent: seq<seq<Byte>>, next: nat, bytes: seq<Byte>)

  /**
   * Page k of the download after the send log `sent`: READ_HISTORY and its reply
   * (waiting for ENQ), then the page read of four parts. A reply to READ_HISTORY
   * always lets the read go on.
   */
  function FetchPage(crc: Crc8, session: Session, k: Byte, sent: seq<seq<Byte>>, acc: seq<Byte>,
                     packets: seq<HidPacket>, from: nat): (p: PageFetch)
    ensures from <= p.next
    ensures p.result.Ok? ==> |p.result.value| == PART_SIZE * PARTS_PER_PAGE
    ensures p.result.Err? ==> p.result.error.page == k
  {
    var log := sent + [HistoryCommand(crc, session)];
    var s := Reassemble(Policy(true, false), acc, packets, from);
    if s.outcome.Err? then PageFetch(Err(CommandFailed(k, s.outcome.error)), log, s.next, s.bytes)
    else
      var log' := log + [ReadPageCommand(crc, session, k)] + [ReadPagePadding(crc, session, k)];
      var pr := ReadParts(PARTS_PER_PAGE, [], [], packets, s.next);
      if pr.result.Err? then PageFetch(Err(PageFailed(k, pr.result.error)), log', pr.next, pr.bytes)
      else PageFetch(Ok(pr.result.value), log', pr.next, pr.bytes)
  }

  /**
   * A page of the download sends READ_HISTORY and, unless READ_HISTORY went
   * unanswered, the readPage command and its padding after it.
   */
  lemma PageSends(crc: Crc8, session: Session, k: Byte, sent: seq<seq<Byte>>, acc: seq<Byte>, packets: seq<HidPacket>, from: nat)
    ensures var p := FetchPage(crc, session, k, sent, acc, packets, from);
      if p.result.Err? && p.result.error.CommandFailed?
      then p.sent == sent + PageFrames(crc, session, k)[..1]
      else p.sent == sent + PageFrames(crc, session, k)
  {
    var frames := PageFrames(crc, session, k);
    var log := sent + [frames[0]];
    assert log == sent + frames[..1];
    var s := Reassemble(Policy(true, false), acc, packets, from);
    if s.outcome.Ok? {
      assert log + [frames[1]] + [frames[2]] == sent + frames;
    }
  }

  /** Outcome of the history download: the pages or error, the send log, the read position and the buffer after. */
  datatype Fetch = Fetch(result: Result<seq<seq<Byte>>, FetchError>, sent: seq<seq<Byte>>, next: nat, bytes: seq<Byte>)

  /** One page of a download, from the page number, the send log, the buffer and the read position. */
  type PageStep = (nat, seq<seq<Byte>>, seq<Byte>, nat) -> PageFetch

  /** The page step of fetchData over the reply stream `packets`. */
  function FetchPageOf(crc: Crc8, session: Session, packets: seq<HidPacket>): PageStep
  {
    (k: nat, sent: seq<seq<Byte>>, acc: seq<Byte>, from: nat) =>
      if k < 256 then FetchPage(crc, session, k, sent, acc, packets, from)
      else PageFetch(Err(CommandFailed(k, Timeout)), sent, from, acc)
  }

  /**
   * A download of pages k to 8 by `page`, the pages so far already read: it stops
   * at the first page that fails.
   */
  function Download(page: PageStep, k: nat, pages: seq<seq<Byte>>, sent: seq<seq<Byte>>, acc: seq<Byte>, from: nat): Fetch
    requires k <= HISTORY_PAGES
    decreases HISTORY_PAGES - k
  {
    if k == HISTORY_PAGES then Fetch(Ok(pages), sent, from, acc)
    else
      var p := page(k, sent, acc, from);
      if p.result.Err? then Fetch(Err(p.result.error), p.sent, p.next, p.bytes)
      else Download(page, k + 1, pages + [p.result.value], p.sent, p.bytes, p.next)
  }

  /** The fetchData download from page k on. */
  function FetchPages(crc: Crc8, session: Session, k: nat, pages: seq<seq<Byte>>, sent: seq<seq<Byte>>,
                      acc: seq<Byte>, packets: seq<HidPacket>, from: nat): Fetch
    requires k <= HISTORY_PAGES
  {
    Download(FetchPageOf(crc, session, packets), k, pages, sent, acc, from)
  }

  /** One page further: a failed page ends the download, a page read goes on with the next. */
  lemma FetchContinues(crc: Crc8, session: Session, k: nat, pages: seq<seq<Byte>>, sent: seq<seq<Byte>>,
                       acc: seq<Byte>, packets: seq<HidPacket>, from: nat)
    requires k < HISTORY_PAGES
    ensures var p := FetchPage(crc, session, k, sent, acc, packets, from);
      var f := FetchPages(crc, session, k, pages, sent, acc, packets, from);
      (p.result.Err? ==> f == Fetch(Err(p.result.error), p.sent, p.next, p.bytes)) &&
      (p.result.Ok? ==> f == FetchPages(crc, session, k + 1, pages + [p.result.value], p.sent, p.bytes, packets, p.next))
  {
    assert FetchPageOf(crc, session, packets)(k, sent, acc, from) == FetchPage(crc, session, k, sent, acc, packets, from);
  }

  /** A complete download adds one page per step, in page order, to the pages read before. */
  lemma {:induction false} DownloadReadsEveryPage(page: PageStep, k: nat, pages: seq<seq<Byte>>, sent: seq<seq<Byte>>,
                                                  acc: seq<Byte>, from: nat, size: nat)
    requires k <= HISTORY_PAGES
    requires forall j: nat, s: seq<seq<Byte>>, a: seq<Byte>, n: nat ::
      j < HISTORY_PAGES && page(j, s, a, n).result.Ok? ==> |page(j, s, a, n).result.value| == size
    ensures var f := Download(page, k, pages, sent, acc, from);
      f.result.Ok? ==>
        |f.result.value| == |pages| + HISTORY_PAGES - k && pages <= f.result.value &&
        forall j :: |pages| <= j < |f.result.value| ==> |f.result.value[j]| == size
    decreases HISTORY_PAGES - k
  {
    var f := Download(page, k, pages, sent, acc, from);
    if k < HISTORY_PAGES {
      var p := page(k, sent, acc, from);
      if p.result.Ok? {
        var pages' := pages + [p.result.value];
        DownloadReadsEveryPage(page, k + 1, pages', p.sent, p.bytes, p.next, size);
        if f.result.Ok? {
          var v := f.result.value;
          assert pages' <= v;
          forall j | |pages| <= j < |v|
            ensures |v[j]| == size
          {
            if j > |pages| {
              assert |pages'| <= j;
            }
          }
        }
      }
    }
  }

  /** The frames of pages k to 8, in page order. */
  function PagesLog(frames: nat -> seq<seq<Byte>>, k: nat): seq<seq<Byte>>
    requires k <= HISTORY_PAGES
    decreases HISTORY_PAGES - k
  {
    if k == HISTORY_PAGES then [] else frames(k) + PagesLog(frames, k + 1)
  }

  /** With three frames a page, the frames of page i sit at 3 (i - k) in the log from page k. */
  lemma {:induction false} PagesLogInOrder(frames: nat -> seq<seq<Byte>>, k: nat)
    requires k <= HISTORY_PAGES
    requires forall i :: k <= i < HISTORY_PAGES ==> |frames(i)| == 3
    ensures var log := PagesLog(frames, k);
      |log| == 3 * (HISTORY_PAGES - k) &&
      forall i :: k <= i < HISTORY_PAGES ==> log[3 * (i - k)..3 * (i - k) + 3] == frames(i)
    decreases HISTORY_PAGES - k
  {
    if k < HISTORY_PAGES {
      PagesLogInOrder(frames, k + 1);
      var log := PagesLog(frames, k);
      var rest := PagesLog(frames, k + 1);
      assert log == frames(k) + rest;
      forall i | k <= i < HISTORY_PAGES
        ensures log[3 * (i - k)..3 * (i - k) + 3] == frames(i)
      {
        if i == k {
          assert log[..3] == frames(k);
        } else {
          SliceOfSecond(frames(k), rest, 3 * (i - k), 3 * (i - k) + 3);
        }
      }
    }
  }

  /** A slice past the end of the first half of a concatenation lies in the second. */
  lemma SliceOfSecond(a: seq<seq<Byte>>, b: seq<seq<Byte>>, x: nat, y: nat)
    requires |a| <= x <= y <= |a| + |b|
    ensures (a + b)[x..y] == b[x - |a|..y - |a|]
  {
  }

  /** A complete download sends the frames of every page in page order, after what was sent before. */
  lemma {:induction false} DownloadSendsEveryPage(page: PageStep, frames: nat -> seq<seq<Byte>>, k: nat, pages: seq<seq<Byte>>,
                                                  sent: seq<seq<Byte>>, acc: seq<Byte>, from: nat)
    requires k <= HISTORY_PAGES
    requires forall j: nat, s: seq<seq<Byte>>, a: seq<Byte>, n: nat ::
      j < HISTORY_PAGES && page(j, s, a, n).result.Ok? ==> page(j, s, a, n).sent == s + frames(j)
    ensures var f := Download(page, k, pages, sent, acc, from);
      f.result.Ok? ==> f.sent == sent + PagesLog(frames, k)
    decreases HISTORY_PAGES - k
  {
    if k == HISTORY_PAGES {
      assert sent + [] == sent;
    } else {
      var p := page(k, sent, acc, from);
      if p.result.Ok? {
        DownloadSendsEveryPage(page, frames, k + 1, pages + [p.result.value], p.sent, p.bytes, p.next);
        assert sent + frames(k) + PagesLog(frames, k + 1) == sent + PagesLog(frames, k);
      }
    }
  }

  /** The three frames of each history page. */
  function PageFramesOf(crc: Crc8, session: Session): nat -> seq<seq<Byte>>
  {
    (k: nat) => if k < 256 then PageFrames(crc, session, k) else []
  }

  /** A complete fetchData run returns nine pages of 1024 bytes. */
  lemma FetchReadsEveryPage(crc: Crc8, session: Session, sent: seq<seq<Byte>>, acc: seq<Byte>, packets: seq<HidPacket>, from: nat)
    ensures var f := FetchPages(crc, session, 0, [], sent, acc, packets, from);
      f.result.Ok? ==>
        |f.result.value| == HISTORY_PAGES &&
        forall j :: 0 <= j < HISTORY_PAGES ==> |f.result.value[j]| == PART_SIZE * PARTS_PER_PAGE
  {
    var page := FetchPageOf(crc, session, packets);
    forall j: nat, s: seq<seq<Byte>>, a: seq<Byte>, n: nat | j < HISTORY_PAGES && page(j, s, a, n).result.Ok?
      ensures |page(j, s, a, n).result.value| == PART_SIZE * PARTS_PER_PAGE
    {
    }
    DownloadReadsEveryPage(page, 0, [], sent, acc, from, PART_SIZE * PARTS_PER_PAGE);
  }

  /** A complete fetchData run sends the frames of pages 0 to 8, in page order, after the log before it. */
  lemma FetchSendsEveryPage(crc: Crc8, session: Session, sent: seq<seq<Byte>>, acc: seq<Byte>, packets: seq<HidPacket>, from: nat)
    ensures var f := FetchPages(crc, session, 0, [], sent, acc, packets, from);
      f.result.Ok? ==> f.sent == sent + PagesLog(PageFramesOf(crc, session), 0)
  {
    var page := FetchPageOf(crc, session, packets);
    var frames := PageFramesOf(crc, session);
    forall j: nat, s: seq<seq<Byte>>, a: seq<Byte>, n: nat | j < HISTORY_PAGES && page(j, s, a, n).result.Ok?
      ensures page(j, s, a, n).sent == s + frames(j)
    {
      PageSends(crc, session, j, s, a, packets, n);
    }
    DownloadSendsEveryPage(page, frames, 0, [], sent, acc, from);
  }

  /** One pass of the fetchData loop: READ_HISTORY, then page k as four parts. */
  method ReadHistoryPage(buffer: MessageBuffer, link: Link, crc: Crc8, session: Session, k: Byte)
    returns (r: Result<seq<Byte>, FetchError>)
    requires buffer.Valid()
    modifies buffer, link
    ensures buffer.Valid()
    ensures var p := FetchPage(crc, session, k, old(link.sent), old(buffer.bytes), link.inbox, old(link.position));
      r == p.result && buffer.bytes == p.bytes && link.position == p.next && link.sent == p.sent
  {
    var command := BuildMedtronicPacket(crc, session, SEND_MESSAGE, Some([READ_HISTORY]), None);
    var reply := CommandResponse(buffer, link, command, true);
    if reply.Err? {
      return Err(CommandFailed(k, reply.error));
    }
    var command1 := BuildMedtronicPacket(crc, session, SEND_MESSAGE, Some([READ_HISTORY]), Some([1, k]));
    var command2, checksum := BuildPaddingPacket(crc, session.header, [READ_HISTORY], [1, k]);
    var page := GetRecords(buffer, link, command1, command2, PARTS_PER_PAGE);
    if page.Err? {
      return Err(PageFailed(k, page.error));
    }
    return Ok(page.value);
  }

  /** One pass of the fetchData loop, stated as the step it takes in the download. */
  method FetchStep(buffer: MessageBuffer, link: Link, crc: Crc8, session: Session, k: nat, ghost pages: seq<seq<Byte>>)
    returns (r: Result<seq<Byte>, FetchError>)
    requires k < HISTORY_PAGES && buffer.Valid()
    modifies buffer, link
    ensures buffer.Valid()
    ensures var f := FetchPages(crc, session, k, pages, old(link.sent), old(buffer.bytes), link.inbox, old(link.position));
      (r.Err? ==> f == Fetch(Err(r.error), link.sent, link.position, buffer.bytes)) &&
      (r.Ok? ==> f == FetchPages(crc, session, k + 1, pages + [r.value], link.sent, buffer.bytes, link.inbox, link.position))
  {
    FetchContinues(crc, session, k, pages, link.sent, buffer.bytes, link.inbox, link.position);
    r := ReadHistoryPage(buffer, link, crc, session, k);
  }

  /**
   * The fetchData loop from page k on (async.whilst: each pass, once it succeeds,
   * starts the next); the first failure aborts the download.
   */
  method FetchFrom(buffer: MessageBuffer, link: Link, crc: Crc8, session: Session, k: nat, pages: seq<seq<Byte>>)
    returns (r: Result<seq<seq<Byte>>, FetchError>)
    requires k <= HISTORY_PAGES && buffer.Valid()
    modifies buffer, link
    ensures buffer.Valid()
    ensures var f := FetchPages(crc, session, k, pages, old(link.sent), old(buffer.bytes), link.inbox, old(link.position));
      r == f.result && buffer.bytes == f.bytes && link.position == f.next && link.sent == f.sent
    decreases HISTORY_PAGES - k
  {
    if k == HISTORY_PAGES {
      return Ok(pages);
    }
    var page := FetchStep(buffer, link, crc, session, k, pages);
    if page.Err? {
      return Err(page.error);
    }
    r := FetchFrom(buffer, link, crc, session, k + 1, pages + [page.value]);
  }

  /**
   * fetchData: nine times, READ_HISTORY (waiting for ENQ), then page k read as four
   * parts; the first failure aborts the download.
   */
  method FetchData(buffer: MessageBuffer, link: Link, crc: Crc8, session: Session)
    returns (r: Result<seq<seq<Byte>>, FetchError>)
    requires buffer.Valid()
    modifies buffer, link
    ensures buffer.Valid()
    ensures var f := FetchPages(crc, session, 0, [], old(link.sent), old(buffer.bytes), link.inbox, old(link.position));
      r == f.result && buffer.bytes == f.bytes && link.position == f.next && link.sent == f.sent
  {
    r := FetchFrom(buffer, link, crc, session, 0, []);
  }
}
