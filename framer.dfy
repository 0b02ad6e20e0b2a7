/**
 * The packet framer of the Bayer Contour Next Link bridge: the short control
 * packets of the meter protocol, the Medtronic command packets with their additive
 * checksum, and the zero continuation packet whose CRC-8 is folded into the
 * checksum of the command packet sent just before it. Also the session header that
 * setup derives from the device serial.
 */
module Framer {
  import opened Wrappers
  import opened Bytes

  // ASCII control codes of the meter protocol.
  const ACK: Byte := 0x06
  const ENQ: Byte := 0x05
  const EOT: Byte := 0x04
  const ETB: Byte := 0x17
  const ETX: Byte := 0x03
  const NAK: Byte := 0x15

  // Meter commands that place the bridge into remote command mode.
  const GET_WRITE: seq<Byte> := [0x57, 0x7c]
  const GET_QUERY: seq<Byte> := [0x51, 0x7c]
  const GET_MAGIC: seq<Byte> := [0x31, 0x7c]
  const GET_END: seq<Byte> := [0x30, 0x7c]

  // Medtronic operation types.
  const OPEN_CONNECTION: seq<Byte> := [0x10, 0x01, 0x1E]
  const SEND_MESSAGE: seq<Byte> := [0x12, 0x21, 0x05]

  // Medtronic message codes.
  const READ_HISTORY: Byte := 0x80
  const READ_MODEL: Byte := 0x8D

  /** Length field of the continuation packet: 43 padding bytes and its checksum. */
  const SECOND_PACKET_LENGTH := 44
  const PADDING_LENGTH := 43
  const PARAMETER_PADDING := 20

  /** The CRC-8 of the bridge (generator polynomial 0x9B); its algorithm is not part of this model. */
  type Crc8 = seq<Byte> -> Byte

  /** What setup establishes: the serial string and the 4-byte session header. */
  datatype Session = Session(serial: string, header: seq<Byte>)
  {
    predicate Ready() { |header| == 4 }
  }

  // ---------------------------------------------------------------------------
  // Session header (setup)
  // ---------------------------------------------------------------------------

  function HexValue(c: char): (v: Option<Byte>)
    ensures v.Some? ==> v.value < 16
  {
    if '0' <= c <= '9' then Some(c as int - '0' as int)
    else if 'a' <= c <= 'f' then Some(c as int - 'a' as int + 10)
    else if 'A' <= c <= 'F' then Some(c as int - 'A' as int + 10)
    else None
  }

  /** `str.substring(from, to)` in JavaScript, clamped to the string. */
  function Substring(s: string, from: nat, to: nat): (r: string)
    requires from <= to
    ensures |r| <= to - from
  {
    s[Min(from, |s|)..Min(to, |s|)]
  }

  /** The characters `parseInt` skips before the number: white space and line terminators. */
  predicate IsSpace(c: char)
  {
    c == '\t' || c == '\n' || c == '\U{000B}' || c == '\U{000C}' || c == '\r' || c == ' ' || c == '\U{00A0}' ||
    c == '\U{1680}' || ('\U{2000}' <= c <= '\U{200A}') || c == '\U{2028}' || c == '\U{2029}' || c == '\U{202F}' ||
    c == '\U{205F}' || c == '\U{3000}' || c == '\U{FEFF}'
  }

  /** The number of white-space characters that lead the string. */
  function SpaceRun(s: string): (n: nat)
    ensures n <= |s|
    ensures forall i :: 0 <= i < n ==> IsSpace(s[i])
    ensures n < |s| ==> !IsSpace(s[n])
  {
    if |s| > 0 && IsSpace(s[0]) then 1 + SpaceRun(s[1..]) else 0
  }

  /** The length of the leading run of hex digits. */
  function HexRun(s: string): (n: nat)
    ensures n <= |s|
    ensures forall i :: 0 <= i < n ==> HexValue(s[i]).Some?
    ensures n < |s| ==> HexValue(s[n]).None?
  {
    if |s| > 0 && HexValue(s[0]).Some? then 1 + HexRun(s[1..]) else 0
  }

  /** The value of a string of hex digits, most significant first. */
  function HexNumber(d: string): nat
    requires forall i :: 0 <= i < |d| ==> HexValue(d[i]).Some?
  {
    if |d| == 0 then 0 else 16 * HexNumber(d[..|d| - 1]) + HexValue(d[|d| - 1]).value
  }

  /**
   * `parseInt(s, 16)` in JavaScript: leading white space is skipped, then one
   * sign, then a "0x" or "0X" prefix; the longest run of hex digits that follows
   * is the value, negated after a minus sign. None (NaN) when no digit follows.
   */
  function ParseIntHex(s: string): (r: Option<int>)
  {
    var t := s[SpaceRun(s)..];
    var u := if |t| > 0 && (t[0] == '+' || t[0] == '-') then t[1..] else t;
    var v := if |u| >= 2 && u[0] == '0' && (u[1] == 'x' || u[1] == 'X') then u[2..] else u;
    var n := HexRun(v);
    if n == 0 then None
    else
      var d := v[..n];
      assert forall i :: 0 <= i < |d| ==> HexValue(d[i]).Some?;
      var m: int := HexNumber(d);
      if |t| > 0 && t[0] == '-' then Some(-m) else Some(m)
  }

  /**
   * `parseInt(pair, 16)` for the at most two characters of a serial pair: a
   * number exactly when the pair starts with a hex digit (and is not the bare
   * prefix "0x"), or is one white-space or sign character followed by a hex
   * digit. Two digits give 16·high + low, one leading digit its own value, and
   * a minus sign the digit's negation.
   */
  function ParseHexPair(s: string): (r: Option<int>)
    requires |s| <= 2
    ensures r.Some? <==>
      (|s| > 0 && HexValue(s[0]).Some? && !(|s| == 2 && s[0] == '0' && s[1] in "xX")) ||
      (|s| == 2 && (IsSpace(s[0]) || s[0] in "+-") && HexValue(s[1]).Some?)
    ensures |s| == 2 && HexValue(s[0]).Some? && HexValue(s[1]).Some? ==>
      r == Some(16 * HexValue(s[0]).value + HexValue(s[1]).value)
    ensures |s| > 0 && HexValue(s[0]).Some? && (|s| == 1 || (HexValue(s[1]).None? && !(s[0] == '0' && s[1] in "xX"))) ==>
      r == Some(HexValue(s[0]).value as int)
    ensures |s| == 2 && (IsSpace(s[0]) || s[0] == '+') && HexValue(s[1]).Some? ==> r == Some(HexValue(s[1]).value as int)
    ensures |s| == 2 && s[0] == '-' && HexValue(s[1]).Some? ==> r == Some(0 - HexValue(s[1]).value)
  {
    var lead := if |s| == 2 && (IsSpace(s[0]) || s[0] == '+' || s[0] == '-') then 1 else 0;
    var digits := s[lead..];
    if |digits| == 0 || HexValue(digits[0]).None? || (|digits| == 2 && digits[0] == '0' && digits[1] in "xX") then None
    else
      var m: int := if |digits| == 2 && HexValue(digits[1]).Some? then 16 * HexValue(digits[0]).value + HexValue(digits[1]).value
                    else HexValue(digits[0]).value;
      if lead == 1 && s[0] == '-' then Some(-m) else Some(m)
  }

  /** The pair parser is `parseInt(s, 16)` on every string of at most two characters. */
  lemma ParseHexPairIsParseInt(s: string)
    requires |s| <= 2
    ensures ParseHexPair(s) == ParseIntHex(s)
  {
    if |s| == 2 && HexValue(s[0]).Some? && HexValue(s[1]).Some? {
      assert SpaceRun(s) == 0 && s[0..] == s;
      assert !(s[1] in "xX");
      assert HexRun(s) == 2 && s[..2] == s;
      assert s[..1][..0] == [];
      assert HexNumber(s[..1]) == HexValue(s[0]).value;
      assert HexNumber(s) == 16 * HexValue(s[0]).value + HexValue(s[1]).value by {
        assert s[..|s| - 1] == s[..1];
      }
    } else if |s| > 0 && HexValue(s[0]).Some? {
      if |s| == 2 && s[0] == '0' && s[1] in "xX" {
        assert s[2..] == [];
      } else {
        assert SpaceRun(s) == 0 && s[0..] == s;
        assert HexRun(s) == 1;
        assert s[..1][..0] == [];
        assert HexNumber(s[..1]) == HexValue(s[0]).value;
      }
    } else if |s| == 2 && HexValue(s[1]).Some? && (IsSpace(s[0]) || s[0] in "+-") {
      var t := s[1..];
      assert HexRun(t) == 1;
      assert t[..1][..0] == [];
      assert HexNumber(t[..1]) == HexValue(s[1]).value;
      if IsSpace(s[0]) {
        assert SpaceRun(s) == 1;
      } else {
        assert SpaceRun(s) == 0 && s[0..] == s;
      }
    }
  }

  /** A number stored into a `Uint8Array`: its value modulo 256. */
  function ToUint8(x: int): Byte
  {
    x % 256
  }

  /** `parseInt(serial.substring(2k, 2k + 2), 16)`, the k-th pair of the serial. */
  function HeaderPair(serial: string, k: nat): Option<int>
    requires k < 3
  {
    ParseHexPair(Substring(serial, 2 * k, 2 * k + 2))
  }

  /**
   * The session header built in setup: 0xA7 followed by the three hex pairs of the
   * serial, each as the packet's byte array stores it (modulo 256, so a negative
   * pair such as "-9" becomes 247). None when a pair does not parse (the source
   * would then carry NaN).
   */
  function MedtronicHeader(serial: string): (h: Option<seq<Byte>>)
    ensures h.Some? <==> HeaderPair(serial, 0).Some? && HeaderPair(serial, 1).Some? && HeaderPair(serial, 2).Some?
    ensures h.Some? ==> |h.value| == 4 && h.value[0] == 0xA7
    ensures h.Some? ==> h.value[1] == ToUint8(HeaderPair(serial, 0).value)
    ensures h.Some? ==> h.value[2] == ToUint8(HeaderPair(serial, 1).value)
    ensures h.Some? ==> h.value[3] == ToUint8(HeaderPair(serial, 2).value)
  {
    var p0, p1, p2 := HeaderPair(serial, 0), HeaderPair(serial, 1), HeaderPair(serial, 2);
    if p0.Some? && p1.Some? && p2.Some? then Some([0xA7, ToUint8(p0.value), ToUint8(p1.value), ToUint8(p2.value)]) else None
  }

  /** A serial led by white space, such as " 98426", still has a header: the pair " 9" is 9. */
  lemma HeaderOfSpacedSerial()
    ensures MedtronicHeader(" 98426") == Some([0xA7, 0x09, 0x84, 0x26])
  {
    HexPairAt(" 98426", 1);
    HexPairAt(" 98426", 2);
    assert Substring(" 98426", 0, 2) == " 9";
  }

  /** A minus sign makes the pair negative, and the header byte is its value modulo 256. */
  lemma HeaderOfNegativePair()
    ensures MedtronicHeader("-98426") == Some([0xA7, 247, 0x84, 0x26])
  {
    HexPairAt("-98426", 1);
    HexPairAt("-98426", 2);
    assert Substring("-98426", 0, 2) == "-9";
  }

  /** Six hex digits give the header 0xA7 followed by the three byte values they spell. */
  lemma HeaderOfHexSerial(serial: string)
    requires |serial| >= 6
    requires forall i :: 0 <= i < 6 ==> HexValue(serial[i]).Some?
    ensures MedtronicHeader(serial).Some?
    ensures MedtronicHeader(serial).value[1] == 16 * HexValue(serial[0]).value + HexValue(serial[1]).value
    ensures MedtronicHeader(serial).value[2] == 16 * HexValue(serial[2]).value + HexValue(serial[3]).value
    ensures MedtronicHeader(serial).value[3] == 16 * HexValue(serial[4]).value + HexValue(serial[5]).value
  {
    HexPairAt(serial, 0);
    HexPairAt(serial, 1);
    HexPairAt(serial, 2);
  }

  /** Pair k of six hex digits is the byte those two digits spell. */
  lemma HexPairAt(serial: string, k: nat)
    requires k < 3 && |serial| >= 6
    requires HexValue(serial[2 * k]).Some? && HexValue(serial[2 * k + 1]).Some?
    ensures HeaderPair(serial, k) == Some(16 * HexValue(serial[2 * k]).value + HexValue(serial[2 * k + 1]).value)
    ensures ToUint8(HeaderPair(serial, k).value) == HeaderPair(serial, k).value
  {
    var pair := Substring(serial, 2 * k, 2 * k + 2);
    assert Min(2 * k, |serial|) == 2 * k && Min(2 * k + 2, |serial|) == 2 * k + 2;
    assert pair == serial[2 * k..2 * k + 2];
    assert |pair| == 2 && pair[0] == serial[2 * k] && pair[1] == serial[2 * k + 1];
  }

  /** The default serial '698426' gives the header A7 69 84 26. */
  lemma DefaultSerialHeader()
    ensures MedtronicHeader("698426") == Some([0xA7, 0x69, 0x84, 0x26])
  {
    HeaderOfHexSerial("698426");
  }

  /**
   * The 6-byte serial field of a command packet: the char codes of the serial,
   * truncated or zero-filled to six (the struct helper's 'z' packing).
   */
  function SerialField(serial: string): (f: seq<Byte>)
    ensures |f| == 6
  {
    seq(6, i requires 0 <= i < 6 => if i < |serial| then serial[i] as int % 256 else 0)
  }

  // ---------------------------------------------------------------------------
  // Control packets: buildPacket, buildAckPacket, buildNakPacket
  // ---------------------------------------------------------------------------

  /** The bytes buildPacket lays out: the 4-byte header `0,0,0,len`, then `len` command bytes. */
  function ControlPacket(command: seq<Byte>, cmdLength: nat): seq<Byte>
  {
    [0, 0, 0, cmdLength % 256] + Window(command, 0, cmdLength)
  }

  lemma ControlPacketLayout(command: seq<Byte>, cmdLength: nat)
    requires cmdLength <= |command| && cmdLength < 256
    ensures var p := ControlPacket(command, cmdLength);
      |p| == cmdLength + 4 && p[..3] == [0, 0, 0] && p[3] == cmdLength && p[4..] == command[..cmdLength]
  {
    var p := ControlPacket(command, cmdLength);
    assert p[4..] == Window(command, 0, cmdLength);
  }

  method BuildPacket(command: seq<Byte>, cmdLength: nat) returns (buf: array<Byte>)
    ensures fresh(buf)
    ensures buf.Length == cmdLength + 4
    ensures buf[..4] == [0, 0, 0, cmdLength % 256]
    ensures buf[4..] == Window(command, 0, cmdLength)
    ensures buf[..] == ControlPacket(command, cmdLength)
  {
    var datalen := cmdLength + 4;
    buf := new Byte[datalen](_ => 0);
    var ctr := CopyBytes(buf, 0, [0, 0, 0, cmdLength % 256], 4, 0);
    var n := CopyBytes(buf, ctr, command, cmdLength, 0);
    ctr := ctr + n;
    assert buf[..] == buf[..4] + buf[4..];
  }

  /**
   * buildAckPacket as written hands buildPacket the bare number 0x06 rather than a
   * one-element array, so copyBytes finds no indexed element to copy and the
   * control byte is never written: a number behaves as the empty byte string here.
   */
  method BuildAckPacketAsWritten() returns (buf: array<Byte>)
    ensures fresh(buf)
    ensures buf[..] == ControlPacket([], 1)
  {
    buf := BuildPacket([], 1);
  }

  method BuildNakPacketAsWritten() returns (buf: array<Byte>)
    ensures fresh(buf)
    ensures buf[..] == ControlPacket([], 1)
  {
    buf := BuildPacket([], 1);
  }

  /** The packet those builders produce carries 0x00, not ACK or NAK, as its command byte. */
  lemma ControlByteDroppedAsWritten()
    ensures ControlPacket([], 1) == [0, 0, 0, 1, 0]
    ensures ControlPacket([], 1) != ControlPacket([ACK], 1)
    ensures ControlPacket([], 1) != ControlPacket([NAK], 1)
  {
    assert ControlPacket([ACK], 1)[4] == ACK;
    assert ControlPacket([NAK], 1)[4] == NAK;
  }

  /** The control packets as evidently intended: the single control byte after the header. */
  method BuildAckPacket() returns (buf: array<Byte>)
    ensures fresh(buf)
    ensures buf[..] == [0, 0, 0, 1, ACK]
  {
    buf := BuildPacket([ACK], 1);
    assert Window([ACK], 0, 1) == [ACK];
  }

  method BuildNakPacket() returns (buf: array<Byte>)
    ensures fresh(buf)
    ensures buf[..] == [0, 0, 0, 1, NAK]
  {
    buf := BuildPacket([NAK], 1);
    assert Window([NAK], 0, 1) == [NAK];
  }

  // ---------------------------------------------------------------------------
  // Padding (continuation) packet
  // ---------------------------------------------------------------------------

  /**
   * The CRC-8 the device expects over a command and its continuation: the session
   * header, command and parameter, the 20 zero bytes ending the first packet and
   * the 43 zero bytes of the second.
   */
  function PaddingChecksum(crc: Crc8, header: seq<Byte>, command: seq<Byte>, parameter: seq<Byte>): Byte
  {
    crc(header + command + parameter + Zeros(PARAMETER_PADDING) + Zeros(PADDING_LENGTH))
  }

  method BuildPaddingPacket(crc: Crc8, header: seq<Byte>, command: seq<Byte>, parameter: seq<Byte>)
    returns (buf: array<Byte>, checksum: Byte)
    ensures fresh(buf)
    ensures checksum == PaddingChecksum(crc, header, command, parameter)
    ensures buf.Length == 48 && buf[47] == checksum
    ensures buf[..] == [0, 0, 0, SECOND_PACKET_LENGTH] + Zeros(PADDING_LENGTH) + [checksum]
  {
    var padding := Zeros(PADDING_LENGTH);
    var prevPacketPadding := Zeros(PARAMETER_PADDING);
    var checkbuf := header + command + parameter + prevPacketPadding + padding;
    checksum := crc(checkbuf);
    var datalen := PADDING_LENGTH + 1;
    buf := new Byte[datalen + 4](_ => 0);
    var ctr := CopyBytes(buf, 0, [0, 0, 0, datalen], 4, 0);
    var n := CopyBytes(buf, ctr, padding, |padding|, 0);
    ctr := ctr + n;
    n := CopyBytes(buf, ctr, [checksum], 1, 0);
    assert Window(padding, 0, |padding|) == padding;
    assert Window([checksum], 0, 1) == [checksum];
  }

  // ---------------------------------------------------------------------------
  // Medtronic command packet
  // ---------------------------------------------------------------------------

  /**
   * The payload of a command packet: empty without a command; with a parameter the
   * header, command, parameter and 20 zero bytes; otherwise the header, the command,
   * a zero byte and the CRC-8 of those.
   */
  function Payload(crc: Crc8, header: seq<Byte>, command: Option<seq<Byte>>, parameter: Option<seq<Byte>>): (p: seq<Byte>)
    ensures command.None? ==> p == []
    ensures command.Some? ==> |p| >= |header| + |command.value|
    ensures command.Some? ==> p[..|header|] == header && p[|header|..|header| + |command.value|] == command.value
    ensures command.Some? && parameter.None? ==>
      |p| == |header| + |command.value| + 2 && p[|p| - 2] == 0 && p[|p| - 1] == crc(p[..|p| - 1])
    ensures command.Some? && parameter.Some? ==>
      |p| == |header| + |command.value| + |parameter.value| + 20 &&
      p[|header| + |command.value|..|p| - 20] == parameter.value && p[|p| - 20..] == Zeros(20)
  {
    match command
    case None => []
    case Some(c) =>
      match parameter
      case Some(q) => header + c + q + Zeros(PARAMETER_PADDING)
      case None =>
        var m := header + c + [0];
        assert (m + [crc(m)])[..|m|] == m;
        m + [crc(m)]
  }

  /**
   * The 33 + |type| bytes in front of the checksum: transport header with the data
   * length, the 0x51 0x01 tag, the serial field, ten zeros, the type, seven flag
   * bytes and the little-endian length of what follows the type block.
   */
  function PacketHead(serial: string, typ: seq<Byte>, payloadLength: nat, hasParameter: bool): (h: seq<Byte>)
    ensures |h| == 33 + |typ|
  {
    [0, 0, 0, (30 + |typ| + payloadLength) % 256, 0x51, 0x01] + SerialField(serial) + Zeros(10) + typ
    + (if hasParameter then [0, 0, 0, 0x04, 0x10, 0x10, 0x00] else Zeros(7))
    + Int32Le(payloadLength + (if hasParameter then SECOND_PACKET_LENGTH else 0))
  }

  /** Position in the checksum scratch buffer where the continuation checksum is written. */
  function FoldSlot(payloadLength: nat): nat { 2 * payloadLength + 4 }

  /**
   * The scratch buffer summed for the checksum: the packet bytes after its 4-byte
   * header (`body`), with the payload copied in where the checksum will go and a
   * trailing zero, then the continuation checksum written at FoldSlot when that index
   * lies inside the buffer (a write past the end of a Uint8Array is dropped).
   */
  function CheckBytes(body: seq<Byte>, payload: seq<Byte>, fold: Option<Byte>): (cb: seq<Byte>)
    ensures |cb| == |body| + |payload| + 1
  {
    var cb := body + payload + [0];
    if fold.Some? && FoldSlot(|payload|) < |cb| then cb[FoldSlot(|payload|) := fold.value] else cb
  }

  /**
   * When the payload ends in 20 zero bytes and FoldSlot cannot reach in front of
   * them, the scratch sum is the body sum plus the payload sum plus the folded
   * checksum if its slot exists.
   */
  lemma {:induction false} CheckBytesSum(body: seq<Byte>, payload: seq<Byte>, fold: Option<Byte>)
    requires fold.Some? ==> |payload| >= 20 && payload[|payload| - 20..] == Zeros(20) && |body| <= |payload| + 24
    ensures Sum(CheckBytes(body, payload, fold))
         == Sum(body) + Sum(payload) + (if fold.Some? && FoldSlot(|payload|) < |body| + |payload| + 1 then fold.value else 0)
  {
    var cb := body + payload + [0];
    SumAppend(body + payload, [0]);
    SumAppend(body, payload);
    assert Sum([0]) == 0 by { assert [0][..0] == []; }
    if fold.Some? && FoldSlot(|payload|) < |cb| {
      var i := FoldSlot(|payload|);
      assert cb[i] == 0 by {
        if i < |cb| - 1 {
          var j := i - |body|;
          assert cb[i] == payload[j];
          assert payload[j] == payload[|payload| - 20..][j - (|payload| - 20)];
        }
      }
      SumUpdate(cb, i, fold.value);
    }
  }

  function Fold(crc: Crc8, header: seq<Byte>, command: Option<seq<Byte>>, parameter: Option<seq<Byte>>): Option<Byte>
    requires command.None? ==> parameter.None?
  {
    if parameter.Some? then Some(PaddingChecksum(crc, header, command.value, parameter.value)) else None
  }

  /** The bytes buildMedtronicPacket returns. */
  function MedtronicPacket(crc: Crc8, session: Session, typ: seq<Byte>, command: Option<seq<Byte>>, parameter: Option<seq<Byte>>): seq<Byte>
    requires command.None? ==> parameter.None?
  {
    var payload := Payload(crc, session.header, command, parameter);
    var head := PacketHead(session.serial, typ, |payload|, parameter.Some?);
    head + [Sum(CheckBytes(head[4..], payload, Fold(crc, session.header, command, parameter))) % 256] + payload
  }

  /** Packs the fields in front of the checksum slot into a zero-filled buffer; returns the cursor. */
  method PackHead(bytes: array<Byte>, serial: string, typ: seq<Byte>, payloadLength: nat, hasParameter: bool)
    returns (ctr: nat)
    requires bytes.Length == 34 + |typ| + payloadLength
    modifies bytes
    ensures ctr == 33 + |typ|
    ensures bytes[..ctr] == PacketHead(serial, typ, payloadLength, hasParameter)
    ensures bytes[ctr..] == old(bytes[ctr..])
  {
    var datalen := 30 + |typ| + payloadLength;
    var fields := [0, 0, 0, datalen % 256, 0x51, 0x01] + SerialField(serial) + Zeros(10);
    var flags: seq<Byte> := if hasParameter then [0, 0, 0, 0x04, 0x10, 0x10, 0x00] else Zeros(7);
    var lengthField := Int32Le(payloadLength + if hasParameter then SECOND_PACKET_LENGTH else 0);
    assert PacketHead(serial, typ, payloadLength, hasParameter) == fields + typ + (flags + lengthField);
    assert Window(fields, 0, 22) == fields;
    assert Window(typ, 0, |typ|) == typ;
    assert Window(flags + lengthField, 0, 11) == flags + lengthField;
    ctr := CopyBytes(bytes, 0, fields, 22, 0);
    assert bytes[..22] == fields;
    assert bytes[22..] == old(bytes[22..]);
    var n := CopyBytes(bytes, ctr, typ, |typ|, 0);
    ctr := ctr + n;
    assert bytes[..ctr] == fields + typ;
    assert bytes[ctr..] == old(bytes[ctr..]);
    n := CopyBytes(bytes, ctr, flags + lengthField, 11, 0);
    assert bytes[..ctr + 11] == fields + typ + (flags + lengthField);
    assert bytes[ctr + 11..] == old(bytes[ctr + 11..]);
    ctr := ctr + n;
  }

  /**
   * The checksum computation of buildMedtronicPacket: copy the packet after its
   * 4-byte header, copy the payload in at the checksum slot, write the continuation
   * checksum at FoldSlot if that index exists, and sum.
   */
  method ComputeChecksum(scratch: seq<Byte>, slot: nat, payload: seq<Byte>, fold: Option<Byte>) returns (checksum: Byte)
    requires |scratch| == slot + |payload| + 1 && scratch[|scratch| - 1] == 0
    ensures checksum == Sum(CheckBytes(scratch[..slot], payload, fold)) % 256
  {
    var checkbytes := new Byte[|scratch|](i requires 0 <= i < |scratch| => scratch[i]);
    assert checkbytes[..] == scratch;
    ghost var base := scratch[..slot] + payload + [0];
    var ctr2 := CopyBytes(checkbytes, slot, payload, |payload|, 0);
    assert Window(payload, 0, |payload|) == payload;
    assert scratch[slot + |payload|..] == [0];
    assert checkbytes[..] == base;
    if fold.Some? && ctr2 + |payload| + 4 < checkbytes.Length {
      checkbytes[ctr2 + |payload| + 4] := fold.value;
      assert checkbytes[..] == base[FoldSlot(|payload|) := fold.value];
    }
    checksum := SumLsb(checkbytes);
  }

  /** The payload assembly of buildMedtronicPacket. */
  method BuildPayload(crc: Crc8, header: seq<Byte>, command: Option<seq<Byte>>, parameter: Option<seq<Byte>>)
    returns (payload: seq<Byte>)
    ensures payload == Payload(crc, header, command, parameter)
  {
    payload := [];
    if command.Some? {
      if parameter.Some? {
        payload := header + command.value + parameter.value;
        payload := payload + Zeros(PARAMETER_PADDING);
      } else {
        payload := header + command.value + [0];
        var payloadChecksum := crc(payload);
        payload := payload + [payloadChecksum];
      }
    }
  }

  /** Writes the checksum and then the payload at the cursor, which leaves exactly room for them. */
  method PackTail(bytes: array<Byte>, ctr: nat, checksum: Byte, payload: seq<Byte>)
    requires ctr + 1 + |payload| == bytes.Length
    modifies bytes
    ensures bytes[..] == old(bytes[..ctr]) + [checksum] + payload
  {
    var n := CopyBytes(bytes, ctr, [checksum], 1, 0);
    assert Window([checksum], 0, 1) == [checksum];
    assert bytes[..ctr + 1] == old(bytes[..ctr]) + [checksum];
    n := CopyBytes(bytes, ctr + 1, payload, |payload|, 0);
    assert Window(payload, 0, |payload|) == payload;
    assert bytes[..] == bytes[..ctr + 1] + payload;
  }

  /**
   * The checksum step of buildMedtronicPacket on the packed fields: the scratch copy
   * after the 4-byte header, the payload copied in, the continuation checksum folded
   * in when there is a parameter, and the sum.
   */
  method PacketChecksum(bytes: array<Byte>, ctr: nat, ghost head: seq<Byte>, crc: Crc8, header: seq<Byte>,
                        command: Option<seq<Byte>>, parameter: Option<seq<Byte>>, payload: seq<Byte>)
    returns (checksum: Byte)
    requires command.None? ==> parameter.None?
    requires 4 <= ctr && ctr + 1 + |payload| == bytes.Length
    requires |head| == ctr && bytes[..ctr] == head && bytes[bytes.Length - 1] == 0
    ensures checksum == Sum(CheckBytes(head[4..], payload, Fold(crc, header, command, parameter))) % 256
  {
    var scratch := bytes[4..];
    assert scratch[..ctr - 4] == head[4..];
    var fold: Option<Byte> := None;
    if parameter.Some? {
      var pad, secondPacket := BuildPaddingPacket(crc, header, command.value, parameter.value);
      fold := Some(secondPacket);
    }
    checksum := ComputeChecksum(scratch, ctr - 4, payload, fold);
  }

  method BuildMedtronicPacket(crc: Crc8, session: Session, typ: seq<Byte>, command: Option<seq<Byte>>, parameter: Option<seq<Byte>>)
    returns (buf: array<Byte>)
    requires command.None? ==> parameter.None?
    ensures fresh(buf)
    ensures buf[..] == MedtronicPacket(crc, session, typ, command, parameter)
  {
    var payload := BuildPayload(crc, session.header, command, parameter);
    var datalen := 30 + |typ| + |payload|;
    var bytes := new Byte[datalen + 4](_ => 0);
    var ctr := PackHead(bytes, session.serial, typ, |payload|, parameter.Some?);
    ghost var head := PacketHead(session.serial, typ, |payload|, parameter.Some?);
    assert bytes[datalen + 3] == bytes[ctr..][datalen + 3 - ctr];
    var checksum := PacketChecksum(bytes, ctr, head, crc, session.header, command, parameter, payload);
    PackTail(bytes, ctr, checksum, payload);
    buf := bytes;
  }

  /**
   * Layout of a command packet: total length 34 + |type| + |payload|, byte 3 the
   * data length 30 + |type| + |payload| (mod 256), the tag and serial, the type at
   * offset 22, the length field (payload length, plus 44 with a parameter) at
   * 29 + |type|, the checksum at 33 + |type| and the payload as the tail.
   */
  lemma MedtronicPacketLayout(crc: Crc8, session: Session, typ: seq<Byte>, command: Option<seq<Byte>>, parameter: Option<seq<Byte>>)
    requires command.None? ==> parameter.None?
    ensures var payload := Payload(crc, session.header, command, parameter);
      var pkt := MedtronicPacket(crc, session, typ, command, parameter);
      var t := |typ|;
      |pkt| == 34 + t + |payload| &&
      pkt[..3] == [0, 0, 0] && pkt[3] == (30 + t + |payload|) % 256 &&
      pkt[4..6] == [0x51, 0x01] && pkt[6..12] == SerialField(session.serial) &&
      pkt[22..22 + t] == typ &&
      pkt[29 + t..33 + t] == Int32Le(|payload| + if parameter.Some? then SECOND_PACKET_LENGTH else 0) &&
      pkt[34 + t..] == payload
  {
    var payload := Payload(crc, session.header, command, parameter);
    var head := PacketHead(session.serial, typ, |payload|, parameter.Some?);
    var pkt := MedtronicPacket(crc, session, typ, command, parameter);
    var checksum := Sum(CheckBytes(head[4..], payload, Fold(crc, session.header, command, parameter))) % 256;
    var t := |typ|;
    var rest := [checksum] + payload;
    assert pkt == head + rest;
    HeadLayout(session.serial, typ, |payload|, parameter.Some?);
    SliceOfFirst(head, rest, 0, 3);
    SliceOfFirst(head, rest, 4, 6);
    SliceOfFirst(head, rest, 6, 12);
    SliceOfFirst(head, rest, 22, 22 + t);
    SliceOfFirst(head, rest, 29 + t, 33 + t);
    assert pkt[34 + t..] == rest[1..];
  }

  /** A slice within the first part of a concatenation is that part's slice. */
  lemma SliceOfFirst(a: seq<Byte>, b: seq<Byte>, x: nat, y: nat)
    requires x <= y <= |a|
    ensures (a + b)[x..y] == a[x..y]
  {
  }

  /** The fields of the packet head, each at its offset. */
  lemma HeadLayout(serial: string, typ: seq<Byte>, payloadLength: nat, hasParameter: bool)
    ensures var h := PacketHead(serial, typ, payloadLength, hasParameter);
      var t := |typ|;
      h[..3] == [0, 0, 0] && h[3] == (30 + t + payloadLength) % 256 &&
      h[4..6] == [0x51, 0x01] && h[6..12] == SerialField(serial) &&
      h[22..22 + t] == typ &&
      h[29 + t..33 + t] == Int32Le(payloadLength + if hasParameter then SECOND_PACKET_LENGTH else 0)
  {
    var fields := [0, 0, 0, (30 + |typ| + payloadLength) % 256, 0x51, 0x01] + SerialField(serial) + Zeros(10);
    var flags: seq<Byte> := if hasParameter then [0, 0, 0, 0x04, 0x10, 0x10, 0x00] else Zeros(7);
    var size := Int32Le(payloadLength + (if hasParameter then SECOND_PACKET_LENGTH else 0));
    var h := PacketHead(serial, typ, payloadLength, hasParameter);
    assert h == fields + typ + flags + size;
    assert h[..22] == fields;
    assert h[22..22 + |typ|] == typ;
    assert h[29 + |typ|..33 + |typ|] == size;
  }

  /**
   * The checksum byte is the low byte of the sum of the packet bytes between the
   * 4-byte header and the checksum slot, plus the payload, plus the continuation
   * checksum when there is a parameter and its scratch slot exists
   * (|payload| < 26 + |type|). The slot then always lands on a zero byte, because the
   * payload ends in 20 zero bytes (the requires clause), so where it lands does not
   * change the sum.
   */
  lemma ChecksumIsSumLsb(crc: Crc8, session: Session, typ: seq<Byte>, command: Option<seq<Byte>>, parameter: Option<seq<Byte>>)
    requires command.None? ==> parameter.None?
    requires parameter.Some? ==> 5 + |typ| <= |Payload(crc, session.header, command, parameter)|
    ensures var payload := Payload(crc, session.header, command, parameter);
      var head := PacketHead(session.serial, typ, |payload|, parameter.Some?);
      var folded := parameter.Some? && |payload| < 26 + |typ|;
      MedtronicPacket(crc, session, typ, command, parameter)[33 + |typ|]
        == (Sum(head[4..]) + Sum(payload) + (if folded then PaddingChecksum(crc, session.header, command.value, parameter.value) else 0)) % 256
  {
    var payload := Payload(crc, session.header, command, parameter);
    var head := PacketHead(session.serial, typ, |payload|, parameter.Some?);
    CheckBytesSum(head[4..], payload, Fold(crc, session.header, command, parameter));
  }

  /** The page-read command of fetchData: its continuation checksum always reaches the sum. */
  lemma ReadPageChecksumFoldsPadding(crc: Crc8, session: Session, page: Byte)
    requires session.Ready()
    ensures var command, parameter := Some([READ_HISTORY]), Some([0x01, page]);
      var payload := Payload(crc, session.header, command, parameter);
      var head := PacketHead(session.serial, SEND_MESSAGE, |payload|, true);
      MedtronicPacket(crc, session, SEND_MESSAGE, command, parameter)[36]
        == (Sum(head[4..]) + Sum(payload) + PaddingChecksum(crc, session.header, [READ_HISTORY], [0x01, page])) % 256
  {
    ChecksumIsSumLsb(crc, session, SEND_MESSAGE, Some([READ_HISTORY]), Some([0x01, page]));
  }
}
