/**
 * The record vocabulary of the pump history pages: the table of record types
 * with their head, date and body lengths, the search for a type byte, the
 * resolution of an entry into the lengths a scan uses, and the pure decoders
 * applied to a record's bytes (date fields, two's complement, filtering by type).
 */
module RecordTypes {
  import opened Wrappers
  import opened Bytes
  import opened Bits

  /** A head length: every record has at least its type byte. */
  type HeadLength = n: nat | n >= 1 witness 1

  /** The lengths an entry states; a length the entry leaves out is None. */
  datatype Layout = Layout(head: Option<HeadLength>, date: Option<nat>, body: Option<nat>)

  /**
   * One entry of the record-type table: the type byte, the name, the lengths the
   * entry states and the override used for the larger records of model 523.
   * `larger` is None for entries without an override and once the override has
   * been deleted.
   */
  datatype RecordType = RecordType(value: Byte, name: string, lengths: Layout, larger: Option<Layout>)

  const NoLengths := Layout(None, None, None)

  function Plain(value: Byte, name: string): RecordType
  {
    RecordType(value, name, NoLengths, None)
  }

  function WithHead(value: Byte, name: string, head: HeadLength): RecordType
  {
    RecordType(value, name, Layout(Some(head), None, None), None)
  }

  function WithBody(value: Byte, name: string, body: nat): RecordType
  {
    RecordType(value, name, Layout(None, None, Some(body)), None)
  }

  /** The summary records that carry a one-byte head and a two-byte date. */
  function Summary(value: Byte, name: string, body: nat): RecordType
  {
    RecordType(value, name, Layout(Some(1), Some(2), Some(body)), None)
  }

  // The entries the event builders select by type.
  const BOLUS := RecordType(0x01, "BOLUS", Layout(Some(5), None, None), Some(Layout(Some(8), None, None)))
  const BG_RECEIVED := WithBody(0x3F, "BG_RECEIVED", 3)
  const UNKNOWN_55 := Plain(0x55, "UNKNOWN_55")
  const BOLUS_WIZARD_CHANGE_OLD :=
    RecordType(0x5A, "BOLUS_WIZARD_CHANGE_OLD", Layout(None, None, Some(117)), Some(Layout(None, None, Some(137))))
  const BOLUS_WIZARD_CHANGE_BIG := WithBody(0x5A, "BOLUS_WIZARD_CHANGE_BIG", 143)
  const BOLUS_WIZARD :=
    RecordType(0x5B, "BOLUS_WIZARD", Layout(None, None, Some(13)), Some(Layout(None, None, Some(15))))

  /** The record-type table in declaration order, the order in which a type byte is looked up. */
  const RECORD_TYPES: seq<RecordType> := TYPES_01_19 + TYPES_1A_2F + TYPES_30_53 + TYPES_54_63 + TYPES_64_A8

  const TYPES_01_19: seq<RecordType> :=
    [ BOLUS,
      WithHead(0x03, "PRIME", 5),
      WithHead(0x06, "ALARM_PUMP", 4),
      RecordType(0x07, "RESULT_DAILY_TOTAL", Layout(Some(5), Some(2), None), Some(Layout(None, None, Some(3)))),
      WithBody(0x08, "CHANGE_BASAL_PROFILE_OLD", 145),
      WithBody(0x09, "CHANGE_BASAL_PROFILE_NEW", 145),
      Plain(0x0A, "CAL_BG_FOR_PH"),
      WithHead(0x0B, "ALARM_SENSOR", 3),
      Plain(0x0C, "CLEAR_ALARM"),
      Plain(0x14, "SELECT_BASAL_PROFILE"),
      Plain(0x16, "TEMP_BASAL_DURATION"),
      Plain(0x17, "CHANGE_TIME"),
      Plain(0x18, "NEW_TIME_SET"),
      Plain(0x19, "LOW_BATTERY")
    ]

  const TYPES_1A_2F: seq<RecordType> :=
    [ Plain(0x1A, "BATTERY"),
      Plain(0x1B, "SET_AUTO_OFF"),
      Plain(0x1E, "PUMP_SUSPEND"),
      Plain(0x1F, "PUMP_RESUME"),
      Plain(0x21, "REWIND"),
      Plain(0x22, "UNKNOWN_22"),
      Plain(0x23, "UNKNOWN_23"),
      Plain(0x24, "UNKNOWN_24"),
      WithBody(0x26, "ENABLE_DISABLE_REMOTE", 14),
      Plain(0x27, "CHANGE_REMOTE_ID"),
      Plain(0x2C, "CHANGE_MAX_BASAL"),
      Plain(0x2D, "SET_BOLUS_WIZARD_ENABLED"),
      WithBody(0x2E, "UNKNOWN_2E", 100),
      WithBody(0x2F, "BOLUS_WIZARD_512", 12)
    ]

  const TYPES_30_53: seq<RecordType> :=
    [ Plain(0x30, "IOB_512"),
      WithBody(0x33, "TEMP_BASAL", 1),
      Plain(0x34, "LOW_RESERVOIR"),
      Plain(0x3B, "UNKNOWN_3B"),
      WithBody(0x3C, "CHANGE_PARADIGM_LINK_ID", 14),
      BG_RECEIVED,
      WithBody(0x40, "JOURNAL_ENTRY_MEAL_MARKER", 2),
      WithBody(0x41, "JOURNAL_ENTRY_EXERCISE_MARKER", 1),
      WithBody(0x42, "JOURNAL_ENTRY_OTHER_MARKER", 1),
      WithBody(0x4F, "CHANGE_BOLUS_WIZARD_SETUP", 40),
      WithBody(0x50, "UNKNOWN_50", 30),
      Plain(0x51, "UNKNOWN_51"),
      Plain(0x52, "UNKNOWN_52"),
      WithBody(0x53, "UNKNOWN_53", 1)
    ]

  const TYPES_54_63: seq<RecordType> :=
    [ WithBody(0x54, "UNKNOWN_54", 3),
      UNKNOWN_55,
      WithBody(0x56, "UNKNOWN_56", 5),
      Plain(0x57, "UNKNOWN_57"),
      BOLUS_WIZARD_CHANGE_OLD,
      BOLUS_WIZARD_CHANGE_BIG,
      BOLUS_WIZARD,
      WithBody(0x5C, "UNKNOWN_5C", 1),
      Plain(0x5E, "UNKNOWN_5E"),
      Plain(0x5F, "CHANGE_AUDIO_BOLUS"),
      Plain(0x60, "CHANGE_BG_REMINDER_ENABLE"),
      Plain(0x61, "UNKNOWN_61"),
      Plain(0x62, "CHANGE_TEMP_BASAL_TYPE"),
      WithBody(0x63, "CHANGE_ALARM_NOTIFY_MODE", 0)
    ]

  const TYPES_64_A8: seq<RecordType> :=
    [ Plain(0x64, "CHANGE_TIME_DISPLAY"),
      Plain(0x65, "UNKNOWN_65"),
      WithBody(0x69, "UNKNOWN_69", 2),
      Summary(0x6C, "UNKNOWN_6C", 40),
      Summary(0x6D, "MODEL_522_RESULTS_TOTALS", 40),
      Summary(0x6E, "UNKNOWN_6E", 49),
      Plain(0x6F, "UNKNOWN_6F"),
      WithBody(0x7B, "BASAL_PROFILE_START", 3),
      Plain(0x7C, "CONNECT_DEVICES_OTHER_DEVICES_ENABLED"),
      WithBody(0x7D, "CHANGE_OTHER_DEVICE_ID", 30),
      WithBody(0x81, "CHANGE_WATCHDOG_MARRIAGE_PROFILE", 5),
      WithBody(0x82, "DELETE_OTHER_DEVICE_ID", 5),
      Plain(0x83, "CHANGE_CAPTURE_EVENT_ENABLE"),
      WithHead(0xA8, "UNKNOWN_A8", 10)
    ]

  // ---------------------------------------------------------------------------
  // getType
  // ---------------------------------------------------------------------------

  /** The position of the first entry at or after `from` whose type byte is `t`. */
  function FindFrom(table: seq<RecordType>, t: Byte, from: nat): (k: Option<nat>)
    ensures k.Some? ==> from <= k.value < |table| && table[k.value].value == t
    decreases |table| - from
  {
    if from >= |table| then None
    else if table[from].value == t then Some(from)
    else FindFrom(table, t, from + 1)
  }

  /** No entry from `from` up to the one found, and none at all when none is found, has type byte `t`. */
  lemma {:induction false} FindFromFirst(table: seq<RecordType>, t: Byte, from: nat)
    ensures FindFrom(table, t, from).Some? ==>
      forall j :: from <= j < FindFrom(table, t, from).value ==> table[j].value != t
    ensures FindFrom(table, t, from).None? ==> forall j :: from <= j < |table| ==> table[j].value != t
    decreases |table| - from
  {
    if from < |table| && table[from].value != t {
      FindFromFirst(table, t, from + 1);
    }
  }

  /** getType: the first entry in table order whose type byte is `t`, or none ('unknown'). */
  function FindType(table: seq<RecordType>, t: Byte): (k: Option<nat>)
    ensures k.Some? ==> k.value < |table| && table[k.value].value == t
  {
    FindFrom(table, t, 0)
  }

  /** The entry getType finds is the first of its type byte; when none is found, no entry has it. */
  lemma FindTypeFirst(table: seq<RecordType>, t: Byte)
    ensures FindType(table, t).Some? ==> forall j :: 0 <= j < FindType(table, t).value ==> table[j].value != t
    ensures FindType(table, t).None? ==> forall j :: 0 <= j < |table| ==> table[j].value != t
  {
    FindFromFirst(table, t, 0);
  }

  /** Type 0x5A has two entries; the lookup always yields the first, BOLUS_WIZARD_CHANGE_OLD. */
  lemma ShadowedWizardChange()
    ensures FindType(RECORD_TYPES, 0x5A) == Some(46)
    ensures RECORD_TYPES[46] == BOLUS_WIZARD_CHANGE_OLD
    ensures RECORD_TYPES[47] == BOLUS_WIZARD_CHANGE_BIG && BOLUS_WIZARD_CHANGE_BIG.value == 0x5A
  {
    assert RECORD_TYPES[46] == TYPES_54_63[4];
    assert RECORD_TYPES[47] == TYPES_54_63[5];
    FindTypeFirst(RECORD_TYPES, 0x5A);
    forall j | 0 <= j < 46
      ensures RECORD_TYPES[j].value != 0x5A
    {
      if j < 14 {
        assert RECORD_TYPES[j] == TYPES_01_19[j];
      } else if j < 28 {
        assert RECORD_TYPES[j] == TYPES_1A_2F[j - 14];
      } else if j < 42 {
        assert RECORD_TYPES[j] == TYPES_30_53[j - 28];
      } else {
        assert RECORD_TYPES[j] == TYPES_54_63[j - 42];
      }
    }
  }

  /** Lookups only read the type bytes: two tables with the same bytes answer alike. */
  lemma {:induction false} FindFromSameValues(a: seq<RecordType>, b: seq<RecordType>, t: Byte, from: nat)
    requires |a| == |b|
    requires forall j :: 0 <= j < |a| ==> a[j].value == b[j].value
    ensures FindFrom(a, t, from) == FindFrom(b, t, from)
    decreases |a| - from
  {
    if from < |a| && a[from].value != t {
      FindFromSameValues(a, b, t, from + 1);
    }
  }

  // ---------------------------------------------------------------------------
  // Layout resolution (the merge, delete and defaults applied by processPages)
  // ---------------------------------------------------------------------------

  const DEFAULT_HEAD: HeadLength := 2
  const DEFAULT_DATE := 5
  const DEFAULT_BODY := 0

  /** `_.assign`: a length the override states replaces the entry's own. */
  function Merge<T>(own: Option<T>, over: Option<T>): Option<T>
  {
    if over.Some? then over else own
  }

  /** `_.defaults`: a length the entry does not state takes the default. */
  function OrDefault<T>(length: Option<T>, default: T): T
  {
    if length.Some? then length.value else default
  }

  /**
   * The entry as processPages leaves it: with the larger flag set, the override is
   * merged in; the override is then deleted whether or not it was used, and the
   * lengths still missing take the defaults 2, 5 and 0.
   */
  function Resolve(e: RecordType, larger: bool): (r: RecordType)
    ensures r.value == e.value && r.name == e.name && r.larger.None?
    ensures r.lengths.head.Some? && r.lengths.date.Some? && r.lengths.body.Some?
  {
    var merged :=
      if larger && e.larger.Some? then
        Layout(Merge(e.lengths.head, e.larger.value.head),
               Merge(e.lengths.date, e.larger.value.date),
               Merge(e.lengths.body, e.larger.value.body))
      else e.lengths;
    RecordType(e.value, e.name,
               Layout(Some(OrDefault(merged.head, DEFAULT_HEAD)),
                      Some(OrDefault(merged.date, DEFAULT_DATE)),
                      Some(OrDefault(merged.body, DEFAULT_BODY))),
               None)
  }

  /**
   * With the larger flag set, a length the override states wins; otherwise, and for
   * entries without an override, the entry's own length or the default is used.
   */
  lemma ResolveLengths(e: RecordType, larger: bool)
    ensures larger && e.larger.Some? && e.larger.value.head.Some? ==> Resolve(e, larger).lengths.head == e.larger.value.head
    ensures larger && e.larger.Some? && e.larger.value.body.Some? ==> Resolve(e, larger).lengths.body == e.larger.value.body
    ensures larger && e.larger.Some? && e.larger.value.date.Some? ==> Resolve(e, larger).lengths.date == e.larger.value.date
    ensures (!larger || e.larger.None?) ==>
      Resolve(e, larger).lengths == Layout(Some(OrDefault(e.lengths.head, DEFAULT_HEAD)),
                                           Some(OrDefault(e.lengths.date, DEFAULT_DATE)),
                                           Some(OrDefault(e.lengths.body, DEFAULT_BODY)))
  {
  }

  /**
   * A resolved entry is left alone by every later resolution, whatever the larger
   * flag is then: the override is gone and no length is missing.
   */
  lemma ResolveIsFinal(e: RecordType, larger: bool, later: bool)
    ensures Resolve(Resolve(e, larger), later) == Resolve(e, larger)
  {
    var r := Resolve(e, larger);
    assert r.lengths == Layout(Some(r.lengths.head.value), Some(r.lengths.date.value), Some(r.lengths.body.value));
  }

  /** The larger layout of model 523 applies to BOLUS, RESULT_DAILY_TOTAL, BOLUS_WIZARD_CHANGE_OLD and BOLUS_WIZARD. */
  lemma LargerLayouts()
    ensures Resolve(BOLUS, false).lengths == Layout(Some(5), Some(5), Some(0))
    ensures Resolve(BOLUS, true).lengths == Layout(Some(8), Some(5), Some(0))
    ensures Resolve(BOLUS_WIZARD, false).lengths == Layout(Some(2), Some(5), Some(13))
    ensures Resolve(BOLUS_WIZARD, true).lengths == Layout(Some(2), Some(5), Some(15))
    ensures Resolve(RECORD_TYPES[3], true).lengths == Layout(Some(5), Some(2), Some(3))
    ensures Resolve(BOLUS_WIZARD_CHANGE_OLD, true).lengths == Layout(Some(2), Some(5), Some(137))
  {
  }

  // ---------------------------------------------------------------------------
  // decodeDate
  // ---------------------------------------------------------------------------

  /** The decoded time stamp fields; a date shorter than five bytes is not decoded. */
  datatype DeviceDate =
    | ShortDate
    | Date(second: nat, minute: nat, hour: nat, day: nat, month: nat, year: nat)

  /**
   * decodeDate: second and minute are the low six bits of bytes 0 and 1, hour and day
   * the low five bits of bytes 2 and 3, the month is assembled from the top two bits of
   * bytes 0 and 1, and the year is the low seven bits of byte 4 after 2000.
   */
  function DecodeDate(payload: seq<Byte>): (d: DeviceDate)
    ensures d.ShortDate? <==> |payload| < 5
    ensures d.Date? ==> d.second < 64 && d.minute < 64 && d.hour < 32 && d.day < 32
    ensures d.Date? ==> d.month < 16 && 2000 <= d.year < 2128
  {
    if |payload| < 5 then ShortDate
    else
      TopTwoBits(payload[0]);
      TopTwoBits(payload[1]);
      Date(And(payload[0], 0x3F), And(payload[1], 0x3F), And(payload[2], 0x1F), And(payload[3], 0x1F),
           Or(Shr(And(payload[0], 0xC0), 4), Shr(And(payload[1], 0xC0), 6)),
           And(payload[4], 0x7F) + 2000)
  }

  /** The date fields in ordinary arithmetic: each is a remainder or a quotient of one byte. */
  lemma DecodeDateArithmetic(payload: seq<Byte>)
    requires |payload| >= 5
    ensures DecodeDate(payload) ==
      Date(payload[0] % 64, payload[1] % 64, payload[2] % 32, payload[3] % 32,
           (payload[0] / 64) * 4 + payload[1] / 64, payload[4] as int % 128 + 2000)
  {
    LowMasks(payload[0]);
    LowMasks(payload[1]);
    LowMasks(payload[2]);
    LowMasks(payload[3]);
    LowMasks(payload[4]);
    TopTwoBits(payload[0]);
    TopTwoBits(payload[1]);
    assert Pow2(2) == 4;
    OrDisjoint(payload[0] / 64, payload[1] / 64, 2);
  }

  /** Only the first five bytes take part in the decoded date. */
  lemma DecodeDateFirstFive(payload: seq<Byte>)
    requires |payload| >= 5
    ensures DecodeDate(payload) == DecodeDate(payload[..5])
  {
    DecodeDateArithmetic(payload);
    DecodeDateArithmetic(payload[..5]);
  }

  // ---------------------------------------------------------------------------
  // twosComplement
  // ---------------------------------------------------------------------------

  /** twosComplement: a byte read as a signed 8-bit value. */
  function TwosComplement(value: Byte): (r: int)
    ensures -128 <= r < 128
    ensures (r - value) % 256 == 0
  {
    SignBit(value);
    if And(value, 128) != 0 then value - 256 else value
  }

  /** The sign bit decides: values below 128 are kept, the others become negative. */
  lemma TwosComplementSign(value: Byte)
    ensures value < 128 ==> TwosComplement(value) == value
    ensures value >= 128 ==> TwosComplement(value) == value - 256
  {
    SignBit(value);
  }

  // ---------------------------------------------------------------------------
  // History records and filterHistory
  // ---------------------------------------------------------------------------

  /**
   * A record cut out of a history page, with the resolved entry of its type and its
   * scan number. Its decoded time stamp is a function of its date bytes.
   */
  datatype Record = Record(rtype: RecordType, head: seq<Byte>, date: seq<Byte>, body: seq<Byte>, index: nat)
  {
    function JsDate(): DeviceDate
    {
      DecodeDate(date)
    }
  }

  function TypeValues(types: seq<RecordType>): (ids: seq<Byte>)
    ensures |ids| == |types|
    ensures forall j :: 0 <= j < |types| ==> ids[j] == types[j].value
  {
    seq(|types|, j requires 0 <= j < |types| => types[j].value)
  }

  /** filterHistory: the records whose type byte is one of the given types', in their order. */
  function FilterHistory(types: seq<RecordType>, records: seq<Record>): (r: seq<Record>)
    ensures |r| <= |records|
    ensures forall x :: x in r <==> x in records && x.rtype.value in TypeValues(types)
  {
    if records == [] then []
    else
      var rest := FilterHistory(types, records[1..]);
      assert forall x :: x in records <==> x == records[0] || x in records[1..];
      if records[0].rtype.value in TypeValues(types) then [records[0]] + rest else rest
  }

  /** Filtering distributes over concatenation, so the records keep their relative order. */
  lemma {:induction false} FilterHistoryAppend(types: seq<RecordType>, a: seq<Record>, b: seq<Record>)
    ensures FilterHistory(types, a + b) == FilterHistory(types, a) + FilterHistory(types, b)
    decreases |a|
  {
    if a == [] {
      assert a + b == b;
    } else {
      assert (a + b)[0] == a[0];
      assert (a + b)[1..] == a[1..] + b;
      FilterHistoryAppend(types, a[1..], b);
    }
  }
}
