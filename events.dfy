/**
 * The integer fields the event builders read out of history records: bolus
 * amounts, durations and the dual-bolus pairing of buildBolusRecords, the
 * bolus-wizard inputs of buildWizardRecords and the meter reading of
 * buildBGRecords. Amounts stay raw stroke counts; the division by the strokes
 * per unit scale is not part of this model.
 *
 * The decoders index arrays that can be shorter than they expect (a record cut
 * off by the end of a page). JavaScript then reads `undefined`: bitwise
 * operators turn it into 0, and arithmetic turns it into NaN, written None here.
 */
module Events {
  import opened Wrappers
  import opened Bytes
  import opened Bits
  import opened RecordTypes

  /** A number as the builders compute it; None is NaN. */
  type Num = Option<int>

  /** `struct.extractByte(s, i)` as an operand of arithmetic: NaN past the end. */
  function ByteAt(s: seq<Byte>, i: nat): (v: Num)
    ensures v.Some? <==> i < |s|
    ensures v.Some? ==> 0 <= v.value < 256
  {
    if i < |s| then Some(s[i] as int) else None
  }

  /** `struct.extractByte(s, i)` as an operand of `&`, `<<` or `>>`: 0 past the end. */
  function ByteOrZero(s: seq<Byte>, i: nat): (v: nat)
    ensures v < 256
    ensures i < |s| ==> v == s[i]
  {
    if i < |s| then s[i] else 0
  }

  /** `struct.extractBEShort(s, i)`: the big-endian 16-bit value at i, NaN unless both bytes exist. */
  function BEShort(s: seq<Byte>, i: nat): (v: Num)
    ensures v.Some? <==> i + 1 < |s|
    ensures v.Some? ==> 0 <= v.value < 65536 && v.value / 256 == s[i] && v.value % 256 == s[i + 1]
  {
    if i + 1 < |s| then Some(s[i] as int * 256 + s[i + 1] as int) else None
  }

  /** `extractBEShort([high].concat(low), 0)`: a computed high byte and a low byte that may be missing. */
  function Join(high: int, low: Num): (v: Num)
    ensures v.Some? <==> low.Some?
  {
    if low.Some? then Some(high * 256 + low.value) else None
  }

  /** The high and low parts of a joined value whose low part is a byte. */
  lemma JoinSplit(high: int, low: int)
    requires 0 <= low < 256
    ensures Join(high, Some(low)).value / 256 == high && Join(high, Some(low)).value % 256 == low
  {
  }

  // ---------------------------------------------------------------------------
  // buildBolusRecords
  // ---------------------------------------------------------------------------

  /** JavaScript's `programmed !== amount` on numbers: NaN differs from everything, itself included. */
  predicate Differs(amount: Num, programmed: Num)
  {
    !(amount.Some? && programmed.Some? && amount.value == programmed.value)
  }

  /** The "expected" amount a bolus carries: the programmed amount, present only when it differs from the delivered one. */
  function Expected(amount: Num, programmed: Num): (x: Option<Num>)
    ensures x.Some? <==> Differs(amount, programmed)
    ensures x.Some? ==> x.value == programmed
  {
    if Differs(amount, programmed) then Some(programmed) else None
  }

  /** The delivered and the programmed amount of a bolus record, in strokes. */
  datatype Amounts = Amounts(amount: Num, programmed: Num)

  /** Model 523 stores both amounts as big-endian shorts at head bytes 3 and 1; the others as single bytes at 2 and 1. */
  function BolusAmounts(larger: bool, head: seq<Byte>): (a: Amounts)
    ensures larger && |head| >= 5 ==> a.amount.Some? && a.programmed.Some? && a.amount.value < 65536 && a.programmed.value < 65536
    ensures !larger && |head| >= 3 ==> a.amount.Some? && a.programmed.Some? && a.amount.value < 256 && a.programmed.value < 256
  {
    if larger then Amounts(BEShort(head, 3), BEShort(head, 1)) else Amounts(ByteAt(head, 2), ByteAt(head, 1))
  }

  /** The amounts of the normal part of a dual bolus, read as model 523 shorts whatever the model. */
  function NormalPartAmounts(head: seq<Byte>): Amounts
  {
    Amounts(BEShort(head, 3), BEShort(head, 1))
  }

  /** The programmed duration, head byte 7, in half hours; NaN when the head is shorter. */
  function Duration(head: seq<Byte>): Num
  {
    ByteAt(head, 7)
  }

  /** `duration > 0`: false for NaN. */
  predicate Extended(head: seq<Byte>)
  {
    Duration(head).Some? && Duration(head).value > 0
  }

  /** `(date[2] & 0xC0) === 0x80`: the top two bits of date byte 2 read binary 10. */
  predicate DualMarker(date: seq<Byte>)
  {
    And(ByteOrZero(date, 2), 0xC0) == 0x80
  }

  /** The dual marker in ordinary arithmetic: date byte 2 lies in 128..191. */
  lemma DualMarkerRange(date: seq<Byte>)
    ensures DualMarker(date) <==> |date| > 2 && 128 <= date[2] < 192
  {
    TopBits(ByteOrZero(date, 2));
  }

  lemma TopBits(x: nat)
    requires x < 256
    ensures And(x, 0xC0) == 0x80 <==> 128 <= x < 192
  {
    assert Pow2(6) == 64 && Pow2(2) == 4;
    AndField(x, 6, 2);
    var top := x / 64;
    assert top < 4 && top % 4 == top;
    assert And(x, 0xC0) == top * 64;
  }

  /**
   * The events the builder emits. Durations are raw half-hour counts; when the
   * expected extended amount is present the builder also rescales the duration
   * by the delivered fraction, which is floating point and not part of this model.
   */
  datatype Bolus =
    | NormalBolus(normal: Num, expectedNormal: Option<Num>, index: nat)
    | SquareBolus(duration: nat, extended: Num, expectedExtended: Option<Num>, index: nat)
    | DualBolus(duration: nat, extended: Num, expectedExtended: Option<Num>,
                normal: Num, expectedNormal: Option<Num>, index: nat)

  /** A dual bolus that is the last bolus record: the builder reads the head of a record that does not exist. */
  datatype BolusError = MissingNormalPart

  /** The number of bolus records an event was built from: two for a dual bolus, one otherwise. */
  function Parts(b: Bolus): nat
  {
    if b.DualBolus? then 2 else 1
  }

  function TotalParts(events: seq<Bolus>): nat
  {
    if events == [] then 0 else Parts(events[0]) + TotalParts(events[1..])
  }

  /** A bolus without a positive duration is a normal bolus with the amounts of its own record. */
  function NormalOf(larger: bool, x: Record): (b: Bolus)
    ensures b.NormalBolus? && b.index == x.index
  {
    var a := BolusAmounts(larger, x.head);
    NormalBolus(a.amount, Expected(a.amount, a.programmed), x.index)
  }

  /** A bolus with a positive duration and no dual marker is a square bolus. */
  function SquareOf(larger: bool, x: Record): (b: Bolus)
    requires Extended(x.head)
    ensures b.SquareBolus? && b.index == x.index && b.duration > 0
  {
    var a := BolusAmounts(larger, x.head);
    SquareBolus(Duration(x.head).value, a.amount, Expected(a.amount, a.programmed), x.index)
  }

  /**
   * A dual bolus joins its extended part, read from the marked record, with its
   * normal part, read from the next bolus record; the event carries the index of
   * that second record, the record the builder holds when it stamps the event.
   */
  function DualOf(larger: bool, x: Record, y: Record): (b: Bolus)
    requires Extended(x.head)
    ensures b.DualBolus? && b.index == y.index && b.duration > 0
  {
    var a := BolusAmounts(larger, x.head);
    var n := NormalPartAmounts(y.head);
    DualBolus(Duration(x.head).value, a.amount, Expected(a.amount, a.programmed),
              n.amount, Expected(n.amount, n.programmed), y.index)
  }

  function Prepend(events: seq<Bolus>, r: Result<seq<Bolus>, BolusError>): Result<seq<Bolus>, BolusError>
  {
    if r.Ok? then Ok(events + r.value) else r
  }

  /** The events of a list of bolus records, taken from the front; a dual bolus takes two records. */
  function BolusEvents(larger: bool, bs: seq<Record>): Result<seq<Bolus>, BolusError>
    decreases |bs|
  {
    if bs == [] then Ok([])
    else if !Extended(bs[0].head) then Prepend([NormalOf(larger, bs[0])], BolusEvents(larger, bs[1..]))
    else if !DualMarker(bs[0].date) then Prepend([SquareOf(larger, bs[0])], BolusEvents(larger, bs[1..]))
    else if |bs| == 1 then Err(MissingNormalPart)
    else Prepend([DualOf(larger, bs[0], bs[1])], BolusEvents(larger, bs[2..]))
  }

  /** buildBolusRecords: the for loop over the BOLUS records, which bumps its counter past the normal part of a dual bolus. */
  method BuildBolusRecords(larger: bool, records: seq<Record>) returns (r: Result<seq<Bolus>, BolusError>)
    ensures r == BolusEvents(larger, FilterHistory([BOLUS], records))
  {
    var bs := FilterHistory([BOLUS], records);
    var events: seq<Bolus> := [];
    var i := 0;
    assert bs[i..] == bs;
    PrependNothing(BolusEvents(larger, bs));
    while i < |bs|
      invariant i <= |bs|
      invariant BolusEvents(larger, bs) == Prepend(events, BolusEvents(larger, bs[i..]))
      decreases |bs| - i
    {
      var record := bs[i];
      var event;
      if Extended(record.head) {
        if DualMarker(record.date) {
          if i + 1 == |bs| {
            assert bs[i..] == [record];
            return Err(MissingNormalPart);
          }
          event := DualOf(larger, record, bs[i + 1]);
          assert bs[i..][2..] == bs[i + 2..];
          i := i + 1;
        } else {
          event := SquareOf(larger, record);
          assert bs[i..][1..] == bs[i + 1..];
        }
      } else {
        event := NormalOf(larger, record);
        assert bs[i..][1..] == bs[i + 1..];
      }
      PrependAssoc(events, event, BolusEvents(larger, bs[i + 1..]));
      events := events + [event];
      i := i + 1;
    }
    assert bs[i..] == [];
    assert events + [] == events;
    r := Ok(events);
  }

  lemma PrependNothing(r: Result<seq<Bolus>, BolusError>)
    ensures Prepend([], r) == r
  {
    if r.Ok? {
      assert [] + r.value == r.value;
    }
  }

  lemma PrependAssoc(events: seq<Bolus>, event: Bolus, r: Result<seq<Bolus>, BolusError>)
    ensures Prepend(events, Prepend([event], r)) == Prepend(events + [event], r)
  {
    if r.Ok? {
      assert events + ([event] + r.value) == (events + [event]) + r.value;
    }
  }

  lemma TotalPartsCons(event: Bolus, r: Result<seq<Bolus>, BolusError>)
    requires r.Ok?
    ensures Prepend([event], r).Ok? && TotalParts(Prepend([event], r).value) == Parts(event) + TotalParts(r.value)
  {
    assert ([event] + r.value)[1..] == r.value;
  }

  /** Every bolus record goes into exactly one event: a dual bolus takes two, the others one. */
  lemma {:induction false} BolusParts(larger: bool, bs: seq<Record>)
    ensures BolusEvents(larger, bs).Ok? ==> TotalParts(BolusEvents(larger, bs).value) == |bs|
    decreases |bs|
  {
    if bs == [] {
    } else if !Extended(bs[0].head) || !DualMarker(bs[0].date) {
      BolusParts(larger, bs[1..]);
      if BolusEvents(larger, bs[1..]).Ok? {
        var e := if !Extended(bs[0].head) then NormalOf(larger, bs[0]) else SquareOf(larger, bs[0]);
        TotalPartsCons(e, BolusEvents(larger, bs[1..]));
      }
    } else if |bs| > 1 {
      BolusParts(larger, bs[2..]);
      if BolusEvents(larger, bs[2..]).Ok? {
        TotalPartsCons(DualOf(larger, bs[0], bs[1]), BolusEvents(larger, bs[2..]));
      }
    }
  }

  /** The builder fails only when the last bolus record opens a dual bolus whose normal part never comes. */
  lemma {:induction false} BolusFailsAtEnd(larger: bool, bs: seq<Record>)
    ensures BolusEvents(larger, bs).Err? ==>
      |bs| > 0 && Extended(bs[|bs| - 1].head) && DualMarker(bs[|bs| - 1].date)
    decreases |bs|
  {
    if bs != [] && (!Extended(bs[0].head) || !DualMarker(bs[0].date)) {
      BolusFailsAtEnd(larger, bs[1..]);
    } else if |bs| > 1 {
      BolusFailsAtEnd(larger, bs[2..]);
      assert |bs[2..]| > 0 ==> bs[2..][|bs[2..]| - 1] == bs[|bs| - 1];
    }
  }

  /**
   * Heads shorter than eight bytes have no duration byte: every record is then a
   * normal bolus of its own, and the builder cannot fail. The BOLUS layout of the
   * models other than 523 has a five-byte head.
   */
  lemma {:induction false} ShortHeadsAreNormal(larger: bool, bs: seq<Record>)
    requires forall j :: 0 <= j < |bs| ==> |bs[j].head| < 8
    ensures BolusEvents(larger, bs).Ok?
    ensures |BolusEvents(larger, bs).value| == |bs|
    ensures forall j :: 0 <= j < |bs| ==> BolusEvents(larger, bs).value[j] == NormalOf(larger, bs[j])
    decreases |bs|
  {
    if bs != [] {
      ShortHeadsAreNormal(larger, bs[1..]);
      var rest := BolusEvents(larger, bs[1..]).value;
      assert BolusEvents(larger, bs).value == [NormalOf(larger, bs[0])] + rest;
      forall j | 0 < j < |bs|
        ensures BolusEvents(larger, bs).value[j] == NormalOf(larger, bs[j])
      {
        assert bs[1..][j - 1] == bs[j];
      }
    }
  }

  /** Record numbers that grow strictly along the list. */
  predicate Increasing(records: seq<Record>)
  {
    forall i, j :: 0 <= i < j < |records| ==> records[i].index < records[j].index
  }

  predicate EventsIncreasing(events: seq<Bolus>)
  {
    forall i, j :: 0 <= i < j < |events| ==> events[i].index < events[j].index
  }

  /** Records in scan order give events in scan order, none stamped before the first record. */
  lemma {:induction false} BolusOrder(larger: bool, bs: seq<Record>)
    requires Increasing(bs)
    ensures BolusEvents(larger, bs).Ok? ==> EventsIncreasing(BolusEvents(larger, bs).value)
    ensures BolusEvents(larger, bs).Ok? && bs != [] ==>
      forall k :: 0 <= k < |BolusEvents(larger, bs).value| ==> BolusEvents(larger, bs).value[k].index >= bs[0].index
    decreases |bs|
  {
    if bs == [] {
    } else if !Extended(bs[0].head) || !DualMarker(bs[0].date) {
      BolusOrder(larger, bs[1..]);
      var e := if !Extended(bs[0].head) then NormalOf(larger, bs[0]) else SquareOf(larger, bs[0]);
      OrderJoin(e, bs[0].index, bs[1..], BolusEvents(larger, bs[1..]));
    } else if |bs| > 1 {
      BolusOrder(larger, bs[2..]);
      OrderJoin(DualOf(larger, bs[0], bs[1]), bs[0].index, bs[2..], BolusEvents(larger, bs[2..]));
    }
  }

  lemma OrderJoin(e: Bolus, first: nat, rest: seq<Record>, r: Result<seq<Bolus>, BolusError>)
    requires first <= e.index
    requires rest != [] ==> e.index < rest[0].index
    requires r.Ok? ==> EventsIncreasing(r.value)
    requires r.Ok? && rest != [] ==> forall k :: 0 <= k < |r.value| ==> r.value[k].index >= rest[0].index
    requires r.Ok? && rest == [] ==> r.value == []
    ensures Prepend([e], r).Ok? ==> EventsIncreasing(Prepend([e], r).value)
    ensures Prepend([e], r).Ok? ==> forall k :: 0 <= k < |Prepend([e], r).value| ==> Prepend([e], r).value[k].index >= first
  {
    if r.Ok? {
      var events := [e] + r.value;
      forall i, j | 0 <= i < j < |events|
        ensures events[i].index < events[j].index
      {
        assert events[j] == r.value[j - 1];
        if i > 0 {
          assert events[i] == r.value[i - 1];
        }
      }
    }
  }

  // ---------------------------------------------------------------------------
  // buildWizardRecords
  // ---------------------------------------------------------------------------

  /** twosComplement on a number that may be NaN: `undefined & 128` is 0, so NaN passes through. */
  function TwosOf(v: Num): (r: Num)
    requires v.Some? ==> 0 <= v.value < 256
    ensures r.Some? <==> v.Some?
  {
    if v.Some? then Some(TwosComplement(v.value)) else None
  }

  /** The bolus wizard inputs and recommendation, in raw units (strokes, and tenths of grams per unit for the 523 carb ratio). */
  datatype Wizard = Wizard(
    bgInput: Num, carbInput: Num, carbRatio: Num, insulinSensitivity: Num, bgLow: Num, bgHigh: Num,
    recommendedCarb: Num, recommendedCorrection: Num, recommendedNet: Num, insulinOnBoard: Num, index: nat)

  /**
   * The fields of a BOLUS_WIZARD record. Model 523 packs two extra high bits of
   * the BG input, two of the carb input, three of the carb ratio and three of the
   * correction into body bytes 1, 2 and 9; the older layout has four high bits of
   * the BG input and a signed correction.
   */
  function WizardOf(larger: bool, x: Record): (w: Wizard)
    ensures w.index == x.index
    ensures w.bgInput.Some? <==> |x.head| > 1
  {
    var body := x.body;
    if larger then
      Wizard(Join(And(ByteOrZero(body, 1), 0x03), ByteAt(x.head, 1)),
             Join(Shr(And(ByteOrZero(body, 1), 0x0C), 2), ByteAt(body, 0)),
             Join(And(ByteOrZero(body, 2), 0x07), ByteAt(body, 3)),
             ByteAt(body, 4), ByteAt(body, 5), ByteAt(body, 14),
             BEShort(body, 7),
             Join(Shr(And(ByteOrZero(body, 9), 0x38), 3), ByteAt(body, 6)),
             BEShort(body, 12), BEShort(body, 10), x.index)
    else
      Wizard(Join(And(ByteOrZero(body, 1), 0x0F), ByteAt(x.head, 1)),
             ByteAt(body, 0), ByteAt(body, 2), ByteAt(body, 3), ByteAt(body, 4), ByteAt(body, 12),
             BEShort(body, 6),
             Join(TwosComplement(And(ByteOrZero(body, 5), 0x0F)), TwosOf(ByteAt(body, 7))),
             BEShort(body, 11), BEShort(body, 9), x.index)
  }

  /** The model 523 fields in ordinary arithmetic: high bits from body bytes 1, 2 and 9, low bytes beside them. */
  lemma WizardFields523(x: Record)
    requires |x.head| > 1 && |x.body| > 9
    ensures WizardOf(true, x).bgInput == Some((x.body[1] as int % 4) * 256 + x.head[1] as int)
    ensures WizardOf(true, x).carbInput == Some(((x.body[1] as int / 4) % 4) * 256 + x.body[0] as int)
    ensures WizardOf(true, x).carbRatio == Some((x.body[2] as int % 8) * 256 + x.body[3] as int)
    ensures WizardOf(true, x).recommendedCorrection == Some(((x.body[9] as int / 8) % 8) * 256 + x.body[6] as int)
  {
    var b1, b2, b9 := ByteOrZero(x.body, 1), ByteOrZero(x.body, 2), ByteOrZero(x.body, 9);
    assert And(b1, 0x03) == x.body[1] as int % 4 by { LowTwo(b1); }
    assert Shr(And(b1, 0x0C), 2) == (x.body[1] as int / 4) % 4 by { BitsTwoThree(b1); }
    assert And(b2, 0x07) == x.body[2] as int % 8 by { LowThree(b2); }
    assert Shr(And(b9, 0x38), 3) == (x.body[9] as int / 8) % 8 by { BitsThreeToFive(b9); }
  }

  /** The older fields in ordinary arithmetic: four high bits of the BG input, and a correction whose low byte is signed. */
  lemma WizardFieldsOld(x: Record)
    requires |x.head| > 1 && |x.body| > 7
    ensures WizardOf(false, x).bgInput == Some((x.body[1] as int % 16) * 256 + x.head[1] as int)
    ensures WizardOf(false, x).recommendedCorrection == Some((x.body[5] as int % 16) * 256 + TwosComplement(x.body[7]))
  {
    var b1, b5 := ByteOrZero(x.body, 1), ByteOrZero(x.body, 5);
    assert And(b1, 0x0F) == x.body[1] as int % 16 by { LowFour(b1); }
    assert TwosComplement(And(b5, 0x0F)) == x.body[5] as int % 16 by {
      LowFour(b5);
      TwosComplementSign(b5 % 16);
    }
  }

  /** The ranges the packed fields can take, whatever the record bytes. */
  lemma WizardRanges(larger: bool, x: Record)
    ensures var w := WizardOf(larger, x);
      (larger ==> (w.bgInput.Some? ==> 0 <= w.bgInput.value < 1024) &&
                  (w.carbInput.Some? ==> 0 <= w.carbInput.value < 1024) &&
                  (w.carbRatio.Some? ==> 0 <= w.carbRatio.value < 2048) &&
                  (w.recommendedCorrection.Some? ==> 0 <= w.recommendedCorrection.value < 2048)) &&
      (!larger ==> (w.bgInput.Some? ==> 0 <= w.bgInput.value < 4096) &&
                   (w.recommendedCorrection.Some? ==> -128 <= w.recommendedCorrection.value < 3968))
  {
    var b1, b2, b5, b9 := ByteOrZero(x.body, 1), ByteOrZero(x.body, 2), ByteOrZero(x.body, 5), ByteOrZero(x.body, 9);
    assert And(b1, 0x03) < 4 by { LowTwo(b1); }
    assert And(b1, 0x0F) < 16 by { LowFour(b1); }
    assert And(b2, 0x07) < 8 by { LowThree(b2); }
    assert Shr(And(b1, 0x0C), 2) < 4 by { BitsTwoThree(b1); }
    assert Shr(And(b9, 0x38), 3) < 8 by { BitsThreeToFive(b9); }
    assert 0 <= TwosComplement(And(b5, 0x0F)) < 16 by {
      LowFour(b5);
      TwosComplementSign(b5 % 16);
    }
  }

  /** buildWizardRecords: one wizard event per BOLUS_WIZARD record, in record order. */
  function BuildWizardRecords(larger: bool, records: seq<Record>): (ws: seq<Wizard>)
    ensures |ws| == |FilterHistory([BOLUS_WIZARD], records)|
    ensures forall j :: 0 <= j < |ws| ==> ws[j].index == FilterHistory([BOLUS_WIZARD], records)[j].index
    ensures forall j :: 0 <= j < |ws| ==> ws[j] == WizardOf(larger, FilterHistory([BOLUS_WIZARD], records)[j])
  {
    var rs := FilterHistory([BOLUS_WIZARD], records);
    seq(|rs|, j requires 0 <= j < |rs| => WizardOf(larger, rs[j]))
  }

  // ---------------------------------------------------------------------------
  // buildBGRecords
  // ---------------------------------------------------------------------------

  /** `(head[1] << 3) + (date[2] >> 5)`: eight bits from the head and the top three of date byte 2. */
  function BgValue(head: seq<Byte>, date: seq<Byte>): (v: nat)
    ensures v < 2048
  {
    var h, d := ByteOrZero(head, 1), ByteOrZero(date, 2);
    ShlIsMul(h, 3);
    ShrIsDiv(d, 5);
    assert Pow2(3) == 8 && Pow2(5) == 32;
    Shl(h, 3) + Shr(d, 5)
  }

  /** The BG value splits back into head byte 1 and the top three bits of date byte 2. */
  lemma BgValueFields(head: seq<Byte>, date: seq<Byte>)
    requires |head| > 1 && |date| > 2
    ensures BgValue(head, date) == head[1] as int * 8 + date[2] as int / 32
    ensures BgValue(head, date) / 8 == head[1] as int && BgValue(head, date) % 8 == date[2] as int / 32
  {
    ShlIsMul(head[1], 3);
    ShrIsDiv(date[2], 5);
    assert Pow2(3) == 8 && Pow2(5) == 32;
  }

  /** A linked meter reading: the BG value and the first three body bytes, the meter serial. */
  datatype Reading = Reading(value: nat, meterSerial: seq<Byte>, index: nat)

  function ReadingOf(x: Record): (m: Reading)
    ensures m.value < 2048 && m.index == x.index
    ensures m.meterSerial == x.body[..Min(3, |x.body|)]
  {
    Reading(BgValue(x.head, x.date), Slice(x.body, 0, 3), x.index)
  }

  /** buildBGRecords: one reading per BG_RECEIVED record, in record order. */
  function BuildBGRecords(records: seq<Record>): (rs: seq<Reading>)
    ensures |rs| == |FilterHistory([BG_RECEIVED], records)|
    ensures forall j :: 0 <= j < |rs| ==> rs[j].index == FilterHistory([BG_RECEIVED], records)[j].index
    ensures forall j :: 0 <= j < |rs| ==> rs[j] == ReadingOf(FilterHistory([BG_RECEIVED], records)[j])
  {
    var bgs := FilterHistory([BG_RECEIVED], records);
    seq(|bgs|, j requires 0 <= j < |bgs| => ReadingOf(bgs[j]))
  }
  /** Each reading of buildBGRecords carries the BG value and meter serial of its BG_RECEIVED record. */
  lemma BuildBGRecordsValues(records: seq<Record>, j: nat)
    requires j < |FilterHistory([BG_RECEIVED], records)|
    requires var x := FilterHistory([BG_RECEIVED], records)[j]; |x.head| > 1 && |x.date| > 2 && |x.body| >= 3
    ensures var x := FilterHistory([BG_RECEIVED], records)[j];
      BuildBGRecords(records)[j].value == x.head[1] as int * 8 + x.date[2] as int / 32 &&
      BuildBGRecords(records)[j].meterSerial == x.body[..3] && x.rtype.value == BG_RECEIVED.value
  {
    var x := FilterHistory([BG_RECEIVED], records)[j];
    BgValueFields(x.head, x.date);
    assert x in FilterHistory([BG_RECEIVED], records);
  }

  /** Each wizard event of buildWizardRecords carries the BG input of its BOLUS_WIZARD record, in the layout of the pump. */
  lemma BuildWizardRecordsBgInput(larger: bool, records: seq<Record>, j: nat)
    requires j < |FilterHistory([BOLUS_WIZARD], records)|
    requires var x := FilterHistory([BOLUS_WIZARD], records)[j]; |x.head| > 1 && |x.body| > 9
    ensures var x := FilterHistory([BOLUS_WIZARD], records)[j];
      BuildWizardRecords(larger, records)[j].bgInput ==
        Some((x.body[1] as int % (if larger then 4 else 16)) * 256 + x.head[1] as int)
  {
    var x := FilterHistory([BOLUS_WIZARD], records)[j];
    if larger {
      WizardFields523(x);
    } else {
      WizardFieldsOld(x);
    }
  }
}
