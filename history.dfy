/**
 * The history-page scanner of processPages: each 1024-byte page is cut into
 * records, head then date then body, with the lengths of the record type named
 * by the record's first byte. The scan of a page stops at a zero type byte or at
 * the end of the page, rejects type 0x55 and unknown type bytes, and numbers the
 * records in scan order across all pages. The decoder's state is the module
 * state of the source: the record-type table, which the scan rewrites entry by
 * entry as it resolves layouts, and the larger-records flag and strokes-per-unit
 * scale that model 523 switches on.
 */
module History {
  import opened Wrappers
  import opened Bytes
  import opened RecordTypes

  const MAX_PAGE_SIZE := 1024
  const MODEL_523 := "523"
  const UNSUPPORTED_TYPE: Byte := 0x55

  datatype ScanError =
    | Unsupported55             // "Not supporting type 0x55 yet:" (the head bytes are not part of the message)
    | UnknownType(t: Option<Byte>) // "Unknown type: ..." with the type byte, None past the end of a short page

  /** What the scanner does with the record at the cursor. */
  datatype Step = Stop | Fail(error: ScanError) | Found(k: nat)

  /**
   * The type byte at the cursor decides: zero ends the page; a byte the table does
   * not know (or no byte at all past the end of a short page) is an unknown type;
   * type 0x55 is refused; otherwise the first table entry for the byte is used.
   */
  function Classify(table: seq<RecordType>, page: seq<Byte>, index: nat): (s: Step)
    ensures s.Found? ==> s.k < |table|
  {
    if index < |page| && page[index] == 0 then Stop
    else if |page| <= index then Fail(UnknownType(None))
    else
      var k := FindType(table, page[index]);
      if k.Some? && table[k.value].value == UNSUPPORTED_TYPE then Fail(Unsupported55)
      else if k.None? then Fail(UnknownType(Some(page[index])))
      else Found(k.value)
  }

  /** What the cursor sees: a zero byte stops, and a type found is the first entry of that value, neither 0 nor 0x55. */
  lemma ClassifyCases(table: seq<RecordType>, page: seq<Byte>, index: nat)
    ensures Classify(table, page, index).Stop? <==> index < |page| && page[index] == 0
    ensures Classify(table, page, index).Found? ==>
      index < |page| && table[Classify(table, page, index).k].value == page[index] &&
      FindType(table, page[index]) == Some(Classify(table, page, index).k) &&
      page[index] != 0 && page[index] != UNSUPPORTED_TYPE
  {
  }

  lemma ClassifyStops(table: seq<RecordType>, page: seq<Byte>, index: nat)
    ensures Classify(table, page, index).Stop? ==> index < |page| && page[index] == 0
  {
  }

  /** The number of bytes a record of a resolved entry occupies. */
  function Span(e: RecordType): nat
    requires e.lengths.head.Some? && e.lengths.date.Some? && e.lengths.body.Some?
  {
    e.lengths.head.value + e.lengths.date.value + e.lengths.body.value
  }

  /** The record of a resolved entry that starts at the cursor, numbered `number`. */
  function ReadRecord(e: RecordType, page: seq<Byte>, index: nat, number: nat): (r: Record)
    requires e.lengths.head.Some? && e.lengths.date.Some? && e.lengths.body.Some?
    ensures r.rtype == e && r.index == number
  {
    var h, d := e.lengths.head.value, e.lengths.date.value;
    Record(e, Slice(page, index, h), Slice(page, index + h, d), Slice(page, index + h + d, e.lengths.body.value),
           number)
  }

  /** A record's head, date and body are the page bytes it spans, clipped to the page. */
  lemma ReadRecordBytes(e: RecordType, page: seq<Byte>, index: nat, number: nat)
    requires e.lengths.head.Some? && e.lengths.date.Some? && e.lengths.body.Some?
    ensures var r := ReadRecord(e, page, index, number);
      r.head + r.date + r.body == page[Min(index, |page|)..Min(index + Span(e), |page|)]
  {
    SliceSplit(page, index, e.lengths.head.value, e.lengths.date.value, e.lengths.body.value);
  }

  /** The outcome of scanning one page: records or an error, the table afterwards, and the stop cursor. */
  datatype PageScan = PageScan(result: Result<seq<Record>, ScanError>, table: seq<RecordType>, next: nat)

  /**
   * The scan of one page from cursor `index`, with the records of earlier pages
   * and of this page so far in `acc`: each record is numbered by how many came
   * before it, and the entry of its type is resolved in the table in place.
   */
  function ScanPage(table: seq<RecordType>, larger: bool, page: seq<Byte>, index: nat, acc: seq<Record>): (s: PageScan)
    decreases MAX_PAGE_SIZE - index, 1
  {
    var step := if index < MAX_PAGE_SIZE then Classify(table, page, index) else Stop;
    if step.Found? then ScanRecord(table, larger, page, index, acc, step.k)
    else PageScan(if step.Fail? then Err(step.error) else Ok(acc), table, index)
  }

  /** A record of a known type at the cursor: resolve its entry in place, read it, and go on after it. */
  function ScanRecord(table: seq<RecordType>, larger: bool, page: seq<Byte>, index: nat, acc: seq<Record>, k: nat): (s: PageScan)
    requires index < MAX_PAGE_SIZE && k < |table|
    decreases MAX_PAGE_SIZE - index, 0
  {
    var e := Resolve(table[k], larger);
    ScanPage(table[k := e], larger, page, index + Span(e), acc + [ReadRecord(e, page, index, |acc|)])
  }

  /** One step of the page scan, for a record whose type the table knows. */
  lemma ScanPageFound(table: seq<RecordType>, larger: bool, page: seq<Byte>, index: nat, acc: seq<Record>, k: nat)
    requires index < MAX_PAGE_SIZE && Classify(table, page, index) == Found(k)
    ensures ScanPage(table, larger, page, index, acc)
         == ScanPage(table[k := Resolve(table[k], larger)], larger, page, index + Span(Resolve(table[k], larger)),
                     acc + [ReadRecord(Resolve(table[k], larger), page, index, |acc|)])
  {
    assert ScanPage(table, larger, page, index, acc) == ScanRecord(table, larger, page, index, acc, k);
  }

  /** The end of the page scan: a zero type byte, a failure, or the end of the page area. */
  lemma ScanPageDone(table: seq<RecordType>, larger: bool, page: seq<Byte>, index: nat, acc: seq<Record>)
    requires !(index < MAX_PAGE_SIZE && Classify(table, page, index).Found?)
    ensures ScanPage(table, larger, page, index, acc).table == table
    ensures ScanPage(table, larger, page, index, acc).next == index
    ensures ScanPage(table, larger, page, index, acc).result ==
      if index < MAX_PAGE_SIZE && Classify(table, page, index).Fail? then Err(Classify(table, page, index).error) else Ok(acc)
  {
  }

  /** The outcome of scanning all pages: the records or the first error, and the table afterwards. */
  datatype Scan = Scan(result: Result<seq<Record>, ScanError>, table: seq<RecordType>)

  /** The scan of pages i onwards, each from cursor 0, numbering on from the records in `acc`. */
  function ScanPages(table: seq<RecordType>, larger: bool, pages: seq<seq<Byte>>, i: nat, acc: seq<Record>): (s: Scan)
    decreases |pages| - i
  {
    if i >= |pages| then Scan(Ok(acc), table)
    else
      var p := ScanPage(table, larger, pages[i], 0, acc);
      if p.result.Err? then Scan(p.result, p.table)
      else ScanPages(p.table, larger, pages, i + 1, p.result.value)
  }

  // ---------------------------------------------------------------------------
  // What a scan guarantees
  // ---------------------------------------------------------------------------

  /** A scan only appends to the records it was given. */
  predicate Extends(acc: seq<Record>, r: Result<seq<Record>, ScanError>)
  {
    r.Ok? ==> acc <= r.value
  }

  lemma {:induction false} ScanPageExtends(table: seq<RecordType>, larger: bool, page: seq<Byte>, index: nat, acc: seq<Record>)
    ensures Extends(acc, ScanPage(table, larger, page, index, acc).result)
    decreases MAX_PAGE_SIZE - index
  {
    if index < MAX_PAGE_SIZE && Classify(table, page, index).Found? {
      var k := Classify(table, page, index).k;
      var e := Resolve(table[k], larger);
      var x := ReadRecord(e, page, index, |acc|);
      ScanPageFound(table, larger, page, index, acc, k);
      ScanPageExtends(table[k := e], larger, page, index + Span(e), acc + [x]);
      ExtendsJoin(acc, x, ScanPage(table[k := e], larger, page, index + Span(e), acc + [x]).result);
    } else {
      ScanPageDone(table, larger, page, index, acc);
    }
  }

  lemma ExtendsJoin(acc: seq<Record>, x: Record, r: Result<seq<Record>, ScanError>)
    requires Extends(acc + [x], r)
    ensures Extends(acc, r)
  {
    if r.Ok? {
      assert acc <= acc + [x];
    }
  }

  /** The records a scan adds after the first `from` carry their position as their number. */
  predicate NumberedFrom(from: nat, r: Result<seq<Record>, ScanError>)
  {
    r.Ok? ==> forall j :: from <= j < |r.value| ==> r.value[j].index == j
  }

  /** Records are numbered 0, 1, 2, ... in scan order, continuing from the records before. */
  lemma {:induction false} ScanPageNumbers(table: seq<RecordType>, larger: bool, page: seq<Byte>, index: nat, acc: seq<Record>)
    ensures NumberedFrom(|acc|, ScanPage(table, larger, page, index, acc).result)
    decreases MAX_PAGE_SIZE - index
  {
    if index < MAX_PAGE_SIZE && Classify(table, page, index).Found? {
      var k := Classify(table, page, index).k;
      var e := Resolve(table[k], larger);
      var acc' := acc + [ReadRecord(e, page, index, |acc|)];
      ScanPageFound(table, larger, page, index, acc, k);
      ScanPageNumbers(table[k := e], larger, page, index + Span(e), acc');
      ScanPageExtends(table[k := e], larger, page, index + Span(e), acc');
      JoinNumbers(acc, ReadRecord(e, page, index, |acc|), ScanPage(table[k := e], larger, page, index + Span(e), acc').result);
    } else {
      ScanPageDone(table, larger, page, index, acc);
    }
  }

  lemma JoinNumbers(acc: seq<Record>, x: Record, r: Result<seq<Record>, ScanError>)
    requires x.index == |acc| && Extends(acc + [x], r) && NumberedFrom(|acc| + 1, r)
    ensures NumberedFrom(|acc|, r)
  {
    if r.Ok? {
      assert r.value[|acc|] == (acc + [x])[|acc|];
    }
  }

  /** The bytes of records laid end to end, head, date and body of each in turn. */
  function Flatten(records: seq<Record>): seq<Byte>
  {
    if records == [] then []
    else
      var last := records[|records| - 1];
      Flatten(records[..|records| - 1]) + last.head + last.date + last.body
  }

  lemma FlattenAppend(records: seq<Record>, x: Record)
    ensures Flatten(records + [x]) == Flatten(records) + x.head + x.date + x.body
  {
    assert (records + [x])[..|records|] == records;
  }

  lemma JoinSlices(page: seq<Byte>, i: nat, j: nat, n: nat)
    requires i <= j <= n
    ensures page[Min(i, |page|)..Min(j, |page|)] + page[Min(j, |page|)..Min(n, |page|)] == page[Min(i, |page|)..Min(n, |page|)]
  {
  }

  /**
   * The records of one page tile it without gaps or overlaps: laid end to end they
   * are exactly the page bytes from the start cursor to the stop cursor (clipped to
   * the page), so each record begins where the previous one ended and the cursor
   * advances by head, date and body length.
   */
  predicate Tiles(page: seq<Byte>, index: nat, acc: seq<Record>, s: PageScan)
  {
    s.result.Ok? ==> index <= s.next && Flatten(s.result.value) == Flatten(acc) + page[Min(index, |page|)..Min(s.next, |page|)]
  }

  lemma {:induction false} ScanPageTiles(table: seq<RecordType>, larger: bool, page: seq<Byte>, index: nat, acc: seq<Record>)
    ensures Tiles(page, index, acc, ScanPage(table, larger, page, index, acc))
    decreases MAX_PAGE_SIZE - index
  {
    if index < MAX_PAGE_SIZE && Classify(table, page, index).Found? {
      var k := Classify(table, page, index).k;
      var e := Resolve(table[k], larger);
      var acc' := acc + [ReadRecord(e, page, index, |acc|)];
      ScanPageFound(table, larger, page, index, acc, k);
      ScanPageTiles(table[k := e], larger, page, index + Span(e), acc');
      JoinTiles(e, page, index, acc, ScanPage(table[k := e], larger, page, index + Span(e), acc'));
    } else {
      ScanPageDone(table, larger, page, index, acc);
    }
  }

  /** A record read at the cursor, followed by records tiling on from its end. */
  lemma JoinTiles(e: RecordType, page: seq<Byte>, index: nat, acc: seq<Record>, s: PageScan)
    requires e.lengths.head.Some? && e.lengths.date.Some? && e.lengths.body.Some?
    requires Tiles(page, index + Span(e), acc + [ReadRecord(e, page, index, |acc|)], s)
    ensures Tiles(page, index, acc, s)
  {
    ReadRecordBytes(e, page, index, |acc|);
    JoinSpans(page, index, index + Span(e), acc, ReadRecord(e, page, index, |acc|), s);
  }

  lemma JoinSpans(page: seq<Byte>, index: nat, next: nat, acc: seq<Record>, x: Record, s: PageScan)
    requires index <= next
    requires x.head + x.date + x.body == page[Min(index, |page|)..Min(next, |page|)]
    requires Tiles(page, next, acc + [x], s)
    ensures Tiles(page, index, acc, s)
  {
    if s.result.Ok? {
      FlattenAppend(acc, x);
      JoinSlices(page, index, next, s.next);
    }
  }

  /** A scan that succeeds stops at the end of the page area or at a zero type byte. */
  predicate Stopped(page: seq<Byte>, s: PageScan)
  {
    s.result.Ok? ==> s.next >= MAX_PAGE_SIZE || (s.next < |page| && page[s.next] == 0)
  }

  lemma {:induction false} ScanPageStops(table: seq<RecordType>, larger: bool, page: seq<Byte>, index: nat, acc: seq<Record>)
    ensures Stopped(page, ScanPage(table, larger, page, index, acc))
    decreases MAX_PAGE_SIZE - index
  {
    if index < MAX_PAGE_SIZE && Classify(table, page, index).Found? {
      var k := Classify(table, page, index).k;
      var e := Resolve(table[k], larger);
      ScanPageFound(table, larger, page, index, acc, k);
      ScanPageStops(table[k := e], larger, page, index + Span(e), acc + [ReadRecord(e, page, index, |acc|)]);
    } else {
      ScanPageDone(table, larger, page, index, acc);
      ClassifyStops(table, page, index);
    }
  }

  /**
   * What an error at cursor `next` says about the page: 0x55 is refused only where
   * the type byte is 0x55, and an unknown type is either no byte at all (past the end
   * of a short page) or the byte at the cursor.
   */
  predicate FailMeans(page: seq<Byte>, next: nat, error: ScanError)
  {
    match error
    case Unsupported55 => next < |page| && page[next] == UNSUPPORTED_TYPE
    case UnknownType(t) => if t.None? then |page| <= next else next < |page| && page[next] == t.value
  }

  /** A scan that fails does so inside the page area, at a byte that explains the error. */
  predicate FailedAt(page: seq<Byte>, s: PageScan)
  {
    s.result.Err? ==> s.next < MAX_PAGE_SIZE && FailMeans(page, s.next, s.result.error)
  }

  lemma {:induction false} ScanPageFails(table: seq<RecordType>, larger: bool, page: seq<Byte>, index: nat, acc: seq<Record>)
    ensures FailedAt(page, ScanPage(table, larger, page, index, acc))
    decreases MAX_PAGE_SIZE - index
  {
    if index < MAX_PAGE_SIZE && Classify(table, page, index).Found? {
      var k := Classify(table, page, index).k;
      var e := Resolve(table[k], larger);
      ScanPageFound(table, larger, page, index, acc, k);
      ScanPageFails(table[k := e], larger, page, index + Span(e), acc + [ReadRecord(e, page, index, |acc|)]);
    } else {
      ScanPageDone(table, larger, page, index, acc);
      ClassifyFails(table, page, index);
    }
  }

  /** The failures of Classify: 0x55 at the cursor, no byte at the cursor, or a byte the table does not know. */
  lemma ClassifyFails(table: seq<RecordType>, page: seq<Byte>, index: nat)
    ensures Classify(table, page, index).Fail? ==> FailMeans(page, index, Classify(table, page, index).error)
    ensures Classify(table, page, index) == Fail(UnknownType(None)) <==> |page| <= index
    ensures forall b :: Classify(table, page, index) == Fail(UnknownType(Some(b))) <==>
      index < |page| && page[index] == b && b != 0 && FindType(table, b).None?
  {
  }

  /**
   * A record carries the layout of the first table entry for its type byte,
   * resolved with the larger flag of the scan that read it; its type byte is
   * neither 0 nor 0x55.
   */
  predicate TypedBy(table: seq<RecordType>, larger: bool, x: Record)
  {
    |x.head| > 0 && x.head[0] != 0 && x.head[0] != UNSUPPORTED_TYPE &&
    FindType(table, x.head[0]).Some? &&
    x.rtype == Resolve(table[FindType(table, x.head[0]).value], larger)
  }

  /** Resolving one entry does not change what any record is typed by. */
  lemma TypedByUpdate(table: seq<RecordType>, larger: bool, k: nat, x: Record)
    requires k < |table|
    ensures TypedBy(table[k := Resolve(table[k], larger)], larger, x) <==> TypedBy(table, larger, x)
  {
    var t := table[k := Resolve(table[k], larger)];
    if |x.head| > 0 {
      FindFromSameValues(t, table, x.head[0], 0);
      ResolveIsFinal(table[k], larger, larger);
    }
  }

  /** The records a scan adds after the first `from` are typed by the table. */
  predicate TypedFrom(table: seq<RecordType>, larger: bool, from: nat, r: Result<seq<Record>, ScanError>)
  {
    r.Ok? ==> forall j :: from <= j < |r.value| ==> TypedBy(table, larger, r.value[j])
  }

  /** Every record a scan adds is typed by the table the scan started with. */
  lemma {:induction false} ScanPageTyped(table: seq<RecordType>, larger: bool, page: seq<Byte>, index: nat, acc: seq<Record>)
    ensures TypedFrom(table, larger, |acc|, ScanPage(table, larger, page, index, acc).result)
    decreases MAX_PAGE_SIZE - index
  {
    if index < MAX_PAGE_SIZE && Classify(table, page, index).Found? {
      var k := Classify(table, page, index).k;
      var e := Resolve(table[k], larger);
      ScanPageTyped(table[k := e], larger, page, index + Span(e), acc + [ReadRecord(e, page, index, |acc|)]);
      TypedStep(table, larger, page, index, acc, k);
    } else {
      ScanPageDone(table, larger, page, index, acc);
    }
  }

  /** One record of a known type, followed by a scan whose records are typed by the table with its entry resolved. */
  lemma TypedStep(table: seq<RecordType>, larger: bool, page: seq<Byte>, index: nat, acc: seq<Record>, k: nat)
    requires index < MAX_PAGE_SIZE && Classify(table, page, index) == Found(k)
    requires var e := Resolve(table[k], larger);
      TypedFrom(table[k := e], larger, |acc| + 1, ScanPage(table[k := e], larger, page, index + Span(e), acc + [ReadRecord(e, page, index, |acc|)]).result)
    ensures TypedFrom(table, larger, |acc|, ScanPage(table, larger, page, index, acc).result)
  {
    var e := Resolve(table[k], larger);
    var acc' := acc + [ReadRecord(e, page, index, |acc|)];
    ScanPageExtends(table[k := e], larger, page, index + Span(e), acc');
    JoinTyped(table, larger, page, index, acc, k, ScanPage(table[k := e], larger, page, index + Span(e), acc').result);
    ScanPageFound(table, larger, page, index, acc, k);
  }

  /** The record read at a known type, followed by records typed by the table with that entry resolved. */
  lemma JoinTyped(table: seq<RecordType>, larger: bool, page: seq<Byte>, index: nat, acc: seq<Record>, k: nat, r: Result<seq<Record>, ScanError>)
    requires Classify(table, page, index) == Found(k)
    requires Extends(acc + [ReadRecord(Resolve(table[k], larger), page, index, |acc|)], r)
    requires TypedFrom(table[k := Resolve(table[k], larger)], larger, |acc| + 1, r)
    ensures TypedFrom(table, larger, |acc|, r)
  {
    var x := ReadRecord(Resolve(table[k], larger), page, index, |acc|);
    RecordTyped(table, larger, page, index, k, x);
    JoinTypedRecords(table, larger, k, acc, x, r);
  }

  /** The record read at a known type is typed by the table it was read with. */
  lemma RecordTyped(table: seq<RecordType>, larger: bool, page: seq<Byte>, index: nat, k: nat, x: Record)
    requires Classify(table, page, index) == Found(k)
    requires x == ReadRecord(Resolve(table[k], larger), page, index, x.index)
    ensures TypedBy(table, larger, x)
  {
    ClassifyCases(table, page, index);
  }

  lemma JoinTypedRecords(table: seq<RecordType>, larger: bool, k: nat, acc: seq<Record>, x: Record, r: Result<seq<Record>, ScanError>)
    requires k < |table| && TypedBy(table, larger, x) && Extends(acc + [x], r)
    requires TypedFrom(table[k := Resolve(table[k], larger)], larger, |acc| + 1, r)
    ensures TypedFrom(table, larger, |acc|, r)
  {
    if r.Ok? {
      var records := r.value;
      assert records[|acc|] == (acc + [x])[|acc|];
      forall j | |acc| <= j < |records|
        ensures TypedBy(table, larger, records[j])
      {
        if j > |acc| {
          TypedByUpdate(table, larger, k, records[j]);
        }
      }
    }
  }

  /** Each table entry is either untouched by a scan or resolved with the scan's larger flag. */
  predicate ResolvedFrom(before: seq<RecordType>, after: seq<RecordType>, larger: bool)
  {
    |after| == |before| && forall j :: 0 <= j < |before| ==> EntryResolved(before[j], after[j], larger)
  }

  predicate EntryResolved(before: RecordType, after: RecordType, larger: bool)
  {
    after == before || after == Resolve(before, larger)
  }

  lemma {:induction false} ScanPageTable(table: seq<RecordType>, larger: bool, page: seq<Byte>, index: nat, acc: seq<Record>)
    ensures ResolvedFrom(table, ScanPage(table, larger, page, index, acc).table, larger)
    decreases MAX_PAGE_SIZE - index
  {
    if index < MAX_PAGE_SIZE && Classify(table, page, index).Found? {
      var k := Classify(table, page, index).k;
      var e := Resolve(table[k], larger);
      var acc' := acc + [ReadRecord(e, page, index, |acc|)];
      ScanPageFound(table, larger, page, index, acc, k);
      ScanPageTable(table[k := e], larger, page, index + Span(e), acc');
      ResolvedFromUpdate(table, k, larger, ScanPage(table[k := e], larger, page, index + Span(e), acc').table);
    } else {
      ScanPageDone(table, larger, page, index, acc);
    }
  }

  /** Resolving one more entry keeps a table resolved from the one before. */
  lemma ResolvedFromUpdate(table: seq<RecordType>, k: nat, larger: bool, after: seq<RecordType>)
    requires k < |table| && ResolvedFrom(table[k := Resolve(table[k], larger)], after, larger)
    ensures ResolvedFrom(table, after, larger)
  {
    ResolveIsFinal(table[k], larger, larger);
  }

  // ---------------------------------------------------------------------------
  // What a run over all pages guarantees
  // ---------------------------------------------------------------------------

  /** One page of the run, scanned without error: the run goes on with the next page. */
  lemma ScanPagesNext(table: seq<RecordType>, larger: bool, pages: seq<seq<Byte>>, i: nat, acc: seq<Record>)
    requires i < |pages| && ScanPage(table, larger, pages[i], 0, acc).result.Ok?
    ensures ScanPages(table, larger, pages, i, acc) ==
      ScanPages(ScanPage(table, larger, pages[i], 0, acc).table, larger, pages, i + 1,
                ScanPage(table, larger, pages[i], 0, acc).result.value)
  {
  }

  /** One page of the run, scanned with an error: the run ends with it. */
  lemma ScanPagesFail(table: seq<RecordType>, larger: bool, pages: seq<seq<Byte>>, i: nat, acc: seq<Record>)
    requires i < |pages| && ScanPage(table, larger, pages[i], 0, acc).result.Err?
    ensures ScanPages(table, larger, pages, i, acc) ==
      Scan(ScanPage(table, larger, pages[i], 0, acc).result, ScanPage(table, larger, pages[i], 0, acc).table)
  {
  }

  lemma {:induction false} ScanPagesExtends(table: seq<RecordType>, larger: bool, pages: seq<seq<Byte>>, i: nat, acc: seq<Record>)
    ensures Extends(acc, ScanPages(table, larger, pages, i, acc).result)
    decreases |pages| - i
  {
    if i < |pages| {
      var p := ScanPage(table, larger, pages[i], 0, acc);
      ScanPageExtends(table, larger, pages[i], 0, acc);
      if p.result.Ok? {
        ScanPagesNext(table, larger, pages, i, acc);
        ScanPagesExtends(p.table, larger, pages, i + 1, p.result.value);
      } else {
        ScanPagesFail(table, larger, pages, i, acc);
      }
    }
  }

  /** Records are numbered 0, 1, 2, ... across page boundaries. */
  lemma {:induction false} ScanPagesNumbers(table: seq<RecordType>, larger: bool, pages: seq<seq<Byte>>, i: nat, acc: seq<Record>)
    ensures NumberedFrom(|acc|, ScanPages(table, larger, pages, i, acc).result)
    decreases |pages| - i
  {
    if i < |pages| {
      var p := ScanPage(table, larger, pages[i], 0, acc);
      ScanPageNumbers(table, larger, pages[i], 0, acc);
      if p.result.Ok? {
        ScanPageExtends(table, larger, pages[i], 0, acc);
        ScanPagesNext(table, larger, pages, i, acc);
        ScanPagesNumbers(p.table, larger, pages, i + 1, p.result.value);
        ScanPagesExtends(p.table, larger, pages, i + 1, p.result.value);
        ChainNumbers(acc, p.result.value, ScanPages(p.table, larger, pages, i + 1, p.result.value).result);
      } else {
        ScanPagesFail(table, larger, pages, i, acc);
      }
    }
  }

  lemma ChainNumbers(acc: seq<Record>, mid: seq<Record>, r: Result<seq<Record>, ScanError>)
    requires acc <= mid && NumberedFrom(|acc|, Ok(mid)) && Extends(mid, r) && NumberedFrom(|mid|, r)
    ensures NumberedFrom(|acc|, r)
  {
    if r.Ok? {
      forall j | |acc| <= j < |r.value|
        ensures r.value[j].index == j
      {
        if j < |mid| {
          assert r.value[j] == mid[j];
        }
      }
    }
  }

  /** Two tables that differ only in entries resolved with the same flag type every record alike. */
  lemma TypedByResolved(before: seq<RecordType>, after: seq<RecordType>, larger: bool, x: Record)
    requires ResolvedFrom(before, after, larger)
    ensures TypedBy(after, larger, x) <==> TypedBy(before, larger, x)
  {
    if |x.head| > 0 {
      forall j | 0 <= j < |after|
        ensures after[j].value == before[j].value && Resolve(after[j], larger) == Resolve(before[j], larger)
      {
        ResolveIsFinal(before[j], larger, larger);
      }
      FindFromSameValues(after, before, x.head[0], 0);
    }
  }

  /** Every record of a run is typed by the table the run started with. */
  lemma {:induction false} ScanPagesTyped(table: seq<RecordType>, larger: bool, pages: seq<seq<Byte>>, i: nat, acc: seq<Record>)
    ensures TypedFrom(table, larger, |acc|, ScanPages(table, larger, pages, i, acc).result)
    decreases |pages| - i
  {
    if i < |pages| {
      var p := ScanPage(table, larger, pages[i], 0, acc);
      ScanPageTyped(table, larger, pages[i], 0, acc);
      if p.result.Ok? {
        ScanPageExtends(table, larger, pages[i], 0, acc);
        ScanPageTable(table, larger, pages[i], 0, acc);
        ScanPagesNext(table, larger, pages, i, acc);
        ScanPagesTyped(p.table, larger, pages, i + 1, p.result.value);
        ScanPagesExtends(p.table, larger, pages, i + 1, p.result.value);
        ChainTyped(table, p.table, larger, acc, p.result.value, ScanPages(p.table, larger, pages, i + 1, p.result.value).result);
      } else {
        ScanPagesFail(table, larger, pages, i, acc);
      }
    }
  }

  lemma ChainTyped(table: seq<RecordType>, after: seq<RecordType>, larger: bool, acc: seq<Record>, mid: seq<Record>,
                   r: Result<seq<Record>, ScanError>)
    requires ResolvedFrom(table, after, larger)
    requires acc <= mid && TypedFrom(table, larger, |acc|, Ok(mid)) && Extends(mid, r) && TypedFrom(after, larger, |mid|, r)
    ensures TypedFrom(table, larger, |acc|, r)
  {
    if r.Ok? {
      forall j | |acc| <= j < |r.value|
        ensures TypedBy(table, larger, r.value[j])
      {
        if j < |mid| {
          assert r.value[j] == mid[j];
        } else {
          TypedByResolved(table, after, larger, r.value[j]);
        }
      }
    }
  }

  /** A run leaves each table entry as it was or resolved with the run's flag. */
  lemma {:induction false} ScanPagesTable(table: seq<RecordType>, larger: bool, pages: seq<seq<Byte>>, i: nat, acc: seq<Record>)
    ensures ResolvedFrom(table, ScanPages(table, larger, pages, i, acc).table, larger)
    decreases |pages| - i
  {
    if i < |pages| {
      var p := ScanPage(table, larger, pages[i], 0, acc);
      ScanPageTable(table, larger, pages[i], 0, acc);
      if p.result.Ok? {
        ScanPagesNext(table, larger, pages, i, acc);
        ScanPagesTable(p.table, larger, pages, i + 1, p.result.value);
        ResolvedFromTrans(table, p.table, ScanPages(p.table, larger, pages, i + 1, p.result.value).table, larger);
      } else {
        ScanPagesFail(table, larger, pages, i, acc);
      }
    }
  }

  lemma ResolvedFromTrans(a: seq<RecordType>, b: seq<RecordType>, c: seq<RecordType>, larger: bool)
    requires ResolvedFrom(a, b, larger) && ResolvedFrom(b, c, larger)
    ensures ResolvedFrom(a, c, larger)
  {
    forall j | 0 <= j < |a|
      ensures EntryResolved(a[j], c[j], larger)
    {
      ResolveIsFinal(a[j], larger, larger);
    }
  }

  /**
   * processPages from no records: the records of a run that succeeds are numbered
   * 0, 1, 2, ... in page order and each carries the resolved layout of the first
   * table entry for its type byte, which is neither 0 nor 0x55.
   */
  lemma RunRecords(table: seq<RecordType>, larger: bool, pages: seq<seq<Byte>>)
    ensures ScanPages(table, larger, pages, 0, []).result.Ok? ==>
      forall j :: 0 <= j < |ScanPages(table, larger, pages, 0, []).result.value| ==>
        ScanPages(table, larger, pages, 0, []).result.value[j].index == j &&
        TypedBy(table, larger, ScanPages(table, larger, pages, 0, []).result.value[j])
  {
    ScanPagesNumbers(table, larger, pages, 0, []);
    ScanPagesTyped(table, larger, pages, 0, []);
  }

  // ---------------------------------------------------------------------------
  // The shared table across uploads
  // ---------------------------------------------------------------------------

  /** The lookup of a type byte only reads type bytes, so it answers alike on any table resolved from another. */
  lemma FindTypeResolved(before: seq<RecordType>, after: seq<RecordType>, larger: bool, t: Byte)
    requires ResolvedFrom(before, after, larger)
    ensures FindType(after, t) == FindType(before, t)
  {
    FindFromSameValues(after, before, t, 0);
  }

  /**
   * As written, the override is deleted from the shared entry even when the larger
   * flag is off. Once a run without it has read a BOLUS record, a later model 523 run
   * on the same table cuts BOLUS records with the five-byte head, not the eight-byte one.
   */
  lemma StaleBolusOverride(after: seq<RecordType>, x: Record)
    requires ResolvedFrom(RECORD_TYPES, after, false) && after[0] != BOLUS
    requires TypedBy(after, true, x) && x.head[0] == BOLUS.value
    ensures x.rtype.lengths.head == Some(5)
  {
    FindTypeResolved(RECORD_TYPES, after, false, BOLUS.value);
    assert RECORD_TYPES[0] == BOLUS;
    assert FindType(RECORD_TYPES, BOLUS.value) == Some(0);
    ResolveIsFinal(BOLUS, false, true);
    LargerLayouts();
  }

  /** An upload that resolves layouts from the declared table, whatever ran before. */
  function FreshUpload(pages: seq<seq<Byte>>, modelNumber: string): (s: Scan)
  {
    ScanPages(RECORD_TYPES, modelNumber == MODEL_523, pages, 0, [])
  }

  /** Uploading from the declared table, every BOLUS record of a model 523 pump has the eight-byte head layout. */
  lemma FreshUploadBolusHead(pages: seq<seq<Byte>>)
    ensures FreshUpload(pages, MODEL_523).result.Ok? ==>
      forall j :: 0 <= j < |FreshUpload(pages, MODEL_523).result.value| &&
                  FreshUpload(pages, MODEL_523).result.value[j].rtype.value == BOLUS.value ==>
        FreshUpload(pages, MODEL_523).result.value[j].rtype.lengths.head == Some(8)
  {
    RunRecords(RECORD_TYPES, true, pages);
    assert RECORD_TYPES[0] == BOLUS;
    assert FindType(RECORD_TYPES, BOLUS.value) == Some(0);
    LargerLayouts();
  }

  /** The decoder state: the record-type table and the two model-dependent settings. */
  class HistoryDecoder {
    var table: seq<RecordType>
    var larger: bool
    var strokesPerUnit: nat

    constructor ()
      ensures table == RECORD_TYPES && !larger && strokesPerUnit == 10
    {
      table, larger, strokesPerUnit := RECORD_TYPES, false, 10;
    }

    /**
     * processPages: model 523 switches on the larger layouts and the 40 strokes per
     * unit scale (and nothing switches them off again); then the pages are scanned
     * in order. The table changes made before an error are kept.
     */
    method ProcessPages(pages: seq<seq<Byte>>, modelNumber: string) returns (r: Result<seq<Record>, ScanError>)
      modifies this
      ensures larger == (old(larger) || modelNumber == MODEL_523)
      ensures strokesPerUnit == if modelNumber == MODEL_523 then 40 else old(strokesPerUnit)
      ensures r == ScanPages(old(table), larger, pages, 0, []).result
      ensures table == ScanPages(old(table), larger, pages, 0, []).table
    {
      if modelNumber == MODEL_523 {
        strokesPerUnit := 40;
        larger := true;
      }
      ghost var scan := ScanPages(table, larger, pages, 0, []);
      var records: seq<Record> := [];
      var i := 0;
      while i < |pages|
        invariant i <= |pages|
        invariant larger == (old(larger) || modelNumber == MODEL_523)
        invariant strokesPerUnit == if modelNumber == MODEL_523 then 40 else old(strokesPerUnit)
        invariant ScanPages(table, larger, pages, i, records) == scan
      {
        ghost var before := ScanPage(table, larger, pages[i], 0, records);
        var page := ScanOnePage(pages[i], records);
        assert page == before.result && table == before.table;
        if page.Err? {
          return page;
        }
        records := page.value;
        i := i + 1;
      }
      r := Ok(records);
    }

    /**
     * The in-place rewrite of a table entry when a record of its type is read: the
     * override merged in when the larger flag is set, then deleted, then the defaults.
     */
    method ResolveEntry(k: nat) returns (e: RecordType)
      requires k < |table|
      modifies this`table
      ensures e == Resolve(old(table)[k], larger) && table == old(table)[k := e]
    {
      e := Resolve(table[k], larger);
      table := table[k := e];
    }

    /** The while loop over one page: the cursor walks record by record until it stops. */
    method ScanOnePage(page: seq<Byte>, records: seq<Record>) returns (r: Result<seq<Record>, ScanError>)
      modifies this`table
      ensures r == ScanPage(old(table), larger, page, 0, records).result
      ensures table == ScanPage(old(table), larger, page, 0, records).table
    {
      ghost var scan := ScanPage(table, larger, page, 0, records);
      var acc := records;
      var index := 0;
      while index < MAX_PAGE_SIZE
        invariant ScanPage(table, larger, page, index, acc) == scan
        decreases MAX_PAGE_SIZE - index
      {
        var step := Classify(table, page, index);
        if step.Stop? {
          break;
        }
        if step.Fail? {
          return Err(step.error);
        }
        index, acc := ReadRecordAt(page, index, acc, step.k);
      }
      r := Ok(acc);
    }

    /** The body of the page loop for a record of a known type: resolve the entry, cut out the record, move the cursor. */
    method ReadRecordAt(page: seq<Byte>, index: nat, acc: seq<Record>, k: nat) returns (next: nat, acc': seq<Record>)
      requires index < MAX_PAGE_SIZE && Classify(table, page, index) == Found(k)
      modifies this`table
      ensures next > index
      ensures ScanPage(table, larger, page, next, acc') == ScanPage(old(table), larger, page, index, acc)
    {
      ghost var before := table;
      var e := ResolveEntry(k);
      var record := ReadRecord(e, page, index, |acc|);
      ScanPageFound(before, larger, page, index, acc, k);
      next := index + Span(e);
      acc' := acc + [record];
    }
  }
}
