/**
 The layout half of components/arduino/tools/gen_esp32part.py: the pass of from_csv that
 fills in missing offsets and negative sizes, and the overlap check of verify.
 */
module PartitionLayout {
  import opened Wrappers

  const PARTITION_TABLE_SIZE := 0x1000

  const APP_TYPE := 0
  const BOOTLOADER_TYPE := 2
  const PARTITION_TABLE_TYPE := 3

  /** A parsed row; a negative size asks for everything up to an absolute end address. */
  datatype Row = Row(kind: int, subtype: int, offset: Option<int>, size: int)

  predicate IsPrimary(r: Row) {
    (r.kind == BOOTLOADER_TYPE || r.kind == PARTITION_TABLE_TYPE) && r.subtype == 0
  }

  /** get_alignment_offset_for_type */
  function Alignment(kind: int): (a: int)
    ensures a > 0
  {
    if kind == APP_TYPE then 0x1_0000 else 0x1000
  }

  function AlignUp(x: int, a: int): int
    requires a > 0
  {
    if x % a != 0 then x + (a - x % a) else x
  }

  /** The aligned address is the least one at or after `x`. */
  lemma AlignUpIsLeast(x: int, a: int, y: int)
    requires a == 0x1_0000 || a == 0x1000
    ensures AlignUp(x, a) % a == 0 && x <= AlignUp(x, a)
    ensures x <= y && y % a == 0 ==> AlignUp(x, a) <= y
  {}

  // ----- from_csv's fix-up -----

  datatype LayoutError = Overlap(index: nat)

  /** A row with its offset and size made absolute, given where the previous one ended. */
  function Placed(r: Row, lastEnd: int): (p: Row)
    ensures p.offset.Some?
  {
    var offset := match r.offset case Some(o) => o case None => AlignUp(lastEnd, Alignment(r.kind));
    r.(offset := Some(offset), size := if r.size < 0 then -r.size - offset else r.size)
  }

  function End(r: Row): int
    requires r.offset.Some?
  {
    r.offset.value + r.size
  }

  predicate Clashes(r: Row, lastEnd: int) {
    r.offset.Some? && r.offset.value < lastEnd
  }

  /** The rows from `rows[0]` on, placed after an area that ends at `lastEnd`. */
  function FixFrom(rows: seq<Row>, lastEnd: int): Option<seq<Row>>
    decreases |rows|
  {
    if rows == [] then Some([])
    else if IsPrimary(rows[0]) then
      match FixFrom(rows[1..], lastEnd)
      case Some(rest) => Some([rows[0]] + rest)
      case None => None
    else if Clashes(rows[0], lastEnd) then None
    else
      var r := Placed(rows[0], lastEnd);
      match FixFrom(rows[1..], End(r))
      case Some(rest) => Some([r] + rest)
      case None => None
  }

  /** `rest` completes `done` to the result of the whole pass. */
  ghost predicate Completes(whole: Option<seq<Row>>, done: seq<Row>, rest: Option<seq<Row>>) {
    match rest
    case Some(more) => whole == Some(done + more)
    case None => whole.None?
  }

  lemma FixStep(todo: seq<Row>, lastEnd: int, whole: Option<seq<Row>>, done: seq<Row>)
    requires todo != [] && Completes(whole, done, FixFrom(todo, lastEnd))
    ensures IsPrimary(todo[0]) ==> Completes(whole, done + [todo[0]], FixFrom(todo[1..], lastEnd))
    ensures !IsPrimary(todo[0]) && Clashes(todo[0], lastEnd) ==> whole.None?
    ensures !IsPrimary(todo[0]) && !Clashes(todo[0], lastEnd) ==>
              var r := Placed(todo[0], lastEnd);
              Completes(whole, done + [r], FixFrom(todo[1..], End(r)))
  {
    hide Placed, IsPrimary, Clashes;
    var r := Placed(todo[0], lastEnd);
    var rest, rest' := FixFrom(todo[1..], lastEnd), FixFrom(todo[1..], End(r));
    if rest.Some? {
      assert done + ([todo[0]] + rest.value) == done + [todo[0]] + rest.value;
    }
    if rest'.Some? {
      assert done + ([r] + rest'.value) == done + [r] + rest'.value;
    }
  }

  /** The pass as written: it updates the rows in place and stops at the first overlap. */
  method FixUp(rows: array<Row>, tableOffset: int) returns (r: Option<LayoutError>)
    modifies rows
    ensures r.None? <==> FixFrom(old(rows[..]), tableOffset + PARTITION_TABLE_SIZE).Some?
    ensures r.None? ==> FixFrom(old(rows[..]), tableOffset + PARTITION_TABLE_SIZE) == Some(rows[..])
  {
    hide Placed, IsPrimary, Clashes, FixFrom, End;
    ghost var start := rows[..];
    ghost var whole := FixFrom(start, tableOffset + PARTITION_TABLE_SIZE);
    var lastEnd := tableOffset + PARTITION_TABLE_SIZE;
    var i := 0;
    assert start[0..] == start && whole.Some? ==> [] + whole.value == whole.value;
    while i < rows.Length
      invariant 0 <= i <= rows.Length && |start| == rows.Length
      invariant rows[i..] == start[i..]
      invariant Completes(whole, rows[..i], FixFrom(start[i..], lastEnd))
    {
      var e := rows[i];
      assert e == rows[i..][0] == start[i..][0] && start[i..][1..] == start[i + 1..];
      ghost var before := rows[..i];
      FixStep(start[i..], lastEnd, whole, before);
      if !IsPrimary(e) {
        if Clashes(e, lastEnd) {
          return Some(Overlap(i));
        }
        rows[i] := Placed(e, lastEnd);
        lastEnd := End(Placed(e, lastEnd));
      }
      assert rows[..i + 1] == before + [rows[i]];
      assert rows[i + 1..] == start[i + 1..];
      i := i + 1;
    }
    NothingLeft(start[i..], lastEnd);
    assert rows[..i] + [] == rows[..];
    return None;
  }

  lemma NothingLeft(rows: seq<Row>, lastEnd: int)
    requires rows == []
    ensures FixFrom(rows, lastEnd) == Some([])
  {}

  predicate AllOrdinary(rows: seq<Row>) {
    forall i | 0 <= i < |rows| :: !IsPrimary(rows[i])
  }

  /** Rows as verify sees them: offsets are set. */
  predicate AllPlaced(rows: seq<Row>) {
    forall i | 0 <= i < |rows| :: rows[i].offset.Some?
  }

  predicate SortedByOffset(rows: seq<Row>)
    requires AllPlaced(rows)
  {
    forall i, j | 0 <= i < j < |rows| :: rows[i].offset.value <= rows[j].offset.value
  }

  /** Rows in increasing order from `from` on, each ending before every later one starts. */
  predicate Ordered(rows: seq<Row>, from: int)
    requires AllPlaced(rows)
  {
    && (forall i | 0 <= i < |rows| :: from <= rows[i].offset.value)
    && SortedByOffset(rows)
    && (forall i, j | 0 <= i < j < |rows| :: End(rows[i]) <= rows[j].offset.value)
  }

  predicate NonNegativeSizes(rows: seq<Row>) {
    forall i | 0 <= i < |rows| :: rows[i].size >= 0
  }

  /** Where row `i` of the result may start: after the table, or where the row before it ends. */
  function PreviousEnd(result: seq<Row>, i: nat, lastEnd: int): int
    requires i <= |result| && AllPlaced(result)
  {
    if i == 0 then lastEnd else End(result[i - 1])
  }

  /** Given offsets are kept; a missing one becomes the least aligned address that is free. */
  lemma {:induction false} OrdinaryOffsets(rows: seq<Row>, lastEnd: int, i: nat, other: int)
    requires AllOrdinary(rows) && FixFrom(rows, lastEnd).Some? && i < |rows|
    ensures var result := FixFrom(rows, lastEnd).value;
            && |result| == |rows|
            && AllPlaced(result)
            && result[i] == Placed(rows[i], PreviousEnd(result, i, lastEnd))
            && PreviousEnd(result, i, lastEnd) <= result[i].offset.value
            && (rows[i].offset.Some? ==> result[i].offset == rows[i].offset)
            && (rows[i].offset.None? ==>
                  var a := if rows[i].kind == 0 then 0x1_0000 else 0x1000;
                  && result[i].offset.value % a == 0
                  && (PreviousEnd(result, i, lastEnd) <= other && other % a == 0 ==> result[i].offset.value <= other))
    decreases |rows|
  {
    var r := Placed(rows[0], lastEnd);
    var result := FixFrom(rows, lastEnd).value;
    var rest := FixFrom(rows[1..], End(r)).value;
    assert !IsPrimary(rows[0]) && result == [r] + rest;
    AlignUpIsLeast(lastEnd, Alignment(rows[0].kind), other);
    hide AlignUp;
    if i > 0 {
      OrdinaryOffsets(rows[1..], End(r), i - 1, other);
    } else if |rows| > 1 {
      OrdinaryOffsets(rows[1..], End(r), 0, other);
    }
  }

  // ----- Where the rows land, read off the rows as given -----

  /** The addresses a row is asked to cover; `stop` lies below `start` when it names an end behind its own start. */
  datatype Span = Span(start: int, stop: int)

  function SpanOf(r: Row, previousStop: int): Span {
    var start := match r.offset case Some(o) => o case None => AlignUp(previousStop, Alignment(r.kind));
    Span(start, if r.size < 0 then -r.size else start + r.size)
  }

  function Spans(rows: seq<Row>, tableEnd: int): (r: seq<Span>)
    ensures |r| == |rows|
    decreases |rows|
  {
    if rows == [] then []
    else
      var first := SpanOf(rows[0], tableEnd);
      [first] + Spans(rows[1..], first.stop)
  }

  function PreviousStop(spans: seq<Span>, i: nat, tableEnd: int): int
    requires i <= |spans|
  {
    if i == 0 then tableEnd else spans[i - 1].stop
  }

  /** Each row starts at or after the end of the one above it. */
  predicate Chained(spans: seq<Span>, tableEnd: int) {
    forall i | 0 <= i < |spans| :: PreviousStop(spans, i, tableEnd) <= spans[i].start
  }

  /** The rows stand where the spans say. */
  predicate Lands(result: seq<Row>, spans: seq<Span>) {
    && |result| == |spans|
    && forall i | 0 <= i < |spans| ::
         !IsPrimary(result[i]) && result[i].offset == Some(spans[i].start) && End(result[i]) == spans[i].stop
  }

  /** The pass accepts ordinary rows exactly when none starts before the end of the one above it, and then puts them there. */
  lemma {:induction false} OrdinaryFollowsSpans(rows: seq<Row>, tableEnd: int)
    requires AllOrdinary(rows)
    ensures FixFrom(rows, tableEnd).Some? <==> Chained(Spans(rows, tableEnd), tableEnd)
    ensures FixFrom(rows, tableEnd).Some? ==> Lands(FixFrom(rows, tableEnd).value, Spans(rows, tableEnd))
    decreases |rows|
  {
    if rows != [] {
      var first := SpanOf(rows[0], tableEnd);
      var rest := Spans(rows[1..], first.stop);
      var placed := Placed(rows[0], tableEnd);
      assert AllOrdinary(rows[1..]) && !IsPrimary(rows[0]) && !IsPrimary(placed);
      AlignUpIsLeast(tableEnd, Alignment(rows[0].kind), 0);
      assert placed.offset == Some(first.start) && End(placed) == first.stop;
      assert Clashes(rows[0], tableEnd) <==> first.start < tableEnd;
      hide AlignUp, Placed, Clashes, IsPrimary, SpanOf, Chained, Lands;
      OrdinaryFollowsSpans(rows[1..], first.stop);
      SpansCons(first, rest, tableEnd);
      if FixFrom(rows[1..], first.stop).Some? {
        LandsCons(placed, FixFrom(rows[1..], first.stop).value, first, rest);
      }
    }
  }

  lemma LandsCons(r: Row, result: seq<Row>, first: Span, rest: seq<Span>)
    requires Lands(result, rest) && !IsPrimary(r) && r.offset == Some(first.start) && End(r) == first.stop
    ensures Lands([r] + result, [first] + rest)
  {
    hide End, IsPrimary;
  }

  lemma SpansCons(first: Span, rest: seq<Span>, tableEnd: int)
    ensures Chained([first] + rest, tableEnd) <==> tableEnd <= first.start && Chained(rest, first.stop)
  {
    var spans := [first] + rest;
    forall i | 0 <= i < |rest|
      ensures PreviousStop(spans, i + 1, tableEnd) == PreviousStop(rest, i, first.stop) && spans[i + 1] == rest[i]
    {}
    if Chained(spans, tableEnd) {
      assert PreviousStop(spans, 0, tableEnd) <= spans[0].start;
      forall i | 0 <= i < |rest|
        ensures PreviousStop(rest, i, first.stop) <= rest[i].start
      {
        assert PreviousStop(spans, i + 1, tableEnd) <= spans[i + 1].start;
      }
    }
  }

  /** No row that names an end behind its own start is followed by one that starts behind it too. */
  predicate NeverStepsBack(spans: seq<Span>) {
    forall i | 0 < i < |spans| :: spans[i - 1].stop < spans[i - 1].start ==> spans[i - 1].start <= spans[i].start
  }

  lemma ChainStep(spans: seq<Span>, tableEnd: int, i: nat)
    requires Chained(spans, tableEnd) && i < |spans|
    ensures PreviousStop(spans, i, tableEnd) <= spans[i].start
    ensures i > 0 && NeverStepsBack(spans) ==> spans[i - 1].start <= spans[i].start
  {}

  lemma {:induction false} StartsIncrease(spans: seq<Span>, tableEnd: int, i: nat, j: nat)
    requires Chained(spans, tableEnd) && NeverStepsBack(spans) && i <= j < |spans|
    ensures tableEnd <= spans[i].start <= spans[j].start
    ensures i < j ==> spans[i].stop <= spans[j].start
    decreases j, j - i
  {
    hide Chained, NeverStepsBack;
    ChainStep(spans, tableEnd, j);
    if i + 1 < j {
      StartsIncrease(spans, tableEnd, i, j - 1);
    } else if j > 0 {
      StartsIncrease(spans, tableEnd, j - 1, j - 1);
    }
  }

  /**
   Ordinary rows that the pass accepts end up one after another, without overlap, if and
   only if no row as given steps back behind one whose named end lies before its start.
   */
  lemma OrdinaryIsOrderedIff(rows: seq<Row>, tableEnd: int)
    requires AllOrdinary(rows) && FixFrom(rows, tableEnd).Some?
    ensures |FixFrom(rows, tableEnd).value| == |rows| && AllPlaced(FixFrom(rows, tableEnd).value)
    ensures Ordered(FixFrom(rows, tableEnd).value, tableEnd) <==> NeverStepsBack(Spans(rows, tableEnd))
  {
    OrdinaryFollowsSpans(rows, tableEnd);
    hide FixFrom, Spans, End, IsPrimary, Chained;
    var result, spans := FixFrom(rows, tableEnd).value, Spans(rows, tableEnd);
    if NeverStepsBack(spans) {
      hide NeverStepsBack;
      forall i, j | 0 <= i <= j < |rows|
        ensures tableEnd <= result[i].offset.value <= result[j].offset.value
        ensures i < j ==> End(result[i]) <= result[j].offset.value
      {
        StartsIncrease(spans, tableEnd, i, j);
      }
    } else {
      var i :| 0 < i < |spans| && spans[i].start < spans[i - 1].start;
      assert result[i].offset.value < result[i - 1].offset.value;
    }
  }

  /** In particular they do when no final size is negative. */
  lemma OrdinaryIsOrdered(rows: seq<Row>, tableEnd: int)
    requires AllOrdinary(rows) && FixFrom(rows, tableEnd).Some?
    requires NonNegativeSizes(FixFrom(rows, tableEnd).value)
    ensures |FixFrom(rows, tableEnd).value| == |rows| && AllPlaced(FixFrom(rows, tableEnd).value)
    ensures Ordered(FixFrom(rows, tableEnd).value, tableEnd)
  {
    OrdinaryIsOrderedIff(rows, tableEnd);
    OrdinaryFollowsSpans(rows, tableEnd);
    hide FixFrom, Spans, IsPrimary, Ordered;
    var result, spans := FixFrom(rows, tableEnd).value, Spans(rows, tableEnd);
    assert forall i | 0 <= i < |spans| :: spans[i].stop == spans[i].start + result[i].size;
  }

  // ----- Primary rows -----

  function Ordinary(rows: seq<Row>): (r: seq<Row>)
    ensures AllOrdinary(r)
  {
    if rows == [] then []
    else if IsPrimary(rows[0]) then Ordinary(rows[1..])
    else [rows[0]] + Ordinary(rows[1..])
  }

  /** Primary bootloader and partition-table rows are passed over: the other rows land as if those were not there. */
  lemma {:induction false} PrimaryRowsAreTransparent(rows: seq<Row>, tableEnd: int)
    ensures FixFrom(Ordinary(rows), tableEnd) ==
              match FixFrom(rows, tableEnd) case Some(result) => Some(Ordinary(result)) case None => None
    decreases |rows|
  {
    if rows != [] {
      OrdinaryCons(rows[0], rows[1..]);
      assert [rows[0]] + rows[1..] == rows;
      if IsPrimary(rows[0]) {
        hide Ordinary;
        PrimaryRowsAreTransparent(rows[1..], tableEnd);
        if FixFrom(rows[1..], tableEnd).Some? {
          OrdinaryCons(rows[0], FixFrom(rows[1..], tableEnd).value);
          assert FixFrom(rows, tableEnd) == Some([rows[0]] + FixFrom(rows[1..], tableEnd).value);
        }
      } else {
        var r := Placed(rows[0], tableEnd);
        assert IsPrimary(r) == IsPrimary(rows[0]);
        hide Placed, IsPrimary, End, Ordinary;
        PrimaryRowsAreTransparent(rows[1..], End(r));
        assert Ordinary(rows)[1..] == Ordinary(rows[1..]);
        if FixFrom(rows[1..], End(r)).Some? {
          OrdinaryCons(r, FixFrom(rows[1..], End(r)).value);
        }
      }
    }
  }

  lemma OrdinaryCons(r: Row, rest: seq<Row>)
    ensures Ordinary([r] + rest) == if IsPrimary(r) then Ordinary(rest) else [r] + Ordinary(rest)
  {
    assert ([r] + rest)[1..] == rest;
  }

  // ----- verify's overlap check -----

  function Insert(r: Row, rows: seq<Row>): (s: seq<Row>)
    requires r.offset.Some? && AllPlaced(rows)
    ensures AllPlaced(s) && |s| == |rows| + 1
  {
    if rows == [] || r.offset.value <= rows[0].offset.value then [r] + rows
    else [rows[0]] + Insert(r, rows[1..])
  }

  /** The stable sort by offset. */
  function Sorted(rows: seq<Row>): (s: seq<Row>)
    requires AllPlaced(rows)
    ensures AllPlaced(s) && |s| == |rows|
  {
    if rows == [] then [] else Insert(rows[0], Sorted(rows[1..]))
  }

  predicate TooLow(r: Row, tableEnd: int) {
    r.offset.Some? && r.offset.value < tableEnd && !IsPrimary(r)
  }

  predicate AdjacentOk(rows: seq<Row>, tableEnd: int)
    requires AllPlaced(rows)
  {
    && (forall i | 0 <= i < |rows| :: !TooLow(rows[i], tableEnd))
    && (forall i | 0 < i < |rows| :: End(rows[i - 1]) <= rows[i].offset.value)
  }

  /** The loop of verify over the sorted rows. */
  method VerifyOverlaps(rows: seq<Row>, tableOffset: int) returns (ok: bool)
    requires AllPlaced(rows)
    ensures ok == AdjacentOk(Sorted(rows), tableOffset + PARTITION_TABLE_SIZE)
  {
    var sorted := Sorted(rows);
    var last: Option<Row> := None;
    for i := 0 to |sorted|
      invariant forall j | 0 <= j < i :: !TooLow(sorted[j], tableOffset + PARTITION_TABLE_SIZE)
      invariant forall j | 0 < j < i :: End(sorted[j - 1]) <= sorted[j].offset.value
      invariant last == if i == 0 then None else Some(sorted[i - 1])
    {
      var p := sorted[i];
      if p.offset.value < tableOffset + PARTITION_TABLE_SIZE {
        if !IsPrimary(p) {
          return false;
        }
      }
      if last.Some? && p.offset.value < last.value.offset.value + last.value.size {
        return false;
      }
      last := Some(p);
    }
    return true;
  }

  lemma {:induction false} InsertSorts(r: Row, rows: seq<Row>)
    requires r.offset.Some? && AllPlaced(rows) && SortedByOffset(rows)
    ensures SortedByOffset(Insert(r, rows))
    ensures forall x :: x in Insert(r, rows) <==> x == r || x in rows
    decreases |rows|
  {
    if !(rows == [] || r.offset.value <= rows[0].offset.value) {
      InsertSorts(r, rows[1..]);
      var rest := Insert(r, rows[1..]);
      assert forall x :: x in rows <==> x == rows[0] || x in rows[1..];
      forall j | 0 <= j < |rest|
        ensures rows[0].offset.value <= rest[j].offset.value
      {
        assert rest[j] in rest;
      }
    }
  }

  lemma {:induction false} SortedIsSorted(rows: seq<Row>)
    requires AllPlaced(rows)
    ensures SortedByOffset(Sorted(rows))
    decreases |rows|
  {
    if rows != [] {
      SortedIsSorted(rows[1..]);
      InsertSorts(rows[0], Sorted(rows[1..]));
    }
  }

  // ----- What the check of neighbours amounts to -----

  /** Two rows, the first listed earlier: the one that starts first, or on a tie the first listed, ends before the other. */
  predicate InOrder(a: Row, b: Row)
    requires a.offset.Some? && b.offset.Some?
  {
    if a.offset.value <= b.offset.value then End(a) <= b.offset.value else End(b) <= a.offset.value
  }

  predicate FirstInOrder(r: Row, rows: seq<Row>)
    requires r.offset.Some? && AllPlaced(rows)
  {
    forall j | 0 <= j < |rows| :: InOrder(r, rows[j])
  }

  predicate AllInOrder(rows: seq<Row>)
    requires AllPlaced(rows)
  {
    forall i, j | 0 <= i < j < |rows| :: InOrder(rows[i], rows[j])
  }

  predicate NoneTooLow(rows: seq<Row>, tableEnd: int) {
    forall i | 0 <= i < |rows| :: !TooLow(rows[i], tableEnd)
  }

  lemma ConsInOrder(x: Row, r: Row, rows: seq<Row>, tableEnd: int)
    requires x.offset.Some? && r.offset.Some? && AllPlaced(rows)
    ensures var all := [r] + rows;
            && AllPlaced(all)
            && (FirstInOrder(x, all) <==> InOrder(x, r) && FirstInOrder(x, rows))
            && (AllInOrder(all) <==> FirstInOrder(r, rows) && AllInOrder(rows))
            && (NoneTooLow(all, tableEnd) <==> !TooLow(r, tableEnd) && NoneTooLow(rows, tableEnd))
  {
    hide InOrder, TooLow;
    var all := [r] + rows;
    assert all[0] == r && forall i | 0 < i < |all| :: all[i] == rows[i - 1];
    if FirstInOrder(x, all) {
      forall i | 0 <= i < |rows|
        ensures InOrder(x, rows[i])
      {
        assert InOrder(x, all[i + 1]);
      }
    }
    if NoneTooLow(all, tableEnd) {
      forall i | 0 <= i < |rows|
        ensures !TooLow(rows[i], tableEnd)
      {
        assert !TooLow(all[i + 1], tableEnd);
      }
    }
    hide FirstInOrder, NoneTooLow;
    ConsAllInOrder(r, rows);
  }

  lemma ConsAllInOrder(r: Row, rows: seq<Row>)
    requires r.offset.Some? && AllPlaced(rows)
    ensures AllPlaced([r] + rows)
    ensures AllInOrder([r] + rows) <==> FirstInOrder(r, rows) && AllInOrder(rows)
  {
    hide InOrder;
    var all := [r] + rows;
    assert all[0] == r && forall i | 0 < i < |all| :: all[i] == rows[i - 1];
    if AllInOrder(all) {
      forall j | 0 <= j < |rows|
        ensures InOrder(r, rows[j])
      {
        assert InOrder(all[0], all[j + 1]);
      }
      forall i, j | 0 <= i < j < |rows|
        ensures InOrder(rows[i], rows[j])
      {
        assert InOrder(all[i + 1], all[j + 1]);
      }
    }
  }

  lemma {:induction false} InsertInOrder(x: Row, r: Row, rows: seq<Row>, tableEnd: int)
    requires x.offset.Some? && r.offset.Some? && AllPlaced(rows)
    ensures FirstInOrder(x, Insert(r, rows)) <==> InOrder(x, r) && FirstInOrder(x, rows)
    ensures NoneTooLow(Insert(r, rows), tableEnd) <==> !TooLow(r, tableEnd) && NoneTooLow(rows, tableEnd)
    ensures AllInOrder(Insert(r, rows)) <==> FirstInOrder(r, rows) && AllInOrder(rows)
    decreases |rows|
  {
    if rows == [] || r.offset.value <= rows[0].offset.value {
      ConsInOrder(x, r, rows, tableEnd);
    } else {
      var s, rest := rows[0], rows[1..];
      assert rows == [s] + rest;
      assert InOrder(s, r) <==> InOrder(r, s);
      InsertInOrder(x, r, rest, tableEnd);
      InsertInOrder(s, r, rest, tableEnd);
      ConsInOrder(x, s, Insert(r, rest), tableEnd);
      ConsInOrder(x, s, rest, tableEnd);
      ConsInOrder(r, s, rest, tableEnd);
      hide InOrder, FirstInOrder, AllInOrder, NoneTooLow, TooLow;
    }
  }

  /** Sorting changes neither which rows are too low nor which pairs are in order. */
  lemma {:induction false} SortedInOrder(x: Row, rows: seq<Row>, tableEnd: int)
    requires x.offset.Some? && AllPlaced(rows)
    ensures FirstInOrder(x, Sorted(rows)) <==> FirstInOrder(x, rows)
    ensures AllInOrder(Sorted(rows)) <==> AllInOrder(rows)
    ensures NoneTooLow(Sorted(rows), tableEnd) <==> NoneTooLow(rows, tableEnd)
    decreases |rows|
  {
    if rows != [] {
      hide InOrder, FirstInOrder, AllInOrder, NoneTooLow, TooLow, Insert;
      var r, rest := rows[0], rows[1..];
      assert rows == [r] + rest;
      SortedInOrder(x, rest, tableEnd);
      SortedInOrder(r, rest, tableEnd);
      InsertInOrder(x, r, Sorted(rest), tableEnd);
      ConsInOrder(x, r, rest, tableEnd);
    }
  }

  lemma SortedNeighbours(rows: seq<Row>, tableEnd: int)
    requires AllPlaced(rows) && SortedByOffset(rows)
    ensures AdjacentOk(rows, tableEnd) <==> NoneTooLow(rows, tableEnd) && AllInOrder(rows)
  {
    hide TooLow, End;
    if AdjacentOk(rows, tableEnd) {
      forall i, j | 0 <= i < j < |rows|
        ensures InOrder(rows[i], rows[j])
      {
        assert End(rows[i + 1 - 1]) <= rows[i + 1].offset.value;
        assert i + 1 < j ==> rows[i + 1].offset.value <= rows[j].offset.value;
      }
    }
    if AllInOrder(rows) {
      forall i | 0 < i < |rows|
        ensures End(rows[i - 1]) <= rows[i].offset.value
      {
        assert InOrder(rows[i - 1], rows[i]) && rows[i - 1].offset.value <= rows[i].offset.value;
      }
    }
  }

  /** Whatever the sizes, checking neighbours of the sorted list decides every pair of the list as given. */
  lemma VerifyDecidesPairs(rows: seq<Row>, tableEnd: int)
    requires AllPlaced(rows)
    ensures AdjacentOk(Sorted(rows), tableEnd) <==> NoneTooLow(rows, tableEnd) && AllInOrder(rows)
  {
    hide AdjacentOk, AllInOrder, NoneTooLow, Sorted, SortedByOffset;
    SortedIsSorted(rows);
    SortedNeighbours(Sorted(rows), tableEnd);
    if rows != [] {
      SortedInOrder(rows[0], rows, tableEnd);
    } else {
      SortedInOrder(Row(0, 0, Some(0), 0), rows, tableEnd);
    }
  }

  // ----- Address sets -----

  predicate Contains(r: Row, address: int) {
    r.offset.Some? && r.offset.value <= address < r.offset.value + r.size
  }

  /** No address lies in both rows. */
  ghost predicate Disjoint(a: Row, b: Row) {
    forall address: int :: !(Contains(a, address) && Contains(b, address))
  }

  ghost predicate PairwiseDisjoint(rows: seq<Row>) {
    forall i, j | 0 <= i < j < |rows| :: Disjoint(rows[i], rows[j])
  }

  lemma InOrderIsDisjoint(a: Row, b: Row)
    requires a.offset.Some? && b.offset.Some?
    ensures InOrder(a, b) ==> Disjoint(a, b)
    ensures a.size > 0 && b.size > 0 && Disjoint(a, b) ==> InOrder(a, b)
  {
    if a.size > 0 && b.size > 0 && !InOrder(a, b) {
      var meet := if a.offset.value <= b.offset.value then b.offset.value else a.offset.value;
      assert Contains(a, meet) && Contains(b, meet);
    }
  }

  lemma InOrderRowsAreDisjoint(rows: seq<Row>)
    requires AllPlaced(rows) && AllInOrder(rows)
    ensures PairwiseDisjoint(rows)
  {
    hide InOrder, Disjoint;
    forall i, j | 0 <= i < j < |rows|
      ensures Disjoint(rows[i], rows[j])
    {
      InOrderIsDisjoint(rows[i], rows[j]);
    }
  }

  /** Whatever the sizes, a list that passes verify has no address in two of its rows. */
  lemma VerifiedIsDisjoint(rows: seq<Row>, tableEnd: int)
    requires AllPlaced(rows) && AdjacentOk(Sorted(rows), tableEnd)
    ensures PairwiseDisjoint(rows)
  {
    hide AllInOrder, PairwiseDisjoint, AdjacentOk, Sorted, NoneTooLow;
    VerifyDecidesPairs(rows, tableEnd);
    InOrderRowsAreDisjoint(rows);
  }

  predicate PositiveSizes(rows: seq<Row>) {
    forall i | 0 <= i < |rows| :: rows[i].size > 0
  }

  /** With positive sizes the neighbour check is exact: it passes if and only if no two rows share an address. */
  lemma VerifyIsExact(rows: seq<Row>, tableEnd: int)
    requires AllPlaced(rows) && PositiveSizes(rows)
    ensures AdjacentOk(Sorted(rows), tableEnd) <==> NoneTooLow(rows, tableEnd) && PairwiseDisjoint(rows)
  {
    VerifyDecidesPairs(rows, tableEnd);
    hide InOrder, Disjoint, AdjacentOk, Sorted, NoneTooLow;
    forall i, j | 0 <= i < j < |rows|
      ensures InOrder(rows[i], rows[j]) <==> Disjoint(rows[i], rows[j])
    {
      InOrderIsDisjoint(rows[i], rows[j]);
    }
  }

  // ----- When the fix-up's output passes verify -----

  /** Row `j` starts behind an earlier row. */
  predicate StepsBehind(spans: seq<Span>, j: nat)
    requires j < |spans|
  {
    exists i | 0 <= i < j :: spans[j].start < spans[i].start
  }

  /** Row `j` clears the partition table, starts after the earlier rows below it and ends before those above it. */
  predicate FitsBetween(spans: seq<Span>, j: nat, tableEnd: int)
    requires j < |spans|
  {
    && tableEnd <= spans[j].start
    && forall i | 0 <= i < j :: SpanInOrder(spans[i], spans[j])
  }

  predicate SpanInOrder(a: Span, b: Span) {
    if a.start <= b.start then a.stop <= b.start else b.stop <= a.start
  }

  /** A row that starts at or after all earlier starts needs no check. */
  lemma {:induction false} ForwardFits(spans: seq<Span>, tableEnd: int, j: nat)
    requires Chained(spans, tableEnd) && j < |spans| && !StepsBehind(spans, j)
    ensures FitsBetween(spans, j, tableEnd)
  {
    assert PreviousStop(spans, 0, tableEnd) <= spans[0].start;
    forall i | 0 <= i < j
      ensures SpanInOrder(spans[i], spans[j])
    {
      assert PreviousStop(spans, i + 1, tableEnd) <= spans[i + 1].start;
    }
  }

  /**
   A table of ordinary rows that the fix-up accepts passes verify's overlap check if and
   only if each row that, as given, starts behind an earlier one fits into a gap there.
   */
  lemma OrdinaryPassesVerifyIff(rows: seq<Row>, tableEnd: int)
    requires AllOrdinary(rows) && FixFrom(rows, tableEnd).Some?
    ensures AllPlaced(FixFrom(rows, tableEnd).value)
    ensures var spans := Spans(rows, tableEnd);
            AdjacentOk(Sorted(FixFrom(rows, tableEnd).value), tableEnd) <==>
            forall j | 0 <= j < |rows| && StepsBehind(spans, j) :: FitsBetween(spans, j, tableEnd)
  {
    OrdinaryFollowsSpans(rows, tableEnd);
    var result, spans := FixFrom(rows, tableEnd).value, Spans(rows, tableEnd);
    VerifyDecidesPairs(result, tableEnd);
    hide FixFrom, Spans, AdjacentOk, Sorted, IsPrimary, StepsBehind;
    forall i, j | 0 <= i < j < |rows|
      ensures InOrder(result[i], result[j]) <==> SpanInOrder(spans[i], spans[j])
    {}
    forall j | 0 <= j < |rows|
      ensures !TooLow(result[j], tableEnd) <==> tableEnd <= spans[j].start
      ensures !StepsBehind(spans, j) ==> FitsBetween(spans, j, tableEnd)
    {
      if !StepsBehind(spans, j) {
        ForwardFits(spans, tableEnd, j);
      }
    }
    hide InOrder, TooLow, SpanInOrder, End, Chained;
    PairsByRow(result, spans, tableEnd);
  }

  lemma PairsByRow(result: seq<Row>, spans: seq<Span>, tableEnd: int)
    requires AllPlaced(result) && |result| == |spans|
    requires forall i, j | 0 <= i < j < |result| :: InOrder(result[i], result[j]) <==> SpanInOrder(spans[i], spans[j])
    requires forall j | 0 <= j < |result| :: !TooLow(result[j], tableEnd) <==> tableEnd <= spans[j].start
    ensures NoneTooLow(result, tableEnd) && AllInOrder(result) <==> forall j | 0 <= j < |spans| :: FitsBetween(spans, j, tableEnd)
  {
    hide InOrder, TooLow, SpanInOrder;
    if forall j | 0 <= j < |spans| :: FitsBetween(spans, j, tableEnd) {
      forall i, j | 0 <= i < j < |result|
        ensures InOrder(result[i], result[j])
      {
        assert FitsBetween(spans, j, tableEnd);
      }
      forall j | 0 <= j < |result|
        ensures !TooLow(result[j], tableEnd)
      {
        assert FitsBetween(spans, j, tableEnd);
      }
    }
  }

  /** Rows the fix-up leaves in order pass verify's overlap check and share no address. */
  lemma OrdinaryPassesVerify(rows: seq<Row>, tableEnd: int)
    requires AllOrdinary(rows) && FixFrom(rows, tableEnd).Some?
    requires NonNegativeSizes(FixFrom(rows, tableEnd).value) || NeverStepsBack(Spans(rows, tableEnd))
    ensures var result := FixFrom(rows, tableEnd).value;
            AllPlaced(result) && AdjacentOk(Sorted(result), tableEnd) && PairwiseDisjoint(result)
  {
    var result, spans := FixFrom(rows, tableEnd).value, Spans(rows, tableEnd);
    OrdinaryIsOrderedIff(rows, tableEnd);
    if NonNegativeSizes(result) {
      OrdinaryIsOrdered(rows, tableEnd);
    }
    OrdinaryFollowsSpans(rows, tableEnd);
    OrdinaryPassesVerifyIff(rows, tableEnd);
    hide FixFrom, Spans, AdjacentOk, Sorted, IsPrimary, PairwiseDisjoint, FitsBetween, Ordered, End;
    forall j | 0 <= j < |rows|
      ensures !StepsBehind(spans, j)
    {
      forall i | 0 <= i < j
        ensures spans[i].start <= spans[j].start
      {
        StartsIncrease(spans, tableEnd, i, j);
      }
    }
    VerifiedIsDisjoint(result, tableEnd);
  }

  // ----- Any table: the rows between primary ones -----

  /** The ordinary rows of an accepted table land where the given ordinary rows say, each after the end of the one above it. */
  lemma FixUpFollowsSpans(rows: seq<Row>, tableEnd: int)
    ensures FixFrom(rows, tableEnd).Some? <==> Chained(Spans(Ordinary(rows), tableEnd), tableEnd)
    ensures FixFrom(rows, tableEnd).Some? ==>
              Lands(Ordinary(FixFrom(rows, tableEnd).value), Spans(Ordinary(rows), tableEnd))
  {
    PrimaryRowsAreTransparent(rows, tableEnd);
    OrdinaryFollowsSpans(Ordinary(rows), tableEnd);
    hide FixFrom, Ordinary, Spans, Chained, Lands;
  }

  /** Given offsets are kept; a missing one becomes the least aligned address after the ordinary row above it. */
  lemma OffsetsAreLeast(rows: seq<Row>, tableEnd: int, i: nat, other: int)
    requires FixFrom(rows, tableEnd).Some? && i < |Ordinary(rows)|
    ensures var given, result := Ordinary(rows), Ordinary(FixFrom(rows, tableEnd).value);
            && |result| == |given| && AllPlaced(result)
            && result[i] == Placed(given[i], PreviousEnd(result, i, tableEnd))
            && PreviousEnd(result, i, tableEnd) <= result[i].offset.value
            && (given[i].offset.Some? ==> result[i].offset == given[i].offset)
            && (given[i].offset.None? ==>
                  var a := if given[i].kind == 0 then 0x1_0000 else 0x1000;
                  && result[i].offset.value % a == 0
                  && (PreviousEnd(result, i, tableEnd) <= other && other % a == 0 ==> result[i].offset.value <= other))
  {
    PrimaryRowsAreTransparent(rows, tableEnd);
    OrdinaryOffsets(Ordinary(rows), tableEnd, i, other);
    hide FixFrom, Ordinary, Placed, AllPlaced, PreviousEnd, Alignment;
  }

  /**
   The ordinary rows of an accepted table end up one after another, without overlap, if and
   only if none of them, as given, steps back behind one whose named end lies before its start.
   */
  lemma FixUpIsOrderedIff(rows: seq<Row>, tableEnd: int)
    requires FixFrom(rows, tableEnd).Some?
    ensures var result := Ordinary(FixFrom(rows, tableEnd).value);
            AllPlaced(result) && (Ordered(result, tableEnd) <==> NeverStepsBack(Spans(Ordinary(rows), tableEnd)))
  {
    PrimaryRowsAreTransparent(rows, tableEnd);
    OrdinaryIsOrderedIff(Ordinary(rows), tableEnd);
    hide FixFrom, Ordinary, Spans, Ordered, NeverStepsBack, AllPlaced;
  }

  /** In particular they do when no final size is negative. */
  lemma FixUpIsOrdered(rows: seq<Row>, tableEnd: int)
    requires FixFrom(rows, tableEnd).Some? && NonNegativeSizes(Ordinary(FixFrom(rows, tableEnd).value))
    ensures var result := Ordinary(FixFrom(rows, tableEnd).value);
            |result| == |Ordinary(rows)| && AllPlaced(result) && Ordered(result, tableEnd)
  {
    PrimaryRowsAreTransparent(rows, tableEnd);
    OrdinaryIsOrdered(Ordinary(rows), tableEnd);
    hide FixFrom, Ordinary, Ordered, AllPlaced, NonNegativeSizes;
  }

  /** Each primary row ends before, or starts after, every other row. */
  predicate PrimariesInOrder(rows: seq<Row>)
    requires AllPlaced(rows)
  {
    forall i, j | 0 <= i < j < |rows| && (IsPrimary(rows[i]) || IsPrimary(rows[j])) :: InOrder(rows[i], rows[j])
  }

  /** Row `r`, listed before `rows`, is in order with those of them that are ordinary, and with those that are primary. */
  lemma {:induction false} FirstSplits(r: Row, rows: seq<Row>)
    requires r.offset.Some? && AllPlaced(rows)
    ensures AllPlaced(Ordinary(rows))
    ensures FirstInOrder(r, rows) <==>
            && FirstInOrder(r, Ordinary(rows))
            && forall j | 0 <= j < |rows| && IsPrimary(rows[j]) :: InOrder(r, rows[j])
    decreases |rows|
  {
    hide InOrder, IsPrimary;
    if rows != [] {
      var x, rest := rows[0], rows[1..];
      assert rows == [x] + rest;
      FirstSplits(r, rest);
      ConsInOrder(r, x, rest, 0);
      if !IsPrimary(x) {
        ConsInOrder(r, x, Ordinary(rest), 0);
      }
      if forall j | 0 <= j < |rows| && IsPrimary(rows[j]) :: InOrder(r, rows[j]) {
        assert forall j | 0 <= j < |rest| :: rest[j] == rows[j + 1];
      }
      assert forall j | 0 < j < |rows| :: rows[j] == rest[j - 1];
    }
  }

  lemma {:induction false} OrderSplits(rows: seq<Row>, tableEnd: int)
    requires AllPlaced(rows)
    ensures AllPlaced(Ordinary(rows))
    ensures NoneTooLow(rows, tableEnd) <==> NoneTooLow(Ordinary(rows), tableEnd)
    ensures AllInOrder(rows) <==> AllInOrder(Ordinary(rows)) && PrimariesInOrder(rows)
    decreases |rows|
  {
    if rows != [] {
      var x, rest := rows[0], rows[1..];
      assert rows == [x] + rest;
      assert IsPrimary(x) ==> !TooLow(x, tableEnd);
      OrderSplits(rest, tableEnd);
      FirstSplits(x, rest);
      ConsInOrder(x, x, rest, tableEnd);
      if !IsPrimary(x) {
        ConsInOrder(x, x, Ordinary(rest), tableEnd);
      }
      hide InOrder, IsPrimary, TooLow, FirstInOrder, AllInOrder, NoneTooLow;
      PrimariesCons(x, rest);
    }
  }

  lemma PrimariesCons(x: Row, rest: seq<Row>)
    requires x.offset.Some? && AllPlaced(rest)
    ensures AllPlaced([x] + rest)
    ensures PrimariesInOrder([x] + rest) <==>
            && PrimariesInOrder(rest)
            && (if IsPrimary(x) then FirstInOrder(x, rest)
                else forall j | 0 <= j < |rest| && IsPrimary(rest[j]) :: InOrder(x, rest[j]))
  {
    hide InOrder, IsPrimary;
    var rows := [x] + rest;
    assert rows[0] == x && forall j | 0 < j < |rows| :: rows[j] == rest[j - 1];
    if PrimariesInOrder(rows) {
      forall j | 0 <= j < |rest| && (IsPrimary(x) || IsPrimary(rest[j]))
        ensures InOrder(x, rest[j])
      {
        assert rows[j + 1] == rest[j] && InOrder(rows[0], rows[j + 1]);
      }
      forall i, j | 0 <= i < j < |rest| && (IsPrimary(rest[i]) || IsPrimary(rest[j]))
        ensures InOrder(rest[i], rest[j])
      {
        assert rows[i + 1] == rest[i] && rows[j + 1] == rest[j] && InOrder(rows[i + 1], rows[j + 1]);
      }
    }
  }

  /**
   An accepted table passes verify's overlap check if and only if each ordinary row that,
   as given, starts behind an earlier one fits into a gap there, and no primary row overlaps
   another row. (Primary rows must have offsets: verify sorts by them.)
   */
  lemma FixUpPassesVerifyIff(rows: seq<Row>, tableEnd: int)
    requires FixFrom(rows, tableEnd).Some? && AllPlaced(FixFrom(rows, tableEnd).value)
    ensures var result, spans := FixFrom(rows, tableEnd).value, Spans(Ordinary(rows), tableEnd);
            AdjacentOk(Sorted(result), tableEnd) <==>
            && (forall j | 0 <= j < |spans| && StepsBehind(spans, j) :: FitsBetween(spans, j, tableEnd))
            && PrimariesInOrder(result)
  {
    var result, given := FixFrom(rows, tableEnd).value, Ordinary(rows);
    PrimaryRowsAreTransparent(rows, tableEnd);
    OrdinaryPassesVerifyIff(given, tableEnd);
    OrderSplits(result, tableEnd);
    VerifyDecidesPairs(result, tableEnd);
    VerifyDecidesPairs(Ordinary(result), tableEnd);
    hide FixFrom, Ordinary, AdjacentOk, Sorted, AllInOrder, NoneTooLow, PrimariesInOrder, StepsBehind, FitsBetween;
  }

  /** Then no address lies in two of its rows; and an orderly table whose primary rows overlap none always passes. */
  lemma FixUpPassesVerify(rows: seq<Row>, tableEnd: int)
    requires FixFrom(rows, tableEnd).Some? && AllPlaced(FixFrom(rows, tableEnd).value)
    requires PrimariesInOrder(FixFrom(rows, tableEnd).value)
    requires NonNegativeSizes(Ordinary(FixFrom(rows, tableEnd).value)) || NeverStepsBack(Spans(Ordinary(rows), tableEnd))
    ensures var result := FixFrom(rows, tableEnd).value;
            AdjacentOk(Sorted(result), tableEnd) && PairwiseDisjoint(result)
  {
    var result, given := FixFrom(rows, tableEnd).value, Ordinary(rows);
    PrimaryRowsAreTransparent(rows, tableEnd);
    OrdinaryPassesVerify(given, tableEnd);
    OrderSplits(result, tableEnd);
    VerifyDecidesPairs(result, tableEnd);
    VerifyDecidesPairs(Ordinary(result), tableEnd);
    hide FixFrom, Ordinary, AdjacentOk, Sorted, AllInOrder, NoneTooLow, PrimariesInOrder, PairwiseDisjoint;
    VerifiedIsDisjoint(result, tableEnd);
  }

  // ----- Examples -----

  /** Primary rows are the bootloader (type 2) and partition table (type 3) rows of subtype 0: those may lie below the table, others may not. */
  lemma PrimaryRowsByCode(kind: int, subtype: int)
    ensures var row := Row(kind, subtype, Some(0x1000), 0x1000);
            FixFrom([row], 0x9000) == if (kind == 2 || kind == 3) && subtype == 0 then Some([row]) else None
    ensures var row := Row(kind, subtype, Some(0x1000), 0x1000);
            AdjacentOk([row], 0x9000) <==> (kind == 2 || kind == 3) && subtype == 0
  {
    var row := Row(kind, subtype, Some(0x1000), 0x1000);
    assert [row][1..] == [] && [row] + [] == [row] && [row][0] == row;
  }

  /** A row that steps back does not always fail: this table is out of order and still passes verify. */
  lemma SteppingBackCanPass()
    ensures var rows := [Row(1, 2, Some(0x1_0000), -0xA000), Row(1, 1, Some(0xA000), 0x1000)];
            && AllOrdinary(rows) && FixFrom(rows, 0x9000).Some? && !NeverStepsBack(Spans(rows, 0x9000))
            && AllPlaced(FixFrom(rows, 0x9000).value) && AdjacentOk(Sorted(FixFrom(rows, 0x9000).value), 0x9000)
  {
    TwoRowSpans(0x1000);
    var rows := [Row(1, 2, Some(0x1_0000), -0xA000), Row(1, 1, Some(0xA000), 0x1000)];
    OrdinaryFollowsSpans(rows, 0x9000);
    OrdinaryPassesVerifyIff(rows, 0x9000);
    hide FixFrom, Spans, AdjacentOk, Sorted;
    var spans := Spans(rows, 0x9000);
    assert spans[1].start < spans[1 - 1].start;
    assert SpanInOrder(spans[0], spans[1]);
  }

  lemma TwoRowSpans(size: nat)
    ensures Spans([Row(1, 2, Some(0x1_0000), -0xA000), Row(1, 1, Some(0xA000), size)], 0x9000) ==
              [Span(0x1_0000, 0xA000), Span(0xA000, 0xA000 + size)]
  {
    var rows := [Row(1, 2, Some(0x1_0000), -0xA000), Row(1, 1, Some(0xA000), size)];
    assert rows[1..] == [rows[1]] && [rows[1]][1..] == [];
    assert Spans([rows[1]], 0xA000) == [Span(0xA000, 0xA000 + size)] + [];
  }

  /** Without that condition the fix-up can produce overlapping rows that verify rejects. */
  lemma NegativeSizeBreaksLayout()
    ensures var rows := [Row(1, 2, Some(0x1_0000), -0xA000), Row(1, 1, Some(0xA000), 0x1_0000)];
            && AllOrdinary(rows) && FixFrom(rows, 0x9000).Some?
            && AllPlaced(FixFrom(rows, 0x9000).value)
            && !Ordered(FixFrom(rows, 0x9000).value, 0x9000)
            && !AdjacentOk(Sorted(FixFrom(rows, 0x9000).value), 0x9000)
  {
    TwoRowSpans(0x1_0000);
    var rows := [Row(1, 2, Some(0x1_0000), -0xA000), Row(1, 1, Some(0xA000), 0x1_0000)];
    OrdinaryFollowsSpans(rows, 0x9000);
    OrdinaryIsOrderedIff(rows, 0x9000);
    OrdinaryPassesVerifyIff(rows, 0x9000);
    hide FixFrom, Spans, AdjacentOk, Sorted, Ordered;
    var spans := Spans(rows, 0x9000);
    assert spans[1].start < spans[1 - 1].start;
    assert StepsBehind(spans, 1) && !SpanInOrder(spans[0], spans[1]);
    assert !FitsBetween(spans, 1, 0x9000);
  }
}
