/** A window on a row: `PartialRow` in diesel/src/row.rs. */
module PartialRows {
  import opened Prelude

  /** `usize` on a 64-bit target. */
  const USIZE: nat := 0x1_0000_0000_0000_0000

  type usize = n: nat | n < USIZE

  datatype Column = Column(name: Option<string>, value: int)

  /** A row of the database: its fields, of which there are never more than an index can count. */
  type Row = r: seq<Column> | |r| < USIZE

  datatype Range = Range(start: usize, end: usize)

  /** An addition that a build with overflow checks stops at. */
  datatype Checked<+T> = Value(value: T) | Overflow {
    predicate IsFailure() { Overflow? }

    function PropagateFailure<U>(): Checked<U>
      requires Overflow?
    {
      Overflow
    }

    function Extract(): T
      requires Value?
    {
      value
    }
  }

  function Add(a: usize, b: usize): Checked<usize> {
    if a + b < USIZE then Value(a + b) else Overflow
  }

  function Min(a: nat, b: nat): nat { if a <= b then a else b }

  // ----- the code

  function RowIdx(row: Row, idx: usize): Option<usize> {
    if idx < |row| then Some(idx) else None
  }

  /** The backends look a name up from the front of the row. */
  function RowIdxByName(row: seq<Column>, name: string): (idx: Option<nat>)
    ensures idx.Some? ==> idx.value < |row| && row[idx.value].name == Some(name)
                          && forall j :: 0 <= j < idx.value ==> row[j].name != Some(name)
    ensures idx.None? ==> forall j :: 0 <= j < |row| ==> row[j].name != Some(name)
  {
    if row == [] then None
    else if row[0].name == Some(name) then Some(0)
    else
      var rest := RowIdxByName(row[1..], name);
      if rest.Some? then Some(rest.value + 1) else None
  }

  datatype PartialRow = PartialRow(inner: Row, range: Range) {
    predicate Contains(idx: nat) { range.start <= idx < range.end }

    function FieldCount(): nat {
      if range.start < range.end then range.end - range.start else 0
    }

    function Idx(idx: usize): Checked<Option<usize>> {
      var shifted :- Add(idx, range.start);
      var found := RowIdx(inner, shifted);
      Value(if found.Some? && Contains(found.value) then found else None)
    }

    function IdxByName(name: string): Option<nat> {
      var found := RowIdxByName(inner, name);
      if found.Some? && Contains(found.value) then found else None
    }

    function Get(idx: usize): Checked<Option<Column>> {
      var found :- Idx(idx);
      Value(if found.None? then None else Some(inner[found.value]))
    }

    function GetByName(name: string): Option<Column> {
      var found := IdxByName(name);
      if found.None? then None else Some(inner[found.value])
    }

    function Sub(sub: Range): Checked<PartialRow> {
      var end :- Add(range.start, sub.end);
      var start :- Add(range.start, sub.start);
      Value(PartialRow(inner, Range(start, Min(range.end, end))))
    }

    /** The same in a build without overflow checks, where additions wrap around. */
    function SubWrapping(sub: Range): PartialRow {
      var end := (range.start + sub.end) % USIZE;
      var start := (range.start + sub.start) % USIZE;
      PartialRow(inner, Range(start, Min(range.end, end)))
    }

    function GetWrapping(idx: usize): Option<Column> {
      var found := RowIdx(inner, (idx + range.start) % USIZE);
      if found.Some? && Contains(found.value) then Some(inner[found.value]) else None
    }

    predicate Valid() { range.end <= |inner| }

    /** The fields that can be seen. */
    function View(): seq<Column> { Slice(inner, range.start, range.end) }
  }

  function New(inner: Row, range: Range): PartialRow {
    PartialRow(inner, Range(Min(range.start, |inner|), Min(range.end, |inner|)))
  }

  // ----- the reference: slices that are clamped to what is there

  function Slice(s: seq<Column>, start: nat, end: nat): (r: seq<Column>)
    ensures |r| == if start < Min(end, |s|) then Min(end, |s|) - start else 0
    ensures forall i :: 0 <= i < |r| ==> r[i] == s[start + i]
  {
    if start < Min(end, |s|) then s[start..Min(end, |s|)] else []
  }

  /** Creating a partial row is slicing the row. */
  lemma NewIsSlice(row: Row, range: Range)
    ensures New(row, range).Valid()
    ensures New(row, range).View() == Slice(row, range.start, range.end)
  {
  }

  /** A window counts and returns exactly the fields of its slice; asking by position fails only where the
      sum of the position and the window's start is no longer an index. */
  lemma ReadsSlice(p: PartialRow, idx: usize)
    requires p.Valid()
    ensures p.FieldCount() == |p.View()|
    ensures p.Get(idx) == if idx + p.range.start >= USIZE then Overflow
                          else if idx < |p.View()| then Value(Some(p.View()[idx])) else Value(None)
  {
  }

  /** Narrowing a window is slicing its slice, and goes through exactly when both sums are indices. */
  lemma SubIsSlice(p: PartialRow, sub: Range)
    requires p.Valid()
    ensures p.Sub(sub).Value? <==> p.range.start + sub.end < USIZE && p.range.start + sub.start < USIZE
    ensures p.Sub(sub).Value? ==>
              var q := p.Sub(sub).value;
              && q.Valid() && q.inner == p.inner && q.range.end <= p.range.end
              && q.View() == Slice(p.View(), sub.start, sub.end)
  {
  }

  /** The window that wraps around still shows the right slice: nothing wraps, or what wrapped shows nothing
      and nothing was asked for. */
  predicate WrapsRight(p: PartialRow, sub: Range) {
    var start, end := p.range.start + sub.start, p.range.start + sub.end;
    if start < USIZE then end < USIZE || p.range.end <= start
    else var end' := if end < USIZE then end else end - USIZE;
         start - USIZE >= p.range.end || start - USIZE >= end'
  }

  /** When no overflow check stops it, a narrowed window still shows the right slice exactly in these cases. */
  lemma WrappingIsSliceIff(p: PartialRow, sub: Range)
    requires p.Valid()
    ensures p.SubWrapping(sub).Valid()
    ensures p.SubWrapping(sub).View() == Slice(p.View(), sub.start, sub.end) <==> WrapsRight(p, sub)
  {
    var start, end := p.range.start + sub.start, p.range.start + sub.end;
    var q := p.SubWrapping(sub);
    assert start % USIZE == if start < USIZE then start else start - USIZE;
    assert end % USIZE == if end < USIZE then end else end - USIZE;
    if start < USIZE && end < USIZE {
      assert p.Sub(sub) == Value(q);
      SubIsSlice(p, sub);
    } else {
      assert |q.View()| == q.FieldCount();
    }
  }

  /** A start that wraps around to the left of the window shows a field the window does not have. */
  lemma WrappedWindowEscapes()
    ensures var hidden, seen := Column(Some("a"), 1), Column(Some("b"), 2);
            var p, sub := New([hidden, seen], Range(1, 2)), Range(USIZE - 1, 0);
            && p.View() == [seen] && p.Sub(sub) == Overflow
            && Slice(p.View(), sub.start, sub.end) == []
            && p.SubWrapping(sub).View() == [hidden]
  {
  }

  /** Reading by position is right for every index even where the addition wraps around. */
  lemma WrappingReadsSlice(p: PartialRow, idx: usize)
    requires p.Valid()
    ensures p.GetWrapping(idx) == if idx < |p.View()| then Some(p.View()[idx]) else None
  {
    assert (idx + p.range.start) % USIZE
        == if idx + p.range.start < USIZE then idx + p.range.start else idx + p.range.start - USIZE;
  }

  // ----- chains

  function Chain(p: PartialRow, subs: seq<Range>): Checked<PartialRow>
    decreases |subs|
  {
    if subs == [] then Value(p)
    else
      var q :- p.Sub(subs[0]);
      Chain(q, subs[1..])
  }

  function SliceChain(s: seq<Column>, subs: seq<Range>): seq<Column>
    decreases |subs|
  {
    if subs == [] then s else SliceChain(Slice(s, subs[0].start, subs[0].end), subs[1..])
  }

  /** The offsets that add up along a chain stay within an index. */
  predicate Fits(start: nat, subs: seq<Range>)
    decreases |subs|
  {
    subs == [] || (start + subs[0].end < USIZE && start + subs[0].start < USIZE && Fits(start + subs[0].start, subs[1..]))
  }

  lemma {:induction false} ChainIsSlices(p: PartialRow, subs: seq<Range>)
    requires p.Valid()
    ensures Chain(p, subs).Value? <==> Fits(p.range.start, subs)
    ensures Chain(p, subs).Value? ==>
              var q := Chain(p, subs).value;
              q.Valid() && q.inner == p.inner && q.range.end <= p.range.end && q.View() == SliceChain(p.View(), subs)
    decreases |subs|
  {
    if subs != [] {
      SubIsSlice(p, subs[0]);
      if p.Sub(subs[0]).Value? { ChainIsSlices(p.Sub(subs[0]).value, subs[1..]); }
    }
  }

  function ChainWrapping(p: PartialRow, subs: seq<Range>): PartialRow
    decreases |subs|
  {
    if subs == [] then p else ChainWrapping(p.SubWrapping(subs[0]), subs[1..])
  }

  /** Every window of the chain, the last included, shows the slice of `s` it should. */
  predicate EachIsSlice(p: PartialRow, s: seq<Column>, subs: seq<Range>)
    decreases |subs|
  {
    p.View() == s && (subs == [] || EachIsSlice(p.SubWrapping(subs[0]), Slice(s, subs[0].start, subs[0].end), subs[1..]))
  }

  predicate EachWrapsRight(p: PartialRow, subs: seq<Range>)
    decreases |subs|
  {
    subs == [] || (WrapsRight(p, subs[0]) && EachWrapsRight(p.SubWrapping(subs[0]), subs[1..]))
  }

  /** Without overflow checks, a chain shows the right slice at every step exactly when every step does,
      and then reads what the slice holds; in any case no window ends past the row. */
  lemma {:induction false} WrappingChainIff(p: PartialRow, subs: seq<Range>, idx: usize)
    requires p.Valid()
    ensures EachIsSlice(p, p.View(), subs) <==> EachWrapsRight(p, subs)
    ensures var q := ChainWrapping(p, subs);
            && q.Valid() && q.inner == p.inner
            && (EachWrapsRight(p, subs) ==>
                  var slice := SliceChain(p.View(), subs);
                  q.View() == slice && q.GetWrapping(idx) == if idx < |slice| then Some(slice[idx]) else None)
    decreases |subs|
  {
    if subs == [] {
      WrappingReadsSlice(p, idx);
    } else {
      WrappingIsSliceIff(p, subs[0]);
      WrappingChainIff(p.SubWrapping(subs[0]), subs[1..], idx);
    }
  }

  /** Any chain of windows, with ranges out of bounds or reversed, is a chain of clamped slices of the row. */
  lemma WindowsAreSlices(row: Row, range: Range, subs: seq<Range>, idx: usize)
    ensures Chain(New(row, range), subs).Value? <==> Fits(Min(range.start, |row|), subs)
    ensures Chain(New(row, range), subs).Value? ==>
              var q, slice := Chain(New(row, range), subs).value, SliceChain(Slice(row, range.start, range.end), subs);
              && q.range.end <= |row| && q.FieldCount() == |slice|
              && (idx + q.range.start < USIZE ==> q.Get(idx) == Value(if idx < |slice| then Some(slice[idx]) else None))
  {
    NewIsSlice(row, range);
    ChainIsSlices(New(row, range), subs);
    if Chain(New(row, range), subs).Value? { ReadsSlice(Chain(New(row, range), subs).value, idx); }
  }

  // ----- names

  /** Looking a name up through the window finds what the slice itself would, exactly when the slice does
      not have the name or no earlier field of the whole row has it. */
  lemma NameLookupIff(p: PartialRow, name: string)
    requires p.Valid()
    ensures var own := RowIdxByName(p.View(), name);
            p.GetByName(name) == (if own.None? then None else Some(p.View()[own.value]))
              && (p.IdxByName(name).Some? ==> own.Some? && p.IdxByName(name).value == p.range.start + own.value)
            <==> own.None? || forall j :: 0 <= j < p.range.start ==> p.inner[j].name != Some(name)
  {
    var own, found := RowIdxByName(p.View(), name), RowIdxByName(p.inner, name);
    if own.Some? {
      assert p.inner[p.range.start + own.value].name == Some(name);
    }
    if found.Some? && p.Contains(found.value) {
      assert p.View()[found.value - p.range.start] == p.inner[found.value];
    }
  }

  /** The second of two columns of one name is in the window, but looking the name up does not find it. */
  lemma HiddenName()
    ensures var first, second := Column(Some("id"), 1), Column(Some("id"), 2);
            var p := New([first, second], Range(1, 2));
            && p.View() == [second] && RowIdxByName(p.View(), "id") == Some(0)
            && p.GetByName("id") == None
  {
    var first, second := Column(Some("id"), 1), Column(Some("id"), 2);
    assert RowIdxByName([second], "id") == Some(0);
    assert RowIdxByName([first, second], "id") == Some(0);
  }
}
