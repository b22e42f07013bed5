/**
 Building a page index from column chunk metadata: chunks are visited in file
 order and each is cut into pages by reading one page header at a time.
 */
module PageIndex {
  import opened Common
  import opened SequentialReader

  const HEADER_WINDOW: nat := 65536

  /** Footer metadata of one column chunk of row group `ordinal`. */
  datatype ColumnChunk = ColumnChunk(
    ordinal: nat,
    path: seq<string>,
    dictionaryOffset: Option<int>,
    dataOffset: int,
    compressedSize: int)
  {
    function Start(): int {
      if dictionaryOffset.Some? then dictionaryOffset.value else dataOffset
    }

    function End(): int {
      Start() + compressedSize
    }
  }

  /** A decoded page header: bytes consumed, page type, body size, row counts. */
  datatype Header = Header(
    consumed: nat,
    kind: Option<int>,
    size: Option<int>,
    dataRows: Option<int>,
    dataRowsV2: Option<int>)

  /** The header codec; `None` when the bytes are not a header. */
  type Decoder = seq<Byte> -> Option<Header>

  datatype Page = Page(offset: int, bytes: int, row: int, rows: int)

  /** The variables of the scan loop. */
  datatype Scan = Scan(pages: seq<Page>, position: int, row: int)

  datatype IndexError = Reader(error: SliceError) | NestedColumn | BadHeader | PageSize | PageRows | PageType

  type Columns = map<(nat, string), seq<Page>>

  /** How one decoded header advances the scan: a data page, a dictionary page, or a refusal. */
  datatype Step = DataPage(bytes: int, rows: int) | DictionaryPage(bytes: int) | Refused(error: IndexError)

  function Classify(c: ColumnChunk, position: int, header: Option<Header>): (s: Step)
    ensures !s.Refused? ==> 0 < s.bytes <= c.End() - position
    ensures !s.Refused? ==>
            header.Some? && header.value.size.Some? && s.bytes == header.value.consumed + header.value.size.value
    ensures s.DataPage? ==>
              s.rows > 0
              && Some(s.rows) == if header.value.kind == Some(0) then header.value.dataRows else header.value.dataRowsV2
    ensures s.DictionaryPage? ==> c.dictionaryOffset == Some(position)
  {
    if header.None? then Refused(BadHeader)
    else
      var h := header.value;
      if h.size.None? then Refused(PageSize)
      else
        var bytes := h.consumed + h.size.value;
        if !IsSafeInteger(bytes) || bytes <= h.consumed || position + bytes > c.End() then Refused(PageSize)
        else if h.kind == Some(0) || h.kind == Some(3) then
          var rows := if h.kind == Some(0) then h.dataRows else h.dataRowsV2;
          if rows.None? || !IsSafeInteger(rows.value) || rows.value <= 0 then Refused(PageRows)
          else DataPage(bytes, rows.value)
        else if h.kind != Some(2) || c.dictionaryOffset != Some(position) then Refused(PageType)
        else DictionaryPage(bytes)
  }

  /** Bounded random access, the reading the sequential buffer has to match. */
  function Window(c: ColumnChunk, position: int): Range {
    Range(position, Min(position + HEADER_WINDOW, c.End()))
  }

  function ReadAt(file: seq<Byte>, q: Range): Result<seq<Byte>, SliceError> {
    if 0 <= q.start <= q.end <= |file| then RandomAccess(file, q) else Err(InvalidRange)
  }

  /** One scan step over random access. */
  function StepAt(file: seq<Byte>, decode: Decoder, c: ColumnChunk, position: int): (s: Step)
    ensures !s.Refused? ==> 0 < s.bytes <= c.End() - position
    ensures s.DataPage? ==> s.rows > 0
    ensures s.DictionaryPage? ==> c.dictionaryOffset == Some(position)
  {
    match ReadAt(file, Window(c, position))
    case Err(e) => Refused(Reader(e))
    case Ok(bytes) => Classify(c, position, decode(bytes))
  }

  function Prepend(pages: seq<Page>, r: Result<seq<Page>, IndexError>): Result<seq<Page>, IndexError> {
    if r.Ok? then Ok(pages + r.value) else r
  }

  lemma PrependNothing(r: Result<seq<Page>, IndexError>)
    ensures Prepend([], r) == r
  {
    assert r.Ok? ==> [] + r.value == r.value;
  }

  lemma PrependTwice(front: seq<Page>, back: seq<Page>, r: Result<seq<Page>, IndexError>)
    ensures Prepend(front, Prepend(back, r)) == Prepend(front + back, r)
  {
    assert r.Ok? ==> front + (back + r.value) == front + back + r.value;
  }

  /** Pages of one chunk over random access, from `position` with `row` rows behind. */
  function PagesFrom(file: seq<Byte>, decode: Decoder, c: ColumnChunk, position: int, row: int)
    : Result<seq<Page>, IndexError>
    decreases c.End() - position
  {
    if position >= c.End() then Ok([])
    else
      match StepAt(file, decode, c, position)
      case Refused(e) => Err(e)
      case DictionaryPage(n) => PagesFrom(file, decode, c, position + n, row)
      case DataPage(n, rows) =>
        Prepend([Page(position, n, row, rows)], PagesFrom(file, decode, c, position + n, row + rows))
  }

  /** The scan from `position` on, with the pages gathered so far in front. */
  function ScanFrom(file: seq<Byte>, decode: Decoder, c: ColumnChunk, scan: Scan): Result<seq<Page>, IndexError> {
    Prepend(scan.pages, PagesFrom(file, decode, c, scan.position, scan.row))
  }

  /** The scan after one accepted step. */
  function Advance(scan: Scan, step: Step): Scan
    requires !step.Refused?
  {
    match step
    case DictionaryPage(n) => scan.(position := scan.position + n)
    case DataPage(n, rows) =>
      Scan(scan.pages + [Page(scan.position, n, scan.row, rows)], scan.position + n, scan.row + rows)
  }

  lemma AdvanceKeepsScan(file: seq<Byte>, decode: Decoder, c: ColumnChunk, scan: Scan)
    requires scan.position < c.End()
    ensures var step := StepAt(file, decode, c, scan.position);
            ScanFrom(file, decode, c, scan)
            == if step.Refused? then Err(step.error) else ScanFrom(file, decode, c, Advance(scan, step))
  {
    var step := StepAt(file, decode, c, scan.position);
    if step.DataPage? {
      PrependTwice(scan.pages, [Page(scan.position, step.bytes, scan.row, step.rows)],
                   PagesFrom(file, decode, c, scan.position + step.bytes, scan.row + step.rows));
    }
  }

  lemma ScanEnds(file: seq<Byte>, decode: Decoder, c: ColumnChunk, scan: Scan)
    requires scan.position >= c.End()
    ensures ScanFrom(file, decode, c, scan) == Ok(scan.pages)
  {
    assert scan.pages + [] == scan.pages;
  }

  function ColumnPages(file: seq<Byte>, decode: Decoder, c: ColumnChunk): Result<seq<Page>, IndexError> {
    if |c.path| != 1 then Err(NestedColumn) else PagesFrom(file, decode, c, c.Start(), 0)
  }

  /** The whole index over random access: chunks in the given order, later entries replacing earlier ones. */
  function IndexOver(file: seq<Byte>, decode: Decoder, chunks: seq<ColumnChunk>, columns: Columns)
    : Result<Columns, IndexError>
    decreases |chunks|
  {
    if chunks == [] then Ok(columns)
    else
      match ColumnPages(file, decode, chunks[0])
      case Err(e) => Err(e)
      case Ok(pages) =>
        IndexOver(file, decode, chunks[1..], columns[(chunks[0].ordinal, chunks[0].path[0]) := pages])
  }

  // ---- sorting by file position ----

  function Insert(c: ColumnChunk, sorted: seq<ColumnChunk>): (r: seq<ColumnChunk>)
    ensures multiset(r) == multiset{c} + multiset(sorted)
    ensures |r| == |sorted| + 1
  {
    if sorted == [] || c.Start() <= sorted[0].Start() then [c] + sorted
    else
      assert sorted == [sorted[0]] + sorted[1..];
      [sorted[0]] + Insert(c, sorted[1..])
  }

  /** The stable order of `chunks` by first byte. */
  function SortByStart(chunks: seq<ColumnChunk>): (r: seq<ColumnChunk>)
    ensures multiset(r) == multiset(chunks)
    ensures |r| == |chunks|
  {
    if chunks == [] then []
    else
      assert chunks == [chunks[0]] + chunks[1..];
      Insert(chunks[0], SortByStart(chunks[1..]))
  }

  ghost predicate Sorted(chunks: seq<ColumnChunk>) {
    forall i, j :: 0 <= i < j < |chunks| ==> chunks[i].Start() <= chunks[j].Start()
  }

  predicate Apart(a: ColumnChunk, b: ColumnChunk) {
    a.compressedSize <= 0 || b.compressedSize <= 0 || a.End() <= b.Start() || b.End() <= a.Start()
  }

  /** Any two chunks are related, the earlier to the later. */
  ghost predicate Pairwise(related: (ColumnChunk, ColumnChunk) -> bool, chunks: seq<ColumnChunk>) {
    forall i, j :: 0 <= i < j < |chunks| ==> related(chunks[i], chunks[j])
  }

  ghost predicate Disjoint(chunks: seq<ColumnChunk>) {
    Pairwise(Apart, chunks)
  }

  predicate InRange(file: seq<Byte>, c: ColumnChunk) {
    0 <= c.Start() && c.End() <= |file|
  }

  lemma {:induction false} InsertKeepsOrder(c: ColumnChunk, sorted: seq<ColumnChunk>)
    requires Sorted(sorted)
    ensures Sorted(Insert(c, sorted))
  {
    if sorted != [] && c.Start() > sorted[0].Start() {
      var rest := Insert(c, sorted[1..]);
      InsertKeepsOrder(c, sorted[1..]);
      forall i | 0 <= i < |rest| ensures sorted[0].Start() <= rest[i].Start() {
        assert rest[i] in multiset(rest);
        assert rest[i] == c || rest[i] in sorted[1..];
      }
    }
  }

  lemma {:induction false} SortByStartSorts(chunks: seq<ColumnChunk>)
    ensures Sorted(SortByStart(chunks))
  {
    if chunks != [] {
      SortByStartSorts(chunks[1..]);
      InsertKeepsOrder(chunks[0], SortByStart(chunks[1..]));
    }
  }

  lemma {:induction false} InsertKeepsPairwise(
      related: (ColumnChunk, ColumnChunk) -> bool, c: ColumnChunk, sorted: seq<ColumnChunk>)
    requires Pairwise(related, sorted)
    requires forall d :: d in sorted ==> related(c, d) && related(d, c)
    ensures Pairwise(related, Insert(c, sorted))
  {
    if sorted != [] && c.Start() > sorted[0].Start() {
      var rest := Insert(c, sorted[1..]);
      InsertKeepsPairwise(related, c, sorted[1..]);
      forall i | 0 <= i < |rest| ensures related(sorted[0], rest[i]) {
        assert rest[i] in multiset(rest);
        assert rest[i] == c || rest[i] in sorted[1..];
      }
    }
  }

  lemma {:induction false} SortKeepsPairwise(
      related: (ColumnChunk, ColumnChunk) -> bool, chunks: seq<ColumnChunk>)
    requires Pairwise(related, chunks) && forall c, d :: related(c, d) ==> related(d, c)
    ensures Pairwise(related, SortByStart(chunks))
  {
    if chunks != [] {
      SortKeepsPairwise(related, chunks[1..]);
      forall d | d in SortByStart(chunks[1..]) ensures related(chunks[0], d) {
        assert d in multiset(SortByStart(chunks[1..]));
        assert d in chunks[1..];
      }
      InsertKeepsPairwise(related, chunks[0], SortByStart(chunks[1..]));
    }
  }

  lemma SortKeepsMembers(chunks: seq<ColumnChunk>)
    ensures forall c :: c in SortByStart(chunks) <==> c in chunks
  {
    forall c ensures c in SortByStart(chunks) <==> c in chunks {
      assert c in SortByStart(chunks) <==> c in multiset(SortByStart(chunks));
      assert c in chunks <==> c in multiset(chunks);
    }
  }

  /** The chunks with this first byte, in order. */
  function StartingAt(chunks: seq<ColumnChunk>, start: int): seq<ColumnChunk> {
    if chunks == [] then []
    else IfStartingAt(chunks[0], start) + StartingAt(chunks[1..], start)
  }

  function IfStartingAt(c: ColumnChunk, start: int): seq<ColumnChunk> {
    if c.Start() == start then [c] else []
  }

  lemma StartingFirst(c: ColumnChunk, rest: seq<ColumnChunk>, start: int)
    ensures StartingAt([c] + rest, start) == IfStartingAt(c, start) + StartingAt(rest, start)
  {
    assert ([c] + rest)[1..] == rest;
  }

  lemma OneEmpty(a: seq<ColumnChunk>, b: seq<ColumnChunk>, rest: seq<ColumnChunk>)
    requires a == [] || b == []
    ensures a + (b + rest) == b + (a + rest)
  {
    assert a + (b + rest) == (a + b) + rest && b + (a + rest) == (b + a) + rest;
  }

  lemma {:induction false} InsertInFront(c: ColumnChunk, sorted: seq<ColumnChunk>, start: int)
    ensures StartingAt(Insert(c, sorted), start) == IfStartingAt(c, start) + StartingAt(sorted, start)
  {
    if sorted == [] || c.Start() <= sorted[0].Start() {
      StartingFirst(c, sorted, start);
    } else {
      var first, rest := sorted[0], sorted[1..];
      InsertInFront(c, rest, start);
      StartingFirst(first, Insert(c, rest), start);
      OneEmpty(IfStartingAt(first, start), IfStartingAt(c, start), StartingAt(rest, start));
    }
  }

  /** Chunks with one first byte keep their order. */
  lemma {:induction false} SortIsStable(chunks: seq<ColumnChunk>, start: int)
    ensures StartingAt(SortByStart(chunks), start) == StartingAt(chunks, start)
  {
    if chunks != [] {
      SortIsStable(chunks[1..], start);
      InsertInFront(chunks[0], SortByStart(chunks[1..]), start);
    }
  }

  // ---- what an index says about the file ----

  /** Consecutive pages that cover `[from, to)` and number their rows from `row`. */
  ghost predicate Tiles(pages: seq<Page>, from: int, row: int, to: int)
    decreases |pages|
  {
    if pages == [] then from == to
    else
      && pages[0].offset == from && pages[0].bytes > 0
      && pages[0].row == row && pages[0].rows > 0
      && Tiles(pages[1..], from + pages[0].bytes, row + pages[0].rows, to)
  }

  function SumRows(pages: seq<Page>): int {
    if pages == [] then 0 else pages[0].rows + SumRows(pages[1..])
  }

  /** Past the chunk's first byte no dictionary page is accepted, so pages tile what is left. */
  lemma {:induction false} PagesTileTheRest(file: seq<Byte>, decode: Decoder, c: ColumnChunk, position: int, row: int)
    requires c.Start() <= position <= c.End()
    requires c.dictionaryOffset == Some(position) ==> position == c.End()
    requires PagesFrom(file, decode, c, position, row).Ok?
    ensures Tiles(PagesFrom(file, decode, c, position, row).value, position, row, c.End())
    decreases c.End() - position
  {
    if position < c.End() {
      var step := StepAt(file, decode, c, position);
      var pages := PagesFrom(file, decode, c, position, row).value;
      PagesTileTheRest(file, decode, c, position + step.bytes, row + step.rows);
      assert pages[1..] == PagesFrom(file, decode, c, position + step.bytes, row + step.rows).value;
    }
  }

  /**
   An accepted column: one optional leading dictionary page `[Start, body)`, present
   only at the declared dictionary offset, then pages tiling `[body, End)` exactly.
   */
  lemma ColumnTiles(file: seq<Byte>, decode: Decoder, c: ColumnChunk) returns (body: int)
    requires 0 <= c.compressedSize
    requires ColumnPages(file, decode, c).Ok?
    ensures c.Start() <= body <= c.End()
    ensures body == c.Start()
            || (c.dictionaryOffset == Some(c.Start())
               && StepAt(file, decode, c, c.Start()) == DictionaryPage(body - c.Start()))
    ensures Tiles(ColumnPages(file, decode, c).value, body, 0, c.End())
  {
    body := c.Start();
    if c.Start() < c.End() {
      var step := StepAt(file, decode, c, c.Start());
      if step.DictionaryPage? {
        body := c.Start() + step.bytes;
        PagesTileTheRest(file, decode, c, body, 0);
      } else {
        var pages := ColumnPages(file, decode, c).value;
        PagesTileTheRest(file, decode, c, c.Start() + step.bytes, step.rows);
        assert pages[1..] == PagesFrom(file, decode, c, c.Start() + step.bytes, step.rows).value;
      }
    }
  }

  /** In a tiling each page starts where the one before ended, and its `row` counts the rows before it. */
  lemma {:induction false} TilingIsContiguous(pages: seq<Page>, from: int, row: int, to: int, k: nat)
    requires Tiles(pages, from, row, to) && k < |pages|
    ensures pages[k].offset == if k == 0 then from else pages[k - 1].offset + pages[k - 1].bytes
    ensures pages[k].row == row + SumRows(pages[..k])
    ensures from <= pages[k].offset < pages[k].offset + pages[k].bytes <= to
    ensures k == |pages| - 1 ==> pages[k].offset + pages[k].bytes == to
    decreases k
  {
    if k == 0 {
      TilingEnds(pages[1..], from + pages[0].bytes, row + pages[0].rows, to);
    } else {
      TilingIsContiguous(pages[1..], from + pages[0].bytes, row + pages[0].rows, to, k - 1);
      assert pages[..k][1..] == pages[1..][..k - 1];
    }
  }

  lemma {:induction false} TilingEnds(pages: seq<Page>, from: int, row: int, to: int)
    requires Tiles(pages, from, row, to)
    ensures from <= to
    decreases |pages|
  {
    if pages != [] {
      TilingEnds(pages[1..], from + pages[0].bytes, row + pages[0].rows, to);
    }
  }

  function Key(c: ColumnChunk): (nat, string)
    requires |c.path| == 1
  {
    (c.ordinal, c.path[0])
  }

  predicate OwnKeys(a: ColumnChunk, b: ColumnChunk) {
    |a.path| == |b.path| == 1 ==> Key(a) != Key(b)
  }

  ghost predicate DistinctKeys(chunks: seq<ColumnChunk>) {
    Pairwise(OwnKeys, chunks)
  }

  /** With distinct column names per group the index holds every chunk's own pages and nothing else. */
  lemma {:induction false} IndexHoldsEveryColumn(
      file: seq<Byte>, decode: Decoder, chunks: seq<ColumnChunk>, columns: Columns)
    requires DistinctKeys(chunks)
    requires IndexOver(file, decode, chunks, columns).Ok?
    ensures var index := IndexOver(file, decode, chunks, columns).value;
            && (forall c :: c in chunks ==> |c.path| == 1 && Key(c) in index
                                            && ColumnPages(file, decode, c) == Ok(index[Key(c)]))
            && (forall k :: k in index ==> k in columns || exists c :: c in chunks && |c.path| == 1 && Key(c) == k)
            && (forall k :: k in columns && (forall c :: c in chunks ==> Key(c) != k) ==>
               k in index && index[k] == columns[k])
    decreases |chunks|
  {
    if chunks != [] {
      var c := chunks[0];
      var columns' := columns[Key(c) := ColumnPages(file, decode, c).value];
      IndexHoldsEveryColumn(file, decode, chunks[1..], columns');
      forall d | d in chunks[1..] ensures |d.path| == 1 && Key(d) != Key(c) {
        var i :| 0 <= i < |chunks[1..]| && chunks[1..][i] == d;
        assert chunks[i + 1] == d;
      }
    }
  }

  // ---- which files are accepted ----

  /** At `position` the file holds this header of a page that ends inside the chunk. */
  ghost predicate HeaderAt(file: seq<Byte>, decode: Decoder, c: ColumnChunk, position: int, h: Header) {
    var to := Min(position + 65536, c.End());
    && 0 <= position <= to <= |file| && decode(file[position..to]) == Some(h)
    && h.size.Some? && h.size.value > 0 && IsSafeInteger(h.consumed + h.size.value)
    && position + h.consumed + h.size.value <= c.End()
  }

  /** A data page of version 1 or 2; the version says where its row count is. */
  ghost predicate DataPageAt(file: seq<Byte>, decode: Decoder, c: ColumnChunk, position: int, bytes: int, rows: int) {
    exists h ::
      && HeaderAt(file, decode, c, position, h) && bytes == h.consumed + h.size.value
      && 0 < rows && IsSafeInteger(rows)
      && ((h.kind == Some(0) && h.dataRows == Some(rows)) || (h.kind == Some(3) && h.dataRowsV2 == Some(rows)))
  }

  ghost predicate DictionaryAt(file: seq<Byte>, decode: Decoder, c: ColumnChunk, position: int, bytes: int) {
    && c.dictionaryOffset == Some(position)
    && exists h :: HeaderAt(file, decode, c, position, h) && h.kind == Some(2) && bytes == h.consumed + h.size.value
  }

  /** Data pages, each right behind the one before, up to the end of the chunk, with their row numbers. */
  ghost predicate LaidOut(file: seq<Byte>, decode: Decoder, c: ColumnChunk, pages: seq<Page>, position: int, row: int)
    decreases |pages|
  {
    if pages == [] then position == c.End()
    else
      && pages[0].offset == position && pages[0].row == row
      && DataPageAt(file, decode, c, position, pages[0].bytes, pages[0].rows)
      && LaidOut(file, decode, c, pages[1..], position + pages[0].bytes, row + pages[0].rows)
  }

  /** The chunk consists of these pages, perhaps behind one dictionary page at the declared offset. */
  ghost predicate ConsistsOf(file: seq<Byte>, decode: Decoder, c: ColumnChunk, pages: seq<Page>) {
    if c.compressedSize < 0 then pages == []
    else
      LaidOut(file, decode, c, pages, c.Start(), 0)
      || exists n :: DictionaryAt(file, decode, c, c.Start(), n) && LaidOut(file, decode, c, pages, c.Start() + n, 0)
  }

  /** One step over random access accepts exactly what lies there. */
  lemma StepExactly(file: seq<Byte>, decode: Decoder, c: ColumnChunk, position: int, bytes: int, rows: int)
    requires position < c.End()
    ensures StepAt(file, decode, c, position) == DataPage(bytes, rows)
            <==> DataPageAt(file, decode, c, position, bytes, rows)
    ensures StepAt(file, decode, c, position) == DictionaryPage(bytes)
            <==> DictionaryAt(file, decode, c, position, bytes)
  {
    var r := ReadAt(file, Window(c, position));
    if r.Ok? && decode(r.value).Some? {
      var h := decode(r.value).value;
      assert !StepAt(file, decode, c, position).Refused? ==> HeaderAt(file, decode, c, position, h);
    }
  }

  lemma StepsExactly(file: seq<Byte>, decode: Decoder, c: ColumnChunk, position: int)
    requires position < c.End()
    ensures forall bytes, rows :: StepAt(file, decode, c, position) == DataPage(bytes, rows)
                                  <==> DataPageAt(file, decode, c, position, bytes, rows)
    ensures forall bytes :: StepAt(file, decode, c, position) == DictionaryPage(bytes)
                            <==> DictionaryAt(file, decode, c, position, bytes)
  {
    forall bytes, rows
      ensures StepAt(file, decode, c, position) == DataPage(bytes, rows)
              <==> DataPageAt(file, decode, c, position, bytes, rows)
      ensures StepAt(file, decode, c, position) == DictionaryPage(bytes)
              <==> DictionaryAt(file, decode, c, position, bytes)
    {
      StepExactly(file, decode, c, position, bytes, rows);
    }
  }

  lemma PagesStep(file: seq<Byte>, decode: Decoder, c: ColumnChunk, position: int, row: int, pages: seq<Page>)
    requires position < c.End() && !StepAt(file, decode, c, position).DictionaryPage?
    ensures PagesFrom(file, decode, c, position, row) == Ok(pages)
            <==> && pages != [] && pages[0].offset == position && pages[0].row == row
                 && StepAt(file, decode, c, position) == DataPage(pages[0].bytes, pages[0].rows)
                 && PagesFrom(file, decode, c, position + pages[0].bytes, row + pages[0].rows) == Ok(pages[1..])
  {
    var step := StepAt(file, decode, c, position);
    if step.DataPage? {
      var rest := PagesFrom(file, decode, c, position + step.bytes, row + step.rows);
      var first := Page(position, step.bytes, row, step.rows);
      assert rest.Ok? ==> ([first] + rest.value)[1..] == rest.value;
      assert pages != [] ==> pages == [pages[0]] + pages[1..];
    }
  }

  lemma LaidOutStep(file: seq<Byte>, decode: Decoder, c: ColumnChunk, position: int, row: int, pages: seq<Page>)
    requires position < c.End()
    ensures LaidOut(file, decode, c, pages, position, row)
            <==> && pages != [] && pages[0].offset == position && pages[0].row == row
                 && StepAt(file, decode, c, position) == DataPage(pages[0].bytes, pages[0].rows)
                 && LaidOut(file, decode, c, pages[1..], position + pages[0].bytes, row + pages[0].rows)
  {
    if pages != [] {
      StepExactly(file, decode, c, position, pages[0].bytes, pages[0].rows);
    }
  }

  lemma NoDictionaryBehind(file: seq<Byte>, decode: Decoder, c: ColumnChunk, position: int, bytes: int, rows: int)
    requires c.Start() <= position < c.End() && StepAt(file, decode, c, position) == DataPage(bytes, rows)
    ensures position < position + bytes <= c.End()
    ensures !(position + bytes < c.End() && StepAt(file, decode, c, position + bytes).DictionaryPage?)
  {
  }

  lemma {:induction false} PagesAreLaidOut(
      file: seq<Byte>, decode: Decoder, c: ColumnChunk, position: int, row: int, pages: seq<Page>)
    requires c.Start() <= position <= c.End()
    requires !(position < c.End() && StepAt(file, decode, c, position).DictionaryPage?)
    requires PagesFrom(file, decode, c, position, row) == Ok(pages)
    ensures LaidOut(file, decode, c, pages, position, row)
    decreases |pages|
  {
    if position < c.End() {
      PagesStep(file, decode, c, position, row, pages);
      NoDictionaryBehind(file, decode, c, position, pages[0].bytes, pages[0].rows);
      PagesAreLaidOut(file, decode, c, position + pages[0].bytes, row + pages[0].rows, pages[1..]);
      LaidOutStep(file, decode, c, position, row, pages);
    }
  }

  lemma {:induction false} LaidOutIsFound(
      file: seq<Byte>, decode: Decoder, c: ColumnChunk, position: int, row: int, pages: seq<Page>)
    requires c.Start() <= position <= c.End()
    requires !(position < c.End() && StepAt(file, decode, c, position).DictionaryPage?)
    requires LaidOut(file, decode, c, pages, position, row)
    ensures PagesFrom(file, decode, c, position, row) == Ok(pages)
    decreases |pages|
  {
    if pages == [] {
      assert PagesFrom(file, decode, c, position, row) == Ok([]);
    } else if position < c.End() {
      LaidOutStep(file, decode, c, position, row, pages);
      NoDictionaryBehind(file, decode, c, position, pages[0].bytes, pages[0].rows);
      LaidOutIsFound(file, decode, c, position + pages[0].bytes, row + pages[0].rows, pages[1..]);
      PagesStep(file, decode, c, position, row, pages);
    }
  }

  /** The pages found from a place without a dictionary page on are exactly the data pages laid out there. */
  lemma PagesExactly(file: seq<Byte>, decode: Decoder, c: ColumnChunk, position: int, row: int, pages: seq<Page>)
    requires c.Start() <= position <= c.End()
    requires !(position < c.End() && StepAt(file, decode, c, position).DictionaryPage?)
    ensures PagesFrom(file, decode, c, position, row) == Ok(pages) <==> LaidOut(file, decode, c, pages, position, row)
  {
    if PagesFrom(file, decode, c, position, row) == Ok(pages) {
      PagesAreLaidOut(file, decode, c, position, row, pages);
    }
    if LaidOut(file, decode, c, pages, position, row) {
      LaidOutIsFound(file, decode, c, position, row, pages);
    }
  }

  /** A chunk is indexed with these pages exactly when it consists of them. */
  lemma ColumnExactly(file: seq<Byte>, decode: Decoder, c: ColumnChunk, pages: seq<Page>)
    ensures ColumnPages(file, decode, c) == Ok(pages) <==> |c.path| == 1 && ConsistsOf(file, decode, c, pages)
  {
    var start := c.Start();
    if |c.path| == 1 && c.compressedSize >= 0 {
      if start < c.End() {
        StepsExactly(file, decode, c, start);
      }
      if n :| DictionaryAt(file, decode, c, start, n) {
        assert StepAt(file, decode, c, start) == DictionaryPage(n);
        assert pages != [] ==> !DataPageAt(file, decode, c, start, pages[0].bytes, pages[0].rows);
        assert forall m :: DictionaryAt(file, decode, c, start, m) ==> m == n;
        assert !LaidOut(file, decode, c, pages, start, 0);
        PagesExactly(file, decode, c, start + n, 0, pages);
      } else {
        PagesExactly(file, decode, c, start, 0, pages);
      }
    }
  }

  /** A flat column whose chunk consists of some pages. */
  ghost predicate Readable(file: seq<Byte>, decode: Decoder, c: ColumnChunk) {
    |c.path| == 1 && exists pages :: ConsistsOf(file, decode, c, pages)
  }

  lemma ReadableExactly(file: seq<Byte>, decode: Decoder, c: ColumnChunk)
    ensures ColumnPages(file, decode, c).Ok? <==> Readable(file, decode, c)
  {
    if ColumnPages(file, decode, c).Ok? {
      ColumnExactly(file, decode, c, ColumnPages(file, decode, c).value);
    }
    if pages :| ConsistsOf(file, decode, c, pages) {
      ColumnExactly(file, decode, c, pages);
    }
  }

  /** An index is built exactly when every chunk is a flat column that consists of pages. */
  lemma {:induction false} IndexExactly(file: seq<Byte>, decode: Decoder, chunks: seq<ColumnChunk>, columns: Columns)
    ensures IndexOver(file, decode, chunks, columns).Ok? <==> forall c :: c in chunks ==> Readable(file, decode, c)
    decreases |chunks|
  {
    if chunks != [] {
      var pages := ColumnPages(file, decode, chunks[0]);
      ReadableExactly(file, decode, chunks[0]);
      if pages.Ok? {
        IndexExactly(file, decode, chunks[1..], columns[Key(chunks[0]) := pages.value]);
        assert chunks == [chunks[0]] + chunks[1..];
      }
    }
  }

  /** The index has each chunk's own pages under its group and column, and nothing else. */
  ghost predicate Indexes(file: seq<Byte>, decode: Decoder, chunks: seq<ColumnChunk>, index: Columns) {
    && (forall c :: c in chunks ==> |c.path| == 1 && Key(c) in index && ConsistsOf(file, decode, c, index[Key(c)]))
    && forall k :: k in index ==> exists c :: c in chunks && |c.path| == 1 && Key(c) == k
  }

  /** Random access over the sorted chunks builds an index of exactly the pages the file consists of. */
  lemma SortedIndex(file: seq<Byte>, decode: Decoder, chunks: seq<ColumnChunk>)
    ensures var r := IndexOver(file, decode, SortByStart(chunks), map[]);
            && (r.Ok? <==> forall c :: c in chunks ==> Readable(file, decode, c))
            && (r.Ok? && DistinctKeys(chunks) ==> Indexes(file, decode, chunks, r.value))
  {
    var sorted := SortByStart(chunks);
    var r := IndexOver(file, decode, sorted, map[]);
    SortKeepsMembers(chunks);
    IndexExactly(file, decode, sorted, map[]);
    if r.Ok? && DistinctKeys(chunks) {
      SortKeepsPairwise(OwnKeys, chunks);
      IndexHoldsEveryColumn(file, decode, sorted, map[]);
      forall c | c in chunks
        ensures |c.path| == 1 && Key(c) in r.value && ConsistsOf(file, decode, c, r.value[Key(c)])
      {
        assert c in sorted;
        ColumnExactly(file, decode, c, r.value[Key(c)]);
      }
    }
  }

  // ---- the loop over the sequential reader ----

  /** No later chunk with bytes to read starts below the reader's floor. */
  ghost predicate AheadOf(floor: int, chunks: seq<ColumnChunk>) {
    forall c :: c in chunks && c.compressedSize > 0 ==> floor <= c.Start()
  }

  /** After a chunk is read, every later disjoint chunk still lies ahead. */
  lemma StaysAhead(sorted: seq<ColumnChunk>, k: nat, floor: int, floor': int)
    requires Sorted(sorted) && Disjoint(sorted) && k < |sorted|
    requires AheadOf(floor, sorted[k..])
    requires floor' <= floor || (sorted[k].compressedSize > 0 && floor' < sorted[k].End())
    ensures AheadOf(floor', sorted[k + 1..])
  {
    forall d | d in sorted[k + 1..] && d.compressedSize > 0 ensures floor' <= d.Start() {
      var j :| 0 <= j < |sorted[k + 1..]| && sorted[k + 1..][j] == d;
      assert d == sorted[k + 1 + j] && d == sorted[k..][j + 1];
      assert Apart(sorted[k], d) && sorted[k].Start() <= d.Start();
    }
  }

  /** One turn of the scan: read a header through the forward-only reader and advance past its page. */
  method ScanPage(reader: SequentialBuffer, decode: Decoder, c: ColumnChunk, scan: Scan)
    returns (r: Result<Scan, IndexError>)
    requires reader.Valid() && reader.Bounded() && reader.byteLength == |reader.file|
    requires scan.position < c.End()
    modifies reader, reader.stream
    ensures reader.Valid() && reader.Bounded()
    ensures r.Ok? ==> scan.position < r.value.position <= c.End()
                      && ScanFrom(reader.file, decode, c, r.value) == ScanFrom(reader.file, decode, c, scan)
    ensures r.Err? ==> ScanFrom(reader.file, decode, c, scan) == Err(r.error)
                       || (r.error == Reader(InvalidRange)
                          && (scan.position < old(reader.offset) || c.End() > |reader.file|))
    ensures reader.offset == old(reader.offset) || reader.offset == scan.position
  {
    AdvanceKeepsScan(reader.file, decode, c, scan);
    var header := reader.Slice(scan.position, Min(scan.position + HEADER_WINDOW, c.End()));
    if header.Err? {
      return Err(Reader(header.error));
    }
    var step := Classify(c, scan.position, decode(header.value));
    r := if step.Refused? then Err(step.error) else Ok(Advance(scan, step));
  }

  /** One chunk. The answer is random access's, unless the reader refused a range. */
  method ScanColumn(reader: SequentialBuffer, decode: Decoder, c: ColumnChunk)
    returns (r: Result<seq<Page>, IndexError>)
    requires reader.Valid() && reader.Bounded() && reader.byteLength == |reader.file|
    modifies reader, reader.stream
    ensures reader.Valid() && reader.Bounded()
    ensures r == ColumnPages(reader.file, decode, c)
            || (r == Err(Reader(InvalidRange)) && c.compressedSize > 0
                && (c.Start() < old(reader.offset) || c.End() > |reader.file|))
    ensures reader.offset == old(reader.offset) || (c.compressedSize > 0 && reader.offset < c.End())
  {
    if |c.path| != 1 {
      return Err(NestedColumn);
    }
    var scan := Scan([], c.Start(), 0);
    PrependNothing(PagesFrom(reader.file, decode, c, c.Start(), 0));
    while scan.position < c.End()
      invariant c.Start() <= scan.position
      invariant reader.Valid() && reader.Bounded()
      invariant ScanFrom(reader.file, decode, c, scan) == PagesFrom(reader.file, decode, c, c.Start(), 0)
      invariant reader.offset == old(reader.offset) || c.Start() <= reader.offset < Min(scan.position, c.End())
      decreases c.End() - scan.position
    {
      var next := ScanPage(reader, decode, c, scan);
      if next.Err? {
        return Err(next.error);
      }
      scan := next.value;
    }
    ScanEnds(reader.file, decode, c, scan);
    r := Ok(scan.pages);
  }

  /** The loop over chunks in file order. */
  method IndexColumns(reader: SequentialBuffer, decode: Decoder, sorted: seq<ColumnChunk>)
    returns (r: Result<Columns, IndexError>)
    requires Sorted(sorted)
    requires reader.Valid() && reader.Bounded() && reader.byteLength == |reader.file| && reader.offset == 0
    modifies reader, reader.stream
    ensures reader.Valid() && reader.Bounded()
    ensures r == IndexOver(reader.file, decode, sorted, map[]) || r == Err(Reader(InvalidRange))
    ensures Disjoint(sorted) && (forall c :: c in sorted ==> InRange(reader.file, c))
            ==> r == IndexOver(reader.file, decode, sorted, map[])
  {
    ghost var whole := IndexOver(reader.file, decode, sorted, map[]);
    ghost var sound := Disjoint(sorted) && forall c :: c in sorted ==> InRange(reader.file, c);
    var columns: Columns := map[];
    assert sorted[0..] == sorted;
    for k := 0 to |sorted|
      invariant reader.Valid() && reader.Bounded()
      invariant IndexOver(reader.file, decode, sorted[k..], columns) == whole
      invariant sound ==> AheadOf(reader.offset, sorted[k..])
    {
      var c := sorted[k];
      assert sorted[k..][0] == c && sorted[k..][1..] == sorted[k + 1..];
      ghost var floor := reader.offset;
      assert sound ==> InRange(reader.file, c);
      var pages := ScanColumn(reader, decode, c);
      if pages.Err? {
        return Err(pages.error);
      }
      columns := columns[(c.ordinal, c.path[0]) := pages.value];
      if sound {
        StaysAhead(sorted, k, floor, reader.offset);
      }
    }
    r := Ok(columns);
  }

  /**
   The index built from a stream equals the one built by random access whenever the
   chunks are pairwise disjoint and lie in the file; for any other metadata the only
   possible difference is a refused range. It is built exactly when every chunk is a flat
   column of pages, and then it lists exactly those.
   */
  method BuildPageIndex(reader: SequentialBuffer, decode: Decoder, chunks: seq<ColumnChunk>)
    returns (r: Result<Columns, IndexError>)
    requires reader.Valid() && reader.Bounded() && reader.byteLength == |reader.file| && reader.offset == 0
    modifies reader, reader.stream
    ensures reader.Valid() && reader.Bounded()
    ensures r == IndexOver(reader.file, decode, SortByStart(chunks), map[]) || r == Err(Reader(InvalidRange))
    ensures Disjoint(chunks) && (forall c :: c in chunks ==> InRange(reader.file, c))
            ==> r == IndexOver(reader.file, decode, SortByStart(chunks), map[])
                && (r.Ok? <==> forall c :: c in chunks ==> Readable(reader.file, decode, c))
    ensures r.Ok? && DistinctKeys(chunks) ==> Indexes(reader.file, decode, chunks, r.value)
  {
    var sorted := SortByStart(chunks);
    SortByStartSorts(chunks);
    SortedIndex(reader.file, decode, chunks);
    if Disjoint(chunks) && forall c :: c in chunks ==> InRange(reader.file, c) {
      SortKeepsPairwise(Apart, chunks);
      SortKeepsMembers(chunks);
    }
    r := IndexColumns(reader, decode, sorted);
  }
}
