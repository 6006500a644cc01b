/**
 * The merged-header row of the data table, shared by the data view and the
 * employee selector: a non-blank header spans the columns up to the next
 * different non-blank header, and columns inside an earlier section are not
 * rendered at all.
 */
module HeaderSpans {
  import opened Strings

  /** `h && h.trim()`: a header cell that opens a merged section. */
  predicate NonBlank(h: string) {
    !IsBlank(h)
  }

  /** A header `x` that ends the section opened by header `h`. */
  predicate EndsSection(x: string, h: string) {
    NonBlank(x) && x != h
  }

  /**
   * findIndex over `hs` for the first header that ends the section of `h`;
   * -1 when there is none.
   */
  function FindSectionEnd(hs: seq<string>, h: string): (r: int)
    ensures -1 <= r < |hs|
    ensures r >= 0 ==> EndsSection(hs[r], h)
    ensures forall k :: 0 <= k < |hs| && (r == -1 || k < r) ==> !EndsSection(hs[k], h)
  {
    FindSectionEndFrom(hs, h, 0)
  }

  function FindSectionEndFrom(hs: seq<string>, h: string, from: nat): (r: int)
    requires from <= |hs|
    ensures r == -1 || from <= r < |hs|
    ensures r >= 0 ==> EndsSection(hs[r], h)
    ensures forall k :: from <= k < |hs| && (r == -1 || k < r) ==> !EndsSection(hs[k], h)
    decreases |hs| - from
  {
    if from == |hs| then -1
    else if EndsSection(hs[from], h) then from
    else FindSectionEndFrom(hs, h, from + 1)
  }

  /** The colSpan given to the header cell at `index`. */
  function Span(mh: seq<string>, index: nat): nat
    requires index < |mh|
  {
    if NonBlank(mh[index]) then
      var nextHeaders := mh[index + 1..];
      var mergeLength := 1 + FindSectionEnd(nextHeaders, mh[index]);
      if mergeLength == 0 then |nextHeaders| + 1 else mergeLength
    else 1
  }

  /** prevActualEnd: the last column covered by the section opened at `p`. */
  function SectionLast(mh: seq<string>, p: nat): int
    requires p < |mh|
  {
    var prevMergeEnd := FindSectionEnd(mh[p + 1..], mh[p]);
    if prevMergeEnd == -1 then |mh| - 1 else p + prevMergeEnd
  }

  /** The section opened by a non-blank header at `p` reaches column `index`. */
  predicate Covers(mh: seq<string>, p: nat, index: nat)
    requires p < |mh|
  {
    NonBlank(mh[p]) && index <= SectionLast(mh, p)
  }

  /** isPreviousMerge: the column lies inside a section opened further left. */
  predicate Hidden(mh: seq<string>, index: nat)
    requires index < |mh|
  {
    index > 0 && exists p: nat | p < index :: Covers(mh, p, index)
  }

  /** One rendered header cell: its column, text and colSpan. */
  datatype HeaderCell = HeaderCell(column: nat, text: string, colSpan: nat)

  function RenderFrom(mh: seq<string>, i: nat): seq<HeaderCell>
    requires i <= |mh|
    decreases |mh| - i
  {
    if i == |mh| then []
    else (if Hidden(mh, i) then [] else [HeaderCell(i, mh[i], Span(mh, i))]) + RenderFrom(mh, i + 1)
  }

  /** The merged-header row as the table renders it, left to right. */
  function MergedHeaderRow(mh: seq<string>): seq<HeaderCell> {
    RenderFrom(mh, 0)
  }

  /** The cells start at column `from`, follow each other without gap or overlap, and end at `to`. */
  ghost predicate Tiles(cells: seq<HeaderCell>, from: nat, to: nat)
    decreases |cells|
  {
    if cells == [] then from == to
    else cells[0].column == from && cells[0].colSpan >= 1 && Tiles(cells[1..], from + cells[0].colSpan, to)
  }

  function TotalSpan(cells: seq<HeaderCell>): nat {
    if cells == [] then 0 else cells[0].colSpan + TotalSpan(cells[1..])
  }

  /** The first column after `i` whose header ends the section opened at `i`, or |mh|. */
  function NextSection(mh: seq<string>, i: nat): (n: nat)
    requires i < |mh|
    ensures i < n <= |mh|
    ensures forall k :: i < k < n ==> !EndsSection(mh[k], mh[i])
    ensures n < |mh| ==> EndsSection(mh[n], mh[i])
  {
    var e := FindSectionEnd(mh[i + 1..], mh[i]);
    assert forall k :: i < k < |mh| ==> mh[i + 1..][k - i - 1] == mh[k];
    if e == -1 then |mh| else i + 1 + e
  }

  lemma NextSectionUnique(mh: seq<string>, i: nat, n: nat)
    requires i < n <= |mh|
    requires forall k :: i < k < n ==> !EndsSection(mh[k], mh[i])
    requires n < |mh| ==> EndsSection(mh[n], mh[i])
    ensures n == NextSection(mh, i)
  {
  }

  lemma SpanAndLast(mh: seq<string>, i: nat)
    requires i < |mh|
    ensures Span(mh, i) >= 1
    ensures NonBlank(mh[i]) ==> Span(mh, i) == NextSection(mh, i) - i
    ensures SectionLast(mh, i) == NextSection(mh, i) - 1
  {
  }

  lemma {:induction false} SkipHidden(mh: seq<string>, a: nat, b: nat)
    requires a <= b <= |mh|
    requires forall k :: a <= k < b ==> Hidden(mh, k)
    ensures RenderFrom(mh, a) == RenderFrom(mh, b)
    decreases b - a
  {
    if a < b {
      SkipHidden(mh, a + 1, b);
    }
  }

  /** The column right after a rendered cell's span is rendered too. */
  lemma {:induction false} NextCellShown(mh: seq<string>, i: nat)
    requires i < |mh| && !Hidden(mh, i)
    requires i + Span(mh, i) < |mh|
    ensures !Hidden(mh, i + Span(mh, i))
  {
    var j := i + Span(mh, i);
    SpanAndLast(mh, i);
    forall p: nat | p < j
      ensures !Covers(mh, p, j)
    {
      if p < i {
        // a section reaching j would already reach i, which is shown
        assert !Covers(mh, p, i);
      } else if i < p && NonBlank(mh[p]) {
        // p lies strictly inside the section opened at i, so it repeats that header,
        // and the header at j ends p's section as well
        assert !EndsSection(mh[p], mh[i]);
        assert EndsSection(mh[j], mh[p]);
        SpanAndLast(mh, p);
      }
    }
  }

  /** Every column strictly inside a rendered cell's span is hidden. */
  lemma InsideSpanHidden(mh: seq<string>, i: nat, k: nat)
    requires i < |mh| && i < k < i + Span(mh, i) <= |mh|
    ensures Hidden(mh, k)
  {
    SpanAndLast(mh, i);
    assert Covers(mh, i, k);
  }

  /** A column that is not hidden renders its own cell first. */
  lemma RenderHead(mh: seq<string>, i: nat)
    requires i < |mh| && !Hidden(mh, i)
    ensures RenderFrom(mh, i) == [HeaderCell(i, mh[i], Span(mh, i))] + RenderFrom(mh, i + 1)
  {
  }

  /** The whole interior of a span is hidden, and the span stays within the row. */
  lemma SpanInteriorHidden(mh: seq<string>, i: nat)
    requires i < |mh|
    ensures 1 <= Span(mh, i) && i + Span(mh, i) <= |mh|
    ensures forall k :: i + 1 <= k < i + Span(mh, i) ==> Hidden(mh, k)
  {
    SpanAndLast(mh, i);
    forall k | i + 1 <= k < i + Span(mh, i)
      ensures Hidden(mh, k)
    {
      InsideSpanHidden(mh, i, k);
    }
  }

  /** Rendering from just after a cell's column is rendering from the end of its span. */
  lemma SkipSpan(mh: seq<string>, i: nat)
    requires i < |mh|
    ensures 1 <= Span(mh, i) && i + Span(mh, i) <= |mh|
    ensures RenderFrom(mh, i + 1) == RenderFrom(mh, i + Span(mh, i))
  {
    SpanInteriorHidden(mh, i);
    SkipHidden(mh, i + 1, i + Span(mh, i));
  }

  lemma {:induction false} RenderShown(mh: seq<string>, i: nat)
    requires i < |mh| && !Hidden(mh, i)
    ensures 1 <= Span(mh, i) && i + Span(mh, i) <= |mh|
    ensures RenderFrom(mh, i) == [HeaderCell(i, mh[i], Span(mh, i))] + RenderFrom(mh, i + Span(mh, i))
  {
    RenderHead(mh, i);
    SkipSpan(mh, i);
  }

  lemma TilesCons(c: HeaderCell, rest: seq<HeaderCell>, from: nat, to: nat)
    requires c.column == from && c.colSpan >= 1 && Tiles(rest, from + c.colSpan, to)
    ensures Tiles([c] + rest, from, to)
  {
    assert ([c] + rest)[1..] == rest;
  }

  lemma {:induction false} TilesFrom(mh: seq<string>, i: nat)
    requires i <= |mh|
    requires i < |mh| ==> !Hidden(mh, i)
    ensures Tiles(RenderFrom(mh, i), i, |mh|)
    decreases |mh| - i
  {
    if i < |mh| {
      var j := i + Span(mh, i);
      RenderShown(mh, i);
      if j < |mh| {
        NextCellShown(mh, i);
      }
      TilesFrom(mh, j);
      TilesCons(HeaderCell(i, mh[i], Span(mh, i)), RenderFrom(mh, j), i, |mh|);
    }
  }

  lemma {:induction false} TilesTotal(cells: seq<HeaderCell>, from: nat, to: nat)
    requires Tiles(cells, from, to)
    ensures from + TotalSpan(cells) == to
    decreases |cells|
  {
    if cells != [] {
      TilesTotal(cells[1..], from + cells[0].colSpan, to);
    }
  }

  /**
   * The rendered merged-header cells cover every column exactly once: they
   * start at column 0, each begins where the previous one's span ends, and
   * their spans add up to the number of columns.
   */
  lemma MergedHeaderRowTiles(mh: seq<string>)
    ensures Tiles(MergedHeaderRow(mh), 0, |mh|)
    ensures TotalSpan(MergedHeaderRow(mh)) == |mh|
  {
    TilesFrom(mh, 0);
    TilesTotal(MergedHeaderRow(mh), 0, |mh|);
  }
}
