/** MyPaging: 32-bit page arithmetic and the windows it cuts from a result. */
module Paging {

  const MAX: int := 0x7FFF_FFFF
  const MIN: int := -0x8000_0000

  newtype int32 = n: int | -0x8000_0000 <= n < 0x8000_0000

  /** The 32-bit two's complement value of an exact result. */
  function Wrap(n: int): int32
    decreases if n > MAX then n - MAX else if n < MIN then MIN - n else 0
  {
    if n > MAX then Wrap(n - 0x1_0000_0000)
    else if n < MIN then Wrap(n + 0x1_0000_0000)
    else n as int32
  }

  lemma WrapFits(n: nat)
    ensures Wrap(n) as int == n <==> n <= MAX
  {
  }

  /** Wrapping takes away a multiple of 2 to the 32nd. */
  lemma {:induction false} WrapIsCongruent(n: int) returns (q: int)
    ensures n == Wrap(n) as int + q * 0x1_0000_0000
    decreases if n > MAX then n - MAX else if n < MIN then MIN - n else 0
  {
    if n > MAX {
      q := WrapIsCongruent(n - 0x1_0000_0000);
      q := q + 1;
    } else if n < MIN {
      q := WrapIsCongruent(n + 0x1_0000_0000);
      q := q - 1;
    } else {
      q := 0;
    }
  }

  function ClampedNo(pageNo: int32): (r: int32)
    ensures r >= 1
  {
    if pageNo <= 0 then 1 else pageNo
  }

  function ClampedSize(pageSize: int32): (r: int32)
    ensures 1 <= r <= 100
  {
    if pageSize > 100 then 100 else if pageSize <= 0 then 5 else pageSize
  }

  function Times(n: nat, size: nat): nat
  {
    if n == 0 then 0 else Times(n - 1, size) + size
  }

  lemma {:induction false} TimesIsProduct(n: nat, size: nat)
    ensures Times(n, size) == n * size
  {
    if n > 0 {
      TimesIsProduct(n - 1, size);
    }
  }

  lemma {:induction false} TimesMonotone(m: nat, n: nat, size: nat)
    requires m <= n
    ensures Times(m, size) <= Times(n, size)
  {
    if m < n {
      TimesMonotone(m, n - 1, size);
    }
  }

  lemma {:induction false} TimesAtLeast(n: nat, size: nat)
    requires size > 0
    ensures Times(n, size) >= n
  {
    if n > 0 {
      TimesAtLeast(n - 1, size);
    }
  }

  /** The offset without overflow: one page size for each page before this one. */
  function ExactOffset(pageNo: int32, pageSize: int32): nat
  {
    Times(ClampedNo(pageNo) as nat - 1, ClampedSize(pageSize) as nat)
  }

  /** The offset as the code computes it, in 32 bits. */
  function Offset(pageNo: int32, pageSize: int32): int32
  {
    Wrap(ClampedSize(pageSize) as int * (ClampedNo(pageNo) as int - 1))
  }

  /** The closure MyPaging returns; it overwrites the page number and size it captured. */
  class Pager {
    var pageNo: int32
    var pageSize: int32

    constructor (pageNo: int32, pageSize: int32)
      ensures this.pageNo == pageNo && this.pageSize == pageSize
    {
      this.pageNo, this.pageSize := pageNo, pageSize;
    }

    /** Applying the closure again gives the same window. */
    method Apply() returns (offset: int32, limit: int32)
      modifies this
      ensures pageNo == ClampedNo(old(pageNo)) && pageSize == ClampedSize(old(pageSize))
      ensures offset == Offset(old(pageNo), old(pageSize)) == Offset(pageNo, pageSize)
      ensures limit == ClampedSize(old(pageSize)) == ClampedSize(pageSize)
      ensures 1 <= old(pageSize) <= 100 ==> limit == old(pageSize)
      ensures old(pageSize) > 100 ==> limit == 100
      ensures old(pageSize) <= 0 ==> limit == 5
      ensures pageNo == if old(pageNo) >= 1 then old(pageNo) else 1
    {
      if pageNo <= 0 {
        pageNo := 1;
      }
      if pageSize > 100 {
        pageSize := 100;
      } else if pageSize <= 0 {
        pageSize := 5;
      }
      offset := Wrap(pageSize as int * (pageNo as int - 1));
      limit := pageSize;
    }
  }

  lemma OffsetIsWrapped(pageNo: int32, pageSize: int32)
    ensures Offset(pageNo, pageSize) == Wrap(ExactOffset(pageNo, pageSize))
  {
    var n, size := ClampedNo(pageNo) as nat - 1, ClampedSize(pageSize) as nat;
    TimesIsProduct(n, size);
    assert size * n == n * size;
  }

  /** The 32-bit offset differs from the exact one by a multiple of 2 to the 32nd. */
  lemma OffsetIsCongruent(pageNo: int32, pageSize: int32) returns (q: int)
    ensures ExactOffset(pageNo, pageSize) == Offset(pageNo, pageSize) as int + q * 0x1_0000_0000
  {
    OffsetIsWrapped(pageNo, pageSize);
    q := WrapIsCongruent(ExactOffset(pageNo, pageSize));
  }

  /** The 32-bit offset is exact precisely when the exact one fits. */
  lemma OffsetIsExactIffItFits(pageNo: int32, pageSize: int32)
    ensures Offset(pageNo, pageSize) as int == ExactOffset(pageNo, pageSize) <==> ExactOffset(pageNo, pageSize) <= MAX
  {
    OffsetIsWrapped(pageNo, pageSize);
    WrapFits(ExactOffset(pageNo, pageSize));
  }

  /** The rows a query with this offset and limit returns; an offset that is not positive is no offset. */
  function Window<T>(rows: seq<T>, offset: int, limit: nat): seq<T>
  {
    var from := if offset <= 0 then 0 else if offset > |rows| then |rows| else offset;
    var to := if from + limit > |rows| then |rows| else from + limit;
    rows[from..to]
  }

  function Page<T>(rows: seq<T>, pageNo: int32, pageSize: int32): seq<T>
  {
    Window(rows, Offset(pageNo, pageSize) as int, ClampedSize(pageSize) as nat)
  }

  /** Every page up to 21,474,837 has an exact offset, whatever the size; the next one, at size 100, does not. */
  lemma ExactUpTo(pageNo: int32, pageSize: int32)
    ensures pageNo <= 21_474_837 ==> ExactOffset(pageNo, pageSize) <= MAX
    ensures ExactOffset(21_474_838, 100) > MAX
  {
    var n, size := ClampedNo(pageNo) as nat - 1, ClampedSize(pageSize) as nat;
    TimesIsProduct(n, size);
    TimesIsProduct(21_474_837, 100);
    assert n * size <= n * 100;
  }

  /** The page after the last exact one wraps to a negative offset, and so shows the first page again. */
  lemma OverflowShowsFirstPage<T>(rows: seq<T>)
    ensures Page(rows, 21_474_838, 100) == Page(rows, 1, 100)
  {
    TimesIsProduct(21_474_837, 100);
  }

  /** Pages numbered zero or below are page 1. */
  lemma LowPagesAreTheFirst<T>(rows: seq<T>, pageNo: int32, pageSize: int32)
    requires pageNo <= 0
    ensures Page(rows, pageNo, pageSize) == Page(rows, 1, pageSize)
  {
  }

  /** An exact offset inside the table cuts out the rows it should. */
  lemma WindowIsSlice<T>(rows: seq<T>, offset: int, size: nat)
    requires 0 <= offset <= |rows| <= MAX
    ensures Window(rows, Wrap(offset) as int, size) ==
            rows[offset..if offset + size > |rows| then |rows| else offset + size]
  {
  }

  /** Pages 1 to n one after another. */
  function Pages<T>(rows: seq<T>, n: nat, pageSize: int32): seq<T>
    requires n <= MAX
  {
    if n == 0 then [] else Pages(rows, n - 1, pageSize) + Page(rows, n as int32, pageSize)
  }

  /** As long as the table's size fits 32 bits, the pages up to any number concatenate to the rows they cover, so
      they neither overlap nor leave a gap. */
  lemma {:induction false} PagesConcatenate<T>(rows: seq<T>, n: nat, pageSize: int32)
    requires n <= MAX && |rows| <= MAX
    requires n > 0 ==> ExactOffset(n as int32, pageSize) <= |rows|
    ensures var to := Times(n, ClampedSize(pageSize) as nat);
            Pages(rows, n, pageSize) == rows[..if to > |rows| then |rows| else to]
  {
    if n > 0 {
      var size := ClampedSize(pageSize) as nat;
      if n > 1 {
        TimesMonotone(n - 2, n - 1, size);
      }
      PagesConcatenate(rows, n - 1, pageSize);
      OffsetIsWrapped(n as int32, pageSize);
      WindowIsSlice(rows, ExactOffset(n as int32, pageSize), size);
    }
  }

  lemma PagesUpToTheLast<T>(rows: seq<T>, last: nat, pageSize: int32)
    requires |rows| <= MAX && 0 < last <= MAX
    requires Times(last - 1, ClampedSize(pageSize) as nat) < |rows| <= Times(last, ClampedSize(pageSize) as nat)
    ensures Pages(rows, last, pageSize) == rows
    ensures forall n: int32 :: 1 <= n && n as int <= last ==> 0 < |Page(rows, n, pageSize)| <= 100
  {
    PagesConcatenate(rows, last, pageSize);
    forall n: int32 | 1 <= n && n as int <= last ensures 0 < |Page(rows, n, pageSize)| <= 100 {
      TimesMonotone(n as nat - 1, last - 1, ClampedSize(pageSize) as nat);
      PageHasRows(rows, n, pageSize);
    }
  }

  lemma PageHasRows<T>(rows: seq<T>, n: int32, pageSize: int32)
    requires ExactOffset(n, pageSize) < |rows| <= MAX
    ensures 0 < |Page(rows, n, pageSize)| <= 100
  {
    OffsetIsWrapped(n, pageSize);
    WindowIsSlice(rows, ExactOffset(n, pageSize), ClampedSize(pageSize) as nat);
  }

  /** Every non-empty table has such a last page. */
  lemma {:induction false} LastPage(count: nat, size: nat) returns (last: nat)
    requires count > 0 && size > 0
    ensures 0 < last <= count && Times(last - 1, size) < count <= Times(last, size)
  {
    last := 1;
    while Times(last, size) < count
      invariant 0 < last && Times(last - 1, size) < count
      decreases count - Times(last, size)
    {
      last := last + 1;
    }
    TimesAtLeast(last - 1, size);
  }

  /** Every non-empty result of 32-bit size has a last page such that pages 1 to it are the whole result, in order and
      without overlap, each with at least one and at most 100 rows. */
  lemma PagesPartitionTheResult<T>(rows: seq<T>, pageSize: int32) returns (last: nat)
    requires 0 < |rows| <= MAX
    ensures 0 < last <= MAX && Pages(rows, last, pageSize) == rows
    ensures forall n: int32 :: 1 <= n && n as int <= last ==> 0 < |Page(rows, n, pageSize)| <= 100
  {
    last := LastPage(|rows|, ClampedSize(pageSize) as nat);
    PagesUpToTheLast(rows, last, pageSize);
  }
}
