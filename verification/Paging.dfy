/** Slice pagination (pkg/app/server/service/common/common.go:74-108). */
module Paging {
  import opened Numbers

  /** `Panicked` stands for slice bounds out of order. */
  datatype Page<T> = Beyond | ReadError | Panicked | Items(items: seq<T>)

  const TWO_64: int := 0x1_0000_0000_0000_0000

  /** The 64-bit value of an arithmetic result. */
  function Wrap64(n: int): (r: int)
    ensures MIN_INT <= r <= MAX_INT
    ensures MIN_INT <= n <= MAX_INT ==> r == n
    ensures exists k :: r == n + k * 0x1_0000_0000_0000_0000
  {
    var low := n % TWO_64;
    assert low == n + (-(n / TWO_64)) * TWO_64;
    assert low - TWO_64 == n + (-(n / TWO_64) - 1) * TWO_64;
    if low <= MAX_INT then low else low - TWO_64
  }

  /** `p.Size`, `p.CurrentPageNum` and `p.TotalPage`, which the call corrects in place. */
  class PaginationQ {
    var size: int
    var currentPageNum: int
    var totalPage: int

    constructor (size: int, currentPageNum: int)
      ensures this.size == size && this.currentPageNum == currentPageNum && totalPage == 0
    {
      this.size, this.currentPageNum, totalPage := size, currentPageNum, 0;
    }
  }

  /** Where a page starts and ends, as numbers without bounds. */
  function Start(size: int, current: int): int {
    size * (current - 1)
  }

  function End(size: int, current: int): int {
    size * current
  }

  lemma PageIsSizeLong(size: int, current: int)
    requires size >= 1 && current >= 1
    ensures 0 <= Start(size, current) && End(size, current) == Start(size, current) + size
  {
  }

  /** The items between two positions, as far as the list goes. */
  function Between<T>(list: seq<T>, lo: int, hi: int): seq<T>
    requires 0 <= lo <= hi
  {
    if lo > |list| then [] else if hi > |list| then list[lo..] else list[lo..hi]
  }

  /** The items of a page: those whose position divided by the size is the page number less one. */
  function PageItems<T>(list: seq<T>, size: int, current: int): seq<T>
    requires size >= 1 && current >= 1
  {
    PageIsSizeLong(size, current);
    Between(list, Start(size, current), End(size, current))
  }

  /** The page asked for: refused when it starts behind the list. */
  function ExactPage<T>(list: seq<T>, size: int, current: int): Page<T>
    requires size >= 1 && current >= 1
  {
    if Start(size, current) > |list| then Beyond else Items(PageItems(list, size, current))
  }

  /** What the 64-bit start and end of a page make of a list: ends before starts and ends at 0 come from
      wrapped products. */
  function Answer<T>(list: seq<T>, num: int, end: int): Page<T> {
    if num > |list| then Beyond
    else if end < num then ReadError
    else if end == 0 then Items(list)
    else if num < 0 then Panicked
    else Items(list[num..if end < |list| then end else |list|])
  }

  /** The page asked for begins where the pages before it end, and has its full size unless the list ends first. */
  lemma ExactPageIs<T>(list: seq<T>, size: int, current: int)
    requires size >= 1 && current >= 1
    ensures size * (current - 1) > |list| ==> ExactPage(list, size, current) == Beyond
    ensures var lo := size * (current - 1);
            0 <= lo <= |list| ==>
              ExactPage(list, size, current) == Items(list[lo..if lo + size < |list| then lo + size else |list|])
  {
    PageIsSizeLong(size, current);
  }

  /** `DataPaging` with the list's own length as total, on machine integers: a size below 1 stands for 10 and a page
      number below 1 for 1, and both are corrected in place. */
  method DataPaging<T>(p: PaginationQ, list: seq<T>, total: int) returns (page: Page<T>)
    requires total == |list| <= MAX_INT
    requires MIN_INT <= p.size <= MAX_INT && MIN_INT <= p.currentPageNum <= MAX_INT
    modifies p
    ensures p.size == (if old(p.size) < 1 then 10 else old(p.size))
    ensures p.currentPageNum == (if old(p.currentPageNum) < 1 then 1 else old(p.currentPageNum))
    ensures p.totalPage == (if |list| == 0 then 1 else old(p.totalPage))
    ensures page == Answer(list, Wrap64(p.size * (p.currentPageNum - 1)), Wrap64(p.size * p.currentPageNum))
    ensures page == ExactPage(list, p.size, p.currentPageNum) <==>
              p.size * p.currentPageNum <= MAX_INT || Wrap64(p.size * (p.currentPageNum - 1)) > |list|
    ensures old(p.size) >= 1 && old(p.currentPageNum) >= 1 && old(p.size * p.currentPageNum) <= MAX_INT ==>
              var lo := old(p.size * (p.currentPageNum - 1));
              && lo >= 0
              && (lo > |list| ==> page == Beyond)
              && (lo <= |list| ==> page == Items(list[lo..if lo + p.size < |list| then lo + p.size else |list|]))
  {
    var data := Copied(list);
    if p.size < 1 {
      p.size := 10;
    }
    if p.currentPageNum < 1 {
      p.currentPageNum := 1;
    }
    if total == 0 {
      p.totalPage := 1;
    }
    AnswerIsPageIff(list, p.size, p.currentPageNum);
    ExactPageIs(list, p.size, p.currentPageNum);
    StartIs(p.size, p.currentPageNum);
    hide ExactPage, Answer, Wrap64, Start, End;
    page := Cut(data, total, Wrap64(p.size * (p.currentPageNum - 1)), Wrap64(p.size * p.currentPageNum));
  }

  lemma StartIs(size: int, current: int)
    requires size >= 1 && current >= 1
    ensures Start(size, current) == size * (current - 1) >= 0 && End(size, current) == size * current
  {
    PageIsSizeLong(size, current);
  }

  /** The copy `DataPaging` starts with. */
  method Copied<T>(list: seq<T>) returns (data: seq<T>)
    ensures data == list
  {
    data := [];
    for i := 0 to |list|
      invariant data == list[..i]
    {
      data := data + [list[i]];
    }
  }

  /** The comparisons at the end of `DataPaging`. */
  method Cut<T>(data: seq<T>, total: int, num: int, end: int) returns (page: Page<T>)
    requires total == |data|
    ensures page == Answer(data, num, end)
  {
    if num > total {
      return Beyond;
    }
    if end > total {
      if num < 0 {
        return Panicked;
      }
      return Items(data[num..]);
    } else {
      if end < num {
        return ReadError;
      }
      if end == 0 {
        return Items(data);
      } else {
        if num < 0 {
          return Panicked;
        }
        return Items(data[num..end]);
      }
    }
  }

  /** The answer is the page asked for exactly when the page ends within the range of the machine's integers, or its
      start is behind the list even after wrapping. */
  lemma AnswerIsPageIff<T>(list: seq<T>, size: int, current: int)
    requires 1 <= size <= MAX_INT && 1 <= current <= MAX_INT && |list| <= MAX_INT
    ensures Answer(list, Wrap64(Start(size, current)), Wrap64(End(size, current))) == ExactPage(list, size, current)
       <==> End(size, current) <= MAX_INT || Wrap64(Start(size, current)) > |list|
  {
    hide Start, End, Answer, Wrap64;
    PageIsSizeLong(size, current);
    WrappedCutIff(list, Start(size, current), size);
  }

  lemma WrappedCutIff<T>(list: seq<T>, lo: int, size: int)
    requires 1 <= size <= MAX_INT && 0 <= lo && |list| <= MAX_INT
    ensures Answer(list, Wrap64(lo), Wrap64(lo + size))
            == (if lo > |list| then Beyond else Items(Between(list, lo, lo + size)))
       <==> lo + size <= MAX_INT || Wrap64(lo) > |list|
  {
  }

  /** Products that wrap: page 2^32 of size 2^32 is the whole list although it lies far behind it, and page 3 of
      size 2^62 makes the slice start below zero. */
  lemma WrappedPages<T>(list: seq<T>)
    requires |list| <= MAX_INT
    ensures Answer(list, Wrap64(Start(0x1_0000_0000, 0x1_0000_0000)), Wrap64(End(0x1_0000_0000, 0x1_0000_0000)))
         == Items(list)
    ensures ExactPage(list, 0x1_0000_0000, 0x1_0000_0000) == Beyond
    ensures Answer(list, Wrap64(Start(0x4000_0000_0000_0000, 3)), Wrap64(End(0x4000_0000_0000_0000, 3))) == Panicked
    ensures ExactPage(list, 0x4000_0000_0000_0000, 3) == Beyond
  {
  }

  /** Products that wrap to 4 and to a negative end: of a list of at least four items, page (2^64 - 4) / 3 + 1 of size
      2^63 - 3 is a reading error. */
  lemma WrappedToReadError<T>(list: seq<T>)
    requires 4 <= |list| <= MAX_INT
    ensures var size, current := 0x7FFF_FFFF_FFFF_FFFD, 0x5555_5555_5555_5555;
            Answer(list, Wrap64(Start(size, current)), Wrap64(End(size, current))) == ReadError
  {
  }

  /** The answers to pages 1 to `k`, one after the other. */
  function Pages<T>(list: seq<T>, size: int, k: nat): seq<T>
    requires size >= 1
  {
    if k == 0 then [] else Pages(list, size, k - 1) + PageItems(list, size, k)
  }

  /** Pages partition the list: no page is longer than its size, the answers to the first `k` pages are the first
      `size * k` items, and a page that is refused lies behind the whole list. */
  lemma {:induction false} PagesPartition<T>(list: seq<T>, size: int, k: nat)
    requires size >= 1
    ensures size * k >= 0
    ensures Pages(list, size, k) == if size * k <= |list| then list[..size * k] else list
    ensures k > 0 ==> |PageItems(list, size, k)| <= size
    ensures k > 0 && size * (k - 1) > |list| ==> Pages(list, size, k - 1) == list
  {
    if k > 0 {
      PagesPartition(list, size, k - 1);
    }
  }

  /** Item `i` of the list is item `i % size` of the answer to page `i / size + 1`. */
  lemma ItemIsOnItsPage<T>(list: seq<T>, size: int, i: nat)
    requires size >= 1 && i < |list|
    ensures var page := ExactPage(list, size, i / size + 1);
            page.Items? && i % size < |page.items| && page.items[i % size] == list[i]
  {
    var c := i / size + 1;
    PageIsSizeLong(size, c);
    assert i == size * (c - 1) + i % size;
    ExactPageIs(list, size, c);
  }
}
