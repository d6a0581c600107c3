/** The paginated schedule table: the page and rows-per-page state, its two
    change handlers, and the slice of the schedule shown on the current page. */
module LoanScheduleTable {
  import opened LoanCalculator

  function Min(a: int, b: int): int
  {
    if a <= b then a else b
  }

  /** How Array.prototype.slice resolves an index against a length: negative
      indices count from the end, and everything is clamped into [0, len]. */
  function SliceIndex(x: int, len: nat): (r: nat)
    ensures r <= len
  {
    if x < 0 then (if len + x > 0 then len + x else 0)
    else if x < len then x
    else len
  }

  /** Array.prototype.slice(start, end). */
  function Slice(s: seq<Entry>, start: int, end: int): seq<Entry>
  {
    var from := SliceIndex(start, |s|);
    var to := SliceIndex(end, |s|);
    if from < to then s[from..to] else []
  }

  /** visibleRows: one page of the schedule. */
  function VisibleRows(schedule: seq<Entry>, page: int, rowsPerPage: int): (rows: seq<Entry>)
    ensures page >= 0 && rowsPerPage >= 0 ==> |rows| <= rowsPerPage
    ensures page >= 0 && rowsPerPage >= 0 && page * rowsPerPage >= |schedule| ==> rows == []
    ensures page >= 0 && rowsPerPage >= 0 && page * rowsPerPage < |schedule| ==>
      rows == schedule[page * rowsPerPage .. Min(|schedule|, page * rowsPerPage + rowsPerPage)]
  {
    Slice(schedule, page * rowsPerPage, page * rowsPerPage + rowsPerPage)
  }

  /** The rows of pages 0 .. k - 1 shown one after another. */
  function Pages(schedule: seq<Entry>, rowsPerPage: int, k: nat): seq<Entry>
  {
    if k == 0 then [] else Pages(schedule, rowsPerPage, k - 1) + VisibleRows(schedule, k - 1, rowsPerPage)
  }

  /** Paging through the table shows every entry once, in order: the first k
      pages are exactly the first k * rowsPerPage entries. */
  lemma {:induction false} PagesTile(schedule: seq<Entry>, rowsPerPage: int, k: nat)
    requires rowsPerPage >= 1
    ensures Pages(schedule, rowsPerPage, k) == schedule[..Min(|schedule|, k * rowsPerPage)]
  {
    if k > 0 {
      PagesTile(schedule, rowsPerPage, k - 1);
      PageStart(k, rowsPerPage);
      SliceAfterPrefix(schedule, (k - 1) * rowsPerPage, rowsPerPage);
    }
  }

  lemma PageStart(k: nat, rowsPerPage: int)
    requires rowsPerPage >= 1
    ensures k >= 1 ==> (k - 1) * rowsPerPage >= 0 && (k - 1) * rowsPerPage + rowsPerPage == k * rowsPerPage
    ensures k * rowsPerPage >= k
  {
  }

  lemma SliceAfterPrefix(schedule: seq<Entry>, start: nat, size: nat)
    ensures schedule[..Min(|schedule|, start)] + Slice(schedule, start, start + size)
         == schedule[..Min(|schedule|, start + size)]
  {
    var a := Min(|schedule|, start);
    var b := Min(|schedule|, start + size);
    if start < |schedule| {
      assert schedule[..b] == schedule[..a] + schedule[a..b];
    }
  }

  /** Enough pages to hold the schedule show the whole schedule. */
  lemma AllPagesShowSchedule(schedule: seq<Entry>, rowsPerPage: int)
    requires rowsPerPage >= 1
    ensures Pages(schedule, rowsPerPage, |schedule|) == schedule
  {
    PagesTile(schedule, rowsPerPage, |schedule|);
    PageStart(|schedule|, rowsPerPage);
  }

  /** The table component's state. The schedule is a read-only input. */
  class Table {
    const schedule: seq<Entry>
    var page: int
    var rowsPerPage: int

    constructor (schedule: seq<Entry>)
      ensures this.schedule == schedule
      ensures page == 0 && rowsPerPage == 12
      ensures Visible() == schedule[..Min(|schedule|, 12)]
    {
      this.schedule := schedule;
      page := 0;
      rowsPerPage := 12;
    }

    function Visible(): seq<Entry>
      reads this
    {
      VisibleRows(schedule, page, rowsPerPage)
    }

    /** The count handed to the pagination control. */
    function Count(): nat
    {
      |schedule|
    }

    method HandleChangePage(newPage: int)
      modifies this
      ensures page == newPage
      ensures rowsPerPage == old(rowsPerPage)
    {
      page := newPage;
    }

    /** The new size comes from the select's value, parsed as an integer. */
    method HandleChangeRowsPerPage(value: int)
      modifies this
      ensures rowsPerPage == value
      ensures page == 0
      ensures value >= 0 ==> Visible() == schedule[..Min(|schedule|, value)]
    {
      rowsPerPage := value;
      page := 0;
    }
  }
}
