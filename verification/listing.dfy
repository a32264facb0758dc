/**
  The `show_database` command: every row of the table, split into embeds
  ("pages") that each stay under the chat platform's cap on embed fields.
  A booking takes a fixed number of fields, so a page holds at most
  `RowsPerPage` bookings.
 */
module Listing {
  import opened Bookings

  /** Fields one booking adds to an embed: seven columns and a separator. */
  const FieldsPerRow: nat := 8
  /** The most fields an embed may carry. */
  const MaxFieldsPerPage: nat := 25
  /** How many bookings fit on a page. */
  const RowsPerPage: nat := 3

  /** Three bookings fit under the field cap and a fourth would not, so the
      loop's test `field_count + 8 > 25` starts a new page after every third row. */
  lemma RowsPerPageIsCapacity()
    ensures FieldsPerRow * RowsPerPage <= MaxFieldsPerPage < FieldsPerRow * (RowsPerPage + 1)
  {
  }

  /** The pages read one after the other. */
  function Concat<T>(pages: seq<seq<T>>): seq<T> {
    if |pages| == 0 then [] else pages[0] + Concat(pages[1..])
  }

  lemma {:induction false} ConcatAppend<T>(pages: seq<seq<T>>, page: seq<T>)
    ensures Concat(pages + [page]) == Concat(pages) + page
  {
    if |pages| == 0 {
      assert pages + [page] == [page];
    } else {
      assert (pages + [page])[1..] == pages[1..] + [page];
      ConcatAppend(pages[1..], page);
    }
  }

  /** Reference paging: consecutive runs of `RowsPerPage` rows, the last run possibly shorter. */
  function Chunks<T>(rows: seq<T>): seq<seq<T>>
    decreases |rows|
  {
    if |rows| == 0 then []
    else if |rows| <= RowsPerPage then [rows]
    else [rows[..RowsPerPage]] + Chunks(rows[RowsPerPage..])
  }

  /** `pages` lists `rows` in order, every page non-empty and within the field
      cap, every page but the last full. */
  ghost predicate IsPaging<T>(rows: seq<T>, pages: seq<seq<T>>) {
    && Concat(pages) == rows
    && (forall i :: 0 <= i < |pages| ==> 0 < |pages[i]| <= RowsPerPage)
    && (forall i :: 0 <= i < |pages| - 1 ==> |pages[i]| == RowsPerPage)
  }

  /** The reference paging is a paging, with ceil(n / 3) pages. */
  lemma {:induction false} ChunksArePaging<T>(rows: seq<T>)
    ensures IsPaging(rows, Chunks(rows))
    ensures |Chunks(rows)| == (|rows| + RowsPerPage - 1) / RowsPerPage
    decreases |rows|
  {
    if |rows| > RowsPerPage {
      var rest := rows[RowsPerPage..];
      ChunksArePaging(rest);
      var pages := Chunks(rows);
      assert pages[1..] == Chunks(rest);
      assert rows == rows[..RowsPerPage] + rest;
    } else if |rows| > 0 {
      assert Concat([rows]) == rows + Concat([]);
    }
  }

  /** There is only one paging of a sequence of rows. */
  lemma {:induction false} PagingIsUnique<T>(rows: seq<T>, pages: seq<seq<T>>)
    requires IsPaging(rows, pages)
    ensures pages == Chunks(rows)
    decreases |pages|
  {
    if |pages| == 1 {
      assert pages[1..] == [];
      assert Concat(pages) == pages[0] + Concat([]);
      assert rows == pages[0];
      assert Chunks(rows) == [rows];
      assert pages == [pages[0]];
    } else if |pages| > 1 {
      var rest := pages[1..];
      assert rows == pages[0] + Concat(rest);
      assert |pages[0]| == RowsPerPage;
      assert rows[..RowsPerPage] == pages[0];
      assert Concat(rest) == rows[RowsPerPage..];
      assert 0 < |rest[0]|;
      assert |rows| > RowsPerPage;
      assert forall i :: 0 <= i < |rest| ==> rest[i] == pages[i + 1];
      PagingIsUnique(rows[RowsPerPage..], rest);
    }
  }

  /** Row `i` sits on page `i / 3`, in slot `i % 3`. */
  lemma {:induction false} RowPosition<T>(rows: seq<T>, i: int)
    requires 0 <= i < |rows|
    ensures i / RowsPerPage < |Chunks(rows)|
    ensures i % RowsPerPage < |Chunks(rows)[i / RowsPerPage]|
    ensures Chunks(rows)[i / RowsPerPage][i % RowsPerPage] == rows[i]
    decreases |rows|
  {
    if |rows| > RowsPerPage && i >= RowsPerPage {
      RowPosition(rows[RowsPerPage..], i - RowsPerPage);
      assert (i - RowsPerPage) / RowsPerPage == i / RowsPerPage - 1;
      assert (i - RowsPerPage) % RowsPerPage == i % RowsPerPage;
    }
  }

  /** The paging loop of `show_database`: start a new embed whenever the next
      booking's fields would pass the cap, then append the last embed if it has
      any fields. */
  method Paginate<T>(rows: seq<T>) returns (pages: seq<seq<T>>)
    ensures Concat(pages) == rows
    ensures forall i :: 0 <= i < |pages| ==> 0 < |pages[i]| && FieldsPerRow * |pages[i]| <= MaxFieldsPerPage
    ensures forall i :: 0 <= i < |pages| - 1 ==> |pages[i]| == RowsPerPage
    ensures |pages| == (|rows| + RowsPerPage - 1) / RowsPerPage
    ensures pages == Chunks(rows)
  {
    pages := [];
    var current: seq<T> := [];
    var fieldCount := 0;
    for i := 0 to |rows|
      invariant fieldCount == FieldsPerRow * |current|
      invariant |current| <= RowsPerPage
      invariant i == 0 <==> (pages == [] && current == [])
      invariant 0 < i ==> 0 < |current|
      invariant forall j :: 0 <= j < |pages| ==> |pages[j]| == RowsPerPage
      invariant Concat(pages) + current == rows[..i]
    {
      if fieldCount + FieldsPerRow > MaxFieldsPerPage {
        ConcatAppend(pages, current);
        pages := pages + [current];
        current := [];
        fieldCount := 0;
      }
      current := current + [rows[i]];
      fieldCount := fieldCount + FieldsPerRow;
    }
    if fieldCount > 0 {
      ConcatAppend(pages, current);
      pages := pages + [current];
    }
    assert rows[..|rows|] == rows;
    assert IsPaging(rows, pages);
    PagingIsUnique(rows, pages);
    ChunksArePaging(rows);
  }

  /** What `show_database` sends: a notice when the table is empty, else the pages. */
  datatype ListingReply = NoBookings | Pages(pages: seq<seq<Booking>>)

  /** `show_database` over the rows `SELECT * FROM bookings` returned, in that order. */
  method ShowDatabase(rows: seq<Booking>) returns (r: ListingReply)
    ensures r.NoBookings? <==> |rows| == 0
    ensures r.Pages? ==> IsPaging(rows, r.pages) && |r.pages| == (|rows| + RowsPerPage - 1) / RowsPerPage
  {
    if |rows| == 0 {
      r := NoBookings;
    } else {
      var pages := Paginate(rows);
      assert IsPaging(rows, pages);
      r := Pages(pages);
    }
  }

  /** `rows` holds every row of `table` exactly once. */
  predicate ListsTable(rows: seq<Booking>, table: Table) {
    && (forall i :: 0 <= i < |rows| ==> rows[i].ticketId in table && table[rows[i].ticketId] == rows[i])
    && (forall id :: id in table ==> exists i :: 0 <= i < |rows| && rows[i].ticketId == id)
    && (forall i, j :: 0 <= i < j < |rows| ==> rows[i].ticketId != rows[j].ticketId)
  }

  /** `x` is on page `i / 3` of `pages`, in slot `i % 3`. */
  ghost predicate ShownAt<T>(pages: seq<seq<T>>, i: int, x: T) {
    && 0 <= i
    && i / RowsPerPage < |pages|
    && i % RowsPerPage < |pages[i / RowsPerPage]|
    && pages[i / RowsPerPage][i % RowsPerPage] == x
  }

  /** Over a full read of the table, the listing is empty exactly when the
      table is, and each stored booking is shown, at the position of the one
      row that holds it. */
  lemma ListingShowsTable(rows: seq<Booking>, table: Table)
    requires ListsTable(rows, table)
    ensures |rows| == 0 <==> table == map[]
    ensures forall id :: id in table ==> exists i :: 0 <= i < |rows| && ShownAt(Chunks(rows), i, table[id])
  {
    if |rows| == 0 {
      assert table.Keys == {};
    } else {
      assert rows[0].ticketId in table;
    }
    forall id | id in table
      ensures exists i :: 0 <= i < |rows| && ShownAt(Chunks(rows), i, table[id])
    {
      var i :| 0 <= i < |rows| && rows[i].ticketId == id;
      RowPosition(rows, i);
      assert ShownAt(Chunks(rows), i, table[id]);
    }
  }

  /** Ten bookings take four messages: three full pages and one with a single booking. */
  lemma TenRowsFourPages<T>(rows: seq<T>)
    requires |rows| == 10
    ensures |Chunks(rows)| == 4
    ensures |Chunks(rows)[0]| == 3 && |Chunks(rows)[1]| == 3 && |Chunks(rows)[2]| == 3 && |Chunks(rows)[3]| == 1
  {
    assert Chunks(rows) == [rows[..3]] + Chunks(rows[3..]);
    assert Chunks(rows[3..]) == [rows[3..][..3]] + Chunks(rows[3..][3..]);
    assert Chunks(rows[3..][3..]) == [rows[3..][3..][..3]] + Chunks(rows[3..][3..][3..]);
    assert Chunks(rows[3..][3..][3..]) == [rows[3..][3..][3..]];
  }
}
