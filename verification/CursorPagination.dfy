/** packages/db/src/optimized/pagination.ts: one more row than asked for tells whether there is a next page. */
module CursorPagination {
  import opened JsText

  /** A row's id; the rows of a store are listed in the requested order of their ids. */
  type Id = nat
  datatype Row = Row(id: Id, text: string)

  datatype Args = Args(take: int, cursor: Option<Id>, skip: nat)
  datatype Page = Page(items: seq<Row>, hasNext: bool, nextCursor: Option<Id>)

  function BuildCursorPaginationArgs(cursor: Option<Id>, take: nat): Args {
    var args := Args(take + 1, None, 0);
    if cursor.Some? then args.(cursor := cursor, skip := 1) else args
  }

  function ParseCursorResults(results: seq<Row>, take: nat): Page {
    var hasNext := |results| > take;
    var items := if hasNext then results[..take] else results;
    var nextCursor := if hasNext && items != [] then Some(items[|items| - 1].id) else None;
    Page(items, hasNext, nextCursor)
  }

  ghost predicate DistinctIds(store: seq<Row>) {
    forall i, j :: 0 <= i < j < |store| ==> store[i].id != store[j].id
  }

  /** Where a cursor stands; past the end when its row is gone. */
  function IndexOf(store: seq<Row>, id: Id): (i: nat)
    ensures i <= |store| && (i < |store| ==> store[i].id == id)
    ensures forall k :: 0 <= k < i ==> store[k].id != id
  {
    if store == [] || store[0].id == id then 0 else 1 + IndexOf(store[1..], id)
  }

  /** The query: rows from the cursor's on, some of them skipped, at most `take` of them. */
  function FindMany(store: seq<Row>, args: Args): (rows: seq<Row>)
    requires args.take >= 0
  {
    var from := match args.cursor case None => 0 case Some(id) => IndexOf(store, id);
    var rows := if from + args.skip <= |store| then store[from + args.skip..] else [];
    if |rows| > args.take then rows[..args.take] else rows
  }

  function FetchPage(store: seq<Row>, cursor: Option<Id>, take: nat): Page {
    ParseCursorResults(FindMany(store, BuildCursorPaginationArgs(cursor, take)), take)
  }

  /** A caller that follows nextCursor for as long as it is given one. */
  method Walk(store: seq<Row>, take: nat) returns (pages: seq<Page>)
    requires DistinctIds(store) && take >= 1
    ensures |pages| == PageCount(|store|, take)
    ensures AllItems(pages) == store
    ensures forall i ::
      0 <= i < |pages| ==> (pages[i].hasNext <==> i < |pages| - 1) && pages[i].items == Slice(store, take, i)
  {
    hide FetchPage, Slice, CursorAt, DistinctIds;
    pages := [];
    var cursor, ended := None, false;
    FirstCursor(store, take);
    while !ended
      invariant |pages| <= PageCount(|store|, take) && (ended <==> |pages| == PageCount(|store|, take))
      invariant !ended ==> cursor == CursorAt(store, take, |pages|)
      invariant forall i :: 0 <= i < |pages| ==>
        (pages[i].hasNext <==> i < PageCount(|store|, take) - 1) && pages[i].items == Slice(store, take, i)
      decreases PageCount(|store|, take) - |pages|
    {
      PageIsSlice(store, take, |pages|);
      var page := FetchPage(store, cursor, take);
      pages := pages + [page];
      cursor := page.nextCursor;
      ended := cursor.None?;
    }
    SlicesCover(store, take, pages);
  }

  lemma FirstCursor(store: seq<Row>, take: nat)
    ensures CursorAt(store, take, 0) == None
  {
  }

  // ---------------------------------------------------------------- the slices

  /** One page for an empty store, else as many as it takes. */
  function PageCount(n: nat, take: nat): (count: nat)
    requires take >= 1
    ensures count >= 1
    ensures n > 0 ==> (count - 1) * take < n <= count * take
    ensures n == 0 ==> count == 1
  {
    if n <= take then 1 else 1 + PageCount(n - take, take)
  }

  function Start(n: nat, take: nat, page: nat): nat { if page * take <= n then page * take else n }

  function Slice(store: seq<Row>, take: nat, page: nat): seq<Row> {
    var from, to := Start(|store|, take, page), Start(|store|, take, page + 1);
    assert (page + 1) * take == page * take + take;
    store[from..to]
  }

  /** The last row of the page before. */
  ghost function CursorAt(store: seq<Row>, take: nat, page: nat): Option<Id> {
    var from := Start(|store|, take, page);
    if page == 0 || from == 0 then None else Some(store[from - 1].id)
  }

  function AllItems(pages: seq<Page>): seq<Row> {
    if pages == [] then [] else AllItems(pages[..|pages| - 1]) + pages[|pages| - 1].items
  }

  lemma PageIsSlice(store: seq<Row>, take: nat, page: nat)
    requires DistinctIds(store) && take >= 1 && page < PageCount(|store|, take)
    ensures var p := FetchPage(store, CursorAt(store, take, page), take);
      && p.items == Slice(store, take, page)
      && (p.hasNext <==> page < PageCount(|store|, take) - 1)
      && p.nextCursor == (if p.hasNext then CursorAt(store, take, page + 1) else None)
      && (p.nextCursor.Some? <==> p.hasNext)
  {
    hide FetchPage, Slice, CursorAt, PageCount;
    var from := page * take;
    PageBounds(|store|, take, page);
    SliceBounds(store, take, page, from);
    FetchFrom(store, CursorAt(store, take, page), take, from);
  }

  lemma SliceBounds(store: seq<Row>, take: nat, page: nat, from: nat)
    requires take >= 1 && from == page * take <= |store| && (page > 0 ==> 0 < from)
    ensures var more := from + take < |store|;
      && Slice(store, take, page) == store[from..if more then from + take else |store|]
      && CursorAt(store, take, page) == (if from == 0 then None else Some(store[from - 1].id))
      && (more ==> CursorAt(store, take, page + 1) == Some(store[from + take - 1].id))
  {
    assert (page + 1) * take == from + take;
  }

  lemma FetchFrom(store: seq<Row>, cursor: Option<Id>, take: nat, from: nat)
    requires DistinctIds(store) && take >= 1 && from <= |store|
    requires cursor == if from == 0 then None else Some(store[from - 1].id)
    ensures var p, more := FetchPage(store, cursor, take), from + take < |store|;
      && p.items == store[from..if more then from + take else |store|]
      && p.hasNext == more && p.nextCursor == if more then Some(store[from + take - 1].id) else None
  {
    var rows := FindMany(store, BuildCursorPaginationArgs(cursor, take));
    if from > 0 { assert IndexOf(store, store[from - 1].id) == from - 1; }
    var tail := store[from..];
    assert rows == if |tail| > take + 1 then tail[..take + 1] else tail;
    assert rows == store[from..if from + take + 1 <= |store| then from + take + 1 else |store|];
  }

  lemma PageBounds(n: nat, take: nat, page: nat)
    requires take >= 1 && page < PageCount(n, take)
    ensures page * take <= n && (page > 0 ==> 0 < page * take < n) && (page + 1) * take == page * take + take
    ensures page < PageCount(n, take) - 1 <==> page * take + take < n
  {
    var count := PageCount(n, take);
    if page < count - 1 {
      Multiples(page + 1, count - 1, take);
    } else {
      assert page == count - 1;
    }
    if page > 0 { Multiples(page, count - 1, take); Multiples(1, page, take); }
  }

  lemma Multiples(a: nat, b: nat, take: nat)
    requires a <= b
    ensures a * take <= b * take
  {
    assert (b - a) * take >= 0;
  }

  /** Pages that are the slices of a store, in order, hold the whole store, each row once. */
  lemma SlicesCover(store: seq<Row>, take: nat, pages: seq<Page>)
    requires take >= 1 && |pages| == PageCount(|store|, take)
    requires forall i :: 0 <= i < |pages| ==> pages[i].items == Slice(store, take, i)
    ensures AllItems(pages) == store
  {
    CoverPrefix(store, take, pages);
    assert Start(|store|, take, |pages|) == |store|;
  }

  lemma {:induction false} CoverPrefix(store: seq<Row>, take: nat, pages: seq<Page>)
    requires forall i :: 0 <= i < |pages| ==> pages[i].items == Slice(store, take, i)
    ensures AllItems(pages) == store[..Start(|store|, take, |pages|)]
  {
    if pages != [] {
      CoverPrefix(store, take, pages[..|pages| - 1]);
      Multiples(|pages| - 1, |pages|, take);
    }
  }
}
