/**
 * The "give me all pages" loops over a server list that may grow between requests.
 *
 * The server is a history of snapshots: request n sees the list as it is then, and
 * reports a total that need not belong to the same moment.  The request after the
 * last snapshot fails, which is how every finite run of a loop ends that does not
 * end by itself.  Results and Sessions use one loop, Tasks and Partitions variants.
 */
module Paging {
  import opened Basics

  newtype int32 = x: int | -0x8000_0000 <= x < 0x8000_0000

  /** The cast of a container size to int32_t. */
  function CastInt32(n: nat): int32 {
    ((n + 0x8000_0000) % 0x1_0000_0000 - 0x8000_0000) as int32
  }

  datatype Snapshot<T> = Snapshot(list: seq<T>, total: int32)

  /** How a loop ends. OutOfRange is an iterator before the page or past its end, undefined in C++. */
  datatype Listing<T> = Listed(items: seq<T>, total: int32, requests: nat) | RpcFailed | OutOfRange

  function PageOf<T>(list: seq<T>, page: nat, size: nat): seq<T> {
    var from := Min(page * size, |list|);
    list[from..from + Min(size, |list| - from)]
  }

  /** Between two requests the list only grows at its end; it always fits an int32 size. */
  ghost predicate Growing<T>(history: seq<Snapshot<T>>) {
    && (forall i :: 0 <= i < |history| ==> |history[i].list| < 0x8000_0000)
    && (forall i, j :: 0 <= i <= j < |history| ==> history[i].list <= history[j].list)
  }

  // ---------------------------------------------------------------- closed form, by lengths only

  /** Full pages seen in the first n responses. */
  function Cursor<T>(history: seq<Snapshot<T>>, size: nat, n: nat): nat
    requires n <= |history|
  {
    if n == 0 then 0 else
      var c := Cursor(history, size, n - 1);
      if (c + 1) * size <= |history[n - 1].list| then c + 1 else c
  }

  /** Length of the prefix known after n responses. */
  function Fetched<T>(history: seq<Snapshot<T>>, size: nat, n: nat): nat
    requires n <= |history|
  {
    if n == 0 then 0 else Min(|history[n - 1].list|, (Cursor(history, size, n - 1) + 1) * size)
  }

  /** The n-th response ends the loop. */
  predicate Done<T>(history: seq<Snapshot<T>>, size: nat, n: nat)
    requires 1 <= n <= |history|
  {
    Fetched(history, size, n) >= history[n - 1].total as int
  }

  /** What listing returns, from the n-th response on: a prefix of the list of the last response. */
  function ListingFrom<T>(history: seq<Snapshot<T>>, size: nat, n: nat): Listing<T>
    requires n >= 1
    decreases |history| + 1 - n
  {
    if n > |history| then RpcFailed
    else if Done(history, size, n) then
      Listed(history[n - 1].list[..Fetched(history, size, n)], history[n - 1].total, n)
    else ListingFrom(history, size, n + 1)
  }

  /** At every step the cursor's pages are complete and the current one is not overrun. */
  lemma {:induction false} CursorBounds<T>(history: seq<Snapshot<T>>, size: nat, n: nat)
    requires size > 0 && n <= |history| && Growing(history)
    ensures Cursor(history, size, n) * size <= Fetched(history, size, n) <= (Cursor(history, size, n) + 1) * size
    ensures n > 0 ==> Fetched(history, size, n) <= |history[n - 1].list|
    ensures n < |history| ==> Fetched(history, size, n) <= |history[n].list|
  {
    if n > 0 {
      CursorBounds(history, size, n - 1);
      var c := Cursor(history, size, n - 1);
      assert (c + 1) * size == c * size + size;
      assert (c + 2) * size == (c + 1) * size + size;
      assert n < |history| ==> history[n - 1].list <= history[n].list;
    }
  }

  /** One turn of the Results loop: the offset is inside the page and the appended part extends the prefix. */
  lemma TurnExtendsPrefix<T>(history: seq<Snapshot<T>>, size: nat, n: nat)
    requires size > 0 && n < |history| && Growing(history)
    ensures var c, had := Cursor(history, size, n), Fetched(history, size, n);
      var list := history[n].list;
      var page := PageOf(list, c, size);
      && c * size <= had <= c * size + |page|
      && |list| < 0x8000_0000
      && list[..had] + page[had - c * size..] == list[..Fetched(history, size, n + 1)]
      && (|page| >= size <==> Cursor(history, size, n + 1) == c + 1)
      && |page| <= size
  {
    CursorBounds(history, size, n);
    var c, had := Cursor(history, size, n), Fetched(history, size, n);
    assert (c + 1) * size == c * size + size;
    var list := history[n].list;
    var page := PageOf(list, c, size);
    assert Min(c * size, |list|) == c * size;
    assert page == list[c * size..Fetched(history, size, n + 1)];
  }

  /** After n responses: the items held and the page asked for next. */
  ghost predicate Holds<T>(history: seq<Snapshot<T>>, size: nat, n: nat, raw: seq<T>, page: nat) {
    && n <= |history|
    && page == Cursor(history, size, n)
    && |raw| == Fetched(history, size, n)
    && (n > 0 ==> |raw| <= |history[n - 1].list| && raw == history[n - 1].list[..|raw|])
  }

  lemma HoldsStep<T>(history: seq<Snapshot<T>>, size: nat, n: nat, raw: seq<T>, page: nat)
    requires size > 0 && n < |history| && Growing(history) && Holds(history, size, n, raw, page)
    ensures var got := PageOf(history[n].list, page, size);
      && page * size <= |raw| <= page * size + |got|
      && |raw| < 0x8000_0000 && |got| < 0x8000_0000
      && Holds(history, size, n + 1, raw + got[|raw| - page * size..], if |got| >= size then page + 1 else page)
      && (|got| >= size ==> page < 0x7FFF_FFFF)
  {
    TurnExtendsPrefix(history, size, n);
    CursorBounds(history, size, n);
    CursorBounds(history, size, n + 1);
    assert n > 0 ==> history[n - 1].list <= history[n].list;
    assert raw == history[n].list[..|raw|];
    MulAtLeast(page + 1, size);
    assert (page + 1) * size == page * size + size;
  }

  lemma MulAtLeast(a: nat, b: nat)
    requires b > 0
    ensures a <= a * b
  {
  }

  lemma CastFits(n: nat)
    requires n < 0x8000_0000
    ensures CastInt32(n) as int == n
  {
  }

  /** list_results and list_sessions: advance on a full page, append what is new. */
  method ListResults<T>(history: seq<Snapshot<T>>, pageSize: int32) returns (r: Listing<T>)
    requires pageSize > 0 && Growing(history)
    ensures r == ListingFrom(history, pageSize as nat, 1)
  {
    var raw: seq<T> := [];
    var currentPage: int32 := 0;
    ghost var size := pageSize as nat;
    var n := 0;
    while true
      invariant currentPage >= 0 && Holds(history, size, n, raw, currentPage as nat)
      invariant ListingFrom(history, size, 1) == ListingFrom(history, size, n + 1)
      decreases |history| - n
    {
      if n == |history| {
        return RpcFailed;
      }
      HoldsStep(history, size, n, raw, currentPage as nat);
      CastFits(|raw|);
      var page := PageOf(history[n].list, currentPage as nat, pageSize as nat);
      assert currentPage as int * pageSize as int <= |raw|;
      var offset: int32 := CastInt32(|raw|) - currentPage * pageSize;
      raw := raw + page[offset as nat..];
      if |page| as int32 >= pageSize {
        currentPage := currentPage + 1;
      }
      n := n + 1;
      CursorBounds(history, size, n);
      CastFits(|raw|);
      if CastInt32(|raw|) >= history[n - 1].total {
        return Listed(raw, history[n - 1].total, n);
      }
    }
  }

  // ---------------------------------------------------------------- what a listing promises

  /** No gaps, no duplicates, nothing lost: a prefix of the last list seen, at least as long as the reported total. */
  lemma {:induction false} ListingIsPrefix<T>(history: seq<Snapshot<T>>, size: nat, n: nat)
    requires size > 0 && n >= 1 && Growing(history)
    ensures var r := ListingFrom(history, size, n);
      r.Listed? ==>
        && n <= r.requests <= |history|
        && r.items <= history[r.requests - 1].list
        && r.total == history[r.requests - 1].total <= CastInt32(|r.items|)
        && forall k :: n <= k < r.requests ==> !Done(history, size, k)
    ensures ListingFrom(history, size, n) != OutOfRange
    decreases |history| + 1 - n
  {
    if n <= |history| {
      CursorBounds(history, size, n);
      if !Done(history, size, n) {
        ListingIsPrefix(history, size, n + 1);
      }
    }
  }

  /**
   * A listing is returned exactly when some response has the prefix known then at least as long
   * as its total; it is the first such response, and that prefix.  Otherwise the requests run out.
   */
  lemma ListedIff<T>(history: seq<Snapshot<T>>, size: nat)
    requires size > 0 && Growing(history)
    ensures var r := ListingFrom(history, size, 1);
      && (r.Listed? <==> exists n :: 1 <= n <= |history| && Fetched(history, size, n) >= history[n - 1].total as int)
      && (r.Listed? ==>
            && 1 <= r.requests <= |history|
            && Fetched(history, size, r.requests) >= history[r.requests - 1].total as int
            && r.items == history[r.requests - 1].list[..Fetched(history, size, r.requests)]
            && r.total == history[r.requests - 1].total
            && forall n :: 1 <= n < r.requests ==> Fetched(history, size, n) < history[n - 1].total as int)
      && (!r.Listed? ==> r == RpcFailed)
  {
    ListedIsFirst(history, size, 1);
    if n :| 1 <= n <= |history| && Fetched(history, size, n) >= history[n - 1].total as int {
      DoneIsListed(history, size, 1, n);
    }
  }

  lemma {:induction false} ListedIsFirst<T>(history: seq<Snapshot<T>>, size: nat, m: nat)
    requires size > 0 && m >= 1 && Growing(history)
    ensures var r := ListingFrom(history, size, m);
      && (r.Listed? ==>
            && m <= r.requests <= |history|
            && Fetched(history, size, r.requests) >= history[r.requests - 1].total as int
            && r.items == history[r.requests - 1].list[..Fetched(history, size, r.requests)]
            && r.total == history[r.requests - 1].total
            && forall n :: m <= n < r.requests ==> Fetched(history, size, n) < history[n - 1].total as int)
      && (!r.Listed? ==> r == RpcFailed)
    decreases |history| + 1 - m
  {
    if m <= |history| {
      CursorBounds(history, size, m);
      if !Done(history, size, m) {
        ListedIsFirst(history, size, m + 1);
      }
    }
  }

  lemma {:induction false} DoneIsListed<T>(history: seq<Snapshot<T>>, size: nat, m: nat, n: nat)
    requires size > 0 && 1 <= m <= n <= |history| && Growing(history)
    requires Fetched(history, size, n) >= history[n - 1].total as int
    ensures ListingFrom(history, size, m).Listed?
    decreases n - m
  {
    if !Done(history, size, m) {
      DoneIsListed(history, size, m + 1, n);
    }
  }

  /** The server never changes and reports its length. */
  ghost predicate Fixed<T>(history: seq<Snapshot<T>>, list: seq<T>) {
    && |list| < 0x8000_0000
    && forall i :: 0 <= i < |history| ==> history[i] == Snapshot(list, |list| as int32)
  }

  lemma {:induction false} FixedFetched<T>(history: seq<Snapshot<T>>, list: seq<T>, size: nat, n: nat)
    requires size > 0 && Fixed(history, list) && n <= |history|
    ensures Fetched(history, size, n) == Min(|list|, n * size)
    ensures Cursor(history, size, n) <= n
    ensures n * size <= |list| ==> Cursor(history, size, n) == n
  {
    if n > 0 {
      FixedFetched(history, list, size, n - 1);
      assert n * size == (n - 1) * size + size;
      if (n - 1) * size > |list| {
        FixedAtEnd(history, list, size, n - 1);
      }
    }
  }

  lemma {:induction false} FixedAtEnd<T>(history: seq<Snapshot<T>>, list: seq<T>, size: nat, n: nat)
    requires size > 0 && Fixed(history, list) && n <= |history| && n * size > |list|
    ensures (Cursor(history, size, n) + 1) * size > |list|
  {
    assert n > 0;
    if (n - 1) * size > |list| {
      FixedAtEnd(history, list, size, n - 1);
      var c := Cursor(history, size, n - 1);
      assert (c + 2) * size == (c + 1) * size + size;
    } else {
      FixedFetched(history, list, size, n - 1);
      assert n * size == (n - 1 + 1) * size;
    }
  }

  function Requests(length: nat, size: nat): nat
    requires size > 0
  {
    if length == 0 then 1 else CeilDiv(length, size)
  }

  /** On a fixed list every loop run returns the whole list after exactly max(1, ceil(N / page size)) requests. */
  lemma {:induction false} FixedListing<T>(history: seq<Snapshot<T>>, list: seq<T>, size: nat, n: nat)
    requires size > 0 && Fixed(history, list)
    requires 1 <= n <= Requests(|list|, size) <= |history|
    ensures ListingFrom(history, size, n) == Listed(list, |list| as int32, Requests(|list|, size))
    decreases Requests(|list|, size) - n
  {
    FixedFetched(history, list, size, n);
    var q := Requests(|list|, size);
    CeilDivBounds(|list|, size);
    if n < q {
      MulMonotone(n + 1, q, size);
      assert (n + 1) * size == n * size + size;
      FixedListing(history, list, size, n + 1);
    } else {
      assert list[..|list|] == list;
    }
  }

  // ---------------------------------------------------------------- the Tasks variant

  /** The Tasks loop advances although the n-th page was short: the reported total alone reaches a page. */
  predicate Stray<T>(history: seq<Snapshot<T>>, size: nat, n: nat)
    requires 1 <= n <= |history|
  {
    && !Done(history, size, n)
    && |history[n - 1].list| < (Cursor(history, size, n - 1) + 1) * size
    && history[n - 1].total as int >= size
  }

  function TasksListingFrom<T>(history: seq<Snapshot<T>>, size: nat, n: nat): Listing<T>
    requires n >= 1
    decreases |history| + 1 - n
  {
    if n > |history| then RpcFailed
    else if Done(history, size, n) then
      Listed(history[n - 1].list[..Fetched(history, size, n)], history[n - 1].total, n)
    else if Stray(history, size, n) then
      if n == |history| then RpcFailed else OutOfRange
    else TasksListingFrom(history, size, n + 1)
  }

  /** The Tasks loop after n responses, `page` asked for next; what remains to be listed leads to `goal`. */
  ghost predicate TasksHold<T>(history: seq<Snapshot<T>>, size: nat, n: nat, raw: seq<T>, page: nat, stray: bool,
                               goal: Listing<T>) {
    && n <= |history| && Holds(history, size, n, raw, Cursor(history, size, n))
    && (if n == 0 then !stray else !Done(history, size, n) && stray == Stray(history, size, n))
    && page == Cursor(history, size, n) + (if stray then 1 else 0)
    && goal == TasksListingFrom(history, size, if stray then n else n + 1)
  }

  lemma StrayTurn<T>(history: seq<Snapshot<T>>, size: nat, n: nat, raw: seq<T>, page: nat, goal: Listing<T>)
    requires size > 0 && n < |history| && Growing(history) && TasksHold(history, size, n, raw, page, true, goal)
    ensures page * size > |raw| && goal == OutOfRange
  {
    StrayOverruns(history, size, n);
  }

  lemma TasksTurn<T>(history: seq<Snapshot<T>>, size: nat, n: nat, raw: seq<T>, page: nat, goal: Listing<T>)
    requires size > 0 && n < |history| && Growing(history) && TasksHold(history, size, n, raw, page, false, goal)
    ensures var got, total := PageOf(history[n].list, page, size), history[n].total;
      && page * size <= |raw| <= page * size + |got|
      && var now := raw + got[|raw| - page * size..];
      && |now| < 0x8000_0000
      && (if |now| >= total as int then goal == Listed(now, total, n + 1)
          else TasksHold(history, size, n + 1, now, page + (if total as int >= size then 1 else 0),
                         Stray(history, size, n + 1), goal))
  {
    HoldsStep(history, size, n, raw, page);
    CursorBounds(history, size, n + 1);
    if !Done(history, size, n + 1) {
      AdvanceUnlessStray(history, size, n);
    }
  }

  /** list_tasks: advance when the reported total reaches a page. */
  method ListTasks<T>(history: seq<Snapshot<T>>, pageSize: int32) returns (r: Listing<T>)
    requires pageSize > 0 && Growing(history)
    ensures r == TasksListingFrom(history, pageSize as nat, 1)
  {
    var raw: seq<T> := [];
    var currentPage: int32 := 0;
    ghost var size := pageSize as nat;
    ghost var goal := TasksListingFrom(history, size, 1);
    ghost var stray := false;
    var n := 0;
    while true
      invariant n <= |history| && currentPage >= 0 && |raw| < 0x8000_0000
      invariant TasksHold(history, size, n, raw, currentPage as nat, stray, goal)
      decreases |history| - n
    {
      if n == |history| {
        return RpcFailed;
      }
      CastFits(|raw|);
      var page := PageOf(history[n].list, currentPage as nat, pageSize as nat);
      var product := currentPage as int * pageSize as int;
      var offset := CastInt32(|raw|) as int - product;
      if stray {
        StrayTurn(history, size, n, raw, currentPage as nat, goal);
      } else {
        TasksTurn(history, size, n, raw, currentPage as nat, goal);
        PageCounterFits(history, pageSize, n, currentPage);
      }
      if product >= 0x8000_0000 || !(0 <= offset <= |page|) {
        return OutOfRange;
      }
      raw := raw + page[offset..];
      CastFits(|raw|);
      if history[n].total >= pageSize {
        currentPage := currentPage + 1;
      }
      n := n + 1;
      if CastInt32(|raw|) >= history[n - 1].total {
        return Listed(raw, history[n - 1].total, n);
      }
      stray := Stray(history, size, n);
    }
  }

  /** After a stray advance the next page starts beyond everything held. */
  lemma StrayOverruns<T>(history: seq<Snapshot<T>>, size: nat, n: nat)
    requires size > 0 && 1 <= n <= |history| && Growing(history) && Stray(history, size, n)
    ensures Cursor(history, size, n) == Cursor(history, size, n - 1)
    ensures Fetched(history, size, n) < (Cursor(history, size, n) + 1) * size
  {
  }

  /** The page counter never reaches the int32 limit: the loop would have ended. */
  lemma PageCounterFits<T>(history: seq<Snapshot<T>>, pageSize: int32, n: nat, page: int32)
    requires pageSize > 0 && n < |history| && Growing(history)
    requires page >= 0 && page as nat == Cursor(history, pageSize as nat, n)
    requires n > 0 ==> !Done(history, pageSize as nat, n)
    ensures page < 0x7FFF_FFFF
  {
    CursorBounds(history, pageSize as nat, n);
    MulAtLeast(page as nat, pageSize as nat);
  }

  /** A response that neither ends the loop nor strays advances on the total exactly when its page was full. */
  lemma AdvanceUnlessStray<T>(history: seq<Snapshot<T>>, size: nat, n: nat)
    requires size > 0 && n < |history| && Growing(history) && !Done(history, size, n + 1)
    ensures var advance := if history[n].total as int >= size then 1 else 0;
      Cursor(history, size, n) + advance == Cursor(history, size, n + 1) + if Stray(history, size, n + 1) then 1 else 0
  {
  }

  /** Page and total come from one moment. */
  ghost predicate OneMoment<T>(history: seq<Snapshot<T>>) {
    forall i :: 0 <= i < |history| ==> history[i].total as int == |history[i].list|
  }

  /** Some response before the last snapshot strays while the loop is still running. */
  ghost predicate StraysFrom<T>(history: seq<Snapshot<T>>, size: nat, n: nat)
    requires n >= 1
  {
    exists k :: n <= k < |history| && Stray(history, size, k) && forall j :: n <= j < k ==> !Done(history, size, j)
  }

  lemma {:induction false} TasksRun<T>(history: seq<Snapshot<T>>, size: nat, n: nat)
    requires size > 0 && n >= 1 && Growing(history)
    ensures TasksListingFrom(history, size, n) == ListingFrom(history, size, n) <==> !StraysFrom(history, size, n)
    ensures TasksListingFrom(history, size, n) == OutOfRange <==> StraysFrom(history, size, n)
    decreases |history| + 1 - n
  {
    ListingIsPrefix(history, size, n);
    if n <= |history| && !Done(history, size, n) {
      TasksRun(history, size, n + 1);
      ListingIsPrefix(history, size, n + 1);
      if Stray(history, size, n) {
        if n == |history| {
          assert ListingFrom(history, size, n + 1) == RpcFailed;
        } else {
          assert StraysFrom(history, size, n);
        }
      } else {
        StraysLater(history, size, n);
      }
    }
  }

  /** The Tasks loop is the Results loop except on runs that stray, where it leaves the page: an exact condition. */
  lemma TasksAgreeUnlessStray<T>(history: seq<Snapshot<T>>, size: nat, n: nat)
    requires size > 0 && n >= 1 && Growing(history)
    ensures TasksListingFrom(history, size, n) == ListingFrom(history, size, n) <==> !StraysFrom(history, size, n)
    ensures TasksListingFrom(history, size, n) == OutOfRange <==> StraysFrom(history, size, n)
    ensures forall k :: n <= k <= |history| ==>
      (Stray(history, size, k) <==>
         && Fetched(history, size, k) < history[k - 1].total as int
         && |history[k - 1].list| < (Cursor(history, size, k - 1) + 1) * size
         && size <= history[k - 1].total as int)
  {
    TasksRun(history, size, n);
  }

  lemma StraysLater<T>(history: seq<Snapshot<T>>, size: nat, n: nat)
    requires 1 <= n <= |history| && !Done(history, size, n) && !Stray(history, size, n)
    ensures StraysFrom(history, size, n) <==> StraysFrom(history, size, n + 1)
  {
  }

  // ---------------------------------------------------------------- the Partitions variant

  /** A non-final response whose page was neither full nor empty: asking again appends its items twice. */
  predicate Repeats<T>(history: seq<Snapshot<T>>, size: nat, n: nat)
    requires 1 <= n <= |history|
  {
    var c := Cursor(history, size, n - 1);
    !Done(history, size, n) && c * size < |history[n - 1].list| < (c + 1) * size
  }

  ghost predicate RepeatsFrom<T>(history: seq<Snapshot<T>>, size: nat, n: nat)
    requires n >= 1
  {
    exists k :: n <= k < |history| && Repeats(history, size, k) && forall j :: n <= j < k ==> !Done(history, size, j)
  }

  lemma RepeatsLater<T>(history: seq<Snapshot<T>>, size: nat, n: nat)
    requires 1 <= n <= |history| && !Done(history, size, n) && !Repeats(history, size, n)
    ensures RepeatsFrom(history, size, n) <==> RepeatsFrom(history, size, n + 1)
  {
  }

  /** Asked again, a page that was neither full nor empty brings an item already held. */
  lemma RepeatBringsDuplicate<T>(history: seq<Snapshot<T>>, size: nat, n: nat, raw: seq<T>)
    requires size > 0 && 1 <= n < |history| && Growing(history)
    requires Repeats(history, size, n) && Holds(history, size, n, raw, Cursor(history, size, n))
    ensures !Distinct(raw + PageOf(history[n].list, Cursor(history, size, n), size))
  {
    var c := Cursor(history, size, n);
    RepeatKeepsCursor(history, size, n);
    PageStart(history[n].list, c, size);
    SharedItem(raw, PageOf(history[n].list, c, size), c * size);
  }

  lemma RepeatKeepsCursor<T>(history: seq<Snapshot<T>>, size: nat, n: nat)
    requires size > 0 && 1 <= n < |history| && Growing(history) && Repeats(history, size, n)
    ensures Cursor(history, size, n) == Cursor(history, size, n - 1)
    ensures Cursor(history, size, n) * size < Fetched(history, size, n) == |history[n - 1].list|
    ensures history[n - 1].list <= history[n].list
  {
  }

  lemma PageStart<T>(list: seq<T>, page: nat, size: nat)
    requires size > 0 && page * size < |list|
    ensures PageOf(list, page, size) != [] && PageOf(list, page, size)[0] == list[page * size]
  {
    assert Min(page * size, |list|) == page * size;
  }

  lemma SharedItem<T>(a: seq<T>, b: seq<T>, i: nat)
    requires i < |a| && |b| > 0 && a[i] == b[0]
    ensures !Distinct(a + b)
  {
    assert (a + b)[i] == (a + b)[|a|];
  }

  lemma DuplicateStays<T>(a: seq<T>, b: seq<T>)
    requires !Distinct(a)
    ensures !Distinct(a + b)
  {
    var i, j :| 0 <= i < j < |a| && a[i] == a[j];
    assert (a + b)[i] == (a + b)[j];
  }

  /** A page appended whole adds just what is new, when the page held nothing yet. */
  lemma WholePageIsNew<T>(history: seq<Snapshot<T>>, size: nat, n: nat, raw: seq<T>)
    requires size > 0 && n < |history| && Growing(history)
    requires Holds(history, size, n, raw, Cursor(history, size, n))
    requires n > 0 ==> !Done(history, size, n) && !Repeats(history, size, n)
    ensures |raw| == Cursor(history, size, n) * size
  {
    CursorBounds(history, size, n);
    if n > 0 {
      CursorBounds(history, size, n - 1);
      assert (Cursor(history, size, n - 1) + 1) * size == Cursor(history, size, n - 1) * size + size;
    }
  }

  /** What the Partitions loop returns after n responses, holding `raw` and asking for `page` next. */
  function PartitionsFrom<T>(history: seq<Snapshot<T>>, size: nat, n: nat, raw: seq<T>, page: nat): Listing<T>
    requires n <= |history|
    decreases |history| - n
  {
    if n == |history| then RpcFailed
    else
      var got := PageOf(history[n].list, page, size);
      var held := raw + got;
      if CastInt32(|held|) >= history[n].total then Listed(held, history[n].total, n + 1)
      else PartitionsFrom(history, size, n + 1, held, if |got| >= size then page + 1 else page)
  }

  function PartitionsListing<T>(history: seq<Snapshot<T>>, size: nat): Listing<T> {
    PartitionsFrom(history, size, 0, [], 0)
  }

  /** list_partitions: every page is appended whole. */
  method ListPartitions<T>(history: seq<Snapshot<T>>, pageSize: int32) returns (r: Listing<T>)
    requires pageSize > 0 && Growing(history)
    ensures r == PartitionsListing(history, pageSize as nat)
  {
    var raw: seq<T> := [];
    var currentPage: int32 := 0;
    ghost var size := pageSize as nat;
    var n := 0;
    while true
      invariant n <= |history| && currentPage >= 0
      invariant PartitionsFrom(history, size, n, raw, currentPage as nat) == PartitionsListing(history, size)
      decreases |history| - n
    {
      if n == |history| {
        return RpcFailed;
      }
      var page := PageOf(history[n].list, currentPage as nat, pageSize as nat);
      raw := raw + page;
      PageIsShort(history, size, n, currentPage as nat);
      if |page| as int32 >= pageSize {
        currentPage := currentPage + 1;
      }
      n := n + 1;
      if CastInt32(|raw|) >= history[n - 1].total {
        return Listed(raw, history[n - 1].total, n);
      }
    }
  }

  lemma PageIsShort<T>(history: seq<Snapshot<T>>, size: nat, n: nat, page: nat)
    requires size > 0 && n < |history| && Growing(history)
    ensures |PageOf(history[n].list, page, size)| < 0x8000_0000
    ensures |PageOf(history[n].list, page, size)| >= size ==> page < 0x7FFF_FFFF
  {
  }

  lemma NothingAfterDone<T>(history: seq<Snapshot<T>>, size: nat, n: nat)
    requires 1 <= n <= |history| && Done(history, size, n)
    ensures !RepeatsFrom(history, size, n)
  {
  }

  lemma {:induction false} DuplicateIsListed<T>(history: seq<Snapshot<T>>, size: nat, n: nat, raw: seq<T>, page: nat)
    requires n <= |history| && !Distinct(raw)
    ensures var r := PartitionsFrom(history, size, n, raw, page); r.Listed? ==> !Distinct(r.items)
    decreases |history| - n
  {
    if n < |history| {
      var got := PageOf(history[n].list, page, size);
      DuplicateStays(raw, got);
      DuplicateIsListed(history, size, n + 1, raw + got, if |got| >= size then page + 1 else page);
    }
  }

  lemma PartitionsRepeat<T>(history: seq<Snapshot<T>>, size: nat, n: nat, raw: seq<T>)
    requires size > 0 && Growing(history) && 1 <= n < |history|
    requires Holds(history, size, n, raw, Cursor(history, size, n)) && Repeats(history, size, n)
    ensures RepeatsFrom(history, size, n)
    ensures var r := PartitionsFrom(history, size, n, raw, Cursor(history, size, n)); r.Listed? ==> !Distinct(r.items)
  {
    RepeatBringsDuplicate(history, size, n, raw);
    DuplicateOnPage(history, size, n, raw, Cursor(history, size, n));
    RepeatsNow(history, size, n);
  }

  lemma RepeatsNow<T>(history: seq<Snapshot<T>>, size: nat, n: nat)
    requires 1 <= n < |history| && Repeats(history, size, n)
    ensures RepeatsFrom(history, size, n)
  {
  }

  lemma DuplicateOnPage<T>(history: seq<Snapshot<T>>, size: nat, n: nat, raw: seq<T>, page: nat)
    requires n < |history| && !Distinct(raw + PageOf(history[n].list, page, size))
    ensures var r := PartitionsFrom(history, size, n, raw, page); r.Listed? ==> !Distinct(r.items)
  {
    var got := PageOf(history[n].list, page, size);
    DuplicateIsListed(history, size, n + 1, raw + got, if |got| >= size then page + 1 else page);
  }

  lemma {:induction false} PartitionsRun<T>(history: seq<Snapshot<T>>, size: nat, n: nat, raw: seq<T>)
    requires size > 0 && Growing(history) && n <= |history|
    requires Holds(history, size, n, raw, Cursor(history, size, n))
    requires n > 0 ==> !Done(history, size, n)
    ensures var r := PartitionsFrom(history, size, n, raw, Cursor(history, size, n));
      if RepeatsFrom(history, size, if n == 0 then 1 else n) then r.Listed? ==> !Distinct(r.items)
      else r == ListingFrom(history, size, n + 1)
    decreases |history| - n
  {
    if n == |history| {
      return;
    }
    var page := Cursor(history, size, n);
    var got := PageOf(history[n].list, page, size);
    HoldsStep(history, size, n, raw, page);
    if n > 0 && Repeats(history, size, n) {
      PartitionsRepeat(history, size, n, raw);
    } else {
      WholePageIsNew(history, size, n, raw);
      if n > 0 {
        RepeatsLater(history, size, n);
      }
      CursorBounds(history, size, n + 1);
      CastFits(|raw + got|);
      if Done(history, size, n + 1) {
        NothingAfterDone(history, size, n + 1);
      } else {
        PartitionsRun(history, size, n + 1, raw + got);
      }
    }
  }

  /**
   * The Partitions loop is the Results loop on the runs that never ask again for a partly
   * filled page; on the others every list it returns holds some item twice.  So, when the
   * server's lists have no duplicates, a returned list has none exactly on the former.
   */
  lemma PartitionsAgreeUnlessRepeats<T>(history: seq<Snapshot<T>>, size: nat)
    requires size > 0 && Growing(history)
    ensures var r := PartitionsListing(history, size);
      && (!RepeatsFrom(history, size, 1) ==> r == ListingFrom(history, size, 1))
      && (RepeatsFrom(history, size, 1) && r.Listed? ==> !Distinct(r.items))
      && ((forall i :: 0 <= i < |history| ==> Distinct(history[i].list)) && r.Listed? ==>
            (Distinct(r.items) <==> !RepeatsFrom(history, size, 1)))
    ensures forall k :: 1 <= k <= |history| ==>
      (Repeats(history, size, k) <==>
         && Fetched(history, size, k) < history[k - 1].total as int
         && Cursor(history, size, k - 1) * size < |history[k - 1].list| < (Cursor(history, size, k - 1) + 1) * size)
  {
    PartitionsRun(history, size, 0, []);
    ListingIsPrefix(history, size, 1);
  }

  // ---------------------------------------------------------------- all four loops on one server

  /** With page and total from one moment no loop strays or repeats: a short page is the last one. */
  lemma OneMomentIsSafe<T>(history: seq<Snapshot<T>>, size: nat)
    requires size > 0 && Growing(history) && OneMoment(history)
    ensures !StraysFrom(history, size, 1) && !RepeatsFrom(history, size, 1)
    ensures TasksListingFrom(history, size, 1) == PartitionsListing(history, size) == ListingFrom(history, size, 1)
  {
    TasksAgreeUnlessStray(history, size, 1);
    PartitionsAgreeUnlessRepeats(history, size);
  }

  /** A list that never changes comes back whole after max(1, ceil(N / page size)) requests, whichever loop asks. */
  lemma AllLoopsOnFixedList<T>(history: seq<Snapshot<T>>, list: seq<T>, size: nat)
    requires size > 0 && Fixed(history, list) && Requests(|list|, size) <= |history|
    ensures ListingFrom(history, size, 1) == TasksListingFrom(history, size, 1) == PartitionsListing(history, size)
            == Listed(list, |list| as int32, Requests(|list|, size))
  {
    CeilDivBounds(|list|, size);
    FixedListing(history, list, size, 1);
    OneMomentIsSafe(history, size);
  }

  /** A list of five that grows by one; the total is always the newest one. */
  const MIXED: seq<Snapshot<int>> := [
    Snapshot([10, 11, 12, 13, 14], 6), Snapshot([10, 11, 12, 13, 14], 6), Snapshot([10, 11, 12, 13, 14, 15], 6)]

  lemma MixedCursors()
    ensures Growing(MIXED)
    ensures Cursor(MIXED, 4, 0) == 0
    ensures Cursor(MIXED, 4, 1) == 1 && Fetched(MIXED, 4, 1) == 4
    ensures Cursor(MIXED, 4, 2) == 1 && Fetched(MIXED, 4, 2) == 5
    ensures Fetched(MIXED, 4, 3) == 6
  {
    assert Cursor(MIXED, 4, 0) == 0;
    assert Cursor(MIXED, 4, 1) == 1 && Fetched(MIXED, 4, 1) == 4;
    assert Cursor(MIXED, 4, 2) == 1 && Fetched(MIXED, 4, 2) == 5;
  }

  lemma MixedPartitions()
    ensures PartitionsListing(MIXED, 4) == Listed([10, 11, 12, 13, 14, 14, 15], 6, 3)
  {
    assert PageOf(MIXED[0].list, 0, 4) == [10, 11, 12, 13];
    assert PageOf(MIXED[1].list, 1, 4) == [14];
    assert PageOf(MIXED[2].list, 1, 4) == [14, 15];
    var two := [10, 11, 12, 13] + [14];
    assert PartitionsFrom(MIXED, 4, 2, two, 1) == Listed(two + [14, 15], 6, 3);
    assert PartitionsFrom(MIXED, 4, 1, [10, 11, 12, 13], 1) == PartitionsFrom(MIXED, 4, 2, two, 1);
    assert [] + [10, 11, 12, 13] == [10, 11, 12, 13];
    assert two + [14, 15] == [10, 11, 12, 13, 14, 14, 15];
  }

  /** Mixed moments do break the variants: five items listed, a sixth only counted, pages of four. */
  lemma MixedMomentsBreakVariants()
    ensures Growing(MIXED) && RepeatsFrom(MIXED, 4, 1)
    ensures ListingFrom(MIXED, 4, 1) == Listed([10, 11, 12, 13, 14, 15], 6, 3)
    ensures TasksListingFrom(MIXED, 4, 1) == OutOfRange
    ensures PartitionsListing(MIXED, 4) == Listed([10, 11, 12, 13, 14, 14, 15], 6, 3)
  {
    MixedCursors();
    MixedPartitions();
    assert ListingFrom(MIXED, 4, 3) == Listed([10, 11, 12, 13, 14, 15], 6, 3);
    assert ListingFrom(MIXED, 4, 2) == ListingFrom(MIXED, 4, 3);
    assert Stray(MIXED, 4, 2) && Repeats(MIXED, 4, 2);
    assert TasksListingFrom(MIXED, 4, 2) == OutOfRange;
  }
}
