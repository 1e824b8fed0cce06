/** The pager: a Prev and a Next button that ask the list screen for the neighbouring page.
    It is not told how many pages there are; the list screen's page-change rule decides. */
module Pagination {
  import Query

  /** Prev asks for the page before. */
  function PrevRequest(page: nat): (r: int)
    ensures r < page && r + 1 == page
  {
    page - 1
  }

  /** Next asks for the page after; nothing ever disables it. */
  function NextRequest(page: nat): (r: int)
    ensures r > page && r - 1 == page
  {
    page + 1
  }

  /** Prev is disabled exactly on the first page, where its request would name no page. */
  predicate PrevDisabled(page: nat): (b: bool)
    ensures b <==> PrevRequest(page) < 0
  {
    page == 0
  }

  datatype Click = Prev | Next

  /** One click, as the list screen handles it. */
  function Step(page: nat, c: Click, pageCount: nat): (p: nat)
    ensures c == Prev ==> p == page || p + 1 == page
    ensures c == Next ==> p == page || p == page + 1
    ensures page < pageCount ==> p < pageCount
    ensures pageCount == 0 ==> p == page
  {
    match c
    case Prev => if PrevDisabled(page) then page else Query.ChangePage(page, PrevRequest(page), pageCount)
    case Next => Query.ChangePage(page, NextRequest(page), pageCount)
  }

  /** Clicks in order. */
  function Run(page: nat, clicks: seq<Click>, pageCount: nat): nat
    decreases |clicks|
  {
    if clicks == [] then page else Run(Step(page, clicks[0], pageCount), clicks[1..], pageCount)
  }

  /** Disabling Prev on the first page changes nothing: the request it would send is for a
      page that does not exist, which the list screen would refuse anyway. */
  lemma PrevDisabledIsRedundant(pageCount: nat)
    ensures Query.ChangePage(0, PrevRequest(0), pageCount) == 0
  {
  }

  /** Starting on an existing page, any clicks keep the page existing. */
  lemma {:induction false} RunStaysInRange(page: nat, clicks: seq<Click>, pageCount: nat)
    requires page < pageCount
    ensures Run(page, clicks, pageCount) < pageCount
    decreases |clicks|
  {
    if clicks != [] {
      RunStaysInRange(Step(page, clicks[0], pageCount), clicks[1..], pageCount);
    }
  }

  /** With no pages every request is refused, so the page never moves. */
  lemma {:induction false} RunWithoutPages(page: nat, clicks: seq<Click>)
    ensures Run(page, clicks, 0) == page
    decreases |clicks|
  {
    if clicks != [] {
      RunWithoutPages(Step(page, clicks[0], 0), clicks[1..]);
    }
  }

  /** From page `p` of `n`, Next reaches the last page after `n - 1 - p` clicks and stays
      there after more. */
  lemma {:induction false} NextsReachLastPage(page: nat, k: nat, pageCount: nat)
    requires page < pageCount
    ensures Run(page, seq(k, _ => Next), pageCount) ==
            if page + k < pageCount then page + k else pageCount - 1
    decreases k
  {
    if k > 0 {
      var clicks := seq(k, _ => Next);
      assert clicks[0] == Next && clicks[1..] == seq(k - 1, _ => Next);
      NextsReachLastPage(Step(page, Next, pageCount), k - 1, pageCount);
    }
  }
}
