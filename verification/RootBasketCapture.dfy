/**
 Cross-field validation of a root-basket capture: receipts of paged reads, the funds
 those pages observed, and the order of the block stamps.
 */
module RootBasketCapture {
  import opened Common
  import opened Decimal

  const MAX_PAGE_FUNDS: nat := 256

  /** The receipt of one page read; `None` is JSON null. */
  datatype Receipt = Receipt(pageIndex: nat, startAfter: Option<string>, nextAfter: Option<string>, fundCount: nat)

  /** A fund as far as the cross-field rules look at it; the parts list their netuids. */
  datatype Fund = Fund(hotkey: string, pageIndex: nat, firstBlock: string, holdings: seq<nat>, targets: seq<nat>)

  datatype Capture = Capture(
    startedAt: string,
    finishedAt: string,
    finalizedBlock: string,
    completedBlock: Option<string>,
    expectedPages: nat,
    expectedFunds: nat,
    pages: seq<Receipt>,
    funds: seq<Fund>)

  datatype Issue =
    | FinishBeforeStart | IndexAfterFinalized | CountMismatch | BrokenChain | RepeatedCursor
    | ReceiptCount | DuplicateFund | AbsentReceipt | BaselineAfterFinalized | DuplicateNetuid

  /** Compares only validated quantities, so a malformed stamp is not "greater". */
  predicate GreaterUnsigned(left: string, right: string) {
    IntegerString(64, false, left) && IntegerString(64, false, right) && IntValue(left) > IntValue(right)
  }

  /** On validated stamps this is the order of the numbers they denote. */
  lemma GreaterUnsignedIsNumeric(a: nat, b: nat)
    requires InWidth(64, false, a) && InWidth(64, false, b)
    ensures GreaterUnsigned(IntText(a), IntText(b)) <==> a > b
  {
    WidthsInUse();
    IntegerStringIsCanonical(64, false, IntText(a));
    IntegerStringIsCanonical(64, false, IntText(b));
    IntRoundTrip(a);
    IntRoundTrip(b);
  }

  // ---- what the rules say ----

  function CountFor(funds: seq<Fund>, page: nat): nat {
    if funds == [] then 0
    else CountFor(funds[..|funds| - 1], page) + if funds[|funds| - 1].pageIndex == page then 1 else 0
  }

  predicate Linked(pages: seq<Receipt>, k: nat)
    requires k < |pages|
  {
    && pages[k].pageIndex == k
    && pages[k].startAfter == (if k == 0 then None else pages[k - 1].nextAfter)
    && (k > 0 ==> pages[k].startAfter.Some?)
    && (k == |pages| - 1 <==> pages[k].nextAfter.None?)
  }

  /** Receipt `k` continues the chain, repeats no cursor, and counts its own funds. */
  ghost predicate ReceiptFine(c: Capture, k: nat)
    requires k < |c.pages|
  {
    && Linked(c.pages, k)
    && (c.pages[k].nextAfter.Some? ==> forall j :: 0 <= j < k ==> c.pages[j].nextAfter != c.pages[k].nextAfter)
    && CountFor(c.funds, k) == c.pages[k].fundCount
  }

  ghost predicate FundFine(c: Capture, k: nat)
    requires k < |c.funds|
  {
    && (forall j :: 0 <= j < k ==> c.funds[j].hotkey != c.funds[k].hotkey)
    && c.funds[k].pageIndex < |c.pages|
    && !GreaterUnsigned(c.funds[k].firstBlock, c.finalizedBlock)
    && Distinct(c.funds[k].holdings) && Distinct(c.funds[k].targets)
  }

  ghost predicate HeaderFine(c: Capture) {
    && !GreaterUnsigned(c.startedAt, c.finishedAt)
    && (c.completedBlock.Some? ==> !GreaterUnsigned(c.completedBlock.value, c.finalizedBlock))
    && |c.pages| == c.expectedPages && |c.funds| == c.expectedFunds
  }

  ghost predicate Accepted(c: Capture) {
    && HeaderFine(c)
    && (forall k :: 0 <= k < |c.pages| ==> ReceiptFine(c, k))
    && (forall k :: 0 <= k < |c.funds| ==> FundFine(c, k))
  }

  /** On validated stamps the header rules are the order of the numbers, and both counts. */
  lemma HeaderIsOrdered(c: Capture, started: nat, finished: nat, finalized: nat, completed: Option<nat>)
    requires InWidth(64, false, started) && InWidth(64, false, finished) && InWidth(64, false, finalized)
    requires c.startedAt == IntText(started) && c.finishedAt == IntText(finished)
    requires c.finalizedBlock == IntText(finalized) && (c.completedBlock.Some? <==> completed.Some?)
    requires completed.Some? ==>
               InWidth(64, false, completed.value) && c.completedBlock.value == IntText(completed.value)
    ensures HeaderFine(c)
            <==> started <= finished && (completed.Some? ==> completed.value <= finalized)
                 && |c.pages| == c.expectedPages && |c.funds| == c.expectedFunds
  {
    GreaterUnsignedIsNumeric(started, finished);
    if completed.Some? {
      GreaterUnsignedIsNumeric(completed.value, finalized);
    }
  }

  /** No fund of an accepted capture was first seen after the finalized block. */
  lemma FundsAreNotLate(c: Capture, k: nat, first: nat, finalized: nat)
    requires k < |c.funds| && InWidth(64, false, first) && InWidth(64, false, finalized)
    requires c.funds[k].firstBlock == IntText(first) && c.finalizedBlock == IntText(finalized)
    ensures Accepted(c) ==> first <= finalized
    ensures FundFine(c, k)
            <==> first <= finalized && c.funds[k].pageIndex < |c.pages|
                 && (forall j :: 0 <= j < k ==> c.funds[j].hotkey != c.funds[k].hotkey)
                 && Distinct(c.funds[k].holdings) && Distinct(c.funds[k].targets)
  {
    GreaterUnsignedIsNumeric(first, finalized);
    assert Accepted(c) ==> FundFine(c, k);
  }

  // ---- the refinement ----

  lemma CountSnoc(funds: seq<Fund>, k: nat, page: nat)
    requires k < |funds|
    ensures CountFor(funds[..k + 1], page) == CountFor(funds[..k], page) + if funds[k].pageIndex == page then 1 else 0
  {
    assert funds[..k + 1][..k] == funds[..k];
  }

  method TallyFunds(funds: seq<Fund>) returns (fundCounts: map<nat, nat>)
    ensures forall p: nat :: (if p in fundCounts then fundCounts[p] else 0) == CountFor(funds, p)
  {
    fundCounts := map[];
    for k := 0 to |funds|
      invariant forall p: nat :: (if p in fundCounts then fundCounts[p] else 0) == CountFor(funds[..k], p)
    {
      forall p: nat {
        CountSnoc(funds, k, p);
      }
      var page := funds[k].pageIndex;
      fundCounts := fundCounts[page := (if page in fundCounts then fundCounts[page] else 0) + 1];
    }
    assert funds[..|funds|] == funds;
  }

  method CheckReceipts(c: Capture) returns (issues: seq<Issue>)
    ensures issues == [] <==> forall k :: 0 <= k < |c.pages| ==> ReceiptFine(c, k)
  {
    var fundCounts := TallyFunds(c.funds);
    issues := [];
    var seenCursors: set<string> := {};
    for position := 0 to |c.pages|
      invariant issues == [] <==> forall k :: 0 <= k < position ==> ReceiptFine(c, k)
      invariant forall s :: s in seenCursors <==> exists j :: 0 <= j < position && c.pages[j].nextAfter == Some(s)
    {
      var row := c.pages[position];
      var expectedStart := if position == 0 then None else c.pages[position - 1].nextAfter;
      var broken := row.pageIndex != position || row.startAfter != expectedStart
                    || (position > 0 && row.startAfter == None)
                    || (position == |c.pages| - 1) != (row.nextAfter == None);
      var repeated := row.nextAfter.Some? && row.nextAfter.value in seenCursors;
      if row.nextAfter.Some? {
        seenCursors := seenCursors + {row.nextAfter.value};
      }
      var miscounted := (if position in fundCounts then fundCounts[position] else 0) != row.fundCount;
      assert broken <==> !Linked(c.pages, position);
      assert repeated
          <==> row.nextAfter.Some? && exists j :: 0 <= j < position && c.pages[j].nextAfter == row.nextAfter;
      assert miscounted <==> CountFor(c.funds, position) != row.fundCount;
      assert ReceiptFine(c, position) <==> !broken && !repeated && !miscounted;
      issues := issues + (if broken then [BrokenChain] else []) + (if repeated then [RepeatedCursor] else [])
                + (if miscounted then [ReceiptCount] else []);
    }
  }

  method HasDuplicate(part: seq<nat>) returns (r: bool)
    ensures r <==> !Distinct(part)
  {
    var unique := Elements(part);
    r := |unique| != |part|;
    DuplicatesShrink(part);
  }

  method CheckFunds(c: Capture) returns (issues: seq<Issue>)
    ensures issues == [] <==> forall k :: 0 <= k < |c.funds| ==> FundFine(c, k)
  {
    issues := [];
    var seenFunds: set<string> := {};
    for k := 0 to |c.funds|
      invariant issues == [] <==> forall j :: 0 <= j < k ==> FundFine(c, j)
      invariant forall h :: h in seenFunds <==> exists j :: 0 <= j < k && c.funds[j].hotkey == h
    {
      var row := c.funds[k];
      var duplicate := row.hotkey in seenFunds;
      seenFunds := seenFunds + {row.hotkey};
      var absent := row.pageIndex >= |c.pages|;
      var late := GreaterUnsigned(row.firstBlock, c.finalizedBlock);
      var h := HasDuplicate(row.holdings);
      var t := HasDuplicate(row.targets);
      assert FundFine(c, k) <==> !duplicate && !absent && !late && !h && !t;
      issues := issues + (if duplicate then [DuplicateFund] else []) + (if absent then [AbsentReceipt] else [])
                + (if late then [BaselineAfterFinalized] else [])
                + (if h then [DuplicateNetuid] else []) + (if t then [DuplicateNetuid] else []);
    }
  }

  /** The whole refinement raises no issue exactly on accepted captures. */
  method Refine(c: Capture) returns (issues: seq<Issue>)
    ensures issues == [] <==> Accepted(c)
  {
    issues := [];
    if GreaterUnsigned(c.startedAt, c.finishedAt) {
      issues := issues + [FinishBeforeStart];
    }
    if c.completedBlock.Some? && GreaterUnsigned(c.completedBlock.value, c.finalizedBlock) {
      issues := issues + [IndexAfterFinalized];
    }
    if |c.pages| != c.expectedPages || |c.funds| != c.expectedFunds {
      issues := issues + [CountMismatch];
    }
    var receipts := CheckReceipts(c);
    var funds := CheckFunds(c);
    issues := issues + receipts + funds;
  }

  // ---- what acceptance means ----

  /** The page that was read from the cursor page `a` ended at. */
  predicate Continues(pages: seq<Receipt>, a: nat, b: nat)
    requires a < |pages| && b < |pages|
  {
    pages[a].nextAfter.Some? && pages[b].startAfter == pages[a].nextAfter
  }

  /** A walk that starts with the first read and then follows cursors. */
  ghost predicate Follows(pages: seq<Receipt>, visit: seq<nat>) {
    && (forall k :: 0 <= k < |visit| ==> visit[k] < |pages|)
    && (visit != [] ==> pages[visit[0]].startAfter == None)
    && (forall k :: 0 <= k < |visit| - 1 ==> Continues(pages, visit[k], visit[k + 1]))
  }

  /** Cursors lead from each page to the next one and nowhere else. */
  lemma ContinuesExactly(c: Capture, a: nat, b: nat)
    requires Accepted(c) && a < |c.pages| && b < |c.pages|
    ensures Continues(c.pages, a, b) <==> b == a + 1
    ensures c.pages[b].startAfter == None <==> b == 0
  {
    assert ReceiptFine(c, a) && ReceiptFine(c, b);
    if b > 0 {
      assert ReceiptFine(c, b - 1);
    }
  }

  /** Following `next_after` from null visits the pages in index order, each once, with no choice. */
  lemma {:induction false} FollowingVisitsInOrder(c: Capture, visit: seq<nat>)
    requires Accepted(c) && Follows(c.pages, visit)
    ensures |visit| <= |c.pages| && forall k :: 0 <= k < |visit| ==> visit[k] == k
    decreases |visit|
  {
    if visit != [] {
      var k := |visit| - 1;
      var init := visit[..k];
      assert forall j :: 0 <= j < |init| - 1 ==> Continues(c.pages, init[j], init[j + 1]);
      FollowingVisitsInOrder(c, init);
      if k == 0 {
        ContinuesExactly(c, 0, visit[0]);
      } else {
        assert init[k - 1] == k - 1;
        assert Continues(c.pages, visit[k - 1], visit[k]);
        ContinuesExactly(c, visit[k - 1], visit[k]);
      }
    }
  }

  /** The walk over all pages exists, and it can only stop at the last receipt. */
  lemma FollowingReachesTheEnd(c: Capture, visit: seq<nat>)
    requires Accepted(c) && c.pages != []
    requires |visit| == |c.pages| && forall k :: 0 <= k < |visit| ==> visit[k] == k
    ensures Follows(c.pages, visit)
    ensures forall a, b :: 0 <= a < |c.pages| && 0 <= b < |c.pages| && Continues(c.pages, a, b) ==> a < b
    ensures forall a :: 0 <= a < |c.pages| ==> (c.pages[a].nextAfter == None <==> a == |c.pages| - 1)
  {
    ContinuesExactly(c, 0, 0);
    forall a, b | 0 <= a < |c.pages| && 0 <= b < |c.pages| ensures Continues(c.pages, a, b) <==> b == a + 1 {
      ContinuesExactly(c, a, b);
    }
    forall a | 0 <= a < |c.pages| ensures c.pages[a].nextAfter == None <==> a == |c.pages| - 1 {
      assert ReceiptFine(c, a);
    }
  }

  function SumCounts(pages: seq<Receipt>): nat {
    if pages == [] then 0 else SumCounts(pages[..|pages| - 1]) + pages[|pages| - 1].fundCount
  }

  function SumTallies(funds: seq<Fund>, n: nat): nat {
    if n == 0 then 0 else SumTallies(funds, n - 1) + CountFor(funds, n - 1)
  }

  lemma {:induction false} TalliesSnoc(funds: seq<Fund>, n: nat)
    requires funds != []
    ensures SumTallies(funds, n)
            == SumTallies(funds[..|funds| - 1], n) + if funds[|funds| - 1].pageIndex < n then 1 else 0
  {
    if n > 0 {
      TalliesSnoc(funds, n - 1);
    }
  }

  lemma {:induction false} TalliesCountAll(funds: seq<Fund>, n: nat)
    requires forall k :: 0 <= k < |funds| ==> funds[k].pageIndex < n
    ensures SumTallies(funds, n) == |funds|
  {
    if funds == [] {
      EmptyTallies(n);
    } else {
      TalliesSnoc(funds, n);
      TalliesCountAll(funds[..|funds| - 1], n);
    }
  }

  lemma {:induction false} EmptyTallies(n: nat)
    ensures SumTallies([], n) == 0
  {
    if n > 0 {
      EmptyTallies(n - 1);
    }
  }

  lemma {:induction false} CountsAreTallies(c: Capture, n: nat)
    requires n <= |c.pages| && forall k :: 0 <= k < n ==> c.pages[k].fundCount == CountFor(c.funds, k)
    ensures SumCounts(c.pages[..n]) == SumTallies(c.funds, n)
  {
    if n > 0 {
      CountsAreTallies(c, n - 1);
      assert c.pages[..n][..n - 1] == c.pages[..n - 1];
    }
  }

  lemma {:induction false} CappedSum(pages: seq<Receipt>)
    requires forall k :: 0 <= k < |pages| ==> pages[k].fundCount <= MAX_PAGE_FUNDS
    ensures SumCounts(pages) <= MAX_PAGE_FUNDS * |pages|
  {
    if pages != [] {
      CappedSum(pages[..|pages| - 1]);
    }
  }

  /** Receipt counts account for every fund, and pages of at most 256 bound how many there are. */
  lemma ReceiptsAccountForFunds(c: Capture)
    requires Accepted(c)
    ensures SumCounts(c.pages) == |c.funds| == c.expectedFunds
    ensures (forall k :: 0 <= k < |c.pages| ==> c.pages[k].fundCount <= MAX_PAGE_FUNDS)
            ==> |c.funds| <= MAX_PAGE_FUNDS * c.expectedPages
  {
    forall k | 0 <= k < |c.pages| ensures c.pages[k].fundCount == CountFor(c.funds, k) {
      assert ReceiptFine(c, k);
    }
    forall k | 0 <= k < |c.funds| ensures c.funds[k].pageIndex < |c.pages| {
      assert FundFine(c, k);
    }
    CountsAreTallies(c, |c.pages|);
    assert c.pages[..|c.pages|] == c.pages;
    TalliesCountAll(c.funds, |c.pages|);
    if forall k :: 0 <= k < |c.pages| ==> c.pages[k].fundCount <= MAX_PAGE_FUNDS {
      CappedSum(c.pages);
    }
  }
}
