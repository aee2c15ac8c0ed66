/** The pagination loop of the workflow-backlog command in
    cmd/openclarion/main.go. */
module Backlog {
  import opened Text

  datatype Status = Unspecified | Running | Completed | Failed | Canceled | Terminated | ContinuedAsNew | TimedOut

  /** `workflowExecutionStatusString`. */
  function StatusText(s: Status): string {
    match s
    case Running => "running"
    case Completed => "completed"
    case Failed => "failed"
    case Canceled => "canceled"
    case Terminated => "terminated"
    case ContinuedAsNew => "continued_as_new"
    case TimedOut => "timed_out"
    case Unspecified => "unspecified"
  }

  /** A listed execution; the list may hold nil pointers. */
  datatype Info = Nil | Info(workflowId: string, runId: string, workflowType: string, status: Status)

  datatype Item = Item(workflowId: string, runId: string, workflowType: string, status: string)

  /** `workflowBacklogCLIItemFromInfo`. */
  function ItemFromInfo(info: Info): Item {
    match info
    case Nil => Item("", "", "", StatusText(Unspecified))
    case Info(workflowId, runId, workflowType, status) => Item(workflowId, runId, workflowType, StatusText(status))
  }

  function ItemsFromInfos(infos: seq<Info>): (items: seq<Item>)
    ensures |items| == |infos|
  {
    seq(|infos|, i requires 0 <= i < |infos| => ItemFromInfo(infos[i]))
  }

  /** One answer of the server: a page of any length, or an error. */
  datatype Response = Page(executions: seq<Info>) | Error

  datatype Request = Request(pageSize: int, token: nat)

  /** The server behind the lister: a finite chain of answers. Token 0 is the
      empty token; page `k` carries token `k + 1` unless it is the last. */
  class Lister {
    const chain: seq<Response>
    var requests: seq<Request>

    constructor (chain: seq<Response>)
      ensures this.chain == chain && requests == []
    {
      this.chain := chain;
      this.requests := [];
    }

    method ListWorkflow(pageSize: int, token: nat) returns (resp: Response, nextPageToken: nat)
      requires token < |chain|
      modifies this
      ensures requests == old(requests) + [Request(pageSize, token)]
      ensures resp == chain[token] && nextPageToken == if token + 1 < |chain| then token + 1 else 0
    {
      requests := requests + [Request(pageSize, token)];
      resp := chain[token];
      nextPageToken := if token + 1 < |chain| then token + 1 else 0;
    }
  }

  datatype Output = Output(returned: nat, truncated: bool, countsByType: map<string, nat>,
                           countsByStatus: map<string, nat>, workflows: seq<Item>)

  // ------------------------------------------------------------ specification

  /** The rows of a chain of pages, concatenated. */
  function Items(chain: seq<Response>): seq<Item> {
    if chain == [] then []
    else
      var n := |chain| - 1;
      Items(chain[..n]) + (if chain[n].Page? then ItemsFromInfos(chain[n].executions) else [])
  }

  lemma {:induction false} ItemsPrefix(chain: seq<Response>, k: nat)
    requires k <= |chain|
    ensures Items(chain[..k]) <= Items(chain)
    decreases |chain|
  {
    if k < |chain| {
      ItemsPrefix(chain[..|chain| - 1], k);
      assert chain[..|chain| - 1][..k] == chain[..k];
    } else {
      assert chain[..k] == chain;
    }
  }

  function Types(items: seq<Item>): (r: seq<string>)
    ensures |r| == |items|
  {
    seq(|items|, i requires 0 <= i < |items| => items[i].workflowType)
  }

  function Statuses(items: seq<Item>): (r: seq<string>)
    ensures |r| == |items|
  {
    seq(|items|, i requires 0 <= i < |items| => items[i].status)
  }

  /** `counts` holds each word of `words` with its number of occurrences. */
  ghost predicate IsTally(counts: map<string, nat>, words: seq<string>) {
    && (forall w :: w in counts <==> w in words)
    && (forall w | w in counts :: counts[w] == multiset(words)[w])
  }

  /** Both count maps of an output are exact tallies of its rows. */
  ghost predicate Counted(out: Output) {
    && IsTally(out.countsByType, Types(out.workflows))
    && IsTally(out.countsByStatus, Statuses(out.workflows))
  }

  /** The requests walk the chain page by page, each asking for the rows
      still missing, but for at least 1 and at most 100. */
  predicate WellPaged(requests: seq<Request>, chain: seq<Response>, limit: nat) {
    && |requests| <= |chain|
    && forall i | 0 <= i < |requests| ::
         && requests[i].token == i
         && 1 <= requests[i].pageSize <= 100
         && requests[i].pageSize == PageSize(limit - |Items(chain[..i])|)
  }

  function PageSize(missing: int): int { if missing > 100 then 100 else missing }

  /** An error is reported when a page fails before the limit is reached. */
  ghost predicate FailsEarly(chain: seq<Response>, limit: nat) {
    exists k :: 0 <= k < |chain| && FailsAt(chain, limit, k)
  }

  predicate FailsAt(chain: seq<Response>, limit: nat, k: nat)
    requires k < |chain|
  {
    chain[k].Error? && |Items(chain[..k])| < limit
  }

  /** What the command prints for a chain of pages. */
  ghost predicate IsReport(chain: seq<Response>, limit: nat, out: Output)
    requires chain != []
  {
    var all := Items(chain);
    && out.workflows == Capped(all, limit)
    && out.returned == |out.workflows|
    && (out.truncated <==> |all| > limit || |Items(chain[..|chain| - 1])| >= limit)
    && Counted(out)
  }

  // --------------------------------------------------------------------- loop

  function Increment(counts: map<string, nat>, w: string): map<string, nat> {
    counts[w := (if w in counts then counts[w] else 0) + 1]
  }

  lemma IncrementTally(counts: map<string, nat>, words: seq<string>, w: string)
    requires IsTally(counts, words)
    ensures IsTally(Increment(counts, w), words + [w])
  {
    assert multiset(words + [w]) == multiset(words) + multiset{w};
    assert w !in words ==> multiset(words)[w] == 0;
  }

  function AddItem(out: Output, item: Item): Output {
    out.(workflows := out.workflows + [item],
         countsByType := Increment(out.countsByType, item.workflowType),
         countsByStatus := Increment(out.countsByStatus, item.status))
  }

  lemma AddItemCounts(out: Output, item: Item)
    requires Counted(out)
    ensures Counted(AddItem(out, item))
  {
    IncrementTally(out.countsByType, Types(out.workflows), item.workflowType);
    IncrementTally(out.countsByStatus, Statuses(out.workflows), item.status);
    TextsNext(out.workflows, item);
  }

  lemma TextsNext(items: seq<Item>, item: Item)
    ensures Types(items + [item]) == Types(items) + [item.workflowType]
    ensures Statuses(items + [item]) == Statuses(items) + [item.status]
  {
  }

  function Capped(items: seq<Item>, limit: nat): seq<Item> {
    if |items| <= limit then items else items[..limit]
  }

  lemma CappedAt(before: seq<Item>, items: seq<Item>, i: nat, limit: nat)
    requires i < |items| && |before| + i == limit
    ensures Capped(before + items, limit) == before + items[..i] && |before + items| > limit
  {
  }

  /** The first `i` of a page's rows have been copied. */
  ghost predicate Copied(out: Output, items: seq<Item>, i: nat, r: Output) {
    && i <= |items| && r.workflows == out.workflows + items[..i] && r.truncated == out.truncated && Counted(r)
  }

  lemma CopyNext(out: Output, items: seq<Item>, i: nat, r: Output)
    requires i < |items| && Copied(out, items, i, r)
    ensures Copied(out, items, i + 1, AddItem(r, items[i]))
  {
    AddItemCounts(r, items[i]);
    assert items[..i + 1] == items[..i] + [items[i]];
    assert out.workflows + items[..i] + [items[i]] == out.workflows + items[..i + 1];
  }

  /** Copies a page's rows into the output until the limit is reached. */
  method AddPage(executions: seq<Info>, limit: nat, out: Output) returns (r: Output)
    requires |out.workflows| <= limit && Counted(out)
    ensures var all := out.workflows + ItemsFromInfos(executions);
      && r.workflows == Capped(all, limit)
      && r.truncated == (out.truncated || |all| > limit)
    ensures Counted(r)
  {
    r := out;
    ghost var items := ItemsFromInfos(executions);
    for i := 0 to |executions|
      invariant Copied(out, items, i, r) && |r.workflows| <= limit
    {
      if |r.workflows| >= limit {
        r := r.(truncated := true);
        CappedAt(out.workflows, items, i, limit);
        return;
      }
      var item := ItemFromInfo(executions[i]);
      CopyNext(out, items, i, r);
      r := AddItem(r, item);
    }
    WholeSlice(items);
  }

  /** `runWorkflowBacklogCLIWithDependencies`; None is its error. The limit is
      one that the argument parser lets through. */
  method RunBacklog(lister: Lister, limit: nat) returns (r: Option<Output>)
    requires limit >= 1 && lister.chain != [] && lister.requests == []
    modifies lister
    ensures r.None? <==> FailsEarly(lister.chain, limit)
    ensures r.Some? ==> IsReport(lister.chain, limit, r.value)
    ensures WellPaged(lister.requests, lister.chain, limit)
  {
    var chain := lister.chain;
    var out := Output(0, false, map[], map[], []);
    var nextPageToken: nat := 0;
    ghost var p := 0;
    while |out.workflows| < limit
      invariant p < |chain| && nextPageToken == p == |lister.requests|
      invariant Collected(chain, p, out) && |out.workflows| < limit
      invariant WellPaged(lister.requests, chain, limit)
      decreases |chain| - p
    {
      var pageSize := limit - |out.workflows|;
      if pageSize > 100 {
        pageSize := 100;
      }
      PagedNext(lister.requests, chain, limit, pageSize);
      var resp, next := lister.ListWorkflow(pageSize, nextPageToken);
      if resp.Error? {
        assert FailsAt(chain, limit, p);
        return None;
      }
      ghost var before := out;
      out := AddPage(resp.executions, limit, out);
      PageAdded(chain, limit, p, before, out);
      p := p + 1;
      nextPageToken := next;
      if nextPageToken == 0 {
        break;
      }
      if |out.workflows| >= limit {
        out := out.(truncated := true);
        break;
      }
    }
    out := out.(returned := |out.workflows|);
    return Some(out);
  }

  /** The output holds all rows of the first `p` pages. */
  ghost predicate Collected(chain: seq<Response>, p: nat, out: Output) {
    && p <= |chain| && (forall k | 0 <= k < p :: chain[k].Page?)
    && out.workflows == Items(chain[..p]) && !out.truncated && Counted(out)
  }

  /** One round of the loop: after it the command has its report, by the last page
      or by the limit, or all rows of one page more. */
  lemma PageAdded(chain: seq<Response>, limit: nat, p: nat, before: Output, out: Output)
    requires p < |chain| && chain[p].Page? && Collected(chain, p, before) && Counted(out)
    requires var all := before.workflows + ItemsFromInfos(chain[p].executions);
      out.workflows == Capped(all, limit) && out.truncated == (|all| > limit)
    requires |before.workflows| < limit
    ensures var report := out.(returned := |out.workflows|);
      if p + 1 == |chain| then !FailsEarly(chain, limit) && IsReport(chain, limit, report)
      else if |out.workflows| >= limit then
        !FailsEarly(chain, limit) && IsReport(chain, limit, report.(truncated := true))
      else Collected(chain, p + 1, out)
  {
    ItemsNext(chain, p);
    NoEarlyFailure(chain, limit, p);
    if p + 1 == |chain| {
      LastPageReport(chain, limit, out);
    } else if |out.workflows| >= limit {
      LimitReport(chain, limit, p + 1, out.(truncated := true));
    }
  }

  lemma LastPageReport(chain: seq<Response>, limit: nat, out: Output)
    requires chain != [] && Counted(out) && |Items(chain[..|chain| - 1])| < limit
    requires out.workflows == Capped(Items(chain[..|chain|]), limit)
    requires out.truncated <==> |Items(chain[..|chain|])| > limit
    ensures IsReport(chain, limit, out.(returned := |out.workflows|))
  {
    WholeSlice(chain);
  }

  lemma LimitReport(chain: seq<Response>, limit: nat, p: nat, out: Output)
    requires p < |chain| && Counted(out) && |Items(chain[..p])| >= limit
    requires out.workflows == Capped(Items(chain[..p]), limit) && out.truncated
    ensures IsReport(chain, limit, out.(returned := |out.workflows|))
  {
    ItemsPrefix(chain, p);
    ItemsPrefix(chain[..|chain| - 1], p);
    assert chain[..|chain| - 1][..p] == chain[..p];
  }

  lemma PagedNext(requests: seq<Request>, chain: seq<Response>, limit: nat, pageSize: int)
    requires WellPaged(requests, chain, limit) && |requests| < |chain|
    requires |Items(chain[..|requests|])| < limit
    requires pageSize == PageSize(limit - |Items(chain[..|requests|])|)
    ensures WellPaged(requests + [Request(pageSize, |requests|)], chain, limit)
  {
  }

  lemma ItemsNext(chain: seq<Response>, p: nat)
    requires p < |chain| && chain[p].Page?
    ensures Items(chain[..p + 1]) == Items(chain[..p]) + ItemsFromInfos(chain[p].executions)
  {
    assert chain[..p + 1][..p] == chain[..p];
  }

  lemma NoEarlyFailure(chain: seq<Response>, limit: nat, p: nat)
    requires p < |chain| && forall k | 0 <= k <= p :: chain[k].Page?
    ensures |Items(chain[..p + 1])| >= limit || p + 1 == |chain| ==> !FailsEarly(chain, limit)
  {
    if |Items(chain[..p + 1])| >= limit {
      forall k | p < k < |chain| ensures |Items(chain[..k])| >= limit {
        ItemsPrefix(chain[..k], p + 1);
        assert chain[..k][..p + 1] == chain[..p + 1];
      }
    }
  }

  // ------------------------------------------------------------- consequences

  /** No answer of the chain is an error, and the rows are all there are. */
  ghost predicate Complete(chain: seq<Response>, rows: seq<Item>) {
    (forall r | r in chain :: r.Page?) && rows == Items(chain)
  }

  /** Without the truncation mark every row was returned; with it, exactly
      `limit` rows were. */
  lemma TruncationMeans(chain: seq<Response>, limit: nat, out: Output)
    requires chain != [] && IsReport(chain, limit, out)
    ensures out.workflows <= Items(chain) && out.returned <= limit
    ensures !out.truncated ==> out.workflows == Items(chain)
    ensures !out.truncated && !FailsEarly(chain, limit) ==> Complete(chain, out.workflows)
    ensures out.truncated ==> out.returned == limit
  {
    var front := chain[..|chain| - 1];
    ItemsPrefix(chain, |chain| - 1);
    forall k | 0 <= k < |chain| && !out.truncated && !FailsEarly(chain, limit) ensures chain[k].Page? {
      ItemsPrefix(front, k);
      assert front[..k] == chain[..k] && !FailsAt(chain, limit, k);
    }
  }

  /** The mark does not prove that rows were dropped: on a complete answer it is
      set exactly when the pages before the last already hold `limit` rows, and
      the last page then holds none. */
  lemma TruncatedYetComplete(chain: seq<Response>, limit: nat, out: Output)
    requires chain != [] && IsReport(chain, limit, out)
    ensures out.truncated && Complete(chain, out.workflows)
       <==> Complete(chain, Items(chain)) && |Items(chain)| == limit == |Items(chain[..|chain| - 1])|
  {
    ItemsPrefix(chain, |chain| - 1);
  }

  /** Such a report: one row, an empty page behind it, and the limit 1. */
  lemma TruncatedWithoutLoss(info: Info) returns (chain: seq<Response>, out: Output)
    ensures chain == [Page([info]), Page([])]
    ensures !FailsEarly(chain, 1) && IsReport(chain, 1, out)
    ensures out.truncated && Complete(chain, out.workflows)
  {
    chain := [Page([info]), Page([])];
    var none := Output(1, true, map[], map[], []);
    AddItemCounts(none, ItemFromInfo(info));
    out := AddItem(none, ItemFromInfo(info));
    ItemsNext(chain, 0);
    ItemsNext(chain, 1);
    assert chain[..0] == [] && chain[..2] == chain;
    assert Items(chain) == [ItemFromInfo(info)] == Items(chain[..1]);
  }

  /** All listed executions, page after page. */
  function Infos(chain: seq<Response>): seq<Info> {
    if chain == [] then []
    else
      var n := |chain| - 1;
      Infos(chain[..n]) + (if chain[n].Page? then chain[n].executions else [])
  }

  lemma {:induction false} ItemsAreInfos(chain: seq<Response>)
    ensures Items(chain) == ItemsFromInfos(Infos(chain))
  {
    if chain != [] {
      var n := |chain| - 1;
      ItemsAreInfos(chain[..n]);
      ItemsConcat(Infos(chain[..n]), if chain[n].Page? then chain[n].executions else []);
    }
  }

  lemma ItemsConcat(infos: seq<Info>, more: seq<Info>)
    ensures ItemsFromInfos(infos + more) == ItemsFromInfos(infos) + ItemsFromInfos(more)
  {
  }

  /** Every row carries the ids and the type of its listed execution, and the word
      for its status; a missing execution gives an empty row. */
  lemma RowsAre(chain: seq<Response>, limit: nat, out: Output, k: nat)
    requires chain != [] && IsReport(chain, limit, out) && k < |out.workflows|
    ensures k < |Infos(chain)|
    ensures var row := out.workflows[k];
      match Infos(chain)[k]
      case Nil => row == Item("", "", "", "unspecified")
      case Info(workflowId, runId, workflowType, status) =>
        && row.workflowId == workflowId && row.runId == runId && row.workflowType == workflowType
        && (row.status == "running" <==> status == Running) && (row.status == "completed" <==> status == Completed)
        && (row.status == "failed" <==> status == Failed) && (row.status == "canceled" <==> status == Canceled)
        && (row.status == "terminated" <==> status == Terminated) && (row.status == "timed_out" <==> status == TimedOut)
        && (row.status == "continued_as_new" <==> status == ContinuedAsNew)
        && (row.status == "unspecified" <==> status == Unspecified)
  {
    ItemsAreInfos(chain);
    StatusWords();
    assert out.workflows[k] == Items(chain)[k] == ItemFromInfo(Infos(chain)[k]);
  }

  lemma StatusWords()
    ensures forall s, t :: StatusText(s) == StatusText(t) ==> s == t
  {
    assert forall s :: |StatusText(s)| == match s
      case Running => 7 case Completed => 9 case Failed => 6 case Canceled => 8
      case Terminated => 10 case ContinuedAsNew => 16 case TimedOut => 9 case Unspecified => 11;
    assert StatusText(Completed)[0] == 'c' && StatusText(TimedOut)[0] == 't';
  }

  ghost function Total(counts: map<string, nat>): nat
    decreases |counts|
  {
    if counts == map[] then 0
    else
      var w :| w in counts;
      counts[w] + Total(counts - {w})
  }

  lemma {:induction false} TotalWithout(counts: map<string, nat>, w: string)
    requires w in counts
    ensures Total(counts) == counts[w] + Total(counts - {w})
    decreases |counts|
  {
    var v :| v in counts && Total(counts) == counts[v] + Total(counts - {v});
    if v != w {
      TotalWithout(counts - {v}, w);
      TotalWithout(counts - {w}, v);
      assert counts - {v} - {w} == counts - {w} - {v};
    }
  }

  /** Exact tallies add up to the number of rows. */
  lemma {:induction false} TallyTotal(counts: map<string, nat>, words: seq<string>)
    requires IsTally(counts, words)
    ensures Total(counts) == |words|
    decreases |words|
  {
    if words != [] {
      var n := |words| - 1;
      var w := words[n];
      assert words == words[..n] + [w];
      assert multiset(words) == multiset(words[..n]) + multiset{w};
      var before := if w in words[..n] then counts[w := counts[w] - 1] else counts - {w};
      assert IsTally(before, words[..n]);
      TallyTotal(before, words[..n]);
      TotalWithout(counts, w);
      if w in words[..n] {
        TotalWithout(before, w);
        assert before - {w} == counts - {w};
      }
    }
  }

  /** Both count maps of a report add up to `returned`. */
  lemma CountsAddUp(chain: seq<Response>, limit: nat, out: Output)
    requires chain != [] && IsReport(chain, limit, out)
    ensures Total(out.countsByType) == Total(out.countsByStatus) == out.returned
  {
    TallyTotal(out.countsByType, Types(out.workflows));
    TallyTotal(out.countsByStatus, Statuses(out.workflows));
  }
}
