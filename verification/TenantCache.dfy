/** The admin app's cached tenant pages: statuses patched in place, and the counters kept beside them. */
module TenantCache {

  datatype Tenant = Tenant(id: string, status: string)

  datatype Page = Page(items: seq<Tenant>, activeCount: int, suspendedCount: int)

  const ACTIVE := "active"
  const SUSPENDED := "suspended"

  function NextStatus(suspend: bool): string {
    if suspend then SUSPENDED else ACTIVE
  }

  /** `items.find(o => o.id === id)?.status === 'suspended'`. */
  predicate FoundSuspended(items: seq<Tenant>, id: string) {
    items != [] && if items[0].id == id then items[0].status == SUSPENDED else FoundSuspended(items[1..], id)
  }

  function SetStatus(items: seq<Tenant>, id: string, status: string): seq<Tenant> {
    if items == [] then []
    else [if items[0].id == id then items[0].(status := status) else items[0]] + SetStatus(items[1..], id, status)
  }

  function Clamp(n: int): int {
    if n < 0 then 0 else n
  }

  /** The updater of patchTenantStatusInCaches. */
  function PatchPage(page: Page, id: string, suspend: bool): Page {
    var wasSuspended := FoundSuspended(page.items, id);
    var activeDelta := if wasSuspended == suspend then 0 else if suspend then -1 else 1;
    var suspendedDelta := if wasSuspended == suspend then 0 else if suspend then 1 else -1;
    Page(SetStatus(page.items, id, NextStatus(suspend)), Clamp(page.activeCount + activeDelta), Clamp(page.suspendedCount + suspendedDelta))
  }

  /** The query cache: one detail per tenant, and any number of listed pages. */
  class QueryCache {
    var details: map<string, string>
    var pages: map<nat, Page>

    method PatchTenantStatusInCaches(tenantId: string, suspend: bool)
      modifies this
      ensures pages == map k | k in old(pages) :: PatchPage(old(pages)[k], tenantId, suspend)
      ensures details == if tenantId in old(details) then old(details)[tenantId := NextStatus(suspend)] else old(details)
    {
      if tenantId in details {
        details := details[tenantId := NextStatus(suspend)];
      }
      pages := map k | k in pages :: PatchPage(pages[k], tenantId, suspend);
    }
  }

  // ----- Counters against a recount -----

  function Recount(items: seq<Tenant>, status: string): nat {
    if items == [] then 0 else (if items[0].status == status then 1 else 0) + Recount(items[1..], status)
  }

  predicate Listed(items: seq<Tenant>, id: string) {
    exists i :: 0 <= i < |items| && items[i].id == id
  }

  predicate UniqueIds(items: seq<Tenant>) {
    forall i, j :: 0 <= i < j < |items| ==> items[i].id != items[j].id
  }

  predicate TwoValued(items: seq<Tenant>) {
    forall i :: 0 <= i < |items| ==> items[i].status == ACTIVE || items[i].status == SUSPENDED
  }

  lemma ListedTail(items: seq<Tenant>, id: string)
    requires items != []
    ensures Listed(items, id) <==> items[0].id == id || Listed(items[1..], id)
  {
    if i :| 0 <= i < |items| && items[i].id == id {
      assert i == 0 || items[1..][i - 1].id == id;
    }
    if i :| 0 <= i < |items[1..]| && items[1..][i].id == id {
      assert items[i + 1].id == id;
    }
  }

  lemma {:induction false} UnlistedUntouched(items: seq<Tenant>, id: string, status: string)
    requires !Listed(items, id)
    ensures SetStatus(items, id, status) == items && !FoundSuspended(items, id)
  {
    if items != [] {
      ListedTail(items, id);
      UnlistedUntouched(items[1..], id, status);
    }
  }

  /** Setting a listed tenant's status moves the recounts exactly as the deltas say. */
  lemma {:induction false} RecountMoves(items: seq<Tenant>, id: string, suspend: bool)
    requires UniqueIds(items) && TwoValued(items) && Listed(items, id)
    ensures var moved := (if FoundSuspended(items, id) == suspend then 0 else if suspend then 1 else -1);
      var after := SetStatus(items, id, NextStatus(suspend));
      && Recount(after, SUSPENDED) == Recount(items, SUSPENDED) + moved
      && Recount(after, ACTIVE) == Recount(items, ACTIVE) - moved
  {
    ListedTail(items, id);
    if items[0].id == id {
      assert !Listed(items[1..], id) by {
        if i :| 0 <= i < |items[1..]| && items[1..][i].id == id { assert items[0].id == items[i + 1].id; }
      }
      UnlistedUntouched(items[1..], id, NextStatus(suspend));
      assert SUSPENDED[0] != ACTIVE[0];
    } else {
      RecountMoves(items[1..], id, suspend);
    }
  }

  /** For a tenant on the page, counter minus in-page recount stays what it was, for both counters. */
  lemma PatchKeepsDifference(page: Page, id: string, suspend: bool)
    requires UniqueIds(page.items) && TwoValued(page.items) && Listed(page.items, id)
    requires page.activeCount >= Recount(page.items, ACTIVE) && page.suspendedCount >= Recount(page.items, SUSPENDED)
    ensures var after := PatchPage(page, id, suspend);
      && after.activeCount - Recount(after.items, ACTIVE) == page.activeCount - Recount(page.items, ACTIVE)
      && after.suspendedCount - Recount(after.items, SUSPENDED) == page.suspendedCount - Recount(page.items, SUSPENDED)
  {
    RecountMoves(page.items, id, suspend);
  }

  /** The counters a page shows belong to the whole list. */
  predicate CountsList(page: Page, list: seq<Tenant>) {
    page.activeCount == Recount(list, ACTIVE) && page.suspendedCount == Recount(list, SUSPENDED)
  }

  lemma {:induction false} FoundIsStatus(items: seq<Tenant>, id: string, i: nat)
    requires UniqueIds(items) && i < |items| && items[i].id == id
    ensures FoundSuspended(items, id) <==> items[i].status == SUSPENDED
  {
    if i > 0 {
      assert items[0].id != items[i].id;
      FoundIsStatus(items[1..], id, i - 1);
    }
  }

  /** The page is an excerpt: what it lists, it lists as the whole list does. */
  predicate Excerpt(page: Page, list: seq<Tenant>) {
    forall i :: 0 <= i < |page.items| ==> page.items[i] in list
  }

  /**
   * Exact counters of the whole list stay exact after the patch of one of its tenants
   * if and only if the tenant is on the page, or was active: off the page it is taken for active.
   */
  lemma CountersStayExactIff(page: Page, list: seq<Tenant>, id: string, suspend: bool)
    requires UniqueIds(list) && TwoValued(list) && Listed(list, id)
    requires UniqueIds(page.items) && Excerpt(page, list) && CountsList(page, list)
    ensures CountsList(PatchPage(page, id, suspend), SetStatus(list, id, NextStatus(suspend)))
       <==> Listed(page.items, id) || !FoundSuspended(list, id)
  {
    RecountMoves(list, id, suspend);
    var i :| 0 <= i < |list| && list[i].id == id;
    FoundIsStatus(list, id, i);
    if j :| 0 <= j < |page.items| && page.items[j].id == id {
      FoundIsStatus(page.items, id, j);
      var k :| 0 <= k < |list| && list[k] == page.items[j];
      assert k == i;
    } else {
      UnlistedUntouched(page.items, id, NextStatus(suspend));
    }
  }

  lemma {:induction false} SetTwice(items: seq<Tenant>, id: string, suspend: bool)
    ensures SetStatus(SetStatus(items, id, NextStatus(suspend)), id, NextStatus(suspend)) == SetStatus(items, id, NextStatus(suspend))
    ensures Listed(items, id) ==> FoundSuspended(SetStatus(items, id, NextStatus(suspend)), id) == suspend
  {
    if items != [] {
      ListedTail(items, id);
      SetTwice(items[1..], id, suspend);
      assert SUSPENDED[0] != ACTIVE[0];
    }
  }

  /** Repeating a patch changes nothing, except that suspending a tenant off the page counts again every time. */
  lemma RepeatChangesNothingIff(page: Page, id: string, suspend: bool)
    requires page.activeCount >= 0 && page.suspendedCount >= 0
    ensures PatchPage(PatchPage(page, id, suspend), id, suspend) == PatchPage(page, id, suspend)
       <==> Listed(page.items, id) || !suspend
  {
    SetTwice(page.items, id, suspend);
    if !Listed(page.items, id) {
      UnlistedUntouched(page.items, id, NextStatus(suspend));
    }
  }

  // ----- Statuses and counters, spelt out -----

  /** The patched tenant has the status asked for, by its name, and the others on the page are as they were. */
  lemma {:induction false} PatchedStatus(items: seq<Tenant>, id: string, suspend: bool, i: nat)
    requires i < |items|
    ensures var after := SetStatus(items, id, NextStatus(suspend));
      |after| == |items| && after[i] == if items[i].id == id then Tenant(id, if suspend then "suspended" else "active") else items[i]
  {
    if i > 0 {
      PatchedStatus(items[1..], id, suspend, i - 1);
    } else if |items| > 1 {
      PatchedStatus(items[1..], id, suspend, 0);
    }
  }

  /** One more on one counter and one less on the other, but never below zero, and nothing if the status stays. */
  lemma CountersMove(page: Page, id: string, suspend: bool)
    requires page.activeCount >= 0 && page.suspendedCount >= 0
    ensures var after, was := PatchPage(page, id, suspend), FoundSuspended(page.items, id);
      && (was == suspend ==> after.activeCount == page.activeCount && after.suspendedCount == page.suspendedCount)
      && (!was && suspend ==>
            after.suspendedCount == page.suspendedCount + 1
            && after.activeCount == if page.activeCount == 0 then 0 else page.activeCount - 1)
      && (was && !suspend ==>
            after.activeCount == page.activeCount + 1
            && after.suspendedCount == if page.suspendedCount == 0 then 0 else page.suspendedCount - 1)
  {
  }
}
