/** What one approval does to the tables and to what the queries report
    afterwards: the claim leaves the pending state for good, its item leaves
    the unclaimed list and moves between the dashboard counts, and every
    other claim and item is reported as before. */
module Lifecycle {

  import opened Wrappers
  import opened Domain
  import opened Numerals
  import opened Tables
  import opened Queries

  /** Once a claim is approved the key that named it finds no pending claim,
      so a second approval of the same key fails. */
  lemma {:induction false} ApprovedClaimIsNoLongerPending(claims: seq<Claim>, key: string)
    requires FindPending(claims, key).Some?
    ensures FindPending(ApproveRows(claims, FindPending(claims, key).value.id), key) == None
  {
    var c := FindPending(claims, key).value;
    var after := ApproveRows(claims, c.id);
    forall k | 0 <= k < |after|
      ensures !(after[k].status == Pending && KeyMatches(key, after[k].id))
    {
      if KeyMatches(key, after[k].id) {
        assert after[k].id == c.id;
      }
    }
  }

  /** Approving one claim leaves every other pending claim approvable,
      including one against the same item: the handler does not look at the
      item's flag. */
  lemma OtherPendingClaimStaysApprovable(claims: seq<Claim>, approvedId: nat, key: string)
    requires FindPending(claims, key).Some?
    requires FindPending(claims, key).value.id != approvedId
    ensures FindPending(ApproveRows(claims, approvedId), key) == FindPending(claims, key)
  {
    FindPendingAfterApproveElsewhere(claims, approvedId, key);
  }

  lemma {:induction false} FindPendingAfterApproveElsewhere(claims: seq<Claim>, approvedId: nat, key: string)
    requires ParseDecimal(key) != Some(approvedId)
    ensures FindPending(ApproveRows(claims, approvedId), key) == FindPending(claims, key)
  {
    if claims != [] {
      var after := ApproveRows(claims, approvedId);
      assert after[1..] == ApproveRows(claims[1..], approvedId);
      FindPendingAfterApproveElsewhere(claims[1..], approvedId, key);
      if claims[0].id == approvedId {
        assert !KeyMatches(key, after[0].id);
      }
    }
  }

  /** The pending-claim rows whose claim id is not `id`. */
  function WithoutClaim(rows: seq<ClaimRow>, id: nat): (kept: seq<ClaimRow>)
  {
    if rows == [] then []
    else (if rows[0].claimId == id then [] else [rows[0]]) + WithoutClaim(rows[1..], id)
  }

  /** Marking an item claimed does not change what an item lookup reports in
      the pending-claim queue: its name, category and location. */
  lemma {:induction false} FindItemAfterMark(items: seq<Item>, markedId: nat, now: int, id: nat)
    ensures FindItem(MarkClaimed(items, markedId, now), id).Some? == FindItem(items, id).Some?
    ensures FindItem(items, id).Some? ==>
      var before, after := FindItem(items, id).value, FindItem(MarkClaimed(items, markedId, now), id).value;
      after.name == before.name && after.category == before.category && after.foundAt == before.foundAt
  {
    if items != [] {
      FindItemAfterMark(items[1..], markedId, now, id);
    }
  }

  /** After the approval the queue is the old queue without the approved
      claim's rows; every other row, including those of other claims on the
      same item, is unchanged and in the same order. */
  lemma {:induction false} ApprovalLeavesQueue(
    claims: seq<Claim>, items: seq<Item>, employees: seq<Employee>, claimId: nat, itemId: nat, now: int)
    ensures GetClaims(ApproveRows(claims, claimId), MarkClaimed(items, itemId, now), employees)
            == WithoutClaim(GetClaims(claims, items, employees), claimId)
  {
    if claims != [] {
      var after := ApproveRows(claims, claimId);
      var marked := MarkClaimed(items, itemId, now);
      assert after[1..] == ApproveRows(claims[1..], claimId);
      ApprovalLeavesQueue(claims[1..], items, employees, claimId, itemId, now);
      FindItemAfterMark(items, itemId, now, claims[0].itemId);
      var headBefore := ClaimRows(claims[0], items, employees);
      var headAfter := ClaimRows(after[0], marked, employees);
      assert headAfter == WithoutClaim(headBefore, claimId);
      WithoutClaimAppend(headBefore, GetClaims(claims[1..], items, employees), claimId);
    }
  }

  lemma {:induction false} WithoutClaimAppend(a: seq<ClaimRow>, b: seq<ClaimRow>, id: nat)
    ensures WithoutClaim(a + b, id) == WithoutClaim(a, id) + WithoutClaim(b, id)
  {
    if a == [] {
      assert a + b == b;
    } else {
      var head := if a[0].claimId == id then [] else [a[0]];
      calc {
        WithoutClaim(a + b, id);
        { assert (a + b)[1..] == a[1..] + b; assert (a + b)[0] == a[0]; }
        head + WithoutClaim(a[1..] + b, id);
        { WithoutClaimAppend(a[1..], b, id); }
        head + (WithoutClaim(a[1..], id) + WithoutClaim(b, id));
        (head + WithoutClaim(a[1..], id)) + WithoutClaim(b, id);
        WithoutClaim(a, id) + WithoutClaim(b, id);
      }
    }
  }

  /** The unclaimed-item rows without those of item `id`. */
  function WithoutItem(rows: seq<ItemRow>, id: nat): (kept: seq<ItemRow>)
  {
    if rows == [] then []
    else (if rows[0].itemId == id then [] else [rows[0]]) + WithoutItem(rows[1..], id)
  }

  /** After the approval the item list loses exactly the approved item. */
  lemma {:induction false} ApprovalLeavesItemList(items: seq<Item>, itemId: nat, now: int, today: int)
    ensures UnclaimedRows(MarkClaimed(items, itemId, now), today) == WithoutItem(UnclaimedRows(items, today), itemId)
  {
    if items != [] {
      var marked := MarkClaimed(items, itemId, now);
      assert marked[1..] == MarkClaimed(items[1..], itemId, now);
      ApprovalLeavesItemList(items[1..], itemId, now, today);
      var head := if items[0].isClaimed == 0 then [ItemRowOf(items[0], today)] else [];
      WithoutItemAppend(head, UnclaimedRows(items[1..], today), itemId);
    }
  }

  lemma {:induction false} WithoutItemAppend(a: seq<ItemRow>, b: seq<ItemRow>, id: nat)
    ensures WithoutItem(a + b, id) == WithoutItem(a, id) + WithoutItem(b, id)
  {
    if a == [] {
      assert a + b == b;
    } else {
      var head := if a[0].itemId == id then [] else [a[0]];
      calc {
        WithoutItem(a + b, id);
        { assert (a + b)[1..] == a[1..] + b; assert (a + b)[0] == a[0]; }
        head + WithoutItem(a[1..] + b, id);
        { WithoutItemAppend(a[1..], b, id); }
        head + (WithoutItem(a[1..], id) + WithoutItem(b, id));
        (head + WithoutItem(a[1..], id)) + WithoutItem(b, id);
        WithoutItem(a, id) + WithoutItem(b, id);
      }
    }
  }

  /** Approving a claim on an unclaimed item moves one item from the
      Unclaimed total to the Claimed total of the dashboard. */
  lemma ApprovalMovesMetrics(items: seq<Item>, k: nat, now: int, today: int)
    requires UniqueItemIds(items) && FlagsAreBinary(items)
    requires k < |items| && items[k].isClaimed == 0
    ensures var before, after := GetMetrics(items, today), GetMetrics(MarkClaimed(items, items[k].id, now), today);
      after[0].totalItems == before[0].totalItems - 1 && after[1].totalItems == before[1].totalItems + 1
  {
    MarkClaimedMovesCount(items, k, now);
  }
}
