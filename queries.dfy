/** The four read-only GET queries of the handler, as functions of the
    tables: the list of unclaimed items, the pending-claim queue, the
    dashboard counts and the employee ranking. */
module Queries {

  import opened Wrappers
  import opened Domain
  import opened Tables
  import opened Sorting

  /** A row of the unclaimed-item list: the selected columns of an item and
      its age in whole days. */
  datatype ItemRow = ItemRow(
    itemId: nat,
    itemName: string,
    itemDescription: string,
    itemCategory: string,
    color: string,
    dateFound: int,
    foundAt: string,
    isClaimed: int,
    daysUnclaimed: int)

  /** A row of the pending-claim queue. */
  datatype ClaimRow = ClaimRow(
    claimId: nat,
    claimDate: int,
    verificationCode: string,
    ownerFirstName: string,
    ownerLastName: string,
    itemName: string,
    itemCategory: string,
    foundAtLocation: string,
    managingStaff: string)

  /** A row of the dashboard. */
  datatype MetricRow = MetricRow(status: string, totalItems: nat, averageDaysUnclaimed: real)

  // ---------------------------------------------------------------- items

  /** The row an item gives on day `today`; with day numbers the cast of the
      day difference to a whole number is exact. */
  function ItemRowOf(item: Item, today: int): (row: ItemRow)
    ensures row.itemId == item.id && row.isClaimed == item.isClaimed
    ensures row.itemName == item.name && row.itemDescription == item.description
    ensures row.itemCategory == item.category && row.color == item.color
    ensures row.dateFound == item.dateFound && row.foundAt == item.foundAt
    ensures row.dateFound + row.daysUnclaimed == today
    ensures item.dateFound <= today ==> row.daysUnclaimed >= 0
  {
    ItemRow(item.id, item.name, item.description, item.category, item.color,
            item.dateFound, item.foundAt, item.isClaimed, today - item.dateFound)
  }

  function DateFoundKey(row: ItemRow): (key: int)
  {
    row.dateFound
  }

  /** `WHERE isClaimed = 0`, in table order. */
  function UnclaimedRows(items: seq<Item>, today: int): (rows: seq<ItemRow>)
  {
    if items == [] then []
    else
      (if items[0].isClaimed == 0 then [ItemRowOf(items[0], today)] else [])
      + UnclaimedRows(items[1..], today)
  }

  /** The rows of the filter are exactly the rows of the unclaimed items, one
      per item. */
  lemma {:induction false} UnclaimedRowsAreUnclaimedItems(items: seq<Item>, today: int)
    ensures |UnclaimedRows(items, today)| == CountFlag(items, 0)
    ensures forall j :: 0 <= j < |items| && items[j].isClaimed == 0 ==>
      ItemRowOf(items[j], today) in UnclaimedRows(items, today)
    ensures forall row :: row in UnclaimedRows(items, today) ==>
      exists j :: 0 <= j < |items| && items[j].isClaimed == 0 && row == ItemRowOf(items[j], today)
  {
    if items != [] {
      UnclaimedRowsAreUnclaimedItems(items[1..], today);
      var rows := UnclaimedRows(items, today);
      var tail := UnclaimedRows(items[1..], today);
      forall row | row in rows
        ensures exists j :: 0 <= j < |items| && items[j].isClaimed == 0 && row == ItemRowOf(items[j], today)
      {
        if row !in tail {
          assert row == ItemRowOf(items[0], today) && items[0].isClaimed == 0;
        } else {
          var j :| 0 <= j < |items[1..]| && items[1..][j].isClaimed == 0 && row == ItemRowOf(items[1..][j], today);
          assert items[j + 1] == items[1..][j];
        }
      }
      forall j | 0 <= j < |items| && items[j].isClaimed == 0
        ensures ItemRowOf(items[j], today) in rows
      {
        if j > 0 {
          assert items[j] == items[1..][j - 1];
        }
      }
    }
  }

  /** GET /api/items: the unclaimed items, newest find first, each with its
      age in days. */
  function GetItems(items: seq<Item>, today: int): (r: seq<ItemRow>)
    ensures SortedDesc(r, DateFoundKey)
    ensures multiset(r) == multiset(UnclaimedRows(items, today))
    ensures forall k :: 0 <= k < |r| ==> r[k].isClaimed == 0 && r[k].daysUnclaimed == today - r[k].dateFound
  {
    var rows := UnclaimedRows(items, today);
    UnclaimedRowsAreUnclaimedItems(items, today);
    var sorted := SortDesc(rows, DateFoundKey);
    forall k | 0 <= k < |sorted|
      ensures sorted[k].isClaimed == 0 && sorted[k].daysUnclaimed == today - sorted[k].dateFound
    {
      assert sorted[k] in multiset(rows);
      assert sorted[k] in rows;
      var j :| 0 <= j < |items| && items[j].isClaimed == 0 && sorted[k] == ItemRowOf(items[j], today);
    }
    sorted
  }

  /** The list holds exactly the unclaimed items: every unclaimed item has
      its row, every row is that of an unclaimed item, and there are as many
      rows as unclaimed items. */
  lemma GetItemsAreTheUnclaimedItems(items: seq<Item>, today: int)
    ensures |GetItems(items, today)| == CountFlag(items, 0)
    ensures forall j :: 0 <= j < |items| && items[j].isClaimed == 0 ==>
      ItemRowOf(items[j], today) in GetItems(items, today)
    ensures forall k :: 0 <= k < |GetItems(items, today)| ==>
      exists j :: 0 <= j < |items| && items[j].isClaimed == 0 && GetItems(items, today)[k] == ItemRowOf(items[j], today)
  {
    var r := GetItems(items, today);
    var rows := UnclaimedRows(items, today);
    UnclaimedRowsAreUnclaimedItems(items, today);
    assert |r| == |multiset(r)| == |multiset(rows)| == |rows|;
    forall j | 0 <= j < |items| && items[j].isClaimed == 0
      ensures ItemRowOf(items[j], today) in r
    {
      assert ItemRowOf(items[j], today) in multiset(rows);
    }
    forall k | 0 <= k < |r|
      ensures exists j :: 0 <= j < |items| && items[j].isClaimed == 0 && r[k] == ItemRowOf(items[j], today)
    {
      assert r[k] in multiset(r);
      assert r[k] in rows;
    }
  }

  // ----------------------------------------------------------- claims

  /** `COALESCE(e.firstName || ' ' || e.lastName, 'Unassigned')` over the
      LEFT JOIN on the handling employee. */
  function ManagingStaff(handledBy: Option<nat>, employees: seq<Employee>): (name: string)
  {
    if handledBy.None? then "Unassigned"
    else match FindEmployee(employees, handledBy.value)
      case None => "Unassigned"
      case Some(e) => e.firstName + " " + e.lastName
  }

  /** The staff column names the employee whose id the claim holds, and is
      'Unassigned' when the claim holds none or one that no employee has. */
  lemma ManagingStaffIsHandler(handledBy: Option<nat>, employees: seq<Employee>)
    requires UniqueEmployeeIds(employees)
    ensures forall k :: 0 <= k < |employees| && handledBy == Some(employees[k].id) ==>
      ManagingStaff(handledBy, employees) == employees[k].firstName + " " + employees[k].lastName
    ensures handledBy.None? || (forall k :: 0 <= k < |employees| ==> employees[k].id != handledBy.value) ==>
      ManagingStaff(handledBy, employees) == "Unassigned"
  {
    forall k | 0 <= k < |employees| && handledBy == Some(employees[k].id)
      ensures ManagingStaff(handledBy, employees) == employees[k].firstName + " " + employees[k].lastName
    {
      FindEmployeeOfRow(employees, k);
    }
  }

  /** The queue row of claim `c` on `item`: the claim's columns, the item's
      name, category and location, and the staff column of its handler. */
  function ClaimRowOf(c: Claim, item: Item, employees: seq<Employee>): (row: ClaimRow)
    ensures row.claimId == c.id && row.claimDate == c.claimDate
    ensures row.verificationCode == c.verificationCode
    ensures row.ownerFirstName == c.ownerFirstName && row.ownerLastName == c.ownerLastName
    ensures row.itemName == item.name && row.itemCategory == item.category
    ensures row.foundAtLocation == item.foundAt
    ensures row.managingStaff == ManagingStaff(c.handledBy, employees)
  {
    ClaimRow(c.id, c.claimDate, c.verificationCode, c.ownerFirstName, c.ownerLastName,
             item.name, item.category, item.foundAt, ManagingStaff(c.handledBy, employees))
  }

  /** The rows one claim contributes: one if it is pending and its item exists. */
  function ClaimRows(c: Claim, items: seq<Item>, employees: seq<Employee>): (rows: seq<ClaimRow>)
  {
    if c.status == Pending then
      match FindItem(items, c.itemId)
      case None => []
      case Some(item) => [ClaimRowOf(c, item, employees)]
    else []
  }

  /** A claim the inner join keeps: pending, with an existing item. */
  predicate Joinable(c: Claim, items: seq<Item>)
  {
    c.status == Pending && FindItem(items, c.itemId).Some?
  }

  /** The number of claims the inner join keeps. */
  function CountJoinable(claims: seq<Claim>, items: seq<Item>): (n: nat)
    ensures n <= |claims|
  {
    if claims == [] then 0
    else (if Joinable(claims[0], items) then 1 else 0) + CountJoinable(claims[1..], items)
  }

  /** GET /api/claims: the pending claims joined to their item (inner join)
      and to their handler (left join), in claim order: one row per pending
      claim whose item exists. */
  function GetClaims(claims: seq<Claim>, items: seq<Item>, employees: seq<Employee>): (r: seq<ClaimRow>)
    ensures |r| == CountJoinable(claims, items) <= |claims|
  {
    if claims == [] then []
    else ClaimRows(claims[0], items, employees) + GetClaims(claims[1..], items, employees)
  }

  /** Every row of the queue is a pending claim joined to its item, and every
      pending claim whose item exists is in the queue. */
  lemma {:induction false} GetClaimsArePendingClaimsWithItems(
    claims: seq<Claim>, items: seq<Item>, employees: seq<Employee>)
    ensures forall row :: row in GetClaims(claims, items, employees) ==>
      exists j :: 0 <= j < |claims| && claims[j].status == Pending
        && FindItem(items, claims[j].itemId).Some?
        && row == ClaimRowOf(claims[j], FindItem(items, claims[j].itemId).value, employees)
    ensures forall j, i ::
      (0 <= j < |claims| && claims[j].status == Pending && 0 <= i < |items| && items[i].id == claims[j].itemId) ==>
      exists k :: 0 <= k < |GetClaims(claims, items, employees)|
        && GetClaims(claims, items, employees)[k].claimId == claims[j].id
  {
    if claims != [] {
      GetClaimsArePendingClaimsWithItems(claims[1..], items, employees);
      var r := GetClaims(claims, items, employees);
      var head := ClaimRows(claims[0], items, employees);
      var tail := GetClaims(claims[1..], items, employees);
      assert r == head + tail;
      forall row | row in r
        ensures exists j :: (0 <= j < |claims| && claims[j].status == Pending
          && FindItem(items, claims[j].itemId).Some?
          && row == ClaimRowOf(claims[j], FindItem(items, claims[j].itemId).value, employees))
      {
        if row in head {
          assert claims[0].status == Pending && FindItem(items, claims[0].itemId).Some?;
        } else {
          assert row in tail;
          var j :| 0 <= j < |claims[1..]| && claims[1..][j].status == Pending
            && FindItem(items, claims[1..][j].itemId).Some?
            && row == ClaimRowOf(claims[1..][j], FindItem(items, claims[1..][j].itemId).value, employees);
          assert claims[j + 1] == claims[1..][j];
        }
      }
      forall j, i | 0 <= j < |claims| && claims[j].status == Pending
          && 0 <= i < |items| && items[i].id == claims[j].itemId
        ensures exists k :: 0 <= k < |r| && r[k].claimId == claims[j].id
      {
        if j == 0 {
          assert FindItem(items, claims[0].itemId).Some?;
          assert r[0] == head[0];
        } else {
          assert claims[1..][j - 1] == claims[j];
          var k :| 0 <= k < |tail| && tail[k].claimId == claims[j].id;
          assert r[|head| + k] == tail[k];
        }
      }
    }
  }

  /** No two rows of the queue carry the same claim. */
  predicate DistinctClaimRows(rows: seq<ClaimRow>)
  {
    forall a, b :: 0 <= a < b < |rows| ==> rows[a].claimId != rows[b].claimId
  }

  /** With unique claim ids no claim is listed twice. */
  lemma {:induction false} QueueListsEachClaimOnce(claims: seq<Claim>, items: seq<Item>, employees: seq<Employee>)
    ensures UniqueClaimIds(claims) ==> DistinctClaimRows(GetClaims(claims, items, employees))
  {
    if claims != [] && UniqueClaimIds(claims) {
      var r := GetClaims(claims, items, employees);
      var head := ClaimRows(claims[0], items, employees);
      var tail := GetClaims(claims[1..], items, employees);
      assert r == head + tail;
      assert forall i, j :: 0 <= i < j < |claims[1..]| ==> claims[1..][i] == claims[i + 1] && claims[1..][j] == claims[j + 1];
      QueueListsEachClaimOnce(claims[1..], items, employees);
      GetClaimsArePendingClaimsWithItems(claims[1..], items, employees);
      forall a, b | 0 <= a < b < |r|
        ensures r[a].claimId != r[b].claimId
      {
        if a < |head| {
          assert head == [ClaimRowOf(claims[0], FindItem(items, claims[0].itemId).value, employees)];
          assert r[a] == head[0];
          var row := tail[b - |head|];
          assert r[b] == row && row in tail;
          var j :| 0 <= j < |claims[1..]| && claims[1..][j].status == Pending
            && FindItem(items, claims[1..][j].itemId).Some?
            && row == ClaimRowOf(claims[1..][j], FindItem(items, claims[1..][j].itemId).value, employees);
          assert row.claimId == claims[j + 1].id && claims[j + 1].id != claims[0].id;
        } else {
          assert r[a] == tail[a - |head|] && r[b] == tail[b - |head|];
        }
      }
    }
  }

  // ---------------------------------------------------------- metrics

  function SumDays(rows: seq<ItemRow>): (sum: int)
  {
    if rows == [] then 0 else rows[0].daysUnclaimed + SumDays(rows[1..])
  }

  /** GET /api/metrics: the unclaimed count with the mean age of the
      unclaimed items (0 when there are none), and the claimed count with an
      average fixed at 0. */
  function GetMetrics(items: seq<Item>, today: int): (r: seq<MetricRow>)
    ensures |r| == 2
    ensures r[0].status == "Unclaimed" && r[1].status == "Claimed"
    ensures r[1].averageDaysUnclaimed == 0.0
    ensures items == [] ==> r[0].totalItems == 0 && r[1].totalItems == 0 && r[0].averageDaysUnclaimed == 0.0
  {
    var unclaimed := CountFlag(items, 0);
    var average :=
      if unclaimed == 0 then 0.0
      else SumDays(UnclaimedRows(items, today)) as real / unclaimed as real;
    [MetricRow("Unclaimed", unclaimed, average), MetricRow("Claimed", CountFlag(items, 1), 0.0)]
  }

  /** On a store whose flags are all 0 or 1 the two totals partition the
      items, and the unclaimed total is the length of the item list. */
  lemma MetricsCountTheItemList(items: seq<Item>, today: int)
    ensures GetMetrics(items, today)[0].totalItems == |GetItems(items, today)|
    ensures FlagsAreBinary(items) ==>
      GetMetrics(items, today)[0].totalItems + GetMetrics(items, today)[1].totalItems == |items|
  {
    GetItemsAreTheUnclaimedItems(items, today);
    if FlagsAreBinary(items) {
      CountsPartitionItems(items);
    }
  }

  /** The sum of ages over two lists is the sum of the two sums. */
  lemma {:induction false} SumDaysAppend(a: seq<ItemRow>, b: seq<ItemRow>)
    ensures SumDays(a + b) == SumDays(a) + SumDays(b)
  {
    if a != [] {
      assert (a + b)[1..] == a[1..] + b;
      SumDaysAppend(a[1..], b);
    } else {
      assert a + b == b;
    }
  }

  /** Removing the row at `i` removes its age from the sum. */
  lemma SumDaysRemove(rows: seq<ItemRow>, i: nat)
    requires i < |rows|
    ensures SumDays(rows) == rows[i].daysUnclaimed + SumDays(rows[..i] + rows[i + 1..])
  {
    assert rows == rows[..i] + ([rows[i]] + rows[i + 1..]);
    SumDaysAppend(rows[..i], [rows[i]] + rows[i + 1..]);
    SumDaysAppend(rows[..i], rows[i + 1..]);
    assert ([rows[i]] + rows[i + 1..])[1..] == rows[i + 1..];
  }

    /** Removing the row at `i` removes one occurrence of it. */
  lemma MultisetRemove(rows: seq<ItemRow>, i: nat)
    requires i < |rows|
    ensures multiset(rows[..i] + rows[i + 1..]) == multiset(rows) - multiset{rows[i]}
  {
    assert rows == rows[..i] + [rows[i]] + rows[i + 1..];
  }

  /** The sum of ages does not depend on the order of the rows. */
  lemma {:induction false} SumDaysOfPermutation(a: seq<ItemRow>, b: seq<ItemRow>)
    requires multiset(a) == multiset(b)
    ensures SumDays(a) == SumDays(b)
    decreases |a|
  {
    if a != [] {
      assert a[0] in multiset(b);
      var i :| 0 <= i < |b| && b[i] == a[0];
      var rest := b[..i] + b[i + 1..];
      MultisetRemove(b, i);
      assert a == [a[0]] + a[1..];
      assert multiset(a[1..]) == multiset(rest);
      SumDaysOfPermutation(a[1..], rest);
      SumDaysRemove(b, i);
    } else {
      assert |b| == |multiset(b)| == 0;
    }
  }

  /** The unclaimed average is the mean of the ages the item list shows. */
  lemma AverageIsMeanOfListedAges(items: seq<Item>, today: int)
    requires |GetItems(items, today)| > 0
    ensures GetMetrics(items, today)[0].averageDaysUnclaimed
            == SumDays(GetItems(items, today)) as real / |GetItems(items, today)| as real
  {
    var listed := GetItems(items, today);
    GetItemsAreTheUnclaimedItems(items, today);
    SumDaysOfPermutation(listed, UnclaimedRows(items, today));
  }

  // -------------------------------------------------------- employees

  function ItemsManagedKey(e: Employee): (key: int)
  {
    e.itemsManaged
  }

  /** GET /api/employees: every employee once, most items managed first. */
  function GetEmployees(employees: seq<Employee>): (r: seq<Employee>)
    ensures SortedDesc(r, ItemsManagedKey)
    ensures multiset(r) == multiset(employees)
  {
    SortDesc(employees, ItemsManagedKey)
  }
}
