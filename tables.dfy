/** Row lookups and the row updates of the approval transaction, each the
    meaning of one SQL statement of the handler over a table held as a
    sequence of rows. */
module Tables {

  import opened Wrappers
  import opened Domain
  import opened Numerals

  /** SQLite compares a bound text key with an integer id column by reading
      the text as a number: the key matches an id when it is a run of decimal
      digits denoting that id, and the numeral of an id always matches it. */
  predicate KeyMatches(key: string, id: nat)
    ensures KeyMatches(key, id) ==> key != [] && IsDigits(key) && DigitsValue(key) == id
    ensures key == Decimal(id) ==> KeyMatches(key, id)
  {
    ParseDecimal_Decimal(id);
    ParseDecimal(key) == Some(id)
  }

  /** The first row of Items with that id. */
  function FindItem(items: seq<Item>, id: nat): (r: Option<Item>)
    ensures r.Some? ==> r.value in items && r.value.id == id
    ensures r.None? <==> forall k :: 0 <= k < |items| ==> items[k].id != id
  {
    if items == [] then None
    else if items[0].id == id then Some(items[0])
    else FindItem(items[1..], id)
  }

  /** With unique ids, the lookup finds the one row carrying the id. */
  lemma {:induction false} FindItemOfRow(items: seq<Item>, k: nat)
    requires UniqueItemIds(items)
    requires k < |items|
    ensures FindItem(items, items[k].id) == Some(items[k])
  {
    if k > 0 {
      FindItemOfRow(items[1..], k - 1);
    }
  }

  /** A row appended under an id no earlier row carries is the row the lookup
      of that id finds. */
  lemma {:induction false} FindItemOfAppended(items: seq<Item>, item: Item)
    requires forall k :: 0 <= k < |items| ==> items[k].id != item.id
    ensures FindItem(items + [item], item.id) == Some(item)
  {
    if items != [] {
      assert (items + [item])[1..] == items[1..] + [item];
      FindItemOfAppended(items[1..], item);
    } else {
      assert items + [item] == [item];
    }
  }

  /** The first row of Employees with that id. */
  function FindEmployee(employees: seq<Employee>, id: nat): (r: Option<Employee>)
    ensures r.Some? ==> r.value in employees && r.value.id == id
    ensures r.None? <==> forall k :: 0 <= k < |employees| ==> employees[k].id != id
  {
    if employees == [] then None
    else if employees[0].id == id then Some(employees[0])
    else FindEmployee(employees[1..], id)
  }

  lemma {:induction false} FindEmployeeOfRow(employees: seq<Employee>, k: nat)
    requires UniqueEmployeeIds(employees)
    requires k < |employees|
    ensures FindEmployee(employees, employees[k].id) == Some(employees[k])
  {
    if k > 0 {
      FindEmployeeOfRow(employees[1..], k - 1);
    }
  }

  /** `SELECT itemID FROM Claims WHERE id = ? AND verificationStatus =
      'Pending'`, first row: the pending claim the key names, if any. */
  function FindPending(claims: seq<Claim>, key: string): (r: Option<Claim>)
    ensures r.Some? ==> r.value in claims && r.value.status == Pending && KeyMatches(key, r.value.id)
    ensures r.None? <==>
      forall k :: 0 <= k < |claims| ==> !(claims[k].status == Pending && KeyMatches(key, claims[k].id))
  {
    if claims == [] then None
    else if claims[0].status == Pending && KeyMatches(key, claims[0].id) then Some(claims[0])
    else FindPending(claims[1..], key)
  }

  /** `UPDATE Claims SET verificationStatus = 'Approved' WHERE id = ?`: the
      rows with that id become Approved, every other row is left as it was. */
  function ApproveRows(claims: seq<Claim>, id: nat): (r: seq<Claim>)
    ensures |r| == |claims|
    ensures forall k :: 0 <= k < |r| && claims[k].id != id ==> r[k] == claims[k]
    ensures forall k :: 0 <= k < |r| && claims[k].id == id ==>
      r[k].status == Approved && r[k].(status := claims[k].status) == claims[k]
  {
    seq(|claims|, k requires 0 <= k < |claims| =>
      if claims[k].id == id then claims[k].(status := Approved) else claims[k])
  }

  /** `UPDATE Items SET isClaimed = 1, dateUpdated = now WHERE id = ?`. */
  function MarkClaimed(items: seq<Item>, id: nat, now: int): (r: seq<Item>)
    ensures |r| == |items|
    ensures forall k :: 0 <= k < |r| && items[k].id != id ==> r[k] == items[k]
    ensures forall k :: 0 <= k < |r| && items[k].id == id ==>
      r[k].isClaimed == 1 && r[k].dateUpdated == now &&
      r[k].(isClaimed := items[k].isClaimed, dateUpdated := items[k].dateUpdated) == items[k]
  {
    if items == [] then []
    else
      var head := if items[0].id == id then items[0].(isClaimed := 1, dateUpdated := now) else items[0];
      var tail := MarkClaimed(items[1..], id, now);
      assert forall k :: 0 < k < |items| ==> ([head] + tail)[k] == tail[k - 1] && items[k] == items[1..][k - 1];
      [head] + tail
  }

  /** `SELECT COUNT(*) FROM Items WHERE isClaimed = flag`. */
  function CountFlag(items: seq<Item>, flag: int): (n: nat)
    ensures n <= |items|
    ensures n == 0 <==> forall k :: 0 <= k < |items| ==> items[k].isClaimed != flag
  {
    if items == [] then 0
    else (if items[0].isClaimed == flag then 1 else 0) + CountFlag(items[1..], flag)
  }

  /** Every item is either unclaimed or claimed, so the two counts add up to
      the size of the table. */
  lemma {:induction false} CountsPartitionItems(items: seq<Item>)
    requires FlagsAreBinary(items)
    ensures CountFlag(items, 0) + CountFlag(items, 1) == |items|
  {
    if items != [] {
      CountsPartitionItems(items[1..]);
    }
  }

  /** Marking an item claimed moves it from the unclaimed count to the claimed
      count when it was unclaimed, and changes neither count when it was
      already claimed. */
  lemma {:induction false} MarkClaimedMovesCount(items: seq<Item>, k: nat, now: int)
    requires UniqueItemIds(items)
    requires k < |items|
    ensures var after := MarkClaimed(items, items[k].id, now);
      if items[k].isClaimed == 0 then
        CountFlag(after, 0) == CountFlag(items, 0) - 1 && CountFlag(after, 1) == CountFlag(items, 1) + 1
      else if items[k].isClaimed == 1 then
        CountFlag(after, 0) == CountFlag(items, 0) && CountFlag(after, 1) == CountFlag(items, 1)
      else
        CountFlag(after, 0) == CountFlag(items, 0) && CountFlag(after, 1) == CountFlag(items, 1) + 1
  {
    var id := items[k].id;
    if k == 0 {
      MarkClaimedOfAbsent(items[1..], id, now);
    } else {
      MarkClaimedMovesCount(items[1..], k - 1, now);
    }
  }

  /** Marking an id no row carries changes nothing. */
  lemma {:induction false} MarkClaimedOfAbsent(items: seq<Item>, id: nat, now: int)
    requires forall k :: 0 <= k < |items| ==> items[k].id != id
    ensures MarkClaimed(items, id, now) == items
  {
    if items != [] {
      MarkClaimedOfAbsent(items[1..], id, now);
    }
  }

  /** A row inserted into Items gets the next row id of that table. */
  function NextItemId(items: seq<Item>): (n: nat)
    ensures n >= 1
    ensures forall k :: 0 <= k < |items| ==> items[k].id < n
  {
    NextRowId(ItemIds(items))
  }

  /** Appending a row under an id above every other keeps ids unique, and an
      unclaimed row keeps the flags binary. */
  lemma AppendFreshItem(items: seq<Item>, item: Item)
    requires forall k :: 0 <= k < |items| ==> items[k].id < item.id
    requires item.isClaimed == 0
    ensures UniqueItemIds(items) ==> UniqueItemIds(items + [item])
    ensures FlagsAreBinary(items) ==> FlagsAreBinary(items + [item])
  {
    var r := items + [item];
    assert forall k :: 0 <= k < |items| ==> r[k] == items[k];
  }

  /** A row appended to the history gets the next row id of that table. */
  function NextEventId(history: seq<StatusEvent>): (n: nat)
    ensures forall k :: 0 <= k < |history| ==> history[k].id < n
  {
    NextRowId(EventIds(history))
  }

  /** `INSERT INTO Items (...) VALUES (..., 0, now)` row for a body that
      passed the key check. */
  function NewItem(body: ItemBody, id: nat, now: int): (item: Item)
    requires HasRequiredKeys(body)
    ensures item.id == id && item.isClaimed == 0 && item.dateUpdated == now
    ensures Some(item.name) == body.itemName && Some(item.category) == body.itemCategory
    ensures Some(item.description) == body.itemDescription && Some(item.color) == body.color
    ensures Some(item.dateFound) == body.dateFound && Some(item.foundAt) == body.foundAt
  {
    RequiredKeysAreTheInsertedFields(body);
    Item(id, body.itemName.value, body.itemCategory.value, body.itemDescription.value,
         body.color.value, body.dateFound.value, body.foundAt.value, 0, now)
  }
}
