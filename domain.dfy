/** The rows of the four tables of the lost-and-found store (Items, Claims,
    Employees, ItemStatus) and the decoded body of an item-intake request.
    Dates are day numbers and timestamps are plain integers. */
module Domain {

  import opened Wrappers

  /** Claims.verificationStatus. */
  datatype ClaimStatus = Pending | Approved | Rejected

  /** A row of Items. `isClaimed` is the 0/1 flag of the table, `dateFound` a
      day number, `dateUpdated` the timestamp of the last change. */
  datatype Item = Item(
    id: nat,
    name: string,
    category: string,
    description: string,
    color: string,
    dateFound: int,
    foundAt: string,
    isClaimed: int,
    dateUpdated: int)

  /** A row of Claims; `handledBy` is the optional id of an employee. */
  datatype Claim = Claim(
    id: nat,
    claimDate: int,
    verificationCode: string,
    ownerFirstName: string,
    ownerLastName: string,
    itemId: nat,
    status: ClaimStatus,
    handledBy: Option<nat>)

  /** A row of Employees. */
  datatype Employee = Employee(
    id: nat,
    firstName: string,
    lastName: string,
    position: string,
    itemsManaged: int)

  /** A row of the append-only ItemStatus history. */
  datatype StatusEvent = StatusEvent(id: nat, itemId: nat, status: string, statusDate: int)

  /** The decoded JSON body of an intake request, restricted to the keys the
      handler reads; `None` means the key is absent. */
  datatype ItemBody = ItemBody(
    itemName: Option<string>,
    itemCategory: Option<string>,
    color: Option<string>,
    itemDescription: Option<string>,
    dateFound: Option<int>,
    foundAt: Option<string>)

  /** The keys an intake body must carry, in the order the handler checks them. */
  const RequiredKeys: seq<string> :=
    ["itemName", "itemCategory", "color", "itemDescription", "dateFound", "FoundAt"]

  /** Whether the body carries the key of that name. */
  predicate HasKey(body: ItemBody, key: string)
  {
    match key
    case "itemName" => body.itemName.Some?
    case "itemCategory" => body.itemCategory.Some?
    case "color" => body.color.Some?
    case "itemDescription" => body.itemDescription.Some?
    case "dateFound" => body.dateFound.Some?
    case "FoundAt" => body.foundAt.Some?
    case _ => false
  }

  /** The guard of the intake handler: every required key is present. */
  predicate HasRequiredKeys(body: ItemBody)
  {
    forall k :: k in RequiredKeys ==> HasKey(body, k)
  }

  /** The guard holds exactly when each of the six fields the insert reads is present. */
  lemma RequiredKeysAreTheInsertedFields(body: ItemBody)
    ensures HasRequiredKeys(body) <==>
      && body.itemName.Some? && body.itemCategory.Some? && body.color.Some?
      && body.itemDescription.Some? && body.dateFound.Some? && body.foundAt.Some?
  {
    if HasRequiredKeys(body) {
      assert RequiredKeys[0] in RequiredKeys && RequiredKeys[1] in RequiredKeys;
      assert RequiredKeys[2] in RequiredKeys && RequiredKeys[3] in RequiredKeys;
      assert RequiredKeys[4] in RequiredKeys && RequiredKeys[5] in RequiredKeys;
    } else {
      var k :| k in RequiredKeys && !HasKey(body, k);
      var i :| 0 <= i < |RequiredKeys| && RequiredKeys[i] == k;
    }
  }

  /** Row ids are keys: no two rows of a table share one. */
  predicate UniqueItemIds(items: seq<Item>)
  {
    forall i, j :: 0 <= i < j < |items| ==> items[i].id != items[j].id
  }

  predicate UniqueClaimIds(claims: seq<Claim>)
  {
    forall i, j :: 0 <= i < j < |claims| ==> claims[i].id != claims[j].id
  }

  predicate UniqueEmployeeIds(employees: seq<Employee>)
  {
    forall i, j :: 0 <= i < j < |employees| ==> employees[i].id != employees[j].id
  }

  /** The claimed flag holds one of the two values the table allows. */
  predicate FlagsAreBinary(items: seq<Item>)
  {
    forall k :: 0 <= k < |items| ==> items[k].isClaimed == 0 || items[k].isClaimed == 1
  }

  /** The id the store gives a row appended to a table holding `ids`: one more
      than the largest, or 1 for an empty table. */
  function NextRowId(ids: seq<nat>): (n: nat)
    ensures n >= 1
    ensures forall k :: 0 <= k < |ids| ==> ids[k] < n
    ensures n == 1 || exists k :: 0 <= k < |ids| && ids[k] + 1 == n
  {
    if ids == [] then 1
    else
      var rest := NextRowId(ids[..|ids| - 1]);
      var last := ids[|ids| - 1];
      assert forall k :: 0 <= k < |ids| - 1 ==> ids[..|ids| - 1][k] == ids[k];
      if last + 1 > rest then last + 1 else rest
  }

  function ItemIds(items: seq<Item>): (ids: seq<nat>)
    ensures |ids| == |items|
    ensures forall k :: 0 <= k < |items| ==> ids[k] == items[k].id
  {
    seq(|items|, k requires 0 <= k < |items| => items[k].id)
  }

  function EventIds(events: seq<StatusEvent>): (ids: seq<nat>)
    ensures |ids| == |events|
    ensures forall k :: 0 <= k < |events| ==> ids[k] == events[k].id
  {
    seq(|events|, k requires 0 <= k < |events| => events[k].id)
  }
}
