/** The request handler over the store: the two POST operations that write
    (item intake and the claim-approval transaction) as methods of a class
    holding the four tables, and the dispatch of POST and GET paths.

    Every database call a handler makes before it answers may raise. A
    `fault` parameter names the call that raises and the text of the
    exception; `None` means every call succeeds. */
module Store {

  import opened Wrappers
  import opened Domain
  import opened Tables
  import opened Routes
  import opened Queries
  import opened Lifecycle

  /** The database calls a POST handler makes. */
  datatype Step =
    | Connect        // opening the connection
    | Begin          // BEGIN TRANSACTION
    | Lookup         // the pending-claim SELECT
    | Rollback       // the rollback when no pending claim is found
    | UpdateClaim    // UPDATE Claims
    | UpdateItem     // UPDATE Items
    | InsertHistory  // INSERT INTO ItemStatus
    | InsertItem     // INSERT INTO Items
    | Commit
    | ReadBack       // the SELECT of the created item
    | Close

  /** The call that raises and the text of its exception. */
  datatype Fault = Fault(step: Step, message: string)

  /** The calls of the approval transaction after its lookup, through the commit. */
  predicate TransactionStep(s: Step)
  {
    s.UpdateClaim? || s.UpdateItem? || s.InsertHistory? || s.Commit?
  }

  /** The calls of the approval up to and including its commit. */
  predicate ApproveWrite(s: Step)
  {
    s.Connect? || s.Begin? || s.Lookup? || TransactionStep(s)
  }

  /** The calls of the intake up to and including its commit. */
  predicate IntakeWrite(s: Step)
  {
    s.Connect? || s.InsertItem? || s.Commit?
  }

  /** Every call of the intake: the writes, the read-back and the close. */
  predicate IntakeStep(s: Step)
  {
    IntakeWrite(s) || s.ReadBack? || s.Close?
  }

  const ClaimNotPending: string := "Claim not found or already processed"
  const MissingFields: string := "Missing required fields"
  const InvalidJson: string := "Invalid JSON"
  const EndpointNotFound: string := "Endpoint not found"

  /** The columns of the created item that the intake reads back. */
  datatype ItemRecord = ItemRecord(
    itemId: nat,
    itemName: string,
    itemCategory: string,
    itemDescription: string,
    color: string,
    dateFound: int,
    foundAt: string)

  /** What a POST handler answers. `Dropped` is the connection closed with no
      answer at all, when the error path itself raises. */
  datatype Response =
    | ItemCreated(record: ItemRecord)                 // 201
    | ClaimApproved(claimKey: string, itemId: nat)    // 200, success true
    | Failure(status: nat, error: string)
    | Dropped

  /** The read-back projection of an Items row: the id and the six columns
      the intake wrote from the body. */
  function RecordOf(item: Item): (rec: ItemRecord)
    ensures rec.itemId == item.id && rec.dateFound == item.dateFound
    ensures rec.itemName == item.name && rec.itemCategory == item.category
    ensures rec.itemDescription == item.description && rec.color == item.color
    ensures rec.foundAt == item.foundAt
  {
    ItemRecord(item.id, item.name, item.category, item.description, item.color, item.dateFound, item.foundAt)
  }

  /** The approval commits: the key names a pending claim and no call up to
      the commit raises. */
  predicate ApproveCommits(claims: seq<Claim>, claimKey: string, fault: Option<Fault>)
  {
    FindPending(claims, claimKey).Some? && !(fault.Some? && ApproveWrite(fault.value.step))
  }

  /** The intake commits: the body carries every required key and no call up
      to the commit raises. */
  predicate IntakeCommits(body: ItemBody, fault: Option<Fault>)
  {
    HasRequiredKeys(body) && !(fault.Some? && IntakeWrite(fault.value.step))
  }

  /** The history row the approval of a claim on item `itemId` appends. */
  function ClaimedEvent(history: seq<StatusEvent>, itemId: nat, now: int): (e: StatusEvent)
    ensures e.itemId == itemId && e.status == "Claimed" && e.statusDate == now
    ensures forall k :: 0 <= k < |history| ==> history[k].id < e.id
  {
    StatusEvent(NextEventId(history), itemId, "Claimed", now)
  }

  class LostAndFound {
    var items: seq<Item>
    var claims: seq<Claim>
    var employees: seq<Employee>
    var history: seq<StatusEvent>

    /** Row ids are keys and the claimed flag is 0 or 1. */
    ghost predicate Valid()
      reads this
    {
      UniqueItemIds(items) && UniqueClaimIds(claims) && UniqueEmployeeIds(employees) && FlagsAreBinary(items)
    }

    /** A store over tables that satisfy the schema's keys and CHECK. */
    constructor(items: seq<Item>, claims: seq<Claim>, employees: seq<Employee>, history: seq<StatusEvent>)
      requires UniqueItemIds(items) && UniqueClaimIds(claims) && UniqueEmployeeIds(employees)
      requires FlagsAreBinary(items)
      ensures Valid()
      ensures this.items == items && this.claims == claims
      ensures this.employees == employees && this.history == history
    {
      this.items := items;
      this.claims := claims;
      this.employees := employees;
      this.history := history;
    }

    /** POST /api/claims/<key>/approve, in one transaction: find the pending
        claim the key names, mark it Approved, mark its item claimed at `now`
        and append a Claimed row to the history, then commit. A missing or
        already processed claim is rolled back and answered 404, and a raising
        call is answered 500 with the exception text; both leave every table
        as it was. A failure to
        connect leaves the error path without a connection to roll back, so
        no answer is sent. */
    method ApproveClaim(claimKey: string, now: int, fault: Option<Fault>) returns (r: Response)
      modifies this`items, this`claims, this`history
      // the answer
      ensures FailsOn(fault, Connect) ==> r == Dropped
      ensures FailsOn(fault, Begin) || FailsOn(fault, Lookup) ==> r == Failure(500, fault.value.message)
      ensures (!FailsOn(fault, Connect) && !FailsOn(fault, Begin) && !FailsOn(fault, Lookup)
               && !FailsOn(fault, Rollback) && FindPending(old(claims), claimKey).None?)
              ==> r == Failure(404, ClaimNotPending)
      ensures FindPending(old(claims), claimKey).None? && FailsOn(fault, Rollback)
              ==> r == Failure(500, fault.value.message)
      ensures (FindPending(old(claims), claimKey).Some? && fault.Some?
               && (TransactionStep(fault.value.step) || fault.value.step == Close))
              ==> r == Failure(500, fault.value.message)
      ensures r.ClaimApproved? <==> ApproveCommits(old(claims), claimKey, fault) && !FailsOn(fault, Close)
      ensures r.ClaimApproved? ==> r == ClaimApproved(claimKey, FindPending(old(claims), claimKey).value.itemId)
      // the tables: committed, or rolled back to the snapshot
      ensures ApproveCommits(old(claims), claimKey, fault) ==>
        var c := FindPending(old(claims), claimKey).value;
        && claims == ApproveRows(old(claims), c.id)
        && items == MarkClaimed(old(items), c.itemId, now)
        && history == old(history) + [ClaimedEvent(old(history), c.itemId, now)]
      ensures !ApproveCommits(old(claims), claimKey, fault) ==>
        items == old(items) && claims == old(claims) && history == old(history)
      ensures old(Valid()) ==> Valid()
    {
      if FailsOn(fault, Connect) {
        return Dropped;
      }
      // BEGIN TRANSACTION: the snapshot a rollback restores
      var savedItems, savedClaims, savedHistory := items, claims, history;
      if FailsOn(fault, Begin) || FailsOn(fault, Lookup) {
        return Failure(500, fault.value.message);
      }
      var found := FindPending(claims, claimKey);
      if found.None? {
        if FailsOn(fault, Rollback) {
          return Failure(500, fault.value.message);
        }
        return Failure(404, ClaimNotPending);
      }
      var c := found.value;
      var raised := ApplyApproval(c, now, fault);
      if raised {
        items, claims, history := savedItems, savedClaims, savedHistory;
        return Failure(500, fault.value.message);
      }
      ApprovalKeepsKeys(savedItems, savedClaims, c.itemId, c.id, now);
      if FailsOn(fault, Close) {
        // the rollback after a commit has nothing to undo
        return Failure(500, fault.value.message);
      }
      return ClaimApproved(claimKey, c.itemId);
    }

    /** The statements of the approval transaction after the lookup, in
        order, through the commit: it stops at the first call that raises and
        says whether one did, leaving the rollback to the caller. The UPDATE
        of Claims selects the rows whose id the key reads as, which are the
        rows of the claim found. */
    method ApplyApproval(c: Claim, now: int, fault: Option<Fault>) returns (raised: bool)
      modifies this`items, this`claims, this`history
      ensures raised <==> fault.Some? && TransactionStep(fault.value.step)
      ensures !raised ==>
        && claims == ApproveRows(old(claims), c.id)
        && items == MarkClaimed(old(items), c.itemId, now)
        && history == old(history) + [ClaimedEvent(old(history), c.itemId, now)]
    {
      if FailsOn(fault, UpdateClaim) {
        return true;
      }
      claims := ApproveRows(claims, c.id);
      if FailsOn(fault, UpdateItem) {
        return true;
      }
      items := MarkClaimed(items, c.itemId, now);
      if FailsOn(fault, InsertHistory) {
        return true;
      }
      history := history + [ClaimedEvent(history, c.itemId, now)];
      return FailsOn(fault, Commit);
    }

    /** POST /api/items: a body lacking a required key is answered 400 before
        the database is touched; otherwise the item is inserted unclaimed under
        the next row id with the timestamp `now`, committed, read back and
        answered 201. A call raising before the commit loses the insert; one
        raising after it keeps the row but answers 500. */
    method AddItem(body: ItemBody, now: int, fault: Option<Fault>) returns (r: Response)
      modifies this`items
      ensures !HasRequiredKeys(body) ==> r == Failure(400, MissingFields)
      ensures HasRequiredKeys(body) && fault.Some? && IntakeStep(fault.value.step)
              ==> r == Failure(500, fault.value.message)
      ensures r.ItemCreated? <==> HasRequiredKeys(body) && !(fault.Some? && IntakeStep(fault.value.step))
      ensures !IntakeCommits(body, fault) ==> items == old(items)
      ensures IntakeCommits(body, fault) ==>
        items == old(items) + [NewItem(body, NextItemId(old(items)), now)]
      // the answer echoes the body under a fresh id
      ensures r.ItemCreated? ==>
        && r.record.itemId == NextItemId(old(items))
        && (forall k :: 0 <= k < |old(items)| ==> old(items)[k].id != r.record.itemId)
        && Some(r.record.itemName) == body.itemName && Some(r.record.itemCategory) == body.itemCategory
        && Some(r.record.itemDescription) == body.itemDescription && Some(r.record.color) == body.color
        && Some(r.record.dateFound) == body.dateFound && Some(r.record.foundAt) == body.foundAt
      ensures old(Valid()) ==> Valid()
    {
      if !HasRequiredKeys(body) {
        return Failure(400, MissingFields);
      }
      RequiredKeysAreTheInsertedFields(body);
      if FailsOn(fault, Connect) || FailsOn(fault, InsertItem) {
        return Failure(500, fault.value.message);
      }
      var saved := items;
      var itemId := NextItemId(items);
      var item := NewItem(body, itemId, now);
      items := items + [item];
      if FailsOn(fault, Commit) {
        // the uncommitted insert is discarded with the connection
        items := saved;
        return Failure(500, fault.value.message);
      }
      AppendFreshItem(saved, item);
      if FailsOn(fault, ReadBack) {
        return Failure(500, fault.value.message);
      }
      FindItemOfAppended(saved, item);
      var row := FindItem(items, itemId);
      var record := RecordOf(row.value);
      if FailsOn(fault, Close) {
        return Failure(500, fault.value.message);
      }
      return ItemCreated(record);
    }

    /** The POST dispatch. A body that is not JSON (`None`) is answered 400
        whatever the path; the item path runs the intake, an approve path the
        approval of its claim key, and any other path is answered 404 without
        touching the store. */
    method HandlePost(path: string, body: Option<ItemBody>, now: int, fault: Option<Fault>) returns (r: Response)
      modifies this`items, this`claims, this`history
      ensures body.None? ==> r == Failure(400, InvalidJson)
      ensures body.Some? && PostRoute(path) == NoPostRoute ==> r == Failure(404, EndpointNotFound)
      ensures body.None? || PostRoute(path) == NoPostRoute ==>
        items == old(items) && claims == old(claims) && history == old(history)
      ensures body.Some? && PostRoute(path) == AddItemRoute ==>
        && claims == old(claims) && history == old(history)
        && (r.ItemCreated? <==> HasRequiredKeys(body.value) && !(fault.Some? && IntakeStep(fault.value.step)))
        && (IntakeCommits(body.value, fault) ==>
              items == old(items) + [NewItem(body.value, NextItemId(old(items)), now)])
        && (!IntakeCommits(body.value, fault) ==> items == old(items))
      ensures body.Some? && PostRoute(path).ApproveRoute? ==>
        var key := PostRoute(path).claimKey;
        && (r.ClaimApproved? <==> ApproveCommits(old(claims), key, fault) && !FailsOn(fault, Close))
        && (r.ClaimApproved? ==> r == ClaimApproved(key, FindPending(old(claims), key).value.itemId))
        && (ApproveCommits(old(claims), key, fault) ==>
              var c := FindPending(old(claims), key).value;
              && claims == ApproveRows(old(claims), c.id)
              && items == MarkClaimed(old(items), c.itemId, now)
              && history == old(history) + [ClaimedEvent(old(history), c.itemId, now)])
        && (!ApproveCommits(old(claims), key, fault) ==>
              items == old(items) && claims == old(claims) && history == old(history))
      ensures r.ItemCreated? ==> path == ItemsPath
      ensures r.ClaimApproved? ==> StartsWith(path, ClaimsPrefix) && EndsWith(path, ApproveSuffix)
      ensures old(Valid()) ==> Valid()
    {
      if body.None? {
        return Failure(400, InvalidJson);
      }
      match PostRoute(path)
      case AddItemRoute =>
        r := AddItem(body.value, now, fault);
      case ApproveRoute(key) =>
        r := ApproveClaim(key, now, fault);
      case NoPostRoute =>
        r := Failure(404, EndpointNotFound);
    }

    /** The GET dispatch: each API path answers its query over the current
        tables on day `today`. */
    function HandleGet(path: string, today: int): (r: GetResponse)
      reads this
      ensures r == NotFound <==> GetRoute(path) == NoGetRoute
      ensures r.ItemList? <==> path == ItemsPath
      ensures r.ClaimQueue? <==> path == "/api/claims"
      ensures r.Metrics? <==> path == "/api/metrics"
      ensures r.Ranking? <==> path == "/api/employees"
      // each answer is its query over the current tables
      ensures r.ItemList? ==> r.itemRows == GetItems(items, today) && |r.itemRows| == CountFlag(items, 0)
      ensures r.ClaimQueue? ==> r.claimRows == GetClaims(claims, items, employees)
      ensures r.ClaimQueue? ==> forall row :: row in r.claimRows ==>
        exists j :: 0 <= j < |claims| && claims[j].status == Pending && claims[j].id == row.claimId
      ensures r.ClaimQueue? && Valid() ==> DistinctClaimRows(r.claimRows)
      ensures r.Metrics? ==> r.metricRows == GetMetrics(items, today)
      ensures r.Metrics? ==>
        |r.metricRows| == 2 && r.metricRows[0].totalItems == CountFlag(items, 0)
        && r.metricRows[1].totalItems == CountFlag(items, 1)
      ensures r.Ranking? ==> r.ranking == GetEmployees(employees)
      ensures r.Ranking? ==> multiset(r.ranking) == multiset(employees)
    {
      match GetRoute(path)
      case UiPage => Page
      case ItemsQuery =>
        GetItemsAreTheUnclaimedItems(items, today);
        ItemList(GetItems(items, today))
      case ClaimsQuery =>
        GetClaimsArePendingClaimsWithItems(claims, items, employees);
        QueueListsEachClaimOnce(claims, items, employees);
        ClaimQueue(GetClaims(claims, items, employees))
      case MetricsQuery => Metrics(GetMetrics(items, today))
      case EmployeesQuery => Ranking(GetEmployees(employees))
      case NoGetRoute => NotFound
    }
  }

  /** The fault, if any, is raised by `step`. */
  predicate FailsOn(fault: Option<Fault>, step: Step)
  {
    fault.Some? && fault.value.step == step
  }

  /** What a GET path is answered with. */
  datatype GetResponse =
    | Page
    | ItemList(itemRows: seq<ItemRow>)
    | ClaimQueue(claimRows: seq<ClaimRow>)
    | Metrics(metricRows: seq<MetricRow>)
    | Ranking(ranking: seq<Employee>)
    | NotFound

  /** The approval keeps ids unique and flags binary. */
  lemma ApprovalKeepsKeys(items: seq<Item>, claims: seq<Claim>, itemId: nat, claimId: nat, now: int)
    ensures UniqueItemIds(items) ==> UniqueItemIds(MarkClaimed(items, itemId, now))
    ensures UniqueClaimIds(claims) ==> UniqueClaimIds(ApproveRows(claims, claimId))
    ensures FlagsAreBinary(items) ==> FlagsAreBinary(MarkClaimed(items, itemId, now))
  {
    var marked := MarkClaimed(items, itemId, now);
    assert forall k :: 0 <= k < |items| ==> marked[k].id == items[k].id;
    var approved := ApproveRows(claims, claimId);
    assert forall k :: 0 <= k < |claims| ==> approved[k].id == claims[k].id;
  }

  /** A second approval of the same key, with no call raising, is answered
      404 and changes nothing: after both calls the tables hold exactly one
      approval's effect. */
  method ApproveTwice(store: LostAndFound, claimKey: string, now: int) returns (first: Response, second: Response)
    modifies store`items, store`claims, store`history
    ensures first.ClaimApproved? <==> FindPending(old(store.claims), claimKey).Some?
    ensures first.ClaimApproved? ==> second == Failure(404, ClaimNotPending)
    ensures first.ClaimApproved? ==>
      var c := FindPending(old(store.claims), claimKey).value;
      && store.claims == ApproveRows(old(store.claims), c.id)
      && store.items == MarkClaimed(old(store.items), c.itemId, now)
      && store.history == old(store.history) + [ClaimedEvent(old(store.history), c.itemId, now)]
    ensures !first.ClaimApproved? ==>
      store.items == old(store.items) && store.claims == old(store.claims) && store.history == old(store.history)
  {
    first := store.ApproveClaim(claimKey, now, None);
    if first.ClaimApproved? {
      ApprovedClaimIsNoLongerPending(old(store.claims), claimKey);
    }
    second := store.ApproveClaim(claimKey, now, None);
  }
}
