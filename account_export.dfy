/** `download` in app.py: the export of every lock-trigger log entry of an owner
    account, joined with the account's contacts, cards and locks through
    id-keyed dictionaries, as an 11-column table. */
module AccountExport {
  import opened Common
  import opened Entities
  import opened Joins
  import opened LockId
  import opened Paging

  /** The header, in column order. */
  const HeaderNames: seq<string> := [
    "BoundLockId", "Lock Serial Number", "Lock Name", "Contact ID", "Contact Identifier",
    "NFC Transponder ID", "NFC Transponder Title", "Lock Timestamp", "Entry Number",
    "Received At", "ID"]


  /** `contacts_by_id`, `cards_by_id` and `locks_by_id`. */
  datatype Lookups = Lookups(
    contactsById: map<string, Contact>,
    cardsById: map<string, BoundCard>,
    locksById: map<string, BoundLock>)

  function BuildLookups(contacts: seq<Contact>, cards: seq<BoundCard>, locks: seq<BoundLock>): Lookups
  {
    Lookups(IndexById(contacts, ContactKey), IndexById(cards, CardKey), IndexById(locks, LockKey))
  }

  /** The row written for one log entry. The physical id of the entry's lock is
      decoded on the spot; when it is not valid base64 the exception ends the
      request with 500. */
  function EntryRow(e: LogEntry, ids: Lookups): (r: Outcome<Row>)
    ensures r.Ok? ==> |r.value| == |HeaderNames|
    ensures r.Abort? ==> r.status == 500
  {
    var contact := Lookup(ids.contactsById, e.contactId);
    var card := Lookup(ids.cardsById, e.boundCardId);
    var lock := Lookup(ids.locksById, e.boundLockId);
    if lock.Some? && ToReadableLockId(lock.value.physicalLockId).None? then Abort(500)
    else
      Ok([
        if lock.Some? then Some(Str(lock.value.id)) else None,
        if lock.Some? then Text(ToReadableLockId(lock.value.physicalLockId)) else None,
        if lock.Some? then Text(lock.value.title) else None,
        Text(e.contactId),
        if contact.Some? then Text(contact.value.identifier) else None,
        Text(e.boundCardId),
        if card.Some? then Text(card.value.title) else None,
        Text(e.lockTimestamp),
        Number(e.entryNo),
        Text(e.receivedAt),
        Text(e.id)])
  }

  /** The columns copied from the entry itself do not depend on the joins:
      'Contact ID' and 'NFC Transponder ID' echo the raw keys whether or not
      they resolve, and the last four columns are the entry's own fields. */
  lemma EntryRowEchoesEntry(e: LogEntry, ids: Lookups)
    requires EntryRow(e, ids).Ok?
    ensures var row := EntryRow(e, ids).value;
            && row[3] == Text(e.contactId)
            && row[5] == Text(e.boundCardId)
            && row[7..] == [Text(e.lockTimestamp), Number(e.entryNo), Text(e.receivedAt), Text(e.id)]
  {
  }

  /** A key that is null, or that no element of its collection has, leaves every
      column derived from that collection null; an unresolved lock never fails the row. */
  lemma EntryRowUnresolved(e: LogEntry, contacts: seq<Contact>, cards: seq<BoundCard>, locks: seq<BoundLock>)
    ensures var r := EntryRow(e, BuildLookups(contacts, cards, locks));
            && ((forall j :: 0 <= j < |locks| ==> Some(locks[j].id) != e.boundLockId) ==>
                  r.Ok? && r.value[0] == None && r.value[1] == None && r.value[2] == None)
            && ((forall j :: 0 <= j < |contacts| ==> Some(contacts[j].id) != e.contactId) ==>
                  r.Ok? ==> r.value[4] == None)
            && ((forall j :: 0 <= j < |cards| ==> Some(cards[j].id) != e.boundCardId) ==>
                  r.Ok? ==> r.value[6] == None)
  {
    LookupAbsent(locks, LockKey, e.boundLockId);
    LookupAbsent(contacts, ContactKey, e.contactId);
    LookupAbsent(cards, CardKey, e.boundCardId);
    UnresolvedColumns(e, BuildLookups(contacts, cards, locks));
  }

  lemma UnresolvedColumns(e: LogEntry, ids: Lookups)
    ensures var r := EntryRow(e, ids);
            && (Lookup(ids.locksById, e.boundLockId).None? ==>
                  r.Ok? && r.value[0] == None && r.value[1] == None && r.value[2] == None)
            && (Lookup(ids.contactsById, e.contactId).None? ==> r.Ok? ==> r.value[4] == None)
            && (Lookup(ids.cardsById, e.boundCardId).None? ==> r.Ok? ==> r.value[6] == None)
  {
  }

  /** A lock key that resolves takes the lock columns from the lock with that
      id (the last one, should ids repeat, as the dictionary keeps the last):
      its id, its readable serial and its title; the row fails exactly when that
      lock's physical id does not decode. */
  lemma EntryRowResolvedLock(e: LogEntry, contacts: seq<Contact>, cards: seq<BoundCard>, locks: seq<BoundLock>, j: nat)
    requires j < |locks| && Some(locks[j].id) == e.boundLockId && LastWithKey(locks, LockKey, j)
    ensures var r := EntryRow(e, BuildLookups(contacts, cards, locks));
            && (r.Ok? <==> ToReadableLockId(locks[j].physicalLockId).Some?)
            && (r.Ok? ==> && r.value[0] == Some(Str(locks[j].id))
                          && r.value[1] == Text(ToReadableLockId(locks[j].physicalLockId))
                          && r.value[2] == Text(locks[j].title))
  {
    LookupLast(locks, LockKey, j, e.boundLockId);
    LockColumns(e, BuildLookups(contacts, cards, locks), locks[j]);
  }

  lemma LockColumns(e: LogEntry, ids: Lookups, l: BoundLock)
    requires Lookup(ids.locksById, e.boundLockId) == Some(l)
    ensures var r := EntryRow(e, ids);
            && (r.Ok? <==> ToReadableLockId(l.physicalLockId).Some?)
            && (r.Ok? ==> && r.value[0] == Some(Str(l.id))
                          && r.value[1] == Text(ToReadableLockId(l.physicalLockId))
                          && r.value[2] == Text(l.title))
  {
  }

  /** A contact key that resolves gives 'Contact Identifier' the identifier of
      the contact with that id (the last one, should ids repeat). */
  lemma EntryRowResolvedContact(e: LogEntry, contacts: seq<Contact>, cards: seq<BoundCard>, locks: seq<BoundLock>, j: nat)
    requires j < |contacts| && Some(contacts[j].id) == e.contactId && LastWithKey(contacts, ContactKey, j)
    ensures var r := EntryRow(e, BuildLookups(contacts, cards, locks));
            r.Ok? ==> r.value[4] == Text(contacts[j].identifier)
  {
    LookupLast(contacts, ContactKey, j, e.contactId);
    ContactColumn(e, BuildLookups(contacts, cards, locks), contacts[j]);
  }

  lemma ContactColumn(e: LogEntry, ids: Lookups, c: Contact)
    requires Lookup(ids.contactsById, e.contactId) == Some(c)
    ensures var r := EntryRow(e, ids); r.Ok? ==> r.value[4] == Text(c.identifier)
  {
  }

  /** A card key that resolves gives 'NFC Transponder Title' the title of the
      card with that id (the last one, should ids repeat). */
  lemma EntryRowResolvedCard(e: LogEntry, contacts: seq<Contact>, cards: seq<BoundCard>, locks: seq<BoundLock>, j: nat)
    requires j < |cards| && Some(cards[j].id) == e.boundCardId && LastWithKey(cards, CardKey, j)
    ensures var r := EntryRow(e, BuildLookups(contacts, cards, locks));
            r.Ok? ==> r.value[6] == Text(cards[j].title)
  {
    LookupLast(cards, CardKey, j, e.boundCardId);
    CardColumn(e, BuildLookups(contacts, cards, locks), cards[j]);
  }

  lemma CardColumn(e: LogEntry, ids: Lookups, c: BoundCard)
    requires Lookup(ids.cardsById, e.boundCardId) == Some(c)
    ensures var r := EntryRow(e, ids); r.Ok? ==> r.value[6] == Text(c.title)
  {
  }

  /** The row of an entry fails only because of a lock the entry refers to whose
      physical id does not decode. */
  lemma EntryRowFailure(e: LogEntry, contacts: seq<Contact>, cards: seq<BoundCard>, locks: seq<BoundLock>)
    requires EntryRow(e, BuildLookups(contacts, cards, locks)).Abort?
    ensures exists j :: 0 <= j < |locks| && Some(locks[j].id) == e.boundLockId
                        && ToReadableLockId(locks[j].physicalLockId).None?
  {
    var m := IndexById(locks, LockKey);
    var k := e.boundLockId.value;
    var j :| 0 <= j < |locks| && LockKey(locks[j]) == k;
    var last := LastIndexWithKey(locks, LockKey, j);
    assert m[k] == locks[last];
  }

  /** `download()` of app.py for one owner account. An absent or all-whitespace
      `owner_account_id` is refused with 400 before anything is fetched. Otherwise
      the log entries are fetched page by page (a failing page ends the request
      with 500), and the result is the header followed by one row per entry, in
      fetch order; a lock id that does not decode ends the request with 500.
      `contacts`, `cards` and `locks` are the account's collections as
      `fetch_contacts`, `fetch_cards` and `fetch_locks` return them. */
  method Export(ownerAccountId: Option<string>, api: LogApi,
                contacts: seq<Contact>, cards: seq<BoundCard>, locks: seq<BoundLock>)
    returns (r: Outcome<seq<Row>>, requests: seq<Request>)
    ensures !ValidParam(ownerAccountId) ==> r == Abort(400) && requests == []
    ensures ValidParam(ownerAccountId) ==> requests == FetchFrom(api, 1).1
    ensures ValidParam(ownerAccountId) && r.Abort? ==> r.status == 500
    ensures r.Ok? <==> && ValidParam(ownerAccountId)
                       && FetchFrom(api, 1).0.Ok?
                       && forall k :: 0 <= k < |api.entries| ==> EntryRow(api.entries[k], BuildLookups(contacts, cards, locks)).Ok?
    ensures r.Ok? ==> && |r.value| == |api.entries| + 1
                      && r.value[0] == Names(HeaderNames)
                      && forall k :: 0 <= k < |api.entries| ==>
                           EntryRow(api.entries[k], BuildLookups(contacts, cards, locks)) == Ok(r.value[k + 1])
  {
    if ownerAccountId.None? || IsSpace(ownerAccountId.value) {
      return Abort(400), [];
    }

    var fetched;
    fetched, requests := FetchLogEntries(api);
    if fetched.Abort? {
      return Abort(500), requests;
    }
    var logEntries := fetched.value;

    var ids := BuildLookups(contacts, cards, locks);

    var writer := new CsvWriter();
    writer.WriteRow(Names(HeaderNames));

    var k := 0;
    while k < |logEntries|
      invariant 0 <= k <= |logEntries|
      invariant |writer.rows| == k + 1 && writer.rows[0] == Names(HeaderNames)
      invariant forall j :: 0 <= j < k ==> EntryRow(logEntries[j], ids) == Ok(writer.rows[j + 1])
    {
      var row := EntryRow(logEntries[k], ids);
      if row.Abort? {
        return Abort(500), requests;
      }
      writer.WriteRow(row.value);
      k := k + 1;
    }
    r := Ok(writer.rows);
  }
}
