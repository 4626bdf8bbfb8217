/** `download` in application.py: the export of one lock's lock-trigger log
    entries, joined with only those contacts and cards the entries refer to
    (fetched with one disjunctive `$filter` each), as an 8-column table. */
module LockExport {
  import opened Common
  import opened Entities
  import opened Joins

  /** The header, in column order. */
  const HeaderNames: seq<string> := [
    "Contact ID", "Contact Email", "NFC Transponder ID", "NFC Transponder Title",
    "Lock Timestamp", "Entry Number", "Received At", "ID"]


  /** What the remote API holds for the account and the lock: the lock's
      lock-trigger log entries as the `LogEntries` request returns them, and
      the account's contacts and cards. */
  datatype LockAccount = LockAccount(logEntries: seq<LogEntry>, contacts: seq<Contact>, cards: seq<BoundCard>)

  // ---------------------------------------------------------------- requests

  function BoundLockPath(owner: string, lock: string): string
  {
    "Owners/" + owner + "/BoundLocks/" + lock
  }

  function LogEntriesPath(owner: string, lock: string): string
  {
    BoundLockPath(owner, lock) + "/LogEntries?"
    + "$filter=logType eq 'Command' and command eq 'TriggerLock'&"
    + "$select=id,entryNo,lockTimestamp,receivedAt,boundCardId,contactId&"
  }

  function ContactsPath(owner: string, filter: string): string
  {
    "Owners/" + owner + "/Contacts?" + filter + "&$select=id,email"
  }

  function CardsPath(owner: string, filter: string): string
  {
    "Owners/" + owner + "/BoundCards?" + filter + "&$select=id,title"
  }

  // ---------------------------------------------------------------- key sets

  /** `set(map(lambda x: x[field], log_entries))`: the distinct values of one
      key field, `None` included. */
  function KeySet(entries: seq<LogEntry>, field: LogEntry -> Option<string>): set<Option<string>>
  {
    set i | 0 <= i < |entries| :: field(entries[i])
  }

  function ContactIdOf(e: LogEntry): Option<string> { e.contactId }
  function CardIdOf(e: LogEntry): Option<string> { e.boundCardId }

  /** `xs` holds every element of `s` exactly once, in some order: what `list(s)` gives. */
  ghost predicate IsListing<T(!new)>(xs: seq<T>, s: set<T>)
  {
    && (forall i, j :: 0 <= i < j < |xs| ==> xs[i] != xs[j])
    && (forall x :: x in s <==> x in xs)
  }

  /** `list(s)`: the elements of a set, in an order the language leaves open. */
  method ListOf<T(==, !new)>(s: set<T>) returns (xs: seq<T>)
    ensures IsListing(xs, s)
  {
    xs := [];
    var rest := s;
    while rest != {}
      invariant forall i, j :: 0 <= i < j < |xs| ==> xs[i] != xs[j]
      invariant forall x :: x in s <==> x in xs || x in rest
      invariant forall x :: x in rest ==> x !in xs
      decreases |rest|
    {
      var x :| x in rest;
      xs := xs + [x];
      rest := rest - {x};
    }
  }

  /** A listing has one element per member of the set. */
  lemma {:induction false} ListingSize<T(!new)>(xs: seq<T>, s: set<T>)
    requires IsListing(xs, s)
    ensures |xs| == |s|
  {
    if xs != [] {
      var rest := s - {xs[0]};
      forall x ensures x in rest <==> x in xs[1..] {
        if x in xs[1..] {
          var j :| 0 <= j < |xs[1..]| && xs[1..][j] == x;
          assert xs[j + 1] == x;
        }
      }
      ListingSize(xs[1..], rest);
    }
  }

  /** `all(x is None for x in ids)`; it holds for no ids at all. */
  predicate AllNone(ids: seq<Option<string>>)
  {
    forall i :: 0 <= i < |ids| ==> ids[i].None?
  }

  /** A lookup is skipped exactly when no entry has a value in that key field,
      whatever order the set is listed in; so no entries at all means no lookup. */
  lemma LookupSkippedIff(entries: seq<LogEntry>, field: LogEntry -> Option<string>, ids: seq<Option<string>>)
    requires IsListing(ids, KeySet(entries, field))
    ensures AllNone(ids) <==> forall i :: 0 <= i < |entries| ==> field(entries[i]).None?
  {
    if AllNone(ids) {
      forall i | 0 <= i < |entries| ensures field(entries[i]).None? {
        assert field(entries[i]) in KeySet(entries, field);
      }
    } else {
      var j :| 0 <= j < |ids| && ids[j].Some?;
      assert ids[j] in KeySet(entries, field);
    }
  }

  // ---------------------------------------------------------------- filter

  /** Python's `f"{x}"` for a key: the id itself, or "None". */
  function KeyText(k: Option<string>): string
  {
    if k.Some? then k.value else "None"
  }

  /** `f"id eq '{x}'"`. */
  function Disjunct(k: Option<string>): string
  {
    "id eq '" + KeyText(k) + "'"
  }

  function Disjuncts(keys: seq<Option<string>>): (ds: seq<string>)
    ensures |ds| == |keys|
  {
    seq(|keys|, i requires 0 <= i < |keys| => Disjunct(keys[i]))
  }

  function Texts(keys: seq<Option<string>>): (ts: seq<string>)
    ensures |ts| == |keys|
  {
    seq(|keys|, i requires 0 <= i < |keys| => KeyText(keys[i]))
  }

  /** `'$filter=' + ' or '.join(map(lambda x: f"id eq '{x}'", ids))`. */
  function FilterOf(keys: seq<Option<string>>): string
  {
    "$filter=" + Join(" or ", Disjuncts(keys))
  }

  predicate QuoteFree(t: string)
  {
    forall i :: 0 <= i < |t| ==> t[i] != '\''
  }

  /** The position of the first quote in `t`, or `|t|` when there is none. */
  function QuoteAt(t: string): (n: nat)
    ensures n <= |t|
    ensures n < |t| ==> t[n] == '\''
    ensures forall i :: 0 <= i < n ==> t[i] != '\''
  {
    if t == [] || t[0] == '\'' then 0 else 1 + QuoteAt(t[1..])
  }

  /** Reads one `id eq '<id>'` off the front of `s`: the id runs to the first
      quote after the opening one. Gives the id and what follows the closing quote. */
  function ParseOne(s: string): (r: Option<(string, string)>)
    ensures r.Some? ==> |r.value.1| < |s| && QuoteFree(r.value.0)
  {
    if |s| < 7 || s[..7] != "id eq '" then None
    else
      var t := s[7..];
      var n := QuoteAt(t);
      if n == |t| then None else Some((t[..n], t[n + 1..]))
  }

  /** How the server reads `id eq '<a>' or id eq '<b>' ...`: the quoted ids, in order. */
  function ParseDisjuncts(s: string): Option<seq<string>>
    decreases |s|
  {
    match ParseOne(s)
    case None => None
    case Some((id, rest)) =>
      if rest == "" then Some([id])
      else if |rest| > 4 && rest[..4] == " or " then
        match ParseDisjuncts(rest[4..])
        case None => None
        case Some(ids) => Some([id] + ids)
      else None
  }

  /** The ids a `$filter=` query names. */
  function FilterIds(f: string): Option<seq<string>>
  {
    if |f| >= 8 && f[..8] == "$filter=" then ParseDisjuncts(f[8..]) else None
  }

  lemma QuoteAtQuoteFree(a: string, b: string)
    requires QuoteFree(a)
    ensures QuoteAt(a + "'" + b) == |a|
  {
    var t := a + "'" + b;
    assert t[|a|] == '\'';
    assert forall i :: 0 <= i < |a| ==> t[i] == a[i];
  }

  /** A disjunct over a quote-free id reads back as that id. */
  lemma ParseOneDisjunct(id: string, tail: string)
    requires QuoteFree(id)
    ensures ParseOne(Disjunct(Some(id)) + tail) == Some((id, tail))
  {
    var s := Disjunct(Some(id)) + tail;
    var t := id + "'" + tail;
    assert s == "id eq '" + t;
    assert s[..7] == "id eq '" && s[7..] == t;
    QuoteAtQuoteFree(id, tail);
    assert t[..|id|] == id;
    assert t[|id| + 1..] == tail;
  }

  /** A disjunct, then " or " and more disjuncts. */
  lemma ParseDisjunctsCons(id: string, rest: string)
    requires QuoteFree(id) && rest != ""
    ensures ParseDisjuncts(Disjunct(Some(id)) + (" or " + rest)) ==
              match ParseDisjuncts(rest)
              case None => None
              case Some(ids) => Some([id] + ids)
  {
    var tail := " or " + rest;
    ParseOneDisjunct(id, tail);
    assert tail[..4] == " or " && tail[4..] == rest;
  }

  /** A single disjunct. */
  lemma ParseDisjunctsLast(id: string)
    requires QuoteFree(id)
    ensures ParseDisjuncts(Disjunct(Some(id))) == Some([id])
  {
    ParseOneDisjunct(id, "");
    assert Disjunct(Some(id)) + "" == Disjunct(Some(id));
  }

  /** Splitting the first key off the disjuncts and the texts. */
  lemma DisjunctsTail(keys: seq<Option<string>>)
    requires |keys| >= 2
    ensures Join(" or ", Disjuncts(keys)) == Disjunct(keys[0]) + (" or " + Join(" or ", Disjuncts(keys[1..])))
    ensures Texts(keys) == [KeyText(keys[0])] + Texts(keys[1..])
    ensures Join(" or ", Disjuncts(keys[1..])) != ""
  {
    var ds := Disjuncts(keys);
    assert ds[1..] == Disjuncts(keys[1..]);
    var rest := Join(" or ", ds[1..]);
    assert Join(" or ", ds) == ds[0] + " or " + rest;
    assert |ds[0]| > 0;
    if |keys| == 2 {
      assert rest == ds[1];
    } else {
      assert rest == ds[1] + " or " + Join(" or ", ds[1..][1..]);
    }
  }

  /** The server reads back exactly the listed ids, in order, provided that no
      id contains a quote. */
  lemma {:induction false} DisjunctsRoundTrip(keys: seq<Option<string>>)
    requires |keys| > 0
    requires forall i :: 0 <= i < |keys| ==> QuoteFree(KeyText(keys[i]))
    ensures ParseDisjuncts(Join(" or ", Disjuncts(keys))) == Some(Texts(keys))
  {
    var id := KeyText(keys[0]);
    assert Disjunct(keys[0]) == Disjunct(Some(id));
    if |keys| == 1 {
      ParseDisjunctsLast(id);
      assert Disjuncts(keys) == [Disjunct(keys[0])];
      assert Texts(keys) == [id];
    } else {
      DisjunctsTail(keys);
      DisjunctsRoundTrip(keys[1..]);
      ParseDisjunctsCons(id, Join(" or ", Disjuncts(keys[1..])));
    }
  }

  /** The filter names every listed key once, in listing order, and the server
      reads it back as such, provided no key contains a quote. */
  lemma FilterRoundTrip(keys: seq<Option<string>>)
    requires |keys| > 0
    requires forall i :: 0 <= i < |keys| ==> QuoteFree(KeyText(keys[i]))
    ensures FilterIds(FilterOf(keys)) == Some(Texts(keys))
  {
    var f := FilterOf(keys);
    assert f[..8] == "$filter=";
    assert f[8..] == Join(" or ", Disjuncts(keys));
    DisjunctsRoundTrip(keys);
  }

  /** No id the server reads off a filter contains a quote: each one ends at
      the first quote after its opening one. */
  lemma {:induction false} ParsedIdsQuoteFree(s: string)
    requires ParseDisjuncts(s).Some?
    ensures forall i :: 0 <= i < |ParseDisjuncts(s).value| ==> QuoteFree(ParseDisjuncts(s).value[i])
    decreases |s|
  {
    var (id, rest) := ParseOne(s).value;
    if rest != "" {
      ParsedIdsQuoteFree(rest[4..]);
    }
  }

  /** A key containing a quote is never read back as itself: the filter then
      does not name exactly the listed keys. */
  lemma FilterQuotedKeyMisread(keys: seq<Option<string>>, j: nat)
    requires j < |keys| && !QuoteFree(KeyText(keys[j]))
    ensures FilterIds(FilterOf(keys)) != Some(Texts(keys))
  {
    var f := FilterOf(keys);
    if FilterIds(f).Some? {
      ParsedIdsQuoteFree(f[8..]);
      assert Texts(keys)[j] == KeyText(keys[j]);
    }
  }

  /** Together with `FilterRoundTrip`: the server reads the filter back as the
      listed keys, in order, exactly when no key contains a quote. */
  lemma FilterReadBackIff(keys: seq<Option<string>>)
    requires |keys| > 0
    ensures FilterIds(FilterOf(keys)) == Some(Texts(keys)) <==>
              forall i :: 0 <= i < |keys| ==> QuoteFree(KeyText(keys[i]))
  {
    if forall i :: 0 <= i < |keys| ==> QuoteFree(KeyText(keys[i])) {
      FilterRoundTrip(keys);
    } else {
      var j :| 0 <= j < |keys| && !QuoteFree(KeyText(keys[j]));
      FilterQuotedKeyMisread(keys, j);
    }
  }

  /** A quote inside an id is not escaped: an id of the form
      `<a>' or id eq '<b>` reads back as the two ids `<a>` and `<b>`, so the
      lookup also returns the element with id `<b>`. */
  lemma FilterInjection(a: string, b: string)
    requires QuoteFree(a) && QuoteFree(b)
    ensures FilterIds(FilterOf([Some(a + "' or id eq '" + b)])) == Some([a, b])
  {
    FilterOfOne(Some(a + "' or id eq '" + b));
    DisjunctSplit(a, b);
    ParseDisjunctsLast(b);
    ParseDisjunctsCons(a, Disjunct(Some(b)));
    assert [a] + [b] == [a, b];
  }

  lemma FilterOfOne(k: Option<string>)
    ensures FilterIds(FilterOf([k])) == ParseDisjuncts(Disjunct(k))
  {
    var f := FilterOf([k]);
    assert Disjuncts([k]) == [Disjunct(k)];
    assert f == "$filter=" + Disjunct(k);
    assert f[..8] == "$filter=" && f[8..] == Disjunct(k);
  }

  lemma DisjunctSplit(a: string, b: string)
    ensures Disjunct(Some(a + "' or id eq '" + b)) == Disjunct(Some(a)) + (" or " + Disjunct(Some(b)))
  {
    assert "' or id eq '" == "'" + " or " + "id eq '";
  }

  // ---------------------------------------------------------------- lookups

  /** The elements of `all` whose key is one of `ids`, in the order of `all`. */
  function Matching<T>(all: seq<T>, key: T -> string, ids: seq<string>): (r: seq<T>)
    ensures forall i :: 0 <= i < |r| ==> key(r[i]) in ids
    ensures forall i :: 0 <= i < |all| && key(all[i]) in ids ==> all[i] in r
  {
    if all == [] then []
    else
      var rest := Matching(all[1..], key, ids);
      assert forall i :: 1 <= i < |all| ==> all[1..][i - 1] == all[i];
      if key(all[0]) in ids then [all[0]] + rest else rest
  }

  /** What the server answers to a lookup with the filter `f`: the elements the
      filter names; nothing for a filter it cannot read. */
  function Serve<T>(all: seq<T>, key: T -> string, f: string): seq<T>
  {
    match FilterIds(f)
    case None => []
    case Some(ids) => Matching(all, key, ids)
  }

  /** The collection the join runs over: `[]` when the lookup is skipped, the
      server's answer to the filter over the listed keys otherwise. */
  function Fetched<T>(all: seq<T>, key: T -> string, keys: seq<Option<string>>): seq<T>
  {
    if AllNone(keys) then [] else Serve(all, key, FilterOf(keys))
  }

  /** The contact and card requests issued for the listed keys. */
  function LookupRequests(owner: string, contactIds: seq<Option<string>>, cardIds: seq<Option<string>>): seq<string>
  {
    (if AllNone(contactIds) then [] else [ContactsPath(owner, FilterOf(contactIds))])
    + (if AllNone(cardIds) then [] else [CardsPath(owner, FilterOf(cardIds))])
  }

  /** Pre-filtering does not change a first-match join on a key the filter names. */
  lemma {:induction false} MatchingKeepsFirstMatch<T>(all: seq<T>, key: T -> string, ids: seq<string>, k: string)
    requires k in ids
    ensures FirstMatch(Matching(all, key, ids), key, Some(k)) == FirstMatch(all, key, Some(k))
  {
    if all != [] {
      MatchingKeepsFirstMatch(all[1..], key, ids, k);
      if key(all[0]) in ids {
        assert Matching(all, key, ids)[1..] == Matching(all[1..], key, ids);
      }
    }
  }

  // ---------------------------------------------------------------- rows

  /** The row written for one entry: the first contact and the first card whose
      id equals the entry's key supply 'Contact Email' and 'NFC Transponder
      Title', which stay null when nothing matches. */
  function LockRow(e: LogEntry, contacts: seq<Contact>, cards: seq<BoundCard>): (r: Row)
    ensures |r| == |HeaderNames|
  {
    var contact := FirstMatch(contacts, ContactKey, e.contactId);
    var card := FirstMatch(cards, CardKey, e.boundCardId);
    [ Text(e.contactId),
      if contact.Some? then Text(contact.value.email) else None,
      Text(e.boundCardId),
      if card.Some? then Text(card.value.title) else None,
      Text(e.lockTimestamp),
      Number(e.entryNo),
      Text(e.receivedAt),
      Text(e.id)]
  }

  /** The raw keys are always echoed, whether or not they resolve, and the last
      four columns are the entry's own fields. */
  lemma LockRowEchoesEntry(e: LogEntry, contacts: seq<Contact>, cards: seq<BoundCard>)
    ensures var r := LockRow(e, contacts, cards);
            && r[0] == Text(e.contactId) && r[2] == Text(e.boundCardId)
            && r[4..] == [Text(e.lockTimestamp), Number(e.entryNo), Text(e.receivedAt), Text(e.id)]
  {
  }

  /** 'Contact Email' comes from the first contact with the entry's contact id,
      and is null when there is none. */
  lemma LockRowContact(e: LogEntry, contacts: seq<Contact>, cards: seq<BoundCard>)
    ensures var r := LockRow(e, contacts, cards);
            && ((forall j :: 0 <= j < |contacts| ==> Some(contacts[j].id) != e.contactId) ==> r[1] == None)
            && (forall j :: 0 <= j < |contacts| && Some(contacts[j].id) == e.contactId
                  && (forall i :: 0 <= i < j ==> Some(contacts[i].id) != e.contactId)
                  ==> r[1] == Text(contacts[j].email))
  {
    forall j | 0 <= j < |contacts| && Some(contacts[j].id) == e.contactId
                 && (forall i :: 0 <= i < j ==> Some(contacts[i].id) != e.contactId)
      ensures FirstMatch(contacts, ContactKey, e.contactId) == Some(contacts[j])
    {
      FirstMatchAt(contacts, ContactKey, e.contactId, j);
    }
  }

  /** 'NFC Transponder Title' comes from the first card with the entry's card
      id, and is null when there is none. */
  lemma LockRowCard(e: LogEntry, contacts: seq<Contact>, cards: seq<BoundCard>)
    ensures var r := LockRow(e, contacts, cards);
            && ((forall j :: 0 <= j < |cards| ==> Some(cards[j].id) != e.boundCardId) ==> r[3] == None)
            && (forall j :: 0 <= j < |cards| && Some(cards[j].id) == e.boundCardId
                  && (forall i :: 0 <= i < j ==> Some(cards[i].id) != e.boundCardId)
                  ==> r[3] == Text(cards[j].title))
  {
    forall j | 0 <= j < |cards| && Some(cards[j].id) == e.boundCardId
                 && (forall i :: 0 <= i < j ==> Some(cards[i].id) != e.boundCardId)
      ensures FirstMatch(cards, CardKey, e.boundCardId) == Some(cards[j])
    {
      FirstMatchAt(cards, CardKey, e.boundCardId, j);
    }
  }

  /** No key of any entry contains a quote (`None` reads as "None"). */
  predicate QuoteFreeKeys(entries: seq<LogEntry>)
  {
    forall i :: 0 <= i < |entries| ==>
      QuoteFree(KeyText(entries[i].contactId)) && QuoteFree(KeyText(entries[i].boundCardId))
  }

  /** Fetching only the referenced elements loses nothing: when no key contains
      a quote, the join over what the lookup fetched (or over `[]`, when it was
      skipped) resolves every entry's key as the join over the whole collection would. */
  lemma {:induction false} FetchedKeepsFirstMatch<T>(entries: seq<LogEntry>, field: LogEntry -> Option<string>,
                                                      keys: seq<Option<string>>, all: seq<T>, key: T -> string, k: nat)
    requires IsListing(keys, KeySet(entries, field))
    requires forall i :: 0 <= i < |entries| ==> QuoteFree(KeyText(field(entries[i])))
    requires k < |entries|
    ensures FirstMatch(Fetched(all, key, keys), key, field(entries[k])) == FirstMatch(all, key, field(entries[k]))
  {
    var v := field(entries[k]);
    assert v in KeySet(entries, field);
    LookupSkippedIff(entries, field, keys);
    if v.Some? {
      assert !AllNone(keys);
      forall i | 0 <= i < |keys| ensures QuoteFree(KeyText(keys[i])) {
        assert keys[i] in KeySet(entries, field);
        var j :| 0 <= j < |entries| && field(entries[j]) == keys[i];
      }
      FilterRoundTrip(keys);
      var i :| 0 <= i < |keys| && keys[i] == v;
      assert Texts(keys)[i] == v.value;
      MatchingKeepsFirstMatch(all, key, Texts(keys), v.value);
    }
  }

  // ---------------------------------------------------------------- export

  /** `download()` of application.py for one lock. An absent or all-whitespace
      `owner_account_id` or `bound_lock_id` is refused with 400 before anything
      is requested. Otherwise the lock and its log entries are requested, then
      the contacts and the cards the entries refer to, each with one filter over
      the distinct keys in some order (skipped when every key is null), and the
      result is the header followed by one row per entry, in the order the
      entries came back. */
  method Export(ownerAccountId: Option<string>, boundLockId: Option<string>, account: LockAccount)
    returns (r: Outcome<seq<Row>>, requests: seq<string>)
    ensures !(ValidParam(ownerAccountId) && ValidParam(boundLockId)) ==> r == Abort(400) && requests == []
    ensures ValidParam(ownerAccountId) && ValidParam(boundLockId) ==>
              && r.Ok?
              && |r.value| == |account.logEntries| + 1
              && r.value[0] == Names(HeaderNames)
              && exists contactIds, cardIds ::
                   && IsListing(contactIds, KeySet(account.logEntries, ContactIdOf))
                   && IsListing(cardIds, KeySet(account.logEntries, CardIdOf))
                   && requests == [BoundLockPath(ownerAccountId.value, boundLockId.value),
                                   LogEntriesPath(ownerAccountId.value, boundLockId.value)]
                                  + LookupRequests(ownerAccountId.value, contactIds, cardIds)
                   && forall k :: 0 <= k < |account.logEntries| ==>
                        r.value[k + 1] == LockRow(account.logEntries[k],
                                                  Fetched(account.contacts, ContactKey, contactIds),
                                                  Fetched(account.cards, CardKey, cardIds))
    ensures ValidParam(ownerAccountId) && ValidParam(boundLockId) && QuoteFreeKeys(account.logEntries) ==>
              forall k :: 0 <= k < |account.logEntries| ==>
                r.value[k + 1] == LockRow(account.logEntries[k], account.contacts, account.cards)
  {
    if ownerAccountId.None? || boundLockId.None? || IsSpace(ownerAccountId.value) || IsSpace(boundLockId.value) {
      return Abort(400), [];
    }
    var owner, lock := ownerAccountId.value, boundLockId.value;

    requests := [BoundLockPath(owner, lock)];
    requests := requests + [LogEntriesPath(owner, lock)];
    var logEntries := account.logEntries;

    var contactIds := ListOf(KeySet(logEntries, ContactIdOf));
    var contacts, sent := FetchReferenced(account.contacts, ContactKey, contactIds, f => ContactsPath(owner, f));
    requests := requests + sent;

    var cardIds := ListOf(KeySet(logEntries, CardIdOf));
    var cards, sent' := FetchReferenced(account.cards, CardKey, cardIds, f => CardsPath(owner, f));
    requests := requests + sent';

    var rows := WriteRows(logEntries, contacts, cards);
    r := Ok(rows);

    assert requests == [BoundLockPath(owner, lock), LogEntriesPath(owner, lock)] + LookupRequests(owner, contactIds, cardIds);
    FullCollectionRows(logEntries, contactIds, cardIds, account, rows);
  }

  /** The rows built over what the lookups fetched are the rows over the whole
      collections, when no key contains a quote. */
  lemma FullCollectionRows(entries: seq<LogEntry>, contactIds: seq<Option<string>>, cardIds: seq<Option<string>>,
                           account: LockAccount, rows: seq<Row>)
    requires IsListing(contactIds, KeySet(entries, ContactIdOf))
    requires IsListing(cardIds, KeySet(entries, CardIdOf))
    requires |rows| == |entries| + 1
    requires forall k :: 0 <= k < |entries| ==>
               rows[k + 1] == LockRow(entries[k], Fetched(account.contacts, ContactKey, contactIds),
                                      Fetched(account.cards, CardKey, cardIds))
    ensures QuoteFreeKeys(entries) ==>
              forall k :: 0 <= k < |entries| ==> rows[k + 1] == LockRow(entries[k], account.contacts, account.cards)
  {
    if QuoteFreeKeys(entries) {
      forall k | 0 <= k < |entries|
        ensures rows[k + 1] == LockRow(entries[k], account.contacts, account.cards)
      {
        FetchedKeepsFirstMatch(entries, ContactIdOf, contactIds, account.contacts, ContactKey, k);
        FetchedKeepsFirstMatch(entries, CardIdOf, cardIds, account.cards, CardKey, k);
      }
    }
  }

  /** One lookup block: no request when every listed key is null (the
      collection stays `[]`), otherwise one request carrying the filter over
      the listed keys, whose answer becomes the collection. */
  method FetchReferenced<T>(all: seq<T>, key: T -> string, ids: seq<Option<string>>, path: string -> string)
    returns (fetched: seq<T>, sent: seq<string>)
    ensures fetched == Fetched(all, key, ids)
    ensures sent == if AllNone(ids) then [] else [path(FilterOf(ids))]
  {
    fetched, sent := [], [];
    if !AllNone(ids) {
      var filter := FilterOf(ids);
      sent := [path(filter)];
      fetched := Serve(all, key, filter);
    }
  }

  /** The CSV writer loop: the header, then one row per entry, in order. */
  method WriteRows(logEntries: seq<LogEntry>, contacts: seq<Contact>, cards: seq<BoundCard>) returns (rows: seq<Row>)
    ensures |rows| == |logEntries| + 1 && rows[0] == Names(HeaderNames)
    ensures forall k :: 0 <= k < |logEntries| ==> rows[k + 1] == LockRow(logEntries[k], contacts, cards)
  {
    var writer := new CsvWriter();
    writer.WriteRow(Names(HeaderNames));
    for k := 0 to |logEntries|
      invariant |writer.rows| == k + 1 && writer.rows[0] == Names(HeaderNames)
      invariant forall j :: 0 <= j < k ==> writer.rows[j + 1] == LockRow(logEntries[j], contacts, cards)
    {
      writer.WriteRow(LockRow(logEntries[k], contacts, cards));
    }
    rows := writer.rows;
  }
}
