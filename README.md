# Tapkey log export, modelled in Dafny

The repository is a small Flask service. It exports the lock-trigger audit log
of a Tapkey owner account as a CSV download. It comes in two variants:

- `app.py`'s `download` exports a whole owner account. It fetches the log
  entries page by page (`fetch_log_entries`). It indexes the account's contacts,
  cards and locks in id-keyed dictionaries and writes an 11-column row per
  entry. Each row also shows the lock's physical id, decoded from base64 into
  dash-separated hex (`to_readable_lock_id`).
- `application.py`'s `download` exports one lock. It requests the lock's log
  entries once. It collects the distinct contact and card ids of those entries
  and looks up only those, with one `$filter=id eq '…' or …` request each. A
  lookup is skipped when every id is null. The join is a linear first-match
  search, and each entry gets an 8-column row.

The model is written per source file:

- `common.dfy`: optional values, the outcome of a handler (a value or an HTTP
  status), Python's `str.join` and `str.isspace`, and the query-argument check
  both handlers share.
- `entities.dfy`: the records the API returns, the CSV cells and rows, and the
  CSV writer. The writer is a class whose `WriteRow` appends one row.
- `joins.dfy`: the two ways a foreign key is resolved. One is a dictionary
  built by comprehension, where the last duplicate wins. The other is `next(…)`
  over a list, where the first match wins. It also proves that the two agree
  when ids are unique.
- `base64.dfy`: the standard base64 alphabet with `=` padding, for canonical
  text, with an encoder as the decoder's partner.
- `lock_id.dfy`: `to_readable_lock_id`, with a parser for its output as
  partner.
- `paging.dfy`: `fetch_log_entries` as a loop over a modelled `LogEntries`
  collection. A `LogApi` value serves `$skip`/`$top` windows and can be told to
  fail a page. The loop is proved equal to a recursive definition, and that
  definition is proved equal to a closed form.
- `account_export.dfy`: `download` of `app.py`.
- `lock_export.dfy`: `download` of `application.py`. It includes the key sets,
  the filter text, a reader for that text (how the server interprets it) and
  the server's answer.

The remote API is a parameter of the model: a `LogApi` value for the paged log
request, given sequences for `fetch_contacts`, `fetch_cards` and `fetch_locks`,
and a `LockAccount` value for the per-lock variant. A Python exception that
ends the request becomes `Abort(500)`, and `abort(400)` becomes `Abort(400)`.

## Model

| member | source | states |
|---|---|---|
| `Common.ValidParamExamples` | app.py:101-106 | The empty string is accepted because `"".isspace()` is false. An absent argument and one made only of whitespace are refused. |
| `Entities.CsvWriter.WriteRow` | app.py:152-164 | `writerow` appends exactly the given row after the rows already written, and changes nothing else. |
| `Joins.IndexById` | app.py:113 | The dictionary built by comprehension has a key exactly for each id that occurs. A repeated id maps to its last occurrence. |
| `Joins.LookupLast` | app.py:146-148 | Looking up the id of an element that no later element shares gives that element. |
| `Joins.LookupAbsent` | app.py:146-148 | A key that no element has, a null key included, finds nothing. |
| `Joins.FirstMatch` | application.py:142-143 | `next(…, None)` is `None` exactly when no element has the key. Otherwise it is the element at the first index with that key. |
| `Joins.FirstMatchIsIndexLookup` | application.py:142-143 | When ids are unique, the first-match search gives the same result as the dictionary lookup of the whole-account export for every key. |
| `Base64.Decode` | app.py:282 | A successful decode yields at most three bytes per four characters. |
| `Base64.DecodeSomeIff` | app.py:282 | Decoding succeeds exactly on canonical text. Text is rejected when its length is not a multiple of four, when it has a character outside the alphabet other than '=', or when it has an '=' anywhere except the end of the last quantum. |
| `Base64.RoundTrip` | app.py:282 | Decoding the encoding of any byte sequence gives back exactly that sequence, padded endings included. |
| `LockId.DropPrefix` | app.py:285 | `bytes[2:]` holds every byte after the first two, in order. It is empty, not an error, for two bytes or fewer. |
| `LockId.ToReadableLockId` | app.py:272-290 | The result is present exactly when the physical id decodes. Reading the result back as dash-separated hex gives exactly the decoded bytes minus the first two. |
| `LockId.ParseDashHexRoundTrip` | app.py:288 | `'-'.join(format(b,'02x') …)` loses nothing: parsing the text gives back the bytes. |
| `LockId.ParseDashHexOnlyRenderings` | app.py:288 | Any text the parser accepts is the rendering of the bytes it returns, so parser and renderer are inverse in both directions. |
| `LockId.DashHexLength` | app.py:288 | k bytes render as 3k - 1 characters: two digits each and a dash between neighbours. No bytes render as "". |
| `LockId.DashHexAt` | app.py:288 | Byte i is shown at characters 3i and 3i+1 as its high and low lowercase hex digit. A dash follows it unless it is the last byte. |
| `LockId.ReadableLockIdShape` | app.py:282-290 | A physical id of at most two bytes reads as "". Otherwise every byte from the third on appears as two lowercase hex digits at its position, and the length is 3(n-2)-1. |
| `LockId.ReadableLockIdExample` | app.py:282-290 | "AAECAwQFBg==" (bytes 00 to 06) reads as "02-03-04-05-06". |
| `Paging.PageRequestsContiguous` | app.py:247-249 | Every page asks for `$top=500`. Each page's `$skip` is the previous page's `$skip` plus its `$top`, so the windows are contiguous. |
| `Paging.FetchLogEntries` | app.py:232-269 | The loop sends pages 1, 2, … in order. It succeeds exactly when none of pages 1 to ⌊n/500⌋+1 fails, and it then returns the whole collection in order after ⌊n/500⌋+1 requests. Otherwise it aborts with 500 at the first page that has a non-200 status or a non-list body, and returns no entries. |
| `Paging.PageSizes` | app.py:264-267 | Every page before the last is full (500 entries) and is the next slice of the collection. The last page holds n mod 500 entries, so it is short and ends the loop. |
| `Paging.FetchOutcome` | app.py:242-269 | The recursive account of the loop in closed form: contiguous requests, success exactly when no page fails, and an abort at the first failing page with every earlier page successful. |
| `Paging.ThousandEntriesTakeThreeRequests` | app.py:264-267 | Exactly 1000 entries take three requests. The third one returns an empty list, which ends the loop. |
| `Paging.SecondPageFailureAborts` | app.py:256-257 | A non-200 second page aborts the export with 500. The first page's entries are not returned. |
| `AccountExport.EntryRow` | app.py:143-164 | A row has the 11 header columns. It fails only with 500. |
| `AccountExport.EntryRowEchoesEntry` | app.py:156-163 | 'Contact ID' and 'NFC Transponder ID' echo the raw keys whether or not they resolve. The last four columns are the entry's own timestamp, number, receipt time and id. |
| `AccountExport.EntryRowUnresolved` | app.py:146-159 | A key that is null, or that no element has, leaves that entity's columns null. An unresolved lock never fails the row. |
| `AccountExport.EntryRowResolvedLock` | app.py:148-155 | A lock key that resolves fills the three lock columns from the last lock with that id: its id, its readable serial and its title. The row fails exactly when that lock's physical id does not decode. |
| `AccountExport.EntryRowResolvedContact` | app.py:146-157 | A contact key that resolves gives 'Contact Identifier' the identifier of the last contact with that id. |
| `AccountExport.EntryRowResolvedCard` | app.py:147-159 | A card key that resolves gives 'NFC Transponder Title' the title of the last card with that id. |
| `AccountExport.EntryRowFailure` | app.py:149 | A row fails only when the entry refers to a lock whose physical id is not valid base64. |
| `AccountExport.Export` | app.py:101-164 | An absent or all-whitespace owner account is refused with 400 before any request is sent. Otherwise the paged fetch runs; if it fails, the export fails with 500. The export succeeds exactly when the fetch succeeds and every row can be built. On success the output is the header followed by exactly one row per fetched entry, in fetch order. |
| `LockExport.ListOf` | application.py:108 | `list(set(…))` lists every distinct key exactly once, in some order. |
| `LockExport.ListingSize` | application.py:108-110 | A listing has as many elements as the set, so the filter has one disjunct per distinct key. |
| `LockExport.LookupSkippedIff` | application.py:107-122 | Whatever the listing order, a lookup is skipped exactly when no entry has a non-null value in that key field. No entries at all means no request. |
| `LockExport.DisjunctsRoundTrip` | application.py:110 | The `' or '`-joined disjuncts read back as the listed ids, in order, when no id contains a quote. |
| `LockExport.FilterRoundTrip` | application.py:110 | The `$filter=` text names every listed key once, in listing order. A null key is spelt "None". When no key contains a quote, the server reads the keys back. |
| `LockExport.FilterReadBackIff` | application.py:110 | The server reads the filter back as exactly the listed keys, in order, if and only if no key contains a quote. A key with a quote is never read back as itself. |
| `LockExport.FilterInjection` | application.py:110 | Ids are not escaped: the id `a' or id eq 'b` reads back as the two ids `a` and `b`. |
| `LockExport.MatchingKeepsFirstMatch` | application.py:111-113 | Keeping only the elements the filter names does not change the first match for any key the filter names. |
| `LockExport.FetchedKeepsFirstMatch` | application.py:107-122 | When no key contains a quote, joining each entry against what the lookup fetched gives the same result as joining against the whole collection. This includes `[]` when the lookup was skipped. |
| `LockExport.LockRowEchoesEntry` | application.py:144-153 | The raw contact and card ids are always echoed. The last four columns are the entry's own fields. |
| `LockExport.LockRowContact` | application.py:142-146 | 'Contact Email' is the email of the first contact with the entry's contact id. It is null when there is none. |
| `LockExport.LockRowCard` | application.py:143-148 | 'NFC Transponder Title' is the title of the first card with the entry's card id. It is null when there is none. |
| `LockExport.FetchReferenced` | application.py:107-122 | When every listed key is null, no request is sent and the collection stays `[]`. Otherwise exactly one request carries the filter over the listed keys, and the collection is the server's answer to it. |
| `LockExport.WriteRows` | application.py:124-154 | The output is the 8-name header followed by exactly one row per entry, in order, each built by the first-match join. |
| `LockExport.Export` | application.py:88-154 | A missing or all-whitespace owner account or lock is refused with 400 before any request. Otherwise it sends the lock request, the log request, and a contacts and a cards request for some listing of the distinct keys, each only when some key is non-null. It returns the header and one row per entry. When no key contains a quote, every row equals the row joined against the account's full contact and card collections. |

## Left out

- OAuth registration, the token getter and session storage are left out. They are a foreign library.
- Flask routing, `make_response`, the Content-Disposition header with its wall-clock file name, and the MIME type are left out. They are framework I/O. `owner_account_chooser` and `hello.py` contain no export logic.
- The startup environment-variable checks and Application Insights set-up are configuration, not logic.
- `fetch_contacts`, `fetch_cards` and `fetch_locks` are single requests. The whole-account export takes their results as given sequences.
- AccountExport.Export: an error answer to the locks, contacts or cards request is not modelled. `fetch_locks`, `fetch_contacts` and `fetch_cards` do not check the status. In the source, an error body makes the dictionary comprehensions raise, and the export ends with 500. The model always succeeds past these requests.
- The CSV text itself is left out: `QUOTE_NONNUMERIC` quoting and the way `None` is rendered. Rows are sequences of cells. A cell is null, text or a number; numbers are the fields the writer leaves unquoted.
- Base64.Decode: only canonical text is modelled (a length that is a multiple of four, padding only at the end). `b64decode` accepts more: it discards characters outside the alphabet and tolerates some padding errors. Where the model says `None`, Python may instead decode such text.
- A `physicalLockId` that is missing or null would raise `KeyError` or `TypeError`. The model takes it to be present text.
- Paging.FetchLogEntries: the request path and its `$filter`/`$select` text are not modelled. Only `$skip` and `$top` are. A page's status and body come from the `LogApi` value rather than from a real server.
- LockExport.Export: the log-entry request of the per-lock export is neither paged nor status-checked in the source. The model takes its list as given and does not model a non-list or error body. The lock request's answer only feeds the file name and is not modelled. As a result, the export never fails on that answer. In the source, an error answer without an `id` field (an unknown lock, say) raises `KeyError` at application.py:156, and the export ends with 500.
- LockExport.Export: the server's reading of a `$filter` is modelled as the quoted ids up to each closing quote. A filter it cannot read is answered with no elements. The real server answers with an error body, which the handler would then fail on.
- LockExport.Export: an error answer to the contacts or cards lookup is not modelled. The source takes `resp.json()` without checking the status. An error body, such as a JSON object with a 401 or 500 status, makes the row generators raise, and the export ends with 500. In the model a readable filter is always answered with the matching elements, so a valid pair of arguments always gives `Ok`.
- An entry is a JSON object that may lack a field. `entry['contactId']` in the per-lock export would raise `KeyError` for a missing key, and that is not modelled: every field reads as a value or null.

Behaviour of the code worth knowing, which the model follows:

- Lock ids are decoded on every row, not once per lock. The result is the same. An id that does not decode ends the whole export with 500 as soon as a row refers to that lock.
- A physical id of two bytes or fewer gives "" rather than an error, because `bytes[2:]` is empty.
- The whole-account export fetches every contact, card and lock, not only the referenced ones.
- In the per-lock export, a null key that occurs beside real keys is put into the filter as `id eq 'None'`. The lookup is skipped only when every key is null.
- Fields are not all quoted: `QUOTE_NONNUMERIC` leaves numbers such as `entryNo` unquoted.
