# Kargo takip: the shipment store and its two feeders

This project models `KargoService`, the service at the centre of the UPS shipment tracker,
and proves properties of that model. The service keeps:

- an in-memory list of shipment records (`KargoData`), persisted after every change;
- the 4me help-desk credentials from configuration.

It offers four kinds of operation:

- **Store operations**: list all records, look a record up by tracking number, add, update
  the status, delete one record, delete all records.
- **Polling** (`CheckKargoStatuses`): fetches the carrier's page for every numbered record.
  Each numbered record whose request succeeds gets a status ("Teslim Edildi" when the page
  carries the delivery phrase in any letter case, "Beklemede" otherwise), a new time stamp
  and, when the labelled span is found, a cleaned estimated-delivery text. A failed request
  leaves the record unchanged.
- **Harvesting** (`LoadDataFrom4me`): walks the 4me inbox sweep by sweep. It keeps only
  tickets whose subject starts with "-" and works out the store from the requester (or from
  the owner, for three known proxy requesters). It extracts the tracking number from the
  ticket page by the cascade UPS → Aras → Yurtiçi → MNG. Each number not yet seen in this
  run becomes a new record passed to `AddKargo`, which adds it only when the store does not
  already hold that number.
  It stops once the counter of inbox items is reached, or after five sweeps in a row
  without a newly processed ticket.
- **Credential check**: a missing argument falls back to the configured value. A missing
  e-mail address is reported before a missing password.

Module layout:

- `wrappers.dfy`: `Option`.
- `text.dfy`: the string tools the code uses. These are trimming, ordinal case-insensitive
  search and the `\d+` match.
- `extraction.dfy`: the four tracking-number expressions, as a non-overlapping
  left-to-right scan, and the cascade.
- `records.dfy`: `KargoData` and the pure list operations behind the store methods.
- `status.dfy`: the per-record rules of polling.
- `harvest.dfy`: the per-row rules of the harvest.
- `service.dfy`: class `KargoService`. Its field `kargos` is the list the methods
  reassign. The ghost field `saves` logs every list `SaveKargoData` writes.

The HTTP responses, the browser's view of the inbox and the clock are parameters. The store
invariant `Valid()` says that every tracking number is non-empty and unique. Every
state-changing method preserves it.

The MNG branch of the cascade (`KargoService.cs` lines 463-471) is modelled as written.
Every `MNG` followed by ten digits also contains an Aras-shaped code: "NG" followed by
nine digits. So that branch can never decide the result. A ticket page whose only number is
`MNG0123456789` therefore yields `NG012345678`. The lemmas `Extraction.MngBranchUnreachable`
and `Extraction.MngNumberReadAsAras` state this.

## Model

| member | source | states |
|---|---|---|
| Records.NewKargo | api/Services/KargoService.cs:482-491 | a harvested record starts with status "Beklemede" and estimated delivery "-" (the property defaults of lines 605 and 608) |
| Records.FirstIndexOf | api/Services/KargoService.cs:89 | the index found carries the number and no earlier record does; none exactly when no record carries the number |
| Records.ListWithSpec | api/Services/KargoService.cs:92-102 | the record is admitted exactly when it is present, numbered and its number is not yet in the list; an admitted record is appended, otherwise the list is unchanged; uniqueness of numbers is preserved and the number set grows by exactly the admitted number |
| Records.ListWith | api/Services/KargoService.cs:92-102 | the old list is a prefix of the new one, which is at most one record longer; a record added at the end is the given record |
| Records.ListWithStatus | api/Services/KargoService.cs:104-116 | the list keeps its length and the number at every position |
| Records.ListWithStatusSpec | api/Services/KargoService.cs:104-116 | an empty or unknown number changes nothing; the first record carrying the number gets the new status and time stamp and, in any list and not just a well-keyed one, every other record stays in place; numbers and their uniqueness are kept |
| Records.ListWithoutSpec | api/Services/KargoService.cs:567-579 | an empty or unknown number changes nothing; otherwise exactly the first record with the number is removed and the rest keep their order; in a well-keyed list the number leaves the number set |
| Records.ListWithout | api/Services/KargoService.cs:567-579 | the list loses at most one record, and a list that keeps its length is unchanged |
| Records.RemoveAtSpec | api/Services/KargoService.cs:575 | removing one record from a well-keyed list keeps it well-keyed and removes exactly that record's number |
| Records.RemoveAtNumbers | api/Services/KargoService.cs:575 | removing one record from a well-keyed list removes exactly that record's number from the number set |
| Records.SameKeys | api/Services/KargoService.cs:112-113 | lists that agree on the number at every position agree on uniqueness and on their number sets |
| Records.AddAllSpec | api/Services/KargoService.cs:493 | adding records one by one adds exactly their numbers and keeps uniqueness |
| Records.AddAll | api/Services/KargoService.cs:493 | the old list is a prefix of the new one, which grows by at most the number of records added |
| Text.Trim | api/Services/KargoService.cs:150-151 | the result is a slice of the input with no white space at either end, and only white space was cut |
| Text.ContainsIgnoringCase | api/Services/KargoService.cs:156 | true exactly when some window of the text equals the phrase after case folding |
| Text.FirstDigitRun | api/Services/KargoService.cs:309 | the leftmost maximal run of digits; empty exactly when the text holds no digit |
| Extraction.MatchesFrom | api/Services/KargoService.cs:437 | every match the scan reports from position i is a matching window at or after i, in increasing order and without overlap |
| Extraction.Matches | api/Services/KargoService.cs:437 | every match reported for the whole text is a matching window, in increasing order and without overlap (the same scan serves lines 446, 456 and 466) |
| Extraction.MatchesFromComplete | api/Services/KargoService.cs:437 | every matching window overlaps a reported match from the left, so none is missed |
| Extraction.LastMatchAt | api/Services/KargoService.cs:438-441 | the last reported match is a matching window with no matching window after its end; none exactly when nothing matches |
| Extraction.LastMatchValue | api/Services/KargoService.cs:438-441 | the text of the last match, empty exactly when nothing matches, and otherwise as long as the format |
| Extraction.ExtractTrackingNumber | api/Services/KargoService.cs:434-471 | a number found has the length of one of the formats: 18 for UPS, 11 for Aras, 13 for Yurtiçi |
| Extraction.ExtractionPrecedence | api/Services/KargoService.cs:434-471 | formats are tried in the order UPS, Aras, Yurtiçi, MNG; the first that matches anywhere decides with its last match; the result is empty exactly when no format matches |
| Extraction.ExtractedIsMatch | api/Services/KargoService.cs:434-471 | a non-empty result is the text of a window matching the UPS, Aras or Yurtiçi format |
| Extraction.MngContainsAras | api/Services/KargoService.cs:446 | a text holding an MNG number also holds an Aras code |
| Extraction.MngBranchUnreachable | api/Services/KargoService.cs:463-471 | the MNG branch never finds a number, so the result is empty exactly when none of UPS, Aras and Yurtiçi matches |
| Extraction.MngNumberReadAsAras | api/Services/KargoService.cs:446-471 | a page holding only "MNG" and ten digits yields "NG" and the first nine digits |
| StatusParser.StripTags | api/Services/KargoService.cs:151 | removing tag spans never lengthens the text, and a text without `<` is unchanged |
| StatusParser.TagEnd | api/Services/KargoService.cs:151 | where a lazy `<.*?>` span ends: at a `>` with no line break before it, and none exactly when no `>` comes before the first line break |
| StatusParser.TagEndAtFirstClose | api/Services/KargoService.cs:151 | a span whose text has neither `>` nor a line break ends at the `>` that follows it |
| StatusParser.StripTagsDropsSpan | api/Services/KargoService.cs:151 | a whole span `<t>`, with no `>` or line break inside, is removed and the rest is processed from just after its `>` |
| StatusParser.StripTagsKeepsPlain | api/Services/KargoService.cs:151 | text before the first `<` is kept verbatim in front of the processed rest |
| StatusParser.StripTagsNoTagSpan | api/Services/KargoService.cs:151 | after removing every lazy `<.*?>` span, no `<` is followed on its line by a `>` |
| StatusParser.StripTagsIdentity | api/Services/KargoService.cs:151 | a text without tag spans is left as it is |
| StatusParser.CleanEstimate | api/Services/KargoService.cs:150-152 | the estimated-delivery text holds no tag span and no white space at either end |
| StatusParser.CleanEstimateIdempotent | api/Services/KargoService.cs:150-152 | cleaning a cleaned text changes nothing |
| StatusParser.Classify | api/Services/KargoService.cs:156-163 | "Teslim Edildi" exactly when the page holds the delivery phrase in any letter case, "Beklemede" otherwise |
| StatusParser.PolledRecord | api/Services/KargoService.cs:127-166 | the tracking number never changes; an unnumbered record or a failed request leaves the record as it is |
| StatusParser.PolledRecordSpec | api/Services/KargoService.cs:127-180 | on a successful poll only status, estimate and time stamp change; status as in `Classify`; the old estimate is kept when the labelled span is missing, otherwise it becomes the cleaned group |
| Harvest.StoreIdOf | api/Services/KargoService.cs:383-418 | a missing requester gives ""; a requester not among the three proxies names the store; for a proxy the store is the owner's text, "" when the owner is missing; so a non-empty store id comes from the requester, or from the owner when the requester is a proxy |
| Harvest.CheckCredentials | api/Services/KargoService.cs:188-201 | the e-mail error exactly when both e-mail values are empty; the password error exactly when an e-mail is known and both password values are empty; no error exactly when both resolve |
| Harvest.ProcessRow | api/Services/KargoService.cs:302-521 | a row without id cell or with a seen ticket key changes nothing; any other row is processed and its ticket key added; it yields a new "Beklemede" record exactly when every filter passes and the extracted number is new, and that number is then added too |
| Harvest.ExtractedNeverTicketKey | api/Services/KargoService.cs:318 | no extracted tracking number starts with "TALEP_", so tracking numbers never count as processed tickets |
| Harvest.WindowNotTicketKey | api/Services/KargoService.cs:318 | a matching window of a format whose class at some position excludes the letter of "TALEP_" there is not a ticket key |
| Harvest.TicketCountStep | api/Services/KargoService.cs:524 | a processed row adds exactly one ticket key and any other row none, so the count of processed tickets rises by one per processed row |
| Harvest.SweepRowsSpec | api/Services/KargoService.cs:302-521 | a pass over the rows only adds to the seen-set and the created records, raises the processed count by exactly the number of new ticket keys, and leaves the ticket key of every readable row seen |
| KargoTakip.KargoService.constructor | api/Services/KargoService.cs:28-63 | the list is the loaded one, or empty when the file is missing, null or unreadable; missing configuration values become "" |
| KargoTakip.KargoService.SaveKargoData | api/Services/KargoService.cs:65-77 | each save logs the current list |
| KargoTakip.KargoService.GetAllKargos | api/Services/KargoService.cs:79-82 | returns the list |
| KargoTakip.KargoService.GetKargoByTrackingNumber | api/Services/KargoService.cs:84-90 | a record exactly when the number is non-empty and in the list; it is the first record with that number |
| KargoTakip.KargoService.AddKargo | api/Services/KargoService.cs:92-102 | the new list is `ListWith` of the old; it is saved exactly when the record is admitted; the invariant is kept |
| KargoTakip.KargoService.UpdateKargoStatus | api/Services/KargoService.cs:104-116 | the new list is `ListWithStatus` of the old; it is saved exactly when the number is found; the invariant is kept |
| KargoTakip.KargoService.DeleteKargo | api/Services/KargoService.cs:567-579 | the new list is `ListWithout` of the old; it is saved exactly when the number is found; the invariant is kept |
| KargoTakip.KargoService.DeleteAllKargos | api/Services/KargoService.cs:581-587 | the list is empty, the empty list is saved, and the invariant holds |
| KargoTakip.KargoService.CheckKargoStatuses | api/Services/KargoService.cs:118-186 | the list becomes the polled list, every record its polled version, with the same numbers; after the old log come exactly one snapshot per successful poll, in list order, the last holding the final list; the invariant is kept |
| KargoTakip.KargoService.PollAll | api/Services/KargoService.cs:124-184 | after the turns of all records the list is the polled list and the log is the old log followed by the snapshots of the successful polls |
| KargoTakip.KargoService.PollOne | api/Services/KargoService.cs:127-166 | one record's turn: a numbered record whose request succeeds is replaced by its polled version and the list saved; otherwise nothing changes |
| KargoTakip.PolledListSpec | api/Services/KargoService.cs:127-166 | every list has a polled version in which numbers are kept and skipped records are unchanged |
| KargoTakip.PolledKeys | api/Services/KargoService.cs:127-166 | polling keeps the number set and the uniqueness of numbers |
| KargoTakip.PollTurn | api/Services/KargoService.cs:129-166 | a successful poll replaces the record at the boundary and appends one snapshot; a skipped record changes neither list nor log |
| KargoTakip.SavesOfCount | api/Services/KargoService.cs:166 | the save log only grows, by one snapshot per successful poll |
| KargoTakip.SavesOfLast | api/Services/KargoService.cs:166 | the last snapshot is the list as it stands after the turns taken so far |
| KargoTakip.PollLog | api/Services/KargoService.cs:166-184 | after the last turn the list is the polled list with the same numbers, the log holds one snapshot per successful poll after the old log, the last being the final list, and a well-keyed list stays well-keyed |
| KargoTakip.KargoService.Sweep | api/Services/KargoService.cs:302-521 | one sweep over the rendered rows computes the fold of the per-row step `RowStep` (that is, `ProcessRow`) over them; the seen-set and created records only grow, the ticket count rises by the processed rows, and every created record is passed to `AddKargo`, which appends it when the store does not yet hold its number (`ks == AddAll(ks0, created)`) |
| KargoTakip.KargoService.SweepRow | api/Services/KargoService.cs:302-521 | one row of the sweep extends that fold by one row, keeping the store in step with the created records |
| KargoTakip.KargoService.LoadDataFrom4me | api/Services/KargoService.cs:188-564 | a credential error stops the harvest with nothing changed; otherwise the seen-set, the created records and the per-sweep counts are the fold of the sweeps over the rendered rows; the harvest stops at the first sweep after which the counter is reached or five sweeps in a row were idle, and not before; there are at most five sweeps per inbox item; the store gains the created records whose numbers it did not yet hold, and its number set becomes the old set plus the created numbers, with one save per admitted record and the last save holding the final list; created records are new "Beklemede" records with unique numbers, each number and ticket key seen; the invariant is kept |
| KargoTakip.KargoService.HarvestLoop | api/Services/KargoService.cs:294-546 | the `while` loop ends with the counter reached or the fifth idle sweep in a row, the sweeps so far being the fold over the rendered rows and no earlier sweep meeting the stopping rule |
| KargoTakip.KargoService.HarvestSweep | api/Services/KargoService.cs:296-545 | one sweep of the loop appends its processed count to the history, raises the ticket count by it and advances or resets the idle count, keeping the loop's facts |
| KargoTakip.HarvestRow | api/Services/KargoService.cs:477-494 | a created record joins the created records and is passed to `AddKargo`, which appends it when the store does not yet hold its number (`ks == AddAll(ks0, created)`); a row without record keeps the created records' facts |
| KargoTakip.StoreGrowStep | api/Services/KargoService.cs:477-494 | one more `AddKargo` keeps the list equal to `AddAll` of the old list and the created records: each created record is appended when the store does not yet hold its number, with one save per admitted record |
| KargoTakip.HarvestEnd | api/Services/KargoService.cs:524-564 | when the loop ends, the harvest has stopped by the rule and has done all that `LoadDataFrom4me` states |
| KargoTakip.HarvestDone | api/Services/KargoService.cs:493 | after the harvest the store holds exactly the old numbers and the created ones, still unique |
| KargoTakip.CreatedFactsGrow | api/Services/KargoService.cs:339 | the facts about created records survive a growing seen-set |
| KargoTakip.AppendCreated | api/Services/KargoService.cs:477-494 | a record whose number was not yet seen joins the created records with their facts intact |
| KargoTakip.SweepAccount | api/Services/KargoService.cs:524-545 | a sweep either resets or extends the idle run, the per-sweep counts keep adding up to the processed tickets, and the number of sweeps stays within five per item |
| KargoTakip.TotalAppend | api/Services/KargoService.cs:524 | the processed total of the sweeps grows by the last sweep's count |
| KargoTakip.HarvestStops | api/Services/KargoService.cs:524-541 | when the loop ends, the per-sweep counts add up to the count, the stopping rule holds, and falling short of the counter means the last five sweeps were idle |
| KargoTakip.IdleHarvestLength | api/Services/KargoService.cs:531-541 | a harvest with tickets to count whose sweeps all process nothing ends with exactly its fifth sweep |
| KargoTakip.NotStoppedYet | api/Services/KargoService.cs:524-541 | while the counter is not reached and fewer than five idle sweeps have run in a row, the stopping rule does not hold |
| KargoTakip.UnstoppedAppend | api/Services/KargoService.cs:524-541 | a sweep taken while the harvest had not stopped keeps every earlier prefix of sweeps short of the stopping rule |

## Left out

- The browser session, lines 203-258 (Chrome options, navigation, login clicks and waits): the
  inbox is a parameter `listView` giving the rows rendered at each sweep, and a row that
  cannot be read is part of the `Row` value. `Task.Delay` and scrolling are left out.
- The inbox counter, lines 261-278: `int.TryParse` of the counter text is not modelled; the
  parsed value, 0 when it cannot be read, is the parameter `totalItems`.
- HTTP: the carrier page for record i is `fetch(i)`, None when the request throws.
- The estimated-delivery regular expression of line 145 is the parameter `locate`, returning
  its captured group. The cleaning of that group (lines 150-152) is modelled.
- KargoTakip.KargoService.CheckKargoStatuses: the polls run concurrently, at most two at a
  time (lines 124-184). The model polls sequentially in list order. Under concurrency the
  order of saves and which updates a snapshot already contains are not fixed.
- Record aliasing: `GetAllKargos` returns the live list, and polling mutates its records in
  place. The model replaces the record in the store's list instead.
- The JSON file (lines 43-77): reading is the constructor's `loaded` argument. Serialisation
  and write failures are left out, and each save is a snapshot in the ghost log `saves`. A
  file holding null elements is not modelled.
- `DateTime.Now` is an integer `Timestamp` supplied by the caller (`now`, `clock`).
- `\d` and case folding: the model treats `\d` as the ASCII digits. In .NET `\d` matches
  every Unicode decimal digit. `OrdinalIgnoreCase` folding is modelled for the ASCII
  letters and for `ş`, the one non-ASCII letter of the delivery phrase. Other letters fold
  to themselves in the model; for example `ı`, which .NET folds to `I`, is not folded.
  `Trim` removes only ASCII white space; the Unicode spaces it also removes in .NET are
  not modelled.
- `konu.StartsWith("-")` (line 345) is culture-sensitive in .NET; the model uses a plain
  prefix test.
- Exceptions thrown by the browser are folded into the `Row` fields. This covers a missing
  subject, a failed click, a detail page that does not load, and a missing requester or
  owner. The catch-all of lines 513-520 is not modelled. `LoadDataFrom4me` rethrowing
  (line 562) is left out.
- `LoadDataFrom4me` reports a credential error as a returned value, not as an
  `InvalidOperationException`.
- Logging, the controller (`api/Controllers/KargoController.cs`) and the front end
  (`frontend/script.js`) are not part of this model.
