/**
 * The per-row rules of the harvester in `LoadDataFrom4me`. A browser row is reduced to
 * what the loop observes of it; the seen-set holds both "TALEP_"+id keys and tracking numbers.
 */
module Harvest {
  import opened Wrappers
  import opened Text
  import opened Extraction
  import opened Records

  const TicketPrefix := "TALEP_"

  /** Sweeps in a row without a newly processed ticket after which the loop gives up. */
  const MaxNoProgress := 5

  /** Requesters who file tickets on a store's behalf; for them the owner names the store. */
  const ProxyRequesters: set<string> := {"Ayse GORDAG", "Eren BESIROGLU", "Ahmet Hakan ERGUL"}

  /**
   * What the loop observes of one list row: the text of its id cell (None when the cell is
   * missing), its subject (None when neither subject element is found), whether the click
   * and the detail view succeeded, the "Talep eden" and "Talep sahibi" texts (None when not
   * found), and the detail page's source.
   */
  datatype Row = Row(
    idCell: Option<string>,
    subject: Option<string>,
    clickOk: bool,
    detailLoaded: bool,
    requester: Option<string>,
    owner: Option<string>,
    pageSource: string)

  function TicketKey(id: string): string { TicketPrefix + id }

  predicate IsTicketKey(k: string) { TicketPrefix <= k }

  /** The elements counted by `islenenKargolar.Count(k => k.StartsWith("TALEP_"))`. */
  function TicketKeys(seen: set<string>): set<string> {
    set k | k in seen && IsTicketKey(k)
  }

  /**
   * The store id: the requester's text, unless the requester is one of the proxies, in
   * which case the owner's text; "" when the needed element is missing.
   */
  function StoreIdOf(requester: Option<string>, owner: Option<string>): (r: string)
    ensures requester.None? ==> r == ""
    ensures requester.Some? && requester.value !in ProxyRequesters ==> r == requester.value
    ensures requester.Some? && requester.value in ProxyRequesters ==> r == owner.GetOr("")
    ensures r != "" ==> requester.Some? && (requester.value in ProxyRequesters ==> owner == Some(r))
  {
    match requester
    case None => ""
    case Some(name) => if name in ProxyRequesters then owner.GetOr("") else name
  }

  /** Why `LoadDataFrom4me` refuses to start. */
  datatype CredentialError = MissingEmail | MissingPassword

  /**
   * A null or empty argument falls back to the configured value; the e-mail address is
   * checked first. The harvest starts exactly when both resolved values are non-empty.
   */
  function CheckCredentials(email: string, password: string, configuredEmail: string, configuredPassword: string): (e: Option<CredentialError>)
    ensures e == Some(MissingEmail) <==> email == "" && configuredEmail == ""
    ensures e == Some(MissingPassword) <==>
      (email != "" || configuredEmail != "") && password == "" && configuredPassword == ""
    ensures e.None? <==> (email != "" || configuredEmail != "") && (password != "" || configuredPassword != "")
  {
    var resolvedEmail := if email == "" then configuredEmail else email;
    var resolvedPassword := if password == "" then configuredPassword else password;
    if resolvedEmail == "" then Some(MissingEmail)
    else if resolvedPassword == "" then Some(MissingPassword)
    else None
  }

  /** What one row does to the seen-set, the record it yields, and whether it counts as processed. */
  datatype RowOutcome = RowOutcome(seen: set<string>, record: Option<KargoData>, marked: bool)

  /** All the conditions under which a row yields a new record. */
  ghost predicate YieldsRecord(seen: set<string>, row: Row) {
    && row.idCell.Some? && TicketKey(FirstDigitRun(row.idCell.value)) !in seen
    && row.subject.Some? && "-" <= row.subject.value
    && row.clickOk && row.detailLoaded
    && StoreIdOf(row.requester, row.owner) != ""
    && ExtractTrackingNumber(row.pageSource) != ""
    && ExtractTrackingNumber(row.pageSource) !in seen
  }

  /**
   * One iteration of the `foreach` over the rendered rows.
   * A row without id cell, or whose ticket key is already seen, changes nothing and is not
   * processed. Any other row is processed and its ticket key added, whatever happens next;
   * it yields a record (status "Beklemede", estimated delivery "-") exactly when every
   * filter passes and the extracted number is new, and that number is added as well.
   */
  function ProcessRow(seen: set<string>, row: Row, now: Timestamp): (o: RowOutcome)
    ensures o.marked <==> row.idCell.Some? && TicketKey(FirstDigitRun(row.idCell.value)) !in seen
    ensures !o.marked ==> o == RowOutcome(seen, None, false)
    ensures o.marked ==>
      o.seen == seen + {TicketKey(FirstDigitRun(row.idCell.value))}
                     + (if o.record.Some? then {o.record.value.trackingNumber} else {})
    ensures o.record.Some? <==> YieldsRecord(seen, row)
    ensures o.record.Some? ==> o.record.value == NewKargo(ExtractTrackingNumber(row.pageSource),
      StoreIdOf(row.requester, row.owner), FirstDigitRun(row.idCell.value), row.subject.value, now)
  {
    match row.idCell
    case None => RowOutcome(seen, None, false)
    case Some(cell) =>
      var id := FirstDigitRun(cell);
      var key := TicketKey(id);
      if key in seen then RowOutcome(seen, None, false)
      else
        var processed := seen + {key};
        match row.subject
        case None => RowOutcome(processed, None, true)
        case Some(subject) =>
          if !("-" <= subject) then RowOutcome(processed, None, true)
          else if !row.clickOk then RowOutcome(processed, None, true)
          else if !row.detailLoaded then RowOutcome(processed, None, true)
          else
            var storeId := StoreIdOf(row.requester, row.owner);
            if storeId == "" then RowOutcome(processed, None, true)
            else
              var trackingNumber := ExtractTrackingNumber(row.pageSource);
              if trackingNumber != "" && trackingNumber !in seen then
                RowOutcome(processed + {trackingNumber}, Some(NewKargo(trackingNumber, storeId, id, subject, now)), true)
              else RowOutcome(processed, None, true)
  }

  /** No extracted tracking number starts with "TALEP_", so the two kinds of keys never mix. */
  lemma ExtractedNeverTicketKey(content: string)
    ensures !IsTicketKey(ExtractTrackingNumber(content))
  {
    var r := ExtractTrackingNumber(content);
    ExtractedIsMatch(content);
    if IsMatchOf(content, r, Ups) {
      WindowNotTicketKey(content, r, Ups, 0);
    } else if IsMatchOf(content, r, Aras) {
      WindowNotTicketKey(content, r, Aras, 2);
    } else if IsMatchOf(content, r, Yurtici) {
      WindowNotTicketKey(content, r, Yurtici, 0);
    }
  }

  /** A window of pattern `p` whose class at `j` excludes the prefix's character there is no ticket key. */
  lemma WindowNotTicketKey(content: string, r: string, p: Pattern, j: nat)
    requires IsMatchOf(content, r, p) && j < |TicketPrefix| && j < |p| && !InClass(TicketPrefix[j], p[j])
    ensures !IsTicketKey(r)
  {
    var k: nat :| FitsAt(content, k, p) && r == content[k..k + |p|];
    assert InClass(content[k + j], p[j]);
    assert r[j] == content[k + j];
  }

  /**
   * A processed row adds exactly one ticket key; any other row adds none. Hence
   * `processedInIteration` counts the new ticket keys of a sweep.
   */
  lemma TicketCountStep(seen: set<string>, row: Row, now: Timestamp)
    ensures var o := ProcessRow(seen, row, now);
      && seen <= o.seen
      && |TicketKeys(o.seen)| == |TicketKeys(seen)| + (if o.marked then 1 else 0)
  {
    var o := ProcessRow(seen, row, now);
    if o.marked {
      var key := TicketKey(FirstDigitRun(row.idCell.value));
      ExtractedNeverTicketKey(row.pageSource);
      assert TicketKeys(o.seen) == TicketKeys(seen) + {key};
    }
  }

  /** The state a sweep threads through its rows: the seen-set, the records created, the rows processed. */
  datatype SweepState = SweepState(seen: set<string>, created: seq<KargoData>, processed: nat)

  /** One row's effect on the sweep state: `ProcessRow`, plus the created record and the processed count. */
  function RowStep(st: SweepState, row: Row, now: Timestamp): SweepState {
    var o := ProcessRow(st.seen, row, now);
    SweepState(o.seen, st.created + (if o.record.Some? then [o.record.value] else []),
               st.processed + (if o.marked then 1 else 0))
  }

  /**
   * The sweep state after the first `n` rendered rows of sweep `sweep` have gone through
   * the `foreach`; `clock(sweep, r)` is the time row `r` is handled.
   */
  function SweepRows(st: SweepState, rows: seq<Row>, sweep: nat, clock: (nat, nat) -> Timestamp, n: nat): SweepState
    requires n <= |rows|
  {
    if n == 0 then st
    else RowStep(SweepRows(st, rows, sweep, clock, n - 1), rows[n - 1], clock(sweep, n - 1))
  }

  /**
   * A sweep only adds to the seen-set and the created records, raises the processed count
   * by exactly the number of new ticket keys, and leaves every row it went through with
   * its ticket key seen when the row has an id cell.
   */
  lemma {:induction false} SweepRowsSpec(st: SweepState, rows: seq<Row>, sweep: nat, clock: (nat, nat) -> Timestamp, n: nat)
    requires n <= |rows|
    ensures var st' := SweepRows(st, rows, sweep, clock, n);
      && st.seen <= st'.seen && st.created <= st'.created && st.processed <= st'.processed
      && |TicketKeys(st'.seen)| - |TicketKeys(st.seen)| == st'.processed - st.processed
      && forall r :: 0 <= r < n && rows[r].idCell.Some? ==> TicketKey(FirstDigitRun(rows[r].idCell.value)) in st'.seen
  {
    if n > 0 {
      SweepRowsSpec(st, rows, sweep, clock, n - 1);
      var mid := SweepRows(st, rows, sweep, clock, n - 1);
      TicketCountStep(mid.seen, rows[n - 1], clock(sweep, n - 1));
      var o := ProcessRow(mid.seen, rows[n - 1], clock(sweep, n - 1));
      assert mid.seen <= o.seen;
    }
  }

  /**
   * The harvest state after `n` sweeps of the inbox, `listView(s)` being the rows rendered
   * at sweep `s`; each sweep starts its processed count at zero.
   */
  function AfterSweeps(listView: nat -> seq<Row>, clock: (nat, nat) -> Timestamp, n: nat): SweepState {
    if n == 0 then SweepState({}, [], 0)
    else
      var before := AfterSweeps(listView, clock, n - 1);
      SweepRows(SweepState(before.seen, before.created, 0), listView(n - 1), n - 1, clock, |listView(n - 1)|)
  }

  /** The processed counts of the first `n` sweeps, in order. */
  function SweepCounts(listView: nat -> seq<Row>, clock: (nat, nat) -> Timestamp, n: nat): (h: seq<nat>)
    ensures |h| == n
  {
    if n == 0 then [] else SweepCounts(listView, clock, n - 1) + [AfterSweeps(listView, clock, n).processed]
  }
}
