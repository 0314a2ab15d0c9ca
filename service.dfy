/**
 * The shipment store as an object: the in-memory list of shipments, the configured 4me
 * credentials, and a log of every list snapshot written to the data file.
 */
module KargoTakip {
  import opened Wrappers
  import opened Records
  import opened StatusParser
  import opened Harvest

  /** Record `k` gets its turn in `CheckKargoStatuses`: it is numbered and its request succeeded. */
  predicate Polls(k: KargoData, response: Option<string>) {
    k.trackingNumber != "" && response.Some?
  }

  /** Number of records `CheckKargoStatuses` polls successfully among the first `n`. */
  ghost function PolledCount(ks: seq<KargoData>, fetch: nat -> Option<string>, n: nat): nat
    requires n <= |ks|
  {
    if n == 0 then 0 else PolledCount(ks, fetch, n - 1) + (if Polls(ks[n - 1], fetch(n - 1)) then 1 else 0)
  }

  /**
   * Polling keeps every tracking number, and a record `CheckKargoStatuses` skips has itself
   * as its polled version.
   */
  ghost predicate SkipsKeep(ks0: seq<KargoData>, ps: seq<KargoData>, fetch: nat -> Option<string>) {
    |ks0| == |ps| && forall j :: 0 <= j < |ps| ==> KeptEntry(ks0, ps, fetch, j)
  }

  /** Entry `j` keeps its tracking number, and is unchanged when it is skipped. */
  ghost predicate KeptEntry(ks0: seq<KargoData>, ps: seq<KargoData>, fetch: nat -> Option<string>, j: nat)
    requires j < |ks0| && j < |ps|
  {
    && ps[j].trackingNumber == ks0[j].trackingNumber
    && (!Polls(ks0[j], fetch(j)) ==> ps[j] == ks0[j])
  }

  /** Polling keeps the set of tracking numbers, and with it the store's invariant. */
  lemma PolledKeys(ks0: seq<KargoData>, ps: seq<KargoData>, fetch: nat -> Option<string>)
    requires SkipsKeep(ks0, ps, fetch)
    ensures WellKeyed(ps) <==> WellKeyed(ks0)
    ensures TrackingNumbers(ps) == TrackingNumbers(ks0)
  {
    forall j | 0 <= j < |ps| ensures ps[j].trackingNumber == ks0[j].trackingNumber {
      assert KeptEntry(ks0, ps, fetch, j);
    }
    SameKeys(ks0, ps);
  }

  /** `ps` is `ks0` with every record replaced by its polled version. */
  ghost predicate IsPolledList(ks0: seq<KargoData>, ps: seq<KargoData>, fetch: nat -> Option<string>,
                               locate: string -> Option<string>, clock: nat -> Timestamp) {
    |ps| == |ks0| && forall j :: 0 <= j < |ks0| ==> PolledEntry(ks0, ps, fetch, locate, clock, j)
  }

  /** Entry `j` of `ps` is the polled version of entry `j` of `ks0`. */
  ghost predicate PolledEntry(ks0: seq<KargoData>, ps: seq<KargoData>, fetch: nat -> Option<string>,
                              locate: string -> Option<string>, clock: nat -> Timestamp, j: nat)
    requires j < |ks0| && j < |ps|
  {
    ps[j] == PolledRecord(ks0[j], fetch(j), locate, clock(j))
  }

  /**
   * Every list has a polled version; polling never changes a tracking number, and a
   * skipped record stays as it was.
   */
  lemma PolledListSpec(ks0: seq<KargoData>, fetch: nat -> Option<string>, locate: string -> Option<string>,
                       clock: nat -> Timestamp) returns (ps: seq<KargoData>)
    ensures IsPolledList(ks0, ps, fetch, locate, clock)
    ensures SkipsKeep(ks0, ps, fetch)
  {
    ps := seq(|ks0|, j requires 0 <= j < |ks0| => PolledRecord(ks0[j], fetch(j), locate, clock(j)));
    forall j | 0 <= j < |ps| ensures PolledEntry(ks0, ps, fetch, locate, clock, j) && KeptEntry(ks0, ps, fetch, j) {
      assert ps[j] == PolledRecord(ks0[j], fetch(j), locate, clock(j));
    }
  }

  /**
   * The save log once the first `n` records have had their turn, where `ps` is the fully
   * polled list: one snapshot per successful poll, of the list as it stands at that moment.
   */
  ghost function SavesOf(saves0: seq<seq<KargoData>>, ks0: seq<KargoData>, ps: seq<KargoData>,
                         fetch: nat -> Option<string>, n: nat): seq<seq<KargoData>>
    requires n <= |ks0| == |ps|
  {
    if n == 0 then saves0
    else
      var polled := if Polls(ks0[n - 1], fetch(n - 1)) then [ps[..n] + ks0[n..]] else [];
      SavesOf(saves0, ks0, ps, fetch, n - 1) + polled
  }

  /**
   * Moving the boundary between the polled prefix and the untouched suffix one place on
   * replaces the element at the boundary, and changes nothing when that element is unchanged.
   */
  lemma Advance<T>(ps: seq<T>, ks0: seq<T>, n: nat)
    requires n < |ks0| == |ps|
    ensures (ps[..n] + ks0[n..])[n := ps[n]] == ps[..n + 1] + ks0[n + 1..]
    ensures ps[n] == ks0[n] ==> ps[..n] + ks0[n..] == ps[..n + 1] + ks0[n + 1..]
  {
    var cur := ps[..n] + ks0[n..];
    var next := ps[..n + 1] + ks0[n + 1..];
    assert |cur[n := ps[n]]| == |next|;
    forall j | 0 <= j < |next| ensures cur[n := ps[n]][j] == next[j] {
      if j < n {
        assert cur[j] == ps[j];
      } else if j > n {
        assert cur[j] == ks0[j];
      }
    }
  }

  /**
   * One record's turn: a polled record is replaced by its polled version and the list
   * saved; a skipped record already is its polled version, so neither list nor log changes.
   */
  lemma PollTurn(saves0: seq<seq<KargoData>>, ks0: seq<KargoData>, ps: seq<KargoData>, fetch: nat -> Option<string>,
                 n: nat, cur: seq<KargoData>, log: seq<seq<KargoData>>)
    requires n < |ks0| && SkipsKeep(ks0, ps, fetch)
    requires cur == ps[..n] + ks0[n..] && log == SavesOf(saves0, ks0, ps, fetch, n)
    ensures cur[n] == ks0[n]
    ensures Polls(ks0[n], fetch(n)) ==>
      && cur[n := ps[n]] == ps[..n + 1] + ks0[n + 1..]
      && log + [cur[n := ps[n]]] == SavesOf(saves0, ks0, ps, fetch, n + 1)
    ensures !Polls(ks0[n], fetch(n)) ==>
      cur == ps[..n + 1] + ks0[n + 1..] && log == SavesOf(saves0, ks0, ps, fetch, n + 1)
  {
    Advance(ps, ks0, n);
    assert KeptEntry(ks0, ps, fetch, n);
  }

  /** Before the first turn the list is the original. */
  lemma AdvanceStart<T>(ps: seq<T>, ks0: seq<T>)
    ensures ps[..0] + ks0[0..] == ks0
  {
  }

  /** After the last turn the list is the polled list. */
  lemma AdvanceDone<T>(ps: seq<T>, ks0: seq<T>, n: nat)
    requires n == |ks0| == |ps|
    ensures ps[..n] + ks0[n..] == ps
  {
  }

  /** The log only grows, by one snapshot per successful poll. */
  lemma {:induction false} SavesOfCount(saves0: seq<seq<KargoData>>, ks0: seq<KargoData>, ps: seq<KargoData>,
                                        fetch: nat -> Option<string>, n: nat)
    requires n <= |ks0| == |ps|
    ensures saves0 <= SavesOf(saves0, ks0, ps, fetch, n)
    ensures |SavesOf(saves0, ks0, ps, fetch, n)| == |saves0| + PolledCount(ks0, fetch, n)
  {
    if n > 0 {
      SavesOfCount(saves0, ks0, ps, fetch, n - 1);
    }
  }

  /** The last snapshot in the log, if any was taken, is the list as it stands after `n` turns. */
  lemma {:induction false} SavesOfLast(saves0: seq<seq<KargoData>>, ks0: seq<KargoData>, ps: seq<KargoData>,
                                       fetch: nat -> Option<string>, n: nat)
    requires n <= |ks0| && SkipsKeep(ks0, ps, fetch)
    ensures |SavesOf(saves0, ks0, ps, fetch, n)| > |saves0| ==>
      SavesOf(saves0, ks0, ps, fetch, n)[|SavesOf(saves0, ks0, ps, fetch, n)| - 1] == ps[..n] + ks0[n..]
  {
    if n > 0 && !Polls(ks0[n - 1], fetch(n - 1)) {
      SavesOfLast(saves0, ks0, ps, fetch, n - 1);
      Advance(ps, ks0, n - 1);
      assert KeptEntry(ks0, ps, fetch, n - 1);
    }
  }

  /**
   * What `CheckKargoStatuses` does to the list `ks0` and the log `saves0`: the list `cur`
   * is the polled list, with the same numbers; the log holds one snapshot per successful
   * poll after those it held before, in order, and the last snapshot is the polled list.
   */
  ghost predicate Polled(ks0: seq<KargoData>, cur: seq<KargoData>, saves0: seq<seq<KargoData>>, log: seq<seq<KargoData>>,
                         fetch: nat -> Option<string>, locate: string -> Option<string>, clock: nat -> Timestamp)
  {
    && IsPolledList(ks0, cur, fetch, locate, clock)
    && log == SavesOf(saves0, ks0, cur, fetch, |ks0|)
    && |log| == |saves0| + PolledCount(ks0, fetch, |ks0|)
    && saves0 <= log && (|log| > |saves0| ==> log[|log| - 1] == cur)
    && TrackingNumbers(cur) == TrackingNumbers(ks0)
  }

  /** After the last record's turn, the list and the log are those `Polled` describes. */
  lemma PollLog(saves0: seq<seq<KargoData>>, ks0: seq<KargoData>, ps: seq<KargoData>, fetch: nat -> Option<string>,
                locate: string -> Option<string>, clock: nat -> Timestamp, log: seq<seq<KargoData>>)
    requires IsPolledList(ks0, ps, fetch, locate, clock) && SkipsKeep(ks0, ps, fetch)
    requires log == SavesOf(saves0, ks0, ps, fetch, |ks0|)
    ensures Polled(ks0, ps, saves0, log, fetch, locate, clock)
    ensures WellKeyed(ks0) ==> WellKeyed(ps)
  {
    SavesOfCount(saves0, ks0, ps, fetch, |ks0|);
    SavesOfLast(saves0, ks0, ps, fetch, |ks0|);
    AdvanceDone(ps, ks0, |ks0|);
    PolledKeys(ks0, ps, fetch);
  }

  /**
   * The state of `CheckKargoStatuses` before record `i`'s turn: the first `i` records
   * polled and the rest as they were, and the log extended by one snapshot per success.
   */
  ghost predicate Polling(ks0: seq<KargoData>, ps: seq<KargoData>, fetch: nat -> Option<string>,
                          saves0: seq<seq<KargoData>>, i: nat, cur: seq<KargoData>, log: seq<seq<KargoData>>)
  {
    && i <= |ks0| == |ps| == |cur|
    && cur == ps[..i] + ks0[i..]
    && log == SavesOf(saves0, ks0, ps, fetch, i)
  }

  /** Tickets newly processed over a run of sweeps. */
  ghost function Total(history: seq<nat>): nat {
    if history == [] then 0 else Total(history[..|history| - 1]) + history[|history| - 1]
  }

  class KargoService {
    /** `_kargoList`. */
    var kargos: seq<KargoData>
    /** Every list written by `SaveKargoData`, oldest first. */
    ghost var saves: seq<seq<KargoData>>
    const fourMeEmail: string
    const fourMePassword: string

    /** The store's invariant: tracking numbers are non-empty and unique. */
    ghost predicate Valid()
      reads this
    {
      WellKeyed(kargos)
    }

    /**
     * `loaded` is the list read from the data file, or None when the file is missing,
     * holds JSON null, or cannot be read; missing configuration values become "".
     */
    constructor (loaded: Option<seq<KargoData>>, configuredEmail: Option<string>, configuredPassword: Option<string>)
      ensures kargos == loaded.GetOr([]) && saves == []
      ensures fourMeEmail == configuredEmail.GetOr("") && fourMePassword == configuredPassword.GetOr("")
      ensures WellKeyed(loaded.GetOr([])) ==> Valid()
    {
      kargos := loaded.GetOr([]);
      saves := [];
      fourMeEmail := configuredEmail.GetOr("");
      fourMePassword := configuredPassword.GetOr("");
    }

    /** Writes the current list to the data file. */
    ghost method SaveKargoData()
      modifies this`saves
      ensures saves == old(saves) + [kargos]
    {
      saves := saves + [kargos];
    }

    /** The whole list, in insertion order. */
    method GetAllKargos() returns (r: seq<KargoData>)
      ensures r == kargos
    {
      r := kargos;
    }

    /**
     * An empty number finds nothing; otherwise the first record carrying the number, and
     * nothing exactly when no record carries it.
     */
    method GetKargoByTrackingNumber(trackingNumber: string) returns (r: Option<KargoData>)
      ensures r.Some? <==> trackingNumber != "" && trackingNumber in TrackingNumbers(kargos)
      ensures r.Some? ==>
        exists i :: 0 <= i < |kargos| && kargos[i] == r.value && r.value.trackingNumber == trackingNumber &&
          forall j :: 0 <= j < i ==> kargos[j].trackingNumber != trackingNumber
    {
      if trackingNumber == "" {
        return None;
      }
      var i := FirstIndexOf(kargos, trackingNumber);
      if i.Some? {
        r := Some(kargos[i.value]);
      } else {
        r := None;
        assert trackingNumber !in TrackingNumbers(kargos);
      }
    }

    /** Appends the record and saves, unless it is null, unnumbered or already present. */
    method AddKargo(kargo: Option<KargoData>)
      modifies this
      ensures kargos == ListWith(old(kargos), kargo)
      ensures saves == old(saves) + (if Admits(old(kargos), kargo) then [kargos] else [])
      ensures old(Valid()) ==> Valid()
    {
      ListWithSpec(kargos, kargo);
      if kargo.None? || kargo.value.trackingNumber == "" {
        return;
      }
      if FirstIndexOf(kargos, kargo.value.trackingNumber).None? {
        kargos := kargos + [kargo.value];
        SaveKargoData();
      }
    }

    /** Sets status and time stamp of the first record with the number, and saves. */
    method UpdateKargoStatus(trackingNumber: string, status: string, now: Timestamp)
      modifies this
      ensures kargos == ListWithStatus(old(kargos), trackingNumber, status, now)
      ensures saves == old(saves) +
        (if trackingNumber != "" && FirstIndexOf(old(kargos), trackingNumber).Some? then [kargos] else [])
      ensures old(Valid()) ==> Valid()
    {
      ListWithStatusSpec(kargos, trackingNumber, status, now);
      if trackingNumber == "" {
        return;
      }
      var i := FirstIndexOf(kargos, trackingNumber);
      if i.Some? {
        var k := kargos[i.value];
        kargos := kargos[i.value := k.(status := status, lastUpdated := now)];
        SaveKargoData();
      }
    }

    /** Removes the first record with the number, and saves. */
    method DeleteKargo(trackingNumber: string)
      modifies this
      ensures kargos == ListWithout(old(kargos), trackingNumber)
      ensures saves == old(saves) +
        (if trackingNumber != "" && FirstIndexOf(old(kargos), trackingNumber).Some? then [kargos] else [])
      ensures old(Valid()) ==> Valid()
    {
      ListWithoutSpec(kargos, trackingNumber);
      if trackingNumber == "" {
        return;
      }
      var i := FirstIndexOf(kargos, trackingNumber);
      if i.Some? {
        kargos := kargos[..i.value] + kargos[i.value + 1..];
        SaveKargoData();
      }
    }

    /** Empties the list and saves the empty list. */
    method DeleteAllKargos()
      modifies this
      ensures kargos == [] && saves == old(saves) + [[]]
      ensures Valid()
    {
      kargos := [];
      SaveKargoData();
    }

    /**
     * Polls the carrier for every numbered record, in list order. `fetch(i)` is the page
     * returned for record i, or None when the request failed; `locate` is the expression
     * that finds the estimated-delivery span; `clock(i)` is the time record i is updated.
     * Each record becomes its polled version, and every successful poll saves the list.
     */
    method CheckKargoStatuses(fetch: nat -> Option<string>, locate: string -> Option<string>, clock: nat -> Timestamp)
      modifies this
      ensures Polled(old(kargos), kargos, old(saves), saves, fetch, locate, clock)
      ensures old(Valid()) ==> Valid()
    {
      ghost var ks0, saves0 := kargos, saves;
      ghost var ps := PolledListSpec(ks0, fetch, locate, clock);
      PollAll(fetch, locate, clock, ps);
      AdvanceDone(ps, ks0, |ks0|);
      PollLog(saves0, ks0, ps, fetch, locate, clock, saves);
    }

    /** The `foreach` of `CheckKargoStatuses`: every record takes its turn, in list order. */
    method PollAll(fetch: nat -> Option<string>, locate: string -> Option<string>, clock: nat -> Timestamp,
                   ghost ps: seq<KargoData>)
      modifies this
      requires IsPolledList(kargos, ps, fetch, locate, clock) && SkipsKeep(kargos, ps, fetch)
      ensures Polling(old(kargos), ps, fetch, old(saves), |old(kargos)|, kargos, saves)
    {
      ghost var ks0, saves0 := kargos, saves;
      AdvanceStart(ps, ks0);
      var i := 0;
      while i < |kargos|
        invariant Polling(ks0, ps, fetch, saves0, i, kargos, saves)
      {
        PollOne(i, fetch, locate, clock, ks0, ps, saves0);
        i := i + 1;
      }
    }

    /**
     * Record `i`'s turn in `CheckKargoStatuses`: a numbered record whose request succeeds is
     * replaced by its polled version and the list saved; otherwise nothing changes.
     */
    method PollOne(i: nat, fetch: nat -> Option<string>, locate: string -> Option<string>, clock: nat -> Timestamp,
                   ghost ks0: seq<KargoData>, ghost ps: seq<KargoData>, ghost saves0: seq<seq<KargoData>>)
      modifies this
      requires i < |ks0| && IsPolledList(ks0, ps, fetch, locate, clock) && SkipsKeep(ks0, ps, fetch)
      requires Polling(ks0, ps, fetch, saves0, i, kargos, saves)
      ensures Polling(ks0, ps, fetch, saves0, i + 1, kargos, saves)
    {
      PollTurn(saves0, ks0, ps, fetch, i, kargos, saves);
      var k := kargos[i];
      var response := fetch(i);
      assert PolledEntry(ks0, ps, fetch, locate, clock, i);
      if k.trackingNumber != "" && response.Some? {
        kargos := kargos[i := PolledRecord(k, response, locate, clock(i))];
        SaveKargoData();
      }
    }

    /**
     * One pass of the `foreach` over the rows rendered at sweep `sweep`: each row goes
     * through `ProcessRow`, and each record it yields is passed to `AddKargo`. `processed`
     * counts the rows marked as processed, that is, the new ticket keys.
     */
    method Sweep(rows: seq<Row>, sweep: nat, clock: (nat, nat) -> Timestamp, seen0: set<string>, created0: seq<KargoData>,
                 ghost ks0: seq<KargoData>, ghost saves0: seq<seq<KargoData>>)
      returns (seen: set<string>, created: seq<KargoData>, processed: nat)
      modifies this
      requires CreatedFacts(seen0, created0) && StoreGrown(ks0, kargos, saves0, saves, created0)
      ensures SweepState(seen, created, processed) == SweepRows(SweepState(seen0, created0, 0), rows, sweep, clock, |rows|)
      ensures seen0 <= seen && created0 <= created
      ensures |TicketKeys(seen)| == |TicketKeys(seen0)| + processed
      ensures CreatedFacts(seen, created) && StoreGrown(ks0, kargos, saves0, saves, created)
      ensures old(Valid()) ==> Valid()
    {
      seen, created, processed := seen0, created0, 0;
      for r := 0 to |rows|
        invariant Sweeping(rows, sweep, clock, seen0, created0, ks0, saves0, r, seen, created, processed, kargos, saves)
        invariant old(Valid()) ==> Valid()
      {
        seen, created, processed := SweepRow(rows, sweep, clock, seen0, created0, ks0, saves0, r, seen, created, processed);
      }
    }

    /**
     * Row `r` of a sweep: `ProcessRow` decides the row, a record it yields goes to
     * `AddKargo` and joins the created records, and a processed row is counted.
     */
    method SweepRow(rows: seq<Row>, sweep: nat, clock: (nat, nat) -> Timestamp, ghost seen0: set<string>,
                    ghost created0: seq<KargoData>, ghost ks0: seq<KargoData>, ghost saves0: seq<seq<KargoData>>,
                    r: nat, seen: set<string>, created: seq<KargoData>, processed: nat)
      returns (seen': set<string>, created': seq<KargoData>, processed': nat)
      modifies this
      requires r < |rows| && Sweeping(rows, sweep, clock, seen0, created0, ks0, saves0, r, seen, created, processed, kargos, saves)
      ensures Sweeping(rows, sweep, clock, seen0, created0, ks0, saves0, r + 1, seen', created', processed', kargos, saves)
      ensures old(Valid()) ==> Valid()
    {
      var o := ProcessRow(seen, rows[r], clock(sweep, r));
      TicketCountStep(seen, rows[r], clock(sweep, r));
      HarvestRow(ks0, kargos, saves0, saves, seen, created, rows[r], clock(sweep, r));
      created' := created;
      if o.record.Some? {
        AddKargo(o.record);
        created' := created + [o.record.value];
      }
      seen' := o.seen;
      processed' := processed;
      if o.marked {
        processed' := processed + 1;
      }
      assert SweepState(seen', created', processed') == RowStep(SweepState(seen, created, processed), rows[r], clock(sweep, r));
    }

    /**
     * The harvest from the 4me inbox. `totalItems` is the parsed item counter (0 when it
     * cannot be read), `listView(s)` the rows rendered at sweep s, `clock(s, r)` the time
     * row r of sweep s is handled. Returns the error that stops it before the browser
     * starts, the seen-set, the records created, and the processed-ticket count of each sweep.
     */
    method LoadDataFrom4me(email: string, password: string, totalItems: int,
                           listView: nat -> seq<Row>, clock: (nat, nat) -> Timestamp)
      returns (err: Option<CredentialError>, seen: set<string>, created: seq<KargoData>, ghost history: seq<nat>)
      modifies this
      ensures err == CheckCredentials(email, password, fourMeEmail, fourMePassword)
      ensures err.Some? ==> kargos == old(kargos) && saves == old(saves) && seen == {} && created == [] && history == []
      // past the credential check: the sweeps, their stopping rule, their fold, and the grown list
      ensures err.None? ==> Harvested(totalItems, listView, clock, history, seen, created, old(kargos), kargos, old(saves), saves)
      ensures old(Valid()) ==> Valid()
    {
      err := CheckCredentials(email, password, fourMeEmail, fourMePassword);
      if err.Some? {
        seen, created, history := {}, [], [];
      } else {
        ghost var idle;
        seen, created, history, idle := HarvestLoop(totalItems, listView, clock);
        HarvestEnd(totalItems, listView, clock, history, idle, seen, created, old(kargos), kargos, old(saves), saves);
      }
    }

    /**
     * The `while` loop of the harvest. It ends when the counter is reached or after the
     * fifth idle sweep in a row; `idle` is the length of the idle run it ends with.
     */
    method HarvestLoop(totalItems: int, listView: nat -> seq<Row>, clock: (nat, nat) -> Timestamp)
      returns (seen: set<string>, created: seq<KargoData>, ghost history: seq<nat>, ghost idle: nat)
      modifies this
      ensures Harvesting(totalItems, listView, clock, history, idle, seen, created, old(kargos), kargos, old(saves), saves)
      ensures |TicketKeys(seen)| >= totalItems || idle >= MaxNoProgress
      ensures old(Valid()) ==> Valid()
    {
      seen, created, history := {}, [], [];
      var noProgress: nat := 0;
      var sweep: nat := 0;
      while |TicketKeys(seen)| < totalItems
        invariant sweep == |history| && noProgress < MaxNoProgress
        invariant Harvesting(totalItems, listView, clock, history, noProgress, seen, created, old(kargos), kargos, old(saves), saves)
        invariant old(Valid()) ==> Valid()
        decreases totalItems - |TicketKeys(seen)|, MaxNoProgress - noProgress
      {
        var processed;
        seen, created, processed, history, noProgress :=
          HarvestSweep(listView, clock, totalItems, sweep, seen, created, history, noProgress, old(kargos), old(saves));
        sweep := sweep + 1;
        if |TicketKeys(seen)| >= totalItems {
          break;
        }
        if noProgress >= MaxNoProgress {
          break;
        }
      }
      idle := noProgress;
    }

    /**
     * Sweep number `sweep` of `LoadDataFrom4me`, taken while the harvest goes on: the rows
     * rendered at that sweep go through `Sweep`, its processed count joins the history, and
     * the count of idle sweeps in a row is advanced or reset.
     */
    method HarvestSweep(listView: nat -> seq<Row>, clock: (nat, nat) -> Timestamp, totalItems: int, sweep: nat,
                        seen: set<string>, created: seq<KargoData>, ghost history: seq<nat>, noProgress: nat,
                        ghost ks0: seq<KargoData>, ghost saves0: seq<seq<KargoData>>)
      returns (seen': set<string>, created': seq<KargoData>, processed: nat, ghost history': seq<nat>, noProgress': nat)
      modifies this
      requires sweep == |history| && noProgress < MaxNoProgress && |TicketKeys(seen)| < totalItems
      requires Harvesting(totalItems, listView, clock, history, noProgress, seen, created, ks0, kargos, saves0, saves)
      ensures history' == history + [processed]
      ensures |TicketKeys(seen')| == |TicketKeys(seen)| + processed
      ensures noProgress' == if processed == 0 then noProgress + 1 else 0
      ensures Harvesting(totalItems, listView, clock, history', noProgress', seen', created', ks0, kargos, saves0, saves)
      ensures old(Valid()) ==> Valid()
    {
      NotStoppedYet(history, noProgress, |TicketKeys(seen)|, totalItems);
      UnstoppedAppend(history, totalItems, |history|);
      seen', created', processed := Sweep(listView(sweep), sweep, clock, seen, created, ks0, saves0);
      SweepAccount(history, noProgress, |TicketKeys(seen)|, processed, totalItems);
      history' := history + [processed];
      // a sweep that processed no new ticket lengthens the idle run, any other ends it
      if processed == 0 {
        noProgress' := noProgress + 1;
      } else {
        noProgress' := 0;
      }
    }

  }

  /**
   * The state of the harvest loop after the sweeps of `history`, the last `idle` of them
   * idle: at most five sweeps per item, the sweep accounting, no earlier stop, the fold of
   * the sweeps so far, and the list grown by the records created.
   */
  ghost predicate Harvesting(totalItems: int, listView: nat -> seq<Row>, clock: (nat, nat) -> Timestamp,
                             history: seq<nat>, idle: nat, seen: set<string>, created: seq<KargoData>,
                             ks0: seq<KargoData>, ks: seq<KargoData>,
                             saves0: seq<seq<KargoData>>, saves: seq<seq<KargoData>>)
  {
    && |history| <= (if totalItems > 0 then MaxNoProgress * totalItems else 0)
    && Progress(history, idle, |TicketKeys(seen)|)
    && Unstopped(history, totalItems)
    && seen == AfterSweeps(listView, clock, |history|).seen
    && created == AfterSweeps(listView, clock, |history|).created
    && history == SweepCounts(listView, clock, |history|)
    && CreatedFacts(seen, created)
    && StoreGrown(ks0, ks, saves0, saves, created)
  }

  /**
   * What a harvest that passed the credential check has done, given the processed-ticket
   * counts of its sweeps in `history`, and the list and save log before (`ks0`, `saves0`)
   * and after (`ks`, `saves`).
   */
  ghost predicate Harvested(totalItems: int, listView: nat -> seq<Row>, clock: (nat, nat) -> Timestamp,
                            history: seq<nat>, seen: set<string>, created: seq<KargoData>,
                            ks0: seq<KargoData>, ks: seq<KargoData>, saves0: seq<seq<KargoData>>, saves: seq<seq<KargoData>>)
  {
    // at most five sweeps per item
    && |history| <= (if totalItems > 0 then MaxNoProgress * totalItems else 0)
    // the per-sweep counts add up to the processed tickets
    && Total(history) == |TicketKeys(seen)|
    // it stops at the first sweep after which the counter is reached or five sweeps in a row were idle
    && Stops(history, totalItems) && Unstopped(history, totalItems)
    // what it computes is the fold of the sweeps over the rendered rows
    && seen == AfterSweeps(listView, clock, |history|).seen
    && created == AfterSweeps(listView, clock, |history|).created
    && history == SweepCounts(listView, clock, |history|)
    // the list gains the created records whose numbers it did not hold, each addition saved
    && ks == AddAll(ks0, created)
    && TrackingNumbers(ks) == TrackingNumbers(ks0) + TrackingNumbers(created)
    && |saves| - |saves0| == |ks| - |ks0| && saves0 <= saves
    && (|saves| > |saves0| ==> saves[|saves| - 1] == ks)
    // every record created is new, pending, and keyed by a ticket seen in this harvest
    && CreatedFacts(seen, created)
  }

  /** When the harvest loop ends, the harvest has stopped, and the list holds the old numbers and those created. */
  lemma HarvestEnd(totalItems: int, listView: nat -> seq<Row>, clock: (nat, nat) -> Timestamp,
                   history: seq<nat>, idle: nat, seen: set<string>, created: seq<KargoData>,
                   ks0: seq<KargoData>, ks: seq<KargoData>, saves0: seq<seq<KargoData>>, saves: seq<seq<KargoData>>)
    requires Harvesting(totalItems, listView, clock, history, idle, seen, created, ks0, ks, saves0, saves)
    requires |TicketKeys(seen)| >= totalItems || idle >= MaxNoProgress
    ensures Harvested(totalItems, listView, clock, history, seen, created, ks0, ks, saves0, saves)
  {
    HarvestDone(ks0, ks, saves0, saves, seen, created);
    HarvestStops(history, idle, |TicketKeys(seen)|, totalItems);
  }

  /**
   * The state of a sweep after its first `r` rows: the fold of `RowStep` over them, the
   * seen-set and created records only grown, one new ticket key per processed row, and
   * the list grown by the records created.
   */
  ghost predicate Sweeping(rows: seq<Row>, sweep: nat, clock: (nat, nat) -> Timestamp, seen0: set<string>,
                           created0: seq<KargoData>, ks0: seq<KargoData>, saves0: seq<seq<KargoData>>,
                           r: nat, seen: set<string>, created: seq<KargoData>, processed: nat,
                           ks: seq<KargoData>, saves: seq<seq<KargoData>>)
  {
    && r <= |rows|
    && SweepState(seen, created, processed) == SweepRows(SweepState(seen0, created0, 0), rows, sweep, clock, r)
    && seen0 <= seen && created0 <= created
    && |TicketKeys(seen)| == |TicketKeys(seen0)| + processed
    && CreatedFacts(seen, created) && StoreGrown(ks0, ks, saves0, saves, created)
  }

  /** What holds of the records a harvest has created so far, given its seen-set. */
  ghost predicate CreatedFacts(seen: set<string>, created: seq<KargoData>) {
    && WellKeyed(created)
    && forall j :: 0 <= j < |created| ==>
      && created[j].status == Pending && created[j].estimatedDelivery == NoEstimate
      && created[j].trackingNumber in seen && !IsTicketKey(created[j].trackingNumber)
      && TicketKey(created[j].requestId) in seen
  }

  /** The list grew by adding the created records one by one, and each admitted one was saved. */
  ghost predicate StoreGrown(ks0: seq<KargoData>, ks: seq<KargoData>, saves0: seq<seq<KargoData>>,
                             saves: seq<seq<KargoData>>, created: seq<KargoData>)
  {
    && ks == AddAll(ks0, created)
    && |saves| - |saves0| == |ks| - |ks0|
    && saves0 <= saves
    && (|saves| > |saves0| ==> saves[|saves| - 1] == ks)
  }

  /**
   * One row of a sweep: a created record joins both the created records and, through
   * `AddKargo`, the list.
   */
  lemma HarvestRow(ks0: seq<KargoData>, ks: seq<KargoData>, saves0: seq<seq<KargoData>>, saves: seq<seq<KargoData>>,
                   seen: set<string>, created: seq<KargoData>, row: Row, now: Timestamp)
    requires CreatedFacts(seen, created) && StoreGrown(ks0, ks, saves0, saves, created)
    ensures var o := ProcessRow(seen, row, now);
      if o.record.Some? then
           var ks' := ListWith(ks, o.record);
           && CreatedFacts(o.seen, created + [o.record.value])
           && StoreGrown(ks0, ks', saves0, saves + (if Admits(ks, o.record) then [ks'] else []), created + [o.record.value])
         else
           CreatedFacts(o.seen, created)
  {
    var o := ProcessRow(seen, row, now);
    if o.record.Some? {
      ExtractedNeverTicketKey(row.pageSource);
      AppendCreated(seen, created, o.record.value, o.seen);
      StoreGrowStep(ks0, ks, saves0, saves, created, o.record.value);
    } else {
      CreatedFactsGrow(seen, created, o.seen);
    }
  }

  /** `AddKargo` of one more created record keeps the list and the save log in step with the created records. */
  lemma StoreGrowStep(ks0: seq<KargoData>, ks: seq<KargoData>, saves0: seq<seq<KargoData>>, saves: seq<seq<KargoData>>,
                      created: seq<KargoData>, k: KargoData)
    requires StoreGrown(ks0, ks, saves0, saves, created)
    ensures var ks' := ListWith(ks, Some(k));
      StoreGrown(ks0, ks', saves0, saves + (if Admits(ks, Some(k)) then [ks'] else []), created + [k])
  {
    ListWithSpec(ks, Some(k));
    assert (created + [k])[..|created|] == created;
  }

  /** At the end of the harvest the list holds exactly the old numbers and those created. */
  lemma HarvestDone(ks0: seq<KargoData>, ks: seq<KargoData>, saves0: seq<seq<KargoData>>, saves: seq<seq<KargoData>>,
                    seen: set<string>, created: seq<KargoData>)
    requires CreatedFacts(seen, created) && StoreGrown(ks0, ks, saves0, saves, created)
    ensures TrackingNumbers(ks) == TrackingNumbers(ks0) + TrackingNumbers(created)
    ensures WellKeyed(ks0) ==> WellKeyed(ks)
    ensures ks == AddAll(ks0, created) && |saves| - |saves0| == |ks| - |ks0| && saves0 <= saves
    ensures |saves| > |saves0| ==> saves[|saves| - 1] == ks
  {
    AddAllSpec(ks0, created);
  }

  lemma CreatedFactsGrow(seen: set<string>, created: seq<KargoData>, seen': set<string>)
    requires CreatedFacts(seen, created) && seen <= seen'
    ensures CreatedFacts(seen', created)
  {
  }

  /** A record whose number was not yet seen can join the created records. */
  lemma AppendCreated(seen: set<string>, created: seq<KargoData>, k: KargoData, seen': set<string>)
    requires CreatedFacts(seen, created) && seen <= seen'
    requires k.trackingNumber != "" && k.trackingNumber !in seen && k.trackingNumber in seen'
    requires !IsTicketKey(k.trackingNumber) && TicketKey(k.requestId) in seen'
    requires k.status == Pending && k.estimatedDelivery == NoEstimate
    ensures CreatedFacts(seen', created + [k])
  {
    var c := created + [k];
    forall i, j | 0 <= i < j < |c| ensures c[i].trackingNumber != c[j].trackingNumber {
      if j == |created| {
        assert c[i].trackingNumber in seen;
      }
    }
  }

  /**
   * The sweep accounting of the harvest: the per-sweep counts add up to the processed
   * tickets, the last `noProgress` sweeps processed nothing, and there are at most five
   * sweeps per processed ticket beyond the current run of idle ones.
   */
  ghost predicate Progress(history: seq<nat>, noProgress: nat, count: nat) {
    && noProgress <= MaxNoProgress && noProgress <= |history|
    && (forall s :: |history| - noProgress <= s < |history| ==> history[s] == 0)
    && |history| <= MaxNoProgress * count + noProgress
    && Total(history) == count
    && (noProgress < |history| ==> history[|history| - 1 - noProgress] != 0)
  }

  /** The last five sweeps processed nothing. */
  ghost predicate IdleRun(history: seq<nat>) {
    |history| >= MaxNoProgress && forall s :: |history| - MaxNoProgress <= s < |history| ==> history[s] == 0
  }

  /** After the sweeps of `history` the harvest stops: the counter is reached, or the last five sweeps were idle. */
  ghost predicate Stops(history: seq<nat>, totalItems: int) {
    Total(history) >= totalItems || IdleRun(history)
  }

  /** The harvest did not stop after any proper prefix of `history`. */
  ghost predicate Unstopped(history: seq<nat>, totalItems: int) {
    forall n :: 0 <= n < |history| ==> GoesOnAfter(history, totalItems, n)
  }

  /** The harvest did not stop after the first `n` sweeps of `history`. */
  ghost predicate GoesOnAfter(history: seq<nat>, totalItems: int, n: nat)
    requires n <= |history|
  {
    !Stops(history[..n], totalItems)
  }

  /**
   * When the loop ends, the counter is reached or the last five sweeps were idle, and
   * falling short of the counter means the latter.
   */
  lemma HarvestStops(history: seq<nat>, idle: nat, count: nat, totalItems: int)
    requires Progress(history, idle, count) && (count >= totalItems || idle >= MaxNoProgress)
    ensures Total(history) == count
    ensures count < totalItems ==> IdleRun(history)
    ensures Stops(history, totalItems)
  {
  }

  /** While the counter is not reached and the idle run is shorter than five, the harvest goes on. */
  lemma NotStoppedYet(history: seq<nat>, noProgress: nat, count: nat, totalItems: int)
    requires Progress(history, noProgress, count) && noProgress < MaxNoProgress && count < totalItems
    ensures !Stops(history, totalItems)
  {
    if |history| >= MaxNoProgress {
      var s := |history| - 1 - noProgress;
      assert |history| - MaxNoProgress <= s < |history| && history[s] != 0;
    }
  }

  /**
   * A harvest none of whose sweeps processed a ticket, with something left to count, ends
   * with its fifth sweep: the fifth idle sweep stops it and no earlier one does.
   */
  lemma IdleHarvestLength(history: seq<nat>, totalItems: int)
    requires totalItems > 0 && Stops(history, totalItems) && Unstopped(history, totalItems)
    requires forall s :: 0 <= s < |history| ==> history[s] == 0
    ensures |history| == MaxNoProgress
  {
    TotalIdle(history);
    if |history| > MaxNoProgress {
      IdleStart(history, totalItems);
      assert false;
    }
  }

  /** Five idle sweeps at the start already stop the harvest. */
  lemma IdleStart(history: seq<nat>, totalItems: int)
    requires |history| >= MaxNoProgress && forall s :: 0 <= s < |history| ==> history[s] == 0
    ensures !GoesOnAfter(history, totalItems, MaxNoProgress)
  {
    var first := history[..MaxNoProgress];
    assert forall s :: 0 <= s < |first| ==> first[s] == history[s];
    assert IdleRun(first);
  }

  /** Sweeps that processed nothing add up to nothing. */
  lemma {:induction false} TotalIdle(history: seq<nat>)
    requires forall s :: 0 <= s < |history| ==> history[s] == 0
    ensures Total(history) == 0
  {
    if history != [] {
      var init := history[..|history| - 1];
      assert forall s :: 0 <= s < |init| ==> init[s] == history[s];
      TotalIdle(init);
    }
  }

  /** A sweep taken while the harvest had not stopped keeps every proper prefix unstopped. */
  lemma UnstoppedAppend(history: seq<nat>, totalItems: int, n: nat)
    requires n == |history| && Unstopped(history, totalItems) && !Stops(history, totalItems)
    ensures forall x: nat :: Unstopped(history + [x], totalItems)
  {
    forall x: nat, m | 0 <= m < |history + [x]| ensures GoesOnAfter(history + [x], totalItems, m) {
      if m < n {
        assert (history + [x])[..m] == history[..m];
        assert GoesOnAfter(history, totalItems, m);
      } else {
        assert (history + [x])[..m] == history;
      }
    }
  }

  /**
   * A sweep that processes `processed` tickets while fewer than `totalItems` were known to
   * be done either resets the idle run or extends it, and keeps the number of sweeps
   * within five per item.
   */
  lemma SweepAccount(history: seq<nat>, noProgress: nat, count: nat, processed: nat, totalItems: int)
    requires Progress(history, noProgress, count) && noProgress < MaxNoProgress && count < totalItems
    ensures Progress(history + [processed], if processed == 0 then noProgress + 1 else 0, count + processed)
    ensures |history| + 1 <= MaxNoProgress * totalItems
  {
    TotalAppend(history, processed);
  }

  lemma TotalAppend(history: seq<nat>, x: nat)
    ensures Total(history + [x]) == Total(history) + x
  {
    assert (history + [x])[..|history|] == history;
  }
}
