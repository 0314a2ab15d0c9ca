/**
 * The `KargoData` record and the list operations behind the store methods of
 * `KargoService`: insert-if-absent, update of the first match, removal of the first match.
 */
module Records {
  import opened Wrappers

  /** `DateTime` values are opaque here: callers pass the clock reading in. */
  type Timestamp = int

  const Pending := "Beklemede"
  const Delivered := "Teslim Edildi"
  const NoEstimate := "-"

  datatype KargoData = KargoData(
    trackingNumber: string,
    storeId: string,
    requestId: string,
    requestSubject: string,
    status: string,
    estimatedDelivery: string,
    lastUpdated: Timestamp)

  /** A new record with the property defaults: status "Beklemede", estimated delivery "-". */
  function NewKargo(trackingNumber: string, storeId: string, requestId: string, requestSubject: string, now: Timestamp): (k: KargoData)
    ensures k.status == Pending && k.estimatedDelivery == NoEstimate
  {
    KargoData(trackingNumber, storeId, requestId, requestSubject, Pending, NoEstimate, now)
  }

  /** Every tracking number is non-empty and no two records share one. */
  ghost predicate WellKeyed(ks: seq<KargoData>) {
    && (forall i :: 0 <= i < |ks| ==> ks[i].trackingNumber != "")
    && (forall i, j :: 0 <= i < j < |ks| ==> ks[i].trackingNumber != ks[j].trackingNumber)
  }

  ghost function TrackingNumbers(ks: seq<KargoData>): set<string> {
    set i | 0 <= i < |ks| :: ks[i].trackingNumber
  }

  /** `FirstOrDefault(k => k.TrackingNumber == trackingNumber)`, as an index. */
  function FirstIndexOf(ks: seq<KargoData>, trackingNumber: string): (r: Option<nat>)
    ensures r.Some? ==> r.value < |ks| && ks[r.value].trackingNumber == trackingNumber
    ensures r.Some? ==> forall j :: 0 <= j < r.value ==> ks[j].trackingNumber != trackingNumber
    ensures r.None? <==> forall j :: 0 <= j < |ks| ==> ks[j].trackingNumber != trackingNumber
  {
    if ks == [] then None
    else if ks[0].trackingNumber == trackingNumber then Some(0)
    else match FirstIndexOf(ks[1..], trackingNumber)
      case None => None
      case Some(i) => Some(i + 1)
  }

  /** `AddKargo` accepts a record: it is present, has a tracking number, and that number is new. */
  predicate Admits(ks: seq<KargoData>, kargo: Option<KargoData>) {
    kargo.Some? && kargo.value.trackingNumber != "" && FirstIndexOf(ks, kargo.value.trackingNumber).None?
  }

  /** The list after `AddKargo(kargo)`: the old list, followed by at most the given record. */
  function ListWith(ks: seq<KargoData>, kargo: Option<KargoData>): (r: seq<KargoData>)
    ensures ks <= r && |r| <= |ks| + 1
    ensures |r| > |ks| ==> kargo.Some? && r[|ks|] == kargo.value
  {
    if Admits(ks, kargo) then ks + [kargo.value] else ks
  }

  /**
   * The list after `UpdateKargoStatus(trackingNumber, status)` at time `now`: record for
   * record the same tracking numbers.
   */
  function ListWithStatus(ks: seq<KargoData>, trackingNumber: string, status: string, now: Timestamp): (r: seq<KargoData>)
    ensures |r| == |ks|
    ensures forall i :: 0 <= i < |ks| ==> r[i].trackingNumber == ks[i].trackingNumber
  {
    if trackingNumber == "" then ks
    else match FirstIndexOf(ks, trackingNumber)
      case None => ks
      case Some(i) => ks[i := ks[i].(status := status, lastUpdated := now)]
  }

  /** The list after `DeleteKargo(trackingNumber)`: at most one record shorter, and unchanged when not shorter. */
  function ListWithout(ks: seq<KargoData>, trackingNumber: string): (r: seq<KargoData>)
    ensures |ks| - 1 <= |r| <= |ks|
    ensures |r| == |ks| ==> r == ks
  {
    if trackingNumber == "" then ks
    else match FirstIndexOf(ks, trackingNumber)
      case None => ks
      case Some(i) => ks[..i] + ks[i + 1..]
  }

  /** The list after `AddKargo` of each of `cs` in turn: the old list, followed by at most those records. */
  function AddAll(ks: seq<KargoData>, cs: seq<KargoData>): (r: seq<KargoData>)
    ensures ks <= r && |r| <= |ks| + |cs|
    decreases |cs|
  {
    if cs == [] then ks else ListWith(AddAll(ks, cs[..|cs| - 1]), Some(cs[|cs| - 1]))
  }

  /**
   * A null record, an empty tracking number or one already in the list leaves the list as
   * it is; any other record is appended at the end. Well-keyedness is preserved.
   */
  lemma ListWithSpec(ks: seq<KargoData>, kargo: Option<KargoData>)
    ensures Admits(ks, kargo) <==>
      kargo.Some? && kargo.value.trackingNumber != "" && kargo.value.trackingNumber !in TrackingNumbers(ks)
    ensures Admits(ks, kargo) ==> ListWith(ks, kargo) == ks + [kargo.value]
    ensures !Admits(ks, kargo) ==> ListWith(ks, kargo) == ks
    ensures WellKeyed(ks) ==> WellKeyed(ListWith(ks, kargo))
    ensures TrackingNumbers(ListWith(ks, kargo)) ==
      TrackingNumbers(ks) + (if Admits(ks, kargo) then {kargo.value.trackingNumber} else {})
  {
    if kargo.Some? {
      var tn := kargo.value.trackingNumber;
      if tn in TrackingNumbers(ks) {
        var i :| 0 <= i < |ks| && ks[i].trackingNumber == tn;
      }
    }
    var r := ListWith(ks, kargo);
    if Admits(ks, kargo) {
      assert forall i :: 0 <= i < |ks| ==> r[i] == ks[i];
      assert TrackingNumbers(r) == TrackingNumbers(ks) + {kargo.value.trackingNumber} by {
        forall x | x in TrackingNumbers(r) ensures x in TrackingNumbers(ks) + {kargo.value.trackingNumber} {
          var i :| 0 <= i < |r| && r[i].trackingNumber == x;
        }
        assert r[|ks|].trackingNumber == kargo.value.trackingNumber;
      }
    }
  }

  /**
   * Only the first record with the tracking number gets the new status and timestamp;
   * every other record is unchanged, in place. In a well-keyed list that record is the only
   * one with that number, and the list stays well-keyed with the same tracking numbers.
   */
  lemma ListWithStatusSpec(ks: seq<KargoData>, trackingNumber: string, status: string, now: Timestamp)
    ensures var r := ListWithStatus(ks, trackingNumber, status, now);
      && (trackingNumber == "" || trackingNumber !in TrackingNumbers(ks) ==> r == ks)
      && (forall i :: 0 <= i < |ks| && ks[i].trackingNumber != trackingNumber ==> r[i] == ks[i])
      && (forall i :: 0 <= i < |ks| && r[i] != ks[i] ==>
            FirstIndexOf(ks, trackingNumber) == Some(i) && r[i] == ks[i].(status := status, lastUpdated := now))
      && (trackingNumber != "" && FirstIndexOf(ks, trackingNumber).Some? ==>
            var f := FirstIndexOf(ks, trackingNumber).value;
            f < |ks| && r[f] == ks[f].(status := status, lastUpdated := now))
      && (WellKeyed(ks) ==> WellKeyed(r) && TrackingNumbers(r) == TrackingNumbers(ks))
      && (WellKeyed(ks) && trackingNumber != "" ==> forall i :: 0 <= i < |ks| && ks[i].trackingNumber == trackingNumber ==>
            r[i] == ks[i].(status := status, lastUpdated := now))
  {
    var r := ListWithStatus(ks, trackingNumber, status, now);
    if trackingNumber != "" && trackingNumber in TrackingNumbers(ks) {
      var w :| 0 <= w < |ks| && ks[w].trackingNumber == trackingNumber;
    }
    SameKeys(ks, r);
  }

  /** Two lists record for record with the same tracking numbers: same set, same well-keyedness. */
  lemma SameKeys(a: seq<KargoData>, b: seq<KargoData>)
    requires |a| == |b| && forall i :: 0 <= i < |a| ==> a[i].trackingNumber == b[i].trackingNumber
    ensures WellKeyed(a) <==> WellKeyed(b)
    ensures TrackingNumbers(a) == TrackingNumbers(b)
  {
    forall x | x in TrackingNumbers(a) ensures x in TrackingNumbers(b) {
      var i :| 0 <= i < |a| && a[i].trackingNumber == x;
      assert b[i].trackingNumber == x;
    }
    forall x | x in TrackingNumbers(b) ensures x in TrackingNumbers(a) {
      var i :| 0 <= i < |b| && b[i].trackingNumber == x;
      assert a[i].trackingNumber == x;
    }
  }

  /**
   * Only the first record with the tracking number is removed; the others keep their order.
   * In a well-keyed list the number is then gone and the list stays well-keyed.
   */
  lemma ListWithoutSpec(ks: seq<KargoData>, trackingNumber: string)
    ensures var r := ListWithout(ks, trackingNumber);
      && (trackingNumber == "" || trackingNumber !in TrackingNumbers(ks) ==> r == ks)
      && (trackingNumber != "" && trackingNumber in TrackingNumbers(ks) ==>
            exists i :: 0 <= i < |ks| && ks[i].trackingNumber == trackingNumber
              && (forall j :: 0 <= j < i ==> ks[j].trackingNumber != trackingNumber)
              && r == ks[..i] + ks[i + 1..])
      && (WellKeyed(ks) ==> WellKeyed(r) && TrackingNumbers(r) == TrackingNumbers(ks) - {trackingNumber})
  {
    if trackingNumber != "" && trackingNumber in TrackingNumbers(ks) {
      var w :| 0 <= w < |ks| && ks[w].trackingNumber == trackingNumber;
      var i := FirstIndexOf(ks, trackingNumber).value;
      RemoveAtSpec(ks, i);
    }
  }

  /** Removing the record at `i` from a well-keyed list removes exactly its tracking number. */
  lemma RemoveAtSpec(ks: seq<KargoData>, i: nat)
    requires i < |ks|
    ensures var r := ks[..i] + ks[i + 1..];
      WellKeyed(ks) ==> WellKeyed(r) && TrackingNumbers(r) == TrackingNumbers(ks) - {ks[i].trackingNumber}
  {
    var r := ks[..i] + ks[i + 1..];
    assert forall j :: 0 <= j < |r| ==> r[j] == if j < i then ks[j] else ks[j + 1];
    if WellKeyed(ks) {
      forall a, b | 0 <= a < b < |r| ensures r[a].trackingNumber != r[b].trackingNumber {
        var a' := if a < i then a else a + 1;
        var b' := if b < i then b else b + 1;
        assert r[a] == ks[a'] && r[b] == ks[b'];
      }
      RemoveAtNumbers(ks, i, r);
    }
  }

  /** The numbers left after removing the record at `i` from a well-keyed list. */
  lemma RemoveAtNumbers(ks: seq<KargoData>, i: nat, r: seq<KargoData>)
    requires i < |ks| && WellKeyed(ks) && r == ks[..i] + ks[i + 1..]
    requires forall j :: 0 <= j < |r| ==> r[j] == if j < i then ks[j] else ks[j + 1]
    ensures TrackingNumbers(r) == TrackingNumbers(ks) - {ks[i].trackingNumber}
  {
    forall x | x in TrackingNumbers(r) ensures x in TrackingNumbers(ks) - {ks[i].trackingNumber} {
      var j :| 0 <= j < |r| && r[j].trackingNumber == x;
      var j' := if j < i then j else j + 1;
      assert r[j] == ks[j'];
    }
    forall x | x in TrackingNumbers(ks) - {ks[i].trackingNumber} ensures x in TrackingNumbers(r) {
      var j :| 0 <= j < |ks| && ks[j].trackingNumber == x;
      var j' := if j < i then j else j - 1;
      assert r[j'] == ks[j];
    }
  }

  /**
   * Adding a sequence of records one by one keeps the old list as a prefix and adds exactly
   * the tracking numbers of those records; well-keyedness is preserved.
   */
  lemma {:induction false} AddAllSpec(ks: seq<KargoData>, cs: seq<KargoData>)
    requires forall i :: 0 <= i < |cs| ==> cs[i].trackingNumber != ""
    ensures TrackingNumbers(AddAll(ks, cs)) == TrackingNumbers(ks) + TrackingNumbers(cs)
    ensures WellKeyed(ks) ==> WellKeyed(AddAll(ks, cs))
    decreases |cs|
  {
    if cs != [] {
      var init := cs[..|cs| - 1];
      var last := cs[|cs| - 1];
      AddAllSpec(ks, init);
      var before := AddAll(ks, init);
      ListWithSpec(before, Some(last));
      assert TrackingNumbers(cs) == TrackingNumbers(init) + {last.trackingNumber} by {
        forall x | x in TrackingNumbers(cs) ensures x in TrackingNumbers(init) + {last.trackingNumber} {
          var i :| 0 <= i < |cs| && cs[i].trackingNumber == x;
          if i < |cs| - 1 { assert init[i] == cs[i]; }
        }
        forall x | x in TrackingNumbers(init) ensures x in TrackingNumbers(cs) {
          var i :| 0 <= i < |init| && init[i].trackingNumber == x;
          assert cs[i] == init[i];
        }
      }
      if !Admits(before, Some(last)) {
        assert last.trackingNumber in TrackingNumbers(before);
      }
    } else {
      assert TrackingNumbers(cs) == {};
    }
  }
}
