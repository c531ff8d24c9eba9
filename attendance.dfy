/**
 * The attendance API of src/lib/api/attendance.ts: the duplicate-scan
 * guard of `scanMember` over the `attendance_scans` (pending) and
 * `attendance_present` (archived) tables, and the status filters of the
 * event queries. Backend errors, the generated scan id and the clock are
 * parameters.
 */
module Attendance {
  import opened Wrappers
  import opened Types
  import Ordering

  datatype Scan = Scan(scanId: string, memberId: string, eventId: int, scanDatetime: string)

  datatype Present = Present(presentId: int, scanId: Option<string>, memberId: string, eventId: int, scanDatetime: string)

  /** The `{ success, message }` object `scanMember` returns. */
  datatype ScanResult = ScanResult(success: bool, message: string)

  const AlreadyScanned := "Already scanned (pending processing)."
  const AlreadyPresent := "Already marked as present."
  const ScanSuccessful := "Scan successful!"

  /** The error `maybeSingle()` reports when more than one row matches. */
  const MultipleRows := "JSON object requested, multiple (or no) rows returned"

  /** The member and event a pending scan is for. */
  function ScanKey(s: Scan): (string, int) {
    (s.memberId, s.eventId)
  }

  /** The member and event a present row is for. */
  function PresentKey(p: Present): (string, int) {
    (p.memberId, p.eventId)
  }

  /**
   * The number of rows of a table for that member and event: the rows the
   * `.eq('member_id', …).eq('event_id', …)` filter selects.
   */
  function MatchCount<T>(key: T -> (string, int), rows: seq<T>, memberId: string, eventId: int): (n: nat)
    ensures n <= |rows|
    ensures n == 0 <==> forall i :: 0 <= i < |rows| ==> key(rows[i]) != (memberId, eventId)
  {
    if rows == [] then 0
    else (if key(rows[0]) == (memberId, eventId) then 1 else 0) + MatchCount(key, rows[1..], memberId, eventId)
  }

  /** An appended row raises the count for its own member and event only. */
  lemma {:induction false} MatchCountAppend<T>(key: T -> (string, int), rows: seq<T>, r: T, memberId: string, eventId: int)
    ensures MatchCount(key, rows + [r], memberId, eventId)
      == MatchCount(key, rows, memberId, eventId) + if key(r) == (memberId, eventId) then 1 else 0
    decreases |rows|
  {
    if rows == [] {
      assert [] + [r] == [r];
    } else {
      assert (rows + [r])[1..] == rows[1..] + [r];
      MatchCountAppend(key, rows[1..], r, memberId, eventId);
    }
  }

  /** What `.maybeSingle()` makes of a lookup: an error, no row, or the row. */
  datatype Lookup = LookupFailed(error: string) | NoRow | OneRow

  function MaybeSingle(matching: nat, error: Option<string>): (l: Lookup)
    ensures l == NoRow <==> error.None? && matching == 0
    ensures l == OneRow <==> error.None? && matching == 1
  {
    if error.Some? then LookupFailed(error.value)
    else if matching == 0 then NoRow
    else if matching == 1 then OneRow
    else LookupFailed(MultipleRows)
  }

  /**
   * `scanMember` as a function of the two tables: its result and the new
   * `attendance_scans` table. `scanError`, `presentError`, `insertError`:
   * the three backend calls report an error, which `scanMember` throws.
   */
  function ScanSpec(scans: seq<Scan>, present: seq<Present>, memberId: string, eventId: int,
                    scanId: string, now: string,
                    scanError: Option<string>, presentError: Option<string>, insertError: Option<string>)
    : (Response<ScanResult>, seq<Scan>)
  {
    match MaybeSingle(MatchCount(ScanKey, scans, memberId, eventId), scanError)
    case LookupFailed(e) => (Threw(e), scans)
    case OneRow => (Done(ScanResult(false, AlreadyScanned)), scans)
    case NoRow =>
      match MaybeSingle(MatchCount(PresentKey, present, memberId, eventId), presentError)
      case LookupFailed(e) => (Threw(e), scans)
      case OneRow => (Done(ScanResult(false, AlreadyPresent)), scans)
      case NoRow =>
        if insertError.Some? then (Threw(insertError.value), scans)
        else (Done(ScanResult(true, ScanSuccessful)), scans + [Scan(scanId, memberId, eventId, now)])
  }

  /**
   * A scan succeeds iff no backend call fails and the member has neither a
   * pending scan nor a present row for the event; it then adds exactly one
   * row for that member and event. Any other outcome leaves the table alone.
   */
  lemma ScanSucceedsOnlyWhenFresh(scans: seq<Scan>, present: seq<Present>, memberId: string, eventId: int,
                                  scanId: string, now: string,
                                  scanError: Option<string>, presentError: Option<string>, insertError: Option<string>)
    ensures var (r, after) := ScanSpec(scans, present, memberId, eventId, scanId, now, scanError, presentError, insertError);
      ((r.Done? && r.value.success) <==>
         (scanError.None? && presentError.None? && insertError.None?
          && MatchCount(ScanKey, scans, memberId, eventId) == 0 && MatchCount(PresentKey, present, memberId, eventId) == 0))
      && (r.Done? && r.value.success ==> after == scans + [Scan(scanId, memberId, eventId, now)])
      && (!(r.Done? && r.value.success) ==> after == scans)
  {
  }

  /**
   * The pending-scan check runs first: a member with a pending scan gets
   * the pending message whatever the present table holds.
   */
  lemma PendingCheckedFirst(scans: seq<Scan>, present: seq<Present>, memberId: string, eventId: int,
                            scanId: string, now: string,
                            presentError: Option<string>, insertError: Option<string>)
    requires MatchCount(ScanKey, scans, memberId, eventId) == 1
    ensures ScanSpec(scans, present, memberId, eventId, scanId, now, None, presentError, insertError)
            == (Done(ScanResult(false, AlreadyScanned)), scans)
  {
  }

  /**
   * The duplicate-scan guard: after a successful scan, scanning the same
   * member into the same event again is refused as already scanned, and
   * inserts nothing.
   */
  lemma {:induction false} SecondScanRefused(scans: seq<Scan>, present: seq<Present>, memberId: string, eventId: int,
                                             scanId: string, now: string, insertError: Option<string>,
                                             scanId2: string, now2: string, presentError2: Option<string>, insertError2: Option<string>)
    requires ScanSpec(scans, present, memberId, eventId, scanId, now, None, None, insertError).0
             == Done(ScanResult(true, ScanSuccessful))
    ensures var after := ScanSpec(scans, present, memberId, eventId, scanId, now, None, None, insertError).1;
      ScanSpec(after, present, memberId, eventId, scanId2, now2, None, presentError2, insertError2)
      == (Done(ScanResult(false, AlreadyScanned)), after)
  {
    MatchCountAppend(ScanKey, scans, Scan(scanId, memberId, eventId, now), memberId, eventId);
  }

  /** Scanning never gives a member a second pending scan for the same event. */
  lemma {:induction false} AtMostOnePending(scans: seq<Scan>, present: seq<Present>, memberId: string, eventId: int,
                                            scanId: string, now: string,
                                            scanError: Option<string>, presentError: Option<string>, insertError: Option<string>,
                                            m: string, e: int)
    requires MatchCount(ScanKey, scans, m, e) <= 1
    ensures MatchCount(ScanKey, ScanSpec(scans, present, memberId, eventId, scanId, now, scanError, presentError, insertError).1, m, e) <= 1
  {
    var after := ScanSpec(scans, present, memberId, eventId, scanId, now, scanError, presentError, insertError).1;
    if after != scans {
      MatchCountAppend(ScanKey, scans, Scan(scanId, memberId, eventId, now), m, e);
    }
  }

  /** The `attendance_scans` and `attendance_present` tables. */
  class AttendanceTables {
    var scans: seq<Scan>
    var present: seq<Present>

    constructor (scans: seq<Scan>, present: seq<Present>)
      ensures this.scans == scans && this.present == present
    {
      this.scans := scans;
      this.present := present;
    }

    /** `scanMember`: `scanId` is the `crypto.randomUUID()` value and `now` the scan timestamp. */
    method ScanMember(memberId: string, eventId: int, scanId: string, now: string,
                      scanError: Option<string>, presentError: Option<string>, insertError: Option<string>)
      returns (r: Response<ScanResult>)
      modifies this
      ensures present == old(present)
      ensures (r, scans) == ScanSpec(old(scans), present, memberId, eventId, scanId, now, scanError, presentError, insertError)
    {
      var existingScan := MaybeSingle(MatchCount(ScanKey, scans, memberId, eventId), scanError);
      if existingScan.LookupFailed? {
        return Threw(existingScan.error);
      }
      if existingScan == OneRow {
        return Done(ScanResult(false, AlreadyScanned));
      }
      var existingPresent := MaybeSingle(MatchCount(PresentKey, present, memberId, eventId), presentError);
      if existingPresent.LookupFailed? {
        return Threw(existingPresent.error);
      }
      if existingPresent == OneRow {
        return Done(ScanResult(false, AlreadyPresent));
      }
      if insertError.Some? {
        return Threw(insertError.value);
      }
      scans := scans + [Scan(scanId, memberId, eventId, now)];
      return Done(ScanResult(true, ScanSuccessful));
    }
  }

  // ---------------------------------------------------------------------------
  // Event queries
  // ---------------------------------------------------------------------------

  function WithStatus(rows: seq<AttendanceEvent>, s: EventStatus): (r: seq<AttendanceEvent>)
    ensures forall e :: e in r <==> e in rows && e.status == s
    ensures multiset(r) <= multiset(rows)
  {
    if rows == [] then []
    else
      assert rows == [rows[0]] + rows[1..];
      (if rows[0].status == s then [rows[0]] else []) + WithStatus(rows[1..], s)
  }

  /** `getOngoingEvents`: the ongoing rows; a query error is thrown. */
  function GetOngoingEvents(rows: seq<AttendanceEvent>, error: Option<string>): (r: Response<seq<AttendanceEvent>>)
    ensures error.Some? <==> r.Threw?
    ensures r.Done? ==> forall e :: e in r.value <==> e in rows && e.status == Ongoing
  {
    if error.Some? then Threw(error.value) else Done(WithStatus(rows, Ongoing))
  }

  function ByStart(e: AttendanceEvent): int {
    e.start
  }

  /** `getUpcomingEvents`: the upcoming rows ordered by start, ascending; a query error is thrown. */
  function GetUpcomingEvents(rows: seq<AttendanceEvent>, error: Option<string>): (r: Response<seq<AttendanceEvent>>)
    ensures error.Some? <==> r.Threw?
  {
    if error.Some? then Threw(error.value) else Done(Ordering.SortBy(WithStatus(rows, Upcoming), ByStart))
  }

  /** The upcoming list holds exactly the upcoming rows, each as often as stored, in ascending start order. */
  lemma UpcomingSortedByStart(rows: seq<AttendanceEvent>)
    ensures var r := GetUpcomingEvents(rows, None).value;
      Ordering.SortedBy(r, ByStart)
      && multiset(r) == multiset(WithStatus(rows, Upcoming))
      && forall e :: e in r <==> e in rows && e.status == Upcoming
  {
    var r := GetUpcomingEvents(rows, None).value;
    Ordering.SortBySorted(WithStatus(rows, Upcoming), ByStart);
    forall e
      ensures e in r <==> e in rows && e.status == Upcoming
    {
      Ordering.SortByMembers(WithStatus(rows, Upcoming), ByStart, e);
    }
  }
}
