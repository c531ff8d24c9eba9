/**
 * The GDPR grace-period workflow (src/lib/utils/gdprCompliance.ts). A member
 * is marked with a request time and a recovery deadline thirty days later,
 * may be recovered before then, and may be deleted for good once the
 * deadline has passed, at which point the audit records that name the
 * member are flagged as anonymised. Instants are milliseconds since the
 * epoch; each backend error is a parameter (`Some(message)` when the call
 * fails).
 */
module Gdpr {
  import opened Wrappers
  import opened AuditLogger
  import Ordering

  /** One second, minute, hour and day in milliseconds. */
  const DayMs: int := 24 * 60 * 60 * 1000
  /** The grace period: 30 days. */
  const GracePeriodMs: int := 30 * DayMs

  /** A `members` row with the three deletion columns. */
  datatype MemberRow = MemberRow(
    id: string,
    name: string,
    deletionRequestedAt: Option<int>,
    deletionReason: Option<string>,
    canBePermanentlyDeleted: Option<int>)

  predicate IsMarked(m: MemberRow) {
    m.deletionRequestedAt.Some?
  }

  /** `update(...).eq('id', memberId)`: every row with that id is changed, the others are kept. */
  function UpdateWhere(rows: seq<MemberRow>, id: string, f: MemberRow -> MemberRow): (r: seq<MemberRow>)
    ensures |r| == |rows|
    ensures forall i :: 0 <= i < |rows| ==> r[i] == if rows[i].id == id then f(rows[i]) else rows[i]
  {
    seq(|rows|, i requires 0 <= i < |rows| => if rows[i].id == id then f(rows[i]) else rows[i])
  }

  /** `delete().eq('id', memberId)`: the rows with another id, in order. */
  function DeleteWhere(rows: seq<MemberRow>, id: string): (r: seq<MemberRow>)
    ensures forall m :: m in r <==> m in rows && m.id != id
    ensures |r| <= |rows|
  {
    if rows == [] then []
    else (if rows[0].id == id then [] else [rows[0]]) + DeleteWhere(rows[1..], id)
  }

  /** The rows with that id. */
  function RowsWithId(rows: seq<MemberRow>, id: string): (r: seq<MemberRow>)
    ensures forall m :: m in r <==> m in rows && m.id == id
  {
    if rows == [] then []
    else (if rows[0].id == id then [rows[0]] else []) + RowsWithId(rows[1..], id)
  }

  /** `.single()`: the row when exactly one matches, otherwise no data. */
  function SingleRow(rows: seq<MemberRow>, id: string): (r: Option<MemberRow>)
    ensures r.Some? ==> r.value in rows && r.value.id == id
    ensures r.None? ==> |RowsWithId(rows, id)| != 1
  {
    var found := RowsWithId(rows, id);
    if |found| == 1 then Some(found[0]) else None
  }

  function Mark(m: MemberRow, now: int, reason: string): MemberRow {
    m.(deletionRequestedAt := Some(now), deletionReason := Some(reason), canBePermanentlyDeleted := Some(now + GracePeriodMs))
  }

  function Unmark(m: MemberRow): MemberRow {
    m.(deletionRequestedAt := None, deletionReason := None, canBePermanentlyDeleted := None)
  }

  /** The audit records of that member get `is_anonymized = true`; the others are kept. */
  function AnonymiseMember(logs: seq<AuditLogRecord>, memberId: string): (r: seq<AuditLogRecord>)
    ensures |r| == |logs|
    ensures forall i :: 0 <= i < |logs| ==>
      r[i] == if logs[i].entityType == MemberEntity && logs[i].entityId == memberId
              then logs[i].(isAnonymized := true) else logs[i]
  {
    seq(|logs|, i requires 0 <= i < |logs| =>
      if logs[i].entityType == MemberEntity && logs[i].entityId == memberId then logs[i].(isAnonymized := true) else logs[i])
  }

  /** `Math.ceil(d / divisor)` on integers, via floor division of the negation. */
  function CeilDiv(d: int, divisor: int): (q: int)
    requires divisor > 0
    ensures (q - 1) * divisor < d <= q * divisor
  {
    -((-d) / divisor)
  }

  /** An entry of `getPendingDeletions`. */
  datatype PendingDeletion = PendingDeletion(member: MemberRow, daysUntilPermanentDelete: int, canPermanentlyDelete: bool)

  function Pending(m: MemberRow, now: int): (p: PendingDeletion)
    ensures p.member == m
    ensures p.canPermanentlyDelete <==> m.canBePermanentlyDeleted.Some? && now >= m.canBePermanentlyDeleted.value
    ensures m.canBePermanentlyDeleted.None? ==> p.daysUntilPermanentDelete == 0
    ensures m.canBePermanentlyDeleted.Some? ==>
      var d := m.canBePermanentlyDeleted.value - now;
      (p.daysUntilPermanentDelete - 1) * DayMs < d <= p.daysUntilPermanentDelete * DayMs
  {
    match m.canBePermanentlyDeleted
    case None => PendingDeletion(m, 0, false)
    case Some(deadline) => PendingDeletion(m, CeilDiv(deadline - now, DayMs), now >= deadline)
  }

  function MarkedRows(rows: seq<MemberRow>): (r: seq<MemberRow>)
    ensures forall m :: m in r <==> m in rows && IsMarked(m)
  {
    if rows == [] then []
    else (if IsMarked(rows[0]) then [rows[0]] else []) + MarkedRows(rows[1..])
  }

  function RequestedAt(m: MemberRow): int {
    m.deletionRequestedAt.GetOr(0)
  }

  /** The rows the pending-deletions query returns: marked members, oldest request first. */
  function PendingRows(rows: seq<MemberRow>): seq<MemberRow> {
    Ordering.SortBy(MarkedRows(rows), RequestedAt)
  }

  /** `getPendingDeletions`: an empty list when the query fails. */
  function PendingDeletions(rows: seq<MemberRow>, now: int, queryFailed: bool): (r: seq<PendingDeletion>)
    ensures queryFailed ==> r == []
    ensures !queryFailed ==> |r| == |PendingRows(rows)|
    ensures !queryFailed ==> forall i :: 0 <= i < |r| ==> r[i] == Pending(PendingRows(rows)[i], now)
  {
    if queryFailed then []
    else
      var sorted := PendingRows(rows);
      seq(|sorted|, i requires 0 <= i < |sorted| => Pending(sorted[i], now))
  }

  /** The pending list holds exactly the marked members, in ascending order of request time. */
  lemma PendingDeletionsListsMarked(rows: seq<MemberRow>, now: int)
    ensures var r := PendingDeletions(rows, now, false);
      (forall i :: 0 <= i < |r| ==> r[i].member in rows && IsMarked(r[i].member)) &&
      (forall m :: m in rows && IsMarked(m) ==> exists i :: 0 <= i < |r| && r[i].member == m) &&
      (forall i, j :: 0 <= i < j < |r| ==> RequestedAt(r[i].member) <= RequestedAt(r[j].member))
  {
    var sorted := PendingRows(rows);
    var r := PendingDeletions(rows, now, false);
    Ordering.SortBySorted(MarkedRows(rows), RequestedAt);
    forall i | 0 <= i < |r|
      ensures r[i].member in rows && IsMarked(r[i].member)
    {
      Ordering.SortByMembers(MarkedRows(rows), RequestedAt, sorted[i]);
    }
    forall m | m in rows && IsMarked(m)
      ensures exists i :: 0 <= i < |r| && r[i].member == m
    {
      Ordering.SortByMembers(MarkedRows(rows), RequestedAt, m);
      var i :| 0 <= i < |sorted| && sorted[i] == m;
      assert r[i].member == m;
    }
  }

  /** The `archiveOldAuditLogs` statistics row. */
  datatype ArchiveRow = ArchiveRow(archivedCount: Option<int>, remainingCount: Option<int>)
  datatype ArchiveStats = ArchiveStats(archived: int, remaining: int)

  /** `x || 0` on a count: absent and zero both give zero. */
  function CountOrZero(x: Option<int>): int {
    x.GetOr(0)
  }

  /** `archiveOldAuditLogs` result defaulting: the first row's counts, zero when absent, (0, 0) on an error. */
  function ArchiveResult(response: Response<seq<ArchiveRow>>): (r: ArchiveStats)
    ensures response.Threw? || response.value == [] ==> r == ArchiveStats(0, 0)
    ensures response.Done? && response.value != [] && response.value[0].archivedCount.Some? ==>
      r.archived == response.value[0].archivedCount.value
    ensures response.Done? && response.value != [] && response.value[0].remainingCount.Some? ==>
      r.remaining == response.value[0].remainingCount.value
    ensures response.Done? && response.value != [] && response.value[0].archivedCount.None? ==> r.archived == 0
    ensures response.Done? && response.value != [] && response.value[0].remainingCount.None? ==> r.remaining == 0
  {
    match response
    case Threw(_) => ArchiveStats(0, 0)
    case Done(rows) =>
      if rows == [] then ArchiveStats(0, 0)
      else ArchiveStats(CountOrZero(rows[0].archivedCount), CountOrZero(rows[0].remainingCount))
  }

  class GdprStore {
    var members: seq<MemberRow>
    var auditLogs: seq<AuditLogRecord>

    constructor (members: seq<MemberRow>, auditLogs: seq<AuditLogRecord>)
      ensures this.members == members && this.auditLogs == auditLogs
    {
      this.members := members;
      this.auditLogs := auditLogs;
    }

    /**
     * `markMemberForDeletion`: request time now, deadline thirty days later,
     * reason defaulting to "User requested". A missing member changes no row
     * and still reports success.
     */
    method MarkMemberForDeletion(memberId: string, reason: Option<string>, now: int, updateError: Option<string>)
      returns (ok: bool)
      modifies this
      ensures ok <==> updateError.None?
      ensures auditLogs == old(auditLogs)
      ensures !ok ==> members == old(members)
      ensures ok ==> members == UpdateWhere(old(members), memberId, m => Mark(m, now, reason.GetOr("User requested")))
    {
      if updateError.Some? {
        return false;
      }
      var why := reason.GetOr("User requested");
      members := UpdateWhere(members, memberId, m => Mark(m, now, why));
      return true;
    }

    /** `recoverMarkedMember`: the three deletion columns go back to null. */
    method RecoverMarkedMember(memberId: string, updateError: Option<string>) returns (ok: bool)
      modifies this
      ensures ok <==> updateError.None?
      ensures auditLogs == old(auditLogs)
      ensures !ok ==> members == old(members)
      ensures ok ==> members == UpdateWhere(old(members), memberId, Unmark)
    {
      if updateError.Some? {
        return false;
      }
      members := UpdateWhere(members, memberId, Unmark);
      return true;
    }

    /**
     * `permanentlyDeleteMember`: refused (false, nothing deleted) when the
     * pre-fetch of the member fails (`fetchFailed`: the select's error is
     * dropped and `member` reads as null) or unless the member is found and
     * marked and the deadline has passed; a failure to anonymise the audit
     * records does not change the result.
     */
    method PermanentlyDeleteMember(memberId: string, now: int, fetchFailed: bool, deleteError: Option<string>,
                                   anonymiseError: Option<string>)
      returns (ok: bool)
      modifies this
      ensures var found := SingleRow(old(members), memberId);
        ok <==> !fetchFailed && found.Some? && found.value.canBePermanentlyDeleted.Some?
                && now >= found.value.canBePermanentlyDeleted.value && deleteError.None?
      ensures !ok ==> members == old(members) && auditLogs == old(auditLogs)
      ensures ok ==> members == DeleteWhere(old(members), memberId)
      ensures ok ==> auditLogs == if anonymiseError.None? then AnonymiseMember(old(auditLogs), memberId) else old(auditLogs)
    {
      var member := if fetchFailed then None else SingleRow(members, memberId);
      if member.None? || member.value.canBePermanentlyDeleted.None? {
        return false;
      }
      var deadline := member.value.canBePermanentlyDeleted.value;
      if now < deadline {
        return false;
      }
      if deleteError.Some? {
        return false;
      }
      members := DeleteWhere(members, memberId);
      if anonymiseError.None? {
        auditLogs := AnonymiseMember(auditLogs, memberId);
      }
      return true;
    }
  }

  /** Marking a member then reading it back gives the deadline thirty days after the request. */
  lemma MarkSetsDeadline(rows: seq<MemberRow>, memberId: string, now: int, reason: Option<string>, i: nat)
    requires i < |rows| && rows[i].id == memberId
    ensures var r := UpdateWhere(rows, memberId, m => Mark(m, now, reason.GetOr("User requested")))[i];
      r.deletionRequestedAt == Some(now) && r.canBePermanentlyDeleted == Some(now + 2592000000)
      && r.deletionReason == Some(if reason.None? then "User requested" else reason.value)
      && r.id == rows[i].id && r.name == rows[i].name
  {
  }

  /** Recovering undoes marking: the member is as it was before it was ever marked. */
  lemma RecoverUndoesMark(rows: seq<MemberRow>, memberId: string, now: int, reason: string)
    requires forall i :: 0 <= i < |rows| && rows[i].id == memberId ==> !IsMarked(rows[i]) && rows[i].deletionReason.None? && rows[i].canBePermanentlyDeleted.None?
    ensures UpdateWhere(UpdateWhere(rows, memberId, m => Mark(m, now, reason)), memberId, Unmark) == rows
  {
    var marked := UpdateWhere(rows, memberId, m => Mark(m, now, reason));
    var back := UpdateWhere(marked, memberId, Unmark);
    assert forall i :: 0 <= i < |rows| ==> back[i] == rows[i];
  }

  /** Right after marking, the member cannot be deleted: the grace period has not run. */
  lemma MarkedMemberNotYetDeletable(rows: seq<MemberRow>, memberId: string, now: int, later: int, reason: string)
    requires now <= later < now + GracePeriodMs
    ensures var found := SingleRow(UpdateWhere(rows, memberId, m => Mark(m, now, reason)), memberId);
      found.Some? ==> found.value.canBePermanentlyDeleted.Some? && later < found.value.canBePermanentlyDeleted.value
  {
    var marked := UpdateWhere(rows, memberId, m => Mark(m, now, reason));
    var found := SingleRow(marked, memberId);
    if found.Some? {
      var k :| 0 <= k < |marked| && marked[k] == found.value;
    }
  }

  /** Anonymising touches only the flag of that member's records: every record keeps its content otherwise. */
  lemma AnonymiseKeepsHistory(logs: seq<AuditLogRecord>, memberId: string)
    ensures var r := AnonymiseMember(logs, memberId);
      (forall i :: 0 <= i < |logs| ==> r[i].(isAnonymized := logs[i].isAnonymized) == logs[i])
      && (forall i :: 0 <= i < |logs| && logs[i].entityType == MemberEntity && logs[i].entityId == memberId ==> r[i].isAnonymized)
  {
  }

  /** The day count is positive while the deadline is ahead and deletion is allowed from it on. */
  lemma PendingCountdown(m: MemberRow, now: int)
    requires m.canBePermanentlyDeleted.Some?
    ensures now < m.canBePermanentlyDeleted.value ==> Pending(m, now).daysUntilPermanentDelete >= 1 && !Pending(m, now).canPermanentlyDelete
    ensures now >= m.canBePermanentlyDeleted.value ==> Pending(m, now).daysUntilPermanentDelete <= 0 && Pending(m, now).canPermanentlyDelete
  {
  }
}
