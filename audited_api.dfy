/**
 * The audit-wrapped CRUD API (src/lib/api/auditedApi.ts). Every wrapper reads
 * the prior row, performs the backend call, and, when the cached audit
 * setting is on, hands one `AuditEntry` to `logAuditChange`. The backend
 * tables are maps from row id to row. The outcome of each backend call is a
 * parameter: `prior` for the pre-fetch of the existing row (`None` when the
 * fetch failed, which it may do even for a stored row; for members it is
 * the `getById` row, which carries the joined `groups` and so need not equal
 * the stored row),
 * and `Done(row)` or `Threw(message)` for the write. `emitted` is the
 * sequence of entries handed to `logAuditChange` (modelled in `AuditLogger`).
 */
module AuditedApi {
  import opened Wrappers
  import opened Types
  import opened Strings
  import opened AuditLogger
  import DevTools

  /** A row returned by an insert or upsert, with the key the table stores it under. */
  datatype Keyed<K> = Keyed(key: K, row: Record)

  datatype ImportResult = ImportResult(success: bool, imported: nat)

  const ManualEntry := ["manual-entry"]
  const AutoSystem := ["auto-system"]
  const EventTypeTags := ["event-type", "manual-entry"]

  /** `type-<id>`, the entity id of an event-type entry. */
  function EventTypeEntityId(id: int): (r: string)
    ensures StartsWith(r, "type-") && r[5..] == IntToString(id)
  {
    "type-" + IntToString(id)
  }

  /** The plural `${entityType}s` used in the bulk-import reason. */
  function PluralName(entityType: EntityType): string
    requires entityType == MemberEntity || entityType == EventEntity
  {
    if entityType == MemberEntity then "members" else "events"
  }

  /** The single entry `auditedBulkImport` emits. */
  function ImportEntry(entityType: EntityType, count: nat, importType: string, now: string): (e: AuditEntry)
    requires entityType == MemberEntity || entityType == EventEntity
    ensures e.action == Import && e.entityId == "bulk-import" && e.before == None
    ensures e.after.Some? && "count" in e.after.value && e.after.value["count"] == JNum(count)
    ensures e.reason == Some("Bulk import of " + NatToString(count) + " " + PluralName(entityType))
  {
    AuditEntry(entityType, "bulk-import", Import, None,
      Some(map["count" := JNum(count), "type" := JStr(importType), "timestamp" := JStr(now)]),
      Some("Bulk import of " + NatToString(count) + " " + PluralName(entityType)), Some(["bulk-import"]))
  }

  class AuditedBackend {
    var members: map<string, Record>
    var events: map<int, Record>
    var eventTypes: map<int, Record>
    /** `auditSettingsCache` */
    var enabled: bool
    var gdprMode: bool
    /** The entries handed to `logAuditChange`, oldest first. */
    var emitted: seq<AuditEntry>

    /** The cache starts with auditing on and GDPR mode off; nothing is logged yet. */
    constructor (members: map<string, Record>, events: map<int, Record>, eventTypes: map<int, Record>)
      ensures this.members == members && this.events == events && this.eventTypes == eventTypes
      ensures enabled && !gdprMode && emitted == []
    {
      this.members := members;
      this.events := events;
      this.eventTypes := eventTypes;
      enabled := true;
      gdprMode := false;
      emitted := [];
    }

    /** The `devTools.subscribe` callback: the cache follows the dev settings. */
    method SyncSettings(state: DevTools.DevState)
      modifies this
      ensures enabled == state.auditTrailEnabled && gdprMode == state.gdprModeEnabled
      ensures members == old(members) && events == old(events) && eventTypes == old(eventTypes) && emitted == old(emitted)
    {
      enabled := state.auditTrailEnabled;
      gdprMode := state.gdprModeEnabled;
    }

    /** Hand one entry to `logAuditChange`. */
    method Log(entry: AuditEntry)
      modifies this
      ensures emitted == old(emitted) + [entry]
      ensures members == old(members) && events == old(events) && eventTypes == old(eventTypes)
      ensures enabled == old(enabled) && gdprMode == old(gdprMode)
    {
      emitted := emitted + [entry];
    }

    /**
     * `auditedMembersApi.upsert`. `prior` is what the `getById` lookup
     * returned: `None` when it threw (a missing member, an undefined
     * `member_id`, or any other backend error), which makes the entry a
     * create without a before state; otherwise an update from that row,
     * as `getById` returned it (with the joined `groups`).
     */
    method MembersUpsert(memberId: Option<string>, prior: Option<Record>, response: Response<Keyed<string>>)
      returns (result: Response<Keyed<string>>)
      requires prior.Some? ==> memberId.Some? && memberId.value in members
      modifies this
      ensures result == response
      ensures events == old(events) && eventTypes == old(eventTypes) && enabled == old(enabled) && gdprMode == old(gdprMode)
      ensures response.Threw? ==> members == old(members) && emitted == old(emitted)
      ensures response.Done? ==> members == old(members)[response.value.key := response.value.row]
      ensures response.Done? && enabled && prior.None? ==>
        emitted == old(emitted) + [AuditEntry(MemberEntity, response.value.key, Create, None,
                                              Some(response.value.row), None, Some(ManualEntry))]
      ensures response.Done? && enabled && prior.Some? ==>
        emitted == old(emitted) + [AuditEntry(MemberEntity, response.value.key, Update, prior,
                                              Some(response.value.row), None, Some(ManualEntry))]
      ensures !enabled ==> emitted == old(emitted)
    {
      var isCreate := prior.None?;
      result := response;
      if response.Threw? {
        return;
      }
      var saved := response.value;
      members := members[saved.key := saved.row];
      if enabled {
        Log(AuditEntry(MemberEntity, saved.key, if isCreate then Create else Update, prior, Some(saved.row), None, Some(ManualEntry)));
      }
    }

    /**
     * `auditedMembersApi.delete`. `prior` is the result of the `getById`
     * lookup (`None` when it threw); the delete entry is logged even without
     * a before state. `failure` is the error of the delete itself.
     */
    method MembersDelete(memberId: string, prior: Option<Record>, failure: Option<string>) returns (result: Response<bool>)
      requires prior.Some? ==> memberId in members
      modifies this
      ensures failure.Some? ==> result == Threw(failure.value) && members == old(members) && emitted == old(emitted)
      ensures failure.None? ==> result == Done(true) && members == old(members) - {memberId}
      ensures failure.None? && enabled ==>
        emitted == old(emitted) + [AuditEntry(MemberEntity, memberId, Delete, prior, None, None, Some(ManualEntry))]
      ensures !enabled ==> emitted == old(emitted)
      ensures events == old(events) && eventTypes == old(eventTypes) && enabled == old(enabled) && gdprMode == old(gdprMode)
    {
      if failure.Some? {
        return Threw(failure.value);
      }
      members := members - {memberId};
      if enabled {
        Log(AuditEntry(MemberEntity, memberId, Delete, prior, None, None, Some(ManualEntry)));
        // GDPR mode is read here but has no effect.
      }
      result := Done(true);
    }

    /** `auditedEventsApi.createEvent`: a create entry keyed by the new event id. */
    method CreateEvent(response: Response<Keyed<int>>) returns (result: Response<Keyed<int>>)
      modifies this
      ensures result == response
      ensures response.Threw? ==> events == old(events) && emitted == old(emitted)
      ensures response.Done? ==> events == old(events)[response.value.key := response.value.row]
      ensures response.Done? && enabled ==>
        emitted == old(emitted) + [AuditEntry(EventEntity, IntToString(response.value.key), Create, None,
                                              Some(response.value.row), None, Some(AutoSystem))]
      ensures !enabled ==> emitted == old(emitted)
      ensures members == old(members) && eventTypes == old(eventTypes) && enabled == old(enabled) && gdprMode == old(gdprMode)
    {
      result := response;
      if response.Threw? {
        return;
      }
      events := events[response.value.key := response.value.row];
      if enabled {
        Log(AuditEntry(EventEntity, IntToString(response.value.key), Create, None, Some(response.value.row), None, Some(AutoSystem)));
      }
    }

    /**
     * `auditedEventsApi.updateEventStatus`. `prior` is the `data` of the
     * `.single()` pre-fetch, `None` when it came back with an error; the
     * change is logged only when it holds a row, with the reason naming the
     * new status. The update itself answers with a row only for an
     * existing event (`.single()` on no row is an error, which throws).
     */
    method UpdateEventStatus(eventId: int, newStatus: string, prior: Option<Record>, response: Response<Record>)
      returns (result: Response<Record>)
      requires prior.Some? ==> eventId in events && events[eventId] == prior.value
      requires response.Done? ==> eventId in events
      modifies this
      ensures result == response
      ensures response.Threw? ==> events == old(events) && emitted == old(emitted)
      ensures response.Done? ==> events == old(events)[eventId := response.value] && |events| == |old(events)|
      ensures response.Done? && enabled && prior.Some? ==>
        emitted == old(emitted) + [AuditEntry(EventEntity, IntToString(eventId), Update, Some(old(events)[eventId]),
                                              Some(response.value), Some("Status changed to " + newStatus), Some(AutoSystem))]
      ensures !enabled || prior.None? ==> emitted == old(emitted)
      ensures members == old(members) && eventTypes == old(eventTypes) && enabled == old(enabled) && gdprMode == old(gdprMode)
    {
      result := response;
      if response.Threw? {
        return;
      }
      events := events[eventId := response.value];
      if enabled && prior.Some? {
        Log(AuditEntry(EventEntity, IntToString(eventId), Update, prior, Some(response.value),
                       Some("Status changed to " + newStatus), Some(AutoSystem)));
      }
    }

    /**
     * `auditedEventsApi.deleteEvent`. `prior` is the pre-fetched row (`None`
     * when the fetch failed); the delete is logged only when there was one.
     */
    method DeleteEvent(eventId: int, prior: Option<Record>, response: Response<Json>) returns (result: Response<Json>)
      requires prior.Some? ==> eventId in events && events[eventId] == prior.value
      modifies this
      ensures result == response
      ensures response.Threw? ==> events == old(events) && emitted == old(emitted)
      ensures response.Done? ==> events == old(events) - {eventId}
      ensures response.Done? && enabled && prior.Some? ==>
        emitted == old(emitted) + [AuditEntry(EventEntity, IntToString(eventId), Delete, Some(old(events)[eventId]),
                                              None, None, Some(ManualEntry))]
      ensures !enabled || prior.None? ==> emitted == old(emitted)
      ensures members == old(members) && eventTypes == old(eventTypes) && enabled == old(enabled) && gdprMode == old(gdprMode)
    {
      result := response;
      if response.Threw? {
        return;
      }
      events := events - {eventId};
      if enabled && prior.Some? {
        Log(AuditEntry(EventEntity, IntToString(eventId), Delete, prior, None, None, Some(ManualEntry)));
      }
    }

    /**
     * `auditedEventsApi.updateEvent`: logged only when the pre-fetch
     * returned the existing row; the update answers with a row only for an
     * existing event.
     */
    method UpdateEvent(eventId: int, prior: Option<Record>, response: Response<Record>) returns (result: Response<Record>)
      requires prior.Some? ==> eventId in events && events[eventId] == prior.value
      requires response.Done? ==> eventId in events
      modifies this
      ensures result == response
      ensures response.Threw? ==> events == old(events) && emitted == old(emitted)
      ensures response.Done? ==> events == old(events)[eventId := response.value] && |events| == |old(events)|
      ensures response.Done? && enabled && prior.Some? ==>
        emitted == old(emitted) + [AuditEntry(EventEntity, IntToString(eventId), Update, Some(old(events)[eventId]),
                                              Some(response.value), None, Some(ManualEntry))]
      ensures !enabled || prior.None? ==> emitted == old(emitted)
      ensures members == old(members) && eventTypes == old(eventTypes) && enabled == old(enabled) && gdprMode == old(gdprMode)
    {
      result := response;
      if response.Threw? {
        return;
      }
      events := events[eventId := response.value];
      if enabled && prior.Some? {
        Log(AuditEntry(EventEntity, IntToString(eventId), Update, prior, Some(response.value), None, Some(ManualEntry)));
      }
    }

    /** `auditedEventTypesApi.create`: an event entry with id `type-<id>`. */
    method EventTypesCreate(response: Response<Keyed<int>>) returns (result: Response<Keyed<int>>)
      modifies this
      ensures result == response
      ensures response.Threw? ==> eventTypes == old(eventTypes) && emitted == old(emitted)
      ensures response.Done? ==> eventTypes == old(eventTypes)[response.value.key := response.value.row]
      ensures response.Done? && enabled ==>
        emitted == old(emitted) + [AuditEntry(EventEntity, EventTypeEntityId(response.value.key), Create, None,
                                              Some(response.value.row), None, Some(EventTypeTags))]
      ensures !enabled ==> emitted == old(emitted)
      ensures members == old(members) && events == old(events) && enabled == old(enabled) && gdprMode == old(gdprMode)
    {
      result := response;
      if response.Threw? {
        return;
      }
      eventTypes := eventTypes[response.value.key := response.value.row];
      if enabled {
        Log(AuditEntry(EventEntity, EventTypeEntityId(response.value.key), Create, None, Some(response.value.row), None, Some(EventTypeTags)));
      }
    }

    /**
     * `auditedEventTypesApi.update`: logged only when the pre-fetch returned
     * the existing row; the update answers with a row only for an existing
     * type.
     */
    method EventTypesUpdate(id: int, prior: Option<Record>, response: Response<Record>) returns (result: Response<Record>)
      requires prior.Some? ==> id in eventTypes && eventTypes[id] == prior.value
      requires response.Done? ==> id in eventTypes
      modifies this
      ensures result == response
      ensures response.Threw? ==> eventTypes == old(eventTypes) && emitted == old(emitted)
      ensures response.Done? ==> eventTypes == old(eventTypes)[id := response.value] && |eventTypes| == |old(eventTypes)|
      ensures response.Done? && enabled && prior.Some? ==>
        emitted == old(emitted) + [AuditEntry(EventEntity, EventTypeEntityId(id), Update, Some(old(eventTypes)[id]),
                                              Some(response.value), None, Some(EventTypeTags))]
      ensures !enabled || prior.None? ==> emitted == old(emitted)
      ensures members == old(members) && events == old(events) && enabled == old(enabled) && gdprMode == old(gdprMode)
    {
      result := response;
      if response.Threw? {
        return;
      }
      eventTypes := eventTypes[id := response.value];
      if enabled && prior.Some? {
        Log(AuditEntry(EventEntity, EventTypeEntityId(id), Update, prior, Some(response.value), None, Some(EventTypeTags)));
      }
    }

    /**
     * `auditedEventTypesApi.delete`: `true` whenever the backend delete does
     * not throw; logged only when the pre-fetch returned the row.
     */
    method EventTypesDelete(id: int, prior: Option<Record>, failure: Option<string>) returns (result: Response<bool>)
      requires prior.Some? ==> id in eventTypes && eventTypes[id] == prior.value
      modifies this
      ensures failure.Some? ==> result == Threw(failure.value) && eventTypes == old(eventTypes) && emitted == old(emitted)
      ensures failure.None? ==> result == Done(true) && eventTypes == old(eventTypes) - {id}
      ensures failure.None? && enabled && prior.Some? ==>
        emitted == old(emitted) + [AuditEntry(EventEntity, EventTypeEntityId(id), Delete, Some(old(eventTypes)[id]),
                                              None, None, Some(EventTypeTags))]
      ensures !enabled || prior.None? ==> emitted == old(emitted)
      ensures members == old(members) && events == old(events) && enabled == old(enabled) && gdprMode == old(gdprMode)
    {
      if failure.Some? {
        return Threw(failure.value);
      }
      eventTypes := eventTypes - {id};
      if enabled && prior.Some? {
        Log(AuditEntry(EventEntity, EventTypeEntityId(id), Delete, prior, None, None, Some(EventTypeTags)));
      }
      result := Done(true);
    }

    /** `auditedBulkImport`: one import entry; the result counts the items whether or not auditing is on. */
    method BulkImport(entityType: EntityType, items: seq<Record>, importType: string, now: string) returns (result: ImportResult)
      requires entityType == MemberEntity || entityType == EventEntity
      modifies this
      ensures result == ImportResult(true, |items|)
      ensures emitted == old(emitted) + (if enabled then [ImportEntry(entityType, |items|, importType, now)] else [])
      ensures members == old(members) && events == old(events) && eventTypes == old(eventTypes)
      ensures enabled == old(enabled) && gdprMode == old(gdprMode)
    {
      if enabled {
        Log(ImportEntry(entityType, |items|, importType, now));
      }
      result := ImportResult(true, |items|);
    }
  }

  /**
   * The member update entry pairs the `getById` row, which carries the
   * joined `groups`, with the row `upsert` returns, which does not; so its
   * change set always reports `groups`, even for an update that changes
   * nothing else.
   */
  lemma JoinedGroupsAlwaysChange(before: Record, after: Record, ser: Json -> string)
    requires GroupsKey in before && GroupsKey !in after
    ensures var d := Diff(Some(before), Some(after), Update, ser);
      d.Some? && GroupsKey in d.value && d.value[GroupsKey] == Change(Some(before[GroupsKey]), None)
  {
    DiffOfUpdate(before, after, Update, ser, GroupsKey);
  }

  /** The key under which `getById` returns the member's joined groups. */
  const GroupsKey := "groups"
}
