/**
 * The row types of the application (src/lib/types.ts) that the modelled
 * code reads or writes. Timestamps that the code compares are kept as
 * milliseconds since the epoch; the parsing of ISO strings is not modelled.
 */
module Types {
  import opened Wrappers

  /** The `Json` union: numbers are integers in this model. */
  datatype Json =
    | JNull
    | JBool(b: bool)
    | JNum(n: int)
    | JStr(s: string)
    | JArray(items: seq<Json>)
    | JObject(fields: map<string, Json>)

  /** A `Record<string, unknown>` as produced by `JSON.parse(JSON.stringify(row))`. */
  type Record = map<string, Json>

  datatype EventStatus = Upcoming | Ongoing | Completed

  /** `AttendanceEvent`, with its start and end instants in milliseconds. */
  datatype AttendanceEvent = AttendanceEvent(
    eventId: int,
    eventTypeId: Option<int>,
    eventName: string,
    eventDate: string,
    start: int,
    end: int,
    status: EventStatus,
    isCustom: bool,
    description: Option<string>,
    metadata: Json)

  /** `EventType`: a weekly template for events. */
  datatype EventType = EventType(
    eventTypeId: int,
    name: string,
    dayOfWeek: int,
    startTime: string,
    endTime: string,
    isActive: bool)
}
