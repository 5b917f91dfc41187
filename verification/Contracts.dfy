/** Values shared by the platform's components. */
module Contracts {

  datatype Option<+T> = None | Some(value: T)

  /** A dynamically typed field: the cases the modelled code distinguishes, and everything else. */
  datatype Value =
    | Str(text: string)
    | Bool(flag: bool)
    | Stringer(text: string)
    | Obj(fields: map<string, Value>)
    | Other(code: int)

  type Fields = map<string, Value>

  datatype Event = Event(
    id: string, name: string, source: string, traceId: string, schemaVersion: int, data: Fields)

  /** Publishing refuses an event with incomplete metadata. */
  predicate ValidMetadata(e: Event) {
    e.name != "" && e.source != "" && e.id != "" && e.traceId != "" && e.schemaVersion != 0
  }
}
