/** Values shared by the stores, the event bus and the clients. */
module Resources {

  datatype Option<+T> = None | Some(value: T)

  // A resource version as clients pass it around: unset, the decimal form of a store's
  // counter, or any other text.
  datatype Version = Unset | Seq(n: nat) | Foreign(text: string)

  // What the stores and the event bus read and write of an object; spec is everything else in it.
  datatype Resource = Resource(
    kind: string, namespace: string, name: string, version: Version, created: nat, spec: string, status: string)

  datatype EventType = Added | Modified | Deleted | Bookmark | Error

  datatype Event = Event(kind: EventType, obj: Resource)
}
