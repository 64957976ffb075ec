/** What a mailbox is to those who use it: a slot for one value. */
module OneSlot {
  import opened Common

  /** What a step does to the slot: nothing, fill it, or empty it. */
  datatype Event<T> = Idle | Put(value: T) | Take(value: T)

  /** A slot is filled only when it is empty, and gives up what it was filled with. */
  predicate SlotStep<T(==)>(before: Option<T>, event: Event<T>, after: Option<T>) {
    match event
    case Idle => after == before
    case Put(v) => before == None && after == Some(v)
    case Take(v) => before == Some(v) && after == None
  }
}
