/**
 * What a script run can observe and change outside itself: the single
 * store slot that carries the pending destination across page loads, and
 * the browser actions it performs. Every call is appended to one ordered
 * log, so contracts can speak about order and count.
 */
module Browser {
  import opened Common

  /** One observable call made by a script. */
  datatype Action =
    | StoreSet(value: string)  // gmSet(STORAGE_KEY, value)
    | StoreGet                 // gmGet(STORAGE_KEY, null)
    | StoreDelete              // gmDelete(STORAGE_KEY)
    | Replace(url: string)     // location.replace(url)
    | Assign(url: string)      // location.href = url
    | Sleep(ms: int)           // await a timer of ms milliseconds
    | Click(button: nat)       // performClick on the button with this id (best effort, never throws)

  /** Outcome of `gmGet(key, null)`: a rejected promise, or the stored value (`null` when absent). */
  datatype ReadResult = ReadFailed | Read(value: Option<string>)

  /**
   * The host environment of one page load. Whether each store operation
   * succeeds is fixed for the run (the backend is available or it is not).
   */
  class Host {
    const setWorks: bool
    const getWorks: bool
    const deleteWorks: bool
    var slot: Option<string>
    var log: seq<Action>

    constructor (initial: Option<string>, setWorks: bool, getWorks: bool, deleteWorks: bool)
      ensures slot == initial && log == []
      ensures this.setWorks == setWorks && this.getWorks == getWorks && this.deleteWorks == deleteWorks
    {
      this.setWorks := setWorks;
      this.getWorks := getWorks;
      this.deleteWorks := deleteWorks;
      slot := initial;
      log := [];
    }

    /** The result a read would give in the current state. */
    function Peek(): ReadResult
      reads this
    {
      if getWorks then Read(slot) else ReadFailed
    }

    /** Overwrites the slot when the backend accepts the write. */
    method Set(value: string) returns (ok: bool)
      modifies this
      ensures ok == setWorks
      ensures slot == (if ok then Some(value) else old(slot))
      ensures log == old(log) + [StoreSet(value)]
    {
      ok := setWorks;
      if ok {
        slot := Some(value);
      }
      log := log + [StoreSet(value)];
    }

    method Get() returns (r: ReadResult)
      modifies this
      ensures r == old(Peek())
      ensures slot == old(slot)
      ensures log == old(log) + [StoreGet]
    {
      r := Peek();
      log := log + [StoreGet];
    }

    /** Clears the slot when the backend accepts the delete. */
    method Delete() returns (ok: bool)
      modifies this
      ensures ok == deleteWorks
      ensures slot == (if ok then None else old(slot))
      ensures log == old(log) + [StoreDelete]
    {
      ok := deleteWorks;
      if ok {
        slot := None;
      }
      log := log + [StoreDelete];
    }

    /** Appends a store-free browser action (navigation, timer, click). */
    method Perform(a: Action)
      requires !a.StoreSet? && !a.StoreGet? && !a.StoreDelete?
      modifies this
      ensures slot == old(slot)
      ensures log == old(log) + [a]
    {
      log := log + [a];
    }
  }
}
