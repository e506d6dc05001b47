/** The task control block. Its one pair of links serves the ready rings and the wait lists alike. */
module TaskControl {
  const STATUS_OK := 0

  datatype TaskState = Ready | Running | Blocked | Suspended | Terminated

  class Tcb {
    var priority: nat
    var state: TaskState
    var next: Tcb?
    var prev: Tcb?
    var waitObj: object?
    var waitResult: int

    constructor (priority: nat)
      ensures this.priority == priority && state == Suspended && next == null && prev == null && waitObj == null
    {
      this.priority := priority;
      state := Suspended;
      next, prev, waitObj, waitResult := null, null, null, STATUS_OK;
    }
  }
}
