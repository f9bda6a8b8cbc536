/**
 * `hooks/user/useBulkAction.ts`: which bulk action dialog (copy or move) is
 * open, held as one nullable state field.
 */
module BulkAction {
  import opened Common

  datatype BulkActionType = Copy | Move

  datatype BulkActionState = BulkActionState(kind: BulkActionType, isOpen: bool)

  class BulkAction {
    var bulkAction: Option<BulkActionState>

    constructor ()
      ensures bulkAction == None
    {
      bulkAction := None;
    }

    /** The exposed `isOpen`: a state exists and is open. */
    function IsOpen(): (r: bool)
      reads this
      ensures r <==> bulkAction.Some? && bulkAction.value.isOpen
    {
      bulkAction.Some? && bulkAction.value.isOpen
    }

    /** The exposed `type`, undefined without a state. */
    function Kind(): (r: Option<BulkActionType>)
      reads this
      ensures r.Some? <==> bulkAction.Some?
    {
      if bulkAction.Some? then Some(bulkAction.value.kind) else None
    }

    /** `openCopy` and `openMove`. */
    method Open(kind: BulkActionType)
      modifies this
      ensures bulkAction == Some(BulkActionState(kind, true))
      ensures IsOpen() && Kind() == Some(kind)
    {
      bulkAction := Some(BulkActionState(kind, true));
    }

    method Close()
      modifies this
      ensures bulkAction == None
      ensures !IsOpen() && Kind() == None
    {
      bulkAction := None;
    }

    /** `onOpenChange`: closing resets the state; opening keeps the current
      * type and leaves a missing state missing. */
    method SetOpen(isOpen: bool)
      modifies this
      ensures !isOpen ==> bulkAction == None
      ensures isOpen && old(bulkAction).None? ==> bulkAction == None
      ensures isOpen && old(bulkAction).Some? ==> bulkAction == Some(old(bulkAction).value.(isOpen := true))
      ensures isOpen ==> Kind() == old(Kind())
    {
      if !isOpen {
        bulkAction := None;
      } else if bulkAction.Some? {
        bulkAction := Some(bulkAction.value.(isOpen := true));
      }
    }
  }
}
