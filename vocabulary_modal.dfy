/**
 * `store/useVocabularyModalStore.ts`: whether the add-to-list modal is open,
 * for which expression, and the callback to run on a list action.  The
 * callback is opaque; it is modelled by an identifier.
 */
module VocabularyModal {
  import opened Common

  class ModalStore {
    var isOpen: bool
    var expressionId: Option<string>
    var onListAction: Option<nat>

    constructor ()
      ensures !isOpen && expressionId == None && onListAction == None
    {
      isOpen := false;
      expressionId := None;
      onListAction := None;
    }

    /** Opens for an expression (possibly none), keeping the callback. */
    method OpenModal(id: Option<string>)
      modifies this
      ensures isOpen && expressionId == id
      ensures onListAction == old(onListAction)
    {
      isOpen := true;
      expressionId := id;
    }

    method CloseModal()
      modifies this
      ensures !isOpen && expressionId == None && onListAction == None
    {
      isOpen := false;
      expressionId := None;
      onListAction := None;
    }

    method SetOnListAction(callback: Option<nat>)
      modifies this
      ensures onListAction == callback
      ensures isOpen == old(isOpen) && expressionId == old(expressionId)
    {
      onListAction := callback;
    }
  }
}
