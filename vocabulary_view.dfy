/**
 * `hooks/user/useVocabularyView.ts`: the vocabulary page's selection mode,
 * view mode and selected ids.
 */
module VocabularyView {
  import opened Common
  import opened JsSet

  datatype ViewMode = Compact | Full

  class View {
    var isSelectionMode: bool
    var viewMode: ViewMode
    var selectedIds: seq<string>

    predicate Valid()
      reads this
    {
      NoDuplicates(selectedIds)
    }

    constructor ()
      ensures Valid()
      ensures !isSelectionMode && viewMode == Full && selectedIds == []
    {
      isSelectionMode := false;
      viewMode := Full;
      selectedIds := [];
    }

    /** Entering selection mode changes nothing else; leaving it clears the
      * selection and resets the view to full. */
    method ToggleSelectionMode()
      requires Valid()
      modifies this
      ensures Valid()
      ensures isSelectionMode == !old(isSelectionMode)
      ensures old(isSelectionMode) ==> selectedIds == [] && viewMode == Full
      ensures !old(isSelectionMode) ==> selectedIds == old(selectedIds) && viewMode == old(viewMode)
    {
      if isSelectionMode {
        selectedIds := [];
        viewMode := Full;
      }
      isSelectionMode := !isSelectionMode;
    }

    /** Flips the membership of exactly one id in a copy of the selection. */
    method ToggleItem(id: string)
      requires Valid()
      modifies this
      ensures Valid()
      ensures selectedIds == Toggle(old(selectedIds), id)
      ensures id in selectedIds <==> id !in old(selectedIds)
      ensures forall v :: v != id ==> (v in selectedIds <==> v in old(selectedIds))
      ensures isSelectionMode == old(isSelectionMode) && viewMode == old(viewMode)
    {
      var next := selectedIds;
      ToggleFlips(next, id);
      if id in next {
        next := Delete(next, id);
      } else {
        next := Add(next, id);
      }
      selectedIds := next;
    }

    method SetViewMode(mode: ViewMode)
      modifies this
      ensures viewMode == mode
      ensures isSelectionMode == old(isSelectionMode) && selectedIds == old(selectedIds)
    {
      viewMode := mode;
    }
  }
}
