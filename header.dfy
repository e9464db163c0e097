/**
 * The forum title editor of src/components/ForumHeader.tsx: a two-field state machine
 * (`isEditing`, `editValue`) whose save hands a new name to the page.
 */
module Header {
  import opened Wrappers
  import opened Text

  /** The name `handleSave` passes to `onNameChange`, if it passes one. */
  function SaveResult(editValue: string): (r: Option<string>)
    ensures r.None? <==> AllSpace(editValue)
    ensures r.Some? ==> r.value == Trim(editValue) && r.value != []
  {
    TrimEmptyIff(editValue);
    if Trim(editValue) != [] then Some(Trim(editValue)) else None
  }

  /** A saved name is already trimmed: saving it again would not change it. */
  lemma SavedNameIsTrimmed(editValue: string)
    ensures SaveResult(editValue).Some? ==> Trim(SaveResult(editValue).value) == SaveResult(editValue).value
  {
    TrimIdempotent(editValue);
  }

  /** The pencil button is rendered only for an admin and only while the title is not being edited. */
  predicate EditEntryShown(isAdmin: bool, isEditing: bool)
  {
    isAdmin && !isEditing
  }

  class Editor {
    var isEditing: bool
    var editValue: string

    /** `useState(false)` and `useState(forumName)`. */
    constructor (forumName: string)
      ensures !isEditing && editValue == forumName
    {
      isEditing := false;
      editValue := forumName;
    }

    /** The pencil button: copy the current name into the input and open it. */
    method StartEdit(forumName: string)
      modifies this
      ensures isEditing && editValue == forumName
    {
      editValue := forumName;
      isEditing := true;
    }

    /**
     * Pressing the pencil where the header renders it: only an admin sees the button, and
     * only while the title is not being edited, so in every other state nothing changes.
     */
    method PressPencil(isAdmin: bool, forumName: string)
      modifies this
      ensures EditEntryShown(isAdmin, old(isEditing)) ==> isEditing && editValue == forumName
      ensures !EditEntryShown(isAdmin, old(isEditing)) ==> isEditing == old(isEditing) && editValue == old(editValue)
    {
      if EditEntryShown(isAdmin, isEditing) {
        StartEdit(forumName);
      }
    }

    /** The input's `onChange`. */
    method SetEditValue(v: string)
      modifies this
      ensures editValue == v && isEditing == old(isEditing)
    {
      editValue := v;
    }

    /** `handleSave`: hand over the trimmed value when it is not empty, and close the editor either way. */
    method Save() returns (rename: Option<string>)
      modifies this
      ensures rename == SaveResult(old(editValue))
      ensures !isEditing && editValue == old(editValue)
    {
      var trimmed := Trim(editValue);
      if trimmed != [] {
        rename := Some(trimmed);
      } else {
        rename := None;
      }
      isEditing := false;
    }

    /** The cancel button: close the editor and hand over nothing. */
    method Cancel()
      modifies this
      ensures !isEditing && editValue == old(editValue)
    {
      isEditing := false;
    }
  }
}
