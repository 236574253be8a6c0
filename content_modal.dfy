/**
 * The content editor dialog (`ContentModal.tsx`): it holds the selected type
 * and the three text fields, is reloaded whenever it opens or the edited
 * content changes, and on a valid confirm hands the content and its
 * position to its parent and asks to be closed. `freshId` stands for
 * `generateContentId()`.
 */
module ContentModal {
  import opened Wrappers
  import opened Text
  import opened ContentRules
  import CreatePage

  /** What one confirm does: the `onConfirm` call it makes (content and position), and whether it calls `onClose`. */
  datatype ConfirmEffect = ConfirmEffect(emitted: Option<(Content, Option<nat>)>, closes: bool)

  class ContentModalState {
    var selectedContentType: Option<ContentType>
    var contentFormData: Fields

    constructor ()
      ensures selectedContentType.None? && contentFormData == EmptyFields
    {
      selectedContentType := None;
      contentFormData := EmptyFields;
    }

    /** The effect on opening or on a new `editingContent`: load it, or reset. */
    method Sync(editingContent: Option<Content>)
      modifies this
      ensures editingContent.Some? ==> selectedContentType == Some(editingContent.value.kind)
                                       && contentFormData == editingContent.value.fields
      ensures editingContent.None? ==> selectedContentType.None? && contentFormData == EmptyFields
    {
      if editingContent.Some? {
        selectedContentType := Some(editingContent.value.kind);
        contentFormData := editingContent.value.fields;
      } else {
        selectedContentType := None;
        contentFormData := EmptyFields;
      }
    }

    /** `handleContentTypeSelect`: the same presets as the page. */
    method SelectType(t: ContentType)
      modifies this
      ensures selectedContentType == Some(t) && contentFormData == Preset(t)
    {
      selectedContentType := Some(t);
      if t == TextImage || t == ImageText {
        contentFormData := Fields("", "", "no");
      } else {
        contentFormData := Fields("no", "no", "");
      }
    }

    /**
     * `handleConfirm`: without a type nothing happens; an invalid form calls
     * neither `onConfirm` nor `onClose`; a valid one calls `onConfirm` with
     * the content (the edited id kept when non-empty, the fresh one
     * otherwise) and the position, then `onClose`.
     */
    method Confirm(editingContent: Option<Content>, position: Option<nat>, freshId: string)
      returns (effect: ConfirmEffect)
      ensures effect.closes <==> effect.emitted.Some?
      ensures effect.emitted.Some? <==> selectedContentType.Some? && IsValid(selectedContentType.value, contentFormData)
      ensures effect.emitted.Some? ==>
                var (c, p) := effect.emitted.value;
                && p == position && c.kind == selectedContentType.value && c.fields == contentFormData
                && c.id == (if editingContent.Some? && editingContent.value.id != "" then editingContent.value.id
                            else freshId)
    ensures effect.emitted.Some? ==>
              effect.emitted.value == (BuildContent(editingContent, freshId, selectedContentType.value, contentFormData), position)
    {
      if selectedContentType.None? {
        return ConfirmEffect(None, false);
      }
      var t := selectedContentType.value;
      var isValid := false;
      if t == TextImage || t == ImageText {
        isValid := Trim(contentFormData.left) != "" && Trim(contentFormData.right) != "";
      } else {
        isValid := Trim(contentFormData.center) != "";
      }
      if !isValid {
        return ConfirmEffect(None, false);
      }
      var newContent := BuildContent(editingContent, freshId, t, contentFormData);
      return ConfirmEffect(Some((newContent, position)), true);
    }
  }

  /**
   * The dialog and the page agree: take any effect the dialog's `Confirm`
   * can produce from the page's type, fields, edited content and position.
   * When it emits nothing, the page's own confirm changes nothing; when it
   * emits a content and a position, placing that content there is exactly
   * the list the page's confirm produces, and both end with the dialog closed.
   */
  lemma ModalAgreesWithPage(s: CreatePage.PageState, freshId: string, effect: ConfirmEffect)
    requires effect.closes <==> effect.emitted.Some?
    requires effect.emitted.Some? <==> s.selectedContentType.Some? && IsValid(s.selectedContentType.value, s.contentFormData)
    requires effect.emitted.Some? ==>
               effect.emitted.value
               == (BuildContent(s.editingContent, freshId, s.selectedContentType.value, s.contentFormData), s.contentModalPosition)
    ensures effect.emitted.None? ==> CreatePage.Confirmed(s, freshId) == s
    ensures effect.emitted.Some? ==>
              var (c, p) := effect.emitted.value;
              CreatePage.Confirmed(s, freshId)
              == CreatePage.ModalClosed(s.(contents := PlaceContent(s.contents, s.editingContent, p, c)))
    ensures effect.closes ==> !CreatePage.Confirmed(s, freshId).showContentModal
  {
  }
}
