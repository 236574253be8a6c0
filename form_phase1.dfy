/**
 * The first step of the article form as a component (`ArticleFormPhase1.tsx`).
 * It keeps no state of its own: its handlers send partial updates of the
 * form data to the parent, and its Next button advances through `onNext`.
 */
module FormPhase1 {
  import opened Wrappers
  import opened Text
  import TagRules
  import CreatePage

  /** A partial update of the form data: the tag list and, when given, the tag input. */
  datatype TagPatch = TagPatch(tagsArray: seq<string>, tags: Option<string>)

  /** `handleAddTag`: no update for a blank input, else the list with the trimmed tag and a cleared input. */
  function HandleAddTag(tagsArray: seq<string>, tags: string): (patch: Option<TagPatch>)
    ensures patch.None? <==> IsBlank(tags)
    ensures patch.Some? ==> patch.value == TagPatch(TagRules.AddTag(tagsArray, tags).0, Some(""))
  {
    if Trim(tags) != "" then Some(TagPatch(tagsArray + [Trim(tags)], Some(""))) else None
  }

  /** `handleRemoveTag`: only the tag list, without the element at `index`. */
  function HandleRemoveTag(tagsArray: seq<string>, index: int): (patch: TagPatch)
    ensures patch.tags.None?
    ensures 0 <= index < |tagsArray| ==> patch.tagsArray == tagsArray[..index] + tagsArray[index + 1..]
    ensures !(0 <= index < |tagsArray|) ==> patch.tagsArray == tagsArray
  {
    TagRules.RemoveTagSpec(tagsArray, index);
    assert 0 <= index < |tagsArray| ==> TagRules.RemoveTag(tagsArray, index) == tagsArray[..index] + tagsArray[index + 1..];
    TagPatch(TagRules.RemoveTag(tagsArray, index), None)
  }

  /** `handlePhase1Next`: `onNext` runs when title and date are non-empty; the id is not checked here. */
  predicate AdvancesOnNext(articleTitle: string, date: string) {
    articleTitle != "" && date != ""
  }

  /** The Next button's `disabled`. */
  predicate NextDisabled(isGeneratingId: bool, articleTitle: string, date: string) {
    isGeneratingId || articleTitle == "" || date == ""
  }

  /**
   * A click on the enabled button always advances; the button is enabled
   * exactly when the id is not being generated and the handler's own guard
   * holds.
   */
  lemma EnabledButtonAdvances(isGeneratingId: bool, articleTitle: string, date: string)
    ensures !NextDisabled(isGeneratingId, articleTitle, date)
            <==> !isGeneratingId && AdvancesOnNext(articleTitle, date)
  {
  }

  /**
   * The component's guard is weaker than the page's: whatever the page lets
   * through, the component does, but with an empty id only the component
   * advances.
   */
  lemma GuardWeakerThanPage(idArticle: string, articleTitle: string, date: string)
    ensures CreatePage.CanLeaveDetails(idArticle, articleTitle, date) ==> AdvancesOnNext(articleTitle, date)
    ensures idArticle == "" ==> !CreatePage.CanLeaveDetails(idArticle, articleTitle, date)
  {
  }

  /** Applying an add-tag patch leaves the form in the state the page's own handler produces. */
  lemma PatchMatchesPageHandler(tagsArray: seq<string>, tags: string)
    ensures var patch := HandleAddTag(tagsArray, tags);
            var applied := if patch.Some? then (patch.value.tagsArray, patch.value.tags.value) else (tagsArray, tags);
            applied == TagRules.AddTag(tagsArray, tags)
  {
  }
}
