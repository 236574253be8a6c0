/**
 * The article creation wizard page (`create/page.tsx`): its component state,
 * the handlers that update it, the three-phase navigation and the final
 * submission, which creates every content block in order and then the
 * article. Fresh content ids, the `confirm` dialog and the outcome of each
 * creation request are inputs.
 */
module CreatePage {
  import opened Wrappers
  import opened Text
  import opened Seqs
  import TagRules
  import opened ContentRules

  /** Phase 1: article data; phase 2: content blocks; phase 3: review. */
  datatype Phase = Details | Blocks | Review

  /** The buttons that move between phases, each shown in one phase only. */
  datatype PhaseEvent = Phase1Next | Phase2Next | Phase2Back | Phase3Back

  /** The phase whose screen shows the button. */
  function EventPhase(e: PhaseEvent): Phase {
    match e
    case Phase1Next => Details
    case Phase2Next | Phase2Back => Blocks
    case Phase3Back => Review
  }

  /** The phase-1 guard: id, title and date are all non-empty. */
  predicate CanLeaveDetails(idArticle: string, articleTitle: string, date: string) {
    idArticle != "" && articleTitle != "" && date != ""
  }

  /** Where a button leads; `Phase1Next` only moves when the guard holds. */
  function NextPhase(p: Phase, e: PhaseEvent, guard: bool): Phase {
    match e
    case Phase1Next => if guard then Blocks else p
    case Phase2Next => Review
    case Phase2Back => Details
    case Phase3Back => Blocks
  }

  function PhaseNumber(p: Phase): int {
    match p
    case Details => 1
    case Blocks => 2
    case Review => 3
  }

  /**
   * Pressing a button of the current phase moves by exactly one phase or not
   * at all: 1 to 2 only under the guard, 2 to 3, 2 to 1 and 3 to 2; there is
   * no other move and no phase is skipped.
   */
  lemma PhaseMachine(p: Phase, e: PhaseEvent, guard: bool)
    requires EventPhase(e) == p
    ensures var q := NextPhase(p, e, guard);
            && (q != p ==> PhaseNumber(q) - PhaseNumber(p) == 1 || PhaseNumber(p) - PhaseNumber(q) == 1)
            && (p == Details && q == Blocks <==> e == Phase1Next && guard)
            && (q == Review ==> p == Blocks)
            && (p == Details ==> q != Review)
  {
  }

  /** The article record the submission creates. */
  datatype ArticleData = ArticleData(
    idArticle: string,
    articleTitle: string,
    articleSubtitle: string,
    mainImageUrl: string,
    company: string,
    date: string,
    tags: seq<string>,
    contentsArray: seq<string>)

  /**
   * What a submission did: the content blocks it sent for creation, in
   * order; the article it sent, if it got that far; and whether everything
   * succeeded.
   */
  datatype SubmitOutcome = SubmitOutcome(requested: seq<Content>, article: Option<ArticleData>, succeeded: bool)

  /** Where the first failed creation is, `|createOk|` when none failed. */
  function FirstFailure(createOk: seq<bool>): (k: nat)
    ensures k <= |createOk|
    ensures forall i :: 0 <= i < k ==> createOk[i]
    ensures k < |createOk| ==> !createOk[k]
  {
    if createOk == [] then 0
    else if !createOk[0] then 0
    else 1 + FirstFailure(createOk[1..])
  }

  /** Every state variable of the page at one moment. */
  datatype PageState = PageState(
    currentPhase: Phase,
    idArticle: string,
    articleTitle: string,
    articleSubtitle: string,
    mainImageUrl: string,
    company: string,
    date: string,
    tags: string,
    tagsArray: seq<string>,
    contents: seq<Content>,
    showContentModal: bool,
    contentModalPosition: Option<nat>,
    editingContent: Option<Content>,
    selectedContentType: Option<ContentType>,
    contentFormData: Fields,
    isSubmitting: bool)

  /** The state `closeContentModal` leaves the modal part in. */
  function ModalClosed(s: PageState): PageState {
    s.(showContentModal := false, contentModalPosition := None, editingContent := None,
       selectedContentType := None, contentFormData := EmptyFields)
  }

  /** `handleContentConfirm` on a state: no change without a type or with an invalid form. */
  function Confirmed(s: PageState, freshId: string): PageState {
    if s.selectedContentType.None? || !IsValid(s.selectedContentType.value, s.contentFormData) then s
    else
      var c := BuildContent(s.editingContent, freshId, s.selectedContentType.value, s.contentFormData);
      ModalClosed(s.(contents := PlaceContent(s.contents, s.editingContent, s.contentModalPosition, c)))
  }

  /**
   * A confirmed edit replaces, in place, every block with the edited id and
   * keeps that id; a confirmed new block is added exactly once; either way
   * the modal ends closed. An unconfirmable form changes nothing.
   */
  lemma ConfirmEffect(s: PageState, freshId: string)
    ensures var r := Confirmed(s, freshId);
            && (s.selectedContentType.None? || !IsValid(s.selectedContentType.value, s.contentFormData) ==> r == s)
            && (s.selectedContentType.Some? && IsValid(s.selectedContentType.value, s.contentFormData) ==>
                  && !r.showContentModal && r.editingContent.None? && r.selectedContentType.None?
                  && r.tagsArray == s.tagsArray && r.currentPhase == s.currentPhase
                  && (s.editingContent.Some? && s.editingContent.value.id != "" ==>
                        Ids(r.contents) == Ids(s.contents))
                  && (s.editingContent.None? ==>
                        multiset(r.contents) == multiset(s.contents)
                                                + multiset{BuildContent(None, freshId, s.selectedContentType.value,
                                                                        s.contentFormData)}))
  {
    if s.selectedContentType.Some? && IsValid(s.selectedContentType.value, s.contentFormData) {
      var c := BuildContent(s.editingContent, freshId, s.selectedContentType.value, s.contentFormData);
      if s.editingContent.Some? {
        EditKeepsIds(s.contents, c);
      } else {
        NewContentPlacement(s.contents, s.contentModalPosition, c);
      }
    }
  }

  class CreateArticlePage {
    var currentPhase: Phase
    var idArticle: string
    var articleTitle: string
    var articleSubtitle: string
    var mainImageUrl: string
    var company: string
    var date: string
    var tags: string
    var tagsArray: seq<string>
    var contents: seq<Content>
    var showContentModal: bool
    var contentModalPosition: Option<nat>
    var editingContent: Option<Content>
    var selectedContentType: Option<ContentType>
    var contentFormData: Fields
    var isSubmitting: bool

    function State(): PageState
      reads this
    {
      PageState(currentPhase, idArticle, articleTitle, articleSubtitle, mainImageUrl, company, date, tags,
                tagsArray, contents, showContentModal, contentModalPosition, editingContent,
                selectedContentType, contentFormData, isSubmitting)
    }

    constructor ()
      ensures State() == ModalClosed(PageState(Details, "", "", "", "", "", "", "", [], [], false, None, None,
                                               None, EmptyFields, false))
    {
      currentPhase := Details;
      idArticle, articleTitle, articleSubtitle, mainImageUrl, company, date := "", "", "", "", "", "";
      tags, tagsArray := "", [];
      contents := [];
      showContentModal, contentModalPosition, editingContent := false, None, None;
      selectedContentType, contentFormData := None, EmptyFields;
      isSubmitting := false;
    }

    /** `handleAddTag`. */
    method AddTag()
      modifies this
      ensures var added := TagRules.AddTag(old(tagsArray), old(tags));
              State() == old(State()).(tagsArray := added.0, tags := added.1)
    {
      var added := TagRules.AddTag(tagsArray, tags);
      tagsArray, tags := added.0, added.1;
    }

    /** `handleRemoveTag`. */
    method RemoveTag(index: int)
      modifies this
      ensures State() == old(State()).(tagsArray := TagRules.RemoveTag(old(tagsArray), index))
    {
      tagsArray := TagRules.RemoveTag(tagsArray, index);
    }

    /** A phase button: `handlePhase1Next`, `handlePhase2Next`, `handlePhase2Back`, `handlePhase3Back`. */
    method PressPhaseButton(e: PhaseEvent)
      modifies this
      ensures State() == old(State()).(currentPhase := NextPhase(old(currentPhase), e,
                                                                 CanLeaveDetails(idArticle, articleTitle, date)))
    {
      match e
      case Phase1Next =>
        if idArticle != "" && articleTitle != "" && date != "" {
          currentPhase := Blocks;
        }
      case Phase2Next => currentPhase := Review;
      case Phase2Back => currentPhase := Details;
      case Phase3Back => currentPhase := Blocks;
    }

    /** `openContentModal`: load the content being edited, or start from nothing. */
    method OpenContentModal(position: Option<nat>, content: Option<Content>)
      modifies this
      ensures State() == old(State()).(showContentModal := true, contentModalPosition := position,
                                       editingContent := content,
                                       selectedContentType := if content.Some? then Some(content.value.kind) else None,
                                       contentFormData := if content.Some? then content.value.fields else EmptyFields)
    {
      contentModalPosition := position;
      if content.Some? {
        editingContent := content;
        selectedContentType := Some(content.value.kind);
        contentFormData := content.value.fields;
      } else {
        editingContent := None;
        selectedContentType := None;
        contentFormData := EmptyFields;
      }
      showContentModal := true;
    }

    /** `closeContentModal`. */
    method CloseContentModal()
      modifies this
      ensures State() == ModalClosed(old(State()))
    {
      showContentModal, contentModalPosition, editingContent := false, None, None;
      selectedContentType, contentFormData := None, EmptyFields;
    }

    /** `handleContentTypeSelect`. */
    method ContentTypeSelect(t: ContentType)
      modifies this
      ensures State() == old(State()).(selectedContentType := Some(t), contentFormData := Preset(t))
    {
      selectedContentType := Some(t);
      if t == TextImage {
        contentFormData := Fields("", "", "no");
      } else if t == ImageText {
        contentFormData := Fields("", "", "no");
      } else if t == JustImage {
        contentFormData := Fields("no", "no", "");
      } else {
        contentFormData := Fields("no", "no", "");
      }
    }

    /**
     * `handleContentConfirm`: nothing without a type or with an invalid form;
     * otherwise place the new content and close the modal. `freshId` stands
     * for `generateContentId()`.
     */
    method ContentConfirm(freshId: string)
      modifies this
      ensures State() == Confirmed(old(State()), freshId)
    {
      ghost var before := State();
      if selectedContentType.None? {
        return;
      }
      var t := selectedContentType.value;
      var isValid := false;
      if t == TextImage || t == ImageText {
        isValid := Trim(contentFormData.left) != "" && Trim(contentFormData.right) != "";
      } else {
        isValid := Trim(contentFormData.center) != "";
      }
      assert isValid == IsValid(t, contentFormData);
      if !isValid {
        return;
      }
      var newContent := Content(if editingContent.Some? && editingContent.value.id != "" then editingContent.value.id
                                else freshId, t, contentFormData);
      assert newContent == BuildContent(before.editingContent, freshId, t, before.contentFormData);
      if editingContent.Some? {
        contents := ReplaceById(contents, editingContent.value.id, newContent);
      } else if contentModalPosition.None? {
        contents := contents + [newContent];
      } else {
        contents := InsertAt(contents, contentModalPosition.value, newContent);
      }
      assert contents == PlaceContent(before.contents, before.editingContent, before.contentModalPosition, newContent);
      CloseContentModal();
    }

    /** `handleDeleteContent`; `confirmed` is the answer to the confirmation dialog. */
    method DeleteContent(id: string, confirmed: bool)
      modifies this
      ensures State() == old(State()).(contents := if confirmed then FilterOutId(old(contents), id) else old(contents))
    {
      if confirmed {
        contents := FilterOutId(contents, id);
      }
    }

    /** The article record as the page's fields describe it, with the given content ids. */
    function ArticleWith(contentIds: seq<string>): ArticleData
      reads this
    {
      ArticleData(idArticle, articleTitle, articleSubtitle, mainImageUrl, company, date, tagsArray, contentIds)
    }

    /**
     * `handleFinalSubmit`. `createOk[i]` is whether creating the i-th content
     * succeeds and `articleOk` whether creating the article does. Contents
     * are sent in list order; the first failure stops the loop before the
     * article is sent; otherwise the article carries the ids of all contents,
     * in order. `isSubmitting` is true only while this runs.
     */
    method FinalSubmit(createOk: seq<bool>, articleOk: bool) returns (out: SubmitOutcome)
      requires |createOk| == |contents|
      ensures var k := FirstFailure(createOk);
              && out.requested == contents[..if k < |contents| then k + 1 else k]
              && (out.article.Some? <==> k == |contents|)
              && (out.article.Some? ==> out.article.value == ArticleWith(Ids(contents)))
              && (out.succeeded <==> k == |contents| && articleOk)
    {
      var contentIds: seq<string> := [];
      var requested: seq<Content> := [];
      var i := 0;
      while i < |contents|
        invariant 0 <= i <= |contents|
        invariant forall j :: 0 <= j < i ==> createOk[j]
        invariant requested == contents[..i]
        invariant contentIds == Ids(contents[..i])
      {
        requested := requested + [contents[i]];
        if !createOk[i] {
          assert FirstFailure(createOk) == i by { FirstFailureAt(createOk, i); }
          return SubmitOutcome(requested, None, false);
        }
        contentIds := contentIds + [contents[i].id];
        i := i + 1;
      }
      assert contents[..i] == contents;
      FirstFailureNone(createOk);
      var articleData := ArticleWith(contentIds);
      return SubmitOutcome(requested, Some(articleData), articleOk);
    }
  }

  /** The first failure is the first false entry. */
  lemma {:induction false} FirstFailureAt(createOk: seq<bool>, i: nat)
    requires i < |createOk| && !createOk[i] && forall j :: 0 <= j < i ==> createOk[j]
    ensures FirstFailure(createOk) == i
  {
    if i > 0 {
      FirstFailureAt(createOk[1..], i - 1);
    }
  }

  /** With no false entry there is no failure. */
  lemma {:induction false} FirstFailureNone(createOk: seq<bool>)
    requires forall j :: 0 <= j < |createOk| ==> createOk[j]
    ensures FirstFailure(createOk) == |createOk|
  {
    if createOk != [] {
      FirstFailureNone(createOk[1..]);
    }
  }
}
