/**
 * The editing rules the article creation wizard applies to its tag list
 * (`create/page.tsx`, `ArticleFormPhase1.tsx`): a tag is the trimmed input,
 * added only when it is not blank; removal is by position.
 */
module TagRules {
  import opened Text
  import opened Seqs

  /** `handleAddTag`: the new tag list and the new input box. */
  function AddTag(tagsArray: seq<string>, tags: string): (r: (seq<string>, string))
    ensures IsBlank(tags) ==> r == (tagsArray, tags)
    ensures !IsBlank(tags) ==> && r.1 == ""
                               && |r.0| == |tagsArray| + 1 && r.0[..|tagsArray|] == tagsArray
                               && r.0[|tagsArray|] == Trim(tags) && !IsBlank(r.0[|tagsArray|])
  {
    TrimIdempotent(tags);
    if Trim(tags) != "" then (tagsArray + [Trim(tags)], "") else (tagsArray, tags)
  }

  /** `tagsArray.filter((_, i) => i !== index)`, walking the list from position `offset`. */
  function FilterOutIndex(tagsArray: seq<string>, index: int, offset: nat): (r: seq<string>)
    ensures 0 <= index - offset < |tagsArray| ==> r == RemoveAt(tagsArray, index - offset)
    ensures !(0 <= index - offset < |tagsArray|) ==> r == tagsArray
  {
    if tagsArray == [] then []
    else if offset == index then FilterOutIndex(tagsArray[1..], index, offset + 1)
    else [tagsArray[0]] + FilterOutIndex(tagsArray[1..], index, offset + 1)
  }

  /** `handleRemoveTag(index)`. */
  function RemoveTag(tagsArray: seq<string>, index: int): seq<string> {
    FilterOutIndex(tagsArray, index, 0)
  }

  /**
   * Removal drops the element at `index` only, keeping the others in order;
   * an index outside the list changes nothing.
   */
  lemma RemoveTagSpec(tagsArray: seq<string>, index: int)
    ensures 0 <= index < |tagsArray| ==>
              && |RemoveTag(tagsArray, index)| == |tagsArray| - 1
              && (forall j :: 0 <= j < index ==> RemoveTag(tagsArray, index)[j] == tagsArray[j])
              && (forall j :: index <= j < |tagsArray| - 1 ==> RemoveTag(tagsArray, index)[j] == tagsArray[j + 1])
    ensures !(0 <= index < |tagsArray|) ==> RemoveTag(tagsArray, index) == tagsArray
  {
  }

  /** Removing the tag just added restores the list. */
  lemma AddThenRemoveLast(tagsArray: seq<string>, tags: string)
    requires !IsBlank(tags)
    ensures RemoveTag(AddTag(tagsArray, tags).0, |tagsArray|) == tagsArray
  {
    var added := AddTag(tagsArray, tags).0;
    assert RemoveAt(added, |tagsArray|) == tagsArray;
  }
}

/**
 * The content blocks of an article and the rules for editing them, shared by
 * the wizard page (`create/page.tsx`) and its modal (`ContentModal.tsx`).
 */
module ContentRules {
  import opened Wrappers
  import opened Text
  import opened Seqs

  /** `text_image`, `image_text` (two sides), `just_image`, `just_text` (centre only). */
  datatype ContentType = TextImage | ImageText | JustImage | JustText

  datatype Fields = Fields(left: string, right: string, center: string)

  datatype Content = Content(id: string, kind: ContentType, fields: Fields)

  const EmptyFields: Fields := Fields("", "", "")

  /** The placeholder the presets put in a field the type does not use. */
  const Unused: string := "no"

  predicate TwoSided(t: ContentType) {
    t == TextImage || t == ImageText
  }

  /** The form a type selection resets to: the used fields empty, the unused ones holding "no". */
  function Preset(t: ContentType): Fields {
    if TwoSided(t) then Fields("", "", Unused) else Fields(Unused, Unused, "")
  }

  /** The confirm check: the fields the type uses are not blank after trimming. */
  predicate IsValid(t: ContentType, f: Fields) {
    if TwoSided(t) then !IsBlank(f.left) && !IsBlank(f.right) else !IsBlank(f.center)
  }

  /**
   * A freshly selected type is never confirmable as is, and filling in just
   * the fields the type uses makes it confirmable: the "no" placeholders
   * already satisfy whatever the check might ask of the unused ones.
   */
  lemma PresetNeedsUsedFields(t: ContentType, a: string, b: string)
    requires !IsBlank(a) && !IsBlank(b)
    ensures !IsValid(t, Preset(t))
    ensures TwoSided(t) ==> IsValid(t, Preset(t).(left := a, right := b)) && !IsBlank(Preset(t).center)
    ensures !TwoSided(t) ==> IsValid(t, Preset(t).(center := a))
                             && !IsBlank(Preset(t).left) && !IsBlank(Preset(t).right)
  {
    assert Trim("") == "";
    assert Unused[0] == 'n';
    BlankIffAllWhitespace(Unused);
  }

  /** The emitted content: the edited content's id when it has a non-empty one, else the fresh id. */
  function BuildContent(editing: Option<Content>, freshId: string, t: ContentType, f: Fields): (c: Content)
    ensures c.kind == t && c.fields == f
    ensures editing.Some? && editing.value.id != "" ==> c.id == editing.value.id
    ensures !(editing.Some? && editing.value.id != "") ==> c.id == freshId
  {
    Content(if editing.Some? && editing.value.id != "" then editing.value.id else freshId, t, f)
  }

  function Ids(cs: seq<Content>): (ids: seq<string>)
    ensures |ids| == |cs| && forall i :: 0 <= i < |cs| ==> ids[i] == cs[i].id
  {
    if cs == [] then [] else [cs[0].id] + Ids(cs[1..])
  }

  /** `contents.map(c => c.content_id === id ? replacement : c)`. */
  function ReplaceById(cs: seq<Content>, id: string, replacement: Content): (r: seq<Content>)
    ensures |r| == |cs|
    ensures forall i :: 0 <= i < |cs| ==> r[i] == if cs[i].id == id then replacement else cs[i]
  {
    if cs == [] then [] else [if cs[0].id == id then replacement else cs[0]] + ReplaceById(cs[1..], id, replacement)
  }

  /**
   * An edit that keeps the id leaves the list of ids, and so the order of
   * the blocks, unchanged, and puts the new content wherever the id was.
   */
  lemma EditKeepsIds(cs: seq<Content>, replacement: Content)
    ensures Ids(ReplaceById(cs, replacement.id, replacement)) == Ids(cs)
    ensures forall i :: 0 <= i < |cs| && cs[i].id == replacement.id ==> ReplaceById(cs, replacement.id, replacement)[i] == replacement
  {
  }

  /** `contents.filter(c => c.content_id !== id)`. */
  function FilterOutId(cs: seq<Content>, id: string): (r: seq<Content>)
    ensures forall c :: c in r <==> c in cs && c.id != id
    ensures |r| <= |cs|
  {
    if cs == [] then []
    else (if cs[0].id != id then [cs[0]] else []) + FilterOutId(cs[1..], id)
  }

  /**
   * `filter` works block by block and keeps the order: filtering a
   * concatenation filters each part, and a single block stays exactly when
   * its id differs.
   */
  lemma {:induction false} FilterOutIdDistributes(a: seq<Content>, b: seq<Content>, id: string)
    ensures FilterOutId(a + b, id) == FilterOutId(a, id) + FilterOutId(b, id)
    ensures forall c :: FilterOutId([c], id) == if c.id != id then [c] else []
  {
    if a == [] {
      assert a + b == b;
    } else {
      var head := if a[0].id != id then [a[0]] else [];
      assert (a + b)[0] == a[0] && (a + b)[1..] == a[1..] + b;
      assert FilterOutId(a + b, id) == head + FilterOutId(a[1..] + b, id);
      FilterOutIdDistributes(a[1..], b, id);
      assert head + (FilterOutId(a[1..], id) + FilterOutId(b, id))
          == (head + FilterOutId(a[1..], id)) + FilterOutId(b, id);
    }
  }

  /** The result is one shorter for every block with the id. */
  lemma {:induction false} FilterOutIdLength(cs: seq<Content>, id: string)
    ensures |FilterOutId(cs, id)| == |cs| - CountId(cs, id)
  {
    if cs != [] {
      FilterOutIdLength(cs[1..], id);
    }
  }

  /** The number of blocks with the id. */
  function CountId(cs: seq<Content>, id: string): nat {
    if cs == [] then 0 else (if cs[0].id == id then 1 else 0) + CountId(cs[1..], id)
  }

  /** Deleting an id no block has changes nothing; deleting removes every block with the id. */
  lemma {:induction false} DeleteAbsentIdKeepsAll(cs: seq<Content>, id: string)
    requires forall i :: 0 <= i < |cs| ==> cs[i].id != id
    ensures FilterOutId(cs, id) == cs
  {
    if cs != [] {
      DeleteAbsentIdKeepsAll(cs[1..], id);
    }
  }

  /** The list after confirming a content: replace-by-id when editing, append or insert otherwise. */
  function PlaceContent(cs: seq<Content>, editing: Option<Content>, position: Option<nat>, c: Content): seq<Content> {
    if editing.Some? then ReplaceById(cs, editing.value.id, c)
    else if position.None? then cs + [c]
    else InsertAt(cs, position.value, c)
  }

  /**
   * A new content is added exactly once: at the end without a position, at
   * the position (clamped to the length) otherwise, with every other block
   * kept in order.
   */
  lemma NewContentPlacement(cs: seq<Content>, position: Option<nat>, c: Content)
    ensures var r := PlaceContent(cs, None, position, c);
            && multiset(r) == multiset(cs) + multiset{c}
            && (position.None? ==> r[|cs|] == c && r[..|cs|] == cs)
            && (position.Some? ==> r[InsertPosition(|cs|, position.value)] == c
                                   && RemoveAt(r, InsertPosition(|cs|, position.value)) == cs)
  {
    if position.Some? {
      InsertThenRemove(cs, position.value, c);
    }
  }
}
