/** The compose form (`src/components/Feed/CreatePost.tsx`): its state, the
    tag toggle, the image list and the submit guard. */
module Compose {
  import opened PostTypes
  import opened Text
  import opened Seqs

  /** The four `useState` slots of the form. */
  datatype ComposeForm = ComposeForm(
    content: string,
    selectedTags: seq<string>,
    mediaUrls: seq<string>,
    isExpanded: bool)

  /** The initial state, which a successful submit restores. */
  const EmptyForm: ComposeForm := ComposeForm("", [], [], false)

  /** The URL `handleAddImage` appends in place of a real upload. */
  const PlaceholderImage: string := "/api/placeholder/400/300"

  /** The arguments of one `onSubmit` call. */
  datatype Submission = Submission(content: string, tags: seq<string>, mediaUrls: seq<string>)

  /** The form after a press on "Post", and the call it made, if any. */
  datatype SubmitResult = SubmitResult(form: ComposeForm, submitted: Option<Submission>)

  /** `handleSubmit`: when the content holds a non-whitespace character, hand
      content, tags and media over unchanged and reset the form; otherwise
      do nothing. */
  function Submit(form: ComposeForm): (r: SubmitResult)
    ensures r.submitted.Some? <==> exists i :: 0 <= i < |form.content| && !IsWhitespace(form.content[i])
    ensures r.submitted.Some? ==>
      && r.submitted.value == Submission(form.content, form.selectedTags, form.mediaUrls)
      && r.form.content == [] && r.form.selectedTags == [] && r.form.mediaUrls == []
      && !r.form.isExpanded
    ensures r.submitted.None? ==> r.form == form
  {
    HasTextIff(form.content);
    if HasText(form.content) then
      SubmitResult(EmptyForm, Some(Submission(form.content, form.selectedTags, form.mediaUrls)))
    else
      SubmitResult(form, None)
  }

  /** A second press right after a successful submit sends nothing. */
  lemma SubmitOnce(form: ComposeForm)
    requires Submit(form).submitted.Some?
    ensures Submit(Submit(form).form).submitted.None?
  {
  }

  /** The text field's `onFocus`: the form opens and nothing else changes. */
  function Focus(form: ComposeForm): (r: ComposeForm)
    ensures r.isExpanded
    ensures r.(isExpanded := form.isExpanded) == form
  {
    form.(isExpanded := true)
  }

  /** Opening the form does not change what "Post" sends. A send resets the
      form as it would have without the focus; a blank form stays open. */
  lemma FocusKeepsSubmission(form: ComposeForm)
    ensures Submit(Focus(form)).submitted == Submit(form).submitted
    ensures Submit(Focus(form)).submitted.Some? ==> Submit(Focus(form)).form == EmptyForm
    ensures Submit(Focus(form)).submitted.None? ==> Submit(Focus(form)).form.isExpanded
  {
  }

  // ---------------------------------------------------------------------------
  // Tags
  // ---------------------------------------------------------------------------

  function Differs(tag: string): string -> bool {
    (t: string) => t != tag
  }

  /** `toggleTag`: a selected tag is removed, every occurrence of it, with the
      other tags kept in order; an unselected tag is appended. Either way the
      tag's membership flips and no other tag's does. */
  function ToggleTag(selected: seq<string>, tag: string): (r: seq<string>)
    ensures forall t :: t in r <==> (t in selected) != (t == tag)
    ensures tag in selected ==>
      && IsSubsequence(r, selected)
      && forall t :: t != tag ==> multiset(r)[t] == multiset(selected)[t]
    ensures tag !in selected ==> r == selected + [tag]
  {
    if tag in selected then
      FilterIsSubsequence(selected, Differs(tag));
      FilterMultiset(selected, Differs(tag));
      var r := Filter(selected, Differs(tag));
      assert forall t :: t in r <==> t in multiset(r);
      assert forall t :: t in selected <==> t in multiset(selected);
      r
    else
      selected + [tag]
  }

  /** Toggling an unselected tag twice restores the selection. */
  lemma ToggleTagTwice(selected: seq<string>, tag: string)
    requires tag !in selected
    ensures ToggleTag(ToggleTag(selected, tag), tag) == selected
  {
    FilterConcat(selected, [tag], Differs(tag));
    FilterAll(selected, Differs(tag));
  }

  /** A selection without duplicates stays without duplicates. */
  lemma ToggleTagNoDup(selected: seq<string>, tag: string)
    requires NoDup(selected)
    ensures NoDup(ToggleTag(selected, tag))
  {
    if tag in selected {
      FilterNoDup(selected, Differs(tag));
    }
  }

  /** Toggling only the offered tags keeps the selection among them, and so
      never longer than the list of offered tags. */
  lemma ToggleTagBounded(selected: seq<string>, tag: string)
    requires NoDup(selected) && forall t :: t in selected ==> t in AvailableTags
    requires tag in AvailableTags
    ensures forall t :: t in ToggleTag(selected, tag) ==> t in AvailableTags
    ensures |ToggleTag(selected, tag)| <= |AvailableTags|
  {
    var r := ToggleTag(selected, tag);
    ToggleTagNoDup(selected, tag);
    NoDupCard(r);
    assert NoDup(AvailableTags);
    NoDupCard(AvailableTags);
    assert (set t | t in r) <= (set t | t in AvailableTags);
    SubsetCard(set t | t in r, set t | t in AvailableTags);
  }

  lemma SubsetCard<T>(a: set<T>, b: set<T>)
    requires a <= b
    ensures |a| <= |b|
  {
    assert b == a + (b - a);
  }

  // ---------------------------------------------------------------------------
  // Media
  // ---------------------------------------------------------------------------

  /** `handleAddImage`: one placeholder URL at the end; nothing else changes. */
  function AddImage(form: ComposeForm): (r: ComposeForm)
    ensures |r.mediaUrls| == |form.mediaUrls| + 1
    ensures r.mediaUrls[..|form.mediaUrls|] == form.mediaUrls
    ensures r.mediaUrls[|form.mediaUrls|] == PlaceholderImage
    ensures r.(mediaUrls := form.mediaUrls) == form
  {
    form.(mediaUrls := form.mediaUrls + [PlaceholderImage])
  }

  /** `urls.filter((_, i) => i !== index)`, walking the list from the front
      with the index shifted down at each step. */
  function DropIndex(urls: seq<string>, index: int): (r: seq<string>)
    ensures 0 <= index < |urls| ==> r == urls[..index] + urls[index + 1..]
    ensures !(0 <= index < |urls|) ==> r == urls
    decreases |urls|
  {
    if urls == [] then []
    else
      var rest := DropIndex(urls[1..], index - 1);
      if index == 0 then rest
      else
        assert 0 < index < |urls| ==> [urls[0]] + urls[1..][..index - 1] == urls[..index];
        assert [urls[0]] + urls[1..] == urls;
        [urls[0]] + rest
  }

  /** The form after a press on the remove button of the image at `index`. */
  function RemoveImage(form: ComposeForm, index: int): (r: ComposeForm)
    ensures 0 <= index < |form.mediaUrls| ==> |r.mediaUrls| == |form.mediaUrls| - 1
    ensures !(0 <= index < |form.mediaUrls|) ==> r == form
    ensures r.(mediaUrls := form.mediaUrls) == form
  {
    form.(mediaUrls := DropIndex(form.mediaUrls, index))
  }

  /** Removing the image just added undoes the addition. */
  lemma RemoveUndoesAddImage(form: ComposeForm)
    ensures RemoveImage(AddImage(form), |form.mediaUrls|) == form
  {
    var urls := AddImage(form).mediaUrls;
    assert urls[..|form.mediaUrls|] + urls[|form.mediaUrls| + 1..] == form.mediaUrls;
  }

  /** The remove button of the image at `index`:
      `mediaUrls.filter((_, i) => i !== index)`. For an index in range the
      list loses exactly that entry; otherwise it is unchanged. */
  method RemoveMedia(form: ComposeForm, index: int) returns (r: ComposeForm)
    ensures 0 <= index < |form.mediaUrls| ==>
      && |r.mediaUrls| == |form.mediaUrls| - 1
      && r.mediaUrls == form.mediaUrls[..index] + form.mediaUrls[index + 1..]
    ensures !(0 <= index < |form.mediaUrls|) ==> r.mediaUrls == form.mediaUrls
    ensures r.(mediaUrls := form.mediaUrls) == form
    ensures r == RemoveImage(form, index)
  {
    var urls := form.mediaUrls;
    var kept: seq<string> := [];
    var i := 0;
    while i < |urls|
      invariant 0 <= i <= |urls|
      invariant kept == if 0 <= index < i then urls[..index] + urls[index + 1..i] else urls[..i]
    {
      if i != index {
        kept := kept + [urls[i]];
      }
      i := i + 1;
    }
    assert urls[..|urls|] == urls;
    r := form.(mediaUrls := kept);
  }
}
