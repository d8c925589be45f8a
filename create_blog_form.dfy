/**
 * The creation form of src/components/blog/CreateBlogForm.tsx: its local
 * state, the category toggle, the validity rule, the submit guard, the
 * payload it sends and the transitions of submit, reset, cancel and open.
 */
module CreateBlogForm {
  import opened Wrappers
  import opened BlogTypes
  import opened Text
  import UseBlogs

  /** The category buttons, in the order the form shows them. */
  const AvailableCategories: seq<string> :=
    ["FINANCE", "TECH", "CAREER", "EDUCATION", "REGULATIONS", "LIFESTYLE", "SKILLS"]

  /** Cover image sent when the cover field is left empty. */
  const DefaultCoverImage: string :=
    "https://images.pexels.com/photos/3184465/pexels-photo-3184465.jpeg"

  /** The five editable values of the form, as one snapshot. */
  datatype Draft = Draft(
    title: string,
    description: string,
    content: string,
    coverImage: string,
    categories: seq<string>)

  /** Every field empty, no category selected: the initial and the reset state. */
  const EmptyDraft: Draft := Draft("", "", "", "", [])

  // ---------------------------------------------------------------------------
  // Category toggle

  /** `s.filter((x) => x !== c)`: every occurrence of `c` removed, the rest kept in order. */
  function Without(s: seq<string>, c: string): (r: seq<string>)
    ensures c !in r
    ensures forall x :: x != c ==> (x in r <==> x in s)
    ensures |r| <= |s|
    ensures c !in s ==> r == s
  {
    if s == [] then []
    else if s[0] == c then Without(s[1..], c)
    else [s[0]] + Without(s[1..], c)
  }

  /** `prev.includes(c) ? prev.filter((x) => x !== c) : [...prev, c]` */
  function Toggle(prev: seq<string>, c: string): seq<string> {
    if c in prev then Without(prev, c) else prev + [c]
  }

  /** No category appears twice. */
  predicate NoDuplicates(s: seq<string>) {
    forall i, j :: 0 <= i < j < |s| ==> s[i] != s[j]
  }

  /** Filtering distributes over appending one element. */
  lemma {:induction false} WithoutAppend(s: seq<string>, c: string, d: string)
    ensures Without(s + [d], c) == Without(s, c) + (if d == c then [] else [d])
  {
    if s == [] {
      assert [] + [d] == [d];
    } else {
      assert (s + [d])[1..] == s[1..] + [d];
      WithoutAppend(s[1..], c, d);
    }
  }

  /** Filtering never introduces a duplicate. */
  lemma {:induction false} WithoutKeepsNoDuplicates(s: seq<string>, c: string)
    requires NoDuplicates(s)
    ensures NoDuplicates(Without(s, c))
  {
    if s != [] {
      assert NoDuplicates(s[1..]) by {
        forall i, j | 0 <= i < j < |s[1..]| ensures s[1..][i] != s[1..][j] {
          assert s[1..][i] == s[i + 1] && s[1..][j] == s[j + 1];
        }
      }
      WithoutKeepsNoDuplicates(s[1..], c);
      if s[0] != c {
        var rest := Without(s[1..], c);
        assert s[0] !in s[1..] by {
          forall k | 0 <= k < |s[1..]| ensures s[1..][k] != s[0] {
            assert s[1..][k] == s[k + 1];
          }
        }
        assert s[0] !in rest;
        var r := [s[0]] + rest;
        forall i, j | 0 <= i < j < |r| ensures r[i] != r[j] {
          if i == 0 {
            assert r[j] == rest[j - 1];
            assert rest[j - 1] in rest;
          } else {
            assert r[i] == rest[i - 1] && r[j] == rest[j - 1];
          }
        }
      }
    }
  }

  /** Toggling flips the membership of the toggled category and of no other. */
  lemma ToggleFlipsMembership(prev: seq<string>, c: string)
    ensures c in Toggle(prev, c) <==> c !in prev
    ensures forall x :: x != c ==> (x in Toggle(prev, c) <==> x in prev)
  {
  }

  /** The other categories keep their relative order: with `c` filtered out, before and after agree. */
  lemma ToggleKeepsOthersInOrder(prev: seq<string>, c: string)
    ensures Without(Toggle(prev, c), c) == Without(prev, c)
  {
    if c !in prev {
      WithoutAppend(prev, c, c);
    }
  }

  /** A duplicate-free selection stays duplicate-free. */
  lemma ToggleKeepsNoDuplicates(prev: seq<string>, c: string)
    requires NoDuplicates(prev)
    ensures NoDuplicates(Toggle(prev, c))
  {
    if c in prev {
      WithoutKeepsNoDuplicates(prev, c);
    } else {
      var r := prev + [c];
      forall i, j | 0 <= i < j < |r| ensures r[i] != r[j] {
        if j == |prev| {
          assert r[i] == prev[i];
          assert prev[i] in prev;
        } else {
          assert r[i] == prev[i] && r[j] == prev[j];
        }
      }
    }
  }

  /** Toggling an absent category twice gives back exactly the original selection. */
  lemma ToggleTwiceAbsent(prev: seq<string>, c: string)
    requires c !in prev
    ensures Toggle(Toggle(prev, c), c) == prev
  {
    WithoutAppend(prev, c, c);
  }

  /** Toggling a present category twice keeps it selected, but moves it to the end. */
  lemma ToggleTwicePresent(prev: seq<string>, c: string)
    requires c in prev
    ensures c in Toggle(Toggle(prev, c), c)
    ensures Toggle(Toggle(prev, c), c) == Without(prev, c) + [c]
  {
  }

  // ---------------------------------------------------------------------------
  // Validity, the submit guard and the payload

  /** `isValid`: title, description and content are non-blank after `trim()`, and some category is selected. */
  predicate IsValid(d: Draft) {
    Trim(d.title) != "" && Trim(d.description) != "" && Trim(d.content) != "" &&
    |d.categories| > 0
  }

  /** The early return of `handleSubmit`: it tests the untrimmed fields for emptiness. */
  predicate PassesGuard(d: Draft) {
    d.title != "" && d.description != "" && d.content != "" && |d.categories| != 0
  }

  /** The form is valid exactly when each text field has a non-whitespace character and a category is chosen. */
  lemma IsValidIff(d: Draft)
    ensures IsValid(d) <==>
      HasVisibleChar(d.title) && HasVisibleChar(d.description) &&
      HasVisibleChar(d.content) && |d.categories| > 0
  {
    TrimEmptyIff(d.title);
    TrimEmptyIff(d.description);
    TrimEmptyIff(d.content);
  }

  /** A valid form always passes the guard. */
  lemma ValidPassesGuard(d: Draft)
    requires IsValid(d)
    ensures PassesGuard(d)
  {
    VisibleIsNonEmpty(d.title);
    VisibleIsNonEmpty(d.description);
    VisibleIsNonEmpty(d.content);
  }

  /**
   * The converse fails: a title made only of whitespace (" ", say) gets past
   * the guard when the other fields are filled in, yet the form is not valid.
   */
  lemma BlankTitlePassesGuard(d: Draft)
    requires d.title != "" && forall i :: 0 <= i < |d.title| ==> IsJsWhitespace(d.title[i])
    requires d.description != "" && d.content != "" && |d.categories| > 0
    ensures PassesGuard(d) && !IsValid(d)
  {
    TrimEmptyIff(d.title);
  }

  /**
   * The object handed to `mutateAsync`: the fields and the selection as they
   * are, with `coverImage || DefaultCoverImage` as the cover.
   */
  function Payload(d: Draft): (p: CreateBlogInput)
    ensures p.title == d.title && p.description == d.description && p.content == d.content
    ensures p.category == d.categories
    ensures d.coverImage != "" ==> p.coverImage == d.coverImage
    ensures d.coverImage == "" ==> p.coverImage == DefaultCoverImage
  {
    CreateBlogInput(d.title, d.description, d.content,
                    if d.coverImage != "" then d.coverImage else DefaultCoverImage,
                    d.categories)
  }

  /** What gets sent past the guard never has an empty text field, cover or category list. */
  lemma GuardedPayloadIsComplete(d: Draft)
    requires PassesGuard(d)
    ensures var p := Payload(d);
      p.title != "" && p.description != "" && p.content != "" &&
      p.coverImage != "" && |p.category| >= 1
  {
  }

  /** `disabled={!isValid || createBlog.isPending}` of the Publish button. */
  predicate PublishDisabled(d: Draft, isPending: bool) {
    !IsValid(d) || isPending
  }

  /** Whenever Publish is enabled, a click gets past the guard and sends the payload. */
  lemma EnabledPublishSubmits(d: Draft, isPending: bool)
    requires !PublishDisabled(d, isPending)
    ensures !isPending && PassesGuard(d)
  {
    ValidPassesGuard(d);
  }

  /** One category button: its label and whether it shows as selected. */
  datatype CategoryButton = CategoryButton(category: string, isSelected: bool)

  /** The buttons of `AVAILABLE_CATEGORIES.map(...)`: fixed order, each flagged by `includes`. */
  function CategoryButtons(selected: seq<string>): (buttons: seq<CategoryButton>)
    ensures |buttons| == |AvailableCategories|
    ensures forall i :: 0 <= i < |buttons| ==>
      buttons[i].category == AvailableCategories[i] &&
      (buttons[i].isSelected <==> AvailableCategories[i] in selected)
  {
    seq(|AvailableCategories|, i requires 0 <= i < |AvailableCategories| =>
      CategoryButton(AvailableCategories[i], AvailableCategories[i] in selected))
  }

  /** The buttons depend only on which categories are selected, not on the order of selection. */
  lemma ButtonsIgnoreSelectionOrder(a: seq<string>, b: seq<string>)
    requires forall x :: x in a <==> x in b
    ensures CategoryButtons(a) == CategoryButtons(b)
  {
    var ba, bb := CategoryButtons(a), CategoryButtons(b);
    forall i | 0 <= i < |ba| ensures ba[i] == bb[i] {
      assert AvailableCategories[i] in a <==> AvailableCategories[i] in b;
    }
  }

  // ---------------------------------------------------------------------------
  // The component's state

  /** The component's `useState` cells: the dialog's `open` flag and the five fields. */
  class Form {
    var open: bool
    var title: string
    var description: string
    var content: string
    var coverImage: string
    var selectedCategories: seq<string>

    /** The five field values as one draft. */
    function Fields(): Draft
      reads this
    {
      Draft(title, description, content, coverImage, selectedCategories)
    }

    /**
     * The selection holds each category at most once, and only categories
     * the buttons offer: the buttons are the only callers of the toggle.
     */
    predicate Valid()
      reads this
    {
      NoDuplicates(selectedCategories) &&
      forall c :: c in selectedCategories ==> c in AvailableCategories
    }

    /** Initial state: dialog closed, every field empty. */
    constructor ()
      ensures Valid()
      ensures !open && Fields() == EmptyDraft
    {
      open := false;
      title, description, content, coverImage := "", "", "", "";
      selectedCategories := [];
    }

    /** The trigger button opens the dialog; the fields are left as they are. */
    method OpenDialog()
      requires Valid()
      modifies this
      ensures Valid()
      ensures open && Fields() == old(Fields())
    {
      open := true;
    }

    /** Cancel closes the dialog without clearing any field. */
    method Cancel()
      requires Valid()
      modifies this
      ensures Valid()
      ensures !open && Fields() == old(Fields())
    {
      open := false;
    }

    /** The `onChange` of the title input. */
    method EditTitle(value: string)
      requires Valid()
      modifies this
      ensures Valid()
      ensures open == old(open) && Fields() == old(Fields()).(title := value)
    {
      title := value;
    }

    /** The `onChange` of the description textarea. */
    method EditDescription(value: string)
      requires Valid()
      modifies this
      ensures Valid()
      ensures open == old(open) && Fields() == old(Fields()).(description := value)
    {
      description := value;
    }

    /** The `onChange` of the content textarea. */
    method EditContent(value: string)
      requires Valid()
      modifies this
      ensures Valid()
      ensures open == old(open) && Fields() == old(Fields()).(content := value)
    {
      content := value;
    }

    /** The `onChange` of the cover image input. */
    method EditCoverImage(value: string)
      requires Valid()
      modifies this
      ensures Valid()
      ensures open == old(open) && Fields() == old(Fields()).(coverImage := value)
    {
      coverImage := value;
    }

    /** A click on one category button; every button carries one of the available categories. */
    method ToggleCategory(category: string)
      requires Valid() && category in AvailableCategories
      modifies this
      ensures Valid()
      ensures open == old(open)
      ensures Fields() == old(Fields()).(categories := Toggle(old(selectedCategories), category))
    {
      ToggleKeepsNoDuplicates(selectedCategories, category);
      ToggleFlipsMembership(selectedCategories, category);
      selectedCategories := Toggle(selectedCategories, category);
    }

    /** `resetForm`: every field back to empty; `open` is not touched. */
    method ResetForm()
      requires Valid()
      modifies this
      ensures Valid()
      ensures open == old(open) && Fields() == EmptyDraft
    {
      title, description, content, coverImage := "", "", "", "";
      selectedCategories := [];
    }

    /**
     * `handleSubmit`, as one atomic step. `createSucceeds` is the outcome of
     * the remote create call; `hasOnSuccess` says whether the parent passed
     * the optional `onSuccess` prop. Returns the payload sent (None when the
     * guard stopped the submit), the keys the mutation invalidated, and
     * whether `onSuccess` was called. On success the fields are cleared and
     * the dialog closes; on failure, or when nothing was sent, nothing changes.
     */
    method Submit(createSucceeds: bool, hasOnSuccess: bool)
      returns (request: Option<CreateBlogInput>, invalidated: seq<UseBlogs.QueryKey>, notified: bool)
      requires Valid()
      modifies this
      ensures Valid()
      ensures request == if PassesGuard(old(Fields())) then Some(Payload(old(Fields()))) else None
      ensures invalidated == if request.Some? then UseBlogs.InvalidatedByCreate(createSucceeds) else []
      ensures notified <==> request.Some? && createSucceeds && hasOnSuccess
      ensures request.Some? && createSucceeds ==> !open && Fields() == EmptyDraft
      ensures !(request.Some? && createSucceeds) ==> open == old(open) && Fields() == old(Fields())
    {
      if !PassesGuard(Fields()) {
        return None, [], false;
      }
      request := Some(Payload(Fields()));
      invalidated := UseBlogs.InvalidatedByCreate(createSucceeds);
      notified := false;
      if createSucceeds {
        ResetForm();
        open := false;
        notified := hasOnSuccess;
      }
    }
  }

  /**
   * A whole session in the form as the header mounts it, without `onSuccess`:
   * open the dialog, fill in every field, pick a category, publish
   * successfully. The request carries the entered values and the default
   * cover; the form ends closed and empty, and nobody is notified.
   */
  method PublishSession(t: string, desc: string, body: string)
    returns (request: Option<CreateBlogInput>, openAfter: bool, fieldsAfter: Draft, notified: bool)
    requires t != "" && desc != "" && body != ""
    ensures request == Some(CreateBlogInput(t, desc, body, DefaultCoverImage, ["TECH"]))
    ensures !openAfter && fieldsAfter == EmptyDraft
    ensures !notified
  {
    var form := new Form();
    form.OpenDialog();
    form.EditTitle(t);
    form.EditDescription(desc);
    form.EditContent(body);
    form.ToggleCategory("TECH");
    assert Toggle([], "TECH") == ["TECH"];
    var invalidated;
    request, invalidated, notified := form.Submit(true, false);
    openAfter, fieldsAfter := form.open, form.Fields();
  }

  /** A failed publish keeps the dialog open and every entered value in place. */
  method FailedPublishSession(t: string, category: string)
    returns (request: Option<CreateBlogInput>, openAfter: bool, fieldsAfter: Draft)
    requires t != "" && category in AvailableCategories
    ensures request.Some? && request.value.title == t
    ensures openAfter && fieldsAfter == Draft(t, "d", "c", "", [category])
  {
    var form := new Form();
    form.OpenDialog();
    form.EditTitle(t);
    form.EditDescription("d");
    form.EditContent("c");
    form.ToggleCategory(category);
    assert Toggle([], category) == [category];
    var invalidated, notified;
    request, invalidated, notified := form.Submit(false, true);
    openAfter, fieldsAfter := form.open, form.Fields();
  }
}
