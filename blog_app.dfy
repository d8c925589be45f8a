/**
 * The shell of src/App.tsx: the selection state it owns, the two events that
 * change it, which pane the narrow layout shows, and the selected id it hands
 * to both panes.
 */
module BlogApp {
  import opened Wrappers
  import opened BlogTypes
  import UseBlogs
  import BlogList
  import BlogDetail

  /** Query-cache defaults: data stays fresh for five minutes; a failed read is retried twice. */
  const StaleTimeMs: nat := 1000 * 60 * 5
  const QueryRetries: nat := 2

  /** `selectedBlog?.id ?? null`: the id handed to both panes. */
  function SelectedId(selected: Option<Blog>): (id: Option<string>)
    ensures id.Some? <==> selected.Some?
    ensures selected.Some? ==> id.value == selected.value.id
  {
    match selected
    case Some(b) => Some(b.id)
    case None => None
  }

  /** The list pane's class: `hidden lg:block` when the detail is shown, `block` otherwise. */
  predicate ListPaneVisible(mobileShowDetail: bool, wide: bool) {
    if mobileShowDetail then wide else true
  }

  /** The detail pane's class: `hidden lg:block` when the detail is not shown, `block` otherwise. */
  predicate DetailPaneVisible(mobileShowDetail: bool, wide: bool) {
    if !mobileShowDetail then wide else true
  }

  /** Below the `lg` breakpoint exactly one pane is visible: the detail iff it was asked for. */
  lemma NarrowShowsExactlyOnePane(mobileShowDetail: bool)
    ensures ListPaneVisible(mobileShowDetail, false) != DetailPaneVisible(mobileShowDetail, false)
    ensures DetailPaneVisible(mobileShowDetail, false) <==> mobileShowDetail
  {
  }

  /** From the `lg` breakpoint up both panes are visible, whatever the flag. */
  lemma WideShowsBothPanes(mobileShowDetail: bool)
    ensures ListPaneVisible(mobileShowDetail, true) && DetailPaneVisible(mobileShowDetail, true)
  {
  }

  /**
   * What the shell puts on screen: each pane's visibility and its content, and
   * whether the detail pane's back button, the only caller of `handleBack`, is visible.
   */
  datatype Screen = Screen(
    listVisible: bool,
    list: BlogList.ListView,
    detailVisible: bool,
    detail: BlogDetail.DetailView,
    backVisible: bool)

  /**
   * The render of `BlogApp` for the given selection state, layout width and
   * the states of the list query and of the detail query.
   */
  function Render(selected: Option<Blog>, mobileShowDetail: bool, wide: bool,
                  listQuery: QueryResult<seq<Blog>>, detailQuery: QueryResult<Blog>): (s: Screen)
    ensures s.listVisible == ListPaneVisible(mobileShowDetail, wide)
    ensures s.detailVisible == DetailPaneVisible(mobileShowDetail, wide)
    ensures s.list == BlogList.Render(SelectedId(selected), listQuery)
    ensures s.detail == BlogDetail.Render(SelectedId(selected), detailQuery)
    ensures s.backVisible <==> s.detailVisible && BlogDetail.OffersBack(s.detail, wide)
  {
    var id := SelectedId(selected);
    var detailVisible := DetailPaneVisible(mobileShowDetail, wide);
    var detail := BlogDetail.Render(id, detailQuery);
    Screen(ListPaneVisible(mobileShowDetail, wide), BlogList.Render(id, listQuery),
           detailVisible, detail, detailVisible && BlogDetail.OffersBack(detail, wide))
  }

  /**
   * Below `lg`, once the detail pane is shown, the way back to the list is
   * on screen exactly when the pane shows an article: the prompt, the
   * skeleton and the error panel offer no back button, and the list is hidden.
   */
  lemma NarrowBackOnlyFromArticle(selected: Option<Blog>,
                                  listQuery: QueryResult<seq<Blog>>, detailQuery: QueryResult<Blog>)
    ensures Render(selected, true, false, listQuery, detailQuery).detailVisible
    ensures !Render(selected, true, false, listQuery, detailQuery).listVisible
    ensures Render(selected, true, false, listQuery, detailQuery).backVisible
        <==> Render(selected, true, false, listQuery, detailQuery).detail.Article?
  {
  }

  /** From the `lg` breakpoint up the back button is never visible; the list pane always is. */
  lemma WideHasNoBackButton(selected: Option<Blog>, mobileShowDetail: bool,
                            listQuery: QueryResult<seq<Blog>>, detailQuery: QueryResult<Blog>)
    ensures !Render(selected, mobileShowDetail, true, listQuery, detailQuery).backVisible
    ensures Render(selected, mobileShowDetail, true, listQuery, detailQuery).listVisible
  {
  }

  /**
   * Both panes follow the same selection: the highlighted cards are exactly
   * those with the selected blog's id, and the detail query is keyed by it.
   */
  lemma PanesAgreeOnSelection(b: Blog, listQuery: QueryResult<seq<Blog>>, i: nat)
    requires BlogList.Render(SelectedId(Some(b)), listQuery).Cards?
    requires i < |listQuery.data.value|
    ensures BlogList.Render(SelectedId(Some(b)), listQuery).cards[i].isSelected
        <==> listQuery.data.value[i].id == b.id
    ensures UseBlogs.DetailQueryKey(SelectedId(Some(b))) == UseBlogs.Detail(b.id)
  {
  }

  /**
   * A selected blog whose id is the empty string is highlighted in the list,
   * but the detail pane treats the falsy id as no selection.
   */
  lemma EmptyIdSelectedButNotShown(b: Blog, blogs: seq<Blog>, detailQuery: QueryResult<Blog>)
    requires b.id == "" && |blogs| > 0 && blogs[0] == b
    ensures BlogList.Render(SelectedId(Some(b)), QueryResult(false, false, None, Some(blogs))).cards[0].isSelected
    ensures BlogDetail.Render(SelectedId(Some(b)), detailQuery) == BlogDetail.SelectPrompt
  {
  }

  /** The shell's `useState` cells. */
  class Shell {
    var selectedBlog: Option<Blog>
    var mobileShowDetail: bool

    /** Nothing selected, list pane shown. */
    constructor ()
      ensures selectedBlog == None && !mobileShowDetail
    {
      selectedBlog := None;
      mobileShowDetail := false;
    }

    /** `handleSelectBlog`: remember the blog and switch the narrow layout to the detail pane. */
    method SelectBlog(blog: Blog)
      modifies this
      ensures selectedBlog == Some(blog) && mobileShowDetail
    {
      selectedBlog := Some(blog);
      mobileShowDetail := true;
    }

    /** `handleBack`: back to the list pane; the selection is kept. */
    method Back()
      modifies this
      ensures selectedBlog == old(selectedBlog) && !mobileShowDetail
    {
      mobileShowDetail := false;
    }
  }

  /**
   * Select A, select B, go back: B stays selected, the narrow layout shows the
   * list, going back again changes nothing, and the detail pane still holds B.
   */
  method SelectSelectBack(a: Blog, b: Blog)
    returns (selected: Option<Blog>, showDetail: bool, afterSecondBack: Option<Blog>, detailId: Option<string>)
    ensures selected == Some(b) && !showDetail
    ensures ListPaneVisible(showDetail, false) && !DetailPaneVisible(showDetail, false)
    ensures afterSecondBack == selected
    ensures detailId == Some(b.id)
  {
    var app := new Shell();
    app.SelectBlog(a);
    app.SelectBlog(b);
    app.Back();
    selected, showDetail := app.selectedBlog, app.mobileShowDetail;
    app.Back();
    afterSecondBack := app.selectedBlog;
    detailId := SelectedId(app.selectedBlog);
  }

  /**
   * Below `lg`, selecting a blog whose id is the empty string is a dead end:
   * the detail pane shows the prompt whatever its query reports, the list is
   * hidden, and no back button is on screen.
   */
  method SelectEmptyIdIsDeadEnd(b: Blog, listQuery: QueryResult<seq<Blog>>, detailQuery: QueryResult<Blog>)
    returns (s: Screen)
    requires b.id == ""
    ensures s.detailVisible && s.detail == BlogDetail.SelectPrompt
    ensures !s.listVisible && !s.backVisible
  {
    var app := new Shell();
    app.SelectBlog(b);
    s := Render(app.selectedBlog, app.mobileShowDetail, false, listQuery, detailQuery);
  }

  /** On start, in the narrow layout, the list pane shows; the detail pane holds the prompt, no back button is visible and no card is highlighted. */
  method InitialScreen(listQuery: QueryResult<seq<Blog>>, detailQuery: QueryResult<Blog>)
    returns (s: Screen)
    ensures s.listVisible && !s.detailVisible && !s.backVisible
    ensures s.detail == BlogDetail.SelectPrompt
    ensures s.list.Cards? ==> forall i :: 0 <= i < |s.list.cards| ==> !s.list.cards[i].isSelected
  {
    var app := new Shell();
    s := Render(app.selectedBlog, app.mobileShowDetail, false, listQuery, detailQuery);
  }
}
