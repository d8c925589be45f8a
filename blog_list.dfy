/**
 * The list pane of src/components/blog/BlogList.tsx: which screen it shows
 * for the state of the list query, and the cards it builds.
 */
module BlogList {
  import opened Wrappers
  import opened BlogTypes

  /** Number of placeholder cards while loading (`Array.from({ length: 5 })`). */
  const SkeletonCount: nat := 5

  /** Message when the list query failed with something that is not an `Error`. */
  const ListErrorFallback: string := "Something went wrong"

  /** One summary card: the blog it shows and whether it is highlighted. */
  datatype Card = Card(blog: Blog, isSelected: bool)

  /** The four screens of the list pane. */
  datatype ListView =
    | Skeletons(count: nat)
    | ListError(message: string)   // shown with a "Try again" button that refetches
    | NoBlogs
    | Cards(cards: seq<Card>)

  /** `blogs.map(...)`: one card per blog, same order; highlighted when `selectedBlogId === blog.id`. */
  function BuildCards(blogs: seq<Blog>, selectedId: Option<string>): (cards: seq<Card>)
    ensures |cards| == |blogs|
    ensures forall i :: 0 <= i < |blogs| ==>
      cards[i].blog == blogs[i] &&
      (cards[i].isSelected <==> selectedId == Some(blogs[i].id))
  {
    if blogs == [] then []
    else [Card(blogs[0], selectedId == Some(blogs[0].id))] + BuildCards(blogs[1..], selectedId)
  }

  /** The render of `BlogList`: loading first, then error, then empty, then the cards. */
  function Render(selectedId: Option<string>, q: QueryResult<seq<Blog>>): (v: ListView)
    ensures v.Skeletons? <==> q.isLoading
    ensures v.Skeletons? ==> v.count == SkeletonCount
    ensures v.ListError? <==> !q.isLoading && q.isError
    ensures v.ListError? ==> v.message == ErrorText(q.error, ListErrorFallback)
    ensures v.NoBlogs? <==> !q.isLoading && !q.isError && (q.data.None? || |q.data.value| == 0)
    ensures v.Cards? <==> !q.isLoading && !q.isError && q.data.Some? && |q.data.value| > 0
    ensures v.Cards? ==> v.cards == BuildCards(q.data.value, selectedId)
  {
    if q.isLoading then Skeletons(SkeletonCount)
    else if q.isError then ListError(ErrorText(q.error, ListErrorFallback))
    else if q.data.None? || |q.data.value| == 0 then NoBlogs
    else Cards(BuildCards(q.data.value, selectedId))
  }

  /** The blog a click on a card reports upward (`onClick={() => onSelectBlog(blog)}`). */
  function Click(card: Card): Blog {
    card.blog
  }

  /** The cards show the fetched blogs in the order they came, and a click reports the clicked card's blog. */
  lemma CardsKeepOrder(selectedId: Option<string>, q: QueryResult<seq<Blog>>, i: nat)
    requires Render(selectedId, q).Cards?
    requires i < |q.data.value|
    ensures |Render(selectedId, q).cards| == |q.data.value|
    ensures Click(Render(selectedId, q).cards[i]) == q.data.value[i]
  {
  }

  /** With no selection no card is highlighted. */
  lemma NoSelectionHighlightsNothing(blogs: seq<Blog>)
    ensures forall i :: 0 <= i < |blogs| ==> !BuildCards(blogs, None)[i].isSelected
  {
  }

  /** Blog ids are unique in the list. */
  predicate UniqueIds(blogs: seq<Blog>) {
    forall i, j :: 0 <= i < j < |blogs| ==> blogs[i].id != blogs[j].id
  }

  /** With unique ids at most one card is highlighted. */
  lemma AtMostOneHighlighted(blogs: seq<Blog>, selectedId: Option<string>, i: nat, j: nat)
    requires UniqueIds(blogs)
    requires i < |blogs| && j < |blogs|
    ensures BuildCards(blogs, selectedId)[i].isSelected && BuildCards(blogs, selectedId)[j].isSelected
      ==> i == j
  {
  }

  /** An empty collection renders the empty state, not an error. */
  lemma EmptyCollectionIsNotAnError(selectedId: Option<string>, err: Option<Thrown>)
    ensures Render(selectedId, QueryResult(false, false, err, Some([]))) == NoBlogs
  {
  }
}
