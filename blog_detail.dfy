/**
 * The detail pane of src/components/blog/BlogDetail.tsx: which screen it
 * shows for the selected id and the state of the detail query, and the
 * parts of the article it derives (badges, paragraphs, tags).
 */
module BlogDetail {
  import opened Wrappers
  import opened BlogTypes
  import opened Text
  import UseBlogs
  import CreateBlogForm

  /** `categoryVariants`: the badge style of each known category. */
  const CategoryVariants: map<string, string> := map[
    "FINANCE" := "finance",
    "TECH" := "tech",
    "CAREER" := "career",
    "EDUCATION" := "education",
    "REGULATIONS" := "regulations",
    "LIFESTYLE" := "lifestyle",
    "SKILLS" := "skills"]

  /** Style of a category not in the table. */
  const FallbackVariant: string := "secondary"

  /** Message when the detail query failed with something that is not an `Error`. */
  const DetailErrorFallback: string := "Something went wrong while loading this blog"

  /** `categoryVariants[cat] || "secondary"` */
  function CategoryVariant(cat: string): string {
    if cat in CategoryVariants then CategoryVariants[cat] else FallbackVariant
  }

  /** Each known category is styled by its own lower-case name; every other string falls back. */
  lemma CategoryVariantIsLowerName(cat: string)
    ensures cat in CategoryVariants ==> CategoryVariant(cat) == Lower(cat)
    ensures cat !in CategoryVariants ==> CategoryVariant(cat) == FallbackVariant
  {
    if cat in CategoryVariants {
      LowerOfKnown(cat);
    }
  }

  /** The lower-case form of each key of the table is its value. */
  lemma LowerOfKnown(cat: string)
    requires cat in CategoryVariants
    ensures Lower(cat) == CategoryVariants[cat]
  {
    KeysAreCapitalsOfValues(cat);
    LowerOfCapitals(cat, CategoryVariants[cat]);
  }

  /** `t` is the word `s` with every capital letter moved 32 code points up. */
  predicate IsCapitalsOf(s: string, t: string) {
    |s| == |t| && forall i :: 0 <= i < |s| ==> 'A' <= s[i] <= 'Z' && t[i] as int == s[i] as int + 32
  }

  /** Every key of the table is written in capitals, and its value is the same word in small letters. */
  lemma KeysAreCapitalsOfValues(cat: string)
    requires cat in CategoryVariants
    ensures IsCapitalsOf(cat, CategoryVariants[cat])
  {
  }

  /** A word of capitals lower-cases to its small-letter counterpart. */
  lemma LowerOfCapitals(s: string, t: string)
    requires IsCapitalsOf(s, t)
    ensures Lower(s) == t
  {
    assert |Lower(s)| == |t|;
    forall i | 0 <= i < |s| ensures Lower(s)[i] == t[i] {
      assert Lower(s)[i] == LowerChar(s[i]);
    }
  }

  /** The categories the creation form offers are exactly the keys of the table. */
  lemma FormCategoriesAreStyled(cat: string)
    ensures cat in CreateBlogForm.AvailableCategories <==> cat in CategoryVariants
  {
  }

  /** A category badge: its text and its style. */
  datatype Badge = Badge(text: string, variant: string)

  /** `blog.category.map(...)` in the header: one badge per category, same order. */
  function Badges(categories: seq<string>): (badges: seq<Badge>)
    ensures |badges| == |categories|
    ensures forall i :: 0 <= i < |categories| ==>
      badges[i] == Badge(categories[i], CategoryVariant(categories[i]))
  {
    if categories == [] then []
    else [Badge(categories[0], CategoryVariant(categories[0]))] + Badges(categories[1..])
  }

  /** `blog.category.map(...)` in the footer: `"#"` and the lower-cased category, one per category, same order. */
  function Tags(categories: seq<string>): (tags: seq<string>)
    ensures |tags| == |categories|
    ensures forall i :: 0 <= i < |categories| ==>
      tags[i] == "#" + Lower(categories[i])
  {
    if categories == [] then []
    else ["#" + Lower(categories[0])] + Tags(categories[1..])
  }

  /** For a known category the footer tag reads `#` followed by the badge's style name. */
  lemma KnownTagNamesVariant(categories: seq<string>, i: nat)
    requires i < |categories| && categories[i] in CategoryVariants
    ensures Tags(categories)[i] == "#" + Badges(categories)[i].variant
  {
    CategoryVariantIsLowerName(categories[i]);
  }

  /** The parts of a loaded article the view derives from the blog. */
  datatype ArticleView = ArticleView(
    blog: Blog,
    badges: seq<Badge>,
    paragraphs: seq<string>,
    tags: seq<string>)

  /** The loaded article: badges, `content.split("\n\n")` and the footer tags. */
  function ArticleOf(blog: Blog): (a: ArticleView)
    ensures a.blog == blog
    ensures a.badges == Badges(blog.category) && a.tags == Tags(blog.category)
    ensures a.paragraphs == Split(blog.content)
  {
    ArticleView(blog, Badges(blog.category), Split(blog.content), Tags(blog.category))
  }

  /**
   * The paragraphs are the blank-line separated blocks of the content: at
   * least one, none containing a blank line, and joined back they are the content.
   */
  lemma ParagraphsRebuildContent(blog: Blog)
    ensures |ArticleOf(blog).paragraphs| >= 1
    ensures Join(ArticleOf(blog).paragraphs) == blog.content
    ensures forall k :: 0 <= k < |ArticleOf(blog).paragraphs| ==> !ContainsBreak(ArticleOf(blog).paragraphs[k])
  {
    JoinSplit(blog.content);
    SplitSegmentsHaveNoBreak(blog.content);
  }

  /** The screens of the detail pane. Falsy id and missing data both show the same prompt. */
  datatype DetailView =
    | SelectPrompt
    | DetailSkeleton
    | DetailError(message: string)   // shown with a "Try again" button that refetches
    | Article(view: ArticleView)

  /**
   * Whether the pane shows its "Back to articles" button: it is part of the
   * article screen only, and is hidden from the `lg` breakpoint up.
   */
  predicate OffersBack(v: DetailView, wide: bool) {
    v.Article? && !wide
  }

  /** The render of `BlogDetail`: the id first, then loading, then error, then missing data. */
  function Render(blogId: Option<string>, q: QueryResult<Blog>): (v: DetailView)
    ensures !IsTruthy(blogId) ==> v == SelectPrompt
    ensures v.DetailSkeleton? <==> IsTruthy(blogId) && q.isLoading
    ensures v.DetailError? <==> IsTruthy(blogId) && !q.isLoading && q.isError
    ensures v.DetailError? ==> v.message == ErrorText(q.error, DetailErrorFallback)
    ensures v.Article? <==> IsTruthy(blogId) && !q.isLoading && !q.isError && q.data.Some?
    ensures v.Article? ==> v.view == ArticleOf(q.data.value)
  {
    if !IsTruthy(blogId) then SelectPrompt
    else if q.isLoading then DetailSkeleton
    else if q.isError then DetailError(ErrorText(q.error, DetailErrorFallback))
    else if q.data.None? then SelectPrompt
    else Article(ArticleOf(q.data.value))
  }

  /** Whenever the detail query is disabled the pane shows the prompt, whatever the query reports. */
  lemma DisabledQueryShowsPrompt(blogId: Option<string>, q: QueryResult<Blog>)
    requires !UseBlogs.DetailEnabled(blogId)
    ensures Render(blogId, q) == SelectPrompt
  {
  }

  /** A shown article is the one the query returned, with its own title, description and content. */
  lemma ArticleShowsFetchedBlog(blogId: Option<string>, q: QueryResult<Blog>)
    requires Render(blogId, q).Article?
    ensures UseBlogs.DetailEnabled(blogId)
    ensures Render(blogId, q).view.blog == q.data.value
  {
  }
}
