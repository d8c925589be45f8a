/**
 * The entities the views exchange: an article as the remote API returns it,
 * the draft the creation form sends, and what a query hook exposes to a view.
 * The declaring file (src/types/blog.ts) is not part of this model; the field
 * lists follow their use in the components and in src/api/blogs.ts.
 */
module BlogTypes {
  import opened Wrappers

  /** An article ("blog"). `date` is an ISO timestamp string, kept opaque. */
  datatype Blog = Blog(
    id: string,
    title: string,
    description: string,
    content: string,
    coverImage: string,
    category: seq<string>,
    date: string)

  /** The body handed to the create mutation: a blog without `id` and `date`. */
  datatype CreateBlogInput = CreateBlogInput(
    title: string,
    description: string,
    content: string,
    coverImage: string,
    category: seq<string>)

  /** A thrown value as a view sees it: an `Error` object with its message, or anything else. */
  datatype Thrown = ErrorObject(message: string) | NonError

  /** The observed state of one query: the inputs every view dispatches on. */
  datatype QueryResult<T> = QueryResult(
    isLoading: bool,
    isError: bool,
    error: Option<Thrown>,
    data: Option<T>)

  /** JavaScript truthiness of a `string | null`: null and "" are falsy. */
  predicate IsTruthy(s: Option<string>) {
    s.Some? && s.value != ""
  }

  /**
   * `error instanceof Error ? error.message : fallback`: a missing error or a
   * thrown non-Error value yields the fallback text.
   */
  function ErrorText(error: Option<Thrown>, fallback: string): (text: string)
    ensures (error.Some? && error.value.ErrorObject?) ==> text == error.value.message
    ensures !(error.Some? && error.value.ErrorObject?) ==> text == fallback
  {
    match error
    case Some(ErrorObject(m)) => m
    case _ => fallback
  }
}
