/**
 * The query hooks of src/hooks/useBlogs.ts, reduced to what they decide:
 * which cache key each query uses, when the detail query runs, and which key
 * a create invalidates. Fetching, caching and invalidation themselves belong
 * to the query library and are not modelled.
 */
module UseBlogs {
  import opened Wrappers
  import opened BlogTypes

  /** A query key: an array of strings. */
  type QueryKey = seq<string>

  /** `blogKeys.all` */
  function All(): (key: QueryKey)
    ensures |key| == 1 && key[0] == "blogs"
  {
    ["blogs"]
  }

  /** `blogKeys.detail(id)`: extends `all` by exactly the id. */
  function Detail(id: string): (key: QueryKey)
    ensures All() < key
    ensures |key| == |All()| + 1 && key[|key| - 1] == id
  {
    All() + [id]
  }

  /** Different ids give different detail keys, and no detail key is the list key. */
  lemma DetailInjective(a: string, b: string)
    ensures Detail(a) == Detail(b) <==> a == b
    ensures Detail(a) != All()
  {
    assert Detail(a)[1] == a && Detail(b)[1] == b;
  }

  /** The key of `useBlogs`. */
  function ListQueryKey(): QueryKey {
    All()
  }

  /** The key of `useBlog(id)`: `blogKeys.detail(id ?? "")`. */
  function DetailQueryKey(id: Option<string>): QueryKey {
    Detail(id.GetOr(""))
  }

  /** `enabled: !!id` of `useBlog(id)`. */
  predicate DetailEnabled(id: Option<string>) {
    IsTruthy(id)
  }

  /** The detail query runs exactly for a present, non-empty id. */
  lemma DetailEnabledIff(id: Option<string>)
    ensures DetailEnabled(id) <==> (id.Some? && |id.value| > 0)
  {
  }

  /**
   * A null id shares its key with the id "", and neither runs; every
   * present id runs under its own detail key.
   */
  lemma NullIdKey(id: Option<string>)
    ensures DetailQueryKey(None) == Detail("") == DetailQueryKey(Some(""))
    ensures !DetailEnabled(None) && !DetailEnabled(Some(""))
    ensures id.Some? ==> DetailQueryKey(id) == Detail(id.value)
  {
  }

  /** The keys `useCreateBlog` passes to `invalidateQueries` when the create call settles. */
  function InvalidatedByCreate(succeeded: bool): (keys: seq<QueryKey>)
    ensures succeeded ==> keys == [ListQueryKey()]
    ensures !succeeded ==> keys == []
  {
    if succeeded then [All()] else []
  }

  /** A successful create passes only the list query's key to `invalidateQueries`, and that key is no detail key. */
  lemma CreateInvalidatesList(id: string)
    ensures ListQueryKey() in InvalidatedByCreate(true)
    ensures Detail(id) !in InvalidatedByCreate(true)
    ensures InvalidatedByCreate(false) == []
  {
    DetailInjective(id, id);
  }
}
