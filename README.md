# BlogSpace client core, modelled in Dafny

BlogSpace is a single-page client for reading and writing short articles
("blogs") served by a remote collection endpoint. Almost all of it is
presentation. What is left once rendering, HTTP and the query library are
put aside is a small sequential core. This project models that core and
proves its properties:

- **Creation form** (`CreateBlogForm`, create_blog_form.dfy). The form's
  local state is a class with the dialog's `open` flag and five fields.
  The model covers:
  - the category toggle (remove every occurrence, or append);
  - `isValid`, which tests the fields after `trim()`;
  - the submit guard, which tests the fields untrimmed;
  - the create payload, with its default cover image;
  - the transitions of open, edit, toggle, reset, cancel, and submit (success or failure).
- **Shell** (`BlogApp`, blog_app.dfy). `selectedBlog` and
  `mobileShowDetail` live in a class with the select and back events. Pure
  functions give:
  - each pane's visibility, for narrow and wide layouts;
  - the selected id handed to both panes;
  - the composed screen.
- **Detail pane** (`BlogDetail`, blog_detail.dfy): the dispatch over the id
  and the query state, the category badge styles with their fallback, the
  paragraph split on blank lines, and the `#tag` footer labels.
- **List pane** (`BlogList`, blog_list.dfy): the dispatch over the query
  state, the five skeleton cards, one card per blog in fetched order, and
  the per-card highlight.
- **Query keys** (`UseBlogs`, use_blogs.dfy): `blogKeys.all` and
  `blogKeys.detail`, the key and `enabled` rule of the detail query, and the
  keys a create invalidates.
- Shared pieces: `Wrappers` (Option), `BlogTypes` (the article, the create
  input, a thrown value, the observed state of a query, JavaScript
  truthiness of `string | null`, the error-message rule) and `Text`. `Text`
  holds `trim` with the ECMAScript whitespace set, ASCII `toLowerCase`, and
  `split`/`join` on `"\n\n"`.

Query state is an input to the model: `isLoading`, `isError`, `error` and
`data` arrive as a `QueryResult`. The outcome of the remote create call is
a boolean parameter of `Form.Submit`. The layout width (below or above the
`lg` breakpoint) is a boolean parameter of the pane-visibility predicates.

Behaviour worth knowing, as the code has it:
- `isValid` trims the text fields, but the submit guard only tests them for
  emptiness. A whitespace-only title therefore gets past the guard even
  though the form is not valid (`BlankTitlePassesGuard`). The Publish
  button is disabled in that state, so this matters only for submits that
  bypass the button. This is not claimed as a defect.
- "No selection" means a falsy id: `null` or `""`. The detail query is then
  disabled, and the detail pane shows its prompt. A blog whose id is `""`
  is highlighted in the list, but the detail pane shows the prompt for it
  (`EmptyIdSelectedButNotShown`).
- The only control that calls `handleBack` is the "Back to articles"
  button (BlogDetail.tsx:117-126). It is part of the article screen and
  hidden from `lg` up. Below `lg`, once a blog is selected the list pane is
  hidden, so while the detail pane shows the prompt, the skeleton or the
  error panel nothing on screen leads back to the list
  (`NarrowBackOnlyFromArticle`). For a blog with id `""` this is permanent:
  the pane always shows the prompt (`SelectEmptyIdIsDeadEnd`).
- The category buttons follow the fixed category order. The row of selected
  badges under them (CreateBlogForm.tsx:139-147) follows selection order.
  Toggling a selected category off and on again moves it to the end
  (`ToggleTwicePresent`).
- The detail pane shows the same prompt for "no id" and for "loaded, but no
  data".
- `onSuccess` is an optional prop of the form, and the header
  (Header.tsx:41) mounts the form without it. A successful publish there
  notifies nobody (`PublishSession`); `Form.Submit` takes the prop's
  presence as a parameter.
- Only the category buttons toggle the selection, each with one of the
  available categories. The selection therefore never holds a duplicate
  or an unknown category, which `Form.Valid` states as the class invariant.

## Model

| member | source | states |
|---|---|---|
| `Text.TrimStart` | src/components/blog/CreateBlogForm.tsx:83-85 | the result is the suffix that starts at the first non-whitespace character; everything dropped is ECMAScript whitespace |
| `Text.TrimEnd` | src/components/blog/CreateBlogForm.tsx:83-85 | the result is the prefix that ends at the last non-whitespace character; everything dropped is whitespace |
| `Text.Trim` | src/components/blog/CreateBlogForm.tsx:83-85 | `s.trim()`: the leading whitespace cut off, then the trailing. `TrimEmptyIff` proves what the form relies on: the result is empty exactly when every character is whitespace |
| `Text.TrimEmptyIff` | src/components/blog/CreateBlogForm.tsx:82-86 | `s.trim()` is non-empty exactly when `s` has a non-whitespace character |
| `Text.Lower` | src/components/blog/BlogDetail.tsx:201 | `toLowerCase` keeps the length and maps each character by the ASCII lower-case rule |
| `Text.Split` | src/components/blog/BlogDetail.tsx:188 | `split("\n\n")` always yields at least one segment |
| `Text.JoinSplit` | src/components/blog/BlogDetail.tsx:188-192 | joining the segments with `"\n\n"` gives back the content |
| `Text.SplitSegmentsHaveNoBreak` | src/components/blog/BlogDetail.tsx:188-192 | no segment contains the separator, so every blank line was cut |
| `Text.SplitCutsAtFirstBreak` | src/components/blog/BlogDetail.tsx:188 | `split` cuts at the leftmost separator: none starts inside the first segment; with more segments one starts right after it and the rest is the split of the text behind it; a single segment is the whole text |
| `Text.SplitWithoutBreak` | src/components/blog/BlogDetail.tsx:188-192 | content without a blank line is a single paragraph |
| `BlogTypes.IsTruthy` | src/components/blog/BlogDetail.tsx:80 | JavaScript truthiness of a `string` or `null`: present and non-empty. `UseBlogs.DetailEnabledIff` and `BlogDetail.Render` state its consequences |
| `BlogTypes.ErrorText` | src/components/blog/BlogDetail.tsx:100 | an `Error` yields its message; no error or a non-Error value yields the fallback text |
| `UseBlogs.All` | src/hooks/useBlogs.ts:6 | the list key is the one-element array `["blogs"]` |
| `UseBlogs.Detail` | src/hooks/useBlogs.ts:7 | a detail key strictly extends `all` by exactly the id |
| `UseBlogs.ListQueryKey` | src/hooks/useBlogs.ts:12 | the list query is keyed by `blogKeys.all`. `CreateInvalidatesList` proves a successful create passes this key to `invalidateQueries` and that it is no detail key |
| `UseBlogs.DetailQueryKey` | src/hooks/useBlogs.ts:19 | the detail query is keyed by `blogKeys.detail(id ?? "")`. `NullIdKey` proves a null id shares the key of `""` and a present id gets its own key |
| `UseBlogs.DetailEnabled` | src/hooks/useBlogs.ts:21 | `enabled: !!id`. `DetailEnabledIff` proves it holds exactly for a present, non-empty id |
| `UseBlogs.DetailInjective` | src/hooks/useBlogs.ts:6-7 | detail keys are equal iff their ids are equal, and no detail key equals the list key |
| `UseBlogs.DetailEnabledIff` | src/hooks/useBlogs.ts:21 | the detail query is enabled iff the id is present and non-empty |
| `UseBlogs.NullIdKey` | src/hooks/useBlogs.ts:19-21 | a null id uses `detail("")`, the same key as the id `""`, and neither is enabled; a present id uses its own key |
| `UseBlogs.InvalidatedByCreate` | src/hooks/useBlogs.ts:30-32 | a successful create passes exactly the list key to `invalidateQueries`; a failed one passes nothing |
| `UseBlogs.CreateInvalidatesList` | src/hooks/useBlogs.ts:10-32 | the invalidated key is the one the list query uses, and it is no detail key |
| `CreateBlogForm.Without` | src/components/blog/CreateBlogForm.tsx:77 | the filter removes every occurrence of the category, keeps every other member, never grows, and is the identity when the category is absent |
| `CreateBlogForm.Toggle` | src/components/blog/CreateBlogForm.tsx:75-79 | `toggleCategory`: remove every occurrence of a selected category, else append it. Its properties are proved by `ToggleFlipsMembership`, `ToggleKeepsOthersInOrder`, `ToggleKeepsNoDuplicates`, `ToggleTwiceAbsent` and `ToggleTwicePresent` |
| `CreateBlogForm.ToggleFlipsMembership` | src/components/blog/CreateBlogForm.tsx:74-80 | toggling flips the membership of the toggled category and of no other |
| `CreateBlogForm.ToggleKeepsOthersInOrder` | src/components/blog/CreateBlogForm.tsx:75-79 | the other categories keep their relative order: with the toggled one filtered out, before and after are equal |
| `CreateBlogForm.ToggleKeepsNoDuplicates` | src/components/blog/CreateBlogForm.tsx:75-79 | a duplicate-free selection stays duplicate-free |
| `CreateBlogForm.ToggleTwiceAbsent` | src/components/blog/CreateBlogForm.tsx:76-78 | toggling an absent category twice gives back exactly the original list |
| `CreateBlogForm.ToggleTwicePresent` | src/components/blog/CreateBlogForm.tsx:76-78 | toggling a present category twice keeps it selected but moves it to the end |
| `CreateBlogForm.IsValid` | src/components/blog/CreateBlogForm.tsx:82-86 | `isValid`: the trimmed title, description and content are non-empty and a category is selected. `IsValidIff` characterises it without `trim` |
| `CreateBlogForm.PassesGuard` | src/components/blog/CreateBlogForm.tsx:53 | the early return of `handleSubmit` is skipped exactly when the untrimmed text fields are non-empty and a category is selected. `ValidPassesGuard` and `BlankTitlePassesGuard` relate it to `IsValid` |
| `CreateBlogForm.IsValidIff` | src/components/blog/CreateBlogForm.tsx:82-86 | the form is valid iff title, description and content each have a non-whitespace character and a category is selected |
| `CreateBlogForm.ValidPassesGuard` | src/components/blog/CreateBlogForm.tsx:53-55 | a valid form always passes the submit guard |
| `CreateBlogForm.BlankTitlePassesGuard` | src/components/blog/CreateBlogForm.tsx:53-55 | a non-empty, whitespace-only title passes the guard when the other fields are filled in, while the form is not valid |
| `CreateBlogForm.Payload` | src/components/blog/CreateBlogForm.tsx:58-64 | title, description, content and categories are passed unchanged; the cover is the entered one if non-empty, else the fixed Pexels URL |
| `CreateBlogForm.GuardedPayloadIsComplete` | src/components/blog/CreateBlogForm.tsx:53-64 | a payload that gets past the guard has non-empty text fields, a non-empty cover and at least one category |
| `CreateBlogForm.PublishDisabled` | src/components/blog/CreateBlogForm.tsx:221 | Publish is disabled when the form is not valid or a create is pending. `EnabledPublishSubmits` proves an enabled Publish gets past the guard |
| `CreateBlogForm.EnabledPublishSubmits` | src/components/blog/CreateBlogForm.tsx:219-221 | when Publish is enabled nothing is pending and a submit gets past the guard |
| `CreateBlogForm.CategoryButtons` | src/components/blog/CreateBlogForm.tsx:120-137 | one button per available category in the fixed order, selected iff the category is in the selection |
| `CreateBlogForm.ButtonsIgnoreSelectionOrder` | src/components/blog/CreateBlogForm.tsx:120-137 | the buttons depend only on which categories are selected, not on selection order |
| `CreateBlogForm.Form.Valid` | src/components/blog/CreateBlogForm.tsx:120-137 | the class invariant: the selection has no duplicate and holds only available categories, since only the category buttons toggle it. Every method of `Form` keeps it |
| `CreateBlogForm.Form.constructor` | src/components/blog/CreateBlogForm.tsx:33-38 | the dialog starts closed with every field empty, and the invariant `Valid` holds |
| `CreateBlogForm.Form.OpenDialog` | src/components/blog/CreateBlogForm.tsx:89-95 | the trigger opens the dialog and keeps the fields |
| `CreateBlogForm.Form.Cancel` | src/components/blog/CreateBlogForm.tsx:212-218 | Cancel closes the dialog without clearing any field |
| `CreateBlogForm.Form.EditTitle` | src/components/blog/CreateBlogForm.tsx:111 | the title becomes the typed value; nothing else changes |
| `CreateBlogForm.Form.EditDescription` | src/components/blog/CreateBlogForm.tsx:186 | the description becomes the typed value; nothing else changes |
| `CreateBlogForm.Form.EditContent` | src/components/blog/CreateBlogForm.tsx:201 | the content becomes the typed value; nothing else changes |
| `CreateBlogForm.Form.EditCoverImage` | src/components/blog/CreateBlogForm.tsx:160 | the cover URL becomes the typed value; nothing else changes |
| `CreateBlogForm.Form.ToggleCategory` | src/components/blog/CreateBlogForm.tsx:120-137 | a click on the button of an available category replaces the selection by its toggle and keeps `Valid`; nothing else changes |
| `CreateBlogForm.Form.ResetForm` | src/components/blog/CreateBlogForm.tsx:42-48 | all five fields become empty and `open` is untouched |
| `CreateBlogForm.Form.Submit` | src/components/blog/CreateBlogForm.tsx:50-72 | sends the payload iff the guard passes. Success clears every field, closes the dialog and passes the list key to `invalidateQueries`. `onSuccess` is called iff the create succeeded and the parent passed that optional prop. Failure, or a blocked submit, changes nothing |
| `CreateBlogForm.PublishSession` | src/components/layout/Header.tsx:41 | in the form as the header mounts it, without `onSuccess`, a filled-in form published successfully sends the entered values with the default cover, ends closed and empty, and notifies nobody |
| `CreateBlogForm.FailedPublishSession` | src/components/blog/CreateBlogForm.tsx:69-71 | a failed publish keeps the dialog open and every entered value |
| `BlogList.BuildCards` | src/components/blog/BlogList.tsx:59-66 | one card per blog in the fetched order, highlighted iff its id equals the selected id |
| `BlogList.Render` | src/components/blog/BlogList.tsx:16-66 | skeletons while loading (exactly 5), else the error panel on error, else the empty state iff data is missing or empty, else the cards |
| `BlogList.CardsKeepOrder` | src/components/blog/BlogList.tsx:59-66 | the card list has the length of the data, and a click on card i reports blog i |
| `BlogList.Click` | src/components/blog/BlogList.tsx:64 | a card's click hands its own blog to `onSelectBlog`. `CardsKeepOrder` proves a click on card i reports blog i |
| `BlogList.NoSelectionHighlightsNothing` | src/components/blog/BlogList.tsx:63 | a null selection highlights no card |
| `BlogList.AtMostOneHighlighted` | src/components/blog/BlogList.tsx:63 | with unique ids at most one card is highlighted |
| `BlogList.EmptyCollectionIsNotAnError` | src/components/blog/BlogList.tsx:43-55 | an empty fetched collection renders the empty state |
| `BlogDetail.CategoryVariant` | src/components/blog/BlogDetail.tsx:144 | the lookup `categoryVariants[cat]` with `"secondary"` as fallback: the table entry if present, else the fallback. `CategoryVariantIsLowerName` proves what the table holds |
| `BlogDetail.CategoryVariantIsLowerName` | src/components/blog/BlogDetail.tsx:13-21 | each of the seven known categories is styled by its lower-cased name; any other string gets `secondary` |
| `BlogDetail.FormCategoriesAreStyled` | src/components/blog/CreateBlogForm.tsx:18-26 | the categories the form offers are exactly the keys of the style table |
| `BlogDetail.Badges` | src/components/blog/BlogDetail.tsx:141-149 | one badge per category, in category order, with that category's style |
| `BlogDetail.Tags` | src/components/blog/BlogDetail.tsx:199-203 | one tag per category, in category order, reading `#` followed by the lower-cased category |
| `BlogDetail.KnownTagNamesVariant` | src/components/blog/BlogDetail.tsx:199-203 | for a known category the tag is `#` followed by its badge style |
| `BlogDetail.ArticleOf` | src/components/blog/BlogDetail.tsx:139-203 | the article shows the fetched blog with its badges, its paragraphs and its tags |
| `BlogDetail.ParagraphsRebuildContent` | src/components/blog/BlogDetail.tsx:188-192 | the article has at least one paragraph, no paragraph contains a blank line, and their join is the content |
| `BlogDetail.OffersBack` | src/components/blog/BlogDetail.tsx:117-126 | the "Back to articles" button is part of the article screen only and is `lg:hidden`. `BlogApp.NarrowBackOnlyFromArticle` and `BlogApp.WideHasNoBackButton` state its consequences |
| `BlogDetail.Render` | src/components/blog/BlogDetail.tsx:77-111 | a falsy id shows the prompt before anything else; otherwise loading, then error (with the error text), then missing data, then the article |
| `BlogDetail.DisabledQueryShowsPrompt` | src/components/blog/BlogDetail.tsx:80-82 | whenever the detail query is disabled the pane shows the prompt, whatever the query reports |
| `BlogDetail.ArticleShowsFetchedBlog` | src/components/blog/BlogDetail.tsx:109-115 | a shown article implies the query was enabled, and it is the blog the query returned |
| `BlogApp.SelectedId` | src/App.tsx:59 | the id is present iff a blog is selected, and is that blog's id |
| `BlogApp.ListPaneVisible` | src/App.tsx:49-51 | the list pane is `hidden lg:block` while the detail is shown, else `block`. `NarrowShowsExactlyOnePane` and `WideShowsBothPanes` state the layouts |
| `BlogApp.DetailPaneVisible` | src/App.tsx:68-70 | the detail pane is `hidden lg:block` while the detail is not shown, else `block`. Same lemmas as the list pane |
| `BlogApp.NarrowShowsExactlyOnePane` | src/App.tsx:48-70 | in the narrow layout exactly one pane is visible, the detail one iff `mobileShowDetail` |
| `BlogApp.WideShowsBothPanes` | src/App.tsx:48-70 | in the wide layout both panes are visible |
| `BlogApp.Render` | src/App.tsx:46-76 | both panes are rendered from the same selected id, each with its visibility rule; the back button is visible iff the detail pane is visible and offers it |
| `BlogApp.NarrowBackOnlyFromArticle` | src/components/blog/BlogDetail.tsx:117-126 | below `lg`, with the detail pane shown, the list is hidden and the back button is visible exactly when the pane shows an article |
| `BlogApp.WideHasNoBackButton` | src/components/blog/BlogDetail.tsx:117-126 | from `lg` up the back button is never visible and the list pane always is |
| `BlogApp.PanesAgreeOnSelection` | src/App.tsx:58-73 | the highlighted cards are exactly those with the selected blog's id, and the detail query is keyed by that id |
| `BlogApp.EmptyIdSelectedButNotShown` | src/App.tsx:59-73 | a selected blog with id `""` is highlighted in the list while the detail pane shows the prompt |
| `BlogApp.SelectEmptyIdIsDeadEnd` | src/App.tsx:21-24 | below `lg`, after selecting a blog with id `""` the detail pane shows the prompt, the list is hidden and no back button is visible: nothing on screen returns to the list |
| `BlogApp.Shell.constructor` | src/App.tsx:18-19 | the shell starts with no selection and the detail pane not shown |
| `BlogApp.Shell.SelectBlog` | src/App.tsx:21-24 | selecting sets the selection to the blog and shows the detail pane |
| `BlogApp.Shell.Back` | src/App.tsx:26-28 | back hides the detail pane and keeps the selection, so it is idempotent |
| `BlogApp.SelectSelectBack` | src/App.tsx:21-28 | select A, select B, back: B stays selected, the narrow layout shows the list, a second back changes nothing, and the detail pane still holds B's id |
| `BlogApp.InitialScreen` | src/App.tsx:18-19 | at start the narrow layout shows the list, the detail pane holds the prompt, no back button is visible and no card is highlighted |

## Left out

- src/api/blogs.ts: the HTTP calls, JSON encoding and the wall-clock `date` stamp are external. A create is an abstract call whose success or failure is the `createSucceeds` parameter.
- Query library behaviour: staleness, retries, request deduplication and in-flight loading. The model keeps only the two configuration constants (`BlogApp.StaleTimeMs`, `BlogApp.QueryRetries`). Query state is an input.
- BlogApp.Shell.Back: the model lets the handler fire in any state, while the source offers its button only on the article screen below `lg`. When that button is visible is stated separately, by `Screen.backVisible` and `NarrowBackOnlyFromArticle`. `SelectSelectBack` calls `Back` without first showing B's article.
- UseBlogs.InvalidatedByCreate: names the key passed to `invalidateQueries`. The library's prefix matching, which also marks every `["blogs", id]` detail entry stale, is library behaviour and is not modelled.
- The "Try again" buttons call the query's `refetch`, which is a foreign call. The error screens are modelled; the refetch is not.
- `estimateReadTime`, `formatDate` and `getRelativeTime` from `@/lib/utils`: the module `@/lib/utils` is not part of this model. The read-time label and the formatted dates are not modelled.
- BlogDetail.CategoryVariant: the lookup is modelled as a plain table. JavaScript would also find inherited object properties such as `"constructor"`, which are truthy and would not fall back to `secondary`.
- Text.Lower: ASCII letters only. The Unicode case mapping of `toLowerCase` is not modelled.
- CreateBlogForm.Form.Submit: modelled as one atomic step. Several things are not modelled:
  - the `await`;
  - a second submit while one is pending;
  - the mutation's own `isPending` and `isError` flags. `isPending` is a parameter of `PublishDisabled`, and the inline failure message (CreateBlogForm.tsx:230-234) reads the mutation's flag.
- Dialog wiring: `onOpenChange` closing by overlay click or Escape is not modelled. It has the effect of `Cancel`.
- Browser and presentation side effects are not modelled: the clipboard share, hiding a broken preview image, `console.error`, the cover preview shown for a non-empty URL, the description character counter, the selected-badge row, styling, the hero, the footer, `Header.tsx`, `BlogCardSkeleton.tsx` and `BlogCard.tsx`. `BlogCard.tsx` duplicates the style table of `BlogDetail.tsx`, which is modelled once.
