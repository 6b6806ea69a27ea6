# News feed: the feed-state machine

The repository is a single-page news-feed client. One React component, `App`
in `pages/index.js`, holds the feed's state in `useState` slots (the displayed
articles `news`, the page counter `page`, the `loading` flag, the category
filter `category`, and the create form's `newTitle`, `newContent` and
`newCategory`) and changes it from event handlers: loading a page (reset or
append), switching the category filter, advancing the page when the last
article scrolls into view, liking and disliking, deleting after a
confirmation, and creating an article from the form.

This project models that state machine in Dafny:

- `casefold.dfy` (module `CaseFold`): the case-insensitive comparison the
  component writes as `a.toLowerCase() === b.toLowerCase()`.
- `articles.dfy` (module `Articles`): the `Article` record and the pure list
  steps the handlers apply: the category filter (`data.filter(...)`), the
  likes update (`prevNews.map(...)`), the removal by id
  (`prevNews.filter(...)`), and the lemmas relating them.
- `feed.dfy` (module `FeedState`): class `Feed`, whose fields are the
  `useState` slots and whose methods are the handlers. What the backend
  answers (the fetched array, the returned `likes`, whether the delete
  response was ok, the created article) and whether the user confirmed are
  method parameters; the request each handler sends is returned as a
  `Request` value.

Every handler is one atomic transition. The class keeps two invariants:
`Valid()` (the page counter is at least 1) and `ShowsOnlyCategory()` (every
displayed article passes the current filter). Each method states its whole
new state, and each method that changes `news` or `category` states whether
it preserves `ShowsOnlyCategory()`.

The filter rule is `Articles.Admits`. An article passes when the filter is
exactly `"All"` (compared case-sensitively), or when it has a tag equal to
the filter ignoring case. An article with no tag is dropped by every filter
other than `"All"`. The create handler uses the same rule against the form's
tag.

### Behaviour of the code worth knowing

- Appending a page. The code writes `[...new Set([...news, ...filteredData])]`
  (pages/index.js:36), which looks as if duplicates were meant to be
  removed. A `Set` of objects removes only identical references. Articles
  parsed from a fresh JSON response are never identical to the ones already
  held, and the list never holds one reference twice. The `Set` therefore
  removes nothing, and the append is plain concatenation. That is how it is
  modelled. `Articles.AppendCanRepeatId` shows that the held id appears twice whenever
  the page repeats, under a filter that admits it, an id the list already
  holds.
  `Articles.AppendUniqueIds` states the condition under which ids do stay
  unique.
- Like, dislike and create never read `response.ok`. A transport failure
  throws before the list is touched. A non-ok status whose body is JSON is
  handled as a success: like and dislike set `likes` of every matching
  article to `undefined`, as the body has no `likes` (pages/index.js:82-86,
  94-98), and create clears the form and, when the filter admits the form's
  tag, prepends the error body as an article (pages/index.js:137-149). Only
  the success path is modelled.
- Delete shows the failure alert only for a non-ok status. A thrown error is
  only logged (pages/index.js:113-118).
- The scroll trigger has no "not while loading" guard. While `loading` is
  true the observer effect returns early without disconnecting the previous
  observer (pages/index.js:66-67), so that observer can still advance the page.
- Create decides whether to prepend from the form's tag, not from the tag the
  server returns (pages/index.js:140-144). The displayed list stays within
  the filter when the server echoes the tag it was sent; `Feed.CreateNews`
  states that case.

## Model

| member | source | states |
|---|---|---|
| `CaseFold.LowerChar` | pages/index.js:32 | Lower-casing one character leaves no upper-case ASCII letter: it maps `A`-`Z` to `a`-`z` and keeps every other character |
| `CaseFold.Lower` | pages/index.js:32 | `toLowerCase` keeps the length and lower-cases each character in place |
| `CaseFold.EqualIgnoringCase` | pages/index.js:32 | `a.toLowerCase() === b.toLowerCase()` holds exactly when the two have the same length and agree letter by letter after folding (both directions) |
| `CaseFold.LowerIdempotent` | pages/index.js:142 | Lower-casing an already lower-cased string changes nothing, so a label and its lower-cased form are equal ignoring case: a tag the server returns as `"sports"` and the label `"Sports"` fold to the same value |
| `Articles.Admits` | pages/index.js:29-32 | The filter rule: under exactly `"All"` every article passes; under any other filter an article without a tag is dropped, and one with a tag passes exactly when tag and filter are equal lower-cased. The same rule decides the prepend at pages/index.js:140-143 |
| `Articles.FilterByCategory` | pages/index.js:28-33 | An article is kept exactly when it was fetched and the filter admits its tag, and every kept article passes the filter |
| `Articles.FilterAllIsIdentity` | pages/index.js:29-30 | With the filter `"All"` the filter keeps the whole page, so the component's shortcut of returning the page untouched under `"All"` agrees with the filter |
| `Articles.FilterAppend` | pages/index.js:31-33 | Filtering commutes with concatenation, so kept articles keep the order of the fetched page |
| `Articles.FilterKeepsAdmitted` | pages/index.js:31-33 | A list whose every article already passes the filter is left unchanged by it (the filter is idempotent) |
| `Articles.UntaggedDropped` | pages/index.js:31-33 | When the filter is not `"All"`, every kept article has a tag, and that tag lower-cased equals the filter lower-cased |
| `Articles.FilterKeepsUniqueIds` | pages/index.js:31-33 | Filtering a page whose ids are distinct keeps them distinct |
| `Articles.AppendUniqueIds` | pages/index.js:36 | Appending a filtered page keeps ids unique when the page's ids are distinct and new to the list |
| `Articles.AppendCanRepeatId` | pages/index.js:36 | The append does not remove duplicates by id: for every held list and page, if the page has an admitted article whose id the list already holds, that held id occurs at two different positions of the result |
| `Articles.SetLikes` | pages/index.js:83-87 | The list keeps its length and order. Articles with the target id take the server's `likes`. Every other field, and every other article, is unchanged |
| `Articles.SetLikesLastWins` | pages/index.js:95-99 | Of two updates to the same article the later server value wins |
| `Articles.SetLikesAbsent` | pages/index.js:84-86 | An update for an id not in the list leaves the list unchanged |
| `Articles.SetLikesCommutesWithFilter` | pages/index.js:84-86 | Updating likes and then filtering gives the same list as filtering and then updating likes |
| `Articles.RemoveId` | pages/index.js:112 | Exactly the articles with another id remain, and the removed id no longer occurs |
| `Articles.RemoveIdKeepsAdmitted` | pages/index.js:112 | Removal keeps the displayed list within the filter |
| `Articles.RemoveIdAppend` | pages/index.js:112 | Removal commutes with concatenation, so the remaining articles keep their order |
| `Articles.RemoveIdShrinks` | pages/index.js:112 | The list gets shorter exactly when it held the id; if it did not, the list is unchanged |
| `FeedState.Feed.constructor` | pages/index.js:4-11 | The initial state is an empty list, page 1, not loading, filter `"All"`, and the form set to `""`, `""`, `"Headlines"`. The mount's reset load (pages/index.js:47-49) is the caller's `FetchNews(true, ...)` |
| `FeedState.Feed.BeginLoad` | pages/index.js:18-22 | The loading flag goes up. The GET asks for page 1 on a reset and for the current page otherwise |
| `FeedState.Feed.EndLoad` | pages/index.js:23-41 | A reset replaces the list with the filtered page. An append keeps the held articles as a prefix and adds the filtered page after them. A thrown error leaves the list unchanged. The loading flag goes down in every case |
| `FeedState.Feed.FetchNews` | pages/index.js:16-44 | A whole load: the request it sends, the list it leaves, and the flag back down. It preserves the category invariant |
| `FeedState.Feed.ChangeCategory` | pages/index.js:56-62 | Choosing the current filter changes nothing. Choosing another one selects it, sets page 1 and empties the list, and a reset load follows (pages/index.js:47-49) |
| `FeedState.Feed.AdvancePage` | pages/index.js:70 | The scroll trigger adds exactly 1 to the page, and the page effect then issues an append load because the page is above 1 (pages/index.js:51-53) |
| `FeedState.Feed.Like` | pages/index.js:78-88 | Posts the like for the id. The list becomes the likes update with the server's count |
| `FeedState.Feed.Dislike` | pages/index.js:90-100 | Posts the dislike for the id. The list becomes the likes update with the server's count |
| `FeedState.Feed.DeleteNews` | pages/index.js:103-119 | Nothing is sent without confirmation. On an ok status exactly the articles with the id are removed. A non-ok status shows the alert and a thrown error is only logged, and in both cases the list is unchanged |
| `FeedState.Feed.FormComplete` | pages/index.js:124 | The form passes validation exactly when title, content and tag are all non-empty |
| `FeedState.Feed.EditTitle` | pages/index.js:189 | The title field takes the typed value |
| `FeedState.Feed.EditContent` | pages/index.js:201 | The content field takes the typed value |
| `FeedState.Feed.EditCategory` | pages/index.js:213 | The tag field takes the selected value |
| `FeedState.Feed.CreateNews` | pages/index.js:122-150 | With an empty field the form is rejected and the list and form are unchanged. Otherwise the form's fields are posted. The created article is prepended exactly when the filter admits the form's tag. The form resets to `""`, `""`, `"Headlines"`, so a second submit without typing is rejected |
| `FeedState.AdmitsOwnLabelOnly` | pages/index.js:140-143 | A created article with one of the form's tags is shown under `"All"` and under its own label, and under no other label |
| `FeedState.LabelsDifferIgnoringCase` | pages/index.js:13 | No two filter labels are equal ignoring case |
| `FeedState.SportsAdmitsLowerCaseTag` | pages/index.js:140-143 | The filter `"Sports"` admits a new article tagged `"sports"` |
| `FeedState.EntertainmentRejectsSportsTag` | pages/index.js:140-143 | The filter `"Entertainment"` does not admit a new article tagged `"sports"` |

## Left out

- Network I/O is not modelled: `fetch`, the `localhost:5000` URLs and
  `response.json()` (pages/index.js:20-23, 79-82, 91-94, 107-109, 127-137).
  Replies are method parameters, and a request is a `Request` value naming
  the endpoint.
- Responses other than an array of articles are not modelled: a fetched
  page is a sequence of articles whose tag is a string or absent, and
  `FetchThrew` stands for `fetch` or `response.json()` throwing. The code
  does not check `response.ok` or the shape of the body. Under a filter
  other than `"All"` a non-array body, or a tag that is present, not null
  and not a string, makes the filter throw, which the model's `FetchThrew`
  covers; a `null` tag is dropped like a missing one (pages/index.js:32).
  Under `"All"` nothing is checked: a reset stores the body itself as the
  list (a JSON error object, say, which the render then fails on). An
  append spreads the body into the list only when it is a string or an
  array; an object, `null` or a number is not iterable, so the spread
  throws and the list stays as it was, which is the model's `FetchThrew`
  (pages/index.js:29-30, 36). The lists a reset or a string body leaves
  are not representable in the model.
- Non-ok responses to like, dislike and create are not told apart from
  success by the code, and the model does not represent them: the model's
  `likes` is always a number and `created` is always an article.
- `IntersectionObserver` and `document.querySelector` are not modelled
  (pages/index.js:65-75). That includes the observer's set-up and teardown
  and the rule that it is armed only when the list is non-empty. Only the
  resulting page increment is kept, as `Feed.AdvancePage`.
- `window.confirm` is a boolean parameter. `alert` is modelled as a rejected
  create (no request) or the `FailureAlert` delete outcome. `console.log` and
  `console.error` are dropped.
- The JSX rendering and the styles are not modelled (pages/index.js:152-271).
- React's effects are not run by the model. On mount the category effect
  runs a reset load (pages/index.js:47-49), so the caller runs
  `FetchNews(true, ...)` after the constructor. `ChangeCategory` returns
  whether the reset load follows and `AdvancePage` returns whether the
  append load follows. The caller then runs `FetchNews`.
- Asynchronous interleaving is not modelled: each handler is one atomic
  step. That leaves out stale responses arriving after a later category or
  page change. It also leaves out `fetchNews` appending to the `news` it
  captured when it was created, not to the latest list (pages/index.js:43).
- Like, dislike and create are modelled only on their success path, because
  the component has no error handling for them; a thrown request leaves the
  state as it was.
- CaseFold.Lower: folds only ASCII letters. JavaScript's `toLowerCase`
  folds all Unicode letters, so non-ASCII tags that differ only in case are
  not equal in the model.
- Articles.Article: `likes` is an unbounded integer and an id is an
  integer. JSON numbers and string ids are not modelled separately.
