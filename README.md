# Game catalog browser: filter, category list and view state

A Dafny model of the logic inside a small React game catalog. The page shows a
bundled list of games and lets the user do three things:

- search by text;
- filter with category buttons;
- open one game in a modal that embeds the game's page in an iframe.

The model covers:

- the category list `["All", ...new Set(categories)]` (module `Catalog`);
- the search-and-category filter (module `Catalog`), built on lower-casing and
  substring search (module `Text`) and on first-seen deduplication and
  subsequences (module `Seqs`);
- the top-level view state: search text, selected category, active game
  (class `App.View`);
- the modal: its content and its reload counter, the iframe's identity key
  (module `GameModal`, class `GameModal.Modal`).

Each event handler is one atomic method call. The two state updates inside
"Clear all filters" form one method, because React applies them together. The
catalog is an arbitrary `seq<Game>`. `Option` lives in `Wrappers`.

The modal is mounted once for the whole session (`src/App.jsx:172-175`). It is
therefore a `const modal` field of `App.View`, made in the view's constructor
and never replaced. Only `GameModal.Modal.Reload` changes its key. The frame
conditions of `Play` and `Close` show that choosing another game or closing
the modal keeps the key. The code keeps one counter for the modal's whole
life, not one per game, and the model does the same.

The category list is modelled as written: the literal "All" is not removed
from the stored categories. `Catalog.CategoriesRepeatAll` proves that the list
has a repeated entry exactly when some game is stored with category "All".

Two preconditions come from the only call sites in the source:

- `App.View.Play` requires the game to be in the filtered grid, because the
  only caller is a card rendered from `filteredGames` (`src/App.jsx:118-122`).
- `App.View.SelectCategory` requires a listed category, because the only
  caller is a category button (`src/App.jsx:98-101`).

Together, these keep `App.View.Valid`: the selected category is always a
button, and the active game always comes from the catalog.

## Model

| member | source | states |
|---|---|---|
| `Text.Lower` | src/App.jsx:22-23 | a capital 'A'..'Z' becomes the letter 32 code points on ('A' to 'a'); any other character is unchanged; the result is never upper-case |
| `Text.LowerSameIgnoringCase` | src/App.jsx:22-23 | two characters lower to the same character iff they are equal or a capital and its lower-case partner |
| `Text.LowerStr` | src/App.jsx:22-23 | lowering keeps the length and lowers each character in place |
| `Text.LowerStrSameIgnoringCase` | src/App.jsx:22-23 | two strings lower to the same string iff they have equal length and agree position by position but for case |
| `Text.LowerStrIdempotent` | src/App.jsx:22-23 | lowering an already lowered string changes nothing |
| `Text.Contains` | src/App.jsx:22-23 | `includes`: a match needs the query no longer than the text, and between strings of equal length it is equality |
| `Text.ContainsEmpty` | src/App.jsx:22-23 | every string includes the empty string, as `includes("")` does |
| `Text.ContainsTransitive` | src/App.jsx:22-23 | a substring of a substring is a substring |
| `Text.ContainsLower` | src/App.jsx:22-23 | a substring stays a substring after both strings are lowered |
| `Seqs.Dedup` | src/App.jsx:16 | spreading a `Set` gives a duplicate-free sequence with exactly the input's elements |
| `Seqs.DedupFirstSeen` | src/App.jsx:16 | the deduplicated sequence orders elements by their first index in the input |
| `Seqs.FirstSeenUnique` | src/App.jsx:16 | duplicate-free, same elements and first-seen order together fix the sequence uniquely |
| `Seqs.NoDuplicatesCard` | src/App.jsx:16 | a duplicate-free sequence is as long as its set of elements |
| `Catalog.CategoriesOf` | src/App.jsx:16 | `games.map(g => g.category)`: same length, the i-th game's category at position i |
| `Catalog.Categories` | src/App.jsx:15-18 | the list starts with "All", and after that holds exactly the catalog's categories |
| `Catalog.CategoriesShape` | src/App.jsx:15-18 | the list starts with "All" and is one longer than the number of distinct categories |
| `Catalog.CategoriesCover` | src/App.jsx:16 | after position 0, every game's category appears, and nothing else does |
| `Catalog.CategoriesEachOnce` | src/App.jsx:16 | after position 0, each category appears exactly once, in order of first appearance in the catalog |
| `Catalog.CategoriesCharacterized` | src/App.jsx:16 | the list is "All" followed by the one first-seen listing of the catalog's categories |
| `Catalog.CategoriesRepeatAll` | src/App.jsx:16 | the list is duplicate-free if and only if no game is stored with category "All" |
| `Catalog.MatchesSearchCaseInsensitive` | src/App.jsx:22-23 | the search test ignores case on both sides: lowering the query, or the title and description, does not change it |
| `Catalog.EmptyQueryMatches` | src/App.jsx:22-23 | the empty query matches every game |
| `Catalog.FilterGames` | src/App.jsx:20-27 | a game is in the result iff it is in the catalog, its lowered title or description includes the lowered query, and the category is "All" or equals its own |
| `Catalog.FilterSplits` | src/App.jsx:22-25 | the two tests are independent halves of `&&`: the filter equals the query filter in "All" followed by the category filter with an empty query |
| `Catalog.FilterIsSubseq` | src/App.jsx:21 | the result is a subsequence of the catalog, in catalog order |
| `Catalog.FilterMultiplicity` | src/App.jsx:21-26 | a matching game is kept as many times as it occurs; a non-matching one not at all |
| `Catalog.FilterEverything` | src/App.jsx:22-24 | empty query and category "All" give the whole catalog unchanged |
| `Catalog.FilterCategoryExact` | src/App.jsx:24 | with a category other than "All", every game shown has exactly that category |
| `Catalog.FilterIdempotent` | src/App.jsx:21-26 | filtering the filtered list again gives the same list |
| `Catalog.FilterIgnoresQueryCase` | src/App.jsx:22-23 | a lowered query gives the same result as the original query |
| `Catalog.FilterSameIgnoringCase` | src/App.jsx:22-23 | two queries of equal length that agree character by character but for case show the same games |
| `Catalog.FilterNarrows` | src/App.jsx:22-23 | a query that includes another (ignoring case) shows a subsequence of that query's games |
| `Catalog.FilterNarrowsWhenTyping` | src/App.jsx:91 | appending characters to the query shows a subsequence of the previous games |
| `Catalog.SampleSearch` | src/App.jsx:20-27 | on the Chess Master / Speed Racer catalog, "chess" in "All" gives only Chess Master |
| `Catalog.SampleCategory` | src/App.jsx:20-27 | on the same catalog, "" in "Racing" gives only Speed Racer |
| `GameModal.Content` | src/components/GameModal.jsx:14-65 | content is present iff a game is; the iframe loads the game's `iframeUrl` under the current key, and the heading and frame title are its title |
| `GameModal.KeyHistoryIncreasing` | src/components/GameModal.jsx:6-10 | helper for `Modal.Reload`: in a history 0, 1, ..., n, which `Reload`'s `key == old(key) + 1` produces, the keys strictly increase and the newest was never used before |
| `GameModal.Modal.constructor` | src/components/GameModal.jsx:6 | the counter starts at 0, and 0 is the only key used so far |
| `GameModal.Modal.Reload` | src/components/GameModal.jsx:8-10 | the key grows by exactly 1, is appended to the history, and the frame of any game shown under it has a key never used before |
| `App.View.constructor` | src/App.jsx:11-13 | initial state: empty query, category "All", no active game, key 0, whole catalog shown |
| `App.View.FilteredGames` | src/App.jsx:20-27 | the grid lists exactly the catalog games matching the current query and category, in catalog order |
| `App.View.ShowsEmptyState` | src/App.jsx:116-143 | the "No games found" panel is shown iff no catalog game matches the query and category |
| `App.View.ModalContent` | src/App.jsx:172-175 | the modal shows content iff a game is active, with that game's address and title under the modal's key |
| `App.View.SetSearchQuery` | src/App.jsx:91 | sets the query; category and active game are unchanged |
| `App.View.SelectCategory` | src/App.jsx:98-101 | sets the category to the clicked button; query and active game are unchanged |
| `App.View.ClearFilters` | src/App.jsx:134-137 | query "" and category "All", active game unchanged, whole catalog shown again |
| `App.View.Play` | src/App.jsx:118-122 | the game becomes active, even if another was; query, category and key are unchanged |
| `App.View.Close` | src/App.jsx:174 | no game is active and the modal shows nothing; query, category and key are unchanged |
| `App.SampleSession` | src/App.jsx:118-175 | session sample: playing a second game while one is open switches to it directly; after a reload and a close the key is 1 and no game is active; searching "zz" in "All" on games whose texts lack "z" shows the "No games found" panel; clearing filters after searching "zz" shows the whole catalog |

## Left out

- Unicode case mapping: `toLowerCase` is modelled on ASCII only ('A' to 'Z' become 'a' to 'z'). Full Unicode lowering belongs to the JavaScript runtime, and it is not per-character: it depends on context (a final capital sigma lowers to "ς", otherwise to "σ") and can change length ("İ" lowers to two code units). `Text.LowerStr` (same length), `Text.LowerStrIdempotent`, `Text.ContainsLower`, `Catalog.FilterIgnoresQueryCase`, `Catalog.FilterNarrows` and `Catalog.FilterNarrowsWhenTyping` hold for the ASCII lowering only. With full Unicode, typing more can add a game: "ΟΔΟΣ" lowers to "οδος" and misses the title "οδοσα", while "ΟΔΟΣΑ" lowers to "οδοσα" and finds it.
- A query that is not a string: the input box always yields a string, so this case does not arise.
- `useMemo` caching: both derived values are recomputed from the current state, which shows the same values.
- Markup, styling, animation (`motion/react`), icons, navigation and footer: presentation only. The footer text "Press ESC to exit" has no key handler in the code, so there is nothing to model.
- `src/components/GameCard.jsx`: presentation only. Its one behaviour, calling `onPlay(game)`, is `App.View.Play`.
- The contents of `games.json`: the catalog is a parameter.
- Loading the iframe, the thumbnail images and `referrerPolicy`: all browser I/O. The model records only the key and address the frame is given.
- The React render loop and event queue: each handler is one sequential method call.
- `GameModal.Modal.Reload`: number precision. The key is unbounded in the model; in the page `prev + 1` stops growing after 2^53 reloads, a count no session reaches.
- `GameModal.Modal.Reload`: callable at any time. In the page, the reload button exists only while a game is shown, but the handler itself does not check this.
- `Catalog.SampleSearch`: the second sample game's description is left open. Any text without the letter "h" will do: the sample only needs the title to decide the match.
