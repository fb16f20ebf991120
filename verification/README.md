# Routine builder: selection, filter and chat-history model

A Dafny model of the state logic of a browser product-catalogue page
(`script.js`). The page shows a grid of products, lets the user pick
products by clicking their cards, lists the picks with remove buttons, and
sends the picks to a chat endpoint to get a skincare routine, with follow-up
questions after that. The model lifts the pure state changes out of the DOM
glue:

- `Seqs`: `Keep`, the model of `Array.prototype.filter`, and `IsSubsequence`.
  The lemmas prove that `Keep` is the only order-preserving subsequence that
  holds exactly the accepted entries.
- `Catalog`: the `Product` record and the category filter of the category
  drop-down.
- `Selection`: the selection store. It covers the card-click toggle
  (`find` by id, then either `filter` out that id or `push` the product) and
  the remove button's `splice(idx, 1)`, using JavaScript's rules for the
  start index.
- `Grid`: cards reduced to their `data-id` and their `selected` marker. It
  covers the highlight pass and a freshly rendered grid.
- `Markup`: the newline-to-`<br>` rewrite applied to replies.
- `Chat`: the conversation history. It covers the generate-routine button
  (empty-selection guard, reset to `[system, user]`, assistant reply on
  success) and the follow-up form (user turn first, assistant reply on
  success). Each network outcome is an input, `Success(text)` or `Failure`.
- `App`: the page as a state `(selection, grid, history)` driven by events.
  The lemmas prove that every run keeps three things true: the ids in the
  selection stay distinct, the grid markers match the selection, and the
  history stays coherent.

Three behaviours of the code differ from what a reader might expect. The model follows the code:

- `splice(idx, 1)` with a negative `idx` removes an entry counted from the
  end, and an `idx` before the start removes the first entry. Only an `idx`
  at or past the end is a no-op (`Selection.RemoveAt`). The panel only ever
  passes indices it rendered, so the difference does not show in use.
- A failed routine request leaves the history as `[system, user]`, not as it
  was before the click. The reset at script.js:194 happens before the
  request (`Chat.RoutineWithAI`).
- Reading the saved selection at start-up has no guard. A malformed stored
  value makes `JSON.parse` throw instead of giving an empty selection. The
  model therefore takes the saved selection as an input (`App.Initial`) and
  does not claim any fallback.

## Model

| member | source | states |
|---|---|---|
| Seqs.Keep | script.js:152-154 | the filter result is an order-preserving subsequence of its input; every entry of it passes the test; each accepted value occurs exactly as often as in the input and each rejected value not at all; it equals its input exactly when every entry passes and is otherwise strictly shorter |
| Seqs.KeepConcat | script.js:152-154 | filtering a concatenation gives the concatenation of the filtered parts |
| Seqs.KeepAll | script.js:116 | a filter that accepts every entry returns its input unchanged |
| Seqs.SubsequenceMultiset | script.js:116 | an order-preserving subsequence never holds a value more often than the sequence it is drawn from |
| Seqs.KeepIsUnique | script.js:152-154 | any order-preserving subsequence with exactly the accepted values, at their input multiplicities, is the filter's result |
| Catalog.FilterByCategory | script.js:152-154 | the shown products are exactly the catalogue products whose category equals the chosen one, in catalogue order and with catalogue multiplicities |
| Catalog.FilterByCategoryIsUnique | script.js:152-154 | that description determines the shown list completely |
| Catalog.FilterByCategoryConcat | script.js:152-154 | filtering a catalogue made of two parts filters each part in place |
| Catalog.FilterByCategoryIdempotent | script.js:149-156 | filtering the already filtered list by the same category changes nothing |
| Selection.Find | script.js:113 | `find` by id returns a product exactly when some entry has the id, and then returns the first entry with that id |
| Selection.WithoutId | script.js:116 | the unselect filter drops every entry with the id and keeps every other entry, in order and with its multiplicity; it changes the list exactly when the id was present, and then shortens it |
| Selection.Toggle | script.js:113-120 | an absent id is appended at the end with every earlier entry unchanged; a present id is removed everywhere, the rest kept in order, and the list gets shorter; afterwards the id is selected exactly when it was not before, and every other id keeps its status |
| Selection.ToggleTwiceRestores | script.js:113-120 | clicking a card whose product is not selected twice gives back the original selection |
| Selection.UniqueIdsCons | script.js:113-120 | a list headed by a product has distinct ids exactly when its tail has distinct ids and does not mention that product's id |
| Selection.KeepKeepsUniqueIds | script.js:116 | filtering a selection with distinct ids leaves the ids distinct |
| Selection.ToggleKeepsUniqueIds | script.js:113-120 | if the ids in the selection are distinct before a card click, they are distinct after it |
| Selection.SpliceStart | script.js:56 | the splice start lies within the list; a start inside the list is used as is, one past the end is clamped to the length, a negative start counts back from the end, and one before the start is clamped to zero |
| Selection.RemoveAt | script.js:54-57 | for an index inside the list, exactly that entry is removed: the length drops by one, earlier entries stay where they were and later ones move up by one; a negative index removes the entry that many places from the end, one before the start removes the first entry, and one at or past the end changes nothing |
| Selection.RemoveAtMultiset | script.js:56 | removing at a valid index takes exactly that one entry out of the multiset of entries |
| Selection.RemoveAtKeepsUniqueIds | script.js:56 | removal at any index keeps the ids in the selection distinct |
| Selection.RemoveLastUndoesToggle | script.js:56 | the remove button of the entry that a card click just appended undoes that click |
| Selection.WithoutUniqueId | script.js:116 | on a selection with distinct ids, unselecting the id of the entry at a position takes out exactly that entry |
| Selection.ToggleSelectedIsRemoveAt | script.js:113-120 | on a selection with distinct ids, clicking the card of a selected product does what that entry's remove button does |
| Grid.Highlight | script.js:65-76 | every card keeps its id and ends up marked selected exactly when some selected product has that id |
| Grid.HighlightIdempotent | script.js:65-76 | running the highlight pass twice gives the same grid as running it once |
| Grid.HighlightFixesMatching | script.js:65-76 | the highlight pass leaves a grid unchanged exactly when its markers already agree with the selection |
| Grid.HighlightAfterToggle | script.js:110-124 | after a card click and the highlight pass, the clicked product's cards flip their marker and every other card keeps its marker |
| Grid.Show | script.js:79-140 | a rendered grid has one card per product, in order, with markers that agree with the selection; an empty product list gives no cards |
| Markup.BreakLines | script.js:214 | the displayed reply contains no newline; it is longer than the reply by three characters per newline; a reply without newlines is shown unchanged |
| Markup.BreakLinesConcat | script.js:259 | rewriting a reply piece by piece gives the rewrite of the whole reply |
| Markup.BreakLinesRoundTrip | script.js:214 | for a reply without `<`, turning every `<br>` back into a newline gives back the reply |
| Chat.RoutineWithAI | script.js:175-221 | the request carries exactly the system instruction and the selection prompt, whatever the history held; the history is then those two messages, followed by the assistant reply on success only |
| Chat.GenerateClicked | script.js:224-230 | a request is issued exactly when the selection is non-empty; with an empty selection the history is unchanged; otherwise the request carries exactly the history's first two entries, the system instruction and the selection prompt, and the history has three entries on success, the third being the assistant reply, and two on failure |
| Chat.FollowUp | script.js:233-266 | the request carries the old history plus the user turn; the old history is kept as a prefix; the user turn comes next whatever the outcome; the assistant reply follows on success only |
| Chat.GenerateKeepsCoherent | script.js:194-217 | the generate-routine button keeps the history coherent: a system message only opens it, and every assistant message follows a user message |
| Chat.FollowUpKeepsCoherent | script.js:238-264 | a follow-up keeps the history coherent, on success and on failure |
| Chat.FollowUpKeepsStarted | script.js:238 | a follow-up never changes the opening system and user messages of a routine conversation |
| Chat.FailedFollowUpIsNotRolledBack | script.js:238-264 | after a failed follow-up and a successful one, both user turns stay in the history, in order, and only the second one is answered |
| App.Initial | script.js:22-28 | at start-up the selection is the saved one, the grid is empty and the history is empty |
| App.Step | script.js:54-266 | a shown catalogue or chosen category renders the (filtered) products highlighted against the selection; a card click toggles the product and re-highlights; a remove button removes at its index and re-highlights; the generate button and the follow-up form change only the history, as their operations do; selection events leave the history alone, grid and chat events leave the selection alone, and the grid markers stay in agreement with the selection |
| App.StepKeepsConsistent | script.js:54-266 | every event handler keeps the selection ids distinct, the markers in agreement with the selection, and the history coherent |
| App.RunKeepsConsistent | script.js:54-266 | any sequence of events keeps the page consistent |
| App.StartKeepsConsistent | script.js:22-28 | a page started from a saved selection with distinct ids stays consistent under any events |
| App.RoutineThenFailedFollowUp | script.js:224-264 | a successful routine then a failed follow-up leave the history as opening, routine, unanswered question, with selection and grid untouched |

## Left out

- Catalogue loading (`fetch` of `products.json`, script.js:15-19): this is network I/O. Loaded product lists are event data (`App.CatalogShown`, `App.CategoryChosen`).
- The chat POSTs and the extraction of `data.choices[0].message.content` (script.js:202-211, 250-256): these are network I/O. Each outcome is the `Chat.Reply` input. The endpoint URL is a placeholder in the code.
- Saving to and reading from `localStorage`, and JSON (de)serialisation (script.js:25-33): these are foreign calls. A malformed saved value makes start-up throw, so no fallback is modelled.
- Building the cards, the description overlay and its `stopPropagation` handling, and the panel markup (script.js:36-62, 79-140): this is DOM work. A card is modelled only by its `data-id` and its `selected` marker.
- The chat transcript (`chatWindow.innerHTML`) is not modelled: it is DOM text. That includes the earlier placeholder `submit` handler (script.js:162-166), which replaces the transcript on every follow-up before the real handler appends to it.
- The exact prompt wording is carried as data (`Chat.SelectionPrompt`, `Chat.ProductBlocks`), but no property is stated about it.
- `parseInt` of the `data-idx` attribute (script.js:55) is not modelled: it is DOM text. The index reaches `Selection.RemoveAt` as an integer.
- Product ids are strings. The card's `data-id` attribute is always a string, and the highlight pass compares it with `p.id === pid` (script.js:69). With numeric ids in the catalogue that comparison never holds and no card is ever marked, so `Grid.Highlight` and the `Matches` part of `App.Consistent` describe the page only for string ids.
- Overlapping chat requests and other async interleaving are not modelled: concurrency is out of scope. Every event handler runs to completion before the next one starts.
