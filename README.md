# Artworks table: selection and paging state

A model of the state behind the `ArtworksTable` component of
react-artworks-table. The component shows the remote art-institute catalog
ten rows at a time and lets the user tick rows. The ticked ids are kept in a
set that does not depend on the loaded page.

- `records.dfy` (module `Records`) holds the `Artwork` row and the catalog `Item` it is built from. It also holds the
  `Response` of one page request. It is one of three things: the items with `pagination.total`; the items in a body
  without `pagination`; or a failure before any row is stored. The functions there map items to rows.
- `selection.dfy` (module `Selection`) holds the pure set operations behind the
  checkboxes. One row changes one id. The header loop adds or removes every id of the page.
- `table.dfy` (module `Table`) holds the class `ArtworksTable` with the
  component's five state fields (`data`, `totalRecords`, `currentPage`,
  `loading`, `selected`) and one method per handler. Every handler keeps the
  invariant `Valid()`: the page number is at least 1. It also has three client
  methods that run event sequences and prove what the user sees at the end.

The network answer is an input: `FetchData` and `EndFetch` take the
`Response` that the request settled with. `fetchData`'s `page` argument is used only to build
the request URL, so the model has no such parameter.

Facts about the component that the model keeps:
- It keeps ids only, not a map from id to record.
- Its only selection changes are one row at a time, all rows of the loaded page, and clearing everything.
  There is no page-size change and no page-size validation.
- It has no request token, so overlapping loads race. In the model, `BeginFetch` and `EndFetch` may be
  interleaved with other handlers and with each other:
  - the page and total come from the last `EndFetch` that stored them. A `Failed` load stores neither;
    a body without `pagination` stores the page but not the total.
  - The first overlapping load to settle clears `loading` while the other is still in flight.
- A failed load sets no error flag:
  - If the failure happens before the page is stored, the stale page stays in place. `DeselectAllKeepsOtherPages` shows
    that the header checkbox then acts on that stale page.
  - If the body has items but no `pagination`, the code stores the new page and only then throws while reading the total,
    so the old total stays. `MissingTotalKeepsOldTotal` shows the result: the new page next to the previous total.

## Model

| member | source | states |
|---|---|---|
| `Records.ToArtwork` | src/components/ArtworksTable.tsx:30-38 | seen back as an item, the row is exactly the item with a missing inscriptions replaced by `""`: every other field is copied |
| `Records.ToArtworkAsItem` | src/components/ArtworksTable.tsx:30-38 | the mapping is the identity on a record whose inscriptions are present |
| `Records.ToArtworks` | src/components/ArtworksTable.tsx:30-39 | the page has one row per server item, in server order, each the mapped item |
| `Selection.WithMembership` | src/components/ArtworksTable.tsx:58-63 | after a row checkbox is set, the id is a member iff `checked`; every other id keeps its membership |
| `Selection.WithMembershipIdempotent` | src/components/ArtworksTable.tsx:58-63 | setting the same row checkbox twice to the same value equals setting it once |
| `Selection.WithMembershipCount` | src/components/ArtworksTable.tsx:58-63 | the selection size grows by one for a new tick, shrinks by one for an untick of a selected id, else stays |
| `Selection.MarkRows` | src/components/ArtworksTable.tsx:65-72 | the per-row loop yields the old set united with the page's ids when ticking, or minus them when unticking |
| `Table.ArtworksTable.constructor` | src/components/ArtworksTable.tsx:19-24 | initial state: empty page, total 0, page 1, not loading, nothing selected |
| `Table.ArtworksTable.BeginFetch` | src/components/ArtworksTable.tsx:27 | a load starts by setting the loading flag |
| `Table.ArtworksTable.EndFetch` | src/components/ArtworksTable.tsx:28-45 | success replaces page and total with the mapped items and `pagination.total`; a body without `pagination` replaces the page and keeps the total; any other failure keeps both; loading is off; selection and page number unchanged |
| `Table.ArtworksTable.FetchData` | src/components/ArtworksTable.tsx:26-46 | a whole load: the same three outcomes as `EndFetch`, never touching the selection |
| `Table.ArtworksTable.OnPage` | src/components/ArtworksTable.tsx:52-54 | the 0-based paginator index becomes the 1-based page `index + 1`; selection, page data and total unchanged |
| `Table.ArtworksTable.IsRowSelected` | src/components/ArtworksTable.tsx:56 | a ticked row implies the selection panel is shown with a count of at least one |
| `Table.ArtworksTable.HeaderChecked` | src/components/ArtworksTable.tsx:74-75 | the header is ticked iff the page is non-empty and all its ids are in the selection (so never on an empty page) |
| `Table.ArtworksTable.SelectionPanel` | src/components/ArtworksTable.tsx:93-97 | the panel is hidden iff nothing is selected, and otherwise shows the selection's size |
| `Table.ArtworksTable.ToggleRow` | src/components/ArtworksTable.tsx:58-63 | the new selection is `WithMembership` of the old; the row shows `checked`; no other row changes |
| `Table.ArtworksTable.ToggleSelectAll` | src/components/ArtworksTable.tsx:65-72 | the new selection is old ∪ page ids or old − page ids; ids not on the page keep their state; the header then shows `checked` on a non-empty page |
| `Table.ArtworksTable.ClearSelection` | src/components/ArtworksTable.tsx:102 | the selection becomes empty and the panel is hidden |
| `Table.SelectionSurvivesPaging` | src/components/ArtworksTable.tsx:26-63 | an id ticked on one page is still ticked after paging away, loading, paging back and loading again, whatever the loads return; the panel shows 1 |
| `Table.DeselectAllKeepsOtherPages` | src/components/ArtworksTable.tsx:26-72 | after select-all on one page, loading another page without that id and unticking its header, the first id stays selected iff the load stored its page |
| `Table.MissingTotalKeepsOldTotal` | src/components/ArtworksTable.tsx:39-44 | a load whose body lacks `pagination` leaves the new page shown with the previous load's total |

## Left out

- Rendering: JSX, the PrimeReact table, columns, checkboxes, button and styling. These are widgets from libraries not modelled here.
- The HTTP request, its URL and the `console.error` logging. The response is an input value instead.
- The `useEffect` that starts a load when `currentPage` changes. The client methods call `OnPage` and then `FetchData` in sequence instead.
  When overlapping loads would settle is up to the caller.
- JavaScript numbers are modelled as unbounded integers; ids and totals from the catalog are whole numbers.
- A body whose `pagination` is present but has no `total` would store `undefined` as the total; the model's total is always a number.
- Catalog fields other than `inscriptions` are taken to be present and well typed. A missing title or date would be copied through as `undefined`, and the model does not represent that.
- `src/App.tsx` only places the component under a heading and is not part of this model.
