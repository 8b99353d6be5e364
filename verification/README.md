# Countries table: favourites, query and cell rules

A model of the pure rules inside the `App` component of a browser table
that lists countries from the restcountries directory service. The user
can search by name and mark rows as favourites. What is modelled:

- **Favourite toggle** (`handleFavouriteChange`). Favourites are a list of
  whole records matched by common name. If some entry has the clicked
  record's name, every entry with that name is filtered out. Otherwise the
  record is appended at the end.
- **Checkbox state**. A row is checked exactly when some favourite has the
  row's common name. This is the same scan the toggle uses.
- **Query selection**. An empty search requests
  `https://restcountries.com/v3.1/all`. Any other search requests
  `https://restcountries.com/v3.1/name/` followed by the search text as is.
- **Capital cell**. A record without a `capital` field shows `N/A`. A
  record with one shows its first element.

A record is reduced to its common name and its optional capital list.
Modules: `Wrappers` (an `Option` type, where `None` plays the part of
JavaScript `undefined`), `Countries` (the record), `Favourites`, `Query` and
`Table`.

A present but empty capital list is truthy in JavaScript, so the capital
expression yields `capital[0]` of an empty array, which is
`undefined`. The model follows the code: `CapitalCell(Some([]))` is `None`.

## Model

| member | source | states |
|---|---|---|
| Favourites.IsFavourite | src/App.tsx:118 | the scan is true exactly when some favourite has the given common name |
| Favourites.RemoveNamed | src/App.tsx:121 | the filtered list has no entry with the name, keeps every entry with another name, contains only entries of the input in their original order, and is shorter by the number of entries with that name |
| Favourites.RemoveNamedUnique | src/App.tsx:121 | any in-order sublist of the favourites that drops all entries with the name and keeps the rest equals the filter result, so the filter is fully determined |
| Favourites.RemoveNamedIdempotent | src/App.tsx:121 | filtering out a name a second time changes nothing |
| Favourites.Toggle | src/App.tsx:116-124 | after a toggle the membership of the toggled name is the negation of what it was; an absent name yields the old list plus the record at the end (one longer); a present name yields an in-order sublist with no entry of that name, shorter by the number of such entries (at least one) |
| Favourites.ToggleKeepsOthersInOrder | src/App.tsx:121-123 | in both branches, the entries with other names are the same, in the same relative order, before and after the toggle |
| Favourites.ToggleOtherNames | src/App.tsx:118-123 | a toggle never changes whether any other name is a favourite |
| Favourites.ToggleNames | src/App.tsx:118-123 | the set of favourite names loses the toggled name when it held it and gains it otherwise |
| Favourites.ToggleTwiceRestores | src/App.tsx:118-123 | toggling a record whose name is absent twice gives back exactly the original list (the checked-then-unchecked behaviour) |
| Favourites.ToggleTwiceSameNames | src/App.tsx:118-123 | from any list, two toggles of the same record leave the set of favourite names unchanged |
| Favourites.ToggleKeepsUniqueNames | src/App.tsx:116-124 | starting without duplicate names, a toggle never creates one |
| Favourites.ClicksKeepUniqueNames | src/App.tsx:114-124 | favourites start empty and change only by toggles, so after any sequence of clicks no two entries share a common name |
| Favourites.ToggleOffUniqueShrinksByOne | src/App.tsx:121 | on a deduplicated list, toggling off a present name removes exactly one entry |
| Query.QueryUrl | src/App.tsx:90-99 | the URL is the all-countries URL exactly when the search is empty; otherwise it is the name prefix followed by the search text unchanged |
| Query.QueryRoundTrip | src/App.tsx:90-99 | the search text can always be read back from the URL it selects |
| Query.SearchOfSound | src/App.tsx:90-99 | every URL string that reads back as a search text is the URL string that search selects |
| Query.QueryUrlInjective | src/App.tsx:90-99 | different search texts give different URL strings; in particular no non-empty search gives the all-countries URL string |
| Table.CapitalCell | src/App.tsx:162 | a missing capital shows `N/A`; a present non-empty list shows its first element; the cell is undefined exactly when the list is present but empty |
| Table.CapitalCellShowsPlaceholder | src/App.tsx:162 | the cell reads `N/A` exactly when the capital is missing or its first entry is literally `N/A` |
| Table.Checked | src/App.tsx:166 | a row is checked exactly when its common name is among the favourite names |
| Table.CheckedByNameOnly | src/App.tsx:166 | the checkbox depends only on the row's common name and the favourites' names, not on any other field |
| Table.Rows | src/App.tsx:153-171 | one row per fetched record, in fetched order, each with the record's name, its capital cell and whether some favourite has its name |
| Table.ToggleChangesOnlyCheckboxes | src/App.tsx:153-171 | a toggle leaves row count, names, capitals and order unchanged; only rows with the toggled name change their checkbox, and each of those flips |

## Left out

- Network requests, promise handling and the re-fetch effect on search change (src/App.tsx:89-107). These are I/O. The model keeps only the choice of URL, not the replacement of the list by a response or the keeping of the old list on failure.
- The logging in the toggle and in the fetch error handlers (src/App.tsx:96, 104, 126). It is a side effect with no bearing on state.
- The race between overlapping in-flight requests, where the later response wins. It is asynchronous concurrency and cannot be stated over a single sequence of states.
- React state mechanics, including the toggle reading a possibly stale `favourites` from its closure. The toggle is modelled as a function of the current list.
- Browser URL parsing of the requested string (src/App.tsx:99). The model stops at the URL string handed to the request; dot segments such as `../all`, `?` and `#` parts and percent-encoding, which can make distinct strings reach the same endpoint, are not modelled.
- `handleSearchChange` (src/App.tsx:109-112). It only stores the typed text as the new search string.
- MUI layout and styling (src/App.tsx:129-177). Only the data shown in each row is modelled.
- Every record field other than the common name and the capital list. They are fetched but never read.
