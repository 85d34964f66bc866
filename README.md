# Adelaide portfolio: artwork store, page selections and interaction state

A Dafny model of the logic inside an animated single-page portfolio site for a visual artist.
The site keeps an ordered, in-memory list of artwork records. A creator dashboard edits it, the
public pages read it, and a small shared state holds the pointer indicator's view mode and the
menu overlay.

Modules, one per source file (plus two for the array and string operations the pages use):

- `Types` (`types.dfy`): the `Artwork` and `Collection` records, the `Availability` and
  `ViewMode` enumerations, and a stock `Option`.
- `Lists` (`lists.dfy`): JavaScript's `filter`, `map` and `find` as functions on sequences.
  Lemmas give membership, order preservation (`IsSubsequence`), length, idempotence and
  find-first for them.
- `Strings` (`strings.dfy`): ASCII `toLowerCase`, the global one-character
  `replace(/c/g, d)`, and the plain `replace(c, d)` that rewrites only the first match.
- `Admin` (`admin.dfy`): the creator dashboard.
  - The form draft is a partial record (`Draft`, every field optional). The object spread
    `{ ...a, ...draft }` is `Overlay`.
  - The three list updates are pure functions: `UpdateWhere` (map), `RemoveId` (filter) and a
    prepend of `NewRecord`. So is the title-to-slug rule `Slug`.
  - The dashboard's state is the class `Dashboard`: the lifted artwork list, the screen, the
    edited id and the draft. Its methods are the click, submit and change handlers.
- `Public` (`public.dfy`): the home page's featured carousels, the archive filter with its
  `'all'` sentinel, the detail page's lookup by slug with its not-found branch, the
  availability badge, and the gallery's hover handlers.
- `UI` (`ui.dfy`): the class `UIState` holding `viewMode` and `isMenuOpen`, the cursor-variant
  table, the glyph choice and the menu entries.

Modelling decisions:

- The browser's nondeterministic inputs become parameters.
  - `window.confirm` is `Dashboard.Delete`'s `confirmed` flag.
  - The random id `Math.random().toString(36).substr(2, 9)` is `Dashboard.Save`'s `freshId`.
  - `new Date().getFullYear().toString()` is `Dashboard.New`'s `currentYear`.
- The initial artwork list comes from a fixture file (`constants`), which is not part of this
  model. It is the `seed` parameter of the `Dashboard` constructor.
- Create-versus-edit follows JavaScript truthiness of the edited id (`Admin.Truthy`). `null`
  and the empty string both take the create branch.
- A record created through the form has no `collectionId` key unless a collection was chosen.
  `Artwork.collectionId` is therefore an `Option<string>`: an absent key is `None` and never
  equals a filter value.
- The dashboard's invariant `Dashboard.Valid` has two parts.
  - An edit draft carries the edited id.
  - The form is shown only with a draft holding every record field except `id` and
    `collectionId`, so a create-mode save always builds a whole record.
- Id uniqueness is something the store assumes but never checks. `UniqueIds` states it. Save
  preserves it when the generated id is unused, and Delete always preserves it.

- Delete removes every record with the id (`Admin.RemoveIdSpec`). With unique ids, deleting a
  present id drops exactly one record (`Admin.RemoveIdLength`).
- The form's title input is `required`: while it is empty the browser refuses the submission,
  so `Dashboard.Save` changes nothing in that case. No other input is required.
- The application entry point modelled here is the one with the admin route.

## Model

| member | source | states |
|---|---|---|
| `Types.AvailabilityName` | types.ts:11 | each availability has a non-empty stored name, and the name is `for_sale` exactly for `ForSale` |
| `Lists.Filter` | pages/PublicPages.tsx:18 | `filter` never returns more elements than it was given |
| `Lists.Map` | pages/AdminPages.tsx:43 | `map` returns as many elements as it was given |
| `Lists.Find` | pages/PublicPages.tsx:122 | a found element satisfies the predicate and belongs to the list |
| `Lists.FilterMembership` | pages/PublicPages.tsx:74 | an element is in a filter result iff it is in the input and satisfies the predicate |
| `Lists.FilterIsSubsequence` | pages/PublicPages.tsx:18 | a filter result is a subsequence of its input (original order kept) |
| `Lists.FilterLength` | pages/AdminPages.tsx:53 | a filter result's length is the number of input elements satisfying the predicate |
| `Lists.FilterAll` | pages/AdminPages.tsx:53 | when every element satisfies the predicate the filter returns its input unchanged |
| `Lists.FilterIdempotent` | pages/PublicPages.tsx:74 | filtering twice by one predicate equals filtering once |
| `Lists.MapAt` | pages/AdminPages.tsx:43 | the i-th element of a `map` result is the function applied to the i-th input |
| `Lists.MapIdentity` | pages/AdminPages.tsx:43 | mapping a function that fixes every element leaves the list unchanged |
| `Lists.FindFirst` | pages/PublicPages.tsx:122 | `find` yields nothing iff no element matches; otherwise the match at the lowest matching index |
| `Lists.SubsequenceTrans` | pages/PublicPages.tsx:52 | a selection of a selection is a selection of the original (first five of the featured) |
| `Lists.PrefixIsSubsequence` | pages/PublicPages.tsx:52 | `slice(0, k)` is a subsequence of the list |
| `Strings.LowerChar` | pages/AdminPages.tsx:119 | lower-casing maps each ASCII capital to the matching letter `a`-`z`, and fixes every other character |
| `Strings.ToLower` | pages/AdminPages.tsx:119 | `toLowerCase` keeps the length (ASCII) |
| `Strings.ReplaceAll` | pages/AdminPages.tsx:119 | a global one-character replace keeps the length and leaves no occurrence of the pattern when the replacement differs |
| `Strings.ReplaceFirst` | pages/PublicPages.tsx:164 | a first-match replace keeps the length |
| `Strings.ToLowerAt` | pages/AdminPages.tsx:119 | each character of `toLowerCase` is the lower-cased input character |
| `Strings.ReplaceAllAt` | pages/AdminPages.tsx:119 | each occurrence of the pattern is replaced, every other character kept |
| `Strings.ReplaceFirstSpec` | pages/PublicPages.tsx:164 | only the first occurrence is rewritten; without one the string is unchanged |
| `Admin.NewDraft` | pages/AdminPages.tsx:22-35 | the new-artwork draft has every record field, empty title and slug, the current year, `for_sale`, not featured, no tags, no gallery, and no id or collection |
| `Admin.FromArtwork` | pages/AdminPages.tsx:17 | the edit draft has every record field and the artwork's id |
| `Admin.Overlay` | pages/AdminPages.tsx:43 | `{ ...a, ...d }`: an empty draft leaves the record as it is; a draft with every key present determines the record completely (its edit draft is the draft itself); the remaining laws are in `Admin.OverlayLaws` |
| `Admin.NewRecord` | pages/AdminPages.tsx:45 | the created record carries every field of the draft, with the generated id in place of the draft's |
| `Admin.Slug` | pages/AdminPages.tsx:119 | the slug has the title's length and contains no space; its characters are given by `Admin.SlugAt` |
| `Admin.SlugAt` | pages/AdminPages.tsx:119 | the slug has the title's length; at each position the title's character lower-cased with space turned into `-`; never a space or an ASCII capital |
| `Admin.SlugFixpoints` | pages/AdminPages.tsx:119 | the slug rule leaves a string unchanged iff it has no space and no ASCII capital |
| `Admin.SlugIdempotent` | pages/AdminPages.tsx:119 | applying the slug rule to a derived slug leaves it unchanged |
| `Admin.SlugExampleBlueHour` | pages/AdminPages.tsx:119 | "Blue Hour" gives "blue-hour" |
| `Admin.SlugExampleRedDawn` | pages/AdminPages.tsx:119 | "Red Dawn" gives "red-dawn" |
| `Admin.Truthy` | pages/AdminPages.tsx:42 | the edited id is truthy exactly when it is neither `null` nor the empty string; `Admin.SaveBranches` ties this to the branch a save takes |
| `Admin.SaveBranches` | pages/AdminPages.tsx:42-46 | with no edited id, or the empty one, save prepends the new record to the list; with any other edited id it is the update by that id |
| `Admin.UpdateWhere` | pages/AdminPages.tsx:43 | the updated list has the old list's length; its contents are given by `Admin.UpdateWhereSpec` |
| `Admin.RemoveId` | pages/AdminPages.tsx:53 | the result is no longer than the list and holds no record with the id; exact contents and count in `Admin.RemoveIdSpec` |
| `Admin.Saved` | pages/AdminPages.tsx:42-46 | a save keeps the list's length in edit mode and adds exactly one record in create mode |
| `Admin.OverlayLaws` | pages/AdminPages.tsx:43 | overlaying an empty draft changes nothing; overlaying the same draft twice equals once |
| `Admin.OverlayFromArtwork` | pages/AdminPages.tsx:43 | saving an unchanged edit draft of `b` over a record yields `b`, keeping the record's collection only when `b` has none |
| `Admin.UpdateWhereSpec` | pages/AdminPages.tsx:42-43 | edit-mode save keeps length and order; records with the edited id become record overlaid with the draft; the others are unchanged |
| `Admin.UpdateWhereAbsent` | pages/AdminPages.tsx:43 | edit-mode save with an id no record has leaves the list unchanged |
| `Admin.UpdateWhereKeepsIds` | pages/AdminPages.tsx:43 | when the draft's id is absent or the edited id, no record's id changes |
| `Admin.RemoveIdSpec` | pages/AdminPages.tsx:53 | delete keeps exactly the records whose id differs, in order, and as many as the list has records with a different id; none with the id remains; an absent id leaves the list unchanged |
| `Admin.RemoveIdLength` | pages/AdminPages.tsx:53 | with unique ids, deleting a present id shortens the list by exactly one |
| `Admin.RemoveIdKeepsUnique` | pages/AdminPages.tsx:53 | delete keeps ids unique |
| `Admin.SaveCreate` | pages/AdminPages.tsx:44-46 | create-mode save prepends one record carrying the generated id (whatever id the draft had) and the draft's other fields, ahead of the unchanged old list; the new record's edit draft is the submitted draft with the generated id, so every field, the chosen collection (or its absence) included, is kept |
| `Admin.NewRecordFromArtwork` | pages/AdminPages.tsx:45 | a create-mode save of an edit draft (edited id `""`) copies the artwork under the generated id |
| `Admin.SavedKeepsUnique` | pages/AdminPages.tsx:42-46 | save keeps ids unique when the generated id is unused and an edit draft carries the edited id |
| `Admin.Dashboard.constructor` | pages/AdminPages.tsx:11-14 | the dashboard starts on the list screen, with no edited id, an empty draft and the given list |
| `Admin.Dashboard.Edit` | pages/AdminPages.tsx:16-20 | edit loads the artwork into the draft, remembers its id and shows the form; the list is untouched |
| `Admin.Dashboard.New` | pages/AdminPages.tsx:22-38 | new loads the new-artwork draft, clears the edited id and shows the form; the list is untouched |
| `Admin.Dashboard.Save` | pages/AdminPages.tsx:40-49 | with an empty title the submission is refused and nothing changes (the title input at line 119 is `required`); otherwise save updates by id when the edited id is truthy and prepends under the generated id otherwise, returns to the list screen, and keeps ids unique when they were unique and, in create mode, the generated id is unused (the source does not check it for collisions) |
| `Admin.Dashboard.Delete` | pages/AdminPages.tsx:51-55 | delete removes every record with the id when confirmed, changes nothing when declined, and keeps ids unique |
| `Admin.Dashboard.BackToList` | pages/AdminPages.tsx:111 | Back and Cancel return to the list screen without touching the list, the draft or the edited id |
| `Admin.Dashboard.EditTitle` | pages/AdminPages.tsx:119 | editing the title sets the title and sets the slug to the slug rule applied to it; nothing else changes |
| `Admin.Dashboard.EditYear` | pages/AdminPages.tsx:132 | editing the year changes only the draft's year |
| `Admin.Dashboard.EditMedium` | pages/AdminPages.tsx:137 | editing the medium changes only the draft's medium |
| `Admin.Dashboard.EditAvailability` | pages/AdminPages.tsx:142 | choosing an availability changes only the draft's availability |
| `Admin.Dashboard.EditDescription` | pages/AdminPages.tsx:153 | editing the description changes only the draft's description |
| `Admin.Dashboard.EditCollection` | pages/AdminPages.tsx:159 | choosing a collection changes only the draft's collection |
| `Public.Featured` | pages/PublicPages.tsx:18 | the featured list holds only featured artworks and is no longer than the list; exact contents in `Public.FeaturedSpec` |
| `Public.DepthSection` | pages/PublicPages.tsx:52 | `slice(0, 5)`: at most five artworks, a prefix of the featured list |
| `Public.HorizontalGallery` | pages/PublicPages.tsx:55 | the depth section's artworks are a prefix of the gallery's |
| `Public.FeaturedSpec` | pages/PublicPages.tsx:18 | the featured list is exactly the featured artworks, in original order |
| `Public.HomeSectionsSpec` | pages/PublicPages.tsx:52-55 | the depth section gets the first min(5, number featured) featured artworks in order; the horizontal gallery gets all of them |
| `Public.ArchiveFilter` | pages/PublicPages.tsx:74 | the archive never shows more artworks than the list; for a value other than `'all'` every shown artwork belongs to that collection |
| `Public.ArchiveFilterSpec` | pages/PublicPages.tsx:73-74 | `'all'` returns the list unchanged; any other value keeps exactly that collection's artworks, as many as the list holds; the result is an order-preserving selection, no longer than the list, and filtering again changes nothing |
| `Public.FilterChoices` | pages/PublicPages.tsx:80-95 | the archive offers "All" first and then one button per collection, in the collections' order, each carrying that collection's id |
| `Public.FilterChoiceSpec` | pages/PublicPages.tsx:90 | choosing a collection's button shows exactly that collection's artworks, or the whole list when the collection's id is `'all'` |
| `Public.Detail` | pages/PublicPages.tsx:122-129 | a found page shows an artwork of the list whose slug is the route's |
| `Public.DetailSpec` | pages/PublicPages.tsx:122-129 | not found iff no artwork has the slug; otherwise the first artwork with that slug |
| `Public.AvailabilityLabel` | pages/PublicPages.tsx:164 | the badge text is non-empty and as long as the stored name (at most one character is swapped, none removed) |
| `Public.AvailabilityLabels` | pages/PublicPages.tsx:164 | the badge reads "for sale", "sold" and "nfs" |
| `Public.AccentBadge` | pages/PublicPages.tsx:163 | the accent badge is used iff the artwork is for sale |
| `Public.GalleryImageEnter` | pages/PublicPages.tsx:183 | entering a gallery image sets the view mode to `view` whatever it was; the menu is untouched |
| `Public.GalleryImageLeave` | pages/PublicPages.tsx:184 | leaving a gallery image sets the view mode to `default` whatever it was; the menu is untouched |
| `UI.Variant` | components/UI.tsx:38-43 | every cursor variant is a square with x == y == minus half its side (centred on the pointer); only `view` uses the accent fill; `drag` and `play` draw the accent border |
| `UI.Glyphs` | components/UI.tsx:56-58 | at most one glyph: the "View" label iff `view`, the arrow iff `drag`, the triangle iff `play`, none iff `default` |
| `UI.MenuItems` | components/UI.tsx:72-78 | five menu entries from `/` to `/admin`, with pairwise-distinct paths |
| `UI.UIState.constructor` | components/UI.tsx:16-21 | the start state is the `default` view mode with the menu closed and no glyph |
| `UI.UIState.SetViewMode` | components/UI.tsx:11 | the last write wins, and the cursor animates to exactly that mode's variant; the menu is untouched |
| `UI.UIState.SetMenuOpen` | components/UI.tsx:13 | sets the menu flag and leaves the view mode |
| `UI.UIState.ToggleMenu` | components/UI.tsx:88 | the header button flips the menu flag |
| `UI.UIState.LocationChanged` | components/UI.tsx:68-70 | every location change leaves the menu closed, whatever its prior state |
| `UI.PressMenuTwice` | components/UI.tsx:88 | two presses of the header button restore the menu flag |
| `UI.OpenThenNavigate` | components/UI.tsx:68-70 | an open menu is closed by navigating |

## Left out

- Scroll choreography is not part of this model: `components/ThreeDScroll.tsx` and
  `components/HorizontalScroll.tsx`.
  - Their progress values come from an animation library's scroll hooks.
  - Those values are floating point.
  - The card z-index rule would need real-number reasoning that the float code does not
    guarantee.
- `ArtworkDetail`'s effect that scrolls the window to the top whenever the slug changes
  (`pages/PublicPages.tsx:125-127`) is a `window.scrollTo` side effect and is not modelled.
- Routing and `ScrollToTop` in `App.tsx` are library routing and a `window.scrollTo` side
  effect, and are not modelled. The shared state is the `UIState` class, and the artwork list
  is the `Dashboard`'s `artworks` field.
- `Contact`'s `submitted` flag with its 3000 ms reset is a timer.
- Pointer-position tracking through window listeners is left out.
- Rendering is left out: JSX, CSS classes, animation timings, and the static About and
  Footer content.
- `Admin.Slug` (and `Strings.ToLower`): lower-casing covers ASCII only (A-Z to a-z, everything
  else unchanged). JavaScript's Unicode case mapping, which can change a string's length, is
  not modelled.
- `Public.Detail`: the route parameter is a string. The route `/art/:slug` always supplies one,
  so the parameter's undefined case is not modelled.
- `UI.Variant`: the accent colour comes from the `constants` file, which is not part of this
  model. The model names it `Accent`, without its value.
