# Suriname real estate: the photo-list rules, verified

This project is a Dafny model of the core of a small Flask site for property
listings in Suriname. It covers the rules that keep a listing's photo list
consistent, on the server and in the browser, and the few pure helpers around
them:

- **Server tables** (`listings.dfy`, `models.dfy`). The `user`, `property` and
  `property_images` tables are held as maps in one `Site` object. Its
  methods are the routes that change them:
  - new listing with photos;
  - edit with extra photos;
  - delete photo, set primary photo, reorder photos;
  - toggle status, delete listing, register.

  `Site.Valid` is kept by every route. It says:
  - every photo belongs to a stored listing;
  - ids stay below their counters;
  - emails are unique;
  - no listing has two primary photos.

  The relationship's photo order (primary first, then sort order, then id)
  is proved to be a total order that fixes the list completely.
- **Template filters and helpers** (`filters.dfy`, `chars.dfy`):
  - the upload extension check;
  - the dotted-thousands price and currency filters;
  - the status toggle;
  - the "district - wijk" string and the detail page's breadcrumb;
  - the wijken lookup of the JSON API.
- **Photo grid of the edit page** (`photo_grid.dfy`). A `Grid` object holds
  the cards in document order. It models:
  - drag and drop;
  - Ctrl/Cmd+arrow moves;
  - the `{id, sort_order}` payload sent after every move;
  - the exclusive primary badge;
  - the delete button's busy flag;
  - the single toast.
- **Gallery of the detail page** (`gallery.dfy`): choosing a thumbnail,
  cyclic keyboard navigation, and swipes with a 50 pixel threshold.
- **District/wijk cascade of the listing forms** (`location.dfy`):
  - the wijk select's states while the wijken load;
  - the single error alert;
  - submit validation;
  - `aria-disabled` mirroring `disabled`, which is kept as `Form.Valid`.
- **End to end** (`photo_sync.dfy`): a drop, then the grid's payload, then
  the reorder route. Every photo the user owns ends with the sort order of
  its card's position.

Inputs stand in for what the code cannot see:
- the session's user id;
- the form fields;
- whether each photo file saves;
- the answers of fetch requests and of the confirm dialog;
- the `DISTRICT_WIJKEN` table.

## Model

| member | source | states |
|---|---|---|
| Chars.Strip | app.py:365 | `str.strip()` over Python's whitespace (the ASCII controls, the space, and the Unicode spaces and separators): the result has no leading or trailing whitespace and is no longer than the input |
| Chars.StripIdempotent | app.py:365 | stripping an already stripped field changes nothing |
| Chars.LowerIdempotent | app.py:366-367 | lower-casing an already lower-cased field changes nothing |
| Chars.UpperIdempotent | app.py:411 | upper-casing an already upper-cased currency changes nothing |
| Chars.StripBlank | app.py:371 | a stripped field is empty exactly when the field is all whitespace; the stripped text is a contiguous slice of the field |
| Chars.Upper | app.py:411 | upper-casing keeps the length and maps every ASCII letter to its capital |
| Chars.Lower | app.py:366-367 | lower-casing keeps the length and maps every ASCII capital to its small letter |
| Chars.DigitsRoundTrip | app.py:98 | the decimal digits of n read back as n |
| Filters.LastDot | app.py:56 | finds the last '.': None exactly when there is no dot, otherwise a dot with no dot after it |
| Filters.AllowedFileMeaning | app.py:55-56 | a name is accepted exactly when it has a last dot and the lower-cased text after it is png, jpg, jpeg or webp |
| Filters.AllowedFileAt | app.py:56 | once the last dot is known, acceptance is the extension test on the text after it |
| Filters.AllowedFileUpperCase | app.py:56 | "a.PNG" is accepted: the extension is compared case-insensitively |
| Filters.AllowedFileNeedsDot | app.py:56 | "png" is refused: a name without a dot never passes |
| Filters.AllowedFileRejectsGif | app.py:56 | "a.gif" is refused: other extensions never pass |
| Filters.GroupedRemoveDots | app.py:98 | grouping only inserts dots: removing them gives the digits back |
| Filters.GroupedDotPositions | app.py:98 | in a grouped number the k-th character from the right is a dot exactly when k mod 4 is 3, and the first character is a digit |
| Filters.FormatPriceRoundTrip | app.py:96-100 | the price filter writes '-' exactly for negative numbers, and the rest without its dots is the decimal form of the absolute value |
| Filters.FormatCurrency | app.py:103-121 | non-numbers come back unchanged; numbers get the symbol, a space and the same digits as the price filter |
| Filters.CurrencySymbol | app.py:108-118 | EUR gives "€", USD "$", SRD "SRD" (in any case); any other code is written as given |
| Filters.FormatCurrencyCaseInsensitive | app.py:110-116 | two spellings of a known code format every value alike |
| Filters.ToggleStatus | app.py:763-770 | "te koop" and "verkocht" swap, "te huur" and "verhuurd" swap, any other status is kept |
| Filters.ToggleStatusInvolution | app.py:763-770 | toggling twice restores every status |
| Filters.SplitDistrict | app.py:480 | `split(" - ")` always gives at least one part |
| Filters.SplitJoined | app.py:480 | splitting "a - b" with no '-' in a gives a followed by the parts of b |
| Filters.Capitalize | app.py:481-483 | `str.capitalize`: same length, first character upper-cased, the rest lower-cased |
| Filters.CapitalizeLower | app.py:481 | capitalising the lower-cased string equals capitalising the original |
| Filters.BreadcrumbOfComposed | app.py:480-484 | the breadcrumb of a stored "district - wijk" (lower-cased on save, neither part containing '-') gives back both names capitalised; without a wijk it has no wijk |
| Filters.ApiWijkenCaseInsensitive | app.py:134-135 | the wijken lookup ignores the district's case and answers [] for an unknown district |
| Models.AtMostOnePrimaryCount | app.py:713-717 | with the at-most-one-primary invariant, a listing has at most one primary photo |
| Models.BeforeIsStrictTotalOrder | models.py:77-81 | the ordering key (primary first, then sort order, then id) is irreflexive, asymmetric, transitive and total on distinct ids |
| Models.SortedSameElementsEqual | models.py:77-81 | two lists sorted by that key that hold the same photos are equal |
| Models.RelationshipOrderUnique | models.py:72-82 | the relationship's photo list of a listing is fully determined |
| Models.PrimaryComesFirst | models.py:77-81 | when a listing has a primary photo, its photo list starts with it |
| Listings.ValidPhotos | app.py:427-429 | keeps exactly the uploads with a non-empty name that passes the extension check |
| Listings.ValidPhotosAppend | app.py:427-429 | the comprehension works upload by upload and keeps their order: the uploads kept from a + b are those kept from a, followed by those kept from b |
| Listings.ValidPhotosSingle | app.py:427-429 | a single upload is kept, once, exactly when its name is non-empty and passes the extension check |
| Listings.SavedImagesShape | app.py:439-458 | the upload loop makes one record per saved photo, in upload order, each with the sort order of its upload position; only the first saved photo is primary, and only when no primary existed |
| Listings.AppendedAboveExisting | app.py:588-607 | photos added on edit sort strictly above every photo already there |
| Listings.FirstBySortOrder | app.py:685-689 | finds a photo of the listing with the smallest sort order (lowest id on ties), or None exactly when the listing has none |
| Listings.MaxSortOrder | app.py:588-593 | the largest sort order of the listing's photos, or 0 when it has none |
| Listings.ApplyOrderFails | app.py:736-746 | the reorder rolls back exactly when some item has no usable id or an id outside SQLite's 64-bit integers, or names an owned photo with no sort order or one outside that range |
| Listings.ApplyOrderFrame | app.py:737-740 | a successful reorder changes only sort orders, only of owned photos, and only of photos some item names |
| Listings.ApplyOrderSets | app.py:737-740 | with distinct ids, every named photo the user owns takes its item's sort order, which fits a 64-bit integer |
| Listings.NewListing | app.py:406-420 | the new record is stored normalised: stripped title, lower-case type, status and district, upper-case valuta, a price that is not negative; the session user is the owner and the valuta is "SRD" when none is sent |
| Listings.NewListingKeepsNormalInput | app.py:365-411 | a form whose title, type, status and valuta are already normalised is stored as sent |
| Listings.NewListingDistrict | app.py:383-417 | the stored district splits at " - " back into the stripped, lower-cased district and, when one was sent, the wijk (neither containing '-') |
| Listings.NewListingResubmit | app.py:539-545 | a new listing saved again through its prefilled edit form is unchanged |
| Listings.EditedListing | app.py:539-545 | the edited record keeps owner and district, takes the price, and stores title, type, status and valuta normalised; a normalised listing stays normalised, and then a missing type, status or valuta keeps the stored value |
| Listings.EditedListingIdempotent | app.py:539-545 | submitting the same edit form twice stores what one submit stored |
| Listings.PrefilledRoundTrip | app.py:539-545 | saving the edit form prefilled with a normalised listing's own values leaves the listing unchanged |
| Listings.CascadeUser | models.py:20-25 | removing a user removes exactly that user's listings |
| Listings.CascadeImages | models.py:72-76 | exactly the photos whose listing is still stored remain |
| Listings.RegisterRefusal | app.py:302-317 | each refusal happens exactly when its check is the first to fail: fields required exactly when a field is empty; passwords differ; then a password shorter than 6; then an email in use; no refusal exactly when every check passes |
| Listings.SinglePrimaryFacts | app.py:713-717 | after the bulk clear and the set, the chosen photo is its listing's only primary; only primary flags change; other listings are untouched |
| Listings.Site.AddListing | app.py:357-462 | not logged in, missing fields, a bad price and more than 10 photos each refuse with no listing left behind; otherwise the listing is stored under a fresh id with the records of the upload loop |
| Listings.Site.SavePhotos | app.py:439-460 | the photo table gains exactly the upload loop's records under consecutive fresh ids, and the table invariants hold |
| Listings.Site.EditListing | app.py:514-617 | 404, 403, missing title, missing or bad price, more than 10 photos in total, and a new photo's sort order beyond SQLite's 64-bit integers (the commit raises) change nothing; otherwise the fields are updated and the new photos appended above the current maximum |
| Listings.SavedImagesFit | app.py:601-615 | the new photos' sort orders fit 64-bit integers when the whole run of upload positions does, and do not when the run starts past the range and a photo saves |
| Listings.EditPhotosFit | app.py:588-615 | a listing whose highest sort order is 2^63 - 1 makes any edit that saves a photo fail at commit; with room above the maximum for every upload, the edit's photos fit |
| Listings.Site.ApplyEdit | app.py:583-615 | the committed edit: new field values, then the new photos from sort order max + 1, primary only if the listing had none |
| Listings.Site.DeleteImage | app.py:657-695 | 404 and 403 change nothing; deleting a primary makes the remaining photo with the lowest sort order primary and returns it, or None when none remain; deleting another photo changes nothing else |
| Listings.Site.SetPrimary | app.py:703-720 | 404 and 403 change nothing; otherwise the chosen photo becomes its listing's only primary and nothing else changes |
| Listings.ReorderItem | app.py:737-740 | one pass of the reorder loop is the reorder step: a photo the user owns takes the item's sort order, other ids are skipped, a missing key or out-of-range value raises |
| Listings.PendingOrder | app.py:736-741 | the reorder loop computes the whole pass, stopping with a failure at the first item that raises |
| Listings.ApplyOrderKeepsTablesValid | app.py:737-742 | a committed reorder keeps every table invariant |
| Listings.Site.Reorder | app.py:728-746 | a body without "order" gives 400; a raising item (a missing key, or an id or owned photo's sort order outside SQLite's 64-bit integers) rolls back every change; otherwise the photos are those of the whole reorder pass |
| Listings.Site.ToggleListingStatus | app.py:754-774 | 404 and 403 change nothing; otherwise only the listing's status is toggled |
| Listings.Site.DeleteListing | app.py:627-649 | 404 and 403 change nothing; otherwise the listing and all its photos are removed |
| Listings.Site.DeleteUser | models.py:20-25 | deleting a user removes that user, their listings and those listings' photos |
| Listings.Site.Register | app.py:294-327 | a refused registration changes nothing; an accepted one stores the stripped name and email under a fresh non-zero id |
| PhotoGrid.Move | static/js/image_delete.js:270-274 | moving keeps the number of cards |
| PhotoGrid.MoveLands | static/js/image_delete.js:270-274 | the dragged card ends at the target's index |
| PhotoGrid.MoveBesideTarget | static/js/image_delete.js:270-274 | dragged forward it sits right after the target card, dragged back right before it |
| PhotoGrid.MoveKeepsOthers | static/js/image_delete.js:270-274 | every other card keeps its relative order |
| PhotoGrid.MovePermutes | static/js/image_delete.js:270-274 | the multiset of cards is unchanged |
| PhotoGrid.MoveKeepsKeysDistinct | static/js/image_delete.js:264-274 | a move neither duplicates nor loses a card |
| PhotoGrid.MoveNeighbourSwaps | static/js/image_delete.js:417-428 | moving a card onto a neighbour swaps the two |
| PhotoGrid.IndexOfKey | static/js/image_delete.js:266-267 | `indexOf`: the first index holding the card, or -1 exactly when no index does |
| PhotoGrid.PayloadMatchesCards | static/js/image_delete.js:289-297 | one item per card with an image id, in document order, whose sort order is that card's index among all cards |
| PhotoGrid.PayloadAllIds | static/js/image_delete.js:289-297 | when every card has an id, item j is card j's id at sort order j |
| PhotoGrid.PayloadExample | static/js/image_delete.js:289-297 | a card without an id is skipped but still counts for the indexes |
| PhotoGrid.BuildOrder | static/js/image_delete.js:287-297 | the loop builds exactly the payload |
| PhotoGrid.WithPrimaryExclusive | static/js/image_delete.js:155-187 | after the badge update at most one card carries the badge, and one does exactly when some card has the id; only badges and buttons change |
| PhotoGrid.FindCardWithImage | static/js/image_delete.js:168-170 | finds the first card with the image id, or -1 exactly when there is none |
| PhotoGrid.KeyTarget | static/js/image_delete.js:414-430 | only Ctrl or Cmd without Shift moves; Left/Up goes to the predecessor and Right/Down to the successor; at the ends nothing moves |
| PhotoGrid.KeyMoveRightThenLeft | static/js/image_delete.js:414-430 | Ctrl+ArrowRight then Ctrl+ArrowLeft puts the card back where it was |
| PhotoGrid.Grid.ShowToast | static/js/image_delete.js:332-393 | the old toast goes before the new one is added, so one toast exists; the style element is added once |
| PhotoGrid.Grid.ExpireToast | static/js/image_delete.js:385-392 | the timer removes its own toast only if it is still present |
| PhotoGrid.Grid.SavePhotoOrder | static/js/image_delete.js:283-299 | sends the payload of the current order, and nothing when it is empty |
| PhotoGrid.Grid.ReorderAnswered | static/js/image_delete.js:309-326 | the answer to a reorder shows the success or the failure toast |
| PhotoGrid.Grid.DragStart | static/js/image_delete.js:195-200 | the dragged card is remembered |
| PhotoGrid.Grid.DragEnd | static/js/image_delete.js:215-228 | the drag is forgotten |
| PhotoGrid.Grid.MoveAndSave | static/js/image_delete.js:269-277 | the dragged card lands at the target's index, the keys stay distinct, and the new order is sent |
| PhotoGrid.Grid.InsertAfterAndSave | static/js/image_delete.js:269-277 | a card not in the grid is inserted after the target, the keys stay distinct, and the new order is sent |
| PhotoGrid.Grid.Drop | static/js/image_delete.js:250-278 | with no drag, no target or the dragged card as target nothing happens; otherwise the dragged card moves to the target's index and the new order is sent |
| PhotoGrid.Grid.KeyMove | static/js/image_delete.js:398-435 | a move swaps the focused card with its neighbour, sends the order and shows "Volgorde gewijzigd"; otherwise nothing changes and nothing is sent |
| PhotoGrid.Grid.UpdatePrimaryBadge | static/js/image_delete.js:155-187 | the cards become the exclusive-badge cards |
| PhotoGrid.Grid.ClickMakePrimary | static/js/image_delete.js:98-114 | a click on a card with an id and an enabled button disables it with "Bezig..." and requests that id; otherwise nothing happens |
| PhotoGrid.Grid.PrimaryConfirmationExpired | static/js/image_delete.js:140-142 | two seconds after a successful set-primary answer the confirmed button reads "Al hoofdfoto"; nothing else changes |
| PhotoGrid.Grid.MakePrimaryDone | static/js/image_delete.js:116-149 | success updates the badges and shows "✓ Hoofdfoto", failure restores the text; either way the clicked button ends enabled |
| PhotoGrid.Grid.ClickDelete | static/js/image_delete.js:4-23 | a request is sent exactly when the card is not busy, has an id and the user confirms, and then the card becomes busy; otherwise nothing changes |
| PhotoGrid.Grid.DeleteDone | static/js/image_delete.js:46-92 | failure clears the busy flag; success removes the card, shows the empty notice once no card remains and moves the badge when a new primary id is truthy |
| Gallery.AltOf | static/js/gallery.js:16 | the thumbnail's alt when present and non-empty, else "Property photo" |
| Gallery.SelectedExactlyOne | static/js/gallery.js:20-28 | exactly the chosen thumbnail is active and aria-selected; sources and alts are kept; choosing it again changes nothing |
| Gallery.KeyDown | static/js/gallery.js:43-70 | every focus target is in range; Enter and Space activate; any other key is ignored |
| Gallery.KeyDownTargets | static/js/gallery.js:46-62 | Home goes to 0, End to n-1, the arrows to the neighbour, wrapping at both ends |
| Gallery.KeyDownRightLeft | static/js/gallery.js:47-54 | ArrowRight then ArrowLeft, or the reverse, returns to the start |
| Gallery.RightPressesCycle | static/js/gallery.js:47-50 | k presses of ArrowRight (k at most n) move k places modulo n, so n presses return to the start |
| Gallery.SwipeTarget | static/js/gallery.js:232-254 | a swipe shorter than 50 pixels, or one without an active thumbnail, selects nothing; a longer one with an active thumbnail selects one in range |
| Gallery.SwipeLikeArrows | static/js/gallery.js:245-254 | a swipe left selects the next thumbnail and a swipe right the previous one, cyclically, as the arrow keys do |
| Gallery.SwipeThresholdExample | static/js/gallery.js:233-236 | exactly 50 pixels counts as a swipe, 49 does not |
| Gallery.FirstActive | static/js/gallery.js:239 | the first active thumbnail, or None exactly when none is active |
| Gallery.Page.ChangePhoto | static/js/gallery.js:4-29 | without a main photo or a thumbnail nothing changes; otherwise the main photo takes the thumbnail's source and alt and only that thumbnail is selected |
| Gallery.Page.KeyPressed | static/js/gallery.js:43-74 | the arrows, Home and End move focus only; Enter and Space change the photo without moving focus; other keys do nothing |
| Gallery.Page.TouchStart | static/js/gallery.js:215-221 | records the start position only |
| Gallery.Page.TouchEnd | static/js/gallery.js:223-255 | records the end position and shows the swipe's target, or changes nothing without one |
| Location.CapitalizeFirst | static/js/location.js:77-80 | "" stays ""; otherwise the length is kept, the first character is upper-cased and the rest is unchanged |
| Location.CapitalizeFirstIdempotent | static/js/location.js:77-80 | capitalising twice is capitalising once; only a lower-case first letter changes anything |
| Location.PopulatedOptions | static/js/location.js:36-60 | a placeholder with an empty value, then one option per wijk in response order with the wijk as value and capitalised as text; an option is selected exactly when it is the non-empty pre-selected wijk |
| Location.AfterResponseEnabled | static/js/location.js:36-69 | the select is enabled exactly after a non-empty array, and then offers every wijk; otherwise it holds one notice with an empty value |
| Location.Form.LoadWijken | static/js/location.js:15-27 | an empty district asks for one and sends nothing; otherwise "Laden..." shows and one request goes out, remembering the wijk to pre-select; the select is disabled either way |
| Location.Form.InitialLoad | static/js/location.js:119-124 | with a district already chosen, its wijken are requested with the stored wijk to pre-select; without one nothing happens |
| Location.Form.AppendWijkOptions | static/js/location.js:48-59 | one option per wijk is appended after the placeholder, in response order |
| Location.Form.WijkenArrived | static/js/location.js:36-69 | the select takes the response's options and disabled flag, pre-selecting the wijk its own request was sent with; a failed request also shows the error alert |
| Location.Form.ShowError | static/js/location.js:86-104 | at most one alert exists: the first error creates it, a later message lands in the alert's first element child |
| Location.Form.DismissError | static/js/location.js:107-112 | the timer closes its own alert only if it is still there |
| Location.Form.DistrictChanged | static/js/location.js:130-139 | a district change reloads the wijken with no wijk to pre-select, removes the alert and clears the invalid state |
| Location.Form.Submit | static/js/location.js:148-175 | submission is prevented exactly when no district is chosen, and then the control is invalid with visible feedback; otherwise the invalid state is cleared |
| PhotoSync.SavedOrderIsGridOrder | app.py:736-743 | when the cards' photo ids and positions fit 64-bit integers, the grid's payload never makes the reorder raise; each photo of a card that the user owns gets that card's index as its sort order; photos on no card keep theirs |
| PhotoSync.DraggedPhotoLandsAtTarget | static/js/image_delete.js:250-278 | after a drop from index d to index t and the reorder it triggers, the dragged photo's sort order is t |

## Left out

- Flask plumbing is not modelled: routing, sessions, login, logout, flash messages, redirects, templates, the listing pages, `apply_filters` and pagination. The session's user id is an input.
- Password hashing is not modelled. A registered user is stored without a password hash.
- File I/O, `secure_filename` and uuid file names are not modelled. Whether a photo saves is an input flag per upload, and deleting files is left out.
- Prices and areas are floats in the source. The model keeps prices as whole numbers and leaves out the description and the optional area and title-deed fields. `float()` parsing becomes the `PriceField` cases.
- Filters.FormatPrice: takes an integer or a non-number, so `int()` truncating a float is not modelled.
- Ids come from counters and are never reused. SQLite can reuse the id of a deleted last row. The counters are unbounded; SQLite's row ids stop at 2^63 - 1.
- A URL id (`<int:...>`) beyond SQLite's 64-bit integers makes the lookup raise in the source (an error page); the model answers not found. The state is unchanged either way.
- Listings.ReorderStep: the source binds an id when it looks the photo up, and an out-of-range id raises there; an out-of-range sort order only raises when the session flushes (at the next lookup of a photo not yet loaded, or at the commit). The model raises at the item itself. A request that names the same photo again with an in-range sort order before any flush commits in the source and is rolled back in the model.
- Listings.ApplyOrderFails: states the failure condition with that timing difference; a repeated id that repairs an out-of-range sort order before a flush is counted as raising.
- Listings.Site.Reorder: rolls back on that repaired case too, where the source commits.
- PhotoSync.SavedOrderIsGridOrder: needs the cards' photo ids and positions to fit 64-bit integers. Ids rendered from the database always do.
- The at-most-3-characters limit on `Property.valuta` is not modelled. The routes do not enforce it and SQLite ignores declared lengths.
- The column defaults `is_primary = False` and `sort_order = 0` are not modelled. Every insert in the routes sets both columns.
- Listings.Site.DeleteImage: the query's order leaves ties between equal sort orders open. The model picks the lowest id among them.
- Listings.ApplyOrderSets: needs the request's ids to be distinct. With repeated ids the last item wins, and that case is not stated.
- The reorder body's `sort_order` values are modelled as integers only. JSON values of other types are not modelled.
- Case mapping covers ASCII letters only. Python and JavaScript also map other Unicode letters.
- Timers are separate methods (`ExpireToast`, `DismissError`, `PrimaryConfirmationExpired`). The delete card's 300 ms fade is collapsed into the response handler.
- Asynchronous requests are not modelled. Each is split into the click that sends it and a method for its answer, and overlapping requests are not modelled.
- A card's image id stands for the ids on its card, its delete button and its make-primary button alike. The source reads three attributes, and the model assumes they agree.
- A drop outside any card is treated as no target.
- Location.Form.Submit: assumes the feedback element it creates becomes the select's next sibling.
- The lightbox, lazy loading, the back-button reload and the debug panel of the client scripts are not modelled.
- Focus moves (`focus()`), drag-over highlighting and the effects of `MutationObserver` beyond aria-disabled mirroring are not modelled.
- static/js/forms.js, the migration scripts and the `DISTRICT_WIJKEN` data in locations.py are not part of this model. The wijken table is a parameter.
