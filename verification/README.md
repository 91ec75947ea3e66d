# Nexo marketplace: client-side rules, modelled in Dafny

Nexo is a B2B marketplace front end. Sellers post listings, buyers search them and message sellers, and administrators moderate users and listings. Storage, authentication and file upload belong to a hosted backend. This project models the deterministic logic the React pages run on the data they fetch:

- **Search** (`Search`): the five-way conjunctive listing filter, the sort by mode, pagination at six per page, the page cursor, the category/condition checkboxes, and the reset to page 1 when a filter changes.
- **Post wizard** (`PostWizard`): five-step navigation, the per-step gate on Next, the photo list capped at eight, photo removal, and the checks and records of publishing.
- **Dashboard** (`Dashboard`): message display rows (sender labels, the 100-character preview, the unread mark), the listing status label, the four counters, marking a message read, the delete confirmation and the top-listings panel.
- **Listing detail** (`ListingDetail`): the image fallback, the carousel index, the administrator's status update, and who may edit a listing or message its seller.
- **Roles** (`Roles`): the signed-in user's role list and the role predicates.
- **Admin console** (`Admin`): users joined with their roles, the add/remove role toggle, and disabling or enabling a listing.
- **Message dialog** (`MessageModal`): the send guards, the inserted record, and the reset of subject and content.

Each UI action is a function from the old state to the new one. Backend calls become inputs: fetched rows are sequences, a failed role query is `None`, and `parseFloat` and the public URL of an uploaded file are function parameters. Three writes carry a success flag: the message insert, the dashboard's soft delete and the console's disable/enable update. Every other write is modelled as succeeding (see "Left out").

Five shared modules carry JavaScript semantics the pages rely on:

- `Text`: `trim` over the ECMAScript white-space set, the blank test, ASCII lower-casing, `includes`, and `||` on strings.
- `Seqs`: `filter`, `slice` with its index clamping (including negative indices), filter-by-position, and the positions `find` (first match) and `new Map(...)` (last match) settle on.
- `Sorting`: `Array.prototype.sort`, which is stable. It is modelled as a stable insertion sort by an integer key, proved to be a permutation, ordered, stable, and the identity on already-sorted input.
- `Wrappers`: the `Option` type for nullable values.
- `Profiles`: the one profile row all pages read (user, company name, first and last name, verification flag).

Behaviour of the code as written that the proofs make explicit:

- A profile whose company name is literally "You" is labelled "You" on the dashboard, like the signed-in user (`Dashboard.YouLabelIsAmbiguous`).
- `activeListings` counts a published listing that an administrator disabled, even though its label says Disabled (`Dashboard.DisabledCountsAsActive`).
- Entering 0 as the maximum search price reads as 100000, because the input handler writes `parseInt(v) || 100000` (`Search.MaxPriceInput`).
- The publish check tests the raw title, description and price for emptiness without trimming. The wizard's step gates trim, so any form that passed the gates also passes the publish check (`PostWizard.GatesImplyComplete`).
- The listing page offers Edit to an administrator on any seller's listing (`ListingDetail.EditNeedsOwnerOrAdmin`). The post page, however, loads and updates only listings the signed-in user owns, so the administrator is sent back to the dashboard (`PostWizard.ForeignListingRedirects`), and the update is filtered on the owner (`PostWizard.Publish`).

The sort switch has a `default` branch: any unrecognised mode keeps the filtered order. A listing's stored status is a free string: the dashboard maps only `"published"` to Published, and the detail page's selector offers draft, published and archived.

## Model

| member | source | states |
|---|---|---|
| `Roles.RolesOf` | OldProject/src/hooks/useRoles.tsx:32-42 | a role is in the fetched list iff the role table has a row granting it to that user |
| `Roles.RolesOfAppend` | OldProject/src/hooks/useRoles.tsx:32-42 | the list is the role column of the user's rows in table order, repetitions included: no rows give no roles, and an appended row appends its role exactly when it is the user's |
| `Roles.RolesAfterUserChange` | OldProject/src/hooks/useRoles.tsx:19-48 | signed out the list is empty; signed in it is the role column of the user's rows (`RolesOf`), so it holds exactly the user's roles; a failed query leaves the previous list |
| `Roles.HasRoleIffRow` | OldProject/src/hooks/useRoles.tsx:50-52 | `hasRole(r)` holds iff the role table grants `r` to the signed-in user |
| `Roles.ManageUsersImpliesManageListings` | OldProject/src/hooks/useRoles.tsx:59-60 | whoever may manage users may also manage listings |
| `Roles.SignedOutHoldsNothing` | OldProject/src/hooks/useRoles.tsx:19-60 | with no signed-in user every role predicate and both permissions are false |
| `Search.FilterListings` | OldProject/src/pages/SearchPage.tsx:129-139 | every kept listing is a loaded listing matching all five predicates, and every matching loaded listing is kept |
| `Search.FilterListingsCounts` | OldProject/src/pages/SearchPage.tsx:129-139 | the filter keeps each copy of a matching listing and none of a failing one |
| `Search.FilterListingsKeepsOrder` | OldProject/src/pages/SearchPage.tsx:129-139 | filtering a concatenation concatenates the filtered parts, so input order is kept |
| `Search.NeutralFiltersKeepEverything` | OldProject/src/pages/SearchPage.tsx:131-137 | a blank query, no categories, no conditions and "All Countries" drop nothing when every price lies within the inclusive range |
| `Search.SortListings` | OldProject/src/pages/SearchPage.tsx:140-151 | the sort permutes the filtered list; price-asc gives non-decreasing prices, price-desc non-increasing prices, newest non-increasing creation times |
| `Search.RelevanceKeepsOrder` | OldProject/src/pages/SearchPage.tsx:148-149 | sorting by relevance leaves the filtered order unchanged |
| `Search.SortListingsStable` | OldProject/src/pages/SearchPage.tsx:140-151 | listings with equal sort keys keep their relative order |
| `Search.TotalPages` | OldProject/src/pages/SearchPage.tsx:153 | the page count is at least 1, covers every result, is exactly 1 for no results, and has no wholly empty page beyond the first |
| `Search.Page` | OldProject/src/pages/SearchPage.tsx:154 | page p holds at most 6 items: results (p-1)*6 onward, in order, and exactly 6 when the list reaches p*6 |
| `Search.PagesFromIsSlice` | OldProject/src/pages/SearchPage.tsx:154 | consecutive pages first..last hold exactly the results from (first-1)*6 up to last*6 |
| `Search.PagesReassemble` | OldProject/src/pages/SearchPage.tsx:153-155 | concatenating pages 1 to the page count reproduces the result list |
| `Search.PreviousPage` | OldProject/src/pages/SearchPage.tsx:357 | Previous never goes below page 1 or past the current page, and steps back one from any later page |
| `Search.NextPage` | OldProject/src/pages/SearchPage.tsx:376 | Next never passes the page count or goes back, and steps forward one before the last page |
| `Search.ToggleSelection` | OldProject/src/pages/SearchPage.tsx:214 | checking appends the name; unchecking removes every copy of it, keeps every other selection and adds nothing |
| `Search.ClickTwiceRestores` | OldProject/src/pages/SearchPage.tsx:209-215 | checking then unchecking an unselected box restores the selection exactly |
| `Search.MaxPriceInput` | OldProject/src/pages/SearchPage.tsx:239 | the maximum price is never 0: a non-zero parsed value is taken as entered, anything else becomes 100000 |
| `Search.MinPriceInput` | OldProject/src/pages/SearchPage.tsx:232 | a parsed value is taken as entered; an unparsable input becomes 0 |
| `Search.ClickBox` | OldProject/src/pages/SearchPage.tsx:209-215 | clicking a box selects its name iff it was not selected and leaves every other name's selection as it was |
| `Search.Handle` | OldProject/src/pages/SearchPage.tsx:157-159 | each filter event changes only its own filter, to the value its input handler computes (the clicked box flipped, the parsed price with its fallback); text filters and the sort go back to page 1 only when their value changes, checkboxes and prices always; Previous and Next move as their buttons compute, and a page button goes to its page |
| `Search.InitialStateShowsAll` | OldProject/src/pages/SearchPage.tsx:41-47 | arriving without a query shows every loaded listing priced within the default range, in loaded order, on page 1 |
| `Search.HandleResetsOrPreserves` | OldProject/src/pages/SearchPage.tsx:157-159 | any event that changes a filter or the sort puts the cursor on page 1; paging events change no filter |
| `Search.HandleKeepsPageInRange` | OldProject/src/pages/SearchPage.tsx:353-380 | over fixed loaded listings every event keeps the cursor within 1 and the page count of the new results |
| `Sorting.SortBy` | OldProject/src/pages/SearchPage.tsx:140-151 | the sort returns a permutation of its input, ordered by key |
| `Sorting.SortByStable` | OldProject/src/pages/SearchPage.tsx:140-151 | the sort is stable: the elements sharing a key appear in input order |
| `Sorting.SortBySortedIsIdentity` | OldProject/src/pages/SearchPage.tsx:140-151 | input already in key order comes back unchanged |
| `Text.Trim` | OldProject/src/pages/PostPage.tsx:153 | the trimmed text is a contiguous part of the input with only white space cut before and after it, no white space left at either end, and empty exactly for all-white-space input |
| `Text.TrimIdempotent` | OldProject/src/components/MessageModal.tsx:53-54 | trimming a trimmed text changes nothing |
| `PostWizard.Start` | OldProject/src/pages/PostPage.tsx:9-22 | the wizard opens on step 1 with every field empty, no photo, and the `edit` parameter as given |
| `PostWizard.NextStep` | OldProject/src/pages/PostPage.tsx:138-142 | Next keeps the step within 1..5, advances by one before step 5, does nothing on step 5, and leaves the form alone |
| `PostWizard.PrevStep` | OldProject/src/pages/PostPage.tsx:144-148 | Previous keeps the step within 1..5, goes back one after step 1, does nothing on step 1, and leaves the form alone |
| `PostWizard.PrevUndoesNext` | OldProject/src/pages/PostPage.tsx:138-148 | before the last step, Previous after Next returns to the same wizard state |
| `PostWizard.PressNext` | OldProject/src/pages/PostPage.tsx:138-163 | the Next button advances exactly when the step is below 5 and its gate is open; with the gate closed nothing changes; the form and the edited id are kept |
| `PostWizard.BlankTitleHoldsStepOne` | OldProject/src/pages/PostPage.tsx:150-153 | on step 1 a title of nothing but white space keeps the wizard where it is |
| `PostWizard.PhotosOptionalOnlyWhenEditing` | OldProject/src/pages/PostPage.tsx:156-157 | on step 3 without photos, Next advances iff a listing is being edited |
| `PostWizard.AddFiles` | OldProject/src/pages/PostPage.tsx:121-129 | uploading keeps the existing photos as a prefix, appends a prefix of the chosen files, never exceeds 8 photos, and changes no other field |
| `Seqs.DropIndex` | OldProject/src/pages/PostPage.tsx:134 | filtering by position removes exactly the element at an in-range index and nothing otherwise |
| `PostWizard.RemovePhoto` | OldProject/src/pages/PostPage.tsx:131-136 | removing photo i drops exactly that photo and keeps the others in order; an out-of-range i is a no-op |
| `PostWizard.Publish` | OldProject/src/pages/PostPage.tsx:165-283 | sign-in, missing-field and non-numeric-price refusals happen exactly in their cases; otherwise the record carries the form's title, description, location and parsed price, `null` for an unchosen category or condition, and, iff photos were chosen, their uploaded URLs in photo order; an edit is an update of the edited id filtered on the signed-in owner, a new listing an insert as a draft owned by the user; photo i's URL is the public URL of the path user/listing/i.ext, with the listing the edited id or the id the insert returned |
| `PostWizard.FileExt` | OldProject/src/pages/PostPage.tsx:172 | the extension is the longest dot-free end of the file name: all of it without a dot, else what follows the last dot |
| `PostWizard.UploadPaths` | OldProject/src/pages/PostPage.tsx:168-176 | one path per photo, carrying the user, the listing, the photo's position and its extension |
| `PostWizard.UploadPathsDistinct` | OldProject/src/pages/PostPage.tsx:168-176 | two photos never share a path, even with equal file names, because the position is part of it |
| `PostWizard.LoadForEdit` | OldProject/src/pages/PostPage.tsx:47-110 | the load runs only while editing and signed in; a loaded form is the row with the edited id owned by the user, with null columns read as empty text and no photos |
| `PostWizard.ForeignListingRedirects` | OldProject/src/pages/PostPage.tsx:76-90 | a user who owns no listing with that id, an administrator included, is redirected and never gets the form |
| `PostWizard.OwnListingLoads` | OldProject/src/pages/PostPage.tsx:76-100 | the owner of the one listing with that id gets the form filled from it |
| `PostWizard.GatesImplyComplete` | OldProject/src/pages/PostPage.tsx:150-200 | a form that opened the gates of steps 1 and 2 is never refused for missing information |
| `Dashboard.LookupProfile` | OldProject/src/pages/DashboardPage.tsx:74-79 | the map lookup returns the last profile listed for that user, and nothing when there is none |
| `Dashboard.LookupTitle` | OldProject/src/pages/DashboardPage.tsx:73-94 | the title shown is that of the last row with the listing id, or "Unknown Listing" when that title is empty or no row has the id |
| `Dashboard.PartyLabel` | OldProject/src/pages/DashboardPage.tsx:84-89 | the signed-in user is "You"; anyone else is the profile's company name, else its first name, else "Unknown", also "Unknown" without a profile |
| `Dashboard.Preview` | OldProject/src/pages/DashboardPage.tsx:91 | the preview is at most 103 characters, agrees with the content on its first 100, is the whole content when it is short, and ends in "..." exactly when content was cut |
| `Dashboard.ToView` | OldProject/src/pages/DashboardPage.tsx:77-97 | a message is unread iff the user is its recipient and it has no read time; received iff the user is the recipient; both parties are labelled as `PartyLabel` states (the user's own side "You"); the preview and listing title are those `Preview` and `LookupTitle` state |
| `Dashboard.ToViews` | OldProject/src/pages/DashboardPage.tsx:77-97 | every message gets exactly one display row, in the same position |
| `Dashboard.YouLabelIsAmbiguous` | OldProject/src/pages/DashboardPage.tsx:84-86 | another user whose company is named "You" is also labelled "You" |
| `Dashboard.DeriveStatus` | OldProject/src/pages/DashboardPage.tsx:121-128 | the label is Deleted, else Disabled, else Published, else Draft, each exactly in its case |
| `Dashboard.ButtonsHiddenExactlyWhenDeleted` | OldProject/src/pages/DashboardPage.tsx:417 | the Edit and Delete buttons are hidden exactly on the rows labelled Deleted |
| `Dashboard.ComputeStats` | OldProject/src/pages/DashboardPage.tsx:145-156 | the pending counter is the number of unread received messages; with no listings every listing counter is 0; active never exceeds total, which never exceeds the rows; views are non-negative when every listing's are |
| `Dashboard.ComputeStatsCons` | OldProject/src/pages/DashboardPage.tsx:146-149 | one more listing adds 1 to the total iff it is not deleted, 1 to the active count iff it is published and not deleted, and its views to the total views iff it is not deleted |
| `Dashboard.DisabledCountsAsActive` | OldProject/src/pages/DashboardPage.tsx:147 | a published listing disabled by an administrator is labelled Disabled yet counted as active |
| `Dashboard.MarkRead` | OldProject/src/pages/DashboardPage.tsx:177-179 | only messages carrying the given id lose their unread mark; every other message is unchanged |
| `Dashboard.DecrementPending` | OldProject/src/pages/DashboardPage.tsx:182-185 | the pending counter drops by one but never below zero, and no other counter changes |
| `Dashboard.MarkReadPendingCount` | OldProject/src/pages/DashboardPage.tsx:166-185 | with unique ids, marking one pending message read lowers the pending count by exactly one |
| `Dashboard.MarkReadKeepsCounterAccurate` | OldProject/src/pages/DashboardPage.tsx:464-467 | a counter that matched the messages still matches after a pending message is marked read |
| `Dashboard.ConfirmDelete` | OldProject/src/pages/DashboardPage.tsx:204-220 | deletion is refused iff no listing is selected or the reason is blank; otherwise the selected listing is soft-deleted with the trimmed, non-empty reason |
| `Dashboard.EnabledDeleteSucceeds` | OldProject/src/pages/DashboardPage.tsx:655-656 | an enabled Delete button on an open dialog always produces the deletion |
| `Dashboard.OpenDelete` | OldProject/src/pages/DashboardPage.tsx:199-202 | opening the dialog for a listing selects it with an empty reason, whatever was typed before |
| `Dashboard.AfterConfirm` | OldProject/src/pages/DashboardPage.tsx:204-233 | a delete that went through closes the dialog and clears the listing and the reason; a refused or failed one leaves the dialog as it was |
| `Dashboard.OpenedDialogNeedsReason` | OldProject/src/pages/DashboardPage.tsx:199-206 | a freshly opened dialog refuses to delete until a reason is typed |
| `Dashboard.NoSecondDelete` | OldProject/src/pages/DashboardPage.tsx:204-226 | after a delete went through, confirming again sends no second update |
| `Dashboard.TopListings` | OldProject/src/pages/DashboardPage.tsx:329-332 | the panel shows exactly min(3, number of published listings) listings, drawn without repetition from the published listings, in non-increasing view order |
| `Dashboard.TopListingsAreTop` | OldProject/src/pages/DashboardPage.tsx:329-332 | no published listing left out of the panel has more views than any listing in it |
| `ListingDetail.ImagesOrFallback` | OldProject/src/pages/ListingPage.tsx:70-72 | the image list is never empty: the stored images when there are any, else the single placeholder |
| `ListingDetail.FindProfile` | OldProject/src/pages/ListingPage.tsx:66 | `find` returns the first profile of the listing's owner, and nothing when the owner has none |
| `ListingDetail.SellerName` | OldProject/src/pages/ListingPage.tsx:76 | the seller name is the company name, else the first name, else "Unknown Seller", and is never empty |
| `ListingDetail.JsRem` | OldProject/src/pages/ListingPage.tsx:159-163 | JavaScript's remainder agrees with the mathematical one on non-negative dividends |
| `ListingDetail.NextImage` | OldProject/src/pages/ListingPage.tsx:158-160 | Next keeps the index within [0, n), steps forward by one, and wraps from the last image to the first |
| `ListingDetail.PrevImage` | OldProject/src/pages/ListingPage.tsx:162-164 | Previous keeps the index within [0, n), steps back by one, and wraps from the first image to the last |
| `ListingDetail.PrevNextInverse` | OldProject/src/pages/ListingPage.tsx:158-164 | Previous undoes Next and Next undoes Previous on every in-range index |
| `ListingDetail.NextTimesAdvances` | OldProject/src/pages/ListingPage.tsx:158-160 | k presses of Next advance the index by k modulo the image count |
| `ListingDetail.FullCycleReturns` | OldProject/src/pages/ListingPage.tsx:158-160 | n presses of Next return to the starting image |
| `ListingDetail.UpdateStatus` | OldProject/src/pages/ListingPage.tsx:109-120 | no update is made without a route id, with an empty status or with the current status; otherwise only the status changes |
| `ListingDetail.UpdateStatusIdempotent` | OldProject/src/pages/ListingPage.tsx:110 | repeating an update that went through makes no further request |
| `ListingDetail.PressUpdate` | OldProject/src/pages/ListingPage.tsx:109-120 | pressing Update applies the update when the guard lets it through and otherwise changes nothing; the selector keeps its value |
| `ListingDetail.ControlStaysReachable` | OldProject/src/pages/ListingPage.tsx:96-97 | after loading, the selector holds the listing's status, so Update starts disabled; choosing an entry or pressing Update keeps the selector on the current status or a listed entry |
| `ListingDetail.EnabledUpdateSends` | OldProject/src/pages/ListingPage.tsx:250-269 | from any reachable state, an enabled Update button on a routed page sends the update, after which the button is disabled again |
| `ListingDetail.MessageSeller` | OldProject/src/pages/ListingPage.tsx:385-396 | a signed-out user is told to log in, the owner is refused, and everyone else gets the dialog |
| `ListingDetail.MessagingExcludesOwnerEdit` | OldProject/src/pages/ListingPage.tsx:375-395 | a user who may message the seller may edit the listing only as an administrator |
| `ListingDetail.EditNeedsOwnerOrAdmin` | OldProject/src/pages/ListingPage.tsx:375 | without the administrator role, Edit is offered exactly to the signed-in owner |
| `Admin.JoinRoles` | OldProject/src/pages/AdminPage.tsx:82-85 | each profile keeps its place, and its list is the role column of that user's rows in table order (`RolesOf`), so a role is listed iff the table grants it |
| `Admin.JoinMatchesHook` | OldProject/src/pages/AdminPage.tsx:82-85 | the console shows for a user exactly the list the role hook computes when that user signs in |
| `Admin.FindUser` | OldProject/src/pages/AdminPage.tsx:131 | `find` returns the first user with the requested id, and nothing when no user has it |
| `Admin.ToggleUserRole` | OldProject/src/pages/AdminPage.tsx:129-152 | for a listed user the toggled role row is present afterwards iff it was absent before; an unlisted user changes nothing; every other row is kept |
| `Admin.ToggleTwiceRestoresRoles` | OldProject/src/pages/AdminPage.tsx:129-152 | toggling the same role twice gives every user back the same set of roles |
| `Admin.ToggleTouchesOneRole` | OldProject/src/pages/AdminPage.tsx:134-152 | a toggle leaves other users' roles and the user's other roles as they were |
| `Admin.CompanyOf` | OldProject/src/pages/AdminPage.tsx:110-113 | a listing whose owner has no profile shows company "Unknown"; otherwise it shows the company name of the owner's first profile |
| `Admin.ListedIffFound` | OldProject/src/pages/AdminPage.tsx:110-113 | an owner has a profile exactly when `find` stops on a profile, not past the end |
| `Admin.DisableRecord` | OldProject/src/pages/AdminPage.tsx:173-176 | disabling sets the flag with the entered reason; enabling clears the flag and nulls the reason |
| `Admin.ApplyDisable` | OldProject/src/pages/AdminPage.tsx:169-181 | only the selected listing changes, and only in its flag and reason |
| `Admin.EnableUndoesDisable` | OldProject/src/pages/AdminPage.tsx:173-176 | enabling after disabling leaves the same listings as enabling alone, so no reason survives |
| `Admin.FindListing` | OldProject/src/pages/AdminPage.tsx:364 | `find` returns the first listing with the selected id, and nothing when no listing has it |
| `Admin.ExactlyOneButton` | OldProject/src/pages/AdminPage.tsx:361-374 | Disable is available exactly when Enable is not |
| `Admin.ButtonsFollowUpdate` | OldProject/src/pages/AdminPage.tsx:361-374 | over the updated listings, selecting that listing offers Enable iff the update disabled it |
| `Admin.ToggleListing` | OldProject/src/pages/AdminPage.tsx:169-183 | a successful update writes the flag and reason to the selected listing, then clears the selection and the reason, which hides the controls; a failed one changes nothing |
| `Admin.ReselectShowsOutcome` | OldProject/src/pages/AdminPage.tsx:169-183 | re-selecting the listing after a successful update offers Enable iff it was just disabled |
| `MessageModal.DefaultSubject` | OldProject/src/components/MessageModal.tsx:30 | the default subject starts with "Interest in: " and continues with exactly the listing title |
| `MessageModal.Fresh` | OldProject/src/components/MessageModal.tsx:30-31 | a fresh dialog has empty content and the default subject |
| `MessageModal.HandleSend` | OldProject/src/components/MessageModal.tsx:34-69 | a signed-out send is refused, a blank one too; otherwise the record carries the sender, the recipient and listing from props, and the trimmed subject and content; success resets the fields, failure keeps them |
| `MessageModal.HandleClose` | OldProject/src/components/MessageModal.tsx:71-75 | closing empties the content and restores the default subject |
| `MessageModal.EnabledSendInserts` | OldProject/src/components/MessageModal.tsx:126-129 | a signed-in user pressing an enabled Send button always reaches the insert |
| `MessageModal.InsertedContentNotBlank` | OldProject/src/components/MessageModal.tsx:40-55 | the stored content is already trimmed and is never blank |

## Left out

- Backend calls (every query, insert, update, delete and storage upload): they are external I/O. Their results enter the model as sequences of rows, `Option` for a failed role query, a success flag for the message insert, the soft delete and the disable/enable update, the `publicUrl` parameter for image URLs, and the `newId` parameter for the id an insert returns.
- Toasts, `navigate`, console logging, loading spinners and all rendering: UI side effects. This includes the admin page's redirect of non-administrators and the publish button's `publishing` flag.
- Mock view counts from `Math.random`: views are given integers.
- Dates: `created_at` is an integer timestamp. The `updated_at` and `deleted_at` clock values and `toLocaleDateString` are not modelled. So is the NaN comparison the "newest" sort makes on a missing `created_at`.
- `parseInt` and `parseFloat`: the search price inputs carry the parse result as `Option<int>`, and publishing takes `parsePrice` as a parameter. Prices are integers.
- `toLowerCase`: modelled for ASCII letters only; full Unicode case mapping is not modelled.
- `File` objects and `URL.createObjectURL`: photos are opaque values.
- React scheduling: updates are applied in sequence. This leaves out the stale `formData` read in `handleFileUpload`, refetch races, and the one render between a filter change and the effect that resets the page.
- The search page's fetch-time join (category, condition and profile names with their "Unknown" fallbacks) and the backend's published/not-disabled filter: listings arrive already joined.
- Dashboard message ordering by creation time, the three "recent messages", avatars and formatted timestamps: presentation only.
- The listing page's category and condition "Unknown" fallbacks, specification table and placeholder seller fields: presentation only.
- The post page's `handleInputChange`: a plain field assignment.
- `Date.now()` in the storage path: the upload time is folded into the `publicUrl` parameter, so two publishes of the same photo at the same position are given the same URL.
- `price.toString()` when a listing is loaded for editing: the stored price arrives as its text.
- The `loading` flag of the role hook.
- `Dashboard.Preview`: lengths count Unicode code points, while JavaScript's `substring(0, 100)` and `length` count UTF-16 code units. Content with characters outside the Basic Multilingual Plane (emoji, say) is cut later by the model than by the page, and the page may split a surrogate pair.
- `Dashboard.MarkRead`: models a successful read-time update only. When the update fails the page logs the error and leaves the messages as they were.
- `Dashboard.DecrementPending`: likewise applies only after a successful update. A failed one leaves the counter unchanged.
- `Dashboard.AfterConfirm`: the dashboard refetch that follows a successful delete is not modelled.
- `ListingDetail.UpdateStatus`: models the displayed listing after a successful update. A failed update shows an error toast and leaves the listing as it was.
- `Admin.ToggleUserRole`: models the role table after a successful delete or insert. On failure the page shows an error toast and the table is unchanged.
- `Admin.ToggleListing`: the refetch after a successful update is modelled as the local listings with the written columns, so concurrent changes by others are not seen.
- `PostWizard.Publish`: states the records a publish writes when every upload and write succeeds. A failure is not modelled. On an edit, a failed upload happens before the update, so nothing is written. On a new listing the insert comes first, so a failed upload or image update leaves an image-less draft in the table while the page reports "Publish failed".
- `ListingDetail.NextImage`: requires a positive image count, because `ImagesOrFallback` never yields an empty list, so JavaScript's `% 0` (NaN) cannot arise.
- `ListingDetail.PrevImage`: requires a positive image count, for the same reason.
- `Search.PagesFromIsSlice`: requires a non-negative last page, because page counts are at least 1.
- The sign-in page, home page, header, footer, not-found page, router, version endpoint and HTTP client instance: presentation or network plumbing with no rule of their own.
