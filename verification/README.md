# RentPal client-side store, modelled in Dafny

RentPal is a community rental-listing web application. It has no backend.
Accounts, the session and the rental listings live in the browser's
`localStorage`, and React handlers read and write them in place. This project
takes those handlers out of the UI and writes them as pure state transitions
over Dafny sequences. It then proves the store's contracts about them.

- `wrappers.dfy` (`Wrappers`): `Option`. It models an absent storage key or an empty session.
- `sequences.dfy` (`Sequences`): `Filter`, which models `Array.prototype.filter`. It comes with lemmas on exactness, order and commutation.
- `auth.dfy` (`Auth`): the identity store of `context/auth-context.tsx`. It holds accounts, the persisted session and the in-memory session. It defines register, login, logout and the start-up restore. It also holds the store invariant and the lemmas that preserve it over any sequence of operations.
- `listings.dfy` (`Listings`): the `RentalItem` record, the owner view and delete-by-id.
- `post_item.dfy` (`PostItem`): the item submission handler.
- `dashboard.dfy` (`Dashboard`): the dashboard's load effect and delete handler. Both act on the stored collection and on the displayed owner list.
- `rent-items` is modelled in `rent_items.dfy` (`RentItems`): the browse page and its "Your Item" mark.
- `login_page.dfy` (`LoginPage`): the login and registration form checks that run before the store is called.

Foreign values are passed in as parameters: the fresh id (`crypto.randomUUID()`, `uuidv4()`) and the timestamp (`new Date().toISOString()`). Freshness of an id is never a precondition of an operation. It appears only as a hypothesis of the lemmas that preserve distinct ids.

## Model

| member | source | states |
|---|---|---|
| Auth.NameTaken | rentpal/context/auth-context.tsx:52 | a name is taken exactly when some stored account has that name, compared exactly and case-sensitively |
| Auth.FindCredentials | rentpal/context/auth-context.tsx:36 | the search returns the first position whose account matches both name and password; it returns none exactly when no account matches |
| Auth.Start | rentpal/context/auth-context.tsx:24-31 | on mount the persisted session becomes the context's session, so the two copies agree; an absent one leaves no session |
| Auth.StartTrustsSavedUser | rentpal/context/auth-context.tsx:26-29 | the restored session is not checked: a session naming no account is restored, and the resulting state breaks the store invariant |
| Auth.Login | rentpal/context/auth-context.tsx:33-45 | login succeeds exactly when some account matches both credentials; the session (in memory and persisted) then becomes the id and name of the first such account; failure changes nothing, and a prior session survives it; accounts are never changed |
| Auth.Register | rentpal/context/auth-context.tsx:47-73 | registration fails exactly when the name is already stored, and failure changes nothing; success appends exactly `{freshId, name, password}` after the unchanged earlier accounts and opens the session `{freshId, name}` in both copies |
| Auth.Logout | rentpal/context/auth-context.tsx:75-78 | logout clears both copies of the session and leaves the accounts alone |
| Auth.LogoutIdempotent | rentpal/context/auth-context.tsx:75-78 | logging out twice equals logging out once |
| Auth.RegisterPreservesValid | rentpal/context/auth-context.tsx:52-70 | with an unused fresh id, registration keeps names distinct, ids distinct, the session copies in sync and the session naming a stored account |
| Auth.LoginPreservesValid | rentpal/context/auth-context.tsx:36-41 | login keeps the store invariant |
| Auth.LogoutPreservesValid | rentpal/context/auth-context.tsx:75-78 | logout keeps the store invariant |
| Auth.LoginSelectsUniqueAccount | rentpal/context/auth-context.tsx:36-39 | when names are distinct, any account matching both credentials makes login succeed with exactly that account's id |
| Auth.StartPreservesValid | rentpal/context/auth-context.tsx:24-31 | from a state satisfying the invariant, a reload restores exactly the open session and the state is unchanged, so the invariant survives it |
| Auth.RunPreservesValid | rentpal/context/auth-context.tsx:24-78 | in a single open tab, the invariant holds after any sequence of register, login and logout calls and page reloads whose generated ids are fresh |
| Auth.RunOnlyAppendsUsers | rentpal/context/auth-context.tsx:64-65 | no sequence of operations or reloads removes or alters a stored account; the account list only grows at the end |
| Auth.NameRegisteredOnce | rentpal/context/auth-context.tsx:52-55 | once a name has been registered, every later registration of that name fails, whatever operations or reloads happen in between |
| Listings.OwnerView | rentpal/app/dashboard/page.tsx:50 | an item is in the owner view exactly when it is stored and its `userId` equals the owner id |
| Listings.OwnerViewInOrder | rentpal/app/dashboard/page.tsx:50 | the owner view is the subsequence of the collection at exactly the positions whose `userId` matches, in storage order |
| Listings.OwnerViewAppend | rentpal/app/dashboard/page.tsx:50 | appending an item extends the owner view by that item exactly when the owner posted it |
| Listings.DeleteById | rentpal/app/dashboard/page.tsx:61 | after deletion, an item remains exactly when it was stored and has a different id; owner and session play no part |
| Listings.DeleteKeepsOthersInOrder | rentpal/app/dashboard/page.tsx:61 | deletion keeps every item with another id, at exactly those positions, in the same relative order |
| Listings.DeleteAbsentIsIdentity | rentpal/app/dashboard/page.tsx:61 | deleting an id that no item carries returns the collection unchanged |
| Listings.DeleteCommutesWithOwnerView | rentpal/app/dashboard/page.tsx:61-65 | removing an id and then taking the owner view equals taking the owner view and then removing the id |
| Listings.DeletePreservesIdsDistinct | rentpal/app/dashboard/page.tsx:61-63 | deletion keeps item ids distinct |
| PostItem.Submit | rentpal/app/post-item/page.tsx:57-113 | with no session, submission reports that authentication is required and changes nothing; with an empty title, phone number, address or image it reports missing information and changes nothing; the description may be empty; otherwise it posts a record carrying the fresh id, the timestamp, the session's user id and the form fields unchanged; that record is appended after the unchanged prior items, or becomes the single item when nothing was stored; the form is reset |
| PostItem.SubmitPreservesIdsDistinct | rentpal/app/post-item/page.tsx:85-100 | with an unused fresh id, submission keeps item ids distinct, and the posted record is the only item with its id |
| PostItem.SubmitExtendsOwnerView | rentpal/app/post-item/page.tsx:92-100 | a posted item appears at the end of its poster's owner view, after everything they listed before |
| Dashboard.LoadUserItems | rentpal/app/dashboard/page.tsx:46-53 | with a session, the displayed list holds exactly the stored items of that user; without one, nothing changes |
| Dashboard.LoadShowsOwnerView | rentpal/app/dashboard/page.tsx:46-53 | after loading with a session, the displayed list is the subsequence of the stored collection at exactly the positions of that user's items, in storage order |
| Dashboard.HandleDeleteItem | rentpal/app/dashboard/page.tsx:55-65 | the collection is rewritten with no item carrying the id; every item with another id is kept whoever owns it; the displayed list loses exactly the items with that id |
| Dashboard.DeleteKeepsOwnerView | rentpal/app/dashboard/page.tsx:55-65 | if the displayed list was the owner view before a delete, it is the owner view of the new collection after it |
| Dashboard.DeleteAbsentKeepsStore | rentpal/app/dashboard/page.tsx:59-63 | deleting an id absent from the store leaves the stored items as they were |
| RentItems.Browse | rentpal/app/rent-items/page.tsx:26-55 | with nothing stored no card is listed; otherwise there is one card per stored item, in storage order and unfiltered; a card is marked exactly when a session exists and the item's `userId` equals its id |
| RentItems.NothingYoursWithoutSession | rentpal/app/rent-items/page.tsx:55 | without a session no card is marked |
| RentItems.MarkedIsOwnerView | rentpal/app/rent-items/page.tsx:65 | the items of the marked cards, in order, are exactly the dashboard's owner view for the same user |
| LoginPage.HandleLoginSubmit | rentpal/app/login/page.tsx:31-60 | a login with an empty name or password is rejected and the store is untouched; the store's login runs only when both are filled, and the reply reports its result |
| LoginPage.HandleRegisterSubmit | rentpal/app/login/page.tsx:72-110 | an empty name or password is rejected first; otherwise a password that differs from its confirmation is rejected; both rejections leave the store untouched; the store's register runs only when both checks pass, and the reply reports whether the name was taken |
| LoginPage.RegisteredPasswordConfirmed | rentpal/app/login/page.tsx:84-96 | a registration that reaches the store had a non-empty name and a password equal to its confirmation, and that password is what is stored |

## Left out

- Item editing and the item detail page (`app/edit-item/[id]/page.tsx`, `app/item/[id]/page.tsx`) are not part of this model, so update-by-owner and get-by-id are not modelled.
- `localStorage` and `JSON.parse`/`JSON.stringify`: persisted keys are Dafny values, and an absent key is `None`. Corrupt stored JSON and the `catch` branches that turn its exceptions into toasts are not modelled.
- `crypto.randomUUID()`, `uuidv4()` and `new Date().toISOString()` are foreign calls whose results are taken as parameters.
- `FileReader` and data-URL encoding are browser I/O. `imagePreview`/`imageUrl` is an opaque string.
- Rendering, toasts, router redirects (including the dashboard and post-item redirects when no session exists), `setTimeout`, and the loading and submitting flags are UI without statable behaviour.
- `async`/`Promise` wrappers and React hooks add no meaning beyond sequential calls, so each handler is one function.
- `app/page.tsx` and `components/navbar.tsx` are static UI. The navbar only calls `logout`.
- Deletion does no existence or ownership check and never fails. Item creation reports one "missing information" outcome, not a list of fields. Register and login return a boolean.
- One open browser tab is modelled. All tabs share `localStorage`, but each keeps its own context session (context/auth-context.tsx:21), and nothing listens for storage changes from other tabs. With two tabs, `Auth.InSync` and so `Auth.Valid` hold only for the tab that performed the last session write. A logout in one tab leaves another tab holding a session that a reload would not restore. Name uniqueness and the append-only account list do not depend on this, because every operation reads the account list afresh.
- Storage writes are assumed to succeed. A failing `localStorage.setItem` (post-item/page.tsx:100, for instance a full quota) is caught at lines 119-124: nothing is posted and the form is not reset. `PostItem.Submit` always posts a complete form, so it does not model that path.
