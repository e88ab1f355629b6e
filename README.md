# kome_app: a verified model of the storefront's client-side logic

kome_app is a React Native storefront for the Kome shop chain. It has a
shopping list, promo codes, products, shops, weekly brochures, sign-in and
a virtual loyalty card. Most of its logic sits inside the screens. This
project models that logic in Dafny and proves what each piece promises.

- **Shopping list** (`shopping_list.dfy`). The screen holds a list of items
  on the server (remote mode) or under the storage key
  `shopping_list_local_v1` (local mode). Load, add, toggle, edit and delete
  update it optimistically.
  - A 401 or 403 from the server switches the screen to local mode for good.
  - Other failures roll the list back.
  - On a 401/403 during toggle, edit or delete, memory keeps the change.
    Storage, however, receives the list captured *before* the change.
    The model keeps this behaviour and proves it
    (`AuthFallbackStoresPreToggleList`).
  - The displayed order is a pure four-key sort, proved to be a sorted,
    stable permutation.
- **Session** (`auth_provider.dfy`, `persisted_state.dfy`). The provider keeps
  `{accessToken, user}` in a state hook that mirrors itself into the key
  `auth`. It also holds `isLoading` and `error`, and implements login,
  register, logout and clearError.
- **Paged lists** (`paging.dfy`, `promo_codes_list.dfy`, `products_list.dfy`).
  These are load-more/refresh machines with a loading guard, page and
  page-count bookkeeping, and reset versus append. The promo codes list
  filters its tabs locally, in order.
- **Shops and brochures** (`shops_list.dfy`, `brochures.dfy`). The shop list
  filters active shops and runs a case-insensitive search that keeps order.
  The shop card builds a title. The brochure screen picks a brochure and
  builds its PDF URL and the viewer URL.
- **String helpers and forms**:
  - `toUrl` (`uri.dfy`), built on `encodeURIComponent`'s percent-encoding
    (section 2.1 of RFC 3986, UTF-8, upper-case hex). Its inverse and the
    round trip are proved.
  - The card and details helpers (`promo_code_card.dfy`,
    `promo_code_details.dfy`, `products_screen.dfy`, `client_cards.dfy`).
  - The `\S+@\S+\.\S+` e-mail test (`email.dfy`), proved equal to its
    declarative meaning.
  - The sign-in, sign-up and virtual card forms (`login_screen.dfy`,
    `register_screen.dfy`, `virtual_card.dfy`).
- **Shared modules**. `common.dfy` holds the shared data types (REST
  outcomes, JSON arrays, stored values) and an order-preserving filter.
  `strings.dfy` holds the JavaScript string primitives, with the
  ECMAScript white-space set for `trim`.

An asynchronous operation becomes a method that takes what its awaited
calls return: a `Response` (data, or an error with an optional HTTP
status), or an `Attempt` (a value, or a thrown error with its message).
The method returns the requests it issued. The key-value store is a `map`
field.

The two paged lists run their async load as two steps:

1. A begin step (`LoadItems`/`LoadProducts`) raises `loading` and records
   the page and reset flag of the call in flight in `pending`.
2. A `Settle` step applies the reply.

This is why a refresh during a load leaves `refreshing` on until that load
settles. It is also why a tab change during a load asks for nothing, so
that the old category's reply is what settles.

## Model

| member | source | states |
|---|---|---|
| ShoppingList.CompareIsTotalPreorder | src/screens/ShoppingListScreen.jsx:72-89 | the comparator is antisymmetric, is zero exactly on equal (done, sort_order, created_at_ts, numeric id) keys, and its `<= 0` is transitive, so it is a valid sort order |
| ShoppingList.Insert | src/screens/ShoppingListScreen.jsx:72-89 | insertion adds exactly one element: length grows by one and the multiset gains `x` |
| ShoppingList.InsertSorted | src/screens/ShoppingListScreen.jsx:72-89 | inserting into a list sorted by the comparator keeps it sorted |
| ShoppingList.SortedCons | src/screens/ShoppingListScreen.jsx:72-89 | an item ordered before every element of a sorted list can head it |
| ShoppingList.SortedItems | src/screens/ShoppingListScreen.jsx:70-91 | the sorted copy has the same length and multiset as `items` (a permutation) and is sorted: not done first, then ascending sort_order, newest created_at_ts, highest numeric id |
| ShoppingList.InsertStable | src/screens/ShoppingListScreen.jsx:72-89 | insertion keeps the relative order of items with equal keys |
| ShoppingList.SortStable | src/screens/ShoppingListScreen.jsx:70-91 | items with equal sort keys keep their relative order (the sort is stable) |
| ShoppingList.SortSorted | src/screens/ShoppingListScreen.jsx:70-91 | sorting an already sorted list returns it unchanged |
| ShoppingList.PatchWhere | src/screens/ShoppingListScreen.jsx:216-220 | the map over the list changes exactly the entries whose id is `===` the given id and keeps the length |
| ShoppingList.PatchTwice | src/screens/ShoppingListScreen.jsx:233-237 | a second patch of the same field on the same id overrides the first, which is how the rollback undoes the optimistic toggle |
| ShoppingList.PatchNoop | src/screens/ShoppingListScreen.jsx:233-237 | a patch writing values the entries already hold changes nothing |
| ShoppingList.RemoveId | src/screens/ShoppingListScreen.jsx:261-263 | the filter removes exactly the entries with the id: an order-preserving subsequence whose multiset is the original's minus those entries |
| ShoppingList.ReadLocalList | src/screens/ShoppingListScreen.jsx:30-38 | a missing key, empty text, unparseable text or a non-array value gives []; a stored array is returned as stored |
| ShoppingList.WriteLocalList | src/screens/ShoppingListScreen.jsx:40-46 | after a write, reading gives back exactly the list; only the key `shopping_list_local_v1` changes |
| ShoppingList.LocalId | src/screens/ShoppingListScreen.jsx:49-51 | a local id is a non-empty string whose numeric value is 0 |
| ShoppingList.Flipped | src/screens/ShoppingListScreen.jsx:204 | the next `is_done` is 0 or 1, and is 1 exactly when the current one is 0 |
| ShoppingList.Normalized | src/screens/ShoppingListScreen.jsx:235 | the rollback value is 0 or 1, is 0 exactly when the current one is 0, and is the opposite of the flip |
| ShoppingList.Screen.SetItemsAndPersistLocal | src/screens/ShoppingListScreen.jsx:136-142 | the new list goes to memory and is written to storage; nothing else changes |
| ShoppingList.Screen.Load | src/screens/ShoppingListScreen.jsx:93-127 | local mode or no token makes no request, loads the stored list and enters local mode; otherwise one GetAll: success sets the array (or []) and remote mode, 401/403 loads the stored list and local mode, other errors keep items; refreshing ends false; local mode is never left once entered |
| ShoppingList.Screen.OnAdd | src/screens/ShoppingListScreen.jsx:144-198 | a blank trimmed title changes nothing; local mode prepends the synthesized item `{id, title, is_done 0, sort_order 0}` and stores the list; remotely the state is `Added`; adding ends false |
| ShoppingList.Screen.AddRemote | src/screens/ShoppingListScreen.jsx:166-197 | a created item with an id is prepended; without one the list reloads; 401/403 prepends a local item, stores the list and enters local mode; other errors keep everything including the typed title |
| ShoppingList.Screen.OnToggle | src/screens/ShoppingListScreen.jsx:200-240 | no id is a no-op; only entries with the id get the flipped is_done; local mode stores the result; remotely 401/403 keeps the change but stores the pre-toggle list and enters local mode; other errors set the entries to the item's normalized is_done |
| ShoppingList.Screen.OnDelete | src/screens/ShoppingListScreen.jsx:249-276 | no id is a no-op; exactly the entries with the id are removed; local mode stores the result; 401/403 keeps the removal but stores the snapshot; other errors restore the snapshot |
| ShoppingList.Screen.OpenEdit | src/screens/ShoppingListScreen.jsx:278-282 | the dialog opens on the item with its trimmed title; the list and modes are unchanged |
| ShoppingList.Screen.SaveEdit | src/screens/ShoppingListScreen.jsx:284-328 | no id or a blank trimmed title changes nothing; otherwise entries with the id take the trimmed title, with the local, 401/403 (store the list from before the rename) and rollback handling of delete, and the dialog is cleared |
| ShoppingList.ToggleRollbackRestores | src/screens/ShoppingListScreen.jsx:216-237 | when the entries held the tapped item's normalized is_done, a failed toggle restores the list exactly |
| ShoppingList.AuthFallbackStoresPreToggleList | src/screens/ShoppingListScreen.jsx:225-229 | after a 401/403 on toggle, storage does not hold the list shown whenever the toggle changed an entry |
| Common.ErrorMessage | src/screens/VirtualCardCreateScreen.jsx:166-169 | the error message prefers the response's `error`, then `message`, then the fallback, and is never empty when the fallback is not |
| Common.ArrayOrEmpty | src/screens/ShoppingListScreen.jsx:107 | `Array.isArray(v) ? v : []` |
| Common.Filter | src/screens/shops/ShopsListScreen.jsx:73 | `filter` keeps exactly the elements that pass and keeps their order (a subsequence, no longer than the input) |
| Common.SubsequenceLength | src/screens/shops/ShopsListScreen.jsx:293 | a subsequence is never longer than the sequence |
| Common.FilterAll | src/screens/shops/ShopsListScreen.jsx:81-89 | a filter every element passes keeps the whole sequence |
| Common.FilterMultiset | src/screens/promocodes/PromoCodesListScreen.jsx:79-86 | a filter keeps each passing element as many times as it occurs and drops the others |
| Common.FilterAppend | src/screens/promocodes/PromoCodesListScreen.jsx:79-86 | filtering a concatenation is concatenating the filters |
| Common.SubsequenceRefl | src/screens/shops/ShopsListScreen.jsx:79 | every sequence is a subsequence of itself (the empty query case) |
| Strings.TrimSpec | src/screens/ShoppingListScreen.jsx:19-21 | `trim` removes exactly the leading and trailing white space, and gives '' exactly on all-space text |
| Strings.TrimIdempotent | src/screens/promocodes/PromoCodeDetailsScreen.jsx:38-40 | trimming twice equals trimming once |
| Strings.ToLowerIdempotent | src/screens/shops/ShopsListScreen.jsx:76 | lower-casing twice equals lower-casing once |
| Strings.TrimOfLower | src/screens/shops/ShopsListScreen.jsx:76 | trimming and lower-casing commute |
| Strings.ContainsIff | src/screens/shops/ShopsListScreen.jsx:25 | `includes` holds exactly when the needle occurs at some position |
| Strings.OnlyDigits | src/screens/VirtualCardCreateScreen.jsx:18-20 | the result is no longer than the input and holds only digits |
| Strings.OnlyDigitsIdempotent | src/screens/VirtualCardCreateScreen.jsx:18-20 | extracting the digits twice equals extracting them once |
| Strings.OnlyDigitsOfTrim | src/screens/VirtualCardCreateScreen.jsx:126 | trimming never removes a digit |
| Strings.DigitsValueOfNatToString | src/components/PromoCodeCard.jsx:21-32 | reading back a printed natural number gives the number |
| Uri.EncodeAlphabet | src/components/PromoCodeCard.jsx:17 | `encodeURIComponent` emits only unreserved characters and '%', so never '/' |
| Uri.EncodeUnreserved | src/components/PromoCodeCard.jsx:17 | unreserved text is left unchanged by the encoder |
| Uri.DecodeEncode | src/screens/brochures/BrochuresScreen.jsx:74 | `decodeURIComponent(encodeURIComponent(s))` is `s` for every string |
| Uri.JoinSplit | src/components/PromoCodeCard.jsx:15-17 | joining the pieces of a split restores the text |
| Uri.SplitJoin | src/components/PromoCodeCard.jsx:15-17 | splitting a join of separator-free pieces gives the pieces back |
| Uri.DecodeAllEncodeAll | src/components/PromoCodeCard.jsx:16-17 | decoding every encoded segment gives the segments back |
| Uri.StripLeadingSlashes | src/components/PromoCodeCard.jsx:14 | removes exactly the leading run of '/' and nothing else |
| Uri.ToUrl | src/components/PromoCodeCard.jsx:6-19 | blank text gives ''; a trimmed http(s) URL passes through; otherwise the URL starts with the base and decodes back to the trimmed path without its leading slashes |
| Uri.RelativeSegments | src/components/PromoCodeCard.jsx:14-18 | a relative URL's '/' separators after the base are exactly those between the path's encoded segments |
| ClientCards.MaskToken | src/screens/ClientCardsScreen.jsx:12-18 | no or empty token gives '' even with showAll; showAll gives the token; up to 18 characters gives six dots; longer gives the first 8, '…' and the last 6: length 15, never the token |
| ClientCards.MaskHides | src/screens/ClientCardsScreen.jsx:17 | long tokens agreeing on their first 8 and last 6 characters mask alike, and the mask is never the token |
| PromoCodeCard.ImageUrl | src/components/PromoCodeCard.jsx:62 | the card's image URL: '' exactly on blank input, absolute kept trimmed, relative under the promo code images base and decoding back to its path |
| PromoCodeCard.CategoryLabel | src/components/PromoCodeCard.jsx:21-32 | a badge exactly for 1, 2 and 3, reading 'Категория ' and the number |
| PromoCodeCard.SliceEnd | src/components/PromoCodeCard.jsx:42 | the end index of `slice` stays within the string and equals the argument when it is in range |
| PromoCodeCard.ShortCode | src/components/PromoCodeCard.jsx:38-43 | blank gives ''; text that fits is returned trimmed; longer text is a prefix of the trimmed text plus '…', of length exactly max |
| PromoCodeCard.ShortCodeDefault | src/components/PromoCodeCard.jsx:64 | with the default maximum 18 the shown code has at most 18 characters, and is the trimmed code when it fits |
| PromoCodeDetails.TypeLabel | src/screens/promocodes/PromoCodeDetailsScreen.jsx:42-48 | weekly exactly when category is 1; personal exactly when category is not 1 and is_personal is 1; promo otherwise |
| PromoCodeDetails.NormCode | src/screens/promocodes/PromoCodeDetailsScreen.jsx:38-40 | the code trimmed: '' exactly when missing or blank, and already trimmed |
| PromoCodeDetails.CopyCode | src/screens/promocodes/PromoCodeDetailsScreen.jsx:81-83 | nothing is copied exactly for a missing or blank code; otherwise the non-empty normalized code |
| PromoCodeDetails.ImageUrl | src/screens/promocodes/PromoCodeDetailsScreen.jsx:79 | the details image URL is the one the list card builds, '' exactly for a missing or blank image |
| ProductsScreen.ImageUrl | src/screens/products/ProductsScreen.jsx:86 | `toUrl` with the products base: '' exactly on blank input, absolute kept trimmed, relative under the base and decoding back to its path |
| ProductsScreen.CategoryLabel | src/screens/products/ProductsScreen.jsx:35-46 | 1 is 'Ново', 2 'Акцент', 3 'Фокус'; any other value has no badge |
| Paging.PageData | src/screens/promocodes/PromoCodesListScreen.jsx:54 | `result?.data?.data ?? []` |
| Paging.TotalPages | src/screens/promocodes/PromoCodesListScreen.jsx:55-57 | the page count the server sends, 0 included, or 1 when missing |
| Paging.Merge | src/screens/promocodes/PromoCodesListScreen.jsx:60-61 | reset shows the page alone; otherwise the old list is a prefix and the page follows it in order |
| Paging.MergeFilter | src/screens/promocodes/PromoCodesListScreen.jsx:60-61 | filtering after an append is appending the filters: earlier entries keep their places |
| PromoCodesList.Filtered | src/screens/promocodes/PromoCodesListScreen.jsx:79-86 | exactly the codes with is_personal 1 (personal tab) or category 1 (weekly tab), in order, each as often as in the list |
| PromoCodesList.TabsAgreeWithTypeLabel | src/screens/promocodes/PromoCodesListScreen.jsx:79-86 | weekly-tab codes carry the weekly chip; personal-tab codes carry the personal chip unless category is 1; a code shows on both tabs exactly when both fields are 1 |
| PromoCodesList.LoadMoreKeepsTab | src/screens/promocodes/PromoCodesListScreen.jsx:61 | a further page only adds that page's codes at the end of each tab |
| PromoCodesList.Screen.constructor | src/screens/promocodes/PromoCodesListScreen.jsx:29-34 | no codes, weekly tab, page 1 of 1, idle |
| PromoCodesList.Screen.LoadItems | src/screens/promocodes/PromoCodesListScreen.jsx:43-53 | while loading nothing happens; otherwise loading rises and page `pageToLoad` is requested with limit 30 and no category |
| PromoCodesList.Screen.Settle | src/screens/promocodes/PromoCodesListScreen.jsx:54-67 | a reply sets the page, the page count and replaces or appends the list; a thrown error changes none of them; loading and refreshing end false |
| PromoCodesList.Screen.HandleLoadMore | src/screens/promocodes/PromoCodesListScreen.jsx:70-72 | page+1 is requested only when page < totalPages and nothing is loading |
| PromoCodesList.Screen.HandleRefresh | src/screens/promocodes/PromoCodesListScreen.jsx:74-77 | refreshing rises and page 1 is requested with reset, unless a load is in flight |
| PromoCodesList.Screen.SetTab | src/screens/promocodes/PromoCodesListScreen.jsx:119 | only the tab changes, and the grid shows that tab's filter of the same list |
| ProductsList.Screen.constructor | src/screens/products/ProductsListScreen.jsx:31-36 | no products, page 1 of 1, no category, idle |
| ProductsList.Screen.LoadProducts | src/screens/products/ProductsListScreen.jsx:42-53 | while loading nothing happens; otherwise page `pageToLoad` is requested with limit 20 and the current category |
| ProductsList.Screen.Settle | src/screens/products/ProductsListScreen.jsx:54-70 | a reply sets the page, the page count and replaces or appends the products; a thrown error changes none of them; loading and refreshing end false |
| ProductsList.Screen.HandleLoadMore | src/screens/products/ProductsListScreen.jsx:73-77 | page+1 is requested only when page < totalPages and nothing is loading |
| ProductsList.Screen.HandleRefresh | src/screens/products/ProductsListScreen.jsx:79-82 | refreshing rises and page 1 of the current category is requested with reset, unless a load is in flight |
| ProductsList.Screen.HandleTabChange | src/screens/products/ProductsListScreen.jsx:84-87 | category takes the value and page becomes 1; a real change with nothing in flight requests page 1 of the new category with reset (the effect at lines 38-40) |
| ShopsList.IncludesCIIff | src/screens/shops/ShopsListScreen.jsx:23-26 | an empty needle matches; otherwise a match exactly when the needle occurs in the trimmed, lower-cased text |
| ShopsList.ActiveShops | src/screens/shops/ShopsListScreen.jsx:71-74 | exactly the shops with state 1 or '1', in order; a non-array gives [] |
| ShopsList.QueryNormal | src/screens/shops/ShopsListScreen.jsx:76 | normalizing the query is idempotent and ignores pre-trimming |
| ShopsList.FilteredShops | src/screens/shops/ShopsListScreen.jsx:78-90 | an empty query shows every active shop; otherwise exactly the active shops whose city, store, address, description or work time match, as a subsequence |
| ShopsList.FilteredCount | src/screens/shops/ShopsListScreen.jsx:293 | the filtered count never exceeds the active count, and a query every active shop matches keeps them all |
| ShopsList.Title | src/screens/shops/ShopsListScreen.jsx:227 | never empty; the non-empty trimmed city and store joined by ' • ', or 'Обект' when both are empty |
| Brochures.FirstActive | src/screens/brochures/BrochuresScreen.jsx:49 | the index `find` stops at: the first active entry, with no active entry before it |
| Brochures.PickFromList | src/screens/brochures/BrochuresScreen.jsx:47-49 | the first entry with state 1 or '1', else the first entry, else none |
| Brochures.PdfUrl | src/screens/brochures/BrochuresScreen.jsx:52 | '' without a brochure or a non-blank pdf; otherwise `toUrl` with the brochures base (absolute kept, relative under the base and decoding back) |
| Brochures.ViewerUrl | src/screens/brochures/BrochuresScreen.jsx:71-78 | '' exactly when the PDF URL is ''; on Android the viewer prefix plus the encoded PDF URL, which decodes back exactly; elsewhere the PDF URL |
| Brochures.NoPdfPanel | src/screens/brochures/BrochuresScreen.jsx:52-78 | the viewer URL is empty exactly when the brochure has no PDF name, on every platform |
| Brochures.Screen.constructor | src/screens/brochures/BrochuresScreen.jsx:26-31 | reload key 0, loading, not failed, no brochure, no PDF URL |
| Brochures.Screen.Load | src/screens/brochures/BrochuresScreen.jsx:36-62 | a non-zero id fetches one brochure, otherwise the list is fetched and picked from; success sets the brochure and its PDF URL; a thrown error sets failed and keeps what was shown; loading ends false |
| Brochures.Screen.OnRetry | src/screens/brochures/BrochuresScreen.jsx:80 | the reload key grows by exactly one and nothing else changes |
| Brochures.Screen.OnLoadStart | src/screens/brochures/BrochuresScreen.jsx:93-96 | loading rises and failed clears |
| Brochures.Screen.OnLoadEnd | src/screens/brochures/BrochuresScreen.jsx:97 | loading ends |
| Brochures.Screen.OnError | src/screens/brochures/BrochuresScreen.jsx:98-101 | loading ends and failed rises |
| Email.DotRestIff | src/screens/auth/LoginScreen.jsx:28 | the scanner finds a '.'-ending tail exactly when one exists |
| Email.AtIff | src/screens/auth/LoginScreen.jsx:28 | the scanner's check at a position holds exactly when a match has its '@' there |
| Email.MatchFromIff | src/screens/auth/LoginScreen.jsx:28 | scanning from a position finds a match exactly when one has its '@' at or after it |
| Email.TestIff | src/screens/auth/LoginScreen.jsx:28 | the scan decides exactly the language of the unanchored `\S+@\S+\.\S+` |
| Email.MatchInWhole | src/screens/VirtualCardCreateScreen.jsx:30-32 | a match inside a slice is a match of the whole text, shifted |
| Email.MatchInSlice | src/screens/VirtualCardCreateScreen.jsx:30-32 | a match of the text lies inside any slice that only drops white space |
| Email.TestTrimmed | src/screens/VirtualCardCreateScreen.jsx:30-32 | testing the trimmed text gives the same answer as testing the text as typed |
| Email.Examples | src/screens/auth/LoginScreen.jsx:28 | "a@b.c" passes; "a@b" and "a@ b.c" fail; one example with text and space around the address passes |
| Email.TestSurrounded | src/screens/auth/LoginScreen.jsx:28 | the pattern is unanchored: text that passes still passes with any text before and after it |
| LoginScreen.EmailError | src/screens/auth/LoginScreen.jsx:26-30 | 'Email is required' exactly for blank text, the invalid-email message exactly for non-blank text failing the pattern, none otherwise |
| LoginScreen.PasswordError | src/screens/auth/LoginScreen.jsx:32-36 | 'Password is required' exactly when empty, the minimum-length message exactly for 1 to 3 characters, none from 4 |
| LoginScreen.With | src/screens/auth/LoginScreen.jsx:27 | a message is added under its key; no message leaves the errors |
| LoginScreen.Validate | src/screens/auth/LoginScreen.jsx:23-40 | email and password errors are independent, and the map is empty exactly when the email is non-blank and matches and the password has at least 4 characters |
| LoginScreen.HandleLogin | src/screens/auth/LoginScreen.jsx:42-47 | the auth error is always cleared; login is called only on a valid form, with the login outcome then |
| RegisterScreen.Validate | src/screens/auth/RegisterSreen.jsx:17-40 | name, email, password and confirmation errors are each independent, and the map is empty exactly when all pass |
| RegisterScreen.SameRulesAsLogin | src/screens/auth/RegisterSreen.jsx:22-32 | with a name and a matching confirmation the sign-up errors are the sign-in errors |
| RegisterScreen.HandleRegister | src/screens/auth/RegisterSreen.jsx:42-46 | the auth error is always cleared; register is called only on a valid form |
| VirtualCard.OnlyDigitsIsFilter | src/screens/VirtualCardCreateScreen.jsx:18-20 | `onlyDigits` keeps exactly the digit characters, in order |
| VirtualCard.IsValidEmailIff | src/screens/VirtualCardCreateScreen.jsx:30-32 | trimming first does not change which addresses pass |
| VirtualCard.DigitsField | src/screens/VirtualCardCreateScreen.jsx:194 | the field keeps a prefix of the typed text's digits, at most n of them |
| VirtualCard.DigitsFieldSpec | src/screens/VirtualCardCreateScreen.jsx:194-203 | the EGN field is valid exactly when 10 digits were typed, the post-code field exactly when 4 were; re-filtering changes nothing |
| VirtualCard.FirstFailure | src/screens/VirtualCardCreateScreen.jsx:101-111 | none exactly when every check passes; otherwise the message of the first failing check |
| VirtualCard.ShiftFailure | src/screens/VirtualCardCreateScreen.jsx:101-111 | a first failure after a passing check is a first failure of the longer list |
| VirtualCard.ValidateIsFirstFailure | src/screens/VirtualCardCreateScreen.jsx:101-111 | `validate` reports the first failing check in the order names, EGN, post code, phone, email, consent, and nothing exactly when all pass |
| VirtualCard.BuildPayload | src/screens/VirtualCardCreateScreen.jsx:120-138 | text fields trimmed, EGN and post code digits only, consent true; for a valid form 10 and 4 digits, a phone of 8 or more digits and a matching email |
| VirtualCard.CardNumber | src/screens/VirtualCardCreateScreen.jsx:153-157 | `ccnum`, else `card.ccnum`, else `virtual_ccnum`, else none; never empty |
| VirtualCard.Screen.OnEgnChange | src/screens/VirtualCardCreateScreen.jsx:194 | the EGN becomes the first 10 digits typed |
| VirtualCard.Screen.OnPostCodeChange | src/screens/VirtualCardCreateScreen.jsx:203 | the post code becomes the first 4 digits typed |
| VirtualCard.Screen.Submit | src/screens/VirtualCardCreateScreen.jsx:113-174 | an invalid form makes no call; otherwise the payload is sent, `setCard` is called exactly when a card number came back, a thrown error ends in its message, and saving ends false |
| PersistedState.Resolve | src/hooks/usePersistedState.js:27 | a function is applied to the current state; a plain value is taken as is |
| PersistedState.Loaded | src/hooks/usePersistedState.js:7-23 | a missing, empty, unparseable or unreadable value keeps the state; a stored value replaces it |
| PersistedState.LoadAfterWrite | src/hooks/usePersistedState.js:25-34 | a written value is what the next load finds |
| PersistedState.LoadOtherKey | src/hooks/usePersistedState.js:25-34 | a write under one key leaves loads under other keys alone |
| PersistedState.Persisted.constructor | src/hooks/usePersistedState.js:5 | the state starts as the initial value |
| PersistedState.Persisted.LoadState | src/hooks/usePersistedState.js:7-23 | the state becomes what `Loaded` finds; the store is untouched |
| PersistedState.Persisted.SetPersisted | src/hooks/usePersistedState.js:25-34 | the state takes the resolved value first; the store receives it only when the write succeeds, and a failed write does not undo the state |
| Auth.GetErrMsg | src/contexts/auth/AuthProvider.jsx:18-20 | the server's error, else the message, else "An error occurred"; never empty |
| Auth.Failure | src/contexts/auth/AuthProvider.jsx:39-41 | a thrown error is kept; a rejected reply becomes an error whose message is the reply's error or the fallback |
| Auth.Provider.constructor | src/contexts/auth/AuthProvider.jsx:23-29 | signed out under the key "auth", not loading, no error |
| Auth.Provider.Authenticate | src/contexts/auth/AuthProvider.jsx:31-52 | an ok reply with a user stores `{user, accessToken}` and is returned; anything else leaves the session, sets the error message and rethrows; loading ends false |
| Auth.Provider.Login | src/contexts/auth/AuthProvider.jsx:31-52 | the shared contract with the fallback "Login failed" |
| Auth.Provider.Register | src/contexts/auth/AuthProvider.jsx:54-75 | the shared contract with the fallback "Registration failed" |
| Auth.Provider.Logout | src/contexts/auth/AuthProvider.jsx:77-79 | the session becomes `{accessToken: null, user: null}`, so not authenticated |
| Auth.Provider.ClearError | src/contexts/auth/AuthProvider.jsx:88 | the error becomes null; loading is untouched |
| Auth.SessionSurvivesRestart | src/contexts/auth/AuthProvider.jsx:23-26 | a stored session is what a restarted provider loads |

## Left out

- Rendering, navigation, alerts, the keyboard, the clipboard, `Linking`,
  location, maps and the web view are not modelled. Their effects appear
  only as results (`Submitted`, the copied code, the viewer URL).
- Concurrency, stale closures, `useEffect` re-runs and the `mounted`
  guards are left out. The two paged lists split each load into a begin
  step and a settle step. Every other operation is one step with its
  awaited outcomes as parameters.
- `Date.now()` and `Math.random()` are parameters. `onAdd` reads the clock
  twice, once for the id and once for `created_at_ts`; the model uses one
  reading for both.
- Read and write failures of the key-value store are left out. A read
  error counts as unparseable text.
- `Number(...)` and `String(...)` conversions of arbitrary JSON values are
  left out. Categories, `is_done`, `sort_order` and `created_at_ts` are
  integers; a missing field is 0; shops' and brochures' `state` is a
  number, a string or absent.
- ShoppingList.NumericId: `Number()` of a string with white space, a sign,
  hex or an exponent is not modelled; only decimal digit strings have a
  value.
- Strings are sequences of Unicode scalar values, so `.length` and `slice`
  differ from JavaScript's UTF-16 units for characters outside the Basic
  Multilingual Plane.
- `toLowerCase` covers ASCII, Latin-1 and Cyrillic only.
- ShopsList.Title: states one direction only for the fallback. A city or
  store named 'Обект' also gives the title 'Обект', so "title is the
  fallback" does not imply that both fields are empty.
- Floating point (`getCoords`, `toNumber`, map regions and card widths) is
  left out.
- `clientCardsApi.js` has no `createVirtual`. `Submit` takes a flag for
  whether it exists, and in its absence the demo branch is taken.
- The "already have a virtual card" prompt of the virtual card screen is
  UI flow and is left out.
- The second `BrochuresScreen.jsx` (outside `brochures/`) is a fixed-URL
  web view and is left out.
- The `toUrl` copies in `BrochuresListScreen.jsx`, `BrochureCard.jsx` and
  `ProductCard.jsx` are the same helper, and only `Uri.ToUrl` models it.
  The same holds for the duplicated active-state filters in
  `HomeScreen.jsx` and `BrochuresListScreen.jsx`.
- Paged replies whose `data` is present but not an array are outside the
  model: `data` is a list or missing.
- `login`/`register` rethrow to `handleLogin`/`handleRegister`, where the
  rejection goes unhandled. The model returns the rethrown error and goes
  no further.
- The debug view of the client cards screen (`pretty`, the stored-value
  read) is left out; only `maskToken` is modelled.
