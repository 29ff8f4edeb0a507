# Storefront catalogue and product card — a Dafny model

This project models the client-side logic of a digital-goods storefront
(free and paid products, per-user download rows). Two parts are modelled:

- **The catalogue page** (`src/pages/Home.tsx`). It filters the product list
  by a case-insensitive search term and a type filter ("All Products", "Free",
  "Premium"). It turns the user's `user_downloads` rows into a list of product
  ids. It gives every card in the product grid an ownership flag: is the card's
  product id in that list?
- **The product card** (`src/components/ProductCard.tsx`). An image carousel
  keeps a `currentImageIndex` state cell. The "next" and "previous" arrows move
  it modulo the number of images, and the indicator dots set it directly. The
  card also makes pure choices: the type badge (FREE or the price), the OWNED
  badge, whether the description is shown, and the caption and style of the
  action button (Download / Get Free / Request).

Modules, one per file:

- `Wrappers` (`wrappers.dfy`): the `Option` type for nullable columns.
- `Schema` (`schema.dfy`): the `products` and `user_downloads` rows and the
  `product_type` enumeration.
- `Text` (`text.dfy`): lower-casing and substring search, the two string
  operations the search uses.
- `Home` (`home.dfy`): the catalogue filter, the ownership lookup and the grid.
- `ProductCard` (`product_card.dfy`): the carousel index functions, the
  `ImageCarousel` class that holds the index, and the card's display choices.

The filter, the ownership lookup and the display choices are expressions in
the source, so they are functions with lemmas. The carousel index is a piece
of state that event handlers update, so it is a class with a field, an
in-range invariant `Valid()`, and methods whose postconditions tie the new
index to `NextIndex`/`PrevIndex` of the old one.

The search calls `toLowerCase` and `includes`. Lower-casing is modelled on
ASCII letters. `includes` is modelled by a scan over offsets, `Text.Includes`,
which `Text.IncludesIff` proves equal to "the term occurs at some offset".
The source's `%` is JavaScript's truncating remainder. Its operands here are
never negative (the index is at least 0, and `i - 1 + n >= 0` when `n > 0`),
so it agrees with Dafny's `%`.

The storefront as a whole is meant to have a purchase-approval and
entitlement workflow (requests for paid products, admin decisions, granted
downloads). None of it is in this client code: the download handler only
shows a "coming soon" message (`src/pages/Home.tsx:73-84`). This model
follows the code, so the workflow is not part of it.

## Model

| member | source | states |
|---|---|---|
| `Text.LowerChar` | src/pages/Home.tsx:95-96 | the result is never an ASCII capital; capitals map to the matching small letter; every other character is unchanged |
| `Text.Lower` | src/pages/Home.tsx:95-96 | lower-casing keeps the length, lower-cases each character in place with `LowerChar`, and leaves no ASCII capital in the result |
| `Text.LowerIdempotent` | src/pages/Home.tsx:95-96 | lower-casing twice equals lower-casing once |
| `Text.Includes` | src/pages/Home.tsx:95-96 | `includes(s, t)` (scanning offsets from the left) can be true only when `t` is no longer than `s`; its full meaning is `Text.IncludesIff` |
| `Text.IncludesIff` | src/pages/Home.tsx:95-96 | `includes(s, t)` is true exactly when `t` occurs in `s` at some offset (both directions) |
| `Home.MatchesSearch` | src/pages/Home.tsx:95-96 | a product matches exactly when the lower-cased term occurs in its lower-cased title, or it has a description and the term occurs in that; with a null description only the title counts |
| `Home.MatchesFilter` | src/pages/Home.tsx:97 | "All Products" accepts every product; "Free"/"Premium" accepts exactly the products of that type |
| `Home.Keep` | src/pages/Home.tsx:98 | a product is kept exactly when it matches the search (title, or non-null description, after lower-casing) and the type filter; the filter's contracts are stated through it |
| `Home.FilteredProducts` | src/pages/Home.tsx:94-99 | a product is in the result exactly when it is in the catalogue and passes both the search and the type test; the result is never longer than the catalogue (the "N products found" count, line 225) |
| `Home.FilterIsSubsequence` | src/pages/Home.tsx:94-99 | the filtered list is a subsequence of the catalogue: products are only dropped, never reordered |
| `Home.FilterCounts` | src/pages/Home.tsx:94-99 | a kept product occurs in the result exactly as often as in the catalogue, and a rejected one not at all (nothing is duplicated) |
| `Home.FilterIdempotent` | src/pages/Home.tsx:94-99 | filtering the filtered list again with the same term and type returns it unchanged |
| `Home.EmptySearchShowsAll` | src/pages/Home.tsx:95-97 | an empty term under "All Products" returns the catalogue unchanged |
| `Home.FilterIgnoresCase` | src/pages/Home.tsx:95-96 | two terms that are equal once lower-cased give the same filtered list |
| `Home.SearchTermCaseIrrelevant` | src/pages/Home.tsx:95-96 | a term and its lower-cased form give the same filtered list |
| `Home.FilterByTypeOnly` | src/pages/Home.tsx:97 | under the "Free" (resp. "Premium") filter every shown product is free (resp. paid) |
| `Home.FreeAndPaidPartitionAll` | src/pages/Home.tsx:97 | for any term, the "Free" count plus the "Premium" count equals the "All Products" count |
| `Home.ProductIds` | src/pages/Home.tsx:67 | one id per download row, in row order; an id is in the list exactly when some row has it as `product_id` |
| `Home.UserDownloadIds` | src/pages/Home.tsx:67 | a null query result gives the empty id list; otherwise id `i` is the `product_id` of row `i` |
| `Home.ListIncludes` | src/pages/Home.tsx:258 | the scan finds an id exactly when it is a member of the list |
| `Home.UserHasAccess` | src/pages/Home.tsx:258 | a product's ownership flag is true exactly when its id is in the id list |
| `Home.AccessIffDownloadRow` | src/pages/Home.tsx:258 | a product's ownership flag is true exactly when the query returned rows and one of them names the product's id |
| `Home.ProductGrid` | src/pages/Home.tsx:246-261 | card `i` is the rendering of filtered product `i` with the ownership flag "its id is in the id list"; so there are never more cards than products |
| `Home.GridShowsOwnership` | src/pages/Home.tsx:254-259 | a grid card shows OWNED, and its button reads "Download", exactly when the download rows passed to the page name that product |
| `ProductCard.NextIndex` | src/components/ProductCard.tsx:28-32 | with no images the index does not move; from an index in range the result is in range |
| `ProductCard.PrevIndex` | src/components/ProductCard.tsx:34-38 | with no images the index does not move; from an index in range the result is in range |
| `ProductCard.NextIndexStep` | src/components/ProductCard.tsx:30 | from index `i < n`, "next" gives `i + 1`, or 0 from the last image |
| `ProductCard.PrevIndexStep` | src/components/ProductCard.tsx:36 | from index `i < n`, "previous" gives `i - 1`, or `n - 1` from the first image |
| `ProductCard.PrevAfterNext` | src/components/ProductCard.tsx:28-38 | from an index in range, "previous" after "next" returns to the start |
| `ProductCard.NextAfterPrev` | src/components/ProductCard.tsx:28-38 | from an index in range, "next" after "previous" returns to the start |
| `ProductCard.WrapAround` | src/components/ProductCard.tsx:28-38 | "next" from the last image gives 0; "previous" from the first gives the last |
| `ProductCard.NextSteps` | src/components/ProductCard.tsx:30 | any number of "next" presses from an index in range stays in range |
| `ProductCard.NextStepsWrapOnce` | src/components/ProductCard.tsx:30 | `k <= n` presses of "next" from `i` land on `i + k`, minus `n` if that passes the end |
| `ProductCard.FullCycle` | src/components/ProductCard.tsx:30 | `n` presses of "next" return to the starting image |
| `ProductCard.HiddenArrowsLoseNothing` | src/components/ProductCard.tsx:63 | for every valid carousel whose arrows are hidden (at most one image), neither "next" nor "previous" would move the index |
| `ProductCard.ImagesOf` | src/components/ProductCard.tsx:25 | a null `images` column gives no images; otherwise the column's images, unchanged; the constructor's contract is stated through it |
| `ProductCard.ImageCarousel.HasImages` | src/components/ProductCard.tsx:26 | true exactly when the card's image list is non-empty; the carousel's guards and `CurrentImage` are stated through it |
| `ProductCard.ImageCarousel.constructor` | src/components/ProductCard.tsx:24-26 | a new card uses the product's images (none when null), starts at index 0 and is valid |
| `ProductCard.ImageCarousel.NextImage` | src/components/ProductCard.tsx:28-32 | keeps the index in range; the new index is `NextIndex` of the old one over the card's images |
| `ProductCard.ImageCarousel.PrevImage` | src/components/ProductCard.tsx:34-38 | keeps the index in range; the new index is `PrevIndex` of the old one over the card's images |
| `ProductCard.ImageCarousel.SelectImage` | src/components/ProductCard.tsx:80-83 | a click on indicator `k` (one dot per image) sets the index to `k` and keeps it in range |
| `ProductCard.ImageCarousel.CurrentImage` | src/components/ProductCard.tsx:51-55 | while the index is in range, an image is shown exactly when the product has images, and it is one of them (never undefined) |
| `ProductCard.ImageCarousel.ShowsNavigation` | src/components/ProductCard.tsx:63 | arrows and dots are drawn exactly when the card has at least two images (so only when it has images at all) |
| `ProductCard.TypeBadgeContent` | src/components/ProductCard.tsx:111-121 | the badge reads FREE exactly when the product is free; otherwise it carries the product's (nullable) price |
| `ProductCard.TypeBadgeVariant` | src/components/ProductCard.tsx:103-109 | the badge style is "secondary" exactly for free products and "default" exactly for paid ones |
| `ProductCard.ActionLabel` | src/components/ProductCard.tsx:171 | "Download" exactly when owned, whatever the type; otherwise "Get Free" exactly for free and "Request" exactly for paid |
| `ProductCard.ActionVariant` | src/components/ProductCard.tsx:165 | the style is "download", "neon" or "gold" exactly when the caption is "Download", "Get Free" or "Request" respectively |
| `ProductCard.LabelAndVariantAgree` | src/components/ProductCard.tsx:165-171 | two cards have the same button caption exactly when they have the same button style |
| `ProductCard.Render` | src/components/ProductCard.tsx:101-172 | the OWNED badge is shown exactly when the optional ownership flag is present and true (it defaults to false); the button reads "Download" exactly when OWNED is shown; the FREE badge exactly for free products; the description exactly when it is non-null and non-empty |

## Left out

- The purchase-approval, entitlement-grant, notification, work-assignment and role-gating behaviour of the wider system. This code does not implement it: the download handler only shows a toast (`src/pages/Home.tsx:73-84`), and the rest lives in the backend.
- The preview handler (`src/pages/Home.tsx:86-92`) only shows a toast. It is not modelled.
- The signed-out branch of the download handler (`src/pages/Home.tsx:74-77`) only opens the sign-in dialog. It is not modelled.
- The Supabase queries are network I/O and are not modelled. They are the product fetch ordered by `created_at` (`src/pages/Home.tsx:36-55`) and the download fetch filtered by user id (`src/pages/Home.tsx:57-71`). The model takes their results as parameters. A failed download query leaves the previous id list in place; that is not modelled.
- Home.GridShowsOwnership: speaks of the download rows handed to the page, not of the signed-in user. In the source the id list is fetched only while a user is signed in and is never cleared (`src/pages/Home.tsx:26`, `:29-34`). The page stays mounted across sign-in changes (`src/pages/Index.tsx:22-26`, `:47-50`), and sign-out does not reload it (`src/components/Navbar.tsx:45-47`). So after sign-out the cards keep the previous user's OWNED badges, and the answers to two quick user switches may arrive out of order. The model does not capture this stale state.
- Loading state, toasts, animation and layout are not modelled, including the highlight of the active indicator dot (`src/components/ProductCard.tsx:84-88`). This covers the hero section, the stats, `src/components/MyneLoader.tsx`, `src/components/Navbar.tsx` and `src/pages/Index.tsx`.
- Text.Lower: lower-cases ASCII letters only. The source's `toLowerCase` applies full Unicode case mapping, which can also change a string's length.
- The text of the price badge and of the date are not modelled. They are float and locale formatting (`src/components/ProductCard.tsx:119`, `:149`). The badge carries the price as a number.
- ProductCard.ImageCarousel.constructor: the card's images are fixed for the object's lifetime. In the source the index is not reset when a card is re-rendered with another product. Such a re-render is not modelled.
- The `request_status`, `user_role` and `notification_type` enumerations and the other tables belong to the backend workflow and are not modelled. The same goes for the `metadata` JSON column and the compile-time type helpers of `src/integrations/supabase/types.ts`.
