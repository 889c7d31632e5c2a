# Travel-rental product workflow and image upload, modelled in Dafny

This project models two pieces of a travel-rental marketplace.

**The product workflow** (`ProductService`) creates, updates and deletes
rental listings. Its state is a member directory keyed by email, a product
store keyed by product id, and a product-to-category association table. Each
call is one transaction. It returns a `Step`: the store afterwards plus
either a response or one of the business errors `MEMBER_NOT_FOUND`,
`NOT_FOUNT_LOCATION`, `PRODUCT_NOT_FOUND` and `UNAUTHORIZED`. A failed
call hands back the store it was given.

- Create resolves the caller, insists on both coordinates, and builds the
  product: fresh id, the request's data, zeroed counters, the caller as
  owner. It then saves the product and associates the requested categories.
- Update and delete resolve the caller, then the product, then check
  ownership, in that order.
- Update applies an optional-field patch. When a category list is present,
  update replaces the product's associations with it.
- Delete removes the product.

**The image-upload component** (`UploadImage`) keeps the picked files and
their preview URLs as two parallel lists. Adding appends new entries, cut
back with `slice` so that the total stays within `MAX_IMAGE_COUNT` (5).
Deleting removes one position from both lists: a `filter` removes it from
the URL list and a `splice` from the file list. An effect recomputes the
overflow flag. The ECMAScript semantics of `slice` and `splice` are
modelled exactly, negative indices included.

Files:
- `wrappers.dfy`: `Option` and `Result`.
- `catalog.dfy`: the entities, the store, requests, responses and errors.
- `category_rows.dfy`: the association table and the two effects of the
  category collaborator on it.
- `product_service.dfy`: create, update and delete.
- `product_properties.dfy`: properties that relate several calls.
- `js_array.dfy`: `slice`, `splice` and the index-based `filter`.
- `upload_image.dfy`: the add and delete handlers and the overflow effect.
- `upload_session.dfy`: sequences of user actions and the invariant they keep.

Modelling choices that follow the code:
- The location error is the code's `NOT_FOUNT_LOCATION`.
- Category ids are a list, and order and duplicates are kept. The service
  passes the list on unchanged, and the category collaborator's handling of
  duplicates is not modelled.
- The create response carries whatever list the category collaborator
  returns. It is not derived from the requested ids.
- Delete does not touch association rows. The service never asks for that.

## Model

| member | source | states |
|---|---|---|
| CategoryRows.AddCategories | server/src/main/java/com/ftiland/travelrental/product/service/ProductService.java:59-60 | creating categories for a product appends its requested ids, in order and with duplicates, to its association list; every other product's list is unchanged and the old rows are kept as a prefix |
| CategoryRows.DeleteByProduct | server/src/main/java/com/ftiland/travelrental/product/service/ProductService.java:96 | after deleting a product's associations it has none, every other product keeps exactly its list, and no row is invented |
| CategoryRows.ReplaceCategories | server/src/main/java/com/ftiland/travelrental/product/service/ProductService.java:94-98 | delete-then-create leaves the product associated with exactly the new list (no residue of the old one) and leaves every other product's list unchanged |
| CategoryRows.ReplaceCategoriesIdempotent | server/src/main/java/com/ftiland/travelrental/product/service/ProductService.java:94-98 | replacing a product's categories twice with the same list answers every query exactly as replacing once |
| ProductService.CreateProduct | server/src/main/java/com/ftiland/travelrental/product/service/ProductService.java:33-63 | an unknown email fails with MemberNotFound, and a member lacking either coordinate fails with LocationNotFound; both leave the store unchanged. Otherwise the call succeeds and adds exactly one product under the unused id, with the request's title, content and four fees, zero counters and the caller as owner. All other products and members stay unchanged, the new product's categories are exactly the request's list, and the response carries the saved product and the collaborator's list in its order. The store invariant is kept |
| ProductService.ValidateOwner | server/src/main/java/com/ftiland/travelrental/product/service/ProductService.java:65-69 | the ownership check passes exactly when the caller's member id equals the owner's member id, and otherwise reports Unauthorized |
| ProductService.Authorize | server/src/main/java/com/ftiland/travelrental/product/service/ProductService.java:74-80 | the checks run in the fixed order MemberNotFound, ProductNotFound, Unauthorized; they pass exactly when the caller owns the existing product, and then yield that product |
| ProductService.ApplyPatch | server/src/main/java/com/ftiland/travelrental/product/service/ProductService.java:82-93 | each present field of the patch overwrites the stored value and each absent field keeps it, zero and empty values included; id, owner, rating count, rating score and view count never change |
| ProductService.UpdateProduct | server/src/main/java/com/ftiland/travelrental/product/service/ProductService.java:71-101 | the three checks fail in their order with the store unchanged. On success only the target product changes, and it is exactly the patched product. A present category list (even empty) becomes the product's whole list; an absent one leaves the table untouched. Other products' categories never change. The response is built from the patched product alone, and the store invariant is kept |
| ProductService.DeleteProduct | server/src/main/java/com/ftiland/travelrental/product/service/ProductService.java:103-114 | the same three checks fail in the same order with the store unchanged. On success the target id leaves the store, every remaining product is unchanged, members and association rows are untouched, and the store invariant is kept |
| ProductProperties.PatchedByDeterminesProduct | server/src/main/java/com/ftiland/travelrental/product/service/ProductService.java:82-93 | the patch rule leaves no freedom: two products obtained from the same product by the same patch are equal |
| ProductProperties.ApplyPatchIdempotent | server/src/main/java/com/ftiland/travelrental/product/service/ProductService.java:82-93 | applying the same patch a second time changes nothing |
| ProductProperties.UpdateAndDeleteShareChecks | server/src/main/java/com/ftiland/travelrental/product/service/ProductService.java:72-111 | update and delete fail on exactly the same calls and with the same error |
| ProductProperties.NonOwnerChangesNothing | server/src/main/java/com/ftiland/travelrental/product/service/ProductService.java:65-80 | a caller who is not the owner of an existing product (or is unknown, or names a missing product) can neither change nor remove anything |
| ProductProperties.CreateThenUpdateCategories | server/src/main/java/com/ftiland/travelrental/product/service/ProductService.java:43-98 | the creator owns what they create: an update right after create by the same caller succeeds, and its category list replaces the created one entirely |
| ProductProperties.CreateThenDeleteRestoresProducts | server/src/main/java/com/ftiland/travelrental/product/service/ProductService.java:43-113 | deleting a product right after creating it, as the same caller, succeeds and gives back the original product store |
| ProductProperties.UpdateIdempotent | server/src/main/java/com/ftiland/travelrental/product/service/ProductService.java:82-100 | sending the same update twice gives the same reply and a store that answers every product and category query as after the first |
| JsArray.RelativeIndex | client/src/pages/Create/components/UploadImage.tsx:43-46 | the index `slice` and `splice` use lies within the list: a non-negative argument is clamped to the length, and a negative one counts back from the end and stops at 0 |
| JsArray.SliceTo | client/src/pages/Create/components/UploadImage.tsx:45-46 | `slice(0, end)` returns a prefix of the list whose length is the relative end index |
| JsArray.WithoutIndex | client/src/pages/Create/components/UploadImage.tsx:57 | filtering out position `index` removes exactly that element and keeps the rest in order when the index is in range, and changes nothing otherwise (negative indices included) |
| JsArray.SpliceOne | client/src/pages/Create/components/UploadImage.tsx:58-61 | `splice(index, 1)` on a copy removes exactly the element at the relative position, keeping the rest in order, and changes nothing when that position is past the end |
| JsArray.RemovedAtUnique | client/src/pages/Create/components/UploadImage.tsx:57-61 | removing one position leaves no freedom: two lists that each are the original with position k removed are equal |
| JsArray.FilterAgreesWithSplice | client/src/pages/Create/components/UploadImage.tsx:55-62 | for every non-negative index, the filter applied to the URLs and the splice applied to the files remove the same position |
| JsArray.NegativeIndexSplitsFilterAndSplice | client/src/pages/Create/components/UploadImage.tsx:57-60 | on any non-empty list, for index -1 the filter keeps every element while the splice drops the last one, so the two lists would fall out of step |
| UploadImage.AddImages | client/src/pages/Create/components/UploadImage.tsx:25-53 | no file list leaves the state unchanged. Otherwise the old lists are prefixes of the new ones, and both grow by the same count, at most the number picked. Appended entries are the picked files and URLs in pick order. Under the cap all are appended and the flags are untouched. Over the cap both flags are raised and, from a state within the cap, the total is exactly the cap. A state within the cap stays within it, and aligned lists stay aligned |
| UploadImage.HandleAddImages | client/src/pages/Create/components/UploadImage.tsx:25-53 | the handler's push loop followed by the `diff` truncation and the two appends computes exactly AddImages |
| UploadImage.DeleteImage | client/src/pages/Create/components/UploadImage.tsx:55-63 | for an in-range index both lists lose exactly that position and keep the rest in order; an out-of-range index leaves the URL list unchanged; the count never grows; aligned lists stay aligned for any non-negative index; flags are untouched |
| UploadImage.OverflowEffect | client/src/pages/Create/components/UploadImage.tsx:68-75 | the effect sets the overflow flag exactly when there are more URLs than the cap and truncates nothing, because the `slice` result is discarded |
| UploadImage.CloseModal | client/src/pages/Create/components/UploadImage.tsx:113 | closing the modal lowers the click flag and changes nothing else |
| UploadSession.EffectIdleWhenConsistent | client/src/pages/Create/components/UploadImage.tsx:68-75 | on aligned lists within the cap with the flag down, the overflow effect changes nothing, so running it where React would skip it is harmless |
| UploadSession.HandleKeepsConsistent | client/src/pages/Create/components/UploadImage.tsx:25-75 | any single add, delete or close, followed by the effect, keeps the lists aligned, within the cap and the overflow flag down |
| UploadSession.RunKeepsConsistent | client/src/pages/Create/components/UploadImage.tsx:25-75 | over any sequence of user actions the lists stay aligned, never exceed MAX_IMAGE_COUNT, and the overflow flag is down after every effect |
| UploadSession.OverflowFlagClearedByEffect | client/src/pages/Create/components/UploadImage.tsx:39-75 | an add that overflows raises the overflow flag, but the effect lowers it at once, because the lists were already cut to exactly the cap; the modal stays open |
| UploadSession.FirstPickFromEmpty | client/src/pages/Create/components/UploadImage.tsx:39-50 | picking files into an empty component keeps the first min(n, cap) of them, files and URLs, in pick order |

## Left out

- Spring plumbing is not modelled: `@Transactional`, logging and the repository implementations. Repositories are maps and a row table, and a call's atomicity is modelled by returning the old store on failure.
- `UUID.randomUUID()` is not modelled as randomness. The id is a parameter that must be `Fresh`: no product and no association row carries it.
- `ProductCategoryService` internals are not modelled. Only its two effects on the association table are. The descriptor list it returns at create is an opaque input.
- The category cascade on delete is left to the persistence layer (if any), which is not part of this model. The modelled delete leaves the association rows as they were.
- Coordinate values are not modelled. Latitude and longitude are optional reals, and only their presence is used.
- Java `null` in create-request fields, and in `memberId`, is not modelled: fields are plain values. Only the update request's fields are optional, as the service reads them.
- The response DTO shapes are not modelled. The create and update responses carry the product entity (and, for create, the category descriptors) from which the DTOs are built.
- Exception-code to HTTP-status mapping, the controller, and JSON serialisation are not modelled.
- The category checkbox list is not modelled: it is a network fetch plus rendering.
- The upload component's side effects are not modelled: `URL.createObjectURL` (its result is given with each picked file), `URL.revokeObjectURL` together with the `imageURLs` mirror effect that only feeds it, `console.log`, JSX rendering and React's update scheduling.
- The effect's dependency list is not modelled: the session runs the overflow effect after every action, which `EffectIdleWhenConsistent` shows is harmless on a steady state.
- React's state snapshot is simplified: the `prev` each setter receives is taken to be the same state as the `showImages` the handler read.
- `MAX_IMAGE_COUNT` is fixed at 5. Its constants file is not part of this model, and 5 is the value the component's modal text announces.
- UploadImage.AddImages: the cap results assume at most MAX_IMAGE_COUNT URLs beforehand. Above that the negative `slice` end is still modelled, but no bound is claimed. The session invariant shows the component never reaches such a state by itself.
