/** Properties that relate several workflow calls to each other. */
module ProductProperties {
  import opened Wrappers
  import opened Catalog
  import opened CategoryRows
  import opened ProductService

  /** A patch pins down every field of the patched product. */
  lemma PatchedByDeterminesProduct(p: Product, a: Product, b: Product, req: UpdateRequest)
    requires PatchedBy(p, a, req) && PatchedBy(p, b, req)
    ensures a == b
  {
  }

  /** Applying the same patch a second time changes nothing. */
  lemma ApplyPatchIdempotent(p: Product, req: UpdateRequest)
    ensures ApplyPatch(ApplyPatch(p, req), req) == ApplyPatch(p, req)
  {
  }

  /** Update and delete run the same checks in the same order, so they fail
      on exactly the same calls and with the same error. */
  lemma UpdateAndDeleteShareChecks(s: Store, req: UpdateRequest, pid: ProductId, email: Email)
    ensures UpdateProduct(s, req, pid, email).reply.Failure?
        <==> DeleteProduct(s, pid, email).reply.Failure?
    ensures UpdateProduct(s, req, pid, email).reply.Failure? ==>
              UpdateProduct(s, req, pid, email).reply.error == DeleteProduct(s, pid, email).reply.error
  {
  }

  /** A member who does not own a product can neither change nor remove it. */
  lemma NonOwnerChangesNothing(s: Store, req: UpdateRequest, pid: ProductId, email: Email)
    requires !IsOwner(s, pid, email)
    ensures UpdateProduct(s, req, pid, email).after == s
    ensures DeleteProduct(s, pid, email).after == s
  {
  }

  /** The creator of a product owns it: right after a successful create, the
      same caller may update it, and a category list in the update becomes
      the product's whole list. */
  lemma CreateThenUpdateCategories(s: Store, req: CreateRequest, email: Email, id: ProductId,
                                   returned: seq<CategoryDto>, patch: UpdateRequest)
    requires Fresh(s, id)
    requires email in s.members && HasLocation(s.members[email])
    requires patch.categoryIds.Some?
    ensures var created := CreateProduct(s, req, email, id, returned);
            var updated := UpdateProduct(created.after, patch, id, email);
            && updated.reply.Success?
            && CategoriesOf(updated.after.rows, id) == patch.categoryIds.value
  {
  }

  /** Deleting a product right after creating it, as the same caller,
      restores the product store. */
  lemma CreateThenDeleteRestoresProducts(s: Store, req: CreateRequest, email: Email, id: ProductId,
                                         returned: seq<CategoryDto>)
    requires Fresh(s, id)
    requires email in s.members && HasLocation(s.members[email])
    ensures var created := CreateProduct(s, req, email, id, returned);
            var deleted := DeleteProduct(created.after, id, email);
            && deleted.reply == Success(Deleted)
            && deleted.after.products == s.products
  {
  }

  /** Sending the same update twice leaves the store answering every query
      as after the first one. */
  lemma UpdateIdempotent(s: Store, req: UpdateRequest, pid: ProductId, email: Email)
    requires IsOwner(s, pid, email)
    ensures var once := UpdateProduct(s, req, pid, email);
            var twice := UpdateProduct(once.after, req, pid, email);
            && twice.reply == once.reply
            && twice.after.members == once.after.members
            && twice.after.products == once.after.products
            && (forall q :: CategoriesOf(twice.after.rows, q) == CategoriesOf(once.after.rows, q))
  {
  }
}
