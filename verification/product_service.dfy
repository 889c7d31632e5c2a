/** The product workflow: create, update and delete as transitions of the
    store. Each call is one transaction: it either fails with the first check
    that does not hold and leaves the store as it was, or applies all of its
    writes. */
module ProductService {
  import opened Wrappers
  import opened Catalog
  import opened CategoryRows

  /** `memberRepository.findByEmail`. */
  function FindMember(s: Store, email: Email): Option<Member> {
    if email in s.members then Some(s.members[email]) else None
  }

  /** `productRepository.findById`. */
  function FindProduct(s: Store, pid: ProductId): Option<Product> {
    if pid in s.products then Some(s.products[pid]) else None
  }

  /** A generated id the store has never seen: no product and no association
      row carries it. This is what the random UUID is relied on to provide. */
  predicate Fresh(s: Store, id: ProductId) {
    id !in s.products && CategoriesOf(s.rows, id) == []
  }

  /** The caller resolves to a member who owns the existing product `pid`. */
  predicate IsOwner(s: Store, pid: ProductId, email: Email) {
    && email in s.members
    && pid in s.products
    && s.members[email].memberId == s.products[pid].owner.memberId
  }

  /** The caller and the product both resolve, but the product belongs to
      another member. */
  predicate ForeignProduct(s: Store, pid: ProductId, email: Email) {
    && email in s.members
    && pid in s.products
    && s.members[email].memberId != s.products[pid].owner.memberId
  }

  /** `s'` is `s` with exactly one product added, under the unused id `id`,
      and nothing else in the product store changed. */
  predicate InsertedOnly(s: Store, s': Store, id: ProductId) {
    && id !in s.products
    && s'.products.Keys == s.products.Keys + {id}
    && (forall q :: q in s.products ==> s'.products[q] == s.products[q])
  }

  /** The product a create call builds: the request's data, zeroed counters
      and the caller as owner. */
  predicate BuiltFrom(p: Product, id: ProductId, req: CreateRequest, owner: Member) {
    && p.productId == id
    && p.title == req.title
    && p.content == req.content
    && p.baseFee == req.baseFee
    && p.feePerDay == req.feePerDay
    && p.overdueFee == req.overdueFee
    && p.minimumRentalPeriod == req.minimumRentalPeriod
    && p.totalRateCount == 0
    && p.totalRateScore == 0
    && p.viewCount == 0
    && p.owner == owner
  }

  /** `createProduct(request, email)`. `freshId` is the UUID the service
      draws; `returned` is the descriptor list the category collaborator
      answers with, which the model does not compute. */
  function CreateProduct(s: Store, req: CreateRequest, email: Email, freshId: ProductId,
                         returned: seq<CategoryDto>): (r: Step)
    requires Fresh(s, freshId)
    ensures email !in s.members ==> r == Step(s, Failure(MemberNotFound))
    ensures email in s.members && !HasLocation(s.members[email]) ==> r == Step(s, Failure(LocationNotFound))
    ensures r.reply.Success? <==> email in s.members && HasLocation(s.members[email])
    ensures r.reply.Success? ==>
              && r.after.members == s.members
              && InsertedOnly(s, r.after, freshId)
              && BuiltFrom(r.after.products[freshId], freshId, req, s.members[email])
              && CategoriesOf(r.after.rows, freshId) == req.categoryIds
              && (forall q :: q != freshId ==> CategoriesOf(r.after.rows, q) == CategoriesOf(s.rows, q))
              && r.reply.value == Created(r.after.products[freshId], returned)
    ensures Valid(s) ==> Valid(r.after)
  {
    match FindMember(s, email)
    case None => Step(s, Failure(MemberNotFound))
    case Some(member) =>
      if member.latitude.None? || member.longitude.None? then
        Step(s, Failure(LocationNotFound))
      else
        var product := Product(freshId, req.title, req.content, req.baseFee, req.feePerDay,
                               req.overdueFee, req.minimumRentalPeriod, 0, 0, 0, member);
        var saved := s.(products := s.products[freshId := product]);
        var linked := saved.(rows := AddCategories(saved.rows, freshId, req.categoryIds));
        Step(linked, Success(Created(product, returned)))
  }

  /** `validateOwner`: the caller may act on the product only when the member
      ids agree. */
  function ValidateOwner(member: Member, product: Product): (r: Option<Error>)
    ensures r.None? <==> member.memberId == product.owner.memberId
    ensures r.Some? ==> r.value == Unauthorized
  {
    if member.memberId != product.owner.memberId then Some(Unauthorized) else None
  }

  /** The checks shared by update and delete, in their order: resolve the
      caller, then the product, then ownership. */
  function Authorize(s: Store, pid: ProductId, email: Email): (r: Result<Product, Error>)
    ensures email !in s.members ==> r == Failure(MemberNotFound)
    ensures email in s.members && pid !in s.products ==> r == Failure(ProductNotFound)
    ensures ForeignProduct(s, pid, email) ==> r == Failure(Unauthorized)
    ensures r.Success? <==> IsOwner(s, pid, email)
    ensures r.Success? ==> r.value == s.products[pid]
  {
    match FindMember(s, email)
    case None => Failure(MemberNotFound)
    case Some(member) =>
      match FindProduct(s, pid)
      case None => Failure(ProductNotFound)
      case Some(product) =>
        match ValidateOwner(member, product)
        case Some(e) => Failure(e)
        case None => Success(product)
  }

  /** `p'` is `p` with the patch applied: a present field overwrites, an
      absent one is kept; id, owner and the rating and view counters are
      never patched. */
  predicate PatchedBy(p: Product, p': Product, req: UpdateRequest) {
    && (if req.baseFee.Some? then p'.baseFee == req.baseFee.value else p'.baseFee == p.baseFee)
    && (if req.title.Some? then p'.title == req.title.value else p'.title == p.title)
    && (if req.content.Some? then p'.content == req.content.value else p'.content == p.content)
    && (if req.feePerDay.Some? then p'.feePerDay == req.feePerDay.value else p'.feePerDay == p.feePerDay)
    && (if req.overdueFee.Some? then p'.overdueFee == req.overdueFee.value else p'.overdueFee == p.overdueFee)
    && (if req.minimumRentalPeriod.Some? then p'.minimumRentalPeriod == req.minimumRentalPeriod.value
        else p'.minimumRentalPeriod == p.minimumRentalPeriod)
    && p'.productId == p.productId
    && p'.owner == p.owner
    && p'.totalRateCount == p.totalRateCount
    && p'.totalRateScore == p.totalRateScore
    && p'.viewCount == p.viewCount
  }

  /** The six `Optional.ofNullable(...).ifPresent(setter)` statements. */
  function ApplyPatch(p: Product, req: UpdateRequest): (p': Product)
    ensures PatchedBy(p, p', req)
  {
    p.(baseFee := req.baseFee.GetOr(p.baseFee),
       title := req.title.GetOr(p.title),
       content := req.content.GetOr(p.content),
       feePerDay := req.feePerDay.GetOr(p.feePerDay),
       overdueFee := req.overdueFee.GetOr(p.overdueFee),
       minimumRentalPeriod := req.minimumRentalPeriod.GetOr(p.minimumRentalPeriod))
  }

  /** `updateProduct(request, productId, email)`. */
  function UpdateProduct(s: Store, req: UpdateRequest, pid: ProductId, email: Email): (r: Step)
    ensures email !in s.members ==> r == Step(s, Failure(MemberNotFound))
    ensures email in s.members && pid !in s.products ==> r == Step(s, Failure(ProductNotFound))
    ensures ForeignProduct(s, pid, email) ==> r == Step(s, Failure(Unauthorized))
    ensures r.reply.Success? <==> IsOwner(s, pid, email)
    ensures r.reply.Success? ==>
              && r.after.members == s.members
              && r.after.products.Keys == s.products.Keys
              && (forall q :: q in s.products && q != pid ==> r.after.products[q] == s.products[q])
              && PatchedBy(s.products[pid], r.after.products[pid], req)
              && r.reply.value == Updated(r.after.products[pid])
              && (req.categoryIds.Some? ==> CategoriesOf(r.after.rows, pid) == req.categoryIds.value)
              && (req.categoryIds.None? ==> r.after.rows == s.rows)
              && (forall q :: q != pid ==> CategoriesOf(r.after.rows, q) == CategoriesOf(s.rows, q))
    ensures Valid(s) ==> Valid(r.after)
  {
    match Authorize(s, pid, email)
    case Failure(e) => Step(s, Failure(e))
    case Success(product) =>
      var patched := ApplyPatch(product, req);
      var rows := match req.categoryIds
        case Some(ids) => ReplaceCategories(s.rows, pid, ids)
        case None => s.rows;
      Step(Store(s.members, s.products[pid := patched], rows), Success(Updated(patched)))
  }

  /** `deleteProduct(productId, email)`. The call touches no association row:
      any cascade belongs to the persistence layer. */
  function DeleteProduct(s: Store, pid: ProductId, email: Email): (r: Step)
    ensures email !in s.members ==> r == Step(s, Failure(MemberNotFound))
    ensures email in s.members && pid !in s.products ==> r == Step(s, Failure(ProductNotFound))
    ensures ForeignProduct(s, pid, email) ==> r == Step(s, Failure(Unauthorized))
    ensures r.reply.Success? <==> IsOwner(s, pid, email)
    ensures r.reply.Success? ==>
              && r.reply.value == Deleted
              && r.after.members == s.members
              && r.after.rows == s.rows
              && r.after.products.Keys == s.products.Keys - {pid}
              && (forall q :: q in r.after.products ==> r.after.products[q] == s.products[q])
    ensures Valid(s) ==> Valid(r.after)
  {
    match Authorize(s, pid, email)
    case Failure(e) => Step(s, Failure(e))
    case Success(_) => Step(s.(products := s.products - {pid}), Success(Deleted))
  }
}
