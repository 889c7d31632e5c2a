/** The entities of the product workflow: members, products, category
    associations, the store holding them, and the request/response shapes of
    the create, update and delete use cases. */
module Catalog {
  import opened Wrappers

  type Email = string
  type MemberId = string
  type ProductId = string
  type CategoryId = string

  /** A registered member. Coordinates are Java `Double`s that may be null;
      only their presence matters to the workflow. */
  datatype Member = Member(
    memberId: MemberId,
    email: Email,
    displayName: string,
    latitude: Option<real>,
    longitude: Option<real>)

  /** A member may list products only when both coordinates are present. */
  predicate HasLocation(m: Member) {
    m.latitude.Some? && m.longitude.Some?
  }

  /** A rental listing. `owner` is the member the listing was created by. */
  datatype Product = Product(
    productId: ProductId,
    title: string,
    content: string,
    baseFee: int,
    feePerDay: int,
    overdueFee: int,
    minimumRentalPeriod: int,
    totalRateCount: int,
    totalRateScore: int,
    viewCount: int,
    owner: Member)

  /** The descriptor the category collaborator returns for one association. */
  datatype CategoryDto = CategoryDto(categoryId: CategoryId, title: string)

  /** One row of the product-to-category association table. */
  datatype Association = Association(productId: ProductId, categoryId: CategoryId)

  /** The persistent state the workflow reads and writes: the member directory
      keyed by email, the product store keyed by id, and the association rows
      (duplicates allowed, in insertion order). */
  datatype Store = Store(
    members: map<Email, Member>,
    products: map<ProductId, Product>,
    rows: seq<Association>)

  /** Every directory entry is filed under its own email and every product
      under its own id. */
  predicate Valid(s: Store) {
    && (forall e :: e in s.members ==> s.members[e].email == e)
    && (forall id :: id in s.products ==> s.products[id].productId == id)
  }

  /** The business-rule failures the workflow raises. `LocationNotFound` is the
      code spelled `NOT_FOUNT_LOCATION` in the service. */
  datatype Error = MemberNotFound | LocationNotFound | ProductNotFound | Unauthorized

  /** The payload of a create call. */
  datatype CreateRequest = CreateRequest(
    title: string,
    content: string,
    baseFee: int,
    feePerDay: int,
    overdueFee: int,
    minimumRentalPeriod: int,
    categoryIds: seq<CategoryId>)

  /** The payload of an update call: every field is optional, `None` meaning
      "leave the stored value as it is". */
  datatype UpdateRequest = UpdateRequest(
    baseFee: Option<int>,
    title: Option<string>,
    content: Option<string>,
    feePerDay: Option<int>,
    overdueFee: Option<int>,
    minimumRentalPeriod: Option<int>,
    categoryIds: Option<seq<CategoryId>>)

  /** What a successful call returns. The update response is built from the
      product alone and carries no categories. */
  datatype Response =
    | Created(product: Product, categories: seq<CategoryDto>)
    | Updated(product: Product)
    | Deleted

  /** The outcome of one transactional call: the store afterwards and the
      reply. A failed call rolls back, so its `after` is the store before. */
  datatype Step = Step(after: Store, reply: Result<Response, Error>)
}
