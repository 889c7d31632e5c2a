/** The two effects of the category collaborator on the association table:
    creating one row per requested category id, and deleting every row of one
    product. The collaborator's own implementation is not part of this model;
    only these effects on the table are. */
module CategoryRows {
  import opened Catalog

  /** The category ids associated with `pid`, in row order, duplicates kept. */
  function CategoriesOf(rows: seq<Association>, pid: ProductId): seq<CategoryId>
  {
    if rows == [] then []
    else (if rows[0].productId == pid then [rows[0].categoryId] else [])
         + CategoriesOf(rows[1..], pid)
  }

  /** Querying a concatenation of tables concatenates the answers. */
  lemma {:induction false} CategoriesOfConcat(a: seq<Association>, b: seq<Association>)
    ensures forall pid :: CategoriesOf(a + b, pid) == CategoriesOf(a, pid) + CategoriesOf(b, pid)
  {
    if a == [] {
      assert a + b == b;
    } else {
      assert (a + b)[0] == a[0];
      assert (a + b)[1..] == a[1..] + b;
      CategoriesOfConcat(a[1..], b);
    }
  }

  /** The rows the collaborator inserts for `pid`, one per id, in list order. */
  function RowsFor(pid: ProductId, ids: seq<CategoryId>): (r: seq<Association>)
    ensures |r| == |ids|
    ensures CategoriesOf(r, pid) == ids
    ensures forall q :: q != pid ==> CategoriesOf(r, q) == []
  {
    if ids == [] then []
    else
      var rest := RowsFor(pid, ids[1..]);
      CategoriesOfConcat([Association(pid, ids[0])], rest);
      [Association(pid, ids[0])] + rest
  }

  /** `createProductCategories(product, ids)`: associates `pid` with every id
      of the list, after whatever it was associated with already. */
  function AddCategories(rows: seq<Association>, pid: ProductId, ids: seq<CategoryId>): (r: seq<Association>)
    ensures rows <= r
    ensures CategoriesOf(r, pid) == CategoriesOf(rows, pid) + ids
    ensures forall q :: q != pid ==> CategoriesOf(r, q) == CategoriesOf(rows, q)
  {
    var added := RowsFor(pid, ids);
    CategoriesOfConcat(rows, added);
    rows + added
  }

  /** `deleteProductCategoriesByProductId(pid)`: removes every row of `pid`
      and keeps the other rows in order. */
  function DeleteByProduct(rows: seq<Association>, pid: ProductId): (r: seq<Association>)
    ensures CategoriesOf(r, pid) == []
    ensures forall q :: q != pid ==> CategoriesOf(r, q) == CategoriesOf(rows, q)
    ensures forall a :: a in r ==> a in rows && a.productId != pid
  {
    if rows == [] then []
    else
      var rest := DeleteByProduct(rows[1..], pid);
      if rows[0].productId == pid then rest
      else
        CategoriesOfConcat([rows[0]], rest);
        [rows[0]] + rest
  }

  /** Delete-then-create, as the update call does it: afterwards `pid` is
      associated with exactly `ids`, and every other product keeps its list. */
  function ReplaceCategories(rows: seq<Association>, pid: ProductId, ids: seq<CategoryId>): (r: seq<Association>)
    ensures CategoriesOf(r, pid) == ids
    ensures forall q :: q != pid ==> CategoriesOf(r, q) == CategoriesOf(rows, q)
  {
    AddCategories(DeleteByProduct(rows, pid), pid, ids)
  }

  /** Replacing twice with the same list answers every query as replacing once. */
  lemma ReplaceCategoriesIdempotent(rows: seq<Association>, pid: ProductId, ids: seq<CategoryId>)
    ensures forall q :: CategoriesOf(ReplaceCategories(ReplaceCategories(rows, pid, ids), pid, ids), q)
                     == CategoriesOf(ReplaceCategories(rows, pid, ids), q)
  {
  }
}
