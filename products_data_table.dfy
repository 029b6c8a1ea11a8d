/** The catalogue table: the search box's row test, the rows it leaves and the footer, and the
    deletion dialog with its target and its pending flag. */
module ProductsTable {
  import opened Wrappers
  import opened Text
  import opened ProductsColumns
  import TableFooter

  const NOUN := "produit"

  /** `globalFilterFn`: the query occurs, ignoring case, in the name, or in the description when
      there is one. */
  function ProductMatches(p: ProductRow, query: string): (r: bool)
    ensures r <==> MatchesSearch(p.name, query) || (p.description.Some? && MatchesSearch(p.description.value, query))
  {
    SearchIncludes(p.name, query) || (p.description.Some? && SearchIncludes(p.description.value, query))
  }

  /** A product without a description is found through its name alone. */
  lemma NoDescriptionMatchesByName(p: ProductRow, query: string)
    requires p.description.None?
    ensures ProductMatches(p, query) <==> MatchesSearch(p.name, query)
  {
  }

  /** The empty query is found in every product, even where the table library did run the test. */
  lemma EmptyQueryFindsEveryProduct(p: ProductRow)
    ensures ProductMatches(p, "")
  {
    EmptyQueryMatches(p.name);
  }

  /** A row stays in the table: the table library runs no search for an empty query. */
  predicate Kept(p: ProductRow, query: string) {
    query == "" || ProductMatches(p, query)
  }

  /** The rows left by the search, in table order: a kept row stays as often as it occurs in the
      data, any other row goes. */
  function FilteredProducts(data: seq<ProductRow>, query: string): (r: seq<ProductRow>)
    ensures |r| <= |data|
    ensures forall p :: p in r <==> p in data && Kept(p, query)
    ensures forall p :: multiset(r)[p] == if Kept(p, query) then multiset(data)[p] else 0
  {
    if data == [] then []
    else
      var rest := FilteredProducts(data[1..], query);
      assert data == [data[0]] + data[1..];
      if Kept(data[0], query) then [data[0]] + rest else rest
  }

  /** The search keeps the table's order: the rows left from `a + b` are those left from `a`, then
      those left from `b`. */
  lemma {:induction false} FilteredProductsAppend(a: seq<ProductRow>, b: seq<ProductRow>, query: string)
    ensures FilteredProducts(a + b, query) == FilteredProducts(a, query) + FilteredProducts(b, query)
  {
    if a == [] {
      assert a + b == b;
    } else {
      assert (a + b)[0] == a[0];
      assert (a + b)[1..] == a[1..] + b;
      FilteredProductsAppend(a[1..], b, query);
    }
  }

  /** A search only ever narrows the list: every product is kept when the query is empty. */
  lemma {:induction false} EmptySearchKeepsAll(data: seq<ProductRow>)
    ensures FilteredProducts(data, "") == data
  {
    if data != [] {
      EmptySearchKeepsAll(data[1..]);
    }
  }

  /** The footer under the catalogue table: it starts with the number of products the search leaves. */
  function Footer(data: seq<ProductRow>, query: string, pageIndex: nat, pageCount: nat): (r: string)
    ensures var n := |FilteredProducts(data, query)|; var d := |NatToString(n)|;
            |r| > d && IsDigits(r[..d]) && DigitsValue(r[..d]) == n && r[d] == ' '
  {
    var n := |FilteredProducts(data, query)|;
    TableFooter.FooterCountReadsBack(n, NOUN, pageIndex, pageCount);
    TableFooter.FooterText(n, NOUN, pageIndex, pageCount)
  }

  /** The state of `DataTable` that its own handlers change. */
  class ProductsDataTable {
    var deleteTarget: Option<ProductRow>
    var deleting: bool

    constructor()
      ensures deleteTarget.None? && !deleting
    {
      deleteTarget, deleting := None, false;
    }

    /** The dialog is open exactly while there is a product to delete. */
    predicate DialogOpen()
      reads this
    {
      deleteTarget.Some?
    }

    /** The trash button of a row: that product becomes the one to delete, and the dialog opens. */
    method RequestDelete(p: ProductRow)
      modifies this
      ensures deleteTarget == Some(p) && DialogOpen()
      ensures deleting == old(deleting)
    {
      deleteTarget := Some(p);
    }

    /** The dialog's `onOpenChange(open)` and its cancel button: closing forgets the target, opening
        changes nothing. */
    method OnOpenChange(open: bool)
      modifies this
      ensures !open ==> deleteTarget.None? && !DialogOpen()
      ensures open ==> deleteTarget == old(deleteTarget)
      ensures deleting == old(deleting)
    {
      if !open {
        deleteTarget := None;
      }
    }

    /** `handleDelete()`: `outcome` is how `deleteProduct` settles. Without a target nothing happens
        and nothing is called. Otherwise the target's id is sent; success closes the dialog, while a
        failure keeps it open and its error escapes the handler (`finally` has no `catch`). Nothing
        is pending afterwards in either case. */
    method HandleDelete(outcome: Outcome) returns (called: Option<string>, escaped: Option<string>)
      modifies this
      ensures old(deleteTarget).None? ==>
                called.None? && escaped.None? && deleteTarget.None? && deleting == old(deleting)
      ensures old(deleteTarget).Some? ==> called == Some(old(deleteTarget).value.id) && !deleting
      ensures old(deleteTarget).Some? && outcome.Pass? ==> deleteTarget.None? && escaped.None?
      ensures old(deleteTarget).Some? && outcome.Fail? ==>
                deleteTarget == old(deleteTarget) && escaped == Some(outcome.message)
    {
      if deleteTarget.None? {
        return None, None;
      }
      deleting := true;
      called := Some(deleteTarget.value.id);
      escaped := None;
      if outcome.Pass? {
        deleteTarget := None;
      } else {
        escaped := Some(outcome.message);
      }
      deleting := false;
    }
  }
}
