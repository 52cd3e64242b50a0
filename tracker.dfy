/** The tracker's commands as operations on the loaded catalog. A
    `ProductStore` holds the `products` list of the catalog file; each
    command loads it into a local list, changes that list step by step, and
    writes it back only when it completes. */
module Tracker {
  import opened Wrappers
  import opened Numbers
  import opened Catalog
  import opened PriceCheck

  class ProductStore {
    /** The `products` list of the catalog file, as last written. */
    var products: seq<Product>

    /** Every record has exactly the eight fields the tracker writes. */
    ghost predicate Valid()
      reads this
    {
      AllWellFormed(products)
    }

    constructor (initial: seq<Product>)
      requires AllWellFormed(initial)
      ensures Valid() && products == initial
    {
      products := initial;
    }

    /** The listing shown before a remove or an edit: each product's
        position, counted from 0, beside its name. */
    method ListProducts() returns (rows: seq<(nat, Value)>)
      requires Valid()
      ensures |rows| == |products|
      ensures forall i :: 0 <= i < |rows| ==> rows[i] == (i, products[i][Name])
    {
      rows := [];
      for num := 0 to |products|
        invariant |rows| == num
        invariant forall i :: 0 <= i < num ==> rows[i] == (i, products[i][Name])
      {
        rows := rows + [(num, products[num][Name])];
      }
    }

    /** `add`: the record is built from the prompted texts, then appended. */
    method AddProduct(e: Entry, targetText: string) returns (r: Result<(), Error>)
      requires Valid()
      modifies this
      ensures Valid()
      ensures var spec := Added(old(products), e, targetText);
        && (r.Failure? <==> spec.Failure?)
        && (r.Failure? ==> r.error == spec.error && products == old(products))
        && (r.Success? ==> products == spec.value)
    {
      var target := ParseNumber(targetText);
      if target.None? {
        return Failure(ValueError);
      }
      var record := NewRecord(e, target.value);
      var data := products;
      data := data + [record];
      products := data;
      r := Success(());
    }

    /** `remove`: the chosen product's name is read, the product deleted,
        and the name reported. */
    method RemoveProduct(index: int) returns (r: Result<Value, Error>)
      requires Valid()
      modifies this
      ensures Valid()
      ensures var spec := Removed(old(products), index);
        && (r.Failure? <==> spec.Failure?)
        && (r.Failure? ==> r.error == spec.error && products == old(products))
        && (r.Success? ==> r.value == spec.value.1 && products == spec.value.0)
    {
      var data := products;
      var k := NormalizeIndex(index, |data|);
      if k.None? {
        return Failure(IndexError);
      }
      var productName := data[k.value][Name];
      data := data[..k.value] + data[k.value + 1..];
      products := data;
      r := Success(productName);
    }

    /** `edit`: the old value of the chosen field is read and reported, then
        replaced by the typed text. */
    method EditProduct(index: int, param: string, newValue: string) returns (r: Result<Value, Error>)
      requires Valid()
      modifies this
      ensures Valid()
      ensures var spec := Edited(old(products), index, param, newValue);
        && (r.Failure? <==> spec.Failure?)
        && (r.Failure? ==> r.error == spec.error && products == old(products))
        && (r.Success? ==> r.value == spec.value.1 && products == spec.value.0)
    {
      var data := products;
      var k := NormalizeIndex(index, |data|);
      if k.None? {
        return Failure(IndexError);
      }
      if param !in data[k.value] {
        return Failure(KeyError);
      }
      var oldValue := data[k.value][param];
      data := data[k.value := data[k.value][param := Str(newValue)]];
      products := data;
      r := Success(oldValue);
    }

    /** `run` (force = false) and `force-text` (force = true): every product
        is checked in order against what was scraped for it, the catalog is
        written back, and the message body is returned when a text is sent. */
    method RunCheck(scrapes: seq<Scrape>, force: bool, showFloat: real -> string)
      returns (r: Result<Option<string>, Error>)
      requires Valid() && |scrapes| == |products|
      modifies this
      ensures Valid()
      ensures var spec := Run(old(products), scrapes, force, showFloat);
        && (r.Failure? <==> spec.Failure?)
        && (r.Failure? ==> r.error == spec.error && products == old(products))
        && (r.Success? ==> r.value == spec.value.message && products == spec.value.products)
    {
      ghost var ps := products;
      var data := products;
      var messageBody := "";
      var priceChanged := false;
      for idx := 0 to |data|
        invariant products == ps && |data| == |ps| && AllWellFormed(ps)
        invariant CheckedUpTo(data, ps, scrapes, idx)
        invariant messageBody == Body(ps[..idx], scrapes[..idx], showFloat)
        invariant priceChanged <==> exists j :: 0 <= j < idx && Changes(ps[j], scrapes[j])
      {
        assert data[idx] == ps[idx];
        var step := CheckProduct(data[idx], scrapes[idx], showFloat);
        if step.Failure? {
          RunStopsAtFirstCrash(ps, scrapes, idx, force, showFloat);
          return Failure(step.error);
        }
        var (product, changed, segment) := step.value;
        if changed {
          priceChanged := true;
        }
        CheckedStep(data, ps, scrapes, idx);
        data := data[idx := product];
        BodyStep(ps, scrapes, idx, showFloat);
        messageBody := messageBody + segment;
      }
      assert ps[..|ps|] == ps && scrapes[..|ps|] == scrapes;
      RunCompletes(data, ps, scrapes, priceChanged, force, showFloat);
      products := data;
      r := Success(if force || priceChanged then Some(messageBody) else None);
    }
  }

  /** The body of the check's loop for one product: the product as written
      back, whether its price changed, and the text added to the message
      body; or the exception that ends the run. */
  method CheckProduct(product: Product, scrape: Scrape, showFloat: real -> string)
    returns (r: Result<(Product, bool, string), Error>)
    requires WellFormed(product)
    ensures r.Failure? <==> CrashAt(product, scrape).Some?
    ensures r.Failure? ==> r.error == CrashAt(product, scrape).value
    ensures r.Success? ==> r.value.0 == Updated(product, scrape)
    ensures r.Success? ==> (r.value.1 <==> Changes(product, scrape))
    ensures r.Success? ==> r.value.2 == Segment(product, scrape, showFloat)
  {
    var name := ShowValue(product[Name], showFloat);
    match scrape {
      case FetchFailed =>
        r := Success((product, false, FetchFailureLine(ShowValue(product[Url], showFloat), name)));
      case NoPriceElement =>
        r := Success((product, false, NoInfoLine(name)));
      case ErrorStatus =>
        r := Failure(HTTPError);
      case NoAmount =>
        r := Failure(TypeError);
      case Found(amount, amountText, currency) =>
        var oldPrice := product[CurrentPrice];
        var stored := StoredPrice(oldPrice);
        if stored.None? {
          return Failure(ValueError);
        }
        var updated := product;
        var changed := false;
        if amount != stored.value {
          changed := true;
          updated := updated[CurrentPrice := Num(amount)];
        }
        r := Success((updated, changed, SummaryLine(name, currency, amountText, ShowValue(oldPrice, showFloat))));
    }
  }
}
