/** The catalog of tracked products (the `products` list of the catalog
    file) and the three edits the tracker makes to it: add, remove and edit.
    Each edit is stated here as a function from the catalog before to the
    catalog after, or to the exception Python raises. */
module Catalog {
  import opened Wrappers
  import opened Numbers

  /** A JSON value held in a product record: a number or a text. */
  datatype Value = Num(x: real) | Str(s: string)

  /** One product record: a JSON object keyed by field name. */
  type Product = map<string, Value>

  const Name := "name"
  const Url := "url"
  const PriceTagType := "price_tag_type"
  const PriceIdentifier := "price_identifier"
  const CurrencyTagType := "currency_tag_type"
  const CurrencyIdentifier := "currency_identifier"
  const TargetPrice := "target_price"
  const CurrentPrice := "current_price"

  /** The eight keys every record written by the tracker has. */
  const Fields: set<string> :=
    {Name, Url, PriceTagType, PriceIdentifier, CurrencyTagType, CurrencyIdentifier, TargetPrice, CurrentPrice}

  predicate WellFormed(p: Product) { p.Keys == Fields }

  predicate AllWellFormed(ps: seq<Product>) { forall i :: 0 <= i < |ps| ==> WellFormed(ps[i]) }

  /** The Python exceptions the modelled operations can raise. */
  datatype Error = ValueError | TypeError | IndexError | KeyError | HTTPError

  /** The six texts typed at the add prompts, in prompt order. */
  datatype Entry = Entry(
    name: string, url: string,
    priceTagType: string, priceIdentifier: string,
    currencyTagType: string, currencyIdentifier: string)

  /** The record `add` builds; its stored price starts one above the target. */
  function NewRecord(e: Entry, target: real): (p: Product)
    ensures WellFormed(p)
  {
    map[Name := Str(e.name), Url := Str(e.url),
        PriceTagType := Str(e.priceTagType), PriceIdentifier := Str(e.priceIdentifier),
        CurrencyTagType := Str(e.currencyTagType), CurrencyIdentifier := Str(e.currencyIdentifier),
        TargetPrice := Num(target), CurrentPrice := Num(target + 1.0)]
  }

  /** Adding a product: the target text is converted first, and a text that
      is not a number raises before the catalog is touched; otherwise the new
      record is appended after all existing ones. */
  function Added(ps: seq<Product>, e: Entry, targetText: string): (r: Result<seq<Product>, Error>)
    ensures r.Failure? <==> ParseNumber(targetText).None?
    ensures r.Failure? ==> r.error == ValueError
    ensures r.Success? ==>
      var target := ParseNumber(targetText).value;
      && |r.value| == |ps| + 1
      && r.value[..|ps|] == ps
      && WellFormed(r.value[|ps|])
      && r.value[|ps|][TargetPrice] == Num(target)
      && r.value[|ps|][CurrentPrice] == Num(target + 1.0)
      && r.value[|ps|][Name] == Str(e.name)
      && r.value[|ps|][Url] == Str(e.url)
      && r.value[|ps|][PriceTagType] == Str(e.priceTagType)
      && r.value[|ps|][PriceIdentifier] == Str(e.priceIdentifier)
      && r.value[|ps|][CurrencyTagType] == Str(e.currencyTagType)
      && r.value[|ps|][CurrencyIdentifier] == Str(e.currencyIdentifier)
    ensures r.Success? && AllWellFormed(ps) ==> AllWellFormed(r.value)
  {
    match ParseNumber(targetText)
    case None => Failure(ValueError)
    case Some(target) => Success(ps + [NewRecord(e, target)])
  }

  /** Python list indexing: an index in [-n, n) names a position, counting
      from the end when negative; any other index raises IndexError (None). */
  function NormalizeIndex(i: int, n: nat): (r: Option<nat>)
    ensures r.Some? <==> -(n as int) <= i < n
    ensures r.Some? ==> r.value < n && (r.value - i) % n == 0
  {
    if 0 <= i < n then Some(i) else if -(n as int) <= i < 0 then Some(i + n) else None
  }

  /** Removing a product: its name is read, then it is deleted; a bad index
      raises before anything is deleted. The result is the new catalog and the
      removed product's name. */
  function Removed(ps: seq<Product>, i: int): (r: Result<(seq<Product>, Value), Error>)
    requires AllWellFormed(ps)
    ensures r.Failure? <==> NormalizeIndex(i, |ps|).None?
    ensures r.Failure? ==> r.error == IndexError
    ensures r.Success? ==>
      var k, rest := NormalizeIndex(i, |ps|).value, r.value.0;
      && |rest| == |ps| - 1
      && (forall j :: 0 <= j < k ==> rest[j] == ps[j])
      && (forall j :: k <= j < |rest| ==> rest[j] == ps[j + 1])
      && r.value.1 == ps[k][Name]
      && AllWellFormed(rest)
  {
    match NormalizeIndex(i, |ps|)
    case None => Failure(IndexError)
    case Some(k) => Success((ps[..k] + ps[k + 1..], ps[k][Name]))
  }

  /** Editing a product: the old value of the field is read (IndexError for a
      bad index, KeyError for a field the record does not have), then the
      typed text is stored in it, as text even in a numeric field. The result
      is the new catalog and the old value. */
  function Edited(ps: seq<Product>, i: int, key: string, text: string): (r: Result<(seq<Product>, Value), Error>)
    ensures NormalizeIndex(i, |ps|).None? ==> r == Failure(IndexError)
    ensures NormalizeIndex(i, |ps|).Some? ==>
      var k := NormalizeIndex(i, |ps|).value;
      && (key !in ps[k] ==> r == Failure(KeyError))
      && (key in ps[k] ==>
            && r.Success?
            && |r.value.0| == |ps|
            && (forall j :: 0 <= j < |ps| && j != k ==> r.value.0[j] == ps[j])
            && r.value.0[k].Keys == ps[k].Keys
            && r.value.0[k][key] == Str(text)
            && (forall f :: f in ps[k] && f != key ==> r.value.0[k][f] == ps[k][f])
            && r.value.1 == ps[k][key])
    ensures r.Success? && AllWellFormed(ps) ==> AllWellFormed(r.value.0)
  {
    match NormalizeIndex(i, |ps|)
    case None => Failure(IndexError)
    case Some(k) =>
      if key !in ps[k] then Failure(KeyError)
      else Success((ps[k := ps[k][key := Str(text)]], ps[k][key]))
  }

  /** Removing the last product (index -1, as Python allows) right after an
      add gives back the catalog as it was, and reports the added name. */
  lemma RemoveUndoesAdd(ps: seq<Product>, e: Entry, targetText: string)
    requires AllWellFormed(ps)
    requires Added(ps, e, targetText).Success?
    ensures Removed(Added(ps, e, targetText).value, -1) == Success((ps, Str(e.name)))
    ensures Removed(Added(ps, e, targetText).value, |ps|) == Success((ps, Str(e.name)))
  {
    var added := Added(ps, e, targetText).value;
    assert NormalizeIndex(-1, |added|) == Some(|ps|);
    assert added[..|ps|] + added[|ps| + 1..] == ps;
  }

  /** Two edits of the same field of the same product: the second wins, and
      the first leaves no trace. */
  lemma EditLastWriteWins(ps: seq<Product>, i: int, key: string, first: string, second: string)
    requires Edited(ps, i, key, first).Success?
    ensures Edited(Edited(ps, i, key, first).value.0, i, key, second).Success?
    ensures Edited(Edited(ps, i, key, first).value.0, i, key, second).value.0
         == Edited(ps, i, key, second).value.0
  {
    var k := NormalizeIndex(i, |ps|).value;
    assert ps[k][key := Str(first)][key := Str(second)] == ps[k][key := Str(second)];
  }
}
