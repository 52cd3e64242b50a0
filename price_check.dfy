/** The price check of the `run` and `force-text` commands, as a function of
    the catalog and of what was scraped for each product: the catalog written
    back, the message body, and whether a text message goes out. */
module PriceCheck {
  import opened Wrappers
  import opened Numbers
  import opened Catalog

  /** What fetching one product's page and extracting its price produced.
      Fetching, HTML parsing and price-text parsing are done by libraries;
      the model receives only their outcome. */
  datatype Scrape =
    | FetchFailed     // the GET itself raised
    | ErrorStatus     // the page came back with a 4xx or 5xx status
    | NoPriceElement  // no element matched the price tag type and class
    | NoAmount        // a price element was found but held no number
    | Found(amount: real, amountText: string, currency: string)
      // amountText is the amount as the price parser prints it; currency is
      // the symbol from the price text or, failing that, from the currency element

  /** `float(current_price)`: a number as it is, a text converted (None where
      the conversion raises ValueError, possible after an edit). */
  function StoredPrice(v: Value): Option<real>
  {
    match v
    case Num(x) => Some(x)
    case Str(s) => ParseNumber(s)
  }

  /** A value as `str.format` prints it; showFloat is Python's float printing. */
  function ShowValue(v: Value, showFloat: real -> string): string {
    match v
    case Str(s) => s
    case Num(x) => showFloat(x)
  }

  /** The exception that ends the run at this product, if any: an error
      status, which `raise_for_status` raises outside the `try` (HTTPError),
      no amount to convert (TypeError), or a stored price that is not a
      number (ValueError). */
  function CrashAt(p: Product, o: Scrape): Option<Error>
    requires WellFormed(p)
  {
    match o
    case ErrorStatus => Some(HTTPError)
    case NoAmount => Some(TypeError)
    case Found(_, _, _) => if StoredPrice(p[CurrentPrice]).None? then Some(ValueError) else None
    case _ => None
  }

  /** A price typed at `edit` is stored as text; the check reads it back as
      the number it spells, for a whole number and for one with a fraction. */
  lemma TypedPriceIsRead(w: nat, f: string)
    requires AllDigits(f)
    ensures StoredPrice(Str(NatText(w))) == Some(w as real)
    ensures StoredPrice(Str(NatText(w) + "." + f)) == Some(w as real + FractionValue(f))
  {
    WholeNumberRoundTrip(w);
    DecimalValue(w, f);
  }

  /** The product's price differs from the one found for it. */
  predicate Changes(p: Product, o: Scrape)
    requires WellFormed(p)
  {
    o.Found? && StoredPrice(p[CurrentPrice]).Some? && StoredPrice(p[CurrentPrice]).value != o.amount
  }

  /** The product after the check: the found amount replaces the stored
      price when the two differ. */
  function Updated(p: Product, o: Scrape): (q: Product)
    requires WellFormed(p)
    ensures WellFormed(q)
  {
    if Changes(p, o) then p[CurrentPrice := Num(o.amount)] else p
  }

  /** The check touches only the stored price: a product whose page or price
      was not found keeps it, a found price is stored (numerically), and the
      product changes exactly when its price differs from the one found. */
  lemma UpdatedTouchesOnlyPrice(p: Product, o: Scrape)
    requires WellFormed(p)
    ensures forall f :: f in p && f != CurrentPrice ==> Updated(p, o)[f] == p[f]
    ensures !o.Found? ==> Updated(p, o) == p
    ensures o.Found? && CrashAt(p, o).None? ==> StoredPrice(Updated(p, o)[CurrentPrice]) == Some(o.amount)
    ensures Updated(p, o) != p <==> Changes(p, o)
  {
  }

  /** The line for a page that could not be fetched. */
  function FetchFailureLine(url: string, name: string): string {
    "Failed to get page " + url + " for " + name + "\n"
  }

  /** The text for a page without a price element; it has no line end. */
  function NoInfoLine(name: string): string {
    "Could not get product info for " + name + "."
  }

  /** The summary of a product whose price was found, changed or not. */
  function SummaryLine(name: string, currency: string, amountText: string, oldText: string): string {
    name + " costs " + currency + amountText + ". Old Price: " + currency + oldText + "\n\n"
  }

  /** The part of the message body written for one product. */
  function Segment(p: Product, o: Scrape, showFloat: real -> string): string
    requires WellFormed(p)
  {
    var name := ShowValue(p[Name], showFloat);
    match o
    case FetchFailed => FetchFailureLine(ShowValue(p[Url], showFloat), name)
    case NoPriceElement => NoInfoLine(name)
    case ErrorStatus | NoAmount => ""  // the run stops at such a product, so nothing is written for it
    case Found(_, amountText, currency) =>
      SummaryLine(name, currency, amountText, ShowValue(p[CurrentPrice], showFloat))
  }

  /** Strings joined in order. */
  function Concat(ss: seq<string>): string {
    if ss == [] then "" else ss[0] + Concat(ss[1..])
  }

  /** The segments of the products, in catalog order. */
  function Segments(ps: seq<Product>, os: seq<Scrape>, showFloat: real -> string): (ss: seq<string>)
    requires |ps| == |os| && AllWellFormed(ps)
    ensures |ss| == |ps|
    ensures forall i :: 0 <= i < |ps| ==> ss[i] == Segment(ps[i], os[i], showFloat)
  {
    seq(|ps|, i requires 0 <= i < |ps| => Segment(ps[i], os[i], showFloat))
  }

  /** The message body: one segment per product, in catalog order. */
  function Body(ps: seq<Product>, os: seq<Scrape>, showFloat: real -> string): string
    requires |ps| == |os| && AllWellFormed(ps)
  {
    Concat(Segments(ps, os, showFloat))
  }

  /** The position and exception of the first product at which the run stops. */
  function FirstCrash(ps: seq<Product>, os: seq<Scrape>): (r: Option<(nat, Error)>)
    requires |ps| == |os| && AllWellFormed(ps)
    ensures r.None? <==> forall j :: 0 <= j < |ps| ==> CrashAt(ps[j], os[j]).None?
    ensures r.Some? ==>
      && r.value.0 < |ps|
      && CrashAt(ps[r.value.0], os[r.value.0]) == Some(r.value.1)
      && forall j :: 0 <= j < r.value.0 ==> CrashAt(ps[j], os[j]).None?
  {
    if ps == [] then None
    else match CrashAt(ps[0], os[0])
      case Some(e) => Some((0, e))
      case None =>
        match FirstCrash(ps[1..], os[1..])
        case None => None
        case Some((j, e)) => Some((j + 1, e))
  }

  /** The catalog written back after a check that did not stop. */
  function Checked(ps: seq<Product>, os: seq<Scrape>): (r: seq<Product>)
    requires |ps| == |os| && AllWellFormed(ps)
    ensures |r| == |ps| && AllWellFormed(r)
  {
    seq(|ps|, i requires 0 <= i < |ps| => Updated(ps[i], os[i]))
  }

  /** The catalog written back keeps its length and order and every field
      but the stored prices; failed products keep their price, and found
      prices are stored. */
  lemma CheckedTouchesOnlyPrices(ps: seq<Product>, os: seq<Scrape>)
    requires |ps| == |os| && AllWellFormed(ps)
    ensures forall i, f :: 0 <= i < |ps| && f in ps[i] && f != CurrentPrice ==> Checked(ps, os)[i][f] == ps[i][f]
    ensures forall i :: 0 <= i < |ps| && !os[i].Found? ==> Checked(ps, os)[i] == ps[i]
    ensures forall i :: 0 <= i < |ps| && os[i].Found? && CrashAt(ps[i], os[i]).None? ==>
      StoredPrice(Checked(ps, os)[i][CurrentPrice]) == Some(os[i].amount)
  {
  }

  /** The `price_changed` flag at the end of the loop. */
  predicate PriceChanged(ps: seq<Product>, os: seq<Scrape>)
    requires |ps| == |os| && AllWellFormed(ps)
  {
    exists i :: 0 <= i < |ps| && Changes(ps[i], os[i])
  }

  /** What a check leaves behind: the catalog written back, and the text
      message sent, if one is. */
  datatype Report = Report(products: seq<Product>, message: Option<string>)

  /** The whole check. A run that stops raises before the catalog is
      written and before any message is sent. */
  function Run(ps: seq<Product>, os: seq<Scrape>, force: bool, showFloat: real -> string): (r: Result<Report, Error>)
    requires |ps| == |os| && AllWellFormed(ps)
    ensures r.Failure? <==> exists i :: 0 <= i < |ps| && CrashAt(ps[i], os[i]).Some?
  {
    match FirstCrash(ps, os)
    case Some((_, e)) => Failure(e)
    case None =>
      var message := if force || PriceChanged(ps, os) then Some(Body(ps, os, showFloat)) else None;
      Success(Report(Checked(ps, os), message))
  }

  /** The state of the check after its first i products: none of them
      stopped it, each has been updated, and the rest are as read. */
  ghost predicate CheckedUpTo(data: seq<Product>, ps: seq<Product>, os: seq<Scrape>, i: nat)
    requires |ps| == |os| && AllWellFormed(ps)
  {
    && i <= |ps| && |data| == |ps|
    && (forall j :: 0 <= j < i ==> CrashAt(ps[j], os[j]).None? && data[j] == Updated(ps[j], os[j]))
    && (forall j :: i <= j < |ps| ==> data[j] == ps[j])
  }

  lemma CheckedStep(data: seq<Product>, ps: seq<Product>, os: seq<Scrape>, i: nat)
    requires |ps| == |os| && AllWellFormed(ps)
    requires CheckedUpTo(data, ps, os, i) && i < |ps| && CrashAt(ps[i], os[i]).None?
    ensures CheckedUpTo(data[i := Updated(ps[i], os[i])], ps, os, i + 1)
  {
  }

  /** A check that got through every product writes back the updated
      catalog and sends the whole body exactly when forced or changed. */
  lemma RunCompletes(data: seq<Product>, ps: seq<Product>, os: seq<Scrape>, changed: bool, force: bool, showFloat: real -> string)
    requires |ps| == |os| && AllWellFormed(ps)
    requires CheckedUpTo(data, ps, os, |ps|)
    requires changed <==> exists j :: 0 <= j < |ps| && Changes(ps[j], os[j])
    ensures AllWellFormed(data)
    ensures Run(ps, os, force, showFloat)
         == Success(Report(data, if force || changed then Some(Body(ps, os, showFloat)) else None))
  {
    assert FirstCrash(ps, os).None?;
    assert data == Checked(ps, os);
  }

  /** A check stops at the first product whose price cannot be converted,
      with that product's exception, whatever follows it. */
  lemma RunStopsAtFirstCrash(ps: seq<Product>, os: seq<Scrape>, i: nat, force: bool, showFloat: real -> string)
    requires |ps| == |os| && AllWellFormed(ps) && i < |ps|
    requires forall j :: 0 <= j < i ==> CrashAt(ps[j], os[j]).None?
    requires CrashAt(ps[i], os[i]).Some?
    ensures Run(ps, os, force, showFloat) == Failure(CrashAt(ps[i], os[i]).value)
  {
  }

  /** A page that comes back with an error status ends the run wherever it
      occurs: nothing is written back and no text is sent. */
  lemma ErrorStatusAbortsRun(ps: seq<Product>, os: seq<Scrape>, i: nat, force: bool, showFloat: real -> string)
    requires |ps| == |os| && AllWellFormed(ps) && i < |ps| && os[i] == ErrorStatus
    ensures Run(ps, os, force, showFloat).Failure?
  {
  }

  /** The body grows by one segment per product processed. */
  lemma {:induction false} ConcatAppend(ss: seq<string>, s: string)
    ensures Concat(ss + [s]) == Concat(ss) + s
  {
    if ss == [] {
      assert [] + [s] == [s];
      assert Concat([s]) == s + Concat([]);
      assert s + "" == "" + s;
    } else {
      assert (ss + [s])[1..] == ss[1..] + [s];
      ConcatAppend(ss[1..], s);
      calc {
        Concat(ss + [s]);
        ss[0] + Concat(ss[1..] + [s]);
        ss[0] + (Concat(ss[1..]) + s);
        (ss[0] + Concat(ss[1..])) + s;
      }
    }
  }

  /** Processing product i appends its segment to the body of the first i. */
  lemma BodyStep(ps: seq<Product>, os: seq<Scrape>, i: nat, showFloat: real -> string)
    requires |ps| == |os| && AllWellFormed(ps) && i < |ps|
    ensures Body(ps[..i + 1], os[..i + 1], showFloat) == Body(ps[..i], os[..i], showFloat) + Segment(ps[i], os[i], showFloat)
  {
    var before := Segments(ps[..i], os[..i], showFloat);
    var after := Segments(ps[..i + 1], os[..i + 1], showFloat);
    assert after == before + [Segment(ps[i], os[i], showFloat)];
    ConcatAppend(before, Segment(ps[i], os[i], showFloat));
  }

  /** A check that completes sends a message exactly when it is forced or
      when some price changed, and the price changed exactly when the catalog
      written back differs from the one read. */
  lemma NotifyExactlyWhenForcedOrChanged(ps: seq<Product>, os: seq<Scrape>, force: bool, showFloat: real -> string)
    requires |ps| == |os| && AllWellFormed(ps)
    requires Run(ps, os, force, showFloat).Success?
    ensures Run(ps, os, force, showFloat).value.message.Some? <==> force || PriceChanged(ps, os)
    ensures Run(ps, os, force, showFloat).value.message.Some? ==>
      Run(ps, os, force, showFloat).value.message.value == Body(ps, os, showFloat)
    ensures PriceChanged(ps, os) <==> Run(ps, os, force, showFloat).value.products != ps
  {
  }

  /** An unforced check in which every price found equals the stored one
      leaves the catalog as it was and sends nothing. */
  lemma NoChangeNoMessage(ps: seq<Product>, os: seq<Scrape>, showFloat: real -> string)
    requires |ps| == |os| && AllWellFormed(ps)
    requires forall i :: 0 <= i < |ps| ==> CrashAt(ps[i], os[i]).None? && !Changes(ps[i], os[i])
    ensures Run(ps, os, false, showFloat) == Success(Report(ps, None))
  {
    NotifyExactlyWhenForcedOrChanged(ps, os, false, showFloat);
  }

  /** Checking again with the same prices changes nothing: the stored prices
      already equal the prices found, so an unforced second run is silent. */
  lemma SecondRunIsQuiet(ps: seq<Product>, os: seq<Scrape>, force: bool, showFloat: real -> string)
    requires |ps| == |os| && AllWellFormed(ps)
    requires Run(ps, os, force, showFloat).Success?
    ensures var after := Run(ps, os, force, showFloat).value.products;
      Run(after, os, false, showFloat) == Success(Report(after, None))
  {
    var after := Checked(ps, os);
    forall i | 0 <= i < |ps|
      ensures CrashAt(after[i], os[i]).None? && !Changes(after[i], os[i])
    {
      assert CrashAt(ps[i], os[i]).None?;
      UpdatedTouchesOnlyPrice(ps[i], os[i]);
    }
    NoChangeNoMessage(after, os, showFloat);
  }

  /** A forced check that completes always sends exactly one message, the
      whole body. */
  lemma ForcedRunSends(ps: seq<Product>, os: seq<Scrape>, showFloat: real -> string)
    requires |ps| == |os| && AllWellFormed(ps)
    requires forall i :: 0 <= i < |ps| ==> CrashAt(ps[i], os[i]).None?
    ensures Run(ps, os, true, showFloat).Success?
    ensures Run(ps, os, true, showFloat).value.message == Some(Body(ps, os, showFloat))
  {
  }

  /** The body of a one-product catalog is that product's segment. */
  lemma SingleProductBody(p: Product, o: Scrape, showFloat: real -> string)
    requires WellFormed(p)
    ensures Body([p], [o], showFloat) == Segment(p, o, showFloat)
  {
    var s := Segment(p, o, showFloat);
    assert Segments([p], [o], showFloat) == [s];
    assert Concat([s]) == s + Concat([]);
  }

  /** One product stored at 10.00 whose page now shows 9.99: the stored
      price becomes 9.99 and the single message reports both prices. */
  lemma PriceDropScenario(p: Product, showFloat: real -> string)
    requires WellFormed(p) && p[CurrentPrice] == Num(10.0)
    ensures var os := [Found(9.99, "9.99", "$")];
      Run([p], os, false, showFloat) == Success(Report(
        [p[CurrentPrice := Num(9.99)]],
        Some(ShowValue(p[Name], showFloat) + " costs $9.99. Old Price: $" + showFloat(10.0) + "\n\n")))
  {
    var o := Found(9.99, "9.99", "$");
    var name := ShowValue(p[Name], showFloat);
    assert Changes([p][0], [o][0]);
    assert PriceChanged([p], [o]);
    assert FirstCrash([p], [o]).None?;
    assert Checked([p], [o]) == [p[CurrentPrice := Num(9.99)]];
    SingleProductBody(p, o, showFloat);
    assert Segment(p, o, showFloat) == SummaryLine(name, "$", "9.99", showFloat(10.0));
    var oldText := showFloat(10.0);
    assert SummaryLine(name, "$", "9.99", oldText) == name + " costs $9.99. Old Price: $" + oldText + "\n\n" by {
      assert " costs " + "$" + "9.99" + ". Old Price: " + "$" == " costs $9.99. Old Price: $";
    }
  }

  /** After `edit` stores a typed price such as `12.50` in `current_price`,
      the next check of that product neither crashes on it nor misreads it:
      it raises only for an error status or a missing amount, and the price
      counts as changed exactly when the amount found differs from the
      typed number. */
  lemma EditedPriceIsRead(ps: seq<Product>, i: int, w: nat, f: string, o: Scrape)
    requires AllWellFormed(ps) && AllDigits(f) && NormalizeIndex(i, |ps|).Some?
    ensures var r := Edited(ps, i, CurrentPrice, NatText(w) + "." + f);
      var k := NormalizeIndex(i, |ps|).value;
      var typed := w as real + FractionValue(f);
      && r.Success?
      && StoredPrice(r.value.0[k][CurrentPrice]) == Some(typed)
      && CrashAt(r.value.0[k], o) == (if o.ErrorStatus? then Some(HTTPError) else if o.NoAmount? then Some(TypeError) else None)
      && (Changes(r.value.0[k], o) <==> o.Found? && o.amount != typed)
  {
    TypedPriceIsRead(w, f);
  }
}
