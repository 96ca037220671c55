/**
 * `fetch`: one request per catalog variant and the parsing of the
 * retailer's `/`-separated plain-text answer into a `PadInfo`.
 *
 * The HTTP exchange itself is an input (`Response`), and so is the price
 * conversion of field 3 (`int(float(...))` followed by the currency feed and
 * rounding): `convertPrice` returns `None` where that code raises.
 */
module Fetcher {
  import opened Wrappers
  import opened PyStr
  import opened Decimal
  import opened Pads

  /** One entry of the configured catalog: `(sir, size, color)`. */
  datatype Variant = Variant(sir: int, size: int, color: int)

  /** What the retailer answered: an HTTP status and the body text. */
  datatype Response = Response(status: int, text: string)

  /**
   * How one call of `fetch` ends: with a record, with the `ConnectionError`
   * that `run` catches, or with any other exception (`Raised`), which `run`
   * does not catch.
   */
  datatype FetchOutcome = Fetched(info: PadInfo) | ConnectionFailed | Raised

  const StatusOk: int := 200
  const FieldSeparator: char := '/'
  /** Number of positional fields the body must have. */
  const FieldCount: nat := 6

  /**
   * The body of `fetch` after the status check: split on `/`, read fields
   * 0..5 (extra fields are ignored), take `sir` and `color` from the request
   * and derive `inStock` from field 0. Fewer than six fields (`IndexError`),
   * a price the conversion rejects or a size that is not an integer
   * (`ValueError`) give `None`.
   */
  function ParseBody(text: string, sir: int, color: int, convertPrice: string -> Option<real>): (r: Option<PadInfo>)
    ensures var fields := Split(text, FieldSeparator);
      r.Some? <==> |fields| >= FieldCount && convertPrice(fields[3]).Some? && ParseInt(fields[4]).Some?
    ensures r.Some? ==> r.value.sir == sir && r.value.color == color
    ensures r.Some? ==> r.value.inStock == IsAvailable(r.value.id)
  {
    var attrs := Split(text, FieldSeparator);
    if |attrs| < FieldCount then None
    else
      match (convertPrice(attrs[3]), ParseInt(attrs[4]))
      case (Some(price), Some(size)) =>
        Some(PadInfo(attrs[0], attrs[1], attrs[2], price, size, attrs[5], IsAvailable(attrs[0]), sir, color))
      case _ => None
  }

  /**
   * `fetch(client, sir, size, color)`: a status other than 200 raises
   * `ConnectionError`; otherwise the body is parsed. The requested size only
   * travels in the request: the record's size is the one the body reports.
   */
  function Fetch(v: Variant, response: Response, convertPrice: string -> Option<real>): (r: FetchOutcome)
    ensures r == ConnectionFailed <==> response.status != StatusOk
    ensures r.Fetched? ==> r.info.sir == v.sir && r.info.color == v.color
    ensures r.Fetched? ==> r.info.inStock == IsAvailable(r.info.id)
    ensures r.Raised? <==> response.status == StatusOk && ParseBody(response.text, v.sir, v.color, convertPrice).None?
    ensures r.Fetched? <==> response.status == StatusOk && ParseBody(response.text, v.sir, v.color, convertPrice).Some?
    ensures r.Fetched? ==> Some(r.info) == ParseBody(response.text, v.sir, v.color, convertPrice)
  {
    if response.status != StatusOk then ConnectionFailed
    else
      match ParseBody(response.text, v.sir, v.color, convertPrice)
      case Some(info) => Fetched(info)
      case None => Raised
  }

  /** The body the retailer sends for `info`, with `priceText` in the price field. */
  function RenderBody(info: PadInfo, priceText: string): string
  {
    Join([info.id, info.short, info.long, priceText, IntToString(info.size), info.hardness], FieldSeparator)
  }

  /**
   * Parsing the retailer's rendering of a record gives the record back, as
   * long as no text field contains `/`, the price text converts to the
   * record's price and the record's flag agrees with its id.
   */
  lemma {:induction false} ParseRenderedBody(info: PadInfo, priceText: string, convertPrice: string -> Option<real>)
    requires FieldSeparator !in info.id && FieldSeparator !in info.short && FieldSeparator !in info.long
    requires FieldSeparator !in priceText && FieldSeparator !in info.hardness
    requires convertPrice(priceText) == Some(info.price)
    requires info.inStock == IsAvailable(info.id)
    ensures ParseBody(RenderBody(info, priceText), info.sir, info.color, convertPrice) == Some(info)
  {
    var fields := [info.id, info.short, info.long, priceText, IntToString(info.size), info.hardness];
    assert FieldSeparator !in IntToString(info.size) by {
      IntToStringShape(info.size);
    }
    SplitJoin(fields, FieldSeparator);
    ParseIntToString(info.size);
  }

  /** Fields after the sixth never change the parsed record. */
  lemma {:induction false} ExtraFieldsIgnored(text: string, extra: string, sir: int, color: int, convertPrice: string -> Option<real>)
    requires |Split(text, FieldSeparator)| >= FieldCount
    ensures ParseBody(text + [FieldSeparator] + extra, sir, color, convertPrice) == ParseBody(text, sir, color, convertPrice)
  {
    SplitConcat(text, FieldSeparator, extra);
  }
}
