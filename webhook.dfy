/**
 * The deterministic part of `send_webhook`: the embed's title, colour and
 * field values, and `size_to_str`. The timestamp and the POST itself are
 * not modelled.
 */
module Webhook {
  import opened Wrappers
  import opened PyStr
  import opened Pads

  /** Embed colour (as an RGB integer) of an in-stock record. */
  const InStockColor: int := 1041978
  /** Embed colour of an out-of-stock record. */
  const OutOfStockColor: int := 15615248

  const SizeNames: seq<string> := ["Small", "Medium", "Large", "XLarge", "XXLarge"]

  /** The embed of the notification; `price` is shown with a euro sign. */
  datatype Embed = Embed(title: string, color: int, price: real, sizeName: string, hardness: string)

  /**
   * Python's `xs[i]` on a list: a negative index counts from the end, and an
   * index outside `-|xs| .. |xs| - 1` raises `IndexError` (`None`).
   */
  function PyIndex<T>(xs: seq<T>, i: int): (r: Option<T>)
    ensures r.Some? <==> -|xs| <= i < |xs|
    ensures r.Some? ==> r.value == xs[i % |xs|]
  {
    if 0 <= i < |xs| then Some(xs[i])
    else if -|xs| <= i < 0 then Some(xs[|xs| + i])
    else None
  }

  /**
   * `size_to_str`: the list of size names indexed by `size - 1`. Sizes 1..5
   * name themselves; 0 down to -4 wrap around to the end of the list; any
   * other size raises.
   */
  function SizeToStr(size: int): (r: Option<string>)
    ensures r.Some? <==> -4 <= size <= 5
    ensures r.Some? ==> r.value in SizeNames
  {
    PyIndex(SizeNames, size - 1)
  }

  /** The documented table for sizes 1..5, and where it stops. */
  lemma SizeNamesTable()
    ensures SizeToStr(1) == Some("Small") && SizeToStr(2) == Some("Medium") && SizeToStr(3) == Some("Large")
    ensures SizeToStr(4) == Some("XLarge") && SizeToStr(5) == Some("XXLarge")
    ensures SizeToStr(0) == Some("XXLarge") && SizeToStr(6) == None
  {
  }

  /** Distinct sizes in 1..5 get distinct names. */
  lemma SizeNamesDistinct(a: int, b: int)
    requires 1 <= a <= 5 && 1 <= b <= 5
    requires SizeToStr(a) == SizeToStr(b)
    ensures a == b
  {
  }

  /**
   * `long.split(" ")[0]`: the longest prefix of the long name without a
   * space; it is all of the name or is followed by a space.
   */
  function Title(long: string): (t: string)
    ensures t <= long && ' ' !in t
    ensures |t| < |long| ==> long[|t|] == ' '
  {
    SplitFirst(long, ' ');
    Split(long, ' ')[0]
  }

  /**
   * The embed `send_webhook` builds for `info`, or `None` where
   * `size_to_str` raises. The colour tells in-stock from out-of-stock.
   */
  function Format(info: PadInfo): (r: Option<Embed>)
    ensures r.Some? <==> SizeToStr(info.size).Some?
    ensures r.Some? ==> r.value.title == Title(info.long) && r.value.sizeName == SizeToStr(info.size).value
    ensures r.Some? ==> (r.value.color == InStockColor <==> info.inStock)
    ensures r.Some? ==> r.value.color == InStockColor || r.value.color == OutOfStockColor
    ensures r.Some? ==> r.value.price == info.price && r.value.hardness == info.hardness
  {
    match SizeToStr(info.size)
    case None => None
    case Some(sizeName) =>
      Some(Embed(
        Title(info.long),
        if info.inStock then InStockColor else OutOfStockColor,
        info.price,
        sizeName,
        info.hardness))
  }
}
