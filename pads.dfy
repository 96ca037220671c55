/**
 * The product record (`PadInfo`), its availability flag and the composite
 * key `sir|size|color` under which the snapshot stores it.
 */
module Pads {
  import opened Wrappers
  import opened PyStr
  import opened Decimal

  /**
   * One retailer answer for one pad variant. `price` is the converted price,
   * carried as an uninterpreted number; `sir` and `color` come from the
   * request, every other field from the response.
   */
  datatype PadInfo = PadInfo(
    id: string,
    short: string,
    long: string,
    price: real,
    size: int,
    hardness: string,
    inStock: bool,
    sir: int,
    color: int)

  /** The product id the retailer returns for a variant it does not have. */
  const OutOfStockId: string := "NON"

  const KeySeparator: char := '|'

  /** `is_available`: every id except the sentinel means the variant is in stock. */
  function IsAvailable(id: string): (r: bool)
    ensures !r <==> id == OutOfStockId
  {
    id != OutOfStockId
  }

  /** `get_key`: the decimal texts of `sir`, `size` and `color`, separated by `|`. */
  function GetKey(info: PadInfo): string
  {
    IntToString(info.sir) + [KeySeparator] + IntToString(info.size) + [KeySeparator] + IntToString(info.color)
  }

  /**
   * `conv_key`: split on `|`, which must give exactly three pieces (tuple
   * unpacking raises otherwise), and read each piece with `int`.
   */
  function ConvKey(key: string): (r: Option<(int, int, int)>)
    ensures r.Some? ==> |Split(key, KeySeparator)| == 3
  {
    var parts := Split(key, KeySeparator);
    if |parts| != 3 then None
    else
      match (ParseInt(parts[0]), ParseInt(parts[1]), ParseInt(parts[2]))
      case (Some(sir), Some(size), Some(color)) => Some((sir, size, color))
      case _ => None
  }

  lemma NoSeparatorInNumber(n: int)
    ensures KeySeparator !in IntToString(n)
  {
    IntToStringShape(n);
  }

  /** Parsing a record's key gives back its `(sir, size, color)` exactly. */
  lemma {:induction false} KeyRoundTrip(info: PadInfo)
    ensures ConvKey(GetKey(info)) == Some((info.sir, info.size, info.color))
  {
    var parts := [IntToString(info.sir), IntToString(info.size), IntToString(info.color)];
    NoSeparatorInNumber(info.sir);
    NoSeparatorInNumber(info.size);
    NoSeparatorInNumber(info.color);
    var sir, size, color := parts[0], parts[1], parts[2];
    assert parts[1..][1..] == [color];
    assert Join(parts[1..], KeySeparator) == size + [KeySeparator] + color;
    assert GetKey(info) == sir + [KeySeparator] + (size + [KeySeparator] + color);
    SplitJoin(parts, KeySeparator);
    ParseIntToString(info.sir);
    ParseIntToString(info.size);
    ParseIntToString(info.color);
  }

  /**
   * Two records share a snapshot key exactly when they agree on `sir`,
   * `size` and `color`; the other fields never affect the key.
   */
  lemma {:induction false} SameKeyIffSameVariant(a: PadInfo, b: PadInfo)
    ensures GetKey(a) == GetKey(b) <==> (a.sir, a.size, a.color) == (b.sir, b.size, b.color)
  {
    KeyRoundTrip(a);
    KeyRoundTrip(b);
  }
}
