# Artisan pad stock monitor, in Dafny

A model of the stock monitor for Artisan mouse pads (`main.py`). Each hourly
cycle of `run` loads the stored availability snapshot, walks the configured
catalog of pad variants `(sir, size, color)`, fetches each variant from the
retailer, and compares the answer with the stored record under the key
`sir|size|color`. A key seen for the first time is stored and announced with
a Discord webhook; a stored key whose `inStock` flag changed is replaced and
announced; anything else is left alone. The snapshot is written back once,
at the end of the cycle.

The project has one Dafny module per concern:

- `Wrappers` (`wrappers.dfy`): the `Option` type used for every Python exception path.
- `PyStr` (`pystr.dfy`): Python's `str.split` with a one-character separator, and its inverse `Join`.
- `Decimal` (`decimal.dfy`): f-string formatting of an integer, and Python's `int(str)` for ASCII input.
- `Pads` (`pads.dfy`): the `PadInfo` record, `is_available`, `get_key` and `conv_key`.
- `Fetcher` (`fetcher.dfy`): `fetch`. The HTTP answer is an input, and the parsing of the body is modelled.
- `Webhook` (`webhook.dfy`): `size_to_str` and the embed that `send_webhook` builds.
- `Monitor` (`monitor.dfy`): `add_to_avail` on an `Availability` object, `run` as a loop over the fetch outcomes, and the cycle lemmas.
- `Scenarios` (`scenarios.dfy`): the one-variant catalog `(10, 1, 5)` over three cycles, and a crash.

`run` is specified by `Cycle`, a left fold of `Step` over the fetch outcomes
in catalog order. `Run` is the imperative loop over an `Availability` object,
and its postcondition ties the saved snapshot and the notifications to
`Cycle`. A `Fetched` outcome carries a parsed record. A `ConnectionFailed`
outcome is the `ConnectionError` that `run` catches. A `Raised` outcome is any
other exception from `fetch`, which `run` does not catch. Such an exception,
or an `IndexError` from `size_to_str` while the webhook is built, ends the
cycle before `save_avail`. `Run` then returns `None` for the saved snapshot,
but the webhooks already sent stay in `notified`. `__main__` has no handler
around `run`, so the exception also ends the process: the stored snapshot is
used again only when something outside the program restarts it.

Where the code and its description differ, the model follows the code:

- The body is read by position. Fields after the sixth are ignored, not rejected (`Fetcher.ExtraFieldsIgnored`).
- The record's `size`, and so its key, is field 4 of the answer. It is not the size in the request.
- `size_to_str` indexes a Python list with `size - 1`. Sizes 0 down to -4 wrap to the end of the list, and only other sizes raise.
- A non-200 status raises the built-in `ConnectionError`, which is the only exception `run` catches. Price-feed and parse failures are not caught, so they end the whole cycle and the process, not only the variant.

## Model

| member | source | states |
|---|---|---|
| PyStr.Split | main.py:71 | `str.split` gives at least one piece, no piece holds the separator, and joining the pieces with it rebuilds the text |
| PyStr.SplitNoSep | main.py:71 | text without the separator splits into itself alone |
| PyStr.SplitConcat | main.py:71 | splitting `a + sep + b` gives the pieces of `a` followed by the pieces of `b` |
| PyStr.SplitJoin | main.py:71 | splitting the join of separator-free pieces gives the pieces back |
| PyStr.SplitFirst | main.py:109 | the first piece is a separator-free prefix of the text, followed by the separator when shorter than the text |
| Decimal.NatToStringDigits | main.py:92 | a natural number is written as a non-empty run of ASCII digits without a leading zero |
| Decimal.IntToStringShape | main.py:92 | an integer's text is non-empty, all digits after an optional leading `-`, and starts with `-` exactly for negatives |
| Decimal.NatToStringValue | main.py:92 | the digits written for `n` read back as `n` |
| Decimal.ParseInt | main.py:97 | `int()` reads a non-empty run of ASCII digits as its decimal value and rejects text with no digit (the 4300-digit limit is not modelled) |
| Decimal.ParseIntToString | main.py:92-97 | `int()` of an integer's f-string text gives the integer back (for integers below the 4300-digit limit, which the model does not impose) |
| Decimal.SeparatorControlNotStripped | main.py:77 | `int()` strips only space, tab, line feed, carriage return, vertical tab and form feed, so a leading file-separator character is rejected |
| Pads.IsAvailable | main.py:87-88 | a variant is out of stock exactly when the product id is `NON` |
| Pads.ConvKey | main.py:95-97 | `conv_key` succeeds only on keys that split into exactly three pieces |
| Pads.NoSeparatorInNumber | main.py:92 | no formatted integer contains the key separator |
| Pads.KeyRoundTrip | main.py:91-97 | `conv_key(get_key(info))` is `(sir, size, color)` for every record |
| Pads.SameKeyIffSameVariant | main.py:91-92 | two records share a key exactly when they agree on sir, size and color |
| Fetcher.ParseBody | main.py:71-82 | the body yields a record exactly when it has six fields, the price converts and the size is an integer; sir and color echo the request and `inStock` follows the id |
| Fetcher.Fetch | main.py:64-82 | a non-200 status gives `ConnectionError`; on 200 the outcome is the record `ParseBody` builds from the body, or an exception exactly when that parse fails; a fetched record echoes sir and color and has a consistent flag |
| Fetcher.ParseRenderedBody | main.py:71-82 | parsing the retailer's `/`-joined rendering of a record gives the record back |
| Fetcher.ExtraFieldsIgnored | main.py:71-78 | fields after the sixth never change the parsed record |
| Webhook.PyIndex | main.py:101 | Python list indexing succeeds exactly for `-len <= i < len` and then picks element `i mod len` |
| Webhook.SizeToStr | main.py:100-101 | `size_to_str` gives one of the five size names exactly for sizes -4..5 and raises otherwise |
| Webhook.SizeNamesTable | main.py:100-101 | sizes 1..5 map to Small, Medium, Large, XLarge, XXLarge; 0 wraps to XXLarge and 6 raises |
| Webhook.SizeNamesDistinct | main.py:100-101 | different sizes in 1..5 get different names |
| Webhook.Title | main.py:109 | the title is the longest space-free prefix of the long name |
| Webhook.Format | main.py:104-120 | the embed exists exactly when the size has a name; it carries the title, size name, price and hardness, and its colour is 1041978 exactly when in stock, else 15615248 |
| Monitor.Availability.constructor | main.py:140 | the dict starts as the stored snapshot |
| Monitor.Availability.Add | main.py:130-131 | `add_to_avail` stores the record under its key and leaves every other key as it was |
| Monitor.Run | main.py:139-155 | `run` saves the snapshot of `Cycle` exactly when no exception escapes, and sends the notifications of `Cycle` in order |
| Monitor.CrashIsFinal | main.py:139-155 | after an uncaught exception the rest of the catalog changes nothing |
| Monitor.NewKeyNotifiedOnce | main.py:148-150 | a new key is inserted and notified exactly once |
| Monitor.FlagChangeNotifiedOnce | main.py:151-154 | a stored key whose flag flipped is replaced and notified exactly once |
| Monitor.SameFlagIgnored | main.py:151-154 | a stored key with the same flag changes nothing and notifies nothing |
| Monitor.FailedFetchSkipped | main.py:142-147 | a `ConnectionError` leaves the cycle where it was |
| Monitor.RaisedEndsCycle | main.py:142-144 | any other exception from `fetch` ends the cycle with nothing saved |
| Monitor.UnnamedSizeEndsCycle | main.py:148-154 | a record to notify whose size has no name is stored in memory, is not notified, and ends the cycle |
| Monitor.StepFrame | main.py:148-154 | one step never removes a key and changes at most the fetched record's key |
| Monitor.CycleFrame | main.py:139-155 | a cycle never removes keys, adds only fetched keys, and keeps the record of every key nothing fetched maps to |
| Monitor.NotifiedAreFetched | main.py:141-154 | every notification is a fetched record, and there are no more notifications than fetched records |
| Monitor.CompletedCycleSettles | main.py:139-155 | when fetched records that share a key agree on `inStock`, a completed cycle met no uncaught exception and leaves each fetched key stored with its fetched flag |
| Monitor.SettledCycleIsQuiet | main.py:141-155 | on a snapshot that already holds each fetched flag, a cycle without exceptions notifies nothing and changes nothing |
| Monitor.RepeatedCycleIsQuiet | main.py:139-161 | when fetched records that share a key agree on `inStock`, re-running a completed cycle on the same answers notifies nothing and saves the same snapshot |
| Monitor.FirstCycleNotifiesEach | main.py:141-150 | when no fetched key is stored yet, fetched keys are distinct, no fetch raises and every fetched size has a name, every fetched record is notified once in catalog order and stored under its key |
| Scenarios.ExampleFetch | main.py:64-82 | the answer `A1/Pad/Pad Soft S/3000/1/Soft` for `(10, 1, 5)` is fetched as the example record |
| Scenarios.ExampleKey | main.py:91-92 | the example record's key is the text `10`, `1`, `5` joined by the key separator |
| Scenarios.ExampleTitle | main.py:109 | the title of `Pad Soft S` is `Pad` |
| Scenarios.ExampleEmbed | main.py:104-120 | the example's embed has title `Pad`, size `Small`, and the colour of its stock flag |
| Scenarios.OneEntryCycle | main.py:148-154 | a one-variant cycle that must notify stores and notifies that record |
| Scenarios.OneEntryQuietCycle | main.py:151-152 | a one-variant cycle with an unchanged flag changes nothing |
| Scenarios.FirstCycle | main.py:139-155 | on an empty snapshot the in-stock pad is stored under its key and notified |
| Scenarios.SecondCycle | main.py:139-155 | the answer `NON` replaces the stored pad and is notified once |
| Scenarios.ThirdCycle | main.py:139-155 | the answer `NON` again notifies nothing and changes nothing |
| Scenarios.CrashedCycleRenotifies | main.py:139-161 | after an exception that follows a notification nothing is saved, so the first cycle after an external restart sends the same notification again |

## Left out

- HTTP: the POST to the retailer is an input `Response` (status and body), and `requests`' own transport errors are one of the `Raised` outcomes. `requests.exceptions.ConnectionError` is not the built-in `ConnectionError`, so `run` does not catch it.
- Fetcher.ParseBody: `int(float(price))`, the JPY to EUR feed and `round(..., 2)` are the parameter `convertPrice`, and the price is an uninterpreted `real`. Floating point and the network call are not modelled.
- Decimal.ParseInt: does not model Python's limit on integer text (4300 digits by default, `sys.get_int_max_str_digits`), above which `int()` raises; it reads digit runs of any length.
- Decimal.ParseIntToString: holds for every integer, while Python's `str()` and f-strings raise on integers of more than 4300 digits; `IntToString`, and so `GetKey`, is total in the model.
- Decimal.ParseInt: `int()` is modelled for ASCII only. Underscore separators and non-ASCII digits and spaces, which Python also accepts, are not modelled, and no key or body produced here contains them.
- Webhook.Format: the `€`-suffixed price text, the `content`/`attachments` fields and the Berlin timestamp are not modelled. The clock is outside the model.
- The webhook POST in `send_webhook` is assumed to succeed. A failed POST that raised would end the cycle like any other uncaught exception.
- `get_avail` and `save_avail` (JSON file I/O): the stored snapshot is `Run`'s input, and the saved snapshot is its `saved` output.
- The hourly scheduler in `__main__`, the `.env` webhook check at import time, and logging are left out. Across cycles they are modelled only as one cycle's saved snapshot feeding the next.
- Process exit: `__main__` calls `run` in `while True` without a handler, so an exception that escapes `run` ends the process. The model stops at the crashed cycle; any later cycle assumes an external restart from the stored snapshot.
- `conv_key` is never called by `run`. It is modelled for the key round trip only.
- The catalog in `config.py` is not part of this model. `Run` takes the fetch outcomes of whatever catalog is configured, in order.
