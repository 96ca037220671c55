/**
 * A worked example of three cycles over a one-entry catalog `(10, 1, 5)`:
 * first sight of an in-stock pad, the pad going out of stock, and the same
 * answer again.
 */
module Scenarios {
  import opened Wrappers
  import opened PyStr
  import opened Decimal
  import opened Pads
  import opened Fetcher
  import opened Webhook
  import opened Monitor

  function Pad(id: string, price: real): PadInfo
  {
    PadInfo(id, "Pad", "Pad Soft S", price, 1, "Soft", IsAvailable(id), 10, 5)
  }

  /** The example's fields after the product id. */
  const Tail: seq<string> := ["Pad", "Pad Soft S", "3000", "1", "Soft"]

  /** The retailer's answer for the example pad, with product id `id`. */
  function Answer(id: string): string
  {
    id + [FieldSeparator] + "Pad/Pad Soft S/3000/1/Soft"
  }

  lemma ExampleFields(id: string, price: real)
    ensures RenderBody(Pad(id, price), "3000") == Join([id] + Tail, '/')
  {
    assert IntToString(1) == "1";
    assert [id, "Pad", "Pad Soft S", "3000", "1", "Soft"] == [id] + Tail;
  }

  lemma ExampleTail()
    ensures Join(Tail, '/') == "Pad/Pad Soft S/3000/1/Soft"
  {
  }

  lemma ExampleBody(id: string, price: real)
    ensures RenderBody(Pad(id, price), "3000") == Answer(id)
  {
    var parts := [id] + Tail;
    assert RenderBody(Pad(id, price), "3000") == Join(parts, '/') by {
      ExampleFields(id, price);
    }
    assert Join(parts, '/') == id + ['/'] + Join(Tail, '/') by {
      assert parts[1..] == Tail;
    }
    assert Join(Tail, '/') == "Pad/Pad Soft S/3000/1/Soft" by {
      ExampleTail();
    }
  }

  /** A 200 answer for the example is fetched as the example record. */
  lemma ExampleFetch(id: string, convertPrice: string -> Option<real>, price: real)
    requires '/' !in id
    requires convertPrice("3000") == Some(price)
    ensures Fetch(Variant(10, 1, 5), Response(200, Answer(id)), convertPrice) == Fetched(Pad(id, price))
  {
    ExampleBody(id, price);
    ParseRenderedBody(Pad(id, price), "3000", convertPrice);
  }

  lemma ExampleKey(id: string, price: real)
    ensures GetKey(Pad(id, price)) == "10|1|5"
  {
    assert IntToString(10) == "10";
  }

  lemma ExampleTitle()
    ensures Title("Pad Soft S") == "Pad"
  {
    assert "Pad Soft S" == "Pad" + [' '] + "Soft S";
    SplitConcat("Pad", ' ', "Soft S");
    SplitNoSep("Pad", ' ');
  }

  /** The embed of the example: title "Pad", size "Small", colour by stock. */
  lemma ExampleEmbed(id: string, price: real)
    ensures Format(Pad(id, price)) == Some(Embed("Pad", if id != "NON" then InStockColor else OutOfStockColor, price, "Small", "Soft"))
  {
    assert Title("Pad Soft S") == "Pad" by {
      ExampleTitle();
    }
  }

  /** A cycle over one fetched record, on a snapshot where its key is new or holds the other flag. */
  lemma OneEntryCycle(stored: Snapshot, pad: PadInfo)
    requires Notifies(stored, pad) && SizeToStr(pad.size).Some?
    ensures Cycle(stored, [Fetched(pad)]) == Running(stored[GetKey(pad) := pad], [pad])
  {
    assert [Fetched(pad)][..0] == [];
  }

  /** A cycle over one fetched record whose key holds the same flag. */
  lemma OneEntryQuietCycle(stored: Snapshot, pad: PadInfo)
    requires !Notifies(stored, pad)
    ensures Cycle(stored, [Fetched(pad)]) == Running(stored, [])
  {
    assert [Fetched(pad)][..0] == [];
  }

  /** Cycle 1, on an empty snapshot: the in-stock pad is stored and notified. */
  lemma FirstCycle(price: real)
    ensures Cycle(map[], [Fetched(Pad("A1", price))]) == Running(map["10|1|5" := Pad("A1", price)], [Pad("A1", price)])
  {
    ExampleKey("A1", price);
    OneEntryCycle(map[], Pad("A1", price));
  }

  /** Cycle 2, answered with "NON": the stored pad is replaced and notified once. */
  lemma SecondCycle(price: real)
    ensures Cycle(map["10|1|5" := Pad("A1", price)], [Fetched(Pad("NON", price))])
      == Running(map["10|1|5" := Pad("NON", price)], [Pad("NON", price)])
  {
    var stored := map["10|1|5" := Pad("A1", price)];
    var pad := Pad("NON", price);
    assert GetKey(pad) == "10|1|5" by {
      ExampleKey("NON", price);
    }
    assert Notifies(stored, pad);
    assert Cycle(stored, [Fetched(pad)]) == Running(stored[GetKey(pad) := pad], [pad]) by {
      OneEntryCycle(stored, pad);
    }
    assert stored["10|1|5" := pad] == map["10|1|5" := pad];
  }

  /** Cycle 3, answered with "NON" again: nothing is notified and nothing changes. */
  lemma ThirdCycle(price: real)
    ensures Cycle(map["10|1|5" := Pad("NON", price)], [Fetched(Pad("NON", price))])
      == Running(map["10|1|5" := Pad("NON", price)], [])
  {
    ExampleKey("NON", price);
    OneEntryQuietCycle(map["10|1|5" := Pad("NON", price)], Pad("NON", price));
  }

  /**
   * An exception after a notification: the webhook for `pad` went out but
   * nothing is saved, and the exception also ends the process. The first
   * cycle after an external restart starts from the same stored snapshot and
   * notifies `pad` again.
   */
  lemma CrashedCycleRenotifies(stored: Snapshot, pad: PadInfo)
    requires Notifies(stored, pad) && SizeToStr(pad.size).Some?
    ensures Cycle(stored, [Fetched(pad), Raised]) == Crashed(stored[GetKey(pad) := pad], [pad])
    ensures Cycle(stored, [Fetched(pad)]).notified == [pad]
  {
    OneEntryCycle(stored, pad);
    assert [Fetched(pad), Raised][..1] == [Fetched(pad)];
  }
}
