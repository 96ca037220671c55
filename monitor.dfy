/**
 * The per-cycle change detector `run`: walk the catalog in order, skip a
 * variant whose fetch raised `ConnectionError`, and for each fetched record
 * insert it and notify when its key is new, replace it and notify when its
 * `inStock` flag differs from the stored one, and otherwise do nothing. The
 * snapshot is saved once, after the whole catalog; an exception that `run`
 * does not catch ends the cycle before that.
 */
module Monitor {
  import opened Wrappers
  import opened Pads
  import opened Fetcher
  import opened Webhook

  /** The `availability` dict: snapshot key to last stored record. */
  type Snapshot = map<string, PadInfo>

  /**
   * The in-memory `availability` dict of one cycle, updated in place by
   * `add_to_avail`.
   */
  class Availability {
    var entries: Snapshot

    constructor (stored: Snapshot)
      ensures entries == stored
    {
      entries := stored;
    }

    /** `add_to_avail`: store `info` under its key; every other key is untouched. */
    method Add(info: PadInfo)
      modifies this
      ensures entries == old(entries)[GetKey(info) := info]
      ensures GetKey(info) in entries && entries[GetKey(info)] == info
      ensures forall k :: k != GetKey(info) ==> (k in entries <==> k in old(entries))
      ensures forall k :: k != GetKey(info) && k in entries ==> entries[k] == old(entries)[k]
    {
      entries := entries[GetKey(info) := info];
    }
  }

  /** The detector's test: the key is new, or the stored flag differs. */
  predicate Notifies(snap: Snapshot, info: PadInfo)
  {
    GetKey(info) !in snap || snap[GetKey(info)].inStock != info.inStock
  }

  /**
   * Where a cycle stands after some catalog entries: still `Running`, or
   * ended by an exception that escaped `run` (`Crashed`). `snapshot` is the
   * in-memory dict and `notified` the records whose webhook went out.
   */
  datatype CycleState =
    | Running(snapshot: Snapshot, notified: seq<PadInfo>)
    | Crashed(snapshot: Snapshot, notified: seq<PadInfo>)

  /**
   * One iteration of the loop in `run`. A notified record is stored before
   * its webhook is built, so a size that `size_to_str` rejects (the one way
   * `Format` fails) crashes the cycle with the record already in the dict
   * but without a notification.
   */
  function Step(st: CycleState, outcome: FetchOutcome): CycleState
  {
    match st
    case Crashed(_, _) => st
    case Running(snap, sent) =>
      match outcome
      case ConnectionFailed => st
      case Raised => Crashed(snap, sent)
      case Fetched(info) =>
        if !Notifies(snap, info) then st
        else
          var updated := snap[GetKey(info) := info];
          if SizeToStr(info.size).None? then Crashed(updated, sent) else Running(updated, sent + [info])
  }

  /** The loop of `run` over the fetch outcomes of the catalog, in order. */
  function Cycle(stored: Snapshot, outcomes: seq<FetchOutcome>): CycleState
  {
    if |outcomes| == 0 then Running(stored, [])
    else Step(Cycle(stored, outcomes[..|outcomes| - 1]), outcomes[|outcomes| - 1])
  }

  /** The records of the successful fetches, in catalog order. */
  function Records(outcomes: seq<FetchOutcome>): seq<PadInfo>
  {
    if |outcomes| == 0 then []
    else
      var last := outcomes[|outcomes| - 1];
      Records(outcomes[..|outcomes| - 1]) + (if last.Fetched? then [last.info] else [])
  }

  /**
   * `run`: load the stored snapshot into a dict, walk the outcomes, and
   * return what `save_avail` writes (`None` when an exception escapes first)
   * together with the records whose webhook was sent.
   */
  method Run(stored: Snapshot, outcomes: seq<FetchOutcome>) returns (saved: Option<Snapshot>, notified: seq<PadInfo>)
    ensures saved.Some? <==> Cycle(stored, outcomes).Running?
    ensures saved.Some? ==> saved.value == Cycle(stored, outcomes).snapshot
    ensures notified == Cycle(stored, outcomes).notified
  {
    var availability := new Availability(stored);
    notified := [];
    var i := 0;
    while i < |outcomes|
      invariant 0 <= i <= |outcomes|
      invariant Cycle(stored, outcomes[..i]) == Running(availability.entries, notified)
    {
      assert outcomes[..i + 1][..i] == outcomes[..i];
      match outcomes[i] {
        case ConnectionFailed =>
          // logged; the next catalog entry is tried
        case Raised =>
          CrashIsFinal(stored, outcomes, i + 1);
          return None, notified;
        case Fetched(info) =>
          if Notifies(availability.entries, info) {
            availability.Add(info);
            var embed := Format(info);
            if embed.None? {
              CrashIsFinal(stored, outcomes, i + 1);
              return None, notified;
            }
            notified := notified + [info];
          }
      }
      i := i + 1;
    }
    assert outcomes[..i] == outcomes;
    saved := Some(availability.entries);
  }

  /** Once an exception has escaped, the rest of the catalog changes nothing. */
  lemma {:induction false} CrashIsFinal(stored: Snapshot, outcomes: seq<FetchOutcome>, n: nat)
    requires n <= |outcomes|
    requires Cycle(stored, outcomes[..n]).Crashed?
    ensures Cycle(stored, outcomes) == Cycle(stored, outcomes[..n])
    decreases |outcomes|
  {
    if n < |outcomes| {
      var prefix := outcomes[..|outcomes| - 1];
      assert prefix[..n] == outcomes[..n];
      CrashIsFinal(stored, prefix, n);
    } else {
      assert outcomes[..n] == outcomes;
    }
  }

  /** First sight of a key: the record is inserted and notified exactly once. */
  lemma NewKeyNotifiedOnce(snap: Snapshot, sent: seq<PadInfo>, info: PadInfo)
    requires GetKey(info) !in snap
    requires SizeToStr(info.size).Some?
    ensures Step(Running(snap, sent), Fetched(info)) == Running(snap[GetKey(info) := info], sent + [info])
  {
  }

  /** A stored key whose flag flipped: the record replaces the entry and is notified exactly once. */
  lemma FlagChangeNotifiedOnce(snap: Snapshot, sent: seq<PadInfo>, info: PadInfo)
    requires GetKey(info) in snap && snap[GetKey(info)].inStock != info.inStock
    requires SizeToStr(info.size).Some?
    ensures Step(Running(snap, sent), Fetched(info)) == Running(snap[GetKey(info) := info], sent + [info])
  {
  }

  /**
   * A stored key with the same flag: nothing is notified and the stored
   * record stays, whatever its price, names or hardness.
   */
  lemma SameFlagIgnored(snap: Snapshot, sent: seq<PadInfo>, info: PadInfo)
    requires GetKey(info) in snap && snap[GetKey(info)].inStock == info.inStock
    ensures Step(Running(snap, sent), Fetched(info)) == Running(snap, sent)
  {
  }

  /** A `ConnectionError` is skipped: no change, no notification, the loop goes on. */
  lemma FailedFetchSkipped(stored: Snapshot, outcomes: seq<FetchOutcome>)
    ensures Cycle(stored, outcomes + [ConnectionFailed]) == Cycle(stored, outcomes)
  {
    assert (outcomes + [ConnectionFailed])[..|outcomes|] == outcomes;
  }

  /** Any exception from `fetch` other than `ConnectionError` ends the cycle: nothing is saved. */
  lemma RaisedEndsCycle(stored: Snapshot, outcomes: seq<FetchOutcome>)
    requires Cycle(stored, outcomes).Running?
    ensures Cycle(stored, outcomes + [Raised]) == Crashed(Cycle(stored, outcomes).snapshot, Cycle(stored, outcomes).notified)
  {
    assert (outcomes + [Raised])[..|outcomes|] == outcomes;
  }

  /**
   * A record that must be notified but whose size `size_to_str` rejects is
   * stored in the dict, is not notified, and ends the cycle.
   */
  lemma UnnamedSizeEndsCycle(snap: Snapshot, sent: seq<PadInfo>, info: PadInfo)
    requires Notifies(snap, info) && SizeToStr(info.size).None?
    ensures Step(Running(snap, sent), Fetched(info)) == Crashed(snap[GetKey(info) := info], sent)
  {
  }

  /** The key a single outcome may touch. */
  function TouchedKeys(outcome: FetchOutcome): set<string>
  {
    if outcome.Fetched? then {GetKey(outcome.info)} else {}
  }

  /** The keys of the successfully fetched records. */
  function FetchedKeys(outcomes: seq<FetchOutcome>): set<string>
  {
    if |outcomes| == 0 then {}
    else FetchedKeys(outcomes[..|outcomes| - 1]) + TouchedKeys(outcomes[|outcomes| - 1])
  }

  /** A key that no fetched record maps to is not among the fetched keys. */
  lemma {:induction false} UnfetchedKey(outcomes: seq<FetchOutcome>, k: string)
    requires forall i :: 0 <= i < |outcomes| && outcomes[i].Fetched? ==> GetKey(outcomes[i].info) != k
    ensures k !in FetchedKeys(outcomes)
  {
    if |outcomes| > 0 {
      var prefix := outcomes[..|outcomes| - 1];
      assert forall i :: 0 <= i < |prefix| ==> prefix[i] == outcomes[i];
      UnfetchedKey(prefix, k);
    }
  }

  /** One step never removes a key and changes at most the key of the fetched record. */
  lemma StepFrame(st: CycleState, outcome: FetchOutcome)
    ensures st.snapshot.Keys <= Step(st, outcome).snapshot.Keys <= st.snapshot.Keys + TouchedKeys(outcome)
    ensures forall k :: k in st.snapshot && k !in TouchedKeys(outcome) ==> Step(st, outcome).snapshot[k] == st.snapshot[k]
  {
  }

  /**
   * What a cycle may change: keys are never removed, only fetched keys are
   * added, and every key no fetched record maps to keeps its stored record.
   */
  lemma {:induction false} CycleFrame(stored: Snapshot, outcomes: seq<FetchOutcome>)
    ensures stored.Keys <= Cycle(stored, outcomes).snapshot.Keys <= stored.Keys + FetchedKeys(outcomes)
    ensures forall k :: k in stored && k !in FetchedKeys(outcomes) ==> Cycle(stored, outcomes).snapshot[k] == stored[k]
  {
    if |outcomes| > 0 {
      var prefix := outcomes[..|outcomes| - 1];
      var last := outcomes[|outcomes| - 1];
      CycleFrame(stored, prefix);
      StepFrame(Cycle(stored, prefix), last);
    }
  }

  /** Every notification is for a fetched record, and there are no more notifications than fetched records. */
  lemma {:induction false} NotifiedAreFetched(stored: Snapshot, outcomes: seq<FetchOutcome>)
    ensures |Cycle(stored, outcomes).notified| <= |Records(outcomes)|
    ensures forall j :: 0 <= j < |Cycle(stored, outcomes).notified| ==> Cycle(stored, outcomes).notified[j] in Records(outcomes)
  {
    if |outcomes| > 0 {
      NotifiedAreFetched(stored, outcomes[..|outcomes| - 1]);
    }
  }

  /** No two fetched records with the same key disagree on `inStock`. */
  ghost predicate Consistent(outcomes: seq<FetchOutcome>)
  {
    forall i, j ::
      (0 <= i < |outcomes| && 0 <= j < |outcomes| && outcomes[i].Fetched? && outcomes[j].Fetched?
       && GetKey(outcomes[i].info) == GetKey(outcomes[j].info))
      ==> outcomes[i].info.inStock == outcomes[j].info.inStock
  }

  /** Every fetched record's key is stored with that record's flag. */
  ghost predicate Settled(snap: Snapshot, outcomes: seq<FetchOutcome>)
  {
    forall i :: 0 <= i < |outcomes| && outcomes[i].Fetched? ==>
      GetKey(outcomes[i].info) in snap && snap[GetKey(outcomes[i].info)].inStock == outcomes[i].info.inStock
  }

  /**
   * A cycle that completes met no uncaught exception, and (when fetched
   * records agree per key) leaves every fetched key stored with the fetched flag.
   */
  lemma {:induction false} CompletedCycleSettles(stored: Snapshot, outcomes: seq<FetchOutcome>)
    requires Consistent(outcomes)
    requires Cycle(stored, outcomes).Running?
    ensures forall i :: 0 <= i < |outcomes| ==> !outcomes[i].Raised?
    ensures Settled(Cycle(stored, outcomes).snapshot, outcomes)
  {
    if |outcomes| > 0 {
      var prefix := outcomes[..|outcomes| - 1];
      var last := outcomes[|outcomes| - 1];
      assert Consistent(prefix) by {
        forall i, j | 0 <= i < |prefix| && 0 <= j < |prefix|
          ensures prefix[i] == outcomes[i] && prefix[j] == outcomes[j]
        {
        }
      }
      if Cycle(stored, prefix).Crashed? {
        assert false;
      }
      CompletedCycleSettles(stored, prefix);
      var before := Cycle(stored, prefix).snapshot;
      var after := Cycle(stored, outcomes).snapshot;
      forall i | 0 <= i < |outcomes| && outcomes[i].Fetched?
        ensures GetKey(outcomes[i].info) in after && after[GetKey(outcomes[i].info)].inStock == outcomes[i].info.inStock
      {
        if i < |outcomes| - 1 {
          assert prefix[i] == outcomes[i];
          if last.Fetched? && GetKey(last.info) == GetKey(outcomes[i].info) {
            assert outcomes[|outcomes| - 1] == last;
          }
        }
      }
    }
  }

  /**
   * With every fetched key already stored with the fetched flag and no
   * exception, a cycle notifies nothing and changes nothing.
   */
  lemma {:induction false} SettledCycleIsQuiet(snap: Snapshot, outcomes: seq<FetchOutcome>)
    requires Settled(snap, outcomes)
    requires forall i :: 0 <= i < |outcomes| ==> !outcomes[i].Raised?
    ensures Cycle(snap, outcomes) == Running(snap, [])
  {
    if |outcomes| > 0 {
      var prefix := outcomes[..|outcomes| - 1];
      assert Settled(snap, prefix) by {
        forall i | 0 <= i < |prefix| ensures prefix[i] == outcomes[i] { }
      }
      SettledCycleIsQuiet(snap, prefix);
    }
  }

  /**
   * Repeating a completed cycle on the same answers (whose flags agree per
   * key) sends no notification and leaves the saved snapshot as it is.
   */
  lemma {:induction false} RepeatedCycleIsQuiet(stored: Snapshot, outcomes: seq<FetchOutcome>)
    requires Consistent(outcomes)
    requires Cycle(stored, outcomes).Running?
    ensures Cycle(Cycle(stored, outcomes).snapshot, outcomes) == Running(Cycle(stored, outcomes).snapshot, [])
  {
    CompletedCycleSettles(stored, outcomes);
    SettledCycleIsQuiet(Cycle(stored, outcomes).snapshot, outcomes);
  }

  /** The fetched records have pairwise different keys, none of them stored yet. */
  ghost predicate FreshDistinct(stored: Snapshot, outcomes: seq<FetchOutcome>)
  {
    && (forall i :: 0 <= i < |outcomes| && outcomes[i].Fetched? ==> GetKey(outcomes[i].info) !in stored)
    && (forall i, j :: 0 <= i < j < |outcomes| && outcomes[i].Fetched? && outcomes[j].Fetched?
          ==> GetKey(outcomes[i].info) != GetKey(outcomes[j].info))
  }

  /** Every fetched record is the one stored under its key. */
  ghost predicate StoredEach(snap: Snapshot, outcomes: seq<FetchOutcome>)
  {
    forall i :: 0 <= i < |outcomes| && outcomes[i].Fetched? ==>
      GetKey(outcomes[i].info) in snap && snap[GetKey(outcomes[i].info)] == outcomes[i].info
  }

  /** The requirements of a first population, restricted to all but the last outcome. */
  lemma FirstCyclePrefix(stored: Snapshot, outcomes: seq<FetchOutcome>)
    requires |outcomes| > 0
    requires FreshDistinct(stored, outcomes)
    requires forall i :: 0 <= i < |outcomes| ==> !outcomes[i].Raised?
    requires forall i :: 0 <= i < |outcomes| && outcomes[i].Fetched? ==> SizeToStr(outcomes[i].info.size).Some?
    ensures var prefix := outcomes[..|outcomes| - 1];
      && FreshDistinct(stored, prefix)
      && (forall i :: 0 <= i < |prefix| ==> !prefix[i].Raised?)
      && (forall i :: 0 <= i < |prefix| && prefix[i].Fetched? ==> SizeToStr(prefix[i].info.size).Some?)
  {
    var prefix := outcomes[..|outcomes| - 1];
    assert forall i :: 0 <= i < |prefix| ==> prefix[i] == outcomes[i];
  }

  /** Storing a record whose key no earlier record has keeps every earlier record stored. */
  lemma StoredEachExtend(snap: Snapshot, prefix: seq<FetchOutcome>, last: FetchOutcome)
    requires StoredEach(snap, prefix)
    requires last.Fetched?
    requires forall i :: 0 <= i < |prefix| && prefix[i].Fetched? ==> GetKey(prefix[i].info) != GetKey(last.info)
    ensures StoredEach(snap[GetKey(last.info) := last.info], prefix + [last])
  {
    var outcomes := prefix + [last];
    assert forall i :: 0 <= i < |prefix| ==> outcomes[i] == prefix[i];
  }

  /** An outcome without a record leaves the stored records as they are. */
  lemma StoredEachSkip(snap: Snapshot, prefix: seq<FetchOutcome>, last: FetchOutcome)
    requires StoredEach(snap, prefix)
    requires !last.Fetched?
    ensures StoredEach(snap, prefix + [last])
  {
    var outcomes := prefix + [last];
    assert forall i :: 0 <= i < |prefix| ==> outcomes[i] == prefix[i];
  }

  /**
   * First population: when no fetched key is stored yet, keys are distinct,
   * nothing raises and every size has a name, every fetched record is
   * notified exactly once, in catalog order, and stored under its key.
   */
  lemma {:induction false} FirstCycleNotifiesEach(stored: Snapshot, outcomes: seq<FetchOutcome>)
    requires FreshDistinct(stored, outcomes)
    requires forall i :: 0 <= i < |outcomes| ==> !outcomes[i].Raised?
    requires forall i :: 0 <= i < |outcomes| && outcomes[i].Fetched? ==> SizeToStr(outcomes[i].info.size).Some?
    ensures Cycle(stored, outcomes).Running?
    ensures Cycle(stored, outcomes).notified == Records(outcomes)
    ensures StoredEach(Cycle(stored, outcomes).snapshot, outcomes)
  {
    if |outcomes| > 0 {
      var n := |outcomes| - 1;
      var prefix := outcomes[..n];
      var last := outcomes[n];
      assert outcomes == prefix + [last];
      FirstCyclePrefix(stored, outcomes);
      FirstCycleNotifiesEach(stored, prefix);
      var st := Cycle(stored, prefix);
      if last.Fetched? {
        var k := GetKey(last.info);
        assert forall i :: 0 <= i < n && prefix[i].Fetched? ==> GetKey(prefix[i].info) != k by {
          assert forall i :: 0 <= i < n ==> prefix[i] == outcomes[i];
        }
        assert k !in st.snapshot by {
          CycleFrame(stored, prefix);
          UnfetchedKey(prefix, k);
        }
        NewKeyNotifiedOnce(st.snapshot, st.notified, last.info);
        StoredEachExtend(st.snapshot, prefix, last);
      } else {
        StoredEachSkip(st.snapshot, prefix, last);
      }
    }
  }
}
