/**
 * The shared intersection watcher of the library: one registry of watched page
 * elements, fed by the platform's viewport-intersection facility. Registering an
 * element (`observe`) adds it to the watched set; the facility's callback, for every
 * entry of a batch that reports its element as intersecting, first runs the
 * element's `onIntersection` hook (when it has one) and then stops watching it.
 *
 * The facility itself is not modelled: whether it exists is a constructor argument,
 * and a batch of entries is an argument of `Dispatch`.
 */
module Observer {
  import opened Common

  /** Page elements are known by identity only. */
  type ElementId = nat

  /**
   * The page, as far as the watcher cares: the elements that carry an
   * `onIntersection` hook. Components install a hook from their ref callbacks.
   */
  class Document {
    var hooked: set<ElementId>

    constructor ()
      ensures hooked == {}
    {
      hooked := {};
    }

    /** Assigns `el.onIntersection`. */
    method SetHook(el: ElementId)
      modifies this
      ensures hooked == old(hooked) + {el}
    {
      hooked := hooked + {el};
    }
  }

  /** One record of a batch delivered by the platform facility. */
  datatype Entry = Entry(target: ElementId, isIntersecting: bool)

  /** What the dispatch callback does to an element, in the order it does it. */
  datatype Action = Fire(el: ElementId) | Unobserve(el: ElementId)

  /**
   * `Unsupported` is the error `observe` throws when the facility is missing;
   * `NotAnElement` is the facility's own rejection of a null target.
   */
  datatype Error = Unsupported | NotAnElement

  datatype Outcome = Pass | Fail(error: Error)

  /** What the callback does for one entry. */
  function EntryActions(entry: Entry, hooked: set<ElementId>): seq<Action>
  {
    if !entry.isIntersecting then []
    else if entry.target in hooked then [Fire(entry.target), Unobserve(entry.target)]
    else [Unobserve(entry.target)]
  }

  /** What the callback does for a batch: the entries' actions, in entry order. */
  function DispatchActions(entries: seq<Entry>, hooked: set<ElementId>): seq<Action>
  {
    if entries == [] then []
    else DispatchActions(entries[..|entries| - 1], hooked) + EntryActions(entries[|entries| - 1], hooked)
  }

  /** The elements a batch reports as intersecting. */
  function Reported(entries: seq<Entry>): set<ElementId>
  {
    if entries == [] then {}
    else
      var last := entries[|entries| - 1];
      Reported(entries[..|entries| - 1]) + (if last.isIntersecting then {last.target} else {})
  }

  /** No two intersecting entries of the batch name the same element. */
  ghost predicate DistinctTargets(entries: seq<Entry>)
  {
    forall i, j :: 0 <= i < j < |entries| && entries[i].isIntersecting && entries[j].isIntersecting
      ==> entries[i].target != entries[j].target
  }

  /**
   * A batch assumed of the platform facility: it reports only elements that are
   * watched when the batch is taken, and each intersecting element once. The real
   * facility may queue several entries for one element before the callback runs
   * (see `DuplicateEntriesFireTwice`); `OneShot` holds under this assumption.
   */
  ghost predicate PlatformBatch(watched: set<ElementId>, entries: seq<Entry>)
  {
    && (forall i :: 0 <= i < |entries| ==> entries[i].target in watched)
    && DistinctTargets(entries)
  }

  /** The effect of `observe(el)` on the watched set, and its outcome. */
  ghost predicate ObserveEffect(supported: bool, before: set<ElementId>, after: set<ElementId>,
                                el: Option<ElementId>, r: Outcome)
  {
    if !supported then r == Fail(Unsupported) && after == before
    else if el.None? then r == Fail(NotAnElement) && after == before
    else r == Pass && after == before + {el.value}
  }

  /**
   * The module-level watcher. It exists only when the platform has the facility
   * (`supported`); without it `observe` throws.
   */
  class IntersectionRegistry {
    const supported: bool
    var watched: set<ElementId>

    constructor (supported: bool)
      ensures this.supported == supported && watched == {}
    {
      this.supported := supported;
      watched := {};
    }

    /** `observe(domEl)`: register an element; no hook runs. */
    method Observe(el: Option<ElementId>) returns (r: Outcome)
      modifies this
      ensures ObserveEffect(supported, old(watched), watched, el, r)
    {
      if !supported {
        r := Fail(Unsupported);
      } else if el.None? {
        r := Fail(NotAnElement);
      } else {
        watched := watched + {el.value};
        r := Pass;
      }
    }

    /**
     * The facility's callback on a batch of entries: for each intersecting
     * entry, run the hook if the element has one, then unobserve the element.
     * The callback exists only when the watcher does.
     */
    method Dispatch(doc: Document, entries: seq<Entry>) returns (actions: seq<Action>)
      requires supported
      modifies this
      ensures actions == DispatchActions(entries, doc.hooked)
      ensures watched == old(watched) - Reported(entries)
    {
      actions := [];
      var i := 0;
      while i < |entries|
        invariant 0 <= i <= |entries|
        invariant actions == DispatchActions(entries[..i], doc.hooked)
        invariant watched == old(watched) - Reported(entries[..i])
      {
        var entry := entries[i];
        if entry.isIntersecting {
          if entry.target in doc.hooked {
            actions := actions + [Fire(entry.target)];
          }
          watched := watched - {entry.target};
          actions := actions + [Unobserve(entry.target)];
        }
        assert entries[..i + 1][..i] == entries[..i];
        i := i + 1;
      }
      assert entries[..|entries|] == entries;
    }
  }

  /** An element's hook runs in a batch exactly when it has one and the batch reports it intersecting. */
  lemma {:induction false} FiresIff(entries: seq<Entry>, hooked: set<ElementId>, e: ElementId)
    ensures Fire(e) in DispatchActions(entries, hooked) <==> e in hooked && e in Reported(entries)
  {
    if entries != [] {
      FiresIff(entries[..|entries| - 1], hooked, e);
    }
  }

  /** An element stops being watched exactly when the batch reports it intersecting, hook or no hook. */
  lemma {:induction false} UnobservesIff(entries: seq<Entry>, hooked: set<ElementId>, e: ElementId)
    ensures Unobserve(e) in DispatchActions(entries, hooked) <==> e in Reported(entries)
  {
    if entries != [] {
      UnobservesIff(entries[..|entries| - 1], hooked, e);
    }
  }

  /** Every hook run is immediately followed by the unobserving of the same element. */
  lemma {:induction false} HookBeforeUnobserve(entries: seq<Entry>, hooked: set<ElementId>, k: nat)
    requires k < |DispatchActions(entries, hooked)|
    requires DispatchActions(entries, hooked)[k].Fire?
    ensures k + 1 < |DispatchActions(entries, hooked)|
    ensures DispatchActions(entries, hooked)[k + 1] == Unobserve(DispatchActions(entries, hooked)[k].el)
  {
    var n := |entries|;
    var prefix := DispatchActions(entries[..n - 1], hooked);
    if k < |prefix| {
      HookBeforeUnobserve(entries[..n - 1], hooked, k);
    }
  }

  /** A batch that reports nothing as intersecting does nothing. */
  lemma {:induction false} QuietBatch(entries: seq<Entry>, hooked: set<ElementId>)
    requires forall i :: 0 <= i < |entries| ==> !entries[i].isIntersecting
    ensures Reported(entries) == {}
    ensures DispatchActions(entries, hooked) == []
  {
    if entries != [] {
      QuietBatch(entries[..|entries| - 1], hooked);
    }
  }

  /** In a batch whose intersecting entries name distinct elements, each hook runs at most once. */
  lemma {:induction false} FiresOncePerBatch(entries: seq<Entry>, hooked: set<ElementId>, e: ElementId)
    requires DistinctTargets(entries)
    ensures multiset(DispatchActions(entries, hooked))[Fire(e)]
            == if e in hooked && e in Reported(entries) then 1 else 0
  {
    if entries != [] {
      var n := |entries|;
      var init, last := entries[..n - 1], entries[n - 1];
      DistinctPrefix(entries);
      FiresOncePerBatch(init, hooked, e);
      var before := multiset(DispatchActions(init, hooked))[Fire(e)];
      var now := multiset(EntryActions(last, hooked))[Fire(e)];
      assert now == if last.isIntersecting && last.target == e && e in hooked then 1 else 0;
      assert multiset(DispatchActions(entries, hooked))[Fire(e)] == before + now;
      if last.isIntersecting && last.target == e {
        NotReportedBefore(entries, e);
      }
    }
  }

  /** Dropping the last entry keeps the targets distinct. */
  lemma DistinctPrefix(entries: seq<Entry>)
    requires DistinctTargets(entries) && entries != []
    ensures DistinctTargets(entries[..|entries| - 1])
  {
    var init := entries[..|entries| - 1];
    forall i, j | 0 <= i < j < |init| && init[i].isIntersecting && init[j].isIntersecting
      ensures init[i].target != init[j].target
    {
      assert init[i] == entries[i] && init[j] == entries[j];
    }
  }

  /** With distinct targets, an element the last entry reports is not reported by the ones before. */
  lemma NotReportedBefore(entries: seq<Entry>, e: ElementId)
    requires DistinctTargets(entries)
    requires entries != [] && entries[|entries| - 1] == Entry(e, true)
    ensures e !in Reported(entries[..|entries| - 1])
  {
    var n := |entries|;
    var init := entries[..n - 1];
    forall i | 0 <= i < |init| && init[i].isIntersecting
      ensures init[i].target != e
    {
      assert init[i] == entries[i];
    }
    ReportedWitness(init, e);
  }

  /** An element is reported only through an intersecting entry naming it. */
  lemma {:induction false} ReportedWitness(entries: seq<Entry>, e: ElementId)
    ensures e in Reported(entries)
            <==> exists i :: 0 <= i < |entries| && entries[i].isIntersecting && entries[i].target == e
  {
    if entries != [] {
      var n := |entries|;
      var init := entries[..n - 1];
      ReportedWitness(init, e);
      if e in Reported(init) {
        var i :| 0 <= i < |init| && init[i].isIntersecting && init[i].target == e;
        assert entries[i] == init[i];
      }
      if exists i :: 0 <= i < n && entries[i].isIntersecting && entries[i].target == e {
        var i :| 0 <= i < n && entries[i].isIntersecting && entries[i].target == e;
        if i < n - 1 {
          assert init[i] == entries[i];
        }
      }
    }
  }

  /**
   * As written, the callback does not check that an entry's element is still
   * watched: two intersecting entries for one element in one batch run its hook twice.
   */
  lemma DuplicateEntriesFireTwice(e: ElementId)
    ensures DispatchActions([Entry(e, true), Entry(e, true)], {e})
            == [Fire(e), Unobserve(e), Fire(e), Unobserve(e)]
  {
    var one := [Entry(e, true)];
    assert one[..0] == [];
    assert DispatchActions(one, {e}) == [Fire(e), Unobserve(e)];
    assert [Entry(e, true), Entry(e, true)][..1] == one;
  }

  /** What happens to the registry over time: registrations and delivered batches. */
  datatype RegistryEvent = ObserveEl(el: ElementId) | Report(entries: seq<Entry>)

  /** The watched set after a run of events, and every action the callback performed. */
  function Run(watched: set<ElementId>, hooked: set<ElementId>, events: seq<RegistryEvent>)
    : (set<ElementId>, seq<Action>)
    decreases |events|
  {
    if events == [] then (watched, [])
    else
      match events[0]
      case ObserveEl(el) => Run(watched + {el}, hooked, events[1..])
      case Report(entries) =>
        var after := Run(watched - Reported(entries), hooked, events[1..]);
        (after.0, DispatchActions(entries, hooked) + after.1)
  }

  /** Every batch of the run is one the platform can deliver at that point. */
  ghost predicate PlatformRun(watched: set<ElementId>, events: seq<RegistryEvent>)
    decreases |events|
  {
    events == [] ||
    match events[0]
    case ObserveEl(el) => PlatformRun(watched + {el}, events[1..])
    case Report(entries) =>
      PlatformBatch(watched, entries) && PlatformRun(watched - Reported(entries), events[1..])
  }

  /**
   * One-shot: over any run in which the element is not registered again, its hook
   * runs at most once, and not at all when it was not watched to begin with.
   */
  lemma {:induction false} OneShot(watched: set<ElementId>, hooked: set<ElementId>,
                                   events: seq<RegistryEvent>, e: ElementId)
    requires PlatformRun(watched, events)
    requires forall k :: 0 <= k < |events| ==> events[k] != ObserveEl(e)
    ensures multiset(Run(watched, hooked, events).1)[Fire(e)] <= if e in watched then 1 else 0
    decreases |events|
  {
    if events != [] {
      var rest := events[1..];
      assert forall k :: 0 <= k < |rest| ==> rest[k] == events[k + 1];
      match events[0]
      case ObserveEl(el) =>
        OneShot(watched + {el}, hooked, rest, e);
      case Report(entries) =>
        var w' := watched - Reported(entries);
        OneShot(w', hooked, rest, e);
        FiresOncePerBatch(entries, hooked, e);
        if e in Reported(entries) {
          ReportedWitness(entries, e);
          assert e in watched;
        }
    }
  }
}
