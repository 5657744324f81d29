/**
 * The `Defer` component: renders a small wrapper element and, once loading starts
 * (at mount, or when the wrapper first intersects the viewport), shows the
 * placeholder and calls the producer. A plain result is installed on a zero-delay
 * timer; a promise result is installed when it resolves, after normalisation.
 *
 * `State` and `Step` give the component's behaviour as a function of the events the
 * platform delivers; `DeferComponent` is the component object whose event methods
 * update its fields in place and are proved to follow `Step`.
 */
module Defer {
  import opened Common
  import Observer

  /** The JavaScript values a producer or a promise hands back, as far as `loadComponent` inspects them. */
  datatype Value =
    | Undefined
    | Null
    | Bool(b: bool)
    | Num(n: int)
    | Str(s: string)
    | Function(name: string)
    | Object(fields: map<string, Value>)

  /** JavaScript truthiness. */
  predicate Truthy(v: Value)
  {
    match v
    case Undefined => false
    case Null => false
    case Bool(b) => b
    case Num(n) => n != 0
    case Str(s) => s != ""
    case Function(_) => true
    case Object(_) => true
  }

  /** Reading a property of these throws a TypeError. */
  predicate Nullish(v: Value)
  {
    v.Undefined? || v.Null?
  }

  /** `v[key]` for a value that is neither null nor undefined. */
  function Prop(v: Value, key: string): Value
    requires !Nullish(v)
  {
    if v.Object? && key in v.fields then v.fields[key] else Undefined
  }

  /** `result.then` is a function: the result is treated as a promise and its continuation registered. */
  predicate IsThenable(v: Value)
    requires !Nullish(v)
  {
    Prop(v, "then").Function?
  }

  /**
   * `loadComponent` throws on the producer's result: reading `then` of null or
   * undefined, or calling a `then` that is truthy but not a function.
   */
  predicate LoadThrows(v: Value)
  {
    Nullish(v) || (Truthy(Prop(v, "then")) && !Prop(v, "then").Function?)
  }

  /**
   * What a resolved promise value becomes: a function is kept, otherwise a
   * function under `default` is taken, otherwise the result is undefined.
   */
  function Normalize(mod: Value): (r: Value)
    ensures r.Undefined? || r.Function?
    ensures r.Function? <==> mod.Function? || (mod.Object? && Prop(mod, "default").Function?)
    ensures mod.Function? ==> r == mod
    ensures r.Function? && !mod.Function? ==> r == Prop(mod, "default")
  {
    if Truthy(mod) then
      if mod.Function? then mod
      else if Prop(mod, "default").Function? then Prop(mod, "default")
      else Undefined
    else Undefined
  }

  /**
   * The component's props: `produced` is what `render()` returns (the same value on
   * every call), `hasPlaceholder` says whether `renderPlaceholder` is given.
   */
  datatype Props = Props(produced: Value, hasPlaceholder: bool, loadOnScreen: bool)

  /**
   * The component state, plus the work `loadComponent` left pending: zero-delay
   * timers, each holding the result it installs, and promise continuations not yet run.
   */
  datatype State = State(loading: bool, componentToRender: Value, timeouts: seq<Value>, awaiting: nat)

  /** The state the constructor sets up. */
  const Initial := State(false, Bool(false), [], 0)

  /** Completions still to come. */
  function Pending(s: State): nat
  {
    |s.timeouts| + s.awaiting
  }

  /**
   * `loadComponent`: calls the producer and schedules the install of its result.
   * None when that throws (`LoadThrows`).
   */
  function LoadComponentStep(p: Props, s: State): (r: Option<State>)
    ensures r.None? <==> LoadThrows(p.produced)
    ensures r.Some? ==> r.value.loading == s.loading && r.value.componentToRender == s.componentToRender
    ensures r.Some? ==> Pending(r.value) == Pending(s) + 1
    ensures r.Some? && !IsThenable(p.produced) ==> r.value.timeouts == s.timeouts + [p.produced]
    ensures r.Some? && IsThenable(p.produced) ==> r.value.timeouts == s.timeouts
  {
    if Nullish(p.produced) then None
    else if Truthy(Prop(p.produced, "then")) then
      if IsThenable(p.produced) then Some(s.(awaiting := s.awaiting + 1)) else None
    else Some(s.(timeouts := s.timeouts + [p.produced]))
  }

  /**
   * The render pass that follows each state update: while nothing is installed and
   * loading is on, rendering the loading branch calls `loadComponent`.
   */
  function RenderStep(p: Props, s: State): Option<State>
  {
    if !Truthy(s.componentToRender) && s.loading then LoadComponentStep(p, s) else Some(s)
  }

  /** The events the platform delivers to the component. */
  datatype Event =
    | Mount             // didMount
    | Intersect         // the wrapper's onIntersection hook
    | TimeoutFires      // the oldest zero-delay timer runs
    | Resolved(mod: Value)  // a promise from the producer resolves with `mod`
    | Unmount           // willUnmount

  /**
   * The state after one event and the render pass it causes; None when rendering threw.
   * Only entering loading can throw, only a completion installs content, and each
   * event adds at most one pending completion.
   */
  function Step(p: Props, s: State, ev: Event): (r: Option<State>)
    ensures r.None? ==> (ev.Mount? || ev.Intersect?) && LoadThrows(p.produced)
    ensures r.Some? && (ev.Mount? || ev.Intersect? || ev.Unmount?) ==> r.value.componentToRender == s.componentToRender
    ensures r.Some? ==> Pending(r.value) <= Pending(s) + 1
  {
    match ev
    case Mount => if p.loadOnScreen then Some(s) else RenderStep(p, s.(loading := true))
    case Intersect => RenderStep(p, s.(loading := true))
    case TimeoutFires =>
      if s.timeouts == [] then Some(s)
      else RenderStep(p, s.(loading := false, componentToRender := s.timeouts[0], timeouts := s.timeouts[1..]))
    case Resolved(mod) =>
      if s.awaiting == 0 then Some(s)
      else RenderStep(p, s.(loading := false, componentToRender := Normalize(mod), awaiting := s.awaiting - 1))
    case Unmount => Some(s)
  }

  /** A result whose `then` is truthy but not a function makes `loadComponent` throw, as null does. */
  lemma NonCallableThenThrows(p: Props, s: State)
    requires p.produced == Object(map["then" := Bool(true)])
    requires !Truthy(s.componentToRender)
    ensures LoadComponentStep(p, s).None?
    ensures Step(p, s, Intersect).None?
  {
    assert Prop(p.produced, "then") == Bool(true);
  }

  /** The state after a sequence of events; None once rendering has thrown. */
  function Run(p: Props, s: State, events: seq<Event>): Option<State>
    decreases |events|
  {
    if events == [] then Some(s)
    else
      match Step(p, s, events[0])
      case None => None
      case Some(t) => Run(p, t, events[1..])
  }

  /** What is on screen. */
  datatype View = Content(shown: Value) | Wrapper(placeholder: bool)

  /** The render branch: content once installed, else the wrapper, with the placeholder while loading. */
  function ViewOf(p: Props, s: State): (v: View)
    ensures v.Content? ==> Truthy(v.shown) && v.shown == s.componentToRender
    ensures Truthy(s.componentToRender) ==> v == Content(s.componentToRender)
    ensures v == Wrapper(true) ==> s.loading && p.hasPlaceholder
    ensures Truthy(s.componentToRender) || v.Wrapper?
  {
    if Truthy(s.componentToRender) then Content(s.componentToRender)
    else Wrapper(s.loading && p.hasPlaceholder)
  }

  /** The state to keep when a step may have thrown. */
  function After(next: Option<State>, s: State): State
  {
    if next.Some? then next.value else s
  }

  /** The placeholder is never left on screen without a completion on its way. */
  ghost predicate LoadingIsPending(s: State)
  {
    s.loading && !Truthy(s.componentToRender) ==> Pending(s) > 0
  }

  lemma StepKeepsLoadingPending(p: Props, s: State, ev: Event)
    requires LoadingIsPending(s)
    requires Step(p, s, ev).Some?
    ensures LoadingIsPending(Step(p, s, ev).value)
  {
  }

  /** From the initial state, every reachable state shows the placeholder only while a completion is pending. */
  lemma {:induction false} RunKeepsLoadingPending(p: Props, s: State, events: seq<Event>)
    requires LoadingIsPending(s)
    requires Run(p, s, events).Some?
    ensures LoadingIsPending(Run(p, s, events).value)
    decreases |events|
  {
    if events != [] {
      StepKeepsLoadingPending(p, s, events[0]);
      RunKeepsLoadingPending(p, Step(p, s, events[0]).value, events[1..]);
    }
  }

  /** Only a timer or a promise resolution installs content: never within mount or the intersection hook. */
  lemma {:induction false} NoContentWithoutCompletion(p: Props, s: State, events: seq<Event>)
    requires forall k :: 0 <= k < |events| ==> events[k].Mount? || events[k].Intersect? || events[k].Unmount?
    requires Run(p, s, events).Some?
    ensures Run(p, s, events).value.componentToRender == s.componentToRender
    ensures Truthy(s.componentToRender) || ViewOf(p, Run(p, s, events).value).Wrapper?
    decreases |events|
  {
    if events != [] {
      var t := Step(p, s, events[0]).value;
      assert t.componentToRender == s.componentToRender;
      NoContentWithoutCompletion(p, t, events[1..]);
    }
  }

  /** With `loadOnScreen`, nothing starts before the wrapper's hook runs: no placeholder, no producer call. */
  lemma {:induction false} GatedWaitsForIntersection(p: Props, events: seq<Event>)
    requires p.loadOnScreen
    requires forall k :: 0 <= k < |events| ==> !events[k].Intersect?
    ensures Run(p, Initial, events) == Some(Initial)
    ensures ViewOf(p, Initial) == Wrapper(false)
    decreases |events|
  {
    if events != [] {
      assert Step(p, Initial, events[0]) == Some(Initial);
      GatedWaitsForIntersection(p, events[1..]);
    }
  }

  /**
   * Entering loading (at mount without `loadOnScreen`, or from the hook) shows the
   * placeholder if there is one and calls the producer once; a non-null result
   * leaves exactly one completion pending, and no content yet.
   */
  lemma StartLoading(p: Props, s: State, ev: Event)
    requires ev.Intersect? || (ev.Mount? && !p.loadOnScreen)
    requires !Truthy(s.componentToRender)
    ensures Step(p, s, ev).None? <==> LoadThrows(p.produced)
    ensures Step(p, s, ev).Some? ==>
              && Step(p, s, ev).value.loading
              && Pending(Step(p, s, ev).value) == Pending(s) + 1
              && ViewOf(p, Step(p, s, ev).value) == Wrapper(p.hasPlaceholder)
  {
  }

  /** A plain result reaches the screen on the timer, and loading is then off. */
  lemma {:induction false} PlainResultAfterTimeout(p: Props, start: seq<Event>)
    requires start == if p.loadOnScreen then [Mount, Intersect] else [Mount]
    requires !LoadThrows(p.produced) && !IsThenable(p.produced)
    ensures Run(p, Initial, start).Some?
    ensures ViewOf(p, Run(p, Initial, start).value).Wrapper?
    ensures Run(p, Initial, start + [TimeoutFires]).Some?
    ensures var t := Run(p, Initial, start + [TimeoutFires]).value;
            !t.loading && t.componentToRender == p.produced
            && ViewOf(p, t) == if Truthy(p.produced) then Content(p.produced) else Wrapper(false)
  {
    assert !Truthy(Initial.componentToRender) && Initial.timeouts + [p.produced] == [p.produced];
    var loadingState := Initial.(loading := true, timeouts := [p.produced]);
    assert Step(p, Initial, Mount) == if p.loadOnScreen then Some(Initial) else Some(loadingState);
    assert Step(p, Initial, Intersect) == Some(loadingState);
    var done := Initial.(componentToRender := p.produced);
    assert loadingState.timeouts[1..] == [];
    assert Step(p, loadingState, TimeoutFires) == Some(done);
    if p.loadOnScreen {
      assert start[1..] == [Intersect] && [Intersect][1..] == [];
      assert Run(p, Initial, start) == Run(p, loadingState, []);
      assert (start + [TimeoutFires])[1..] == [Intersect, TimeoutFires];
      assert Run(p, Initial, [Intersect, TimeoutFires]) == Run(p, loadingState, [TimeoutFires]);
    } else {
      assert start[1..] == [];
      assert Run(p, Initial, start) == Run(p, loadingState, []);
      assert (start + [TimeoutFires])[1..] == [TimeoutFires];
    }
    assert Run(p, loadingState, [TimeoutFires]) == Run(p, done, []);
  }

  /**
   * A promise result: on resolution loading is off and the normalised value is
   * installed, so a function or a module with a default function is shown and
   * anything else leaves an empty wrapper.
   */
  lemma {:induction false} PromiseResultOnResolution(p: Props, mod: Value)
    requires !p.loadOnScreen && !Nullish(p.produced) && IsThenable(p.produced)
    ensures Run(p, Initial, [Mount, Resolved(mod)]).Some?
    ensures var t := Run(p, Initial, [Mount, Resolved(mod)]).value;
            && !t.loading
            && Pending(t) == 0
            && ViewOf(p, t) == if Normalize(mod).Function? then Content(Normalize(mod)) else Wrapper(false)
  {
    assert !Truthy(Initial.componentToRender);
    var loadingState := Initial.(loading := true, awaiting := 1);
    assert Step(p, Initial, Mount) == Some(loadingState);
    var done := Initial.(componentToRender := Normalize(mod));
    assert Step(p, loadingState, Resolved(mod)) == Some(done);
    assert [Mount, Resolved(mod)][1..] == [Resolved(mod)];
    assert Run(p, loadingState, [Resolved(mod)]) == Run(p, done, []);
  }

  /** The outcome of an event method: done, or what was thrown. */
  datatype Outcome = Done | ObserveFailed(error: Observer.Error) | RenderThrew

  /** The outcome `observe` itself returned, for a gated mount. */
  function ObserveOutcome(r: Outcome): Observer.Outcome
  {
    if r.ObserveFailed? then Observer.Fail(r.error) else Observer.Pass
  }

  /** A mounted `Defer`: its state, the work it left pending, and its wrapper element. */
  class DeferComponent {
    const props: Props
    var loading: bool
    var componentToRender: Value
    var timeouts: seq<Value>
    var awaiting: nat
    var observedElRef: Option<Observer.ElementId>

    function Snapshot(): State
      reads this
    {
      State(loading, componentToRender, timeouts, awaiting)
    }

    /** `constructor`: not loading, nothing to render. */
    constructor (props: Props)
      ensures this.props == props && Snapshot() == Initial && observedElRef == None
    {
      this.props := props;
      loading, componentToRender := false, Bool(false);
      timeouts, awaiting := [], 0;
      observedElRef := None;
    }

    /** `loadComponent`: call the producer and schedule the install of its result. */
    method LoadComponent() returns (r: Outcome)
      modifies this
      ensures r != Done <==> LoadComponentStep(props, old(Snapshot())).None?
      ensures r == Done || r == RenderThrew
      ensures Snapshot() == After(LoadComponentStep(props, old(Snapshot())), old(Snapshot()))
      ensures observedElRef == old(observedElRef)
    {
      var result := props.produced;
      if Nullish(result) {
        return RenderThrew;
      }
      if Truthy(Prop(result, "then")) {
        if !IsThenable(result) {
          return RenderThrew;
        }
        awaiting := awaiting + 1;
      } else {
        timeouts := timeouts + [result];
      }
      r := Done;
    }

    /** The render pass after a state update: the loading branch calls `loadComponent`. */
    method Render() returns (r: Outcome)
      modifies this
      ensures r != Done <==> RenderStep(props, old(Snapshot())).None?
      ensures r == Done || r == RenderThrew
      ensures Snapshot() == After(RenderStep(props, old(Snapshot())), old(Snapshot()))
      ensures observedElRef == old(observedElRef)
    {
      r := Done;
      if !Truthy(componentToRender) && loading {
        r := LoadComponent();
      }
    }

    /** `didMount`: register the wrapper with the watcher, or start loading at once. */
    method DidMount(registry: Observer.IntersectionRegistry) returns (r: Outcome)
      modifies this, registry
      ensures observedElRef == old(observedElRef)
      ensures props.loadOnScreen ==>
                && Snapshot() == old(Snapshot())
                && !r.RenderThrew?
                && Observer.ObserveEffect(registry.supported, old(registry.watched), registry.watched,
                                          observedElRef, ObserveOutcome(r))
      ensures !props.loadOnScreen ==>
                && registry.watched == old(registry.watched)
                && (r != Done <==> Step(props, old(Snapshot()), Mount).None?)
                && (r == Done || r == RenderThrew)
                && Snapshot() == After(Step(props, old(Snapshot()), Mount), old(Snapshot()).(loading := true))
    {
      if props.loadOnScreen {
        var observed := registry.Observe(observedElRef);
        r := if observed.Fail? then ObserveFailed(observed.error) else Done;
      } else {
        loading := true;
        r := Render();
      }
    }

    /** The wrapper's `onIntersection` hook: start loading. */
    method OnIntersection() returns (r: Outcome)
      modifies this
      ensures observedElRef == old(observedElRef)
      ensures r != Done <==> Step(props, old(Snapshot()), Intersect).None?
      ensures r == Done || r == RenderThrew
      ensures Snapshot() == After(Step(props, old(Snapshot()), Intersect), old(Snapshot()).(loading := true))
    {
      loading := true;
      r := Render();
    }

    /** The zero-delay timer set for a plain result: install it and stop loading. */
    method TimeoutFires()
      requires timeouts != []
      modifies this
      ensures observedElRef == old(observedElRef)
      ensures Step(props, old(Snapshot()), Event.TimeoutFires) == Some(Snapshot())
      ensures componentToRender == old(timeouts[0]) && !loading
    {
      componentToRender := timeouts[0];
      loading := false;
      timeouts := timeouts[1..];
    }

    /** The continuation of a promise result: install the normalised value and stop loading. */
    method PromiseResolves(mod: Value)
      requires awaiting > 0
      modifies this
      ensures observedElRef == old(observedElRef)
      ensures Step(props, old(Snapshot()), Resolved(mod)) == Some(Snapshot())
      ensures componentToRender == Normalize(mod) && !loading
    {
      var cmpToRender := Undefined;
      if Truthy(mod) {
        if mod.Function? {
          cmpToRender := mod;
        } else if Prop(mod, "default").Function? {
          cmpToRender := Prop(mod, "default");
        }
      }
      loading := false;
      componentToRender := cmpToRender;
      awaiting := awaiting - 1;
    }

    /** `willUnmount`: drop the element; pending completions still apply. */
    method WillUnmount()
      modifies this
      ensures observedElRef == None
      ensures Snapshot() == old(Snapshot()) && Step(props, old(Snapshot()), Unmount) == Some(Snapshot())
    {
      observedElRef := None;
    }

    /** The wrapper's ref callback: keep the element and give it the hook, or drop it on null. */
    method AttachObservedElRef(doc: Observer.Document, el: Option<Observer.ElementId>)
      modifies this, doc
      ensures observedElRef == el
      ensures doc.hooked == if el.Some? then old(doc.hooked) + {el.value} else old(doc.hooked)
      ensures Snapshot() == old(Snapshot())
    {
      if el.Some? {
        observedElRef := el;
        doc.SetHook(el.value);
      } else {
        observedElRef := None;
      }
    }
  }
}
