/**
 * Whole-component scenarios: the watcher, the document and a component wired
 * together the way the platform drives them, each ending in what is on screen.
 * The intersection hook is run by the caller for each `Fire` action `Dispatch`
 * returns, as the watcher's callback does.
 */
module Scenarios {
  import opened Common
  import Observer
  import Defer
  import Img

  /** Without the watcher facility, `observe` reports that the platform is unsupported. */
  method ObserveWithoutWatcher() returns (r: Observer.Outcome)
    ensures r == Observer.Fail(Observer.Unsupported)
  {
    var registry := new Observer.IntersectionRegistry(false);
    r := registry.Observe(None);
  }

  /**
   * An observed, hooked element: its hook runs once it intersects, and it is
   * unobserved straight after. The platform then reports it no more, so by
   * `Observer.OneShot` no later batch runs its hook again.
   */
  method ObserveThenIntersect(el: Observer.ElementId)
    returns (first: seq<Observer.Action>, left: set<Observer.ElementId>)
    ensures first == [Observer.Fire(el), Observer.Unobserve(el)]
    ensures left == {}
    ensures !Observer.PlatformBatch(left, [Observer.Entry(el, true)])
  {
    var doc := new Observer.Document();
    doc.SetHook(el);
    var registry := new Observer.IntersectionRegistry(true);
    var r := registry.Observe(Some(el));
    assert r == Observer.Pass && registry.watched == {el};
    first := registry.Dispatch(doc, [Observer.Entry(el, true)]);
    assert [Observer.Entry(el, true)][..0] == [];
    left := registry.watched;
    assert [Observer.Entry(el, true)][0].target !in left;
  }

  /**
   * A `Defer` with `loadOnScreen` and a placeholder, whose producer returns a
   * rendered element (an object with no `then`): nothing but the empty wrapper
   * until the wrapper intersects, then the placeholder, and the element once the
   * zero-delay timer has run.
   */
  method DeferOnScreen(el: Observer.ElementId)
    returns (beforeHook: Defer.View, whileLoading: Defer.View, loaded: Defer.View)
    ensures beforeHook == Defer.Wrapper(false)
    ensures whileLoading == Defer.Wrapper(true)
    ensures loaded == Defer.Content(Defer.Object(map["type" := Defer.Function("DeferredComp")]))
  {
    var element := Defer.Object(map["type" := Defer.Function("DeferredComp")]);
    assert "then" !in element.fields;
    var props := Defer.Props(element, true, true);
    var doc := new Observer.Document();
    var registry := new Observer.IntersectionRegistry(true);
    var cmp := new Defer.DeferComponent(props);
    cmp.AttachObservedElRef(doc, Some(el));
    var mounted := cmp.DidMount(registry);
    assert registry.watched == {el};
    beforeHook := Defer.ViewOf(props, cmp.Snapshot());

    var actions := registry.Dispatch(doc, [Observer.Entry(el, true)]);
    assert [Observer.Entry(el, true)][..0] == [];
    assert actions[0] == Observer.Fire(el);
    var hooked := cmp.OnIntersection();
    assert cmp.timeouts == [props.produced];
    whileLoading := Defer.ViewOf(props, cmp.Snapshot());

    cmp.TimeoutFires();
    loaded := Defer.ViewOf(props, cmp.Snapshot());
  }

  /**
   * An `Img` with a placeholder and no `loadOnScreen`: the placeholder shows nearly
   * opaque, the main image shows faint once loaded, and after six animation frames
   * the main image is opaque and the placeholder transparent.
   */
  method ImgReveal(r1: real, r2: real)
    returns (placeholderShown: Img.View, imageShown: Img.View, fiveFrames: Img.View, sixFrames: Img.View)
    ensures placeholderShown == Img.View(100.0 * r1, None, Some(0.99))
    ensures imageShown == Img.View(100.0 * r2, Some(0.1), Some(0.99))
    ensures fiveFrames == imageShown
    ensures sixFrames == Img.View(100.0 * r2, Some(1.0), Some(0.0))
  {
    var props := Img.Props("img.jpg", "", "placeholder.jpg", None, false);
    var registry := new Observer.IntersectionRegistry(true);
    var cmp := new Img.ImgComponent(props);
    var mounted := cmp.DidMount(registry);
    cmp.PlaceholderLoaded(r1);
    placeholderShown := Img.ViewOf(props, cmp.Snapshot());
    cmp.ImageLoaded(r2);
    imageShown := Img.ViewOf(props, cmp.Snapshot());

    var before := cmp.Snapshot();
    var k := 0;
    while k < 5
      invariant 0 <= k <= 5
      invariant cmp.Valid() && cmp.props == props
      invariant cmp.Snapshot() == Img.Ticks(before, k)
      modifies cmp
    {
      cmp.AnimationFrame();
      Img.TicksSplit(before, k);
      k := k + 1;
    }
    Img.ReadyAfterCountdown(before, Img.ReadyDelay, 5);
    Img.TicksKeepLoads(before, 5);
    fiveFrames := Img.ViewOf(props, cmp.Snapshot());
    cmp.AnimationFrame();
    Img.TicksSplit(before, 5);
    Img.ReadyAfterCountdown(before, Img.ReadyDelay, 6);
    Img.TicksKeepLoads(before, 6);
    sixFrames := Img.ViewOf(props, cmp.Snapshot());
  }

  /**
   * An `Img` unmounted, by `willUnmount` as written, before its main image arrives:
   * the late load is ignored and the main image never shows.
   */
  method ImgLoadAfterUnmount(ratio: real) returns (v: Img.View)
    ensures v == Img.View(50.0, None, None)
  {
    var props := Img.Props("img.jpg", "", "", None, false);
    var registry := new Observer.IntersectionRegistry(true);
    var cmp := new Img.ImgComponent(props);
    var mounted := cmp.DidMount(registry);
    cmp.WillUnmountAsWritten();
    cmp.ImageLoaded(ratio);
    v := Img.ViewOf(props, cmp.Snapshot());
  }
}
