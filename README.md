# react-progressive-loader in Dafny

A model of the core of react-progressive-loader, a React library that defers work until
it is needed. The model covers three parts:

- **The intersection watcher** (`observer.dfy`, module `Observer`). This is a single,
  module-wide registry of watched page elements. It is fed by the platform's
  viewport-intersection facility. `observe(el)` registers an element, and throws when the
  facility is missing. The watcher's callback handles every entry of a batch that reports
  its element as intersecting: it runs the element's `onIntersection` hook, when there is
  one, and then stops watching the element. So each hook is one-shot.
- **`Defer`** (`defer.dfy`, module `Defer`). A component that shows an empty wrapper,
  then optionally a placeholder while loading, then the component produced by its
  `render` prop. The producer's result is installed on a zero-delay timer when it is a
  plain value. When it is a promise, the result is installed on resolution, after
  normalisation: a function is kept, otherwise a `default` function is taken. With
  `loadOnScreen`, loading waits until the wrapper intersects the viewport.
- **`Img`** (`img.dfy`, module `Img`). A progressive image. The wrapper reserves the
  image's height: the `aspectRatio` prop if given, else the ratio found from a loaded
  image, else one half. A blurred placeholder and the main image load independently. Each
  load completion applies only while the component is mounted. The main image's
  completion starts an `afterAF(…, 5)` countdown, which marks the image ready six
  animation frames later. Readiness fades the main image in (opacity 0.1 to 1) and the
  placeholder out (0.99 to 0).

Each component is modelled in two forms:

- A pure `State`, with `Step`/`Run` functions over the events the platform delivers
  (mount, intersection, timer, promise resolution, image load, animation frame, unmount).
  The trace lemmas are proved about this form.
- A `class` whose fields are the component's state. Its event methods update those
  fields in place and are proved to follow `Step`.

The platform's work is explicit state: pending timers, pending promise continuations,
pending image loads and queued animation-frame countdowns. Page elements are `nat`
identities. A `Document` object records which elements carry an `onIntersection` hook.
`Dispatch` returns the hook calls and unobserves in order, and the caller runs the
component's `OnIntersection` for each `Fire`. `scenarios.dfy` wires the pieces together,
as the repository's tests do.

## Model

| member | source | states |
|---|---|---|
| Observer.Document.SetHook | src/defer.tsx:71-76 | after a ref callback installs the hook, the element is among the hooked ones, and nothing else is added |
| Observer.IntersectionRegistry.constructor | src/observer.ts:5-17 | the watcher starts with nothing watched; whether the facility exists is fixed |
| Observer.IntersectionRegistry.Observe | src/observer.ts:19-24 | without the facility, observe fails with Unsupported and watches nothing; a null element is rejected; otherwise the element joins the watched set |
| Observer.IntersectionRegistry.Dispatch | src/observer.ts:8-16 | the callback performs exactly the hook calls and unobserves of `DispatchActions`, and the watched set loses exactly the reported elements |
| Observer.FiresIff | src/observer.ts:10-12 | an element's hook runs in a batch if and only if the element has a hook and the batch reports it intersecting |
| Observer.UnobservesIff | src/observer.ts:10-13 | an element is unobserved if and only if the batch reports it intersecting, hook or not |
| Observer.HookBeforeUnobserve | src/observer.ts:12-13 | every hook call is immediately followed by the unobserve of the same element |
| Observer.QuietBatch | src/observer.ts:10 | a batch with no intersecting entry reports nothing and calls nothing |
| Observer.FiresOncePerBatch | src/observer.ts:9-14 | in a batch that names each element once, each hooked and reported element's hook runs exactly once, and no other hook runs |
| Observer.DuplicateEntriesFireTwice | src/observer.ts:9-14 | as written, two intersecting entries for one element in one batch run its hook twice |
| Observer.OneShot | src/observer.ts:8-24 | over any sequence of platform batches with no re-registration, an element's hook runs at most once, and never if it was not watched at the start |
| Defer.Normalize | src/defer.tsx:86-94 | a resolved value becomes a function or undefined; it is a function exactly when the value is a function or a module whose `default` is one |
| Defer.LoadComponentStep | src/defer.tsx:82-109 | calling the producer fails exactly when reading `then` throws (a null or undefined result) or calling it does (`then` truthy but not a function); otherwise it leaves one more completion pending: a promise continuation when `then` is a function, else a timer carrying the result |
| Defer.NonCallableThenThrows | src/defer.tsx:84-85 | a result whose `then` is `true` makes `loadComponent`, and so the hook's render, throw |
| Defer.Step | src/defer.tsx:29-109 | only entering loading (mount without `loadOnScreen`, or the hook) can throw, and only when the result makes `loadComponent` throw; mount, the hook and unmount never change the installed content; each event adds at most one pending completion |
| Defer.ViewOf | src/defer.tsx:29-37 | content is shown exactly when a truthy value is installed, and it is that value; the placeholder is shown only while loading and when given |
| Defer.StepKeepsLoadingPending | src/defer.tsx:29-109 | every event keeps the invariant that a shown placeholder has a completion on its way |
| Defer.RunKeepsLoadingPending | src/defer.tsx:29-109 | the same invariant holds after any run of events |
| Defer.NoContentWithoutCompletion | src/defer.tsx:29-80 | mount, the hook and unmount never install content; until a completion arrives, the wrapper is shown |
| Defer.GatedWaitsForIntersection | src/defer.tsx:59-65 | with `loadOnScreen`, no event other than the hook changes the state, and only the empty wrapper is shown |
| Defer.StartLoading | src/defer.tsx:35-36 | entering loading calls the producer once: it throws exactly when `loadComponent` does (null or undefined result, or a non-callable truthy `then`), and otherwise shows the placeholder if given, with one completion pending |
| Defer.PlainResultAfterTimeout | src/defer.tsx:101-108 | a plain result (not null or undefined, `then` falsy) is shown once the zero-delay timer runs, both with and without `loadOnScreen`, and loading is then off |
| Defer.PromiseResultOnResolution | src/defer.tsx:84-100 | a promise result: on resolution loading is off, nothing is pending, and the normalised value is shown, or an empty wrapper when it is not a function |
| Defer.DeferComponent.constructor | src/defer.tsx:52-57 | not loading, nothing to render, no element |
| Defer.DeferComponent.LoadComponent | src/defer.tsx:82-109 | the fields follow `LoadComponentStep`; a null or undefined result, or a truthy `then` that is not a function, is reported as a render error and changes nothing |
| Defer.DeferComponent.Render | src/defer.tsx:29-37 | the loading branch with nothing installed calls `loadComponent`; otherwise the state is untouched |
| Defer.DeferComponent.DidMount | src/defer.tsx:59-65 | with `loadOnScreen`, the wrapper element is registered, with observe's own outcome, and the state is untouched; otherwise loading starts as `Step(Mount)` says |
| Defer.DeferComponent.OnIntersection | src/defer.tsx:74-76 | the hook starts loading, as `Step(Intersect)` says |
| Defer.DeferComponent.TimeoutFires | src/defer.tsx:102-107 | the oldest timer installs its result and turns loading off |
| Defer.DeferComponent.PromiseResolves | src/defer.tsx:85-99 | the continuation installs the normalised value and turns loading off |
| Defer.DeferComponent.WillUnmount | src/defer.tsx:67-69 | unmounting drops the element reference and leaves the state as it is |
| Defer.DeferComponent.AttachObservedElRef | src/defer.tsx:71-80 | the ref callback keeps the element and gives it the hook, or drops it on null |
| Img.NextFrameCounts | src/img.tsx:12-13 | one animation frame runs every due callback, so each countdown at 0 leaves the queue, and requeues each other countdown exactly one lower: afterwards the queue holds `v` exactly as often as it held `v + 1` before |
| Img.AfterAFCountdown | src/img.tsx:11-14 | `afterAF(fn, n)` keeps one callback queued, one lower after each frame, until it runs |
| Img.AfterAFRunsExactly | src/img.tsx:11-14 | `afterAF(fn, n)` runs `fn` at the (n+1)-th animation frame and at no other |
| Img.Step | src/img.tsx:122-168 | each flag is set only by its own event: the placeholder and main-image flags and the ratio only by their load while mounted, readiness only by an animation frame, `mounted` only by mount and unmount |
| Img.StepKeepsValid | src/img.tsx:122-168 | every event keeps the invariant that readiness and a running countdown imply a loaded main image |
| Img.RunKeepsValid | src/img.tsx:122-168 | the same invariant holds after any run of events |
| Img.ReadyAfterCountdown | src/img.tsx:11-14 | with one countdown `n` queued, the image is ready after k frames if and only if k > n |
| Img.ReadySixFramesAfterLoad | src/img.tsx:132-144 | a mounted main-image load sets `imageLoaded` and the ratio at once; `imageReady` follows after exactly six frames, and not before |
| Img.UnmountedIgnoresLoads | src/img.tsx:125-135 | load completions after unmount leave the loaded flags and the ratio unchanged |
| Img.GatedRequestsNothing | src/img.tsx:156-163 | with `loadOnScreen`, no image is requested and nothing changes but `mounted` until the wrapper's hook runs |
| Img.IntersectRequests | src/img.tsx:122-149 | the hook requests the main image, and the placeholder too when there is one |
| Img.PaddingBottom | src/img.tsx:174-177 | a number gives a percentage, 100 times the ratio; anything else gives the falsy 0 (None); a ratio of 0 still gives a value |
| Img.ReservedHeight | src/img.tsx:74-78 | the reserved height is 100 × the prop ratio when given, else 100 × the ratio found, else 50 percent (a ratio of 0 still counts as given) |
| Img.ViewOf | src/img.tsx:82-97 | a transparent placeholder implies an opaque main image; before readiness neither is at its final opacity |
| Img.ProgressiveReveal | src/img.tsx:74-97 | mounted without `loadOnScreen`: placeholder at 0.99, then the main image at 0.1, unchanged for five frames, then 1 and 0 at the sixth; the height follows the last ratio found |
| Img.ImgComponent.constructor | src/img.tsx:114-120 | all flags off, no ratio, no element |
| Img.ImgComponent.BeginImgLoad | src/img.tsx:122-145 | one more main-image load is pending, plus one placeholder load exactly when there is a placeholder |
| Img.ImgComponent.AttachWrapperElRef | src/img.tsx:147-154 | the ref callback gives the element the hook and keeps it, or drops it on null |
| Img.ImgComponent.DidMount | src/img.tsx:156-163 | marks mounted; with `loadOnScreen`, registers the wrapper, with observe's outcome; otherwise requests the images |
| Img.ImgComponent.OnIntersection | src/img.tsx:149 | the hook requests the images, as `Step(Intersect)` says |
| Img.ImgComponent.PlaceholderLoaded | src/img.tsx:124-129 | while mounted, the placeholder shows and its ratio is recorded; once unmounted, only the pending count drops |
| Img.ImgComponent.ImageLoaded | src/img.tsx:132-143 | while mounted, the main image shows, its ratio is recorded and a 5-countdown is queued; once unmounted, only the pending count drops |
| Img.ImgComponent.AnimationFrame | src/img.tsx:11-14 | a frame marks the image ready exactly when a countdown was due, and counts down the others |
| Img.ImgComponent.WillUnmount | src/img.tsx:165-168 | corrected: unmounting marks unmounted and drops the wrapper element |
| Img.ImgComponent.WillUnmountAsWritten | src/img.tsx:165-168 | as written: unmounting clears `observedElRef`, a field nothing reads, and keeps the wrapper element |
| Scenarios.ObserveWithoutWatcher | specs/observer.spec.tsx:8-12 | without the facility, observe fails with Unsupported |
| Scenarios.ObserveThenIntersect | specs/observer.spec.tsx:19-48 | an observed, hooked element runs its hook on intersection and is unobserved; nothing is left watched, so the platform can no longer report it, and `Observer.OneShot` rules out a second hook call |
| Scenarios.DeferOnScreen | specs/defer.spec.tsx:107-132 | with `loadOnScreen` and a producer returning a rendered element: the empty wrapper, then the placeholder after the hook, then the element after the timer |
| Scenarios.ImgReveal | specs/img.spec.tsx:90-100 | the placeholder, then the faint main image, and after six frames the opaque main image over a transparent placeholder |
| Scenarios.ImgLoadAfterUnmount | src/img.tsx:132-133 | unmounted by `willUnmount` as written: a main image that arrives after unmount never shows, and the height stays at 50 percent |

## Left out

- The platform's facilities are not modelled. These are the intersection facility,
  timers, promises, `requestAnimationFrame` (or the `setTimeout` fallback) and image
  decoding. Their deliveries are events, or arguments of `Dispatch`, and their order is
  left to the caller.
- React's rendering, the render-prop helpers and re-render counts are not modelled. The
  render pass that follows each state update is folded into `Step`. React ignoring a state
  update after unmount is not modelled either: the `Defer` completions and the
  `imageReady` update apply regardless.
- Styles, class names, `bgColor`, `sizes`, `alt` and the wrapper's other pass-through
  attributes are left out. These are presentation only.
- Image ratios are `real`. Floating point, `NaN` and `Infinity` from a zero-width image
  are not modelled, and neither is the percentage string built from the ratio.
- `Defer.Props`: the producer returns the same value on every call. A producer that
  returns different values, or throws, is not modelled. JavaScript values are a small
  datatype. Functions are known by name, and any property read on them is `undefined`.
- `Observer.IntersectionRegistry.Observe`: passing `null` to the facility is modelled as
  a rejection (`NotAnElement`) that changes nothing. Whether the platform throws here is
  outside the model.
- `Observer.IntersectionRegistry.Dispatch` models the callback for one batch. Which
  batches the facility delivers is stated only by `PlatformBatch`/`PlatformRun` in
  `Observer.OneShot`, and that a batch names each element once is an assumption there.
  Hooks are assumed to return. A hook that throws (for `Defer`, a render that throws
  in `Defer.DeferComponent.OnIntersection`) stops the callback at that entry: the
  element is not unobserved, stays watched, and the rest of the batch is skipped. The
  model does not capture this truncation.
- `Defer.LoadComponentStep`: a `then` that is a function is taken to behave like a promise's,
  running the continuation once, later, with the resolved value. A `then` that throws, never
  calls back or calls back twice is not modelled.
- `src/on-screen.tsx` is not part of this model.
- As the code is written:
  - A promise that resolves to something that is neither a function nor a module with a
    `default` function leaves an empty wrapper with loading off, not a stuck placeholder
    (`Defer.PromiseResultOnResolution`).
  - `Defer` has no mounted guard.
  - The watcher's callback does not check that a reported element is still watched
    (`Observer.DuplicateEntriesFireTwice`).
  - The `imageReady` update has no mounted guard.

## Findings

| source | as written | input that shows it | evidently intended | confidence | as-written member | corrected member |
|---|---|---|---|---|---|---|
| src/img.tsx:165-168 | `willUnmount` clears `observedElRef`, a field `Img` never sets or reads, so its own `domRef` still holds the wrapper element after unmount | mount an `Img`, then unmount it: `domRef` keeps the element | clear `domRef`, the field `Img` does use, as `Defer` does with its own element field | low, not executed; React's ref callback with `null` usually clears `domRef` as well | Img.ImgComponent.WillUnmountAsWritten | Img.ImgComponent.WillUnmount |
