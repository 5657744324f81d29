/**
 * The `Img` component: a wrapper that reserves the image's height and two image
 * loads that race independently, a blurred placeholder and the main image. Each
 * completion is applied only while the component is mounted; the main image's
 * completion marks the image ready `ReadyDelay + 1` animation frames later, which
 * fades the main image in and the placeholder out.
 *
 * `State` and `Step` give the behaviour as a function of the events the platform
 * delivers; `ImgComponent` is the component object, whose event methods update its
 * fields in place and are proved to follow `Step`.
 */
module Img {
  import opened Common
  import Observer

  /** The countdown `afterAF` is started with when the main image has loaded. */
  const ReadyDelay: nat := 5

  /**
   * The props the core reads. A missing string prop is "" (both are falsy);
   * `aspectRatio` is None when it is not a number.
   */
  datatype Props = Props(src: string, srcSet: string, placeholderSrc: string,
                         aspectRatio: Option<real>, loadOnScreen: bool)

  /**
   * The component state, plus the work left with the platform: image loads
   * requested whose load event has not arrived, and the `afterAF` countdowns
   * waiting for the next animation frame.
   */
  datatype State = State(
    placeholderLoaded: bool,
    imageLoaded: bool,
    imageReady: bool,
    aspectRatio: Option<real>,
    mounted: bool,
    placeholderLoads: nat,
    imageLoads: nat,
    frames: seq<nat>)

  /** The state the constructor sets up. */
  const Initial := State(false, false, false, None, false, 0, 0, [])

  /** What one frame leaves of a single countdown. */
  function FrameHead(x: nat): seq<nat>
  {
    if x == 0 then [] else [x - 1]
  }

  /**
   * One animation frame for the queued `afterAF` callbacks: a countdown at 0
   * runs its function (and is gone), any other is queued again one lower.
   */
  function NextFrame(frames: seq<nat>): seq<nat>
  {
    if frames == [] then []
    else FrameHead(frames[0]) + NextFrame(frames[1..])
  }

  /**
   * A frame runs every due callback (each countdown at 0 leaves the queue) and
   * requeues each of the others exactly one lower: the queue after holds `v` as
   * often as the queue before held `v + 1`.
   */
  lemma {:induction false} NextFrameCounts(frames: seq<nat>)
    ensures |NextFrame(frames)| + multiset(frames)[0] == |frames|
    ensures forall v: nat :: multiset(NextFrame(frames))[v] == multiset(frames)[v + 1]
  {
    NextFrameLength(frames);
    forall v: nat
      ensures multiset(NextFrame(frames))[v] == multiset(frames)[v + 1]
    {
      NextFrameCountOf(frames, v);
    }
  }

  lemma {:induction false} NextFrameLength(frames: seq<nat>)
    ensures |NextFrame(frames)| + multiset(frames)[0] == |frames|
  {
    if frames != [] {
      var rest := frames[1..];
      NextFrameLength(rest);
      assert frames == [frames[0]] + rest;
      assert multiset(frames) == multiset{frames[0]} + multiset(rest);
    }
  }

  lemma {:induction false} NextFrameCountOf(frames: seq<nat>, v: nat)
    ensures multiset(NextFrame(frames))[v] == multiset(frames)[v + 1]
  {
    if frames != [] {
      var rest := frames[1..];
      NextFrameCountOf(rest, v);
      assert frames == [frames[0]] + rest;
      assert multiset(frames) == multiset{frames[0]} + multiset(rest);
      assert multiset(NextFrame(frames)) == multiset(FrameHead(frames[0])) + multiset(NextFrame(rest));
      FrameHeadCounts(frames[0], v);
    }
  }

  lemma FrameHeadCounts(x: nat, v: nat)
    ensures multiset(FrameHead(x))[v] == multiset{x}[v + 1]
  {
  }

  /** One frame for a single countdown. */
  lemma NextFrameSingle(n: nat)
    ensures NextFrame([n]) == if n == 0 then [] else [n - 1]
  {
    assert [n][1..] == [];
    assert NextFrame([n][1..]) == [];
  }

  /** The countdowns still queued after `ticks` frames. */
  function FramesAfter(frames: seq<nat>, ticks: nat): seq<nat>
    decreases ticks
  {
    if ticks == 0 then frames else FramesAfter(NextFrame(frames), ticks - 1)
  }

  /** `afterAF(fn, n)` keeps one callback queued, counting down once per frame, until it runs. */
  lemma {:induction false} AfterAFCountdown(n: nat, ticks: nat)
    ensures FramesAfter([n], ticks) == if ticks <= n then [n - ticks] else []
    decreases ticks
  {
    if ticks > 0 {
      NextFrameSingle(n);
      if n == 0 {
        EmptyStaysEmpty(ticks - 1);
      } else {
        AfterAFCountdown(n - 1, ticks - 1);
      }
    }
  }

  lemma {:induction false} EmptyStaysEmpty(ticks: nat)
    ensures FramesAfter([], ticks) == []
    decreases ticks
  {
    if ticks > 0 {
      EmptyStaysEmpty(ticks - 1);
    }
  }

  /** `afterAF(fn, n)` runs `fn` at the (n+1)-th animation frame, and at no other. */
  lemma AfterAFRunsExactly(n: nat, frame: nat)
    requires frame >= 1
    ensures 0 in FramesAfter([n], frame - 1) <==> frame == n + 1
  {
    AfterAFCountdown(n, frame - 1);
  }

  /** `beginImgLoad`: request the placeholder when there is one, and always the main image. */
  function BeginImgLoadStep(p: Props, s: State): State
  {
    s.(placeholderLoads := s.placeholderLoads + (if p.placeholderSrc != "" then 1 else 0),
       imageLoads := s.imageLoads + 1)
  }

  /** An animation frame: due countdowns set `imageReady`, the others count down. */
  function FrameStep(s: State): State
  {
    s.(frames := NextFrame(s.frames), imageReady := s.imageReady || 0 in s.frames)
  }

  /** The events the platform delivers to the component. */
  datatype Event =
    | Mount                        // didMount
    | Intersect                    // the wrapper's onIntersection hook
    | PlaceholderLoad(ratio: real) // the placeholder image fired onload; ratio = height / width
    | ImageLoad(ratio: real)       // the main image fired onload
    | AnimationFrame
    | Unmount                      // willUnmount

  /**
   * Each flag is set only by its own event: the loads only while mounted,
   * readiness only on a frame, and `mounted` only by mount and unmount.
   */
  function Step(p: Props, s: State, ev: Event): (r: State)
    ensures r.placeholderLoaded != s.placeholderLoaded ==> ev.PlaceholderLoad? && s.mounted && r.placeholderLoaded
    ensures r.imageLoaded != s.imageLoaded ==> ev.ImageLoad? && s.mounted && r.imageLoaded
    ensures r.imageReady != s.imageReady ==> ev.AnimationFrame? && r.imageReady
    ensures r.aspectRatio != s.aspectRatio ==> s.mounted && (ev.PlaceholderLoad? || ev.ImageLoad?)
    ensures r.mounted != s.mounted ==> ev.Mount? || ev.Unmount?
  {
    match ev
    case Mount =>
      var m := s.(mounted := true);
      if p.loadOnScreen then m else BeginImgLoadStep(p, m)
    case Intersect => BeginImgLoadStep(p, s)
    case PlaceholderLoad(ratio) =>
      if s.placeholderLoads == 0 then s
      else
        var t := s.(placeholderLoads := s.placeholderLoads - 1);
        if s.mounted then t.(placeholderLoaded := true, aspectRatio := Some(ratio)) else t
    case ImageLoad(ratio) =>
      if s.imageLoads == 0 then s
      else
        var t := s.(imageLoads := s.imageLoads - 1);
        if s.mounted then t.(imageLoaded := true, aspectRatio := Some(ratio), frames := s.frames + [ReadyDelay])
        else t
    case AnimationFrame => FrameStep(s)
    case Unmount => s.(mounted := false)
  }

  function Run(p: Props, s: State, events: seq<Event>): State
    decreases |events|
  {
    if events == [] then s else Run(p, Step(p, s, events[0]), events[1..])
  }

  /** The state after `ticks` animation frames and no other event. */
  function Ticks(s: State, ticks: nat): State
    decreases ticks
  {
    if ticks == 0 then s else Ticks(FrameStep(s), ticks - 1)
  }

  /** One more frame after `ticks` frames. */
  lemma {:induction false} TicksSplit(s: State, ticks: nat)
    ensures Ticks(s, ticks + 1) == FrameStep(Ticks(s, ticks))
    decreases ticks
  {
    if ticks > 0 {
      TicksSplit(FrameStep(s), ticks - 1);
    }
  }

  /** The image is marked ready only once it has loaded, and only loaded images have a countdown running. */
  ghost predicate StateValid(s: State)
  {
    s.imageReady || s.frames != [] ==> s.imageLoaded
  }

  lemma NextFrameEmpty(frames: seq<nat>)
    requires frames == []
    ensures NextFrame(frames) == []
  {
  }

  lemma StepKeepsValid(p: Props, s: State, ev: Event)
    requires StateValid(s)
    ensures StateValid(Step(p, s, ev))
  {
    if ev.AnimationFrame? && s.frames == [] {
      NextFrameEmpty(s.frames);
    }
  }

  /** `StateValid` holds in every state reachable from the initial one. */
  lemma {:induction false} RunKeepsValid(p: Props, s: State, events: seq<Event>)
    requires StateValid(s)
    ensures StateValid(Run(p, s, events))
    decreases |events|
  {
    if events != [] {
      StepKeepsValid(p, s, events[0]);
      RunKeepsValid(p, Step(p, s, events[0]), events[1..]);
    }
  }

  /** With one countdown `n` queued, the image becomes ready at the (n+1)-th frame and not before. */
  lemma {:induction false} ReadyAfterCountdown(s: State, n: nat, ticks: nat)
    requires s.frames == [n] && !s.imageReady
    ensures Ticks(s, ticks).imageReady <==> ticks >= n + 1
    ensures Ticks(s, ticks).frames == FramesAfter([n], ticks)
    decreases ticks
  {
    if ticks > 0 {
      var t := FrameStep(s);
      NextFrameSingle(n);
      if n == 0 {
        assert t.frames == [] && t.imageReady;
        FramesOnlyReady(t, ticks - 1);
        EmptyStaysEmpty(ticks - 1);
      } else {
        assert t.frames == [n - 1] && !t.imageReady;
        ReadyAfterCountdown(t, n - 1, ticks - 1);
      }
    }
  }

  /** Frames with nothing queued change nothing. */
  lemma {:induction false} FramesOnlyReady(s: State, ticks: nat)
    requires s.frames == []
    ensures Ticks(s, ticks) == s
    decreases ticks
  {
    if ticks > 0 {
      assert FrameStep(s) == s;
      FramesOnlyReady(s, ticks - 1);
    }
  }

  /**
   * The main image's load, applied while mounted, sets `imageLoaded` and the ratio at
   * once; `imageReady` follows exactly `ReadyDelay + 1` (six) frames later.
   */
  lemma ReadySixFramesAfterLoad(p: Props, s: State, ratio: real, ticks: nat)
    requires s.mounted && s.imageLoads > 0 && s.frames == [] && !s.imageReady
    ensures Step(p, s, ImageLoad(ratio)).imageLoaded
    ensures Step(p, s, ImageLoad(ratio)).aspectRatio == Some(ratio)
    ensures Ticks(Step(p, s, ImageLoad(ratio)), ticks).imageReady <==> ticks >= 6
  {
    ReadyAfterCountdown(Step(p, s, ImageLoad(ratio)), ReadyDelay, ticks);
  }

  /** Load events that arrive while unmounted change nothing but the count of loads outstanding. */
  lemma {:induction false} UnmountedIgnoresLoads(p: Props, s: State, events: seq<Event>)
    requires !s.mounted
    requires forall k :: 0 <= k < |events| ==> !events[k].Mount?
    ensures Run(p, s, events).placeholderLoaded == s.placeholderLoaded
    ensures Run(p, s, events).imageLoaded == s.imageLoaded
    ensures Run(p, s, events).aspectRatio == s.aspectRatio
    decreases |events|
  {
    if events != [] {
      UnmountedIgnoresLoads(p, Step(p, s, events[0]), events[1..]);
    }
  }

  /** With `loadOnScreen`, no image is requested before the wrapper's hook runs. */
  lemma {:induction false} GatedRequestsNothing(p: Props, s: State, events: seq<Event>)
    requires p.loadOnScreen
    requires s.(mounted := false) == Initial
    requires forall k :: 0 <= k < |events| ==> !events[k].Intersect?
    ensures Run(p, s, events).(mounted := false) == Initial
    decreases |events|
  {
    if events != [] {
      var t := Step(p, s, events[0]);
      if events[0].AnimationFrame? {
        NextFrameEmpty(s.frames);
      }
      assert t.(mounted := false) == Initial;
      GatedRequestsNothing(p, t, events[1..]);
    }
  }

  /** Once the hook runs, both images are requested (the placeholder only when there is one). */
  lemma IntersectRequests(p: Props, s: State)
    ensures Step(p, s, Intersect).imageLoads == s.imageLoads + 1
    ensures Step(p, s, Intersect).placeholderLoads
            == s.placeholderLoads + if p.placeholderSrc != "" then 1 else 0
  {
  }

  /** `getPreserverPaddingBottom`: the ratio as a percentage, None (the falsy 0) when it is not a number. */
  function PaddingBottom(ratio: Option<real>): (pct: Option<real>)
    ensures pct.Some? <==> ratio.Some?
    ensures pct.Some? ==> pct.value / 100.0 == ratio.value
  {
    if ratio.Some? then Some(ratio.value * 100.0) else None
  }

  /** The reserved height, in percent of the width: the prop, else the ratio found, else one half. */
  function ReservedHeight(prop: Option<real>, discovered: Option<real>): (pct: real)
    ensures prop.Some? ==> pct == 100.0 * prop.value
    ensures prop.None? && discovered.Some? ==> pct == 100.0 * discovered.value
    ensures prop.None? && discovered.None? ==> pct == 50.0
  {
    match PaddingBottom(prop)
    case Some(x) => x
    case None =>
      match PaddingBottom(discovered)
      case Some(x) => x
      case None => PaddingBottom(Some(0.5)).value
  }

  /** What is rendered: the reserved height and, for each image present, its opacity. */
  datatype View = View(paddingBottom: real, image: Option<real>, placeholder: Option<real>)

  function ViewOf(p: Props, s: State): (v: View)
    ensures StateValid(s) && (p.src != "" || p.srcSet != "") && v.placeholder == Some(0.0) ==> v.image == Some(1.0)
    ensures !s.imageReady ==> v.image != Some(1.0) && v.placeholder != Some(0.0)
  {
    View(ReservedHeight(p.aspectRatio, s.aspectRatio),
         if (p.src != "" || p.srcSet != "") && s.imageLoaded then Some(if s.imageReady then 1.0 else 0.1) else None,
         if p.placeholderSrc != "" && s.placeholderLoaded then Some(if s.imageReady then 0.0 else 0.99) else None)
  }

  /**
   * The progressive reveal, mounted without `loadOnScreen`: the placeholder appears
   * nearly opaque, then the main image faint, and six frames later the main image
   * is opaque and the placeholder transparent; the height follows the last ratio found.
   */
  lemma ProgressiveReveal(p: Props, r1: real, r2: real)
    requires p.src != "" && p.placeholderSrc != "" && !p.loadOnScreen && p.aspectRatio.None?
    ensures var s1 := Run(p, Initial, [Mount, PlaceholderLoad(r1)]);
            ViewOf(p, s1) == View(100.0 * r1, None, Some(0.99))
    ensures var s2 := Run(p, Initial, [Mount, PlaceholderLoad(r1), ImageLoad(r2)]);
            && ViewOf(p, s2) == View(100.0 * r2, Some(0.1), Some(0.99))
            && ViewOf(p, Ticks(s2, 5)) == ViewOf(p, s2)
            && ViewOf(p, Ticks(s2, 6)) == View(100.0 * r2, Some(1.0), Some(0.0))
  {
    var s0 := Step(p, Initial, Mount);
    var s1 := Step(p, s0, PlaceholderLoad(r1));
    var s2 := Step(p, s1, ImageLoad(r2));
    assert Run(p, Initial, [Mount, PlaceholderLoad(r1)]) == s1 by {
      assert [Mount, PlaceholderLoad(r1)][1..] == [PlaceholderLoad(r1)];
      assert Run(p, s0, [PlaceholderLoad(r1)]) == Run(p, s1, []);
    }
    assert Run(p, Initial, [Mount, PlaceholderLoad(r1), ImageLoad(r2)]) == s2 by {
      assert [Mount, PlaceholderLoad(r1), ImageLoad(r2)][1..] == [PlaceholderLoad(r1), ImageLoad(r2)];
      assert [PlaceholderLoad(r1), ImageLoad(r2)][1..] == [ImageLoad(r2)];
      assert Run(p, s1, [ImageLoad(r2)]) == Run(p, s2, []);
    }
    assert s2.frames == [ReadyDelay];
    ReadyAfterCountdown(s2, ReadyDelay, 5);
    ReadyAfterCountdown(s2, ReadyDelay, 6);
    TicksKeepLoads(s2, 5);
    TicksKeepLoads(s2, 6);
  }

  /** Frames touch only the countdowns and `imageReady`. */
  lemma {:induction false} TicksKeepLoads(s: State, ticks: nat)
    ensures Ticks(s, ticks).(frames := s.frames, imageReady := s.imageReady) == s
    decreases ticks
  {
    if ticks > 0 {
      TicksKeepLoads(FrameStep(s), ticks - 1);
    }
  }

  /** A mounted `Img`: its state, the work it left pending, and its wrapper element. */
  class ImgComponent {
    const props: Props
    var placeholderLoaded: bool
    var imageLoaded: bool
    var imageReady: bool
    var aspectRatio: Option<real>
    var mounted: bool
    var placeholderLoads: nat
    var imageLoads: nat
    var frames: seq<nat>
    var domRef: Option<Observer.ElementId>
    /** Assigned only by `WillUnmountAsWritten`; nothing reads it. */
    var observedElRef: Option<Observer.ElementId>

    function Snapshot(): State
      reads this
    {
      State(placeholderLoaded, imageLoaded, imageReady, aspectRatio, mounted, placeholderLoads, imageLoads, frames)
    }

    ghost predicate Valid()
      reads this
    {
      StateValid(Snapshot())
    }

    /** `constructor`: all three flags off, no ratio. */
    constructor (props: Props)
      ensures this.props == props && Snapshot() == Initial && Valid()
      ensures domRef == None && observedElRef == None
    {
      this.props := props;
      placeholderLoaded, imageLoaded, imageReady := false, false, false;
      aspectRatio := None;
      mounted := false;
      placeholderLoads, imageLoads := 0, 0;
      frames := [];
      domRef, observedElRef := None, None;
    }

    /** `beginImgLoad`: request the placeholder when there is one, and always the main image. */
    method BeginImgLoad()
      requires Valid()
      modifies this
      ensures Valid() && Snapshot() == BeginImgLoadStep(props, old(Snapshot()))
      ensures imageLoads == old(imageLoads) + 1
      ensures placeholderLoads == old(placeholderLoads) + if props.placeholderSrc != "" then 1 else 0
      ensures domRef == old(domRef) && observedElRef == old(observedElRef)
    {
      if props.placeholderSrc != "" {
        placeholderLoads := placeholderLoads + 1;
      }
      imageLoads := imageLoads + 1;
    }

    /** The wrapper's ref callback: give the element the hook and keep it, or drop it on null. */
    method AttachWrapperElRef(doc: Observer.Document, el: Option<Observer.ElementId>)
      modifies this, doc
      ensures domRef == el && observedElRef == old(observedElRef)
      ensures doc.hooked == if el.Some? then old(doc.hooked) + {el.value} else old(doc.hooked)
      ensures Snapshot() == old(Snapshot())
    {
      if el.Some? {
        doc.SetHook(el.value);
        domRef := el;
      } else {
        domRef := None;
      }
    }

    /** `didMount`: mark mounted, then register the wrapper with the watcher or start loading. */
    method DidMount(registry: Observer.IntersectionRegistry) returns (r: Observer.Outcome)
      requires Valid()
      modifies this, registry
      ensures Valid() && Snapshot() == Step(props, old(Snapshot()), Mount)
      ensures domRef == old(domRef) && observedElRef == old(observedElRef)
      ensures props.loadOnScreen ==>
                Observer.ObserveEffect(registry.supported, old(registry.watched), registry.watched, domRef, r)
      ensures !props.loadOnScreen ==> r == Observer.Pass && registry.watched == old(registry.watched)
    {
      mounted := true;
      if props.loadOnScreen {
        r := registry.Observe(domRef);
      } else {
        BeginImgLoad();
        r := Observer.Pass;
      }
    }

    /** The wrapper's `onIntersection` hook: start loading. */
    method OnIntersection()
      requires Valid()
      modifies this
      ensures Valid() && Snapshot() == Step(props, old(Snapshot()), Intersect)
      ensures domRef == old(domRef) && observedElRef == old(observedElRef)
    {
      BeginImgLoad();
    }

    /** The placeholder's load: applied only while mounted. */
    method PlaceholderLoaded(ratio: real)
      requires Valid() && placeholderLoads > 0
      modifies this
      ensures Valid() && Snapshot() == Step(props, old(Snapshot()), PlaceholderLoad(ratio))
      ensures old(mounted) ==> placeholderLoaded && aspectRatio == Some(ratio)
      ensures !old(mounted) ==> Snapshot() == old(Snapshot()).(placeholderLoads := old(placeholderLoads) - 1)
      ensures domRef == old(domRef) && observedElRef == old(observedElRef)
    {
      placeholderLoads := placeholderLoads - 1;
      if mounted {
        placeholderLoaded := true;
        aspectRatio := Some(ratio);
      }
    }

    /** The main image's load: applied only while mounted, and then `afterAF(…, 5)` is started. */
    method ImageLoaded(ratio: real)
      requires Valid() && imageLoads > 0
      modifies this
      ensures Valid() && Snapshot() == Step(props, old(Snapshot()), ImageLoad(ratio))
      ensures old(mounted) ==> imageLoaded && aspectRatio == Some(ratio) && frames == old(frames) + [ReadyDelay]
      ensures !old(mounted) ==> Snapshot() == old(Snapshot()).(imageLoads := old(imageLoads) - 1)
      ensures domRef == old(domRef) && observedElRef == old(observedElRef)
    {
      imageLoads := imageLoads - 1;
      if mounted {
        imageLoaded := true;
        aspectRatio := Some(ratio);
        frames := frames + [ReadyDelay];
      }
    }

    /** An animation frame runs the queued `afterAF` callbacks; a finished countdown marks the image ready. */
    method AnimationFrame()
      requires Valid()
      modifies this
      ensures Valid() && Snapshot() == Step(props, old(Snapshot()), Event.AnimationFrame)
      ensures imageReady <==> old(imageReady) || 0 in old(frames)
      ensures domRef == old(domRef) && observedElRef == old(observedElRef)
    {
      var due := 0 in frames;
      if frames == [] {
        NextFrameEmpty(frames);
      }
      frames := NextFrame(frames);
      if due {
        imageReady := true;
      }
    }

    /** `willUnmount`, corrected: mark unmounted and drop the wrapper element. */
    method WillUnmount()
      requires Valid()
      modifies this
      ensures Valid() && Snapshot() == Step(props, old(Snapshot()), Unmount)
      ensures !mounted && domRef == None && observedElRef == old(observedElRef)
    {
      mounted := false;
      domRef := None;
    }

    /** `willUnmount` as written: it clears `observedElRef`, so `domRef` keeps the element. */
    method WillUnmountAsWritten()
      requires Valid()
      modifies this
      ensures Valid() && Snapshot() == Step(props, old(Snapshot()), Unmount)
      ensures !mounted && observedElRef == None
      ensures domRef == old(domRef)
    {
      mounted := false;
      observedElRef := None;
    }
  }
}
