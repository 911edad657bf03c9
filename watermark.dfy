/**
 * The watermark engine: an overlay node mounted in the container, a
 * suppression flag that hides the engine's own DOM changes from the
 * observer, and a reconciliation callback that destroys and re-renders the
 * overlay when a batch of mutation records shows it removed or altered.
 *
 * `EngineState` and the functions over it specify each step; the class
 * `Engine` carries out the steps in place on a `Dom.Container`.
 */
module WaterMark {
  import opened Wrappers
  import opened Dom
  import opened Geometry

  /**
   * The engine's state: the DOM slice, `watermarkRef.current`,
   * `stopObserver.current`, the number of scheduled `setTimeout` clears not
   * yet run, and (bookkeeping only) every node ever created as an overlay.
   */
  datatype EngineState = EngineState(
    dom: DomState,
    watermarkRef: Option<NodeId>,
    stopObserver: bool,
    pendingClears: nat,
    overlays: set<NodeId>)

  function Init(d: DomState): EngineState
  {
    EngineState(d, None, false, 0, {})
  }

  /** The style the overlay is given: tile size and the exported canvas image. */
  function OverlayStyle(p: Props, dataUrl: string): (s: Style)
    ensures s.backgroundSize == CanvasWidth(p, 1.0)
    ensures s.backgroundImage == dataUrl
  {
    Style(BackgroundSize(p), dataUrl)
  }

  /**
   * The engine keeps the overlay unique: all overlay nodes exist, the
   * reference names an overlay, an overlay that is attached is the one the
   * reference names, and suppression is on only while a clear is scheduled.
   */
  predicate Invariant(e: EngineState)
  {
    Wellformed(e.dom) &&
    (forall n | n in e.overlays :: n < e.dom.created) &&
    (e.watermarkRef.Some? ==> e.watermarkRef.value in e.overlays) &&
    (forall n | n in e.dom.children && n in e.overlays :: e.watermarkRef == Some(n)) &&
    (e.stopObserver ==> e.pendingClears > 0)
  }

  /** The container holds at most one overlay node. */
  predicate AtMostOneOverlay(e: EngineState)
  {
    forall i, j | 0 <= i < |e.dom.children| && 0 <= j < |e.dom.children| &&
                  e.dom.children[i] in e.overlays && e.dom.children[j] in e.overlays :: i == j
  }

  /** Whether one record shows the current overlay removed or its attributes changed. */
  predicate Matches(r: Record, watermarkRef: Option<NodeId>)
  {
    match r
    case ChildList(_, removedNodes) => watermarkRef.Some? && watermarkRef.value in removedNodes
    case Attributes(target) => watermarkRef == Some(target)
    case CharacterData(_) => false
  }

  /** A batch calls for restoration when some record in it matches the current overlay. */
  predicate Qualifies(mutations: seq<Record>, watermarkRef: Option<NodeId>)
  {
    exists i | 0 <= i < |mutations| :: Matches(mutations[i], watermarkRef)
  }

  /** `destroyWatermark`. */
  function Destroyed(e: EngineState): EngineState
  {
    match e.watermarkRef
    case None => e
    case Some(n) => e.(dom := Removed(e.dom, n), watermarkRef := None)
  }

  /**
   * `renderWatermark`, given the result of `getContext("2d")` and
   * `toDataURL()` as `raster` (None when no 2D context is available).
   */
  function Rendered(e: EngineState, p: Props, raster: Option<string>): EngineState
  {
    var withCanvas := Created(e.dom);
    if p.text == "" || raster.None? then e.(dom := withCanvas)
    else
      var node := (if e.watermarkRef.Some? then e.watermarkRef.value else withCanvas.created);
      var withNode := (if e.watermarkRef.Some? then withCanvas else Created(withCanvas));
      var styled := Styled(withNode, node, OverlayStyle(p, raster.value));
      EngineState(Appended(styled, node), Some(node), true, e.pendingClears + 1, e.overlays + {node})
  }

  /** `observerCallBack` applied to one batch. */
  function Reconciled(e: EngineState, mutations: seq<Record>, p: Props, raster: Option<string>): EngineState
  {
    if e.stopObserver then e
    else if Qualifies(mutations, e.watermarkRef) then Rendered(Destroyed(e), p, raster)
    else e
  }

  /** The observer hands the queued records to the callback as one batch. */
  function Delivered(e: EngineState, p: Props, raster: Option<string>): EngineState
  {
    Reconciled(e.(dom := e.dom.(records := [])), e.dom.records, p, raster)
  }

  /** The scheduled `setTimeout` callback runs and clears the flag. */
  function Cleared(e: EngineState): EngineState
    requires e.pendingClears > 0
  {
    e.(stopObserver := false, pendingClears := e.pendingClears - 1)
  }

  /** Every step the component or the page can take. */
  datatype Step =
    | Render(props: Props, raster: Option<string>)
    | Callback(mutations: seq<Record>, props: Props, raster: Option<string>)
    | Deliver(props: Props, raster: Option<string>)
    | ClearTimer
    | ForeignRemove(node: NodeId)
    | ForeignStyle(node: NodeId, style: Style)
    | ForeignInsert

  function Next(e: EngineState, s: Step): EngineState
  {
    match s
    case Render(p, raster) => Rendered(e, p, raster)
    case Callback(mutations, p, raster) => Reconciled(e, mutations, p, raster)
    case Deliver(p, raster) => Delivered(e, p, raster)
    case ClearTimer => if e.pendingClears > 0 then Cleared(e) else e
    case ForeignRemove(n) => e.(dom := Removed(e.dom, n))
    case ForeignStyle(n, style) => if n < e.dom.created then e.(dom := Styled(e.dom, n, style)) else e
    case ForeignInsert => e.(dom := Appended(Created(e.dom), e.dom.created))
  }

  function Run(e: EngineState, steps: seq<Step>): EngineState
    decreases |steps|
  {
    if steps == [] then e else Run(Next(e, steps[0]), steps[1..])
  }

  /** The reference, if set, names a node in the container. */
  predicate OverlayInPlace(e: EngineState)
  {
    e.watermarkRef.Some? ==> e.watermarkRef.value in e.dom.children
  }

  /**
   * The callback with the guard corrected: while suppressed, a batch is
   * ignored only as long as the overlay is still in the container, so a
   * removal during the suppression window is not lost.
   */
  function CheckedReconciled(e: EngineState, mutations: seq<Record>, p: Props, raster: Option<string>): EngineState
  {
    if e.stopObserver && OverlayInPlace(e) then e
    else if Qualifies(mutations, e.watermarkRef) then Rendered(Destroyed(e), p, raster)
    else e
  }

  /** Every step, with the corrected callback in place of `Reconciled`. */
  function CheckedNext(e: EngineState, s: Step): EngineState
  {
    match s
    case Callback(mutations, p, raster) => CheckedReconciled(e, mutations, p, raster)
    case Deliver(p, raster) => CheckedReconciled(e.(dom := e.dom.(records := [])), e.dom.records, p, raster)
    case _ => Next(e, s)
  }

  function CheckedRun(e: EngineState, steps: seq<Step>): EngineState
    decreases |steps|
  {
    if steps == [] then e else CheckedRun(CheckedNext(e, steps[0]), steps[1..])
  }
}
