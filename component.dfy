/**
 * The component itself: the callback's loop over a batch and the class
 * that holds `watermarkRef` and `stopObserver` and changes the container in
 * place. Each method is tied to the step function it carries out and keeps
 * the engine invariant.
 */
module Component {
  import opened Wrappers
  import opened Dom
  import opened Geometry
  import opened WaterMark
  import opened WaterMarkProperties

  /**
   * The loop of `observerCallBack`: walks every record, and every removed
   * node of each "childList" record, comparing nodes by identity.
   */
  method ScanMutations(mutations: seq<Record>, watermarkRef: Option<NodeId>) returns (rerender: bool)
    ensures rerender <==> Qualifies(mutations, watermarkRef)
  {
    rerender := false;
    var i := 0;
    while i < |mutations|
      invariant 0 <= i <= |mutations|
      invariant rerender <==> Qualifies(mutations[..i], watermarkRef)
    {
      assert mutations[..i + 1] == mutations[..i] + [mutations[i]];
      match mutations[i] {
        case ChildList(_, removedNodes) =>
          var j := 0;
          while j < |removedNodes|
            invariant 0 <= j <= |removedNodes|
            invariant rerender <==>
              Qualifies(mutations[..i], watermarkRef) ||
              (watermarkRef.Some? && watermarkRef.value in removedNodes[..j])
          {
            assert removedNodes[..j + 1] == removedNodes[..j] + [removedNodes[j]];
            if Some(removedNodes[j]) == watermarkRef {
              rerender := true;
            }
            j := j + 1;
          }
          assert removedNodes[..j] == removedNodes;
        case Attributes(target) =>
          if Some(target) == watermarkRef {
            rerender := true;
          }
        case CharacterData(_) =>
      }
      i := i + 1;
    }
    assert mutations[..i] == mutations;
  }

  class Engine {
    const container: Container
    var watermarkRef: Option<NodeId>
    var stopObserver: bool
    var pendingClears: nat
    ghost var overlays: set<NodeId>

    ghost function Model(): EngineState
      reads this, container
    {
      EngineState(container.Model(), watermarkRef, stopObserver, pendingClears, overlays)
    }

    ghost predicate Valid()
      reads this, container
    {
      Invariant(Model())
    }

    constructor (c: Container)
      requires c.Valid()
      ensures container == c
      ensures Model() == Init(old(c.Model()))
      ensures Valid()
    {
      container := c;
      watermarkRef := None;
      stopObserver := false;
      pendingClears := 0;
      overlays := {};
    }

    method DestroyWatermark()
      requires Valid()
      modifies this, container
      ensures Valid()
      ensures Model() == Destroyed(old(Model()))
    {
      DestroyDetaches(Model());
      if watermarkRef.Some? {
        container.Remove(watermarkRef.value);
        watermarkRef := None;
      }
    }

    method RenderWatermark(p: Props, raster: Option<string>)
      requires Valid()
      modifies this, container
      ensures Valid()
      ensures Model() == Rendered(old(Model()), p, raster)
    {
      StepKeepsInvariant(Model(), Render(p, raster));
      // the canvas is created before the text is checked, so it is allocated either way
      var canvas := container.CreateElement();
      if p.text == "" {
        return;
      }
      if raster.Some? {
        if watermarkRef.None? {
          var n := container.CreateElement();
          watermarkRef := Some(n);
        }
        overlays := overlays + {watermarkRef.value};
        stopObserver := true;
        container.SetStyle(watermarkRef.value, OverlayStyle(p, raster.value));
        container.AppendChild(watermarkRef.value);
        pendingClears := pendingClears + 1;
      }
    }

    method ObserverCallBack(mutations: seq<Record>, p: Props, raster: Option<string>)
      requires Valid()
      modifies this, container
      ensures Valid()
      ensures Model() == Reconciled(old(Model()), mutations, p, raster)
    {
      if stopObserver {
        return;
      }
      var rerender := ScanMutations(mutations, watermarkRef);
      if rerender {
        DestroyWatermark();
        RenderWatermark(p, raster);
      }
    }

    /** The observer delivers the records queued since the last delivery. */
    method Deliver(p: Props, raster: Option<string>)
      requires Valid()
      modifies this, container
      ensures Valid()
      ensures Model() == Delivered(old(Model()), p, raster)
    {
      var batch := container.TakeRecords();
      ObserverCallBack(batch, p, raster);
    }

    /** The deferred clear scheduled by `RenderWatermark` runs. */
    method ClearSuppression()
      requires Valid() && pendingClears > 0
      modifies this
      ensures Valid()
      ensures Model() == Cleared(old(Model()))
    {
      stopObserver := false;
      pendingClears := pendingClears - 1;
    }
  }

  /** The first render over a container whose only child is some content mounts a fresh overlay after it. */
  lemma FirstRenderOverContent(d: DomState, p: Props, raster: Option<string>)
    requires Wellformed(d) && |d.children| == 1 && p.text != "" && raster.Some?
    ensures var r := Rendered(Init(d), p, raster);
      Invariant(r) && r.stopObserver && r.watermarkRef == Some(d.created + 1) &&
      r.dom.children == [d.children[0], d.created + 1]
  {
    RenderMounts(Init(d), p, raster);
    assert Without(d.children, d.created + 1) == d.children;
  }

  /** Mounting the component over one content child and rendering once. */
  method Mount(p: Props, raster: Option<string>) returns (w: Engine, content: NodeId)
    requires p.text != "" && raster.Some?
    ensures fresh(w) && fresh(w.container)
    ensures w.Valid() && w.watermarkRef.Some? && w.stopObserver
    ensures w.container.children == [content, w.watermarkRef.value]
  {
    var c := new Container();
    content := c.CreateElement();
    c.AppendChild(content);
    assert c.Model().children == [content];
    w := new Engine(c);
    FirstRenderOverContent(c.Model(), p, raster);
    w.RenderWatermark(p, raster);
  }

  /** A batch delivered while suppression is on leaves the overlay alone. */
  method DeliverSuppressed(w: Engine, p: Props, raster: Option<string>)
    requires w.Valid() && w.stopObserver
    modifies w, w.container
    ensures w.Valid() && w.stopObserver && w.pendingClears == old(w.pendingClears)
    ensures w.watermarkRef == old(w.watermarkRef) && w.container.children == old(w.container.children)
    ensures w.container.records == []
  {
    ghost var m := w.Model();
    w.Deliver(p, raster);
    SuppressedBatchIgnored(m.(dom := m.dom.(records := [])), m.dom.records, p, raster);
    assert w.Model() == m.(dom := m.dom.(records := []));
  }

  /** A script removes the overlay; the next batch mounts a fresh one in its place. */
  method RemoveAndRestore(w: Engine, content: NodeId, p: Props, raster: Option<string>)
    requires w.Valid() && !w.stopObserver && w.watermarkRef.Some?
    requires w.container.children == [content, w.watermarkRef.value]
    requires p.text != "" && raster.Some?
    modifies w, w.container
    ensures w.Valid() && w.stopObserver && w.watermarkRef.Some? && w.watermarkRef != old(w.watermarkRef)
    ensures w.container.children == [content, w.watermarkRef.value]
  {
    var first := w.watermarkRef.value;
    ghost var before := w.Model();
    w.container.Remove(first);
    assert w.Model() == Next(before, ForeignRemove(first));
    StepKeepsInvariant(before, ForeignRemove(first));
    ghost var tampered := w.Model();
    ghost var batch := tampered.dom.records;
    assert w.container.children == [content];
    assert batch[|batch| - 1] == ChildList([], [first]);
    assert Matches(batch[|batch| - 1], Some(first));
    w.Deliver(p, raster);
    RestorationIsFresh(tampered.(dom := tampered.dom.(records := [])), batch, p, raster);
    RenderMounts(Destroyed(tampered.(dom := tampered.dom.(records := []))), p, raster);
  }

  /** A change to an unrelated child leaves the overlay in place. */
  method TouchUnrelated(w: Engine, content: NodeId, p: Props, raster: Option<string>)
    requires w.Valid() && !w.stopObserver && w.watermarkRef.Some?
    requires w.container.children == [content, w.watermarkRef.value]
    requires w.container.records == []
    modifies w, w.container
    ensures w.Valid() && w.watermarkRef == old(w.watermarkRef)
    ensures w.container.children == old(w.container.children)
  {
    ghost var quiet := w.Model();
    assert NoDuplicates(quiet.dom.children);
    assert quiet.dom.children[0] != quiet.dom.children[1];
    w.container.SetStyle(content, Style(1.0, "red"));
    assert w.Model() == Next(quiet, ForeignStyle(content, Style(1.0, "red")));
    StepKeepsInvariant(quiet, ForeignStyle(content, Style(1.0, "red")));
    ghost var touched := w.Model();
    assert touched.dom.records == [] || touched.dom.records == [Attributes(content)];
    UnrelatedBatchIgnored(touched.(dom := touched.dom.(records := [])), touched.dom.records, p, raster);
    w.Deliver(p, raster);
  }

  /**
   * The tamper scenario on the classes: render, a script removes the
   * overlay, the observer's batch restores it once, and the restoration's own
   * batch and a change to an unrelated child are ignored.
   */
  method TamperRestorationScenario()
  {
    var p := DefaultProps.(text := "A");
    var raster := Some("data:image/png;base64,A");
    var w, content := Mount(p, raster);
    var first := w.watermarkRef.value;
    DeliverSuppressed(w, p, raster);
    w.ClearSuppression();
    RemoveAndRestore(w, content, p, raster);
    var second := w.watermarkRef.value;
    assert second != first;
    DeliverSuppressed(w, p, raster);
    w.ClearSuppression();
    TouchUnrelated(w, content, p, raster);
    assert w.container.children == [content, second];
  }
}
