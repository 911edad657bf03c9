/**
 * What the engine promises: suppression, identity-only matching, one
 * restoration per batch, idempotent destroy, the empty-text guard, a single
 * overlay mounted last, fresh nodes on restoration, and why the suppression
 * flag has to be on when the engine's own records arrive.
 */
module WaterMarkProperties {
  import opened Wrappers
  import opened Dom
  import opened Geometry
  import opened WaterMark

  /** The nodes a record mentions. */
  function Nodes(r: Record): seq<NodeId>
  {
    match r
    case ChildList(added, removed) => added + removed
    case Attributes(target) => [target]
    case CharacterData(target) => [target]
  }

  /** While suppression is on, a batch changes nothing at all. */
  lemma SuppressedBatchIgnored(e: EngineState, mutations: seq<Record>, p: Props, raster: Option<string>)
    requires e.stopObserver
    ensures Reconciled(e, mutations, p, raster) == e
  {
  }

  /** A batch none of whose records mentions the current overlay changes nothing. */
  lemma UnrelatedBatchIgnored(e: EngineState, mutations: seq<Record>, p: Props, raster: Option<string>)
    requires e.watermarkRef.Some? ==>
      forall i | 0 <= i < |mutations| :: e.watermarkRef.value !in Nodes(mutations[i])
    ensures Reconciled(e, mutations, p, raster) == e
  {
  }

  /**
   * Records added to a batch that already qualifies change nothing: however
   * many records match, the batch causes one destroy and one render.
   */
  lemma OneRestorationPerBatch(e: EngineState, mutations: seq<Record>, more: seq<Record>, p: Props, raster: Option<string>)
    requires Qualifies(mutations, e.watermarkRef)
    ensures Reconciled(e, mutations + more, p, raster) == Reconciled(e, mutations, p, raster)
    ensures Reconciled(e, more + mutations, p, raster) == Reconciled(e, mutations, p, raster)
    ensures Reconciled(e, mutations + mutations, p, raster) == Reconciled(e, mutations, p, raster)
  {
    var i :| 0 <= i < |mutations| && Matches(mutations[i], e.watermarkRef);
    assert (mutations + more)[i] == mutations[i];
    assert (more + mutations)[|more| + i] == mutations[i];
    assert (mutations + mutations)[i] == mutations[i];
  }

  /** Destroy with no overlay is a no-op. */
  lemma DestroyWithoutOverlay(e: EngineState)
    requires e.watermarkRef.None?
    ensures Destroyed(e) == e
  {
  }

  /**
   * Destroy detaches the overlay, clears the reference, keeps every other
   * child in its order and keeps the flag; doing it twice is doing it once.
   */
  lemma DestroyDetaches(e: EngineState)
    requires Invariant(e)
    ensures var r := Destroyed(e);
      r.watermarkRef.None? &&
      (forall n | n in r.dom.children :: n !in r.overlays) &&
      (e.watermarkRef.Some? ==> r.dom.children == Without(e.dom.children, e.watermarkRef.value)) &&
      r.stopObserver == e.stopObserver && r.pendingClears == e.pendingClears &&
      Invariant(r) &&
      Destroyed(r) == r
  {
  }

  /** With empty text or no 2D context, render mounts nothing and leaves the engine as it was. */
  lemma RenderWithoutText(e: EngineState, p: Props, raster: Option<string>)
    requires p.text == "" || raster.None?
    ensures var r := Rendered(e, p, raster);
      r.dom.children == e.dom.children && r.dom.styles == e.dom.styles &&
      r.dom.records == e.dom.records &&
      r.watermarkRef == e.watermarkRef && r.stopObserver == e.stopObserver &&
      r.pendingClears == e.pendingClears && r.overlays == e.overlays
  {
  }

  /**
   * A successful render leaves the overlay as the container's last child,
   * attached exactly once, styled with the current configuration, other
   * children kept in order, suppression on with one clear scheduled; the
   * node is the existing overlay when there is one and a fresh node otherwise.
   */
  lemma RenderMounts(e: EngineState, p: Props, raster: Option<string>)
    requires Invariant(e) && p.text != "" && raster.Some?
    ensures var r := Rendered(e, p, raster);
      r.watermarkRef.Some? &&
      var n := r.watermarkRef.value;
      var c := r.dom.children;
      |c| > 0 && c[|c| - 1] == n &&
      (forall i | 0 <= i < |c| - 1 :: c[i] != n) &&
      c == Without(e.dom.children, n) + [n] &&
      n in r.dom.styles && r.dom.styles[n] == OverlayStyle(p, raster.value) &&
      r.stopObserver && r.pendingClears == e.pendingClears + 1 &&
      (e.watermarkRef.Some? ==> n == e.watermarkRef.value) &&
      (e.watermarkRef.None? ==> e.dom.created <= n && n !in e.overlays) &&
      Invariant(r) && AtMostOneOverlay(r)
  {
    var r := Rendered(e, p, raster);
    InvariantGivesOneOverlay(r);
  }

  /** Under the invariant the container holds at most one overlay node. */
  lemma InvariantGivesOneOverlay(e: EngineState)
    requires Invariant(e)
    ensures AtMostOneOverlay(e)
  {
    forall i, j | 0 <= i < |e.dom.children| && 0 <= j < |e.dom.children| &&
                  e.dom.children[i] in e.overlays && e.dom.children[j] in e.overlays
      ensures i == j
    {
      assert e.watermarkRef == Some(e.dom.children[i]) == Some(e.dom.children[j]);
    }
  }

  /**
   * A restoration mounts a fresh overlay, distinct from every earlier one, as
   * the last child; a removal record for the old overlay no longer matches,
   * and the restoration's own records do not match the new one either.
   */
  lemma RestorationIsFresh(e: EngineState, mutations: seq<Record>, p: Props, raster: Option<string>)
    requires Invariant(e) && !e.stopObserver && Qualifies(mutations, e.watermarkRef)
    requires p.text != "" && raster.Some?
    ensures var r := Reconciled(e, mutations, p, raster);
      e.watermarkRef.Some? && r.watermarkRef.Some? &&
      var n := r.watermarkRef.value;
      n != e.watermarkRef.value && n !in e.overlays &&
      r.dom.children[|r.dom.children| - 1] == n &&
      !Qualifies([ChildList([], [e.watermarkRef.value])], r.watermarkRef) &&
      !Qualifies(r.dom.records[|e.dom.records|..], r.watermarkRef) &&
      Invariant(r)
  {
    var d := Destroyed(e);
    DestroyDetaches(e);
    RenderMounts(d, p, raster);
    var r := Rendered(d, p, raster);
    var n := r.watermarkRef.value;
    var own := r.dom.records[|e.dom.records|..];
    var prev := e.watermarkRef.value;
    var withNode := Created(Created(d.dom));
    assert withNode.children == d.dom.children && withNode.records == d.dom.records;
    assert n !in d.dom.children;
    var styled := Styled(withNode, n, OverlayStyle(p, raster.value));
    assert styled.records == d.dom.records;
    assert r.dom == Appended(styled, n);
    assert r.dom.records == d.dom.records + [ChildList([n], [])];
    assert own == (if prev in e.dom.children then [ChildList([], [prev])] else []) + [ChildList([n], [])];
    forall i | 0 <= i < |own| ensures !Matches(own[i], r.watermarkRef) {
    }
  }

  /** A batch changes the state of an engine that is not suppressed exactly when it qualifies. */
  lemma RestoresExactlyWhenQualifying(e: EngineState, mutations: seq<Record>, p: Props, raster: Option<string>)
    requires !e.stopObserver
    ensures Reconciled(e, mutations, p, raster) != e <==> Qualifies(mutations, e.watermarkRef)
  {
    if Qualifies(mutations, e.watermarkRef) {
      var i :| 0 <= i < |mutations| && Matches(mutations[i], e.watermarkRef);
      assert e.watermarkRef.Some?;
      var r := Rendered(Destroyed(e), p, raster);
      assert r.watermarkRef.None? || r.stopObserver;
    }
  }

  /**
   * Rendering again over an attached overlay moves and possibly restyles it,
   * and those records match the overlay: with the flag on they are absorbed,
   * but delivered after a premature clear they would destroy and recreate the
   * overlay. The premature clear is an order of timer and delivery that the
   * model allows without deciding whether the event loop produces it.
   */
  lemma RepeatRenderNeedsSuppression(e: EngineState, p: Props, raster: Option<string>, p': Props, raster': Option<string>)
    requires Invariant(e) && e.watermarkRef.Some? && e.watermarkRef.value in e.dom.children
    requires p.text != "" && raster.Some? && p'.text != "" && raster'.Some?
    ensures var r := Rendered(e, p, raster);
      Qualifies(r.dom.records[|e.dom.records|..], r.watermarkRef) &&
      Delivered(r, p', raster') == r.(dom := r.dom.(records := [])) &&
      Delivered(Cleared(r), p', raster').watermarkRef != r.watermarkRef
  {
    var r := Rendered(e, p, raster);
    var n := e.watermarkRef.value;
    var own := r.dom.records[|e.dom.records|..];
    var styled := Styled(Created(e.dom), n, OverlayStyle(p, raster.value));
    assert r.dom == Appended(styled, n);
    assert n in styled.children;
    assert r.dom.records == styled.records + [ChildList([], [n])] + [ChildList([n], [])];
    assert |styled.records| >= |e.dom.records|;
    assert own[|own| - 2] == ChildList([], [n]);
    assert Matches(own[|own| - 2], r.watermarkRef);
    var c := Cleared(r);
    RenderMounts(e, p, raster);
    assert Invariant(c.(dom := c.dom.(records := [])));
    assert r.dom.records[|e.dom.records| + |own| - 2] == own[|own| - 2];
    assert Qualifies(c.dom.records, c.watermarkRef);
    RestorationIsFresh(c.(dom := c.dom.(records := [])), c.dom.records, p', raster');
  }

  /** Once on, the flag stays on through every step except the timer's clear. */
  lemma SuppressionHeldUntilClear(e: EngineState, s: Step)
    requires e.stopObserver && !s.ClearTimer?
    ensures Next(e, s).stopObserver
  {
  }

  /** Every step, by the component or by the page, keeps the invariant. */
  lemma StepKeepsInvariant(e: EngineState, s: Step)
    requires Invariant(e)
    ensures Invariant(Next(e, s))
  {
    match s
    case Render(p, raster) =>
      if p.text != "" && raster.Some? { RenderMounts(e, p, raster); }
    case Callback(mutations, p, raster) =>
      DestroyDetaches(e);
      var d := Destroyed(e);
      if p.text != "" && raster.Some? { RenderMounts(d, p, raster); }
    case Deliver(p, raster) =>
      var e' := e.(dom := e.dom.(records := []));
      DestroyDetaches(e');
      var d := Destroyed(e');
      if p.text != "" && raster.Some? { RenderMounts(d, p, raster); }
    case ClearTimer =>
    case ForeignRemove(n) =>
    case ForeignStyle(n, style) =>
    case ForeignInsert =>
  }

  /** The invariant holds after any sequence of steps. */
  lemma {:induction false} RunKeepsInvariant(e: EngineState, steps: seq<Step>)
    requires Invariant(e)
    ensures Invariant(Run(e, steps))
    decreases |steps|
  {
    if steps != [] {
      StepKeepsInvariant(e, steps[0]);
      RunKeepsInvariant(Next(e, steps[0]), steps[1..]);
    }
  }

  /** From any well-formed container, no sequence of steps ever puts two overlays in it. */
  lemma NeverTwoOverlays(d: DomState, steps: seq<Step>)
    requires Wellformed(d)
    ensures AtMostOneOverlay(Run(Init(d), steps))
  {
    RunKeepsInvariant(Init(d), steps);
    InvariantGivesOneOverlay(Run(Init(d), steps));
  }

  /**
   * A detached overlay is still on record: when the reference names a node
   * outside the container, the queue holds a record that qualifies.
   */
  predicate DetachmentReported(e: EngineState)
  {
    !OverlayInPlace(e) ==> Qualifies(e.dom.records, e.watermarkRef)
  }

  /** Records queued after a qualifying record do not stop the batch from qualifying. */
  lemma QualifiesExtended(mutations: seq<Record>, more: seq<Record>, watermarkRef: Option<NodeId>)
    requires Qualifies(mutations, watermarkRef)
    ensures Qualifies(mutations + more, watermarkRef)
  {
    var i :| 0 <= i < |mutations| && Matches(mutations[i], watermarkRef);
    assert (mutations + more)[i] == mutations[i];
  }

  /** A run of four steps is the four steps one after the other. */
  lemma RunOfFour(e: EngineState, a: Step, b: Step, c: Step, d: Step)
    ensures Run(e, [a, b, c, d]) == Next(Next(Next(Next(e, a), b), c), d)
  {
    var e1 := Next(e, a);
    var e2 := Next(e1, b);
    var e3 := Next(e2, c);
    assert [a, b, c, d][1..] == [b, c, d];
    assert [b, c, d][1..] == [c, d];
    assert [c, d][1..] == [d];
    assert [d][1..] == [];
    assert Run(e, [a, b, c, d]) == Run(e1, [b, c, d]);
    assert Run(e1, [b, c, d]) == Run(e2, [c, d]);
    assert Run(e2, [c, d]) == Run(e3, [d]);
    assert Run(e3, [d]) == Run(Next(e3, d), []);
  }

  /**
   * As written, a removal during the suppression window is lost: render, a
   * script removes the overlay, the batch reporting it arrives while the
   * flag is on and is dropped, and the timer clears the flag. The reference
   * still names the removed node, nothing is queued, and every later
   * delivery changes nothing, so the overlay stays detached until a
   * configuration change renders again.
   */
  lemma SuppressedTamperIsLost(p: Props, raster: Option<string>, p': Props, raster': Option<string>)
    requires p.text != "" && raster.Some?
    ensures var r := Run(Init(DomState([0], 1, map[], [])),
                         [Render(p, raster), ForeignRemove(2), Deliver(p, raster), ClearTimer]);
      r.watermarkRef == Some(2) && r.dom.children == [0] && r.dom.records == [] && !r.stopObserver &&
      !OverlayInPlace(r) && !DetachmentReported(r) &&
      Delivered(r, p', raster') == r &&
      (p'.text != "" && raster'.Some? ==> Rendered(r, p', raster').dom.children == [0, 2])
  {
    var e0 := Init(DomState([0], 1, map[], []));
    RunOfFour(e0, Render(p, raster), ForeignRemove(2), Deliver(p, raster), ClearTimer);
    var e1 := Rendered(e0, p, raster);
    assert e1.watermarkRef == Some(2) && e1.dom.children == [0, 2] && e1.stopObserver && e1.pendingClears == 1;
    var e2 := e1.(dom := Removed(e1.dom, 2));
    assert e2.dom.children == Without([0, 2], 2) == [0];
    var e3 := Delivered(e2, p, raster);
    assert e3 == e2.(dom := e2.dom.(records := []));
    var e4 := Cleared(e3);
    assert Next(Next(Next(Next(e0, Render(p, raster)), ForeignRemove(2)), Deliver(p, raster)), ClearTimer) == e4;
  }

  /** The corrected callback differs from the source's only while suppressed with the overlay gone. */
  lemma CheckedAgreesWhileInPlace(e: EngineState, mutations: seq<Record>, p: Props, raster: Option<string>)
    requires !e.stopObserver || OverlayInPlace(e)
    ensures CheckedReconciled(e, mutations, p, raster) == Reconciled(e, mutations, p, raster)
  {
  }

  /** A script removing a node leaves a detached overlay on record. */
  lemma ForeignRemoveKeepsReport(e: EngineState, n: NodeId)
    requires Invariant(e) && DetachmentReported(e)
    ensures DetachmentReported(e.(dom := Removed(e.dom, n)))
  {
    var r := e.(dom := Removed(e.dom, n));
    if !OverlayInPlace(r) && n in e.dom.children {
      if n == e.watermarkRef.value {
        var k := |r.dom.records| - 1;
        assert r.dom.records[k] == ChildList([], [n]);
        assert Matches(r.dom.records[k], r.watermarkRef);
      } else {
        QualifiesExtended(e.dom.records, [ChildList([], [n])], e.watermarkRef);
      }
    }
  }

  /** A script restyling a node leaves a detached overlay on record. */
  lemma ForeignStyleKeepsReport(e: EngineState, n: NodeId, style: Style)
    requires Invariant(e) && DetachmentReported(e)
    ensures DetachmentReported(e.(dom := Styled(e.dom, n, style)))
  {
    var r := e.(dom := Styled(e.dom, n, style));
    if !OverlayInPlace(r) && r.dom.records != e.dom.records {
      QualifiesExtended(e.dom.records, [Attributes(n)], e.watermarkRef);
    }
  }

  /** A script inserting a fresh node leaves a detached overlay on record. */
  lemma ForeignInsertKeepsReport(e: EngineState)
    requires Invariant(e) && DetachmentReported(e)
    ensures DetachmentReported(e.(dom := Appended(Created(e.dom), e.dom.created)))
  {
    var r := e.(dom := Appended(Created(e.dom), e.dom.created));
    if !OverlayInPlace(r) {
      assert e.dom.created !in e.dom.children;
      QualifiesExtended(e.dom.records, [ChildList([e.dom.created], [])], e.watermarkRef);
    }
  }

  /** With the corrected callback every step keeps the invariant, and a detached overlay stays on record. */
  lemma CheckedStepKeepsInvariant(e: EngineState, s: Step)
    requires Invariant(e) && DetachmentReported(e)
    ensures Invariant(CheckedNext(e, s)) && DetachmentReported(CheckedNext(e, s))
  {
    match s
    case Render(p, raster) =>
      if p.text != "" && raster.Some? { RenderMounts(e, p, raster); }
    case Callback(mutations, p, raster) =>
      DestroyDetaches(e);
      if p.text != "" && raster.Some? { RenderMounts(Destroyed(e), p, raster); }
    case Deliver(p, raster) =>
      var e' := e.(dom := e.dom.(records := []));
      DestroyDetaches(e');
      if p.text != "" && raster.Some? { RenderMounts(Destroyed(e'), p, raster); }
    case ClearTimer =>
    case ForeignRemove(n) =>
      StepKeepsInvariant(e, s);
      ForeignRemoveKeepsReport(e, n);
    case ForeignStyle(n, style) =>
      StepKeepsInvariant(e, s);
      if n < e.dom.created { ForeignStyleKeepsReport(e, n, style); }
    case ForeignInsert =>
      StepKeepsInvariant(e, s);
      ForeignInsertKeepsReport(e);
  }

  /** With the corrected callback the invariant and the record of a detached overlay hold after any sequence of steps. */
  lemma {:induction false} CheckedRunKeepsInvariant(e: EngineState, steps: seq<Step>)
    requires Invariant(e) && DetachmentReported(e)
    ensures Invariant(CheckedRun(e, steps)) && DetachmentReported(CheckedRun(e, steps))
    decreases |steps|
  {
    if steps != [] {
      CheckedStepKeepsInvariant(e, steps[0]);
      CheckedRunKeepsInvariant(CheckedNext(e, steps[0]), steps[1..]);
    }
  }

  /**
   * Both halves of the overlay invariant for the corrected callback: from any
   * well-formed container, after any steps, at most one overlay is attached,
   * and once every record has been delivered the reference, if set, names a
   * node in the container.
   */
  lemma CheckedOverlayKept(d: DomState, steps: seq<Step>)
    requires Wellformed(d)
    ensures var r := CheckedRun(Init(d), steps);
      AtMostOneOverlay(r) && (r.dom.records == [] ==> OverlayInPlace(r))
  {
    CheckedRunKeepsInvariant(Init(d), steps);
    InvariantGivesOneOverlay(CheckedRun(Init(d), steps));
  }
}
