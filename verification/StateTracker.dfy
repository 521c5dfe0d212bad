/** src/dawn_native/CommandBufferStateTracker: whether a draw, a dispatch or a trace may run, decided
    from cached aspects of which two are recomputed lazily, against a direct check of the history. */
module StateTracking {

  type LayoutId = nat
  datatype Aspect = PIPELINE | BIND_GROUPS | VERTEX_BUFFERS | INDEX_BUFFER
  datatype Verdict = Accepted | MissingIndexBuffer | MissingVertexBuffer | MissingBindGroup | MissingPipeline

  const DISPATCH_ASPECTS: set<Aspect> := {PIPELINE, BIND_GROUPS}
  const TRACE_RAYS_ASPECTS: set<Aspect> := {PIPELINE, BIND_GROUPS}
  const DRAW_ASPECTS: set<Aspect> := {PIPELINE, BIND_GROUPS, VERTEX_BUFFERS}
  const DRAW_INDEXED_ASPECTS: set<Aspect> := {PIPELINE, BIND_GROUPS, VERTEX_BUFFERS, INDEX_BUFFER}
  const LAZY_ASPECTS: set<Aspect> := {BIND_GROUPS, VERTEX_BUFFERS}

  /** A pipeline: the layout of each group it uses and, for a render pipeline, its vertex buffer slots. */
  datatype Pipeline = Pipeline(layout: map<nat, LayoutId>, vertexSlots: set<nat>)

  datatype Tracker = Tracker(aspects: set<Aspect>, groups: map<nat, LayoutId>, slots: set<nat>, pipeline: Pipeline)

  const FRESH: Tracker := Tracker({}, map[], {}, Pipeline(map[], {}))

  datatype Event =
    | SetPipeline(pipeline: Pipeline)
    | SetBindGroup(index: nat, layout: LayoutId)
    | SetIndexBuffer
    | SetVertexBuffer(slot: nat)
    | Operation(required: set<Aspect>)

  /** Every group of the layout is bound to a group made with that very layout. */
  predicate GroupsMatch(layout: map<nat, LayoutId>, groups: map<nat, LayoutId>) {
    forall i :: i in layout ==> i in groups && layout[i] == groups[i]
  }

  function CheckMissing(missing: set<Aspect>): (v: Verdict)
    ensures v == Accepted <==> missing == {}
  {
    if missing == {} then Accepted
    else if INDEX_BUFFER in missing then MissingIndexBuffer
    else if VERTEX_BUFFERS in missing then MissingVertexBuffer
    else if BIND_GROUPS in missing then MissingBindGroup
    else MissingPipeline
  }

  function Recompute(t: Tracker, missing: set<Aspect>): (t': Tracker) {
    var matches := BIND_GROUPS in missing && GroupsMatch(t.pipeline.layout, t.groups);
    var a1 := if matches then t.aspects + {BIND_GROUPS} else t.aspects;
    var a2 := if VERTEX_BUFFERS in missing && t.pipeline.vertexSlots <= t.slots then a1 + {VERTEX_BUFFERS} else a1;
    t.(aspects := a2)
  }

  function Validate(t: Tracker, required: set<Aspect>): (r: (Verdict, Tracker)) {
    var missing := required - t.aspects;
    if missing == {} then (Accepted, t)
    else if missing - LAZY_ASPECTS != {} then (CheckMissing(missing - LAZY_ASPECTS), t)
    else
      var t' := Recompute(t, missing);
      (CheckMissing(required - t'.aspects), t')
  }

  function Apply(t: Tracker, e: Event): (t': Tracker) {
    match e
    case SetPipeline(p) => t.(pipeline := p, aspects := (t.aspects + {PIPELINE}) - LAZY_ASPECTS)
    case SetBindGroup(i, layout) => t.(groups := t.groups[i := layout])
    case SetIndexBuffer => t.(aspects := t.aspects + {INDEX_BUFFER})
    case SetVertexBuffer(slot) => t.(slots := t.slots + {slot})
    case Operation(required) => Validate(t, required).1
  }

  function Run(es: seq<Event>): (t: Tracker) {
    if es == [] then FRESH else Apply(Run(es[..|es| - 1]), es[|es| - 1])
  }

  // What the history says, without any cached aspect.

  predicate PipelineSet(es: seq<Event>) {
    exists k :: 0 <= k < |es| && es[k].SetPipeline?
  }

  predicate IndexSet(es: seq<Event>) {
    exists k :: 0 <= k < |es| && es[k].SetIndexBuffer?
  }

  function CurrentPipeline(es: seq<Event>): (p: Pipeline) {
    if es == [] then Pipeline(map[], {})
    else if es[|es| - 1].SetPipeline? then es[|es| - 1].pipeline
    else CurrentPipeline(es[..|es| - 1])
  }

  function BoundGroups(es: seq<Event>): (g: map<nat, LayoutId>) {
    if es == [] then map[]
    else
      var g := BoundGroups(es[..|es| - 1]);
      var e := es[|es| - 1];
      if e.SetBindGroup? then g[e.index := e.layout] else g
  }

  predicate SlotSet(es: seq<Event>, slot: nat) {
    exists k :: 0 <= k < |es| && es[k] == SetVertexBuffer(slot)
  }

  predicate GroupsNow(es: seq<Event>) {
    GroupsMatch(CurrentPipeline(es).layout, BoundGroups(es))
  }

  predicate SlotsNow(es: seq<Event>) {
    forall slot :: slot in CurrentPipeline(es).vertexSlots ==> SlotSet(es, slot)
  }

  /** Everything but the groups, checked now. */
  predicate OthersNow(es: seq<Event>, required: set<Aspect>) {
    && (PIPELINE in required ==> PipelineSet(es))
    && (INDEX_BUFFER in required ==> IndexSet(es))
    && (VERTEX_BUFFERS in required ==> SlotsNow(es))
  }

  /** The direct check. */
  predicate Direct(es: seq<Event>, required: set<Aspect>) {
    OthersNow(es, required) && (BIND_GROUPS in required ==> GroupsNow(es))
  }

  /** An operation at position k looked at the groups and found them right. */
  predicate GroupsSeenAt(es: seq<Event>, k: nat)
    requires k < |es|
  {
    && es[k].Operation? && PipelineSet(es[..k]) && (INDEX_BUFFER in es[k].required ==> IndexSet(es[..k]))
    && GroupsNow(es[..k])
  }

  /** ... and no pipeline has been set since. */
  ghost predicate GroupsSeen(es: seq<Event>) {
    exists k :: 0 <= k < |es| && GroupsSeenAt(es, k) && forall j :: k < j < |es| ==> !es[j].SetPipeline?
  }

  /** The operations that exist all need a pipeline and its groups. */
  predicate IsOperation(required: set<Aspect>) {
    PIPELINE in required && BIND_GROUPS in required
  }

  predicate WellFormed(es: seq<Event>) {
    forall k :: 0 <= k < |es| && es[k].Operation? ==> IsOperation(es[k].required)
  }

  lemma GroupsSeenStep(es: seq<Event>, e: Event)
    ensures GroupsSeen(es + [e]) <==>
      if e.SetPipeline? then false
      else || GroupsSeen(es)
           || (e.Operation? && PipelineSet(es) && (INDEX_BUFFER in e.required ==> IndexSet(es)) && GroupsNow(es))
  {
    var es' := es + [e];
    assert es'[..|es|] == es;
    forall k | 0 <= k < |es| ensures es'[..k] == es[..k] && (GroupsSeenAt(es', k) <==> GroupsSeenAt(es, k)) { }
    if GroupsSeen(es') {
      var k :| 0 <= k < |es'| && GroupsSeenAt(es', k) && forall j :: k < j < |es'| ==> !es'[j].SetPipeline?;
      if k < |es| {
        assert !es'[|es|].SetPipeline?;
        assert GroupsSeenAt(es, k) && forall j :: k < j < |es| ==> !es'[j].SetPipeline?;
      }
    }
    if !e.SetPipeline? && GroupsSeen(es) {
      var k :| 0 <= k < |es| && GroupsSeenAt(es, k) && forall j :: k < j < |es| ==> !es[j].SetPipeline?;
      assert GroupsSeenAt(es', k);
    }
    if e.Operation? && PipelineSet(es) && (INDEX_BUFFER in e.required ==> IndexSet(es)) && GroupsNow(es) {
      assert GroupsSeenAt(es', |es|);
    }
  }

  /** What the tracker's fields mean in terms of the history. */
  ghost predicate Meaning(t: Tracker, es: seq<Event>) {
    && t.pipeline == CurrentPipeline(es) && t.groups == BoundGroups(es)
    && (forall slot :: slot in t.slots <==> SlotSet(es, slot))
    && (PIPELINE in t.aspects <==> PipelineSet(es))
    && (INDEX_BUFFER in t.aspects <==> IndexSet(es))
    && (VERTEX_BUFFERS in t.aspects ==> SlotsNow(es))
    && (BIND_GROUPS in t.aspects <==> GroupsSeen(es))
  }

  lemma SlotStep(es: seq<Event>, e: Event, slot: nat)
    ensures SlotSet(es + [e], slot) <==> SlotSet(es, slot) || e == SetVertexBuffer(slot)
    ensures PipelineSet(es + [e]) <==> PipelineSet(es) || e.SetPipeline?
    ensures IndexSet(es + [e]) <==> IndexSet(es) || e.SetIndexBuffer?
  {
    var es' := es + [e];
    forall k | 0 <= k < |es| ensures es'[k] == es[k] { }
    assert es'[|es|] == e;
  }

  lemma HistoryStep(es: seq<Event>, e: Event)
    ensures CurrentPipeline(es + [e]) == if e.SetPipeline? then e.pipeline else CurrentPipeline(es)
    ensures BoundGroups(es + [e]) == if e.SetBindGroup? then BoundGroups(es)[e.index := e.layout] else BoundGroups(es)
  {
    assert (es + [e])[..|es|] == es;
  }

  lemma SlotsStep(t: Tracker, es: seq<Event>, e: Event)
    requires forall slot :: slot in t.slots <==> SlotSet(es, slot)
    ensures forall slot :: slot in (if e.SetVertexBuffer? then t.slots + {e.slot} else t.slots) <==>
      SlotSet(es + [e], slot)
    ensures SlotsNow(es) && !e.SetPipeline? ==> SlotsNow(es + [e])
  {
    HistoryStep(es, e);
    var slots := if e.SetVertexBuffer? then t.slots + {e.slot} else t.slots;
    forall slot ensures slot in slots <==> SlotSet(es + [e], slot) { SlotStep(es, e, slot); }
    if SlotsNow(es) && !e.SetPipeline? {
      forall slot | slot in CurrentPipeline(es + [e]).vertexSlots ensures SlotSet(es + [e], slot) {
        assert SlotSet(es, slot);
        SlotStep(es, e, slot);
      }
    }
  }

  lemma MeaningAfterPipeline(t: Tracker, es: seq<Event>, p: Pipeline)
    requires Meaning(t, es)
    ensures Meaning(Apply(t, SetPipeline(p)), es + [SetPipeline(p)])
  {
    var e := SetPipeline(p);
    HistoryStep(es, e);
    GroupsSeenStep(es, e);
    SlotStep(es, e, 0);
    SlotsStep(t, es, e);
  }

  lemma MeaningAfterSetting(t: Tracker, es: seq<Event>, e: Event)
    requires Meaning(t, es) && !e.SetPipeline? && !e.Operation?
    ensures Meaning(Apply(t, e), es + [e])
  {
    HistoryStep(es, e);
    GroupsSeenStep(es, e);
    SlotStep(es, e, 0);
    SlotsStep(t, es, e);
  }

  lemma MeaningAfterOperation(t: Tracker, es: seq<Event>, required: set<Aspect>)
    requires Meaning(t, es) && IsOperation(required)
    ensures Meaning(Apply(t, Operation(required)), es + [Operation(required)])
  {
    var e := Operation(required);
    HistoryStep(es, e);
    GroupsSeenStep(es, e);
    SlotStep(es, e, 0);
    SlotsStep(t, es, e);
    AspectsAfter(t, required);
    assert t.pipeline.vertexSlots <= t.slots ==> SlotsNow(es);
  }

  lemma MeaningStep(t: Tracker, es: seq<Event>, e: Event)
    requires Meaning(t, es) && (e.Operation? ==> IsOperation(e.required))
    ensures Meaning(Apply(t, e), es + [e])
  {
    if e.SetPipeline? {
      MeaningAfterPipeline(t, es, e.pipeline);
    } else if e.Operation? {
      MeaningAfterOperation(t, es, e.required);
    } else {
      MeaningAfterSetting(t, es, e);
    }
  }

  /** What an operation does to the cached aspects. */
  lemma AspectsAfter(t: Tracker, required: set<Aspect>)
    requires IsOperation(required)
    ensures var t' := Validate(t, required).1;
      && t' == t.(aspects := t'.aspects)
      && (PIPELINE in t'.aspects <==> PIPELINE in t.aspects)
      && (INDEX_BUFFER in t'.aspects <==> INDEX_BUFFER in t.aspects)
      && (VERTEX_BUFFERS in t'.aspects ==> VERTEX_BUFFERS in t.aspects || t.pipeline.vertexSlots <= t.slots)
      && (BIND_GROUPS in t'.aspects <==>
            || BIND_GROUPS in t.aspects
            || (&& PIPELINE in t.aspects && (INDEX_BUFFER in required ==> INDEX_BUFFER in t.aspects)
                && GroupsMatch(t.pipeline.layout, t.groups)))
  {
    var missing := required - t.aspects;
    if missing != {} && missing - LAZY_ASPECTS != {} {
      NonLazyMissing(missing);
    } else if missing != {} {
      LazyMissing(missing);
    } else {
      assert BIND_GROUPS !in missing;
    }
  }

  lemma NonLazyMissing(missing: set<Aspect>)
    requires missing - LAZY_ASPECTS != {}
    ensures PIPELINE in missing || INDEX_BUFFER in missing
  {
    var a :| a in missing - LAZY_ASPECTS;
    assert a == PIPELINE || a == INDEX_BUFFER;
  }

  lemma LazyMissing(missing: set<Aspect>)
    requires missing - LAZY_ASPECTS == {}
    ensures PIPELINE !in missing && INDEX_BUFFER !in missing
  {
    assert PIPELINE in missing ==> PIPELINE in missing - LAZY_ASPECTS;
    assert INDEX_BUFFER in missing ==> INDEX_BUFFER in missing - LAZY_ASPECTS;
  }

  /** The cached fields mean what the history says, after every sequence of commands. */
  lemma {:induction false} MeaningOfRun(es: seq<Event>)
    requires WellFormed(es)
    ensures Meaning(Run(es), es)
  {
    if es != [] {
      var n := |es| - 1;
      MeaningOfRun(es[..n]);
      MeaningStep(Run(es[..n]), es[..n], es[n]);
      assert es[..n] + [es[n]] == es;
    }
  }

  /** The verdict on an operation, from the history: a missing index buffer is reported first, then a missing
      pipeline, then vertex buffers, and then groups that neither match now nor were found to match by an
      earlier operation since the pipeline was set. */
  ghost function VerdictOf(es: seq<Event>, required: set<Aspect>): (v: Verdict) {
    if INDEX_BUFFER in required && !IndexSet(es) then MissingIndexBuffer
    else if !PipelineSet(es) then MissingPipeline
    else if VERTEX_BUFFERS in required && !SlotsNow(es) then MissingVertexBuffer
    else if !GroupsNow(es) && !GroupsSeen(es) then MissingBindGroup
    else Accepted
  }

  lemma VerdictExactly(es: seq<Event>, required: set<Aspect>)
    requires WellFormed(es) && IsOperation(required)
    ensures Validate(Run(es), required).0 == VerdictOf(es, required)
  {
    MeaningOfRun(es);
    var t := Run(es);
    var missing := required - t.aspects;
    assert t.pipeline.vertexSlots <= t.slots <==> SlotsNow(es);
    if missing == {} {
      forall a | a in required ensures a in t.aspects { assert a in missing <==> a !in t.aspects; }
    } else if missing - LAZY_ASPECTS != {} {
      NonLazyMissing(missing);
      assert INDEX_BUFFER in missing - LAZY_ASPECTS <==> INDEX_BUFFER in missing;
    } else {
      LazyMissing(missing);
      AspectsCovered(required, t, Recompute(t, missing), missing);
      LazyVerdict(required, t, missing);
    }
  }

  /** Of the lazy aspects, vertex buffers are reported before groups. */
  lemma LazyVerdict(required: set<Aspect>, t: Tracker, missing: set<Aspect>)
    requires IsOperation(required) && missing == required - t.aspects
    requires PIPELINE !in missing && INDEX_BUFFER !in missing
    ensures var v := CheckMissing(required - Recompute(t, missing).aspects);
      var slots := VERTEX_BUFFERS in required ==> VERTEX_BUFFERS in t.aspects || t.pipeline.vertexSlots <= t.slots;
      v == Accepted || v == if slots then MissingBindGroup else MissingVertexBuffer
  {
    var left := required - Recompute(t, missing).aspects;
    forall a | a in left ensures a == BIND_GROUPS || a == VERTEX_BUFFERS {}
    if left != {} { var a :| a in left; }
  }

  /** Exactly when an operation is accepted. */
  lemma AcceptedExactly(es: seq<Event>, required: set<Aspect>)
    requires WellFormed(es) && IsOperation(required)
    ensures Validate(Run(es), required).0 == Accepted <==>
      OthersNow(es, required) && (GroupsNow(es) || GroupsSeen(es))
  {
    VerdictExactly(es, required);
  }

  lemma AspectsCovered(required: set<Aspect>, t: Tracker, t': Tracker, missing: set<Aspect>)
    requires IsOperation(required) && missing == required - t.aspects && t' == Recompute(t, missing)
    requires PIPELINE !in missing && INDEX_BUFFER !in missing
    ensures required - t'.aspects == {} <==>
      && (BIND_GROUPS in t.aspects || GroupsMatch(t.pipeline.layout, t.groups))
      && (VERTEX_BUFFERS in required ==> VERTEX_BUFFERS in t.aspects || t.pipeline.vertexSlots <= t.slots)
  {
    forall a | a in required && a != BIND_GROUPS && a != VERTEX_BUFFERS ensures a in t'.aspects {
      assert a == PIPELINE || a == INDEX_BUFFER;
    }
    if required - t'.aspects == {} {
      assert BIND_GROUPS !in required - t'.aspects && VERTEX_BUFFERS !in required - t'.aspects;
    }
  }

  /** What the operations need: nothing else is asked of a dispatch or a trace than a pipeline and its groups. */
  lemma WhatOperationsNeed(es: seq<Event>)
    requires WellFormed(es)
    ensures var groups := GroupsNow(es) || GroupsSeen(es);
      && (Validate(Run(es), DISPATCH_ASPECTS).0 == Accepted <==> PipelineSet(es) && groups)
      && (Validate(Run(es), TRACE_RAYS_ASPECTS).0 == Accepted <==> PipelineSet(es) && groups)
      && (Validate(Run(es), DRAW_ASPECTS).0 == Accepted <==> PipelineSet(es) && groups && SlotsNow(es))
      && (Validate(Run(es), DRAW_INDEXED_ASPECTS).0 == Accepted <==>
        PipelineSet(es) && groups && SlotsNow(es) && IndexSet(es))
  {
    AcceptedExactly(es, DISPATCH_ASPECTS);
    AcceptedExactly(es, TRACE_RAYS_ASPECTS);
    AcceptedExactly(es, DRAW_ASPECTS);
    AcceptedExactly(es, DRAW_INDEXED_ASPECTS);
  }

  /** The fast path never refuses what the direct check allows. */
  lemma DirectIsAccepted(es: seq<Event>, required: set<Aspect>)
    requires WellFormed(es) && IsOperation(required) && Direct(es, required)
    ensures Validate(Run(es), required).0 == Accepted
  {
    AcceptedExactly(es, required);
  }

  lemma {:induction false} SameSince(es: seq<Event>, k: nat)
    requires k < |es| && (forall j :: k <= j < |es| ==> !es[j].SetPipeline?)
    ensures CurrentPipeline(es[..k]) == CurrentPipeline(es)
    decreases |es|
  {
    var n := |es| - 1;
    if k < n {
      SameSince(es[..n], k);
      assert es[..n][..k] == es[..k];
    }
  }

  lemma {:induction false} GroupsStable(es: seq<Event>, k: nat)
    requires k <= |es| && GroupsMatch(CurrentPipeline(es).layout, BoundGroups(es[..k]))
    requires forall j :: k <= j < |es| && es[j].SetBindGroup? && es[j].index in CurrentPipeline(es).layout ==>
      es[j].index in BoundGroups(es[..j]) && BoundGroups(es[..j])[es[j].index] == es[j].layout
    ensures GroupsNow(es)
    decreases |es| - k
  {
    if k < |es| {
      assert es[..k + 1] == es[..k] + [es[k]];
      HistoryStep(es[..k], es[k]);
      GroupsStable(es, k + 1);
    } else {
      assert es[..k] == es;
    }
  }

  /** Acceptance means that the groups matched the current pipeline at some command since it was set,
      and that they still do if no later command gave one of its groups another layout. */
  lemma AcceptedMeansGroupsMatched(es: seq<Event>, required: set<Aspect>) returns (k: nat)
    requires WellFormed(es) && IsOperation(required) && Validate(Run(es), required).0 == Accepted
    ensures OthersNow(es, required)
    ensures k <= |es| && CurrentPipeline(es[..k]) == CurrentPipeline(es) && GroupsNow(es[..k])
    ensures forall j :: k <= j < |es| ==> !es[j].SetPipeline?
    ensures (forall j :: k <= j < |es| && es[j].SetBindGroup? && es[j].index in CurrentPipeline(es).layout ==>
               es[j].index in BoundGroups(es[..j])
                 && BoundGroups(es[..j])[es[j].index] == es[j].layout) ==> GroupsNow(es)
  {
    AcceptedExactly(es, required);
    if GroupsNow(es) {
      k := |es|;
      assert es[..k] == es;
    } else {
      k :| 0 <= k < |es| && GroupsSeenAt(es, k) && forall j :: k < j < |es| ==> !es[j].SetPipeline?;
      SameSince(es, k);
      if forall j :: k <= j < |es| && es[j].SetBindGroup? && es[j].index in CurrentPipeline(es).layout ==>
           es[j].index in BoundGroups(es[..j]) && BoundGroups(es[..j])[es[j].index] == es[j].layout {
        GroupsStable(es, k);
      }
    }
  }

  /** Rebinding a group with another layout after an accepted operation goes unnoticed. */
  lemma StaleGroupsAccepted()
    ensures var es := [SetPipeline(Pipeline(map[0 := 1], {})), SetBindGroup(0, 1), Operation(DISPATCH_ASPECTS),
      SetBindGroup(0, 2)];
      WellFormed(es) && Validate(Run(es), DISPATCH_ASPECTS).0 == Accepted && !GroupsNow(es)
  {
    var p := Pipeline(map[0 := 1], {});
    var e0: seq<Event> := [];
    var e1 := e0 + [SetPipeline(p)];
    var e2 := e1 + [SetBindGroup(0, 1)];
    var e3 := e2 + [Operation(DISPATCH_ASPECTS)];
    var e4 := e3 + [SetBindGroup(0, 2)];
    assert e4 == [SetPipeline(p), SetBindGroup(0, 1), Operation(DISPATCH_ASPECTS), SetBindGroup(0, 2)];
    HistoryStep(e0, SetPipeline(p));
    HistoryStep(e1, SetBindGroup(0, 1));
    HistoryStep(e2, Operation(DISPATCH_ASPECTS));
    HistoryStep(e3, SetBindGroup(0, 2));
    SlotStep(e0, SetPipeline(p), 0);
    SlotStep(e1, SetBindGroup(0, 1), 0);
    SlotStep(e2, Operation(DISPATCH_ASPECTS), 0);
    SlotStep(e3, SetBindGroup(0, 2), 0);
    GroupsSeenStep(e2, Operation(DISPATCH_ASPECTS));
    GroupsSeenStep(e3, SetBindGroup(0, 2));
    AcceptedExactly(e4, DISPATCH_ASPECTS);
    assert CurrentPipeline(e4).layout[0] == 1 && BoundGroups(e4)[0] == 2;
  }

  /** The tracker object: its methods follow the functions above. */
  class CommandBufferStateTracker {
    var aspects: set<Aspect>
    var bindgroups: map<nat, LayoutId>
    var vertexBufferSlotsUsed: set<nat>
    var lastPipeline: Pipeline

    function Snapshot(): (t: Tracker)
      reads this
    {
      Tracker(aspects, bindgroups, vertexBufferSlotsUsed, lastPipeline)
    }

    constructor ()
      ensures Snapshot() == FRESH
    {
      aspects, bindgroups, vertexBufferSlotsUsed, lastPipeline := {}, map[], {}, Pipeline(map[], {});
    }

    method SetPipelineCommon(pipeline: Pipeline)
      modifies this
      ensures Snapshot() == Apply(old(Snapshot()), SetPipeline(pipeline))
    {
      lastPipeline := pipeline;
      aspects := aspects + {PIPELINE};
      // Lazy aspects are recomputed on the next operation.
      aspects := aspects - LAZY_ASPECTS;
    }

    method SetGroup(index: nat, layout: LayoutId)
      modifies this
      ensures Snapshot() == Apply(old(Snapshot()), SetBindGroup(index, layout))
    {
      bindgroups := bindgroups[index := layout];
    }

    method SetIndex()
      modifies this
      ensures Snapshot() == Apply(old(Snapshot()), SetIndexBuffer)
    {
      aspects := aspects + {INDEX_BUFFER};
    }

    method SetVertex(slot: nat)
      modifies this
      ensures Snapshot() == Apply(old(Snapshot()), SetVertexBuffer(slot))
    {
      vertexBufferSlotsUsed := vertexBufferSlotsUsed + {slot};
    }

    method RecomputeLazyAspects(missing: set<Aspect>)
      modifies this
      ensures Snapshot() == Recompute(old(Snapshot()), missing)
    {
      if BIND_GROUPS in missing {
        var remaining := lastPipeline.layout.Keys;
        var matches := true;
        while remaining != {} && matches
          invariant remaining <= lastPipeline.layout.Keys && Snapshot() == old(Snapshot())
          invariant forall i :: i in lastPipeline.layout && i !in remaining && matches ==>
            i in bindgroups && lastPipeline.layout[i] == bindgroups[i]
          invariant !matches ==> !GroupsMatch(lastPipeline.layout, bindgroups)
        {
          var i :| i in remaining;
          remaining := remaining - {i};
          if i !in bindgroups || lastPipeline.layout[i] != bindgroups[i] {
            matches := false;
          }
        }
        if matches {
          aspects := aspects + {BIND_GROUPS};
        }
      }
      if VERTEX_BUFFERS in missing {
        if lastPipeline.vertexSlots <= vertexBufferSlotsUsed {
          aspects := aspects + {VERTEX_BUFFERS};
        }
      }
    }

    method ValidateOperation(required: set<Aspect>) returns (v: Verdict)
      modifies this
      ensures (v, Snapshot()) == Validate(old(Snapshot()), required)
    {
      var missing := required - aspects;
      if missing == {} {
        return Accepted;
      }
      // Computing a lazy aspect needs the pipeline to be set.
      v := CheckMissing(missing - LAZY_ASPECTS);
      if v != Accepted {
        return;
      }
      RecomputeLazyAspects(missing);
      v := CheckMissing(required - aspects);
    }
  }
}
