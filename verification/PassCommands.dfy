/** The commands of a stream, and what they say about the state that a draw, a dispatch or a trace needs:
    the command structures of src/dawn_native/Commands.h, and the state tracking of CommandValidation.cpp
    told from positions of the stream alone. */
module PassCommands {
  import opened Wrappers
  import opened StateTracking

  datatype Kind = RenderPass | ComputePass | RayTracingPass

  datatype Command =
    | Begin(kind: Kind)
    | End(kind: Kind)
    /** Copies and acceleration container commands, with the outcome of the container's own check. */
    | TopLevel(usable: bool)
    | InsertDebugMarker
    | PushDebugGroup
    | PopDebugGroup
    /** SetRenderPipeline, with whether it suits the attachments of the pass, SetComputePipeline or
        SetRayTracingPipeline. */
    | SetPassPipeline(kind: Kind, pipeline: Pipeline, compatible: bool)
    | SetGroup(index: nat, layout: LayoutId)
    | SetIndex
    | SetVertex(slot: nat)
    /** A draw, direct or indirect. */
    | Draw(indexed: bool)
    | Dispatch
    | TraceRays
    /** Stencil reference, blend colour, viewport, scissor. */
    | SetRenderState
    /** With whether all the bundles suit the attachments of the pass. */
    | ExecuteBundles(count: nat, compatible: bool)

  predicate IsOperate(c: Command) {
    c.Draw? || c.Dispatch? || c.TraceRays?
  }

  /** The aspects that the validation asks the tracker for. */
  function Required(c: Command): (r: set<Aspect>)
    requires IsOperate(c)
  {
    match c
    case Draw(indexed) => if indexed then DRAW_INDEXED_ASPECTS else DRAW_ASPECTS
    case Dispatch => DISPATCH_ASPECTS
    case TraceRays => TRACE_RAYS_ASPECTS
  }

  predicate IsPipeline(c: Command) {
    c.SetPassPipeline?
  }

  predicate Binds(c: Command, i: nat) {
    c.SetGroup? && c.index == i
  }

  /** Executing bundles makes the tracker forget everything. */
  predicate Forgets(c: Command) {
    c.ExecuteBundles? && c.count > 0
  }

  // What is known at a position of a pass that started at `from`, said by positions.

  /** What was set at p is not forgotten at q. */
  predicate Kept(cs: seq<Command>, p: nat, q: nat)
    requires q <= |cs|
  {
    forall b {:trigger Forgets(cs[b])} :: p < b < q ==> !Forgets(cs[b])
  }

  /** The pipeline of q is the one set at p. */
  predicate PipelineAt(cs: seq<Command>, from: nat, p: nat, q: nat)
    requires q <= |cs|
  {
    && from <= p < q && IsPipeline(cs[p]) && Kept(cs, p, q)
    && forall j {:trigger IsPipeline(cs[j])} :: p < j < q ==> !IsPipeline(cs[j])
  }

  /** Group i is bound at p, with the layout, and not bound again. */
  predicate BoundAt(cs: seq<Command>, from: nat, p: nat, q: nat, i: nat, layout: LayoutId)
    requires q <= |cs|
  {
    && from <= p < q && cs[p] == SetGroup(i, layout) && Kept(cs, p, q)
    && forall j {:trigger Binds(cs[j], i)} :: p < j < q ==> !Binds(cs[j], i)
  }

  ghost predicate Bound(cs: seq<Command>, from: nat, q: nat, i: nat, layout: LayoutId)
    requires q <= |cs|
  {
    exists p: nat :: BoundAt(cs, from, p, q, i, layout)
  }

  predicate GivenAt(cs: seq<Command>, from: nat, p: nat, q: nat, c: Command)
    requires q <= |cs|
  {
    from <= p < q && cs[p] == c && Kept(cs, p, q)
  }

  /** The command was given and is not forgotten. */
  ghost predicate Given(cs: seq<Command>, from: nat, q: nat, c: Command)
    requires q <= |cs|
  {
    exists p: nat :: GivenAt(cs, from, p, q, c)
  }

  /** Every group of the layout is bound with that layout. */
  ghost predicate AllBound(cs: seq<Command>, from: nat, q: nat, layout: map<nat, LayoutId>)
    requires q <= |cs|
  {
    forall i {:trigger Bound(cs, from, q, i, layout[i])} :: i in layout ==> Bound(cs, from, q, i, layout[i])
  }

  /** An operation at k looked at the groups of the layout and found them bound. */
  ghost predicate LookedAt(cs: seq<Command>, from: nat, k: nat, layout: map<nat, LayoutId>)
    requires k < |cs|
  {
    IsOperate(cs[k]) && (cs[k] == Draw(true) ==> Given(cs, from, k, SetIndex)) && AllBound(cs, from, k, layout)
  }

  /** An operation since the pipeline was set at p has found its groups bound. */
  ghost predicate SeenSince(cs: seq<Command>, from: nat, p: nat, q: nat)
    requires p < q <= |cs| && IsPipeline(cs[p])
  {
    exists k {:trigger LookedAt(cs, from, k, cs[p].pipeline.layout)} ::
      p < k < q && LookedAt(cs, from, k, cs[p].pipeline.layout)
  }

  /** The groups of the pipeline set at p are bound, or an operation since then has found them bound. */
  ghost predicate GroupsFine(cs: seq<Command>, from: nat, p: nat, q: nat)
    requires q <= |cs| && PipelineAt(cs, from, p, q)
  {
    var layout := cs[p].pipeline.layout;
    AllBound(cs, from, q, layout) || SeenSince(cs, from, p, q)
  }

  ghost predicate SlotsFine(cs: seq<Command>, from: nat, p: nat, q: nat)
    requires q <= |cs| && PipelineAt(cs, from, p, q)
  {
    forall slot {:trigger Given(cs, from, q, SetVertex(slot))} :: slot in cs[p].pipeline.vertexSlots ==>
      Given(cs, from, q, SetVertex(slot))
  }

  /** The operation at q has what it needs: a pipeline and its groups, for a draw the vertex buffers of the
      pipeline, and for an indexed draw an index buffer. */
  ghost predicate CanOperate(cs: seq<Command>, from: nat, q: nat)
    requires q < |cs|
  {
    exists p: nat ::
      && PipelineAt(cs, from, p, q) && GroupsFine(cs, from, p, q)
      && (cs[q].Draw? ==> SlotsFine(cs, from, p, q))
      && (cs[q] == Draw(true) ==> Given(cs, from, q, SetIndex))
  }

  // What the state tracker is told.

  /** What a command tells the state tracker. */
  function EventOf(c: Command): (e: Option<Event>) {
    match c
    case SetPassPipeline(_, p, _) => Some(SetPipeline(p))
    case SetGroup(i, layout) => Some(SetBindGroup(i, layout))
    case SetIndex => Some(SetIndexBuffer)
    case SetVertex(slot) => Some(SetVertexBuffer(slot))
    case Draw(_) => Some(Operation(Required(c)))
    case Dispatch => Some(Operation(Required(c)))
    case TraceRays => Some(Operation(Required(c)))
    case _ => None
  }

  /** What the commands in [from, stop) tell the state tracker. */
  function Events(cs: seq<Command>, from: nat, stop: nat): (es: seq<Event>)
    requires from <= stop <= |cs|
  {
    if from == stop then [] else
    var es := Events(cs, from, stop - 1);
    var c := cs[stop - 1];
    if Forgets(c) then []
    else if EventOf(c).Some? then es + [EventOf(c).value]
    else es
  }

  lemma RunAppend(es: seq<Event>, e: Event)
    ensures StateTracking.Run(es + [e]) == Apply(StateTracking.Run(es), e)
  {
    assert (es + [e])[..|es|] == es;
  }

  lemma {:induction false} EventsWellFormed(cs: seq<Command>, from: nat, q: nat)
    requires from <= q <= |cs|
    ensures WellFormed(Events(cs, from, q))
    decreases q - from
  {
    if from < q { EventsWellFormed(cs, from, q - 1); }
  }

  // The two agree, command by command.

  lemma GivenStep(cs: seq<Command>, from: nat, q: nat, c: Command)
    requires from <= q < |cs|
    ensures Given(cs, from, q + 1, c) <==> (Given(cs, from, q, c) && !Forgets(cs[q])) || cs[q] == c
  {
    if Given(cs, from, q + 1, c) {
      var p: nat :| GivenAt(cs, from, p, q + 1, c);
      assert p < q ==> GivenAt(cs, from, p, q, c) && !Forgets(cs[q]);
    }
    if Given(cs, from, q, c) && !Forgets(cs[q]) {
      var p: nat :| GivenAt(cs, from, p, q, c);
      assert GivenAt(cs, from, p, q + 1, c);
    }
    if cs[q] == c { assert GivenAt(cs, from, q, q + 1, c); }
  }

  lemma BoundStep(cs: seq<Command>, from: nat, q: nat, i: nat, layout: LayoutId)
    requires from <= q < |cs|
    ensures Bound(cs, from, q + 1, i, layout) <==>
      if Binds(cs[q], i) then cs[q].layout == layout
      else Bound(cs, from, q, i, layout) && !Forgets(cs[q])
  {
    if Bound(cs, from, q + 1, i, layout) {
      var p: nat :| BoundAt(cs, from, p, q + 1, i, layout);
      assert p < q ==> BoundAt(cs, from, p, q, i, layout) && !Forgets(cs[q]);
    }
    if Bound(cs, from, q, i, layout) && !Forgets(cs[q]) && !Binds(cs[q], i) {
      var p: nat :| BoundAt(cs, from, p, q, i, layout);
      assert BoundAt(cs, from, p, q + 1, i, layout);
    }
    if cs[q] == SetGroup(i, layout) { assert BoundAt(cs, from, q, q + 1, i, layout); }
  }

  lemma {:induction false} GivenMeans(cs: seq<Command>, from: nat, q: nat, slot: nat)
    requires from <= q <= |cs|
    ensures Given(cs, from, q, SetIndex) <==> IndexSet(Events(cs, from, q))
    ensures Given(cs, from, q, SetVertex(slot)) <==> SlotSet(Events(cs, from, q), slot)
    decreases q - from
  {
    if from < q {
      GivenMeans(cs, from, q - 1, slot);
      GivenStep(cs, from, q - 1, SetIndex);
      GivenStep(cs, from, q - 1, SetVertex(slot));
      var e := EventOf(cs[q - 1]);
      if e.Some? { SlotStep(Events(cs, from, q - 1), e.value, slot); }
    }
  }

  lemma {:induction false} BoundMeans(cs: seq<Command>, from: nat, q: nat, i: nat, layout: LayoutId)
    requires from <= q <= |cs|
    ensures Bound(cs, from, q, i, layout) <==>
      i in BoundGroups(Events(cs, from, q)) && BoundGroups(Events(cs, from, q))[i] == layout
    decreases q - from
  {
    if from < q {
      BoundMeans(cs, from, q - 1, i, layout);
      BoundStep(cs, from, q - 1, i, layout);
      var e := EventOf(cs[q - 1]);
      if e.Some? { HistoryStep(Events(cs, from, q - 1), e.value); }
    }
  }

  /** The pipeline of a position, if there is one. */
  lemma {:induction false} PipelineMeans(cs: seq<Command>, from: nat, q: nat) returns (p: nat)
    requires from <= q <= |cs|
    ensures PipelineSet(Events(cs, from, q)) <==> PipelineAt(cs, from, p, q)
    ensures PipelineAt(cs, from, p, q) ==> CurrentPipeline(Events(cs, from, q)) == cs[p].pipeline
    ensures !PipelineAt(cs, from, p, q) ==> forall p': nat :: !PipelineAt(cs, from, p', q)
    decreases q - from
  {
    p := q;
    if from < q {
      var n := q - 1;
      p := PipelineMeans(cs, from, n);
      var e := EventOf(cs[n]);
      if e.Some? {
        SlotStep(Events(cs, from, n), e.value, 0);
        HistoryStep(Events(cs, from, n), e.value);
      }
      forall p': nat | p' < n ensures PipelineAt(cs, from, p', q) <==>
        PipelineAt(cs, from, p', n) && !Forgets(cs[n]) && !IsPipeline(cs[n]) {}
      if IsPipeline(cs[n]) { p := n; }
    }
  }

  lemma OnePipeline(cs: seq<Command>, from: nat, p: nat, r: nat, q: nat)
    requires q <= |cs| && PipelineAt(cs, from, p, q) && PipelineAt(cs, from, r, q)
    ensures p == r
  {
  }

  lemma GroupsMean(cs: seq<Command>, from: nat, p: nat, q: nat)
    requires from <= q <= |cs| && PipelineAt(cs, from, p, q)
    ensures AllBound(cs, from, q, cs[p].pipeline.layout) <==> GroupsNow(Events(cs, from, q))
  {
    var r := PipelineMeans(cs, from, q);
    OnePipeline(cs, from, p, r, q);
    var layout := cs[p].pipeline.layout;
    forall i | i in layout
      ensures Bound(cs, from, q, i, layout[i]) <==>
        i in BoundGroups(Events(cs, from, q)) && BoundGroups(Events(cs, from, q))[i] == layout[i]
    {
      BoundMeans(cs, from, q, i, layout[i]);
    }
  }

  lemma {:induction false} SeenMeans(cs: seq<Command>, from: nat, p: nat, q: nat)
    requires from <= q <= |cs| && PipelineAt(cs, from, p, q)
    ensures SeenSince(cs, from, p, q) <==> GroupsSeen(Events(cs, from, q))
    decreases q - from
  {
    var n := q - 1;
    var es, e := Events(cs, from, n), EventOf(cs[n]);
    assert p < n ==> PipelineAt(cs, from, p, n);
    if p < n {
      SeenMeans(cs, from, p, n);
      SeenStep(cs, from, p, n);
      GroupsMean(cs, from, p, n);
      GivenMeans(cs, from, n, 0);
      var r := PipelineMeans(cs, from, n);
      OnePipeline(cs, from, p, r, n);
    }
    assert p < n ==> !IsPipeline(cs[n]) && !Forgets(cs[n]);
    if e.Some? { GroupsSeenStep(es, e.value); }
  }

  lemma SeenStep(cs: seq<Command>, from: nat, p: nat, n: nat)
    requires p < n < |cs| && IsPipeline(cs[p])
    ensures SeenSince(cs, from, p, n + 1) <==>
      SeenSince(cs, from, p, n) || LookedAt(cs, from, n, cs[p].pipeline.layout)
  {
  }

  /** The tracker lets exactly the operations through that have what they need. */
  lemma OperateExactly(cs: seq<Command>, from: nat, q: nat)
    requires from <= q < |cs| && IsOperate(cs[q])
    ensures Validate(StateTracking.Run(Events(cs, from, q)), Required(cs[q])).0 == Accepted <==> CanOperate(cs, from, q)
  {
    var es := Events(cs, from, q);
    EventsWellFormed(cs, from, q);
    AcceptedExactly(es, Required(cs[q]));
    GivenMeans(cs, from, q, 0);
    var p := PipelineMeans(cs, from, q);
    if PipelineAt(cs, from, p, q) {
      GroupsMean(cs, from, p, q);
      SeenMeans(cs, from, p, q);
      SlotsMean(cs, from, p, q);
      forall p': nat | PipelineAt(cs, from, p', q) ensures p' == p { OnePipeline(cs, from, p, p', q); }
    }
  }

  lemma SlotsMean(cs: seq<Command>, from: nat, p: nat, q: nat)
    requires from <= q <= |cs| && PipelineAt(cs, from, p, q)
    ensures SlotsFine(cs, from, p, q) <==> SlotsNow(Events(cs, from, q))
  {
    var r := PipelineMeans(cs, from, q);
    OnePipeline(cs, from, p, r, q);
    forall slot | slot in cs[p].pipeline.vertexSlots
      ensures Given(cs, from, q, SetVertex(slot)) <==> SlotSet(Events(cs, from, q), slot)
    {
      GivenMeans(cs, from, q, slot);
    }
  }

  // Debug groups.

  ghost function Pushes(cs: seq<Command>, from: nat, stop: nat): (r: set<nat>)
    requires stop <= |cs|
  {
    set p | from <= p < stop && cs[p].PushDebugGroup?
  }

  ghost function Pops(cs: seq<Command>, from: nat, stop: nat): (r: set<nat>)
    requires stop <= |cs|
  {
    set p | from <= p < stop && cs[p].PopDebugGroup?
  }

  lemma GroupStep(cs: seq<Command>, from: nat, q: nat)
    requires from <= q < |cs|
    ensures |Pushes(cs, from, q + 1)| == |Pushes(cs, from, q)| + if cs[q].PushDebugGroup? then 1 else 0
    ensures |Pops(cs, from, q + 1)| == |Pops(cs, from, q)| + if cs[q].PopDebugGroup? then 1 else 0
  {
    OneMore(Pushes(cs, from, q), Pushes(cs, from, q + 1), q, cs[q].PushDebugGroup?);
    OneMore(Pops(cs, from, q), Pops(cs, from, q + 1), q, cs[q].PopDebugGroup?);
  }

  lemma OneMore(s: set<nat>, t: set<nat>, q: nat, more: bool)
    requires q !in s && (forall p :: p in t <==> p in s || (more && p == q))
    ensures |t| == |s| + if more then 1 else 0
  {
    assert t == if more then s + {q} else s;
  }
}
