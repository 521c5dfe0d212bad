/** Recording and validating a command buffer: src/dawn_native/EncodingContext decides who may write,
    CommandEncoder and the pass encoders write, and the Validate functions of CommandEncoder.cpp and
    CommandValidation.cpp consume the stream. The checks of one descriptor or one object are outcomes
    that the callers pass in. */
module Encoding {
  import opened Wrappers
  import opened StateTracking
  import opened PassCommands
  import Usages = UsageTracking

  predicate IsDebug(c: Command) {
    c.InsertDebugMarker? || c.PushDebugGroup? || c.PopDebugGroup?
  }

  /** What the methods of a CommandEncoder record, passes aside. */
  predicate TopCommand(c: Command) {
    c.TopLevel? || IsDebug(c)
  }

  /** What the methods of a pass encoder of the given kind record. */
  predicate PassCommand(kind: Kind, c: Command) {
    || IsDebug(c) || c.SetGroup? || (c.SetPassPipeline? && c.kind == kind)
    || (kind == RenderPass && (c.SetIndex? || c.SetVertex? || c.SetRenderState? || c.ExecuteBundles? || c.Draw?))
    || (kind == ComputePass && c.Dispatch?) || (kind == RayTracingPass && c.TraceRays?)
  }

  // The grammar of a finished stream: top-level commands and matching, non-nested pairs.

  datatype Place = Outside | Inside(kind: Kind) | Broken

  function After(place: Place, c: Command): (r: Place) {
    match place
    case Outside => if c.Begin? then Inside(c.kind) else if TopCommand(c) then Outside else Broken
    case Inside(kind) => if c == End(kind) then Outside else if PassCommand(kind, c) then Inside(kind) else Broken
    case Broken => Broken
  }

  function PlaceOf(cs: seq<Command>): (r: Place) {
    if cs == [] then Outside else After(PlaceOf(cs[..|cs| - 1]), cs[|cs| - 1])
  }

  /** The kinds of the passes that have ended, in order. */
  function Passes(cs: seq<Command>): (r: seq<Kind>) {
    if cs == [] then []
    else
      var c := cs[|cs| - 1];
      Passes(cs[..|cs| - 1]) + if c.End? then [c.kind] else []
  }

  lemma Appended(cs: seq<Command>, c: Command)
    ensures PlaceOf(cs + [c]) == After(PlaceOf(cs), c)
    ensures Passes(cs + [c]) == Passes(cs) + if c.End? then [c.kind] else []
  {
    assert (cs + [c])[..|cs|] == cs;
  }

  /** A stream that ends well was never broken. */
  lemma {:induction false} NeverBroken(cs: seq<Command>, k: nat)
    requires k <= |cs| && PlaceOf(cs) != Broken
    ensures PlaceOf(cs[..k]) != Broken
    decreases |cs|
  {
    if k < |cs| {
      var n := |cs| - 1;
      NeverBroken(cs[..n], k);
      assert cs[..n][..k] == cs[..k];
    } else {
      assert cs[..k] == cs;
    }
  }

  lemma PlaceStep(cs: seq<Command>, k: nat)
    requires k < |cs| && PlaceOf(cs) != Broken
    ensures PlaceOf(cs[..k + 1]) == After(PlaceOf(cs[..k]), cs[k]) && PlaceOf(cs[..k + 1]) != Broken
  {
    assert cs[..k + 1] == cs[..k] + [cs[k]];
    Appended(cs[..k], cs[k]);
    NeverBroken(cs, k + 1);
  }

  datatype Encoder = NoEncoder | TopEncoder | PassEncoder(kind: Kind, id: nat)
  datatype PassUsage = PassUsage(kind: Kind, usage: Usages.PassResourceUsage)
  datatype FinishResult = Finished | AlreadyFinished | RecordedError(message: string) | MidPass

  function Kinds(usages: seq<PassUsage>): (r: seq<Kind>)
    ensures |r| == |usages| && forall i :: 0 <= i < |usages| ==> r[i] == usages[i].kind
  {
    seq(|usages|, i requires 0 <= i < |usages| => usages[i].kind)
  }

  /** The records come from trackers, which keep the usage of a whole texture exact. */
  ghost predicate AllExact(usages: seq<PassUsage>) {
    forall i :: 0 <= i < |usages| ==> Usages.RecordExact(usages[i].usage)
  }

  class EncodingContext {
    var topLevelEncoder: Encoder
    var currentEncoder: Encoder
    var passUsages: seq<PassUsage>
    var commands: seq<Command>
    var gotError: bool
    var errorMessage: string
    var deviceErrors: seq<string>
    var nextEncoder: nat

    /** While no error has been recorded, the stream follows the grammar and the current encoder tells
        where it stands. */
    ghost predicate Valid()
      reads this
    {
      && (topLevelEncoder == NoEncoder ==> currentEncoder == NoEncoder)
      && (topLevelEncoder != NoEncoder ==> topLevelEncoder == TopEncoder && currentEncoder != NoEncoder)
      && (currentEncoder.PassEncoder? ==> currentEncoder.id < nextEncoder)
      && (topLevelEncoder != NoEncoder && !gotError ==>
            && PlaceOf(commands) == (if currentEncoder == TopEncoder then Outside else Inside(currentEncoder.kind))
            && Passes(commands) == Kinds(passUsages))
      && AllExact(passUsages)
    }

    constructor ()
      ensures Valid() && topLevelEncoder == TopEncoder && !gotError && commands == []
    {
      topLevelEncoder, currentEncoder := TopEncoder, TopEncoder;
      passUsages, commands, gotError, errorMessage, deviceErrors, nextEncoder := [], [], false, "", [], 0;
    }

    predicate IsFinished()
      reads this
    {
      topLevelEncoder == NoEncoder
    }

    /** Errors are kept until Finish; afterwards they go to the device. */
    method HandleError(message: string)
      requires Valid()
      modifies this`gotError, this`errorMessage, this`deviceErrors
      ensures Valid() && (!IsFinished() ==> gotError && deviceErrors == old(deviceErrors))
      ensures IsFinished() ==> gotError == old(gotError) && deviceErrors == old(deviceErrors) + [message]
      ensures errorMessage == if !IsFinished() && !old(gotError) then message else old(errorMessage)
    {
      if !IsFinished() {
        if !gotError {
          gotError := true;
          errorMessage := message;
        }
      } else {
        deviceErrors := deviceErrors + [message];
      }
    }

    /** Let the encoder write, if it is the current one. The encode function writes `written` and may
        still report an error. */
    method TryEncode(encoder: Encoder, written: seq<Command>, error: Option<string>) returns (ok: bool)
      requires Valid() && encoder != NoEncoder
      requires error.None? ==> |written| == 1 && (encoder == TopEncoder ==> TopCommand(written[0]) || written[0].Begin?)
      requires error.None? && encoder.PassEncoder? ==>
        PassCommand(encoder.kind, written[0]) || written[0] == End(encoder.kind)
      modifies this`commands, this`gotError, this`errorMessage, this`deviceErrors
      ensures ok <==> encoder == currentEncoder && error.None?
      ensures commands == if encoder == currentEncoder then old(commands) + written else old(commands)
      ensures ok ==> gotError == old(gotError)
      ensures ok && !gotError ==>
        && PlaceOf(commands) == After(PlaceOf(old(commands)), written[0]) && PlaceOf(commands) != Broken
        && Passes(commands) == Kinds(passUsages) + if written[0].End? then [written[0].kind] else []
      ensures !ok ==> Valid() && (!IsFinished() ==> gotError)
    {
      if encoder != currentEncoder {
        if currentEncoder != topLevelEncoder {
          HandleError("Command cannot be recorded inside a pass");
        } else {
          HandleError("Recording in an error or already ended pass encoder");
        }
        return false;
      }
      if error.None? { Appended(commands, written[0]); }
      assert error.None? ==> written == [written[0]];
      if error.Some? {
        HandleError(error.value);
      }
      commands := commands + written;
      ok := error.None?;
    }

    method EnterPass(passEncoder: Encoder)
      requires currentEncoder == topLevelEncoder && passEncoder.PassEncoder?
      modifies this`currentEncoder
      ensures currentEncoder == passEncoder
    {
      currentEncoder := passEncoder;
    }

    method ExitPass(passEncoder: Encoder, passUsage: PassUsage)
      requires currentEncoder != topLevelEncoder && currentEncoder == passEncoder
      modifies this`currentEncoder, this`passUsages
      ensures currentEncoder == topLevelEncoder && passUsages == old(passUsages) + [passUsage]
    {
      currentEncoder := topLevelEncoder;
      passUsages := passUsages + [passUsage];
    }

    /** CommandEncoder::Begin*Pass, with the outcome of the descriptor's validation. */
    method BeginPass(kind: Kind, error: Option<string>) returns (encoder: Encoder)
      requires Valid()
      modifies this
      ensures Valid() && encoder == PassEncoder(kind, old(nextEncoder))
      ensures currentEncoder ==
        if old(currentEncoder) == TopEncoder && error.None? then encoder else old(currentEncoder)
      ensures commands == old(commands) + if old(currentEncoder) == TopEncoder && error.None? then [Begin(kind)] else []
      ensures passUsages == old(passUsages) && topLevelEncoder == old(topLevelEncoder)
      ensures old(currentEncoder) == TopEncoder && error.None? ==> gotError == old(gotError)
      ensures !(old(currentEncoder) == TopEncoder && error.None?) && !IsFinished() ==> gotError
    {
      var ok := TryEncode(TopEncoder, if error.None? then [Begin(kind)] else [], error);
      encoder := PassEncoder(kind, nextEncoder);
      nextEncoder := nextEncoder + 1;
      if ok {
        EnterPass(encoder);
      }
    }

    /** EndPass of a pass encoder. */
    method EndPass(encoder: Encoder, usage: Usages.PassResourceUsage)
      requires Valid() && encoder.PassEncoder? && Usages.RecordExact(usage)
      modifies this
      ensures Valid() && nextEncoder == old(nextEncoder)
      ensures currentEncoder == if old(currentEncoder) == encoder then TopEncoder else old(currentEncoder)
      ensures commands == old(commands) + if old(currentEncoder) == encoder then [End(encoder.kind)] else []
      ensures passUsages ==
        old(passUsages) + if old(currentEncoder) == encoder then [PassUsage(encoder.kind, usage)] else []
      ensures topLevelEncoder == old(topLevelEncoder)
      ensures old(currentEncoder) == encoder ==> gotError == old(gotError)
      ensures old(currentEncoder) != encoder && !IsFinished() ==> gotError
    {
      var ok := TryEncode(encoder, [End(encoder.kind)], None);
      if ok {
        ghost var before := passUsages;
        ExitPass(encoder, PassUsage(encoder.kind, usage));
        assert Kinds(passUsages) == Kinds(before) + [encoder.kind];
      }
    }

    /** Any other recording method of an encoder. */
    method Record(encoder: Encoder, c: Command, error: Option<string>)
      requires Valid() && encoder != NoEncoder
      requires if encoder == TopEncoder then TopCommand(c) else PassCommand(encoder.kind, c)
      modifies this
      ensures Valid() && nextEncoder == old(nextEncoder) && currentEncoder == old(currentEncoder)
      ensures commands == old(commands) + if currentEncoder == encoder && error.None? then [c] else []
      ensures passUsages == old(passUsages) && topLevelEncoder == old(topLevelEncoder)
      ensures currentEncoder == encoder && error.None? ==> gotError == old(gotError)
      ensures !(currentEncoder == encoder && error.None?) && !IsFinished() ==> gotError
    {
      var ok := TryEncode(encoder, if error.None? then [c] else [], error);
    }

    /** If finishing succeeds, the stream is a sequence of top-level commands and matching non-nested
        pairs, with one usage record per pair in order. */
    method Finish() returns (r: FinishResult)
      requires Valid()
      modifies this`currentEncoder, this`topLevelEncoder
      ensures Valid() && IsFinished()
      ensures r == Finished ==> PlaceOf(commands) == Outside && Passes(commands) == Kinds(passUsages)
      ensures r == Finished <==> !old(IsFinished()) && !gotError && old(currentEncoder) == TopEncoder
    {
      if IsFinished() {
        return AlreadyFinished;
      }
      var current, top := currentEncoder, topLevelEncoder;
      currentEncoder := NoEncoder;
      topLevelEncoder := NoEncoder;
      if gotError {
        return RecordedError(errorMessage);
      }
      if current != top {
        return MidPass;
      }
      return Finished;
    }
  }

  // What validation checks, stated over positions of the stream.

  /** Where the pass that position `from` lies in ends. */
  function EndOf(cs: seq<Command>, from: nat): (e: nat)
    requires from <= |cs|
    ensures from <= e <= |cs| && (e < |cs| ==> cs[e].End?)
    decreases |cs| - from
  {
    if from == |cs| then |cs| else if cs[from].End? then from else EndOf(cs, from + 1)
  }

  lemma {:induction false} EndOfSkips(cs: seq<Command>, from: nat, stop: nat)
    requires from <= stop <= |cs| && forall q :: from <= q < stop ==> !cs[q].End?
    ensures EndOf(cs, from) == EndOf(cs, stop)
    decreases |cs| - from
  {
    if from < stop { EndOfSkips(cs, from + 1, stop); }
  }

  /** The command at q is fine in the pass that started at `from`. */
  ghost predicate CommandOk(cs: seq<Command>, from: nat, q: nat)
    requires from <= q < |cs|
  {
    match cs[q]
    case PopDebugGroup => |Pops(cs, from, q)| < |Pushes(cs, from, q)|
    case SetPassPipeline(kind, _, compatible) => kind == RenderPass ==> compatible
    case ExecuteBundles(count, compatible) => count > 0 ==> compatible
    case Draw(_) => CanOperate(cs, from, q)
    case Dispatch => CanOperate(cs, from, q)
    case TraceRays => CanOperate(cs, from, q)
    case _ => true
  }

  /** Every command of [from, stop) is. */
  ghost predicate AllOk(cs: seq<Command>, from: nat, stop: nat)
    requires from <= stop <= |cs|
  {
    from == stop || (AllOk(cs, from, stop - 1) && CommandOk(cs, from, stop - 1))
  }

  lemma {:induction false} AllOkEach(cs: seq<Command>, from: nat, stop: nat)
    requires from <= stop <= |cs|
    ensures AllOk(cs, from, stop) <==>
      forall q {:trigger CommandOk(cs, from, q)} :: from <= q < stop ==> CommandOk(cs, from, q)
    decreases stop
  {
    if from < stop { AllOkEach(cs, from, stop - 1); }
  }

  lemma {:induction false} NotAllOk(cs: seq<Command>, from: nat, q: nat, stop: nat)
    requires from <= q < stop <= |cs| && !CommandOk(cs, from, q)
    ensures !AllOk(cs, from, stop)
    decreases stop
  {
    if q < stop - 1 { NotAllOk(cs, from, q, stop - 1); }
  }

  /** Every command is fine, and as many debug groups are popped as are pushed. */
  ghost predicate PassOk(cs: seq<Command>, from: nat)
    requires from <= |cs|
  {
    && AllOk(cs, from, EndOf(cs, from))
    && |Pushes(cs, from, EndOf(cs, from))| == |Pops(cs, from, EndOf(cs, from))|
  }

  datatype CommandVerdict = CommandsValid | CommandsInvalid(message: string)

  /** How many debug groups are open. */
  ghost predicate Open(cs: seq<Command>, from: nat, q: nat, depth: int)
    requires q <= |cs|
  {
    depth == |Pushes(cs, from, q)| - |Pops(cs, from, q)| && depth >= 0
  }

  /** One turn of the loop over the commands of a pass: a command of another place is refused. */
  method ValidateCommand(cs: seq<Command>, start: nat, q: nat, kind: Kind, tracker: CommandBufferStateTracker,
                         depth: int)
    returns (error: Option<string>, tracker': CommandBufferStateTracker, depth': int)
    requires start <= q < |cs| && cs[q] != End(kind) && Open(cs, start, q, depth)
    requires tracker.Snapshot() == StateTracking.Run(Events(cs, start, q))
    modifies tracker
    ensures tracker' == tracker || fresh(tracker')
    ensures error.None? <==> PassCommand(kind, cs[q]) && CommandOk(cs, start, q)
    ensures error.None? ==> Open(cs, start, q + 1, depth')
    ensures error.None? ==> tracker'.Snapshot() == StateTracking.Run(Events(cs, start, q + 1))
  {
    hide CanOperate, Required, Validate;
    GroupStep(cs, start, q);
    tracker', depth' := tracker, depth;
    error := Disallowed(cs[q], kind);
    if error.Some? {
      return;
    }
    if cs[q].PushDebugGroup? {
      depth' := depth + 1;
    } else if cs[q].PopDebugGroup? {
      if depth == 0 {
        error := Some("Pop must be balanced by a corresponding Push.");
      } else {
        depth' := depth - 1;
      }
    } else if cs[q].ExecuteBundles? {
      if cs[q].count > 0 {
        if !cs[q].compatible {
          error := Some("Render bundle is not compatible with render pass");
        }
        // Executing bundles invalidates the state.
        tracker' := new CommandBufferStateTracker();
      }
    } else if IsOperate(cs[q]) {
      OperateExactly(cs, start, q);
      RunAppend(Events(cs, start, q), EventOf(cs[q]).value);
      error := AskTracker(cs[q], tracker);
    } else if !cs[q].InsertDebugMarker? && !cs[q].SetRenderState? {
      RunAppend(Events(cs, start, q), EventOf(cs[q]).value);
      error := TellTracker(cs[q], tracker);
    }
  }

  /** The default cases of the switches over the commands of a pass. */
  method Disallowed(c: Command, kind: Kind) returns (error: Option<string>)
    requires c != End(kind)
    ensures error.None? <==> PassCommand(kind, c)
  {
    error := None;
    match c {
      case InsertDebugMarker =>
      case PushDebugGroup =>
      case PopDebugGroup =>
      case SetGroup(_, _) =>
      case SetPassPipeline(of, _, _) =>
        if of != kind {
          error := Some("Command disallowed inside a pass");
        }
      case Dispatch =>
        if kind != ComputePass {
          error := Some("Command disallowed inside a pass");
        }
      case TraceRays =>
        if kind != RayTracingPass {
          error := Some("Command disallowed inside a pass");
        }
      case Begin(_) => error := Some("Command disallowed inside a pass");
      case End(_) => error := Some("Command disallowed inside a pass");
      case TopLevel(_) => error := Some("Command disallowed inside a pass");
      case _ =>
        if kind != RenderPass {
          error := Some("Command disallowed inside a pass");
        }
    }
  }

  /** The commands that tell the state tracker something. */
  method TellTracker(c: Command, tracker: CommandBufferStateTracker) returns (error: Option<string>)
    requires c.SetPassPipeline? || c.SetGroup? || c.SetIndex? || c.SetVertex?
    modifies tracker
    ensures error.None? ==> tracker.Snapshot() == Apply(old(tracker.Snapshot()), EventOf(c).value)
    ensures error.None? <==> (c.SetPassPipeline? && c.kind == RenderPass ==> c.compatible)
  {
    error := None;
    if c.SetPassPipeline? {
      if c.kind == RenderPass && !c.compatible {
        return Some("Pipeline attachment state is not compatible");
      }
      tracker.SetPipelineCommon(c.pipeline);
    } else if c.SetGroup? {
      tracker.SetGroup(c.index, c.layout);
    } else if c.SetIndex? {
      tracker.SetIndex();
    } else {
      tracker.SetVertex(c.slot);
    }
  }

  /** The commands that ask it. */
  method AskTracker(c: Command, tracker: CommandBufferStateTracker) returns (error: Option<string>)
    requires IsOperate(c)
    modifies tracker
    ensures tracker.Snapshot() == Apply(old(tracker.Snapshot()), EventOf(c).value)
    ensures error.None? <==> Validate(old(tracker.Snapshot()), Required(c)).0 == Accepted
  {
    var verdict := tracker.ValidateOperation(Required(c));
    error := if verdict == Accepted then None else Some("Missing state for the operation");
  }

  /** ValidateRenderPass, ValidateComputePass and ValidateRayTracingPass: in a stream that Finish let
      through, the end of the pass is always found and no command is out of place. */
  method ValidatePass(cs: seq<Command>, start: nat, kind: Kind) returns (v: CommandVerdict, next: nat)
    requires PlaceOf(cs) == Outside && start <= |cs| && PlaceOf(cs[..start]) == Inside(kind)
    ensures v == CommandsValid <==> PassOk(cs, start)
    ensures v == CommandsValid ==> next == EndOf(cs, start) + 1 <= |cs| && PlaceOf(cs[..next]) == Outside
  {
    hide CommandOk;
    assert cs[..|cs|] == cs;
    var tracker := new CommandBufferStateTracker();
    var debugGroupStackSize := 0;
    next := start;
    while next < |cs|
      invariant InPass(cs, start, next, kind)
      invariant Open(cs, start, next, debugGroupStackSize)
      invariant fresh(tracker) && tracker.Snapshot() == StateTracking.Run(Events(cs, start, next))
    {
      var turn;
      turn, tracker, debugGroupStackSize := ValidateNext(cs, start, next, kind, tracker, debugGroupStackSize);
      next := next + 1;
      if turn.Ended? {
        return CommandsValid, next;
      } else if turn.Refused? {
        return CommandsInvalid(turn.message), next;
      }
    }
    // UNREACHABLE in the source.
    assert false;
    v := CommandsValid;
  }

  datatype Turn = GoOn | Ended | Refused(message: string)

  /** One turn of the loop of ValidatePass. */
  method ValidateNext(cs: seq<Command>, start: nat, next: nat, kind: Kind, tracker: CommandBufferStateTracker,
                      depth: int)
    returns (turn: Turn, tracker': CommandBufferStateTracker, depth': int)
    requires PlaceOf(cs) == Outside && InPass(cs, start, next, kind) && next < |cs|
    requires Open(cs, start, next, depth) && tracker.Snapshot() == StateTracking.Run(Events(cs, start, next))
    modifies tracker
    ensures tracker' == tracker || fresh(tracker')
    ensures turn.Ended? ==> PassOk(cs, start) && EndOf(cs, start) == next && PlaceOf(cs[..next + 1]) == Outside
    ensures turn.Refused? ==> !PassOk(cs, start)
    ensures turn.GoOn? ==>
      && InPass(cs, start, next + 1, kind) && Open(cs, start, next + 1, depth')
      && tracker'.Snapshot() == StateTracking.Run(Events(cs, start, next + 1))
  {
    PassStep(cs, start, next, kind);
    if cs[next] == End(kind) {
      turn, tracker', depth' := Ended, tracker, depth;
      if depth != 0 {
        turn := Refused("Each Push must be balanced by a corresponding Pop.");
      }
    } else {
      var error;
      error, tracker', depth' := ValidateCommand(cs, start, next, kind, tracker, depth);
      turn := if error.Some? then Refused(error.value) else GoOn;
    }
  }

  /** Everything from the start of the pass to `next` is inside it and fine. */
  ghost predicate InPass(cs: seq<Command>, start: nat, next: nat, kind: Kind) {
    && start <= next <= |cs| && PlaceOf(cs[..next]) == Inside(kind)
    && (forall q :: start <= q < next ==> !cs[q].End?)
    && AllOk(cs, start, next)
  }

  /** The pass ends here, or the command is inside it. */
  lemma PassStep(cs: seq<Command>, start: nat, next: nat, kind: Kind)
    requires PlaceOf(cs) == Outside && InPass(cs, start, next, kind) && next < |cs|
    ensures cs[next] == End(kind) ==>
      && EndOf(cs, start) == next && PlaceOf(cs[..next + 1]) == Outside
      && (PassOk(cs, start) <==> |Pushes(cs, start, next)| == |Pops(cs, start, next)|)
    ensures cs[next] != End(kind) ==>
      && PassCommand(kind, cs[next]) && PlaceOf(cs[..next + 1]) == Inside(kind) && next < EndOf(cs, start)
      && (CommandOk(cs, start, next) ==> InPass(cs, start, next + 1, kind))
      && (!CommandOk(cs, start, next) ==> !PassOk(cs, start))
  {
    PlaceStep(cs, next);
    EndOfSkips(cs, start, next);
    if cs[next] != End(kind) && !CommandOk(cs, start, next) { NotAllOk(cs, start, next, EndOf(cs, start)); }
  }

  // The top level of the stream.

  /** The debug groups pushed outside of passes by the first n commands. */
  ghost function TopPushes(cs: seq<Command>, n: nat): (r: set<nat>)
    requires n <= |cs|
  {
    set p | 0 <= p < n && PlaceOf(cs[..p]) == Outside && cs[p].PushDebugGroup?
  }

  ghost function TopPops(cs: seq<Command>, n: nat): (r: set<nat>)
    requires n <= |cs|
  {
    set p | 0 <= p < n && PlaceOf(cs[..p]) == Outside && cs[p].PopDebugGroup?
  }

  lemma TopStep(cs: seq<Command>, q: nat)
    requires q < |cs|
    ensures PlaceOf(cs[..q]) != Outside || !(cs[q].PushDebugGroup? || cs[q].PopDebugGroup?) ==>
      TopPushes(cs, q + 1) == TopPushes(cs, q) && TopPops(cs, q + 1) == TopPops(cs, q)
    ensures PlaceOf(cs[..q]) == Outside ==>
      && |TopPushes(cs, q + 1)| == |TopPushes(cs, q)| + (if cs[q].PushDebugGroup? then 1 else 0)
      && |TopPops(cs, q + 1)| == |TopPops(cs, q)| + (if cs[q].PopDebugGroup? then 1 else 0)
  {
    if PlaceOf(cs[..q]) == Outside {
      OneMore(TopPushes(cs, q), TopPushes(cs, q + 1), q, cs[q].PushDebugGroup?);
      OneMore(TopPops(cs, q), TopPops(cs, q + 1), q, cs[q].PopDebugGroup?);
    }
  }

  ghost predicate TopOpen(cs: seq<Command>, n: nat, depth: int)
    requires n <= |cs|
  {
    depth == |TopPushes(cs, n)| - |TopPops(cs, n)| && depth >= 0
  }

  ghost predicate TopOk(cs: seq<Command>, q: nat)
    requires q < |cs|
  {
    PlaceOf(cs[..q]) == Outside ==>
      match cs[q]
      case Begin(_) => PassOk(cs, q + 1)
      case TopLevel(usable) => usable
      case PopDebugGroup => |TopPops(cs, q)| < |TopPushes(cs, q)|
      case _ => true
  }

  ghost predicate FineUpTo(cs: seq<Command>, n: nat)
    requires n <= |cs|
  {
    n == 0 || (FineUpTo(cs, n - 1) && TopOk(cs, n - 1))
  }

  lemma {:induction false} NotFine(cs: seq<Command>, q: nat, n: nat)
    requires q < n <= |cs| && !TopOk(cs, q)
    ensures !FineUpTo(cs, n)
  {
    if q < n - 1 { NotFine(cs, q, n - 1); }
  }

  /** Every pass is fine, every top-level command is, and debug groups are balanced in every scope. */
  ghost predicate StreamOk(cs: seq<Command>) {
    FineUpTo(cs, |cs|) && |TopPushes(cs, |cs|)| == |TopPops(cs, |cs|)|
  }

  /** Up to its end a pass is not at the top level. */
  lemma {:induction false} InsideUntilEnd(cs: seq<Command>, from: nat, stop: nat, kind: Kind)
    requires PlaceOf(cs) == Outside && from <= |cs| && from <= stop <= EndOf(cs, from)
    requires PlaceOf(cs[..from]) == Inside(kind)
    ensures PlaceOf(cs[..stop]) == Inside(kind)
    ensures TopPushes(cs, stop) == TopPushes(cs, from) && TopPops(cs, stop) == TopPops(cs, from)
    decreases stop
  {
    if from < stop {
      var q := stop - 1;
      InsideUntilEnd(cs, from, q, kind);
      PlaceStep(cs, q);
      NoEndBefore(cs, from, q);
      TopStep(cs, q);
    }
  }

  lemma {:induction false} NoEndBefore(cs: seq<Command>, from: nat, q: nat)
    requires from <= q < |cs| && q < EndOf(cs, from)
    ensures !cs[q].End?
    decreases q - from
  {
    if from < q { NoEndBefore(cs, from + 1, q); }
  }

  /** What is inside a pass is nothing to the top level. */
  lemma {:induction false} FineInside(cs: seq<Command>, from: nat, stop: nat, kind: Kind)
    requires PlaceOf(cs) == Outside && from <= |cs| && EndOf(cs, from) < |cs| && from <= stop <= EndOf(cs, from) + 1
    requires PlaceOf(cs[..from]) == Inside(kind) && FineUpTo(cs, from)
    ensures FineUpTo(cs, stop)
    decreases stop
  {
    hide PassOk;
    if from < stop {
      FineInside(cs, from, stop - 1, kind);
      InsideUntilEnd(cs, from, stop - 1, kind);
    }
  }

  /** A valid pass leaves the top level as it was. */
  lemma PassSkipped(cs: seq<Command>, begin: nat, kind: Kind)
    requires PlaceOf(cs) == Outside && begin < |cs| && PlaceOf(cs[..begin]) == Outside && cs[begin] == Begin(kind)
    requires PassOk(cs, begin + 1) && EndOf(cs, begin + 1) < |cs|
    ensures var next := EndOf(cs, begin + 1) + 1;
      && TopPushes(cs, next) == TopPushes(cs, begin) && TopPops(cs, next) == TopPops(cs, begin)
      && (FineUpTo(cs, begin) ==> FineUpTo(cs, next))
  {
    hide PassOk;
    PlaceStep(cs, begin);
    TopUnchanged(cs, begin, kind);
    if FineUpTo(cs, begin) {
      assert TopOk(cs, begin) && FineUpTo(cs, begin + 1);
      FineInside(cs, begin + 1, EndOf(cs, begin + 1) + 1, kind);
    }
  }

  /** The loop of ValidateFinish has come to n, outside of passes. */
  ghost predicate Through(cs: seq<Command>, n: nat, depth: int) {
    n <= |cs| && PlaceOf(cs[..n]) == Outside && TopOpen(cs, n, depth) && FineUpTo(cs, n)
  }

  lemma PassTurn(cs: seq<Command>, begin: nat, kind: Kind, depth: int)
    requires PlaceOf(cs) == Outside && begin < |cs| && Through(cs, begin, depth) && cs[begin] == Begin(kind)
    requires PassOk(cs, begin + 1) && EndOf(cs, begin + 1) < |cs|
    requires PlaceOf(cs[..EndOf(cs, begin + 1) + 1]) == Outside
    ensures Through(cs, EndOf(cs, begin + 1) + 1, depth)
  {
    hide PassOk;
    PassSkipped(cs, begin, kind);
  }

  lemma CommandTurn(cs: seq<Command>, q: nat, depth: int, depth': int)
    requires PlaceOf(cs) == Outside && q < |cs| && Through(cs, q, depth) && TopCommand(cs[q]) && TopOk(cs, q)
    requires TopOpen(cs, q + 1, depth')
    ensures Through(cs, q + 1, depth')
  {
    PlaceStep(cs, q);
  }

  lemma WhatComesNext(cs: seq<Command>, q: nat)
    requires PlaceOf(cs) == Outside && q < |cs| && PlaceOf(cs[..q]) == Outside
    ensures cs[q].Begin? ==> PlaceOf(cs[..q + 1]) == Inside(cs[q].kind)
    ensures !cs[q].Begin? ==> TopCommand(cs[q])
  {
    PlaceStep(cs, q);
  }

  lemma TopUnchanged(cs: seq<Command>, begin: nat, kind: Kind)
    requires PlaceOf(cs) == Outside && begin < |cs| && cs[begin] == Begin(kind) && EndOf(cs, begin + 1) < |cs|
    requires PlaceOf(cs[..begin + 1]) == Inside(kind)
    ensures var next := EndOf(cs, begin + 1) + 1;
      TopPushes(cs, next) == TopPushes(cs, begin) && TopPops(cs, next) == TopPops(cs, begin)
  {
    var e := EndOf(cs, begin + 1);
    InsideUntilEnd(cs, begin + 1, e, kind);
    TopStep(cs, begin);
    TopStep(cs, e);
  }

  /** One turn of the loop of ValidateFinish, on a command that is not the start of a pass: a command of a
      pass is refused. */
  method ValidateTopCommand(cs: seq<Command>, q: nat, depth: int) returns (error: Option<string>, depth': int)
    requires q < |cs| && PlaceOf(cs[..q]) == Outside && !cs[q].Begin? && TopOpen(cs, q, depth)
    ensures error.None? <==> TopCommand(cs[q]) && TopOk(cs, q)
    ensures error.None? ==> TopOpen(cs, q + 1, depth')
  {
    error, depth' := None, depth;
    TopStep(cs, q);
    match cs[q] {
      case TopLevel(usable) =>
        if !usable {
          error := Some("Acceleration container cannot be used");
        }
      case InsertDebugMarker =>
      case PushDebugGroup => depth' := depth + 1;
      case PopDebugGroup =>
        if depth == 0 {
          error := Some("Pop must be balanced by a corresponding Push.");
        } else {
          depth' := depth - 1;
        }
      case _ => error := Some("Command disallowed outside of a pass");
    }
  }

  ghost predicate UsagesOk(usages: seq<PassUsage>) {
    forall i :: 0 <= i < |usages| ==> Usages.PassUsageOk(usages[i].usage)
  }

  /** The first loop of CommandEncoder::ValidateFinish. */
  method ValidateUsages(usages: seq<PassUsage>) returns (v: CommandVerdict)
    requires AllExact(usages)
    ensures v == CommandsValid <==> UsagesOk(usages)
  {
    for i := 0 to |usages|
      invariant forall j :: 0 <= j < i ==> Usages.PassUsageOk(usages[j].usage)
    {
      var verdict := Usages.ValidatePassResourceUsage(usages[i].usage);
      if verdict != Usages.Valid {
        return CommandsInvalid("Resource usage is not valid in the pass");
      }
    }
    v := CommandsValid;
  }

  /** CommandEncoder::ValidateFinish: no command is refused for where it stands, and the stream passes
      exactly when the usages of every pass go together and every pass and top-level command is fine. */
  method ValidateFinish(cs: seq<Command>, usages: seq<PassUsage>) returns (v: CommandVerdict)
    requires PlaceOf(cs) == Outside && AllExact(usages)
    ensures v == CommandsValid <==> UsagesOk(usages) && StreamOk(cs)
  {
    v := ValidateUsages(usages);
    if v == CommandsValid {
      v := ValidateStream(cs);
    }
  }

  /** The second loop. */
  method ValidateStream(cs: seq<Command>) returns (v: CommandVerdict)
    requires PlaceOf(cs) == Outside
    ensures v == CommandsValid <==> StreamOk(cs)
  {
    var debugGroupStackSize := 0;
    var next := 0;
    while next < |cs|
      invariant Through(cs, next, debugGroupStackSize)
    {
      ghost var q := next;
      v, next, debugGroupStackSize := ValidateTurn(cs, next, debugGroupStackSize);
      if v != CommandsValid {
        NotFine(cs, q, |cs|);
        return;
      }
    }
    if debugGroupStackSize != 0 {
      return CommandsInvalid("Each Push must be balanced by a corresponding Pop.");
    }
    v := CommandsValid;
  }

  /** One turn of it: a whole pass, or one command. */
  method ValidateTurn(cs: seq<Command>, q: nat, depth: int) returns (v: CommandVerdict, next: nat, depth': int)
    requires PlaceOf(cs) == Outside && q < |cs| && Through(cs, q, depth)
    ensures v == CommandsValid ==> q < next && Through(cs, next, depth')
    ensures v != CommandsValid ==> !TopOk(cs, q)
  {
    hide CommandOk;
    WhatComesNext(cs, q);
    depth' := depth;
    if cs[q].Begin? {
      v, next := ValidatePass(cs, q + 1, cs[q].kind);
      if v == CommandsValid { PassTurn(cs, q, cs[q].kind, depth); }
    } else {
      var error;
      error, depth' := ValidateTopCommand(cs, q, depth);
      next := q + 1;
      if error.None? { CommandTurn(cs, q, depth, depth'); }
      v := if error.Some? then CommandsInvalid(error.value) else CommandsValid;
    }
  }

  /** CommandEncoder::Finish: a command buffer is made exactly from a stream without recorded error, outside
      of passes, that passes validation. */
  method FinishEncoder(context: EncodingContext, alive: bool, validationEnabled: bool) returns (ok: bool)
    requires context.Valid()
    modifies context
    ensures context.Valid() && context.IsFinished() && context.commands == old(context.commands)
    ensures ok <==>
      && !old(context.IsFinished()) && !old(context.gotError) && old(context.currentEncoder) == TopEncoder && alive
      && (validationEnabled ==> UsagesOk(context.passUsages) && StreamOk(context.commands))
  {
    var r := context.Finish();
    if r != Finished || !alive {
      return false;
    }
    if !validationEnabled {
      return true;
    }
    var v := ValidateFinish(context.commands, context.passUsages);
    ok := v == CommandsValid;
  }
}
