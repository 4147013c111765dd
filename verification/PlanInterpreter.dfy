/**
 The sandbox's plan interpreter: it walks over the nodes of a plan, checks each against
 the capability tokens of the policy, and moves values through a store.
 */
module PlanInterpreter {
  import opened Options

  datatype Sink = SandboxExecution | FileRead | FileWrite | NetworkRequest | EmitSink
  datatype Token = Token(id: string, allowedSinks: seq<Sink>)
  datatype NetworkPolicy = Disabled | Limited | Full
  datatype Policy = Policy(timeoutSecs: Option<nat>, mounts: seq<string>, network: NetworkPolicy, capabilities: seq<Token>)

  datatype NodeKind =
    | RunPython(code: string, capability: string)
    | ReadFile(path: string, capability: string)
    | WriteFile(path: string, capability: string)
    | Emit(capability: string)
  {
    /** The use of its capability that the node needs. */
    function Sink(): Sink {
      match this
      case RunPython(_, _) => SandboxExecution
      case ReadFile(_, _) => FileRead
      case WriteFile(_, _) => FileWrite
      case Emit(_) => EmitSink
    }

    /** Run and read nodes store a value under their capability. */
    predicate Produces() { RunPython? || ReadFile? }
  }

  datatype Plan = Plan(nodes: seq<NodeKind>, policy: Policy)

  datatype RunOutcome = LaunchFailed | ResultLost | RecordingFailed | BadExit | Printed(stdout: string)

  /** What the runtime, the file system and the recorder answer at each node. */
  datatype World = World(
    run: nat -> RunOutcome,
    read: nat -> Option<string>,
    write: nat -> bool,
    recorderWorks: bool)

  /** An operation that the interpreter started, with the capability it used. */
  datatype Effect =
    | Ran(code: string, timeout: Option<nat>, capability: string)
    | ReadFrom(path: string, capability: string)
    | WroteTo(path: string, data: string, capability: string)
    | Emitted(data: string, capability: string)
  {
    function Sink(): Sink {
      match this
      case Ran(_, _, _) => SandboxExecution
      case ReadFrom(_, _) => FileRead
      case WroteTo(_, _, _) => FileWrite
      case Emitted(_, _) => EmitSink
    }
  }

  datatype Error =
    | NoNodes | MountsUnsupported | NetworkUnsupported | CannotRecord
    | CapabilityMissing | SinkNotPermitted | NoValue | NodeFailed | NoExecutableNodes

  datatype Result = Ok(stdout: string) | Err(error: Error)

  // ----- Capabilities

  /** The first token with the id decides. */
  ghost predicate Permitted(tokens: seq<Token>, id: string, sink: Sink) {
    exists i :: 0 <= i < |tokens|
      && tokens[i].id == id && sink in tokens[i].allowedSinks
      && forall j :: 0 <= j < i ==> tokens[j].id != id
  }

  function Find(tokens: seq<Token>, id: string): Option<Token> {
    if tokens == [] then None else if tokens[0].id == id then Some(tokens[0]) else Find(tokens[1..], id)
  }

  function EnsureCapability(tokens: seq<Token>, id: string, sink: Sink): (error: Option<Error>)
    ensures error in {None, Some(CapabilityMissing), Some(SinkNotPermitted)}
  {
    match Find(tokens, id)
    case None => Some(CapabilityMissing)
    case Some(token) => if sink in token.allowedSinks then None else Some(SinkNotPermitted)
  }

  lemma {:induction false} FindIsFirst(tokens: seq<Token>, id: string) returns (i: nat)
    ensures i <= |tokens| && forall j :: 0 <= j < i ==> tokens[j].id != id
    ensures Find(tokens, id) == if i < |tokens| then Some(tokens[i]) else None
    ensures i < |tokens| ==> tokens[i].id == id
  {
    if tokens == [] || tokens[0].id == id {
      i := 0;
    } else {
      var k := FindIsFirst(tokens[1..], id);
      i := k + 1;
      assert forall j :: 0 < j < i ==> tokens[j] == tokens[1..][j - 1];
    }
  }

  lemma EnsuredIffPermitted(tokens: seq<Token>, id: string, sink: Sink)
    ensures EnsureCapability(tokens, id, sink).None? <==> Permitted(tokens, id, sink)
  {
    var i := FindIsFirst(tokens, id);
  }

  // ----- What each node does, in terms of the plan and the world

  function OutputAt(plan: Plan, world: World, k: nat): Option<string>
    requires k < |plan.nodes|
  {
    match plan.nodes[k]
    case RunPython(_, _) => if world.run(k).Printed? then Some(world.run(k).stdout) else None
    case ReadFile(_, _) => world.read(k)
    case _ => None
  }

  /** The output of the latest producer with the capability before node k. */
  function LastStored(plan: Plan, world: World, k: nat, id: string): Option<string>
    requires k <= |plan.nodes|
  {
    if k == 0 then None
    else if plan.nodes[k - 1].Produces() && plan.nodes[k - 1].capability == id then OutputAt(plan, world, k - 1)
    else LastStored(plan, world, k - 1, id)
  }

  /** The capability of the latest run, read or emit node before node k. */
  function LastOutput(plan: Plan, k: nat): Option<string>
    requires k <= |plan.nodes|
  {
    if k == 0 then None
    else if !plan.nodes[k - 1].WriteFile? then Some(plan.nodes[k - 1].capability)
    else LastOutput(plan, k - 1)
  }

  /** Why node k does not start its operation. */
  function RefusalAt(plan: Plan, world: World, k: nat): Option<Error>
    requires k < |plan.nodes|
  {
    var node := plan.nodes[k];
    var refused := EnsureCapability(plan.policy.capabilities, node.capability, node.Sink());
    if refused.Some? then refused
    else if node.WriteFile? && LastStored(plan, world, k, node.capability).None? then Some(NoValue)
    else None
  }

  function FailureAt(plan: Plan, world: World, k: nat): Option<Error>
    requires k < |plan.nodes|
  {
    if RefusalAt(plan, world, k).Some? then RefusalAt(plan, world, k)
    else
      match plan.nodes[k]
      case RunPython(_, _) => if world.run(k).Printed? then None else Some(NodeFailed)
      case ReadFile(_, _) => if world.read(k).Some? then None else Some(NodeFailed)
      case WriteFile(_, _) => if world.write(k) then None else Some(NodeFailed)
      case Emit(_) => None
  }

  function EffectAt(plan: Plan, world: World, k: nat): Effect
    requires k < |plan.nodes|
  {
    match plan.nodes[k]
    case RunPython(code, id) => Ran(code, plan.policy.timeoutSecs, id)
    case ReadFile(path, id) => ReadFrom(path, id)
    case WriteFile(path, id) => WroteTo(path, LastStored(plan, world, k, id).GetOr(""), id)
    case Emit(id) => Emitted(LastStored(plan, world, k, id).GetOr(""), id)
  }

  function EffectsBefore(plan: Plan, world: World, k: nat): (effects: seq<Effect>)
    requires k <= |plan.nodes|
    ensures |effects| == k
    ensures forall j :: 0 <= j < k ==> effects[j] == EffectAt(plan, world, j)
  {
    if k == 0 then [] else EffectsBefore(plan, world, k - 1) + [EffectAt(plan, world, k - 1)]
  }

  ghost predicate SucceedsBefore(plan: Plan, world: World, k: nat)
    requires k <= |plan.nodes|
  {
    forall j :: 0 <= j < k ==> FailureAt(plan, world, j).None?
  }

  predicate Refused(plan: Plan) {
    plan.nodes == [] || plan.policy.mounts != [] || plan.policy.network != Disabled
  }

  // ----- What the answer is, without a store

  /** Node p is the latest run or read with the capability before node k. */
  ghost predicate LatestProducer(plan: Plan, p: nat, k: nat, id: string)
    requires k <= |plan.nodes|
  {
    && p < k && plan.nodes[p].capability == id && (plan.nodes[p].RunPython? || plan.nodes[p].ReadFile?)
    && forall x :: p < x < k && plan.nodes[x].capability == id ==> plan.nodes[x].WriteFile? || plan.nodes[x].Emit?
  }

  ghost predicate NoProducer(plan: Plan, k: nat, id: string)
    requires k <= |plan.nodes|
  {
    forall x :: 0 <= x < k && plan.nodes[x].capability == id ==> plan.nodes[x].WriteFile? || plan.nodes[x].Emit?
  }

  /** The run at p printed the text, or the read at p returned it. */
  ghost predicate Yielded(plan: Plan, world: World, p: nat, text: string)
    requires p < |plan.nodes|
  {
    (plan.nodes[p].RunPython? && world.run(p) == Printed(text)) || (plan.nodes[p].ReadFile? && world.read(p) == Some(text))
  }

  /**
   Node i is the last that is not a write, and the text is what the latest producer at or
   before it yielded for its capability, or empty if there is none.
   */
  ghost predicate AnswersWith(plan: Plan, world: World, i: nat, text: string) {
    && i < |plan.nodes| && !plan.nodes[i].WriteFile?
    && (forall x :: i < x < |plan.nodes| ==> plan.nodes[x].WriteFile?)
    && var id := plan.nodes[i].capability;
       || (exists p: nat :: LatestProducer(plan, p, i + 1, id) && Yielded(plan, world, p, text))
       || (NoProducer(plan, i + 1, id) && text == "")
  }

  // ----- The interpreter

  /**
   A refused plan has no effects. Otherwise the nodes before the first failure have run, a
   failing node has at most started its own authorised operation, and if none fails the
   output is the value last stored for the last node that is not a write.
   */
  method InterpretPlan(plan: Plan, world: World) returns (result: Result, effects: seq<Effect>)
    ensures plan.nodes == [] || plan.policy.mounts != [] || plan.policy.network != Disabled ==>
              effects == [] && result == Err(if !world.recorderWorks then CannotRecord
                                             else if plan.nodes == [] then NoNodes
                                             else if plan.policy.mounts != [] then MountsUnsupported
                                             else NetworkUnsupported)
    ensures !Refused(plan) && result.Ok? ==>
              && SucceedsBefore(plan, world, |plan.nodes|)
              && effects == EffectsBefore(plan, world, |plan.nodes|)
              && exists i: nat :: AnswersWith(plan, world, i, result.stdout)
    ensures !Refused(plan) && result.Err? ==>
              exists k: nat :: k < |plan.nodes|
                && SucceedsBefore(plan, world, k)
                && FailureAt(plan, world, k) == Some(result.error)
                && effects == EffectsBefore(plan, world, if result.error == NodeFailed then k + 1 else k)
    ensures result != Err(NoExecutableNodes)
  {
    hide EnsureCapability, Find, AnswersWith;
    effects := [];
    if plan.nodes == [] {
      return Err(if world.recorderWorks then NoNodes else CannotRecord), [];
    }
    if plan.policy.mounts != [] {
      return Err(if world.recorderWorks then MountsUnsupported else CannotRecord), [];
    }
    if plan.policy.network != Disabled {
      return Err(if world.recorderWorks then NetworkUnsupported else CannotRecord), [];
    }

    var valueStore: map<string, string> := map[];
    var lastOutput: Option<string> := None;
    for k := 0 to |plan.nodes|
      invariant SucceedsBefore(plan, world, k)
      invariant effects == EffectsBefore(plan, world, k)
      invariant forall id :: Lookup(valueStore, id) == LastStored(plan, world, k, id)
      invariant lastOutput == LastOutput(plan, k)
      invariant valueStore != map[] ==> lastOutput.Some?
      invariant k > 0 ==> lastOutput.Some?
    {
      NodeStep(plan, world, k, k + 1);
      hide LastStored, LastOutput, EffectsBefore, SucceedsBefore;
      var node := plan.nodes[k];
      var refused := EnsureCapability(plan.policy.capabilities, node.capability, node.Sink());
      if refused.Some? {
        return Err(refused.value), effects;
      }
      match node {
        case RunPython(code, id) =>
          effects := effects + [Ran(code, plan.policy.timeoutSecs, id)];
          match world.run(k) {
            case Printed(stdout) =>
              valueStore := valueStore[id := stdout];
              lastOutput := Some(id);
            case _ =>
              return Err(NodeFailed), effects;
          }
        case ReadFile(path, id) =>
          effects := effects + [ReadFrom(path, id)];
          if world.read(k).None? {
            return Err(NodeFailed), effects;
          }
          valueStore := valueStore[id := world.read(k).value];
          lastOutput := Some(id);
        case WriteFile(path, id) =>
          if id !in valueStore {
            return Err(NoValue), effects;
          }
          effects := effects + [WroteTo(path, valueStore[id], id)];
          if !world.write(k) {
            return Err(NodeFailed), effects;
          }
        case Emit(id) =>
          effects := effects + [Emitted(Lookup(valueStore, id).GetOr(""), id)];
          lastOutput := Some(id);
      }
    }

    if lastOutput.None? {
      return Err(if world.recorderWorks then NoExecutableNodes else CannotRecord), effects;
    }
    result := Ok(Lookup(valueStore, lastOutput.value).GetOr(""));
    ghost var i := OutputAnswers(plan, world);
  }

  /** What one more node adds. */
  lemma NodeStep(plan: Plan, world: World, k: nat, next: nat)
    requires k < |plan.nodes| && next == k + 1
    ensures var node := plan.nodes[k];
            && (forall id :: LastStored(plan, world, next, id)
                  == if node.Produces() && node.capability == id then OutputAt(plan, world, k)
                     else LastStored(plan, world, k, id))
            && LastOutput(plan, next) == (if node.WriteFile? then LastOutput(plan, k) else Some(node.capability))
            && EffectsBefore(plan, world, next) == EffectsBefore(plan, world, k) + [EffectAt(plan, world, k)]
            && (SucceedsBefore(plan, world, next) <==>
                SucceedsBefore(plan, world, k) && FailureAt(plan, world, k).None?)
  {
    hide FailureAt;
  }

  lemma {:induction false} LastOutputNode(plan: Plan, k: nat) returns (i: nat)
    requires k <= |plan.nodes| && LastOutput(plan, k).Some?
    ensures i < k && !plan.nodes[i].WriteFile? && LastOutput(plan, k).value == plan.nodes[i].capability
    ensures forall x :: i < x < k ==> plan.nodes[x].WriteFile?
  {
    i := k - 1;
    if plan.nodes[i].WriteFile? {
      i := LastOutputNode(plan, i);
    }
  }

  lemma OutputAnswers(plan: Plan, world: World) returns (i: nat)
    requires LastOutput(plan, |plan.nodes|).Some? && SucceedsBefore(plan, world, |plan.nodes|)
    ensures AnswersWith(plan, world, i,
                        LastStored(plan, world, |plan.nodes|, LastOutput(plan, |plan.nodes|).value).GetOr(""))
  {
    var n := |plan.nodes|;
    i := LastOutputNode(plan, n);
    var id := plan.nodes[i].capability;
    hide LastOutput, FailureAt, LastStored;
    if LastStored(plan, world, n, id).Some? {
      var p := StoredByProducer(plan, world, n, id);
      assert LatestProducer(plan, p, i + 1, id) && Yielded(plan, world, p, LastStored(plan, world, n, id).value);
    } else {
      NothingStored(plan, world, n, id);
    }
  }

  /**
   Why and when node k fails, after all earlier ones succeeded: its token is missing or does
   not list its sink, there is nothing to write, or the operation itself fails.
   */
  lemma FailureIs(plan: Plan, world: World, k: nat, sink: Sink)
    requires k < |plan.nodes| && SucceedsBefore(plan, world, k)
    requires plan.nodes[k].RunPython? ==> sink == SandboxExecution
    requires plan.nodes[k].ReadFile? ==> sink == FileRead
    requires plan.nodes[k].WriteFile? ==> sink == FileWrite
    requires plan.nodes[k].Emit? ==> sink == EmitSink
    ensures var failure, node, tokens := FailureAt(plan, world, k), plan.nodes[k], plan.policy.capabilities;
            var id := node.capability;
            var permitted := Permitted(tokens, id, sink);
            var nothingToWrite := node.WriteFile? && NoProducer(plan, k, id);
            var fails := || (node.RunPython? && !world.run(k).Printed?)
                         || (node.ReadFile? && world.read(k).None?)
                         || (node.WriteFile? && !world.write(k));
            && (failure == Some(CapabilityMissing) <==> forall t <- tokens :: t.id != id)
            && (failure == Some(SinkNotPermitted) <==> !permitted && exists t <- tokens :: t.id == id)
            && (failure == Some(NoValue) <==> permitted && nothingToWrite)
            && (failure == Some(NodeFailed) <==> permitted && !nothingToWrite && fails)
            && (failure.None? <==> permitted && !nothingToWrite && !fails)
  {
    var node, tokens := plan.nodes[k], plan.policy.capabilities;
    EnsuredIffPermitted(tokens, node.capability, sink);
    var i := FindIsFirst(tokens, node.capability);
    if i < |tokens| {
      assert tokens[i] in tokens;
    }
    hide LastStored, Find, Permitted;
    if node.WriteFile? {
      if LastStored(plan, world, k, node.capability).Some? {
        var p := StoredByProducer(plan, world, k, node.capability);
      } else {
        NothingStored(plan, world, k, node.capability);
      }
    }
  }

  // ----- Safety of every run

  /** The effect at j writes or emits what the latest earlier effect with its capability produced. */
  ghost predicate CarriesOutputOf(plan: Plan, world: World, effects: seq<Effect>, i: nat, j: nat)
    requires |effects| <= |plan.nodes|
  {
    && i < j < |effects|
    && (effects[i].Ran? || effects[i].ReadFrom?)
    && effects[i].capability == effects[j].capability
    && (effects[j].WroteTo? || effects[j].Emitted?)
    && Yielded(plan, world, i, effects[j].data)
    && forall x :: i < x < j ==>
         effects[x].capability == effects[j].capability ==> effects[x].WroteTo? || effects[x].Emitted?
  }

  lemma {:induction false} StoredByProducer(plan: Plan, world: World, k: nat, id: string) returns (i: nat)
    requires k <= |plan.nodes| && LastStored(plan, world, k, id).Some?
    ensures i < k && plan.nodes[i].Produces() && plan.nodes[i].capability == id
    ensures OutputAt(plan, world, i) == LastStored(plan, world, k, id)
    ensures forall x :: i < x < k ==> !(plan.nodes[x].Produces() && plan.nodes[x].capability == id)
  {
    if plan.nodes[k - 1].Produces() && plan.nodes[k - 1].capability == id {
      i := k - 1;
    } else {
      i := StoredByProducer(plan, world, k - 1, id);
    }
  }

  /** Nothing is stored under a capability that no earlier node produced for. */
  lemma {:induction false} NothingStored(plan: Plan, world: World, k: nat, id: string)
    requires k <= |plan.nodes| && SucceedsBefore(plan, world, k) && LastStored(plan, world, k, id).None?
    ensures forall x :: 0 <= x < k ==> !(plan.nodes[x].Produces() && plan.nodes[x].capability == id)
  {
    if k > 0 {
      assert FailureAt(plan, world, k - 1).None?;
      NothingStored(plan, world, k - 1, id);
    }
  }

  /** No effect before j produced for its capability. */
  ghost predicate NothingProducedFor(effects: seq<Effect>, j: nat)
    requires j < |effects|
  {
    forall x :: 0 <= x < j ==>
      effects[x].capability == effects[j].capability ==> effects[x].WroteTo? || effects[x].Emitted?
  }

  lemma EmitCarriesOutput(plan: Plan, world: World, m: nat, j: nat)
    requires j < m <= |plan.nodes| && SucceedsBefore(plan, world, j) && plan.nodes[j].Emit?
    ensures var effects := EffectsBefore(plan, world, m);
            || (exists i :: CarriesOutputOf(plan, world, effects, i, j))
            || (effects[j].data == "" && NothingProducedFor(effects, j))
  {
    var id, effects := plan.nodes[j].capability, EffectsBefore(plan, world, m);
    if LastStored(plan, world, j, id).Some? {
      var i := StoredByProducer(plan, world, j, id);
      assert CarriesOutputOf(plan, world, effects, i, j);
    } else {
      NothingStored(plan, world, j, id);
    }
  }

  lemma SucceededIsNotRefused(plan: Plan, world: World, k: nat, j: nat)
    requires k <= |plan.nodes| && SucceedsBefore(plan, world, k)
    ensures j < k ==> RefusalAt(plan, world, j).None?
  {
    assert j < k ==> FailureAt(plan, world, j).None?;
  }

  lemma FailedIsNotRefused(plan: Plan, world: World, k: nat)
    requires k <= |plan.nodes|
    ensures k < |plan.nodes| && FailureAt(plan, world, k) == Some(NodeFailed) ==> RefusalAt(plan, world, k).None?
  {
  }

  lemma SucceedsEarlier(plan: Plan, world: World, k: nat, j: nat)
    requires j <= k <= |plan.nodes| && SucceedsBefore(plan, world, k)
    ensures SucceedsBefore(plan, world, j)
  {
  }

  lemma EffectIsPermitted(plan: Plan, world: World, k: nat)
    requires k < |plan.nodes| && RefusalAt(plan, world, k).None?
    ensures Permitted(plan.policy.capabilities, EffectAt(plan, world, k).capability, EffectAt(plan, world, k).Sink())
  {
    var node := plan.nodes[k];
    EnsuredIffPermitted(plan.policy.capabilities, node.capability, node.Sink());
  }

  lemma WriteCarriesOutput(plan: Plan, world: World, m: nat, j: nat)
    requires j < m <= |plan.nodes| && RefusalAt(plan, world, j).None? && plan.nodes[j].WriteFile?
    ensures exists i :: CarriesOutputOf(plan, world, EffectsBefore(plan, world, m), i, j)
  {
    var i := StoredByProducer(plan, world, j, plan.nodes[j].capability);
    assert CarriesOutputOf(plan, world, EffectsBefore(plan, world, m), i, j);
  }

  /**
   In every run of every plan, each effect is its node's own operation and is permitted by
   the first token with its capability, and whatever is written was produced by an earlier run or read under the
   same capability, so one token permits both ends of the flow; what is emitted is such an
   output too, or empty when there is none.
   */
  method ExecutePlan(plan: Plan, world: World) returns (result: Result, effects: seq<Effect>)
    ensures |effects| <= |plan.nodes|
    ensures forall j: nat :: j < |effects| ==>
              var tokens := plan.policy.capabilities;
              match effects[j]
              case Ran(code, timeout, id) =>
                && plan.nodes[j] == RunPython(code, id) && timeout == plan.policy.timeoutSecs
                && Permitted(tokens, id, SandboxExecution)
              case ReadFrom(path, id) => plan.nodes[j] == ReadFile(path, id) && Permitted(tokens, id, FileRead)
              case WroteTo(path, _, id) => plan.nodes[j] == WriteFile(path, id) && Permitted(tokens, id, FileWrite)
              case Emitted(_, id) => plan.nodes[j] == Emit(id) && Permitted(tokens, id, EmitSink)
    ensures result.Ok? ==> exists i: nat :: AnswersWith(plan, world, i, result.stdout)
    ensures forall j: nat :: j < |effects| && effects[j].WroteTo? ==>
              exists i :: CarriesOutputOf(plan, world, effects, i, j)
    ensures forall j: nat :: j < |effects| && effects[j].Emitted? ==>
              || (exists i :: CarriesOutputOf(plan, world, effects, i, j))
              || (effects[j].data == "" && NothingProducedFor(effects, j))
  {
    hide EnsureCapability, LastStored, Permitted, CarriesOutputOf, FailureAt, RefusalAt, OutputAt, SucceedsBefore,
         EffectsBefore, LastOutput, NothingProducedFor;
    result, effects := InterpretPlan(plan, world);
    if Refused(plan) {
      return;
    }
    ghost var m := |effects|;
    assert effects == EffectsBefore(plan, world, m);
    ghost var k: nat :| k <= m && SucceedsBefore(plan, world, k)
      && (k < m ==> FailureAt(plan, world, k) == Some(NodeFailed) && m == k + 1);
    FailedIsNotRefused(plan, world, k);
    forall j: nat | j < m
      ensures Permitted(plan.policy.capabilities, effects[j].capability, effects[j].Sink())
      ensures effects[j].WroteTo? ==> exists i :: CarriesOutputOf(plan, world, effects, i, j)
      ensures effects[j].Emitted? ==>
                || (exists i :: CarriesOutputOf(plan, world, effects, i, j))
                || (effects[j].data == "" && NothingProducedFor(effects, j))
    {
      SucceededIsNotRefused(plan, world, k, j);
      EffectIsPermitted(plan, world, j);
      if plan.nodes[j].WriteFile? {
        WriteCarriesOutput(plan, world, m, j);
      } else if plan.nodes[j].Emit? {
        SucceedsEarlier(plan, world, k, j);
        EmitCarriesOutput(plan, world, m, j);
      }
    }
  }
}
