/**
 The interceptor manager: a registry kept in stable priority order, and the loop that
 threads a message through the registered interceptors.
 */
module Interceptors {
  import opened Options
  import opened Messages
  import opened StableSort

  datatype Context =
    Context(message: Message, direction: Direction, sessionId: Option<string>, metadata: map<string, Json>)

  datatype InterceptionResult =
    InterceptionResult(modified: bool, message: Message, block: bool, reasoning: Option<string>, confidence: Option<real>)

  datatype Reply = Failed | Answered(result: InterceptionResult) {
    predicate Blocks() { Answered? && result.block }
    predicate Modifies() { Answered? && !result.block && result.modified }
  }

  /** A call of the manager and a position in its list: an interceptor with state may answer differently each time. */
  datatype Moment = Moment(call: nat, position: nat)

  /** An arbitrary interceptor: what it answers at any moment for any context. */
  datatype Interceptor = Interceptor(
    name: string,
    priority: int,
    shouldIntercept: (Moment, Context) -> bool,
    intercept: (Moment, Context) -> Reply)

  // ----- The registry

  datatype Operation = Add(interceptor: Interceptor) | Remove(target: string)

  function Priority(i: Interceptor): int {
    i.priority
  }

  function NotNamed(name: string): Interceptor -> bool {
    (i: Interceptor) => i.name != name
  }

  /** The interceptors left after some operations, in the order of their addition. */
  function Survivors(ops: seq<Operation>): seq<Interceptor> {
    if ops == [] then [] else
      var before, last := Survivors(ops[..|ops| - 1]), ops[|ops| - 1];
      match last
      case Add(i) => before + [i]
      case Remove(name) => Retain(before, NotNamed(name))
  }

  /** The operation at t added an interceptor that no later operation removed. */
  ghost predicate Alive(ops: seq<Operation>, t: nat) {
    && t < |ops| && ops[t].Add?
    && forall u :: t < u < |ops| && ops[u].Remove? ==> ops[u].target != ops[t].interceptor.name
  }

  /**
   The list holds the interceptors that the operations `at` added: exactly those not removed
   since, lower priority values first, and equal ones in the order of their addition.
   */
  ghost predicate Registers(ops: seq<Operation>, list: seq<Interceptor>, at: seq<nat>) {
    && |at| == |list|
    && (forall i :: 0 <= i < |at| ==> Alive(ops, at[i]) && list[i] == ops[at[i]].interceptor)
    && (forall t: nat :: Alive(ops, t) ==> t in at)
    && forall i, j :: 0 <= i < j < |at| ==>
         list[i].priority < list[j].priority || (list[i].priority == list[j].priority && at[i] < at[j])
  }

  // ----- One pass over the list

  /** What happened at one interceptor: which message it was asked about, and, if it took part, what it got and said. */
  datatype Visit = Skipped(asked: Message) | Handled(asked: Message, given: Message, reply: Reply)

  /** The message as modified so far. */
  function Newest(original: Message, visits: seq<Visit>): Message {
    if visits == [] then original else
      var last := visits[|visits| - 1];
      if last.Handled? && last.reply.Modifies() then last.reply.result.message
      else Newest(original, visits[..|visits| - 1])
  }

  /** The message last handed to an interceptor. */
  function LastGiven(original: Message, visits: seq<Visit>): Message {
    if visits == [] then original else
      var last := visits[|visits| - 1];
      if last.Handled? then last.given else LastGiven(original, visits[..|visits| - 1])
  }

  predicate Blocked(visits: seq<Visit>) {
    visits != [] && visits[|visits| - 1].Handled? && visits[|visits| - 1].reply.Blocks()
  }

  predicate Modified(visits: seq<Visit>) {
    exists v <- visits :: v.Handled? && v.reply.Modifies()
  }

  function Reasons(visits: seq<Visit>): seq<string> {
    if visits == [] then [] else
      var before, last := Reasons(visits[..|visits| - 1]), visits[|visits| - 1];
      if last.Handled? && last.reply.Modifies() && last.reply.result.reasoning.Some?
      then before + [last.reply.result.reasoning.value] else before
  }

  /** The confidence values of the modifications. */
  function Confidences(visits: seq<Visit>): seq<real> {
    if visits == [] then [] else
      var before, last := Confidences(visits[..|visits| - 1]), visits[|visits| - 1];
      if last.Handled? && last.reply.Modifies() && last.reply.result.confidence.Some?
      then before + [last.reply.result.confidence.value] else before
  }

  function Sum(xs: seq<real>): real {
    if xs == [] then 0.0 else Sum(xs[..|xs| - 1]) + xs[|xs| - 1]
  }

  function Average(sum: real, count: nat): real {
    if count > 0 then sum / count as real else 0.0
  }

  function Join(parts: seq<string>): string {
    if parts == [] then "" else if |parts| == 1 then parts[0]
    else Join(parts[..|parts| - 1]) + "; " + parts[|parts| - 1]
  }

  /** The visit of one interceptor, given the visits before it. */
  function NextVisit(i: Interceptor, moment: Moment, start: Context, before: seq<Visit>): Visit {
    var asked := LastGiven(start.message, before);
    if i.shouldIntercept(moment, start.(message := asked)) then
      var given := Newest(start.message, before);
      Handled(asked, given, i.intercept(moment, start.(message := given)))
    else Skipped(asked)
  }

  /** All visits of a pass, which ends at the first block. */
  function Visits(list: seq<Interceptor>, call: nat, start: Context): (visits: seq<Visit>)
    ensures |visits| <= |list|
    ensures !Blocked(visits) ==> |visits| == |list|
  {
    if list == [] then [] else
      var before := Visits(list[..|list| - 1], call, start);
      if Blocked(before) then before
      else before + [NextVisit(list[|list| - 1], Moment(call, |list| - 1), start, before)]
  }

  /** The manager's answer to a pass. */
  function Conclude(original: Message, visits: seq<Visit>): InterceptionResult {
    if Blocked(visits) then visits[|visits| - 1].reply.result
    else if Modified(visits) then
      InterceptionResult(true, Newest(original, visits), false, Some(Join(Reasons(visits))),
                         Some(Average(Sum(Confidences(visits)), |Confidences(visits)|)))
    else InterceptionResult(false, Newest(original, visits), false, None, None)
  }

  // ----- Statistics

  datatype Stats = Stats(processed: nat, modifications: nat, blocked: nat, averageMillis: real, byMethod: map<string, nat>)

  const NO_STATS := Stats(0, 0, 0, 0.0, map[])

  /** One finished pass: the original message, its visits and the time it took. */
  datatype Pass = Pass(original: Message, visits: seq<Visit>, millis: nat) {
    /** The method under which an unblocked pass is counted: that of the message last handed over. */
    function CountedMethod(): Option<string> {
      LastGiven(original, visits).Method()
    }
  }

  /** The running average over one more pass, without the times of the earlier ones. */
  function UpdatedAverage(average: real, processed: nat, millis: nat): real
    requires processed > 0
  {
    (average * (processed - 1) as real + millis as real) / processed as real
  }

  function Count(stats: Stats, pass: Pass): Stats {
    var processed := stats.processed + 1;
    var average := UpdatedAverage(stats.averageMillis, processed, pass.millis);
    if Blocked(pass.visits) then
      stats.(processed := processed, blocked := stats.blocked + 1, averageMillis := average)
    else
      Stats(
        processed,
        stats.modifications + (if Modified(pass.visits) then 1 else 0),
        stats.blocked,
        average,
        match pass.CountedMethod()
        case None => stats.byMethod
        case Some(m) => stats.byMethod[m := Lookup(stats.byMethod, m).GetOr(0) + 1])
  }

  class InterceptorManager {
    var interceptors: seq<Interceptor>
    var stats: Stats
    ghost var history: seq<Operation>
    ghost var passes: seq<Pass>

    /** The list is the stable sort of the survivors of all operations so far, and the statistics count all passes. */
    ghost predicate Valid()
      reads this
    {
      interceptors == SortByKey(Survivors(history), Priority) && stats == StatsAfter(passes)
    }

    constructor ()
      ensures Valid() && history == [] && passes == []
    {
      interceptors, stats, history, passes := [], NO_STATS, [], [];
    }

    method AddInterceptor(interceptor: Interceptor)
      requires Valid()
      modifies this`interceptors, this`history
      ensures Valid() && history == old(history) + [Add(interceptor)]
      ensures exists at :: Registers(history, interceptors, at)
    {
      hide StatsAfter;
      ResortAfterPush(Survivors(history), interceptor, Priority);
      interceptors := interceptors + [interceptor];
      interceptors := SortByKey(interceptors, Priority);
      history := history + [Add(interceptor)];
      ghost var at := RegistryOrder(history);
    }

    method RemoveInterceptor(name: string) returns (removed: bool)
      requires Valid()
      modifies this`interceptors, this`history
      ensures Valid() && history == old(history) + [Remove(name)]
      ensures exists at :: Registers(history, interceptors, at)
      ensures removed <==> exists i <- old(interceptors) :: i.name == name
    {
      hide StatsAfter;
      RetainAfterSort(Survivors(history), NotNamed(name), Priority);
      RetainSelects(interceptors, NotNamed(name));
      var initial := |interceptors|;
      interceptors := Retain(interceptors, NotNamed(name));
      history := history + [Remove(name)];
      ghost var at := RegistryOrder(history);
      removed := |interceptors| != initial;
    }

    method ProcessMessage(message: Message, direction: Direction, sessionId: Option<string>,
                          extra: map<string, Json>, call: nat, millis: nat)
      returns (result: InterceptionResult)
      requires Valid()
      modifies this`stats, this`passes
      ensures Valid()
      ensures var visits := Visits(interceptors, call, Context(message, direction, sessionId, extra));
              && result == Conclude(message, visits)
              && passes == old(passes) + [Pass(message, visits, millis)]
    {
      hide LastGiven, Newest, Modified, Reasons, Confidences, Sum, Average, UpdatedAverage, Visits, Join, StatsAfter,
           Survivors, SortByKey;
      var start := Context(message, direction, sessionId, extra);
      ghost var pass := Pass(message, Visits(interceptors, call, start), millis);
      StatsStep(passes, pass);
      passes := passes + [pass];
      var blockedBy, context, current, wasModified, reasons, confidenceSum, confidenceCount :=
        RunPass(interceptors, call, start);
      if blockedBy.Some? {
        stats := stats.(processed := stats.processed + 1, blocked := stats.blocked + 1);
        stats := stats.(averageMillis := UpdatedAverage(stats.averageMillis, stats.processed, millis));
        return blockedBy.value;
      }
      stats := stats.(processed := stats.processed + 1);
      if wasModified {
        stats := stats.(modifications := stats.modifications + 1);
      }
      stats := stats.(averageMillis := UpdatedAverage(stats.averageMillis, stats.processed, millis));
      if context.message.Method().Some? {
        var m := context.message.Method().value;
        stats := stats.(byMethod := stats.byMethod[m := Lookup(stats.byMethod, m).GetOr(0) + 1]);
      }
      var confidence := Average(confidenceSum, confidenceCount);
      result := if wasModified then InterceptionResult(true, current, false, Some(Join(reasons)), Some(confidence))
                else InterceptionResult(false, current, false, None, None);
    }
  }

  /** The survivors are those that the operations `at` added, and these are all that are alive. */
  ghost predicate Survive(ops: seq<Operation>, added: seq<Interceptor>, at: seq<nat>) {
    && |at| == |added| && Increasing(at)
    && (forall i :: 0 <= i < |at| ==> Alive(ops, at[i]) && added[i] == ops[at[i]].interceptor)
    && forall t: nat :: Alive(ops, t) ==> t in at
  }

  lemma {:induction false} SurvivorsAreAlive(ops: seq<Operation>) returns (at: seq<nat>)
    ensures Survive(ops, Survivors(ops), at)
  {
    if ops == [] {
      at := [];
    } else {
      var front, n := ops[..|ops| - 1], |ops| - 1;
      var before := SurvivorsAreAlive(front);
      match ops[n]
      case Add(_) =>
        at := before + [n];
        SurviveAdd(ops, Survivors(front), before);
      case Remove(name) =>
        at := SurviveRemove(ops, Survivors(front), before);
    }
  }

  lemma SurviveAdd(ops: seq<Operation>, added: seq<Interceptor>, before: seq<nat>)
    requires ops != [] && ops[|ops| - 1].Add? && Survive(ops[..|ops| - 1], added, before)
    ensures Survive(ops, added + [ops[|ops| - 1].interceptor], before + [|ops| - 1])
  {
    var front, n := ops[..|ops| - 1], |ops| - 1;
    forall t: nat ensures Alive(ops, t) <==> t == n || Alive(front, t) {
      AliveStep(ops, t);
    }
    assert forall i :: 0 <= i < |before| ==> Alive(front, before[i]) && before[i] < n;
    hide Alive;
  }

  lemma SurviveRemove(ops: seq<Operation>, added: seq<Interceptor>, before: seq<nat>) returns (at: seq<nat>)
    requires ops != [] && ops[|ops| - 1].Remove? && Survive(ops[..|ops| - 1], added, before)
    ensures Survive(ops, Retain(added, NotNamed(ops[|ops| - 1].target)), at)
  {
    hide Alive, Retain;
    var name := ops[|ops| - 1].target;
    AliveAfterRemove(ops);
    var kept := RetainPositions(added, NotNamed(name));
    at := seq(|kept|, i requires 0 <= i < |kept| => before[kept[i]]);
    forall i | 0 <= i < |at| ensures Alive(ops, at[i]) && added[kept[i]] == ops[at[i]].interceptor {
      assert kept[i] in kept;
    }
    forall t: nat | Alive(ops, t) ensures t in at {
      assert t in before;
      var b :| 0 <= b < |before| && before[b] == t;
      assert b in kept;
      var i :| 0 <= i < |kept| && kept[i] == b;
      assert at[i] == t;
    }
  }

  lemma AliveAfterRemove(ops: seq<Operation>)
    requires ops != [] && ops[|ops| - 1].Remove?
    ensures var front, n := ops[..|ops| - 1], |ops| - 1;
            forall t: nat :: Alive(front, t) ==>
              && t < n && front[t] == ops[t] && ops[t].Add?
              && (Alive(ops, t) <==> ops[t].interceptor.name != ops[n].target)
    ensures forall t: nat :: Alive(ops, t) ==> Alive(ops[..|ops| - 1], t)
  {
    forall t: nat {
      AliveStep(ops, t);
    }
  }

  lemma AliveStep(ops: seq<Operation>, t: nat)
    requires ops != []
    ensures var front, n := ops[..|ops| - 1], |ops| - 1;
            Alive(ops, t) <==>
              if t == n then ops[n].Add?
              else Alive(front, t) && (ops[n].Remove? ==> ops[n].target != ops[t].interceptor.name)
  {
    var front := ops[..|ops| - 1];
    assert forall u :: 0 <= u < |front| ==> front[u] == ops[u];
  }

  /** The order of the registry after any operations, over the priorities themselves. */
  lemma RegistryOrder(ops: seq<Operation>) returns (at: seq<nat>)
    ensures Registers(ops, SortByKey(Survivors(ops), Priority), at)
  {
    var added, list := Survivors(ops), SortByKey(Survivors(ops), Priority);
    var alive := SurvivorsAreAlive(ops);
    var sorted := SortPositions(added, Priority);
    hide Alive, Survivors, SortByKey;
    assert Covers(sorted, |added|) && Ranked(list, sorted, Priority);
    at := seq(|list|, i requires 0 <= i < |list| => alive[sorted[i]]);
    forall t: nat | Alive(ops, t) ensures t in at {
      var b :| 0 <= b < |alive| && alive[b] == t;
      assert b in sorted;
      var i :| 0 <= i < |sorted| && sorted[i] == b;
      assert at[i] == t;
    }
  }

  /** Over the registry of any operations, whoever is visited earlier has no greater priority value. */
  lemma VisitsFollowPriority(ops: seq<Operation>, call: nat, start: Context, j: nat, k: nat)
    requires j < k < |Visits(SortByKey(Survivors(ops), Priority), call, start)|
    ensures var list := SortByKey(Survivors(ops), Priority);
            var visits := Visits(list, call, start);
            && list[j].priority <= list[k].priority
            && visits[j] == NextVisit(list[j], Moment(call, j), start, visits[..j])
            && visits[k] == NextVisit(list[k], Moment(call, k), start, visits[..k])
  {
    var list := SortByKey(Survivors(ops), Priority);
    var at := RegistryOrder(ops);
    hide Visits, NextVisit, SortByKey, Survivors;
    VisitAt(list, call, start, j);
    VisitAt(list, call, start, k);
  }

  /** The loop over the interceptors: it keeps only the current message and context, not the visits. */
  method RunPass(list: seq<Interceptor>, call: nat, start: Context)
    returns (blockedBy: Option<InterceptionResult>, context: Context, current: Message, wasModified: bool,
             reasons: seq<string>, confidenceSum: real, confidenceCount: nat)
    ensures var visits := Visits(list, call, start);
            && (blockedBy.Some? <==> Blocked(visits))
            && (blockedBy.Some? ==> blockedBy.value == visits[|visits| - 1].reply.result)
            && (blockedBy.None? ==>
                  && context.message == LastGiven(start.message, visits)
                  && current == Newest(start.message, visits)
                  && wasModified == Modified(visits)
                  && reasons == Reasons(visits)
                  && confidenceSum == Sum(Confidences(visits)) && confidenceCount == |Confidences(visits)|)
  {
    context, current, wasModified, reasons := start, start.message, false, [];
    confidenceSum, confidenceCount := 0.0, 0;
    blockedBy := None;
    ghost var visits := Visits(list[..0], call, start);
    for i := 0 to |list|
      invariant visits == Visits(list[..i], call, start) && !Blocked(visits)
      invariant context == start.(message := LastGiven(start.message, visits))
      invariant current == Newest(start.message, visits)
      invariant wasModified == Modified(visits)
      invariant reasons == Reasons(visits)
      invariant confidenceSum == Sum(Confidences(visits)) && confidenceCount == |Confidences(visits)|
    {
      hide LastGiven, Newest, Modified, Reasons, Confidences, Sum, Visits;
      var interceptor, moment := list[i], Moment(call, i);
      ghost var visit := NextVisit(interceptor, moment, start, visits);
      VisitsGrow(list, i, call, start);
      VisitEffects(start.message, visits, visit);
      if interceptor.shouldIntercept(moment, context) {
        context := context.(message := current);
        match interceptor.intercept(moment, context) {
          case Failed =>
          case Answered(answer) =>
            if answer.block {
              LaterIgnored(list, i + 1, call, start);
              blockedBy := Some(answer);
              return;
            }
            if answer.modified {
              wasModified := true;
              current := answer.message;
              if answer.reasoning.Some? {
                reasons := reasons + [answer.reasoning.value];
              }
              if answer.confidence.Some? {
                SumAppends(Confidences(visits), answer.confidence.value);
                confidenceSum := confidenceSum + answer.confidence.value;
                confidenceCount := confidenceCount + 1;
              }
            }
        }
      }
      visits := visits + [visit];
    }
    assert list[..|list|] == list;
  }

  lemma SumAppends(xs: seq<real>, x: real)
    ensures Sum(xs + [x]) == Sum(xs) + x
  {
    assert (xs + [x])[..|xs|] == xs;
  }

  lemma VisitsGrow(list: seq<Interceptor>, i: nat, call: nat, start: Context)
    requires i < |list| && !Blocked(Visits(list[..i], call, start))
    ensures var before := Visits(list[..i], call, start);
            Visits(list[..i + 1], call, start) == before + [NextVisit(list[i], Moment(call, i), start, before)]
  {
    assert list[..i + 1][..i] == list[..i];
  }

  // ----- Properties of a pass

  /** What one more visit changes. */
  lemma VisitEffects(original: Message, visits: seq<Visit>, v: Visit)
    ensures var after := visits + [v];
            && LastGiven(original, after) == (if v.Handled? then v.given else LastGiven(original, visits))
            && Newest(original, after)
               == (if v.Handled? && v.reply.Modifies() then v.reply.result.message else Newest(original, visits))
            && (Modified(after) <==> Modified(visits) || (v.Handled? && v.reply.Modifies()))
            && Reasons(after)
               == Reasons(visits) + (if v.Handled? && v.reply.Modifies() && v.reply.result.reasoning.Some?
                                     then [v.reply.result.reasoning.value] else [])
            && Confidences(after)
               == Confidences(visits) + (if v.Handled? && v.reply.Modifies() && v.reply.result.confidence.Some?
                                         then [v.reply.result.confidence.value] else [])
            && (Blocked(after) <==> v.Handled? && v.reply.Blocks())
  {
    var after := visits + [v];
    assert after[..|visits|] == visits;
    assert v in after;
    if Modified(visits) {
      var u :| u in visits && u.Handled? && u.reply.Modifies();
      assert u in after;
    }
  }

  /** Every visit of a pass is the next visit after the ones before it, none of which blocked. */
  lemma {:induction false} VisitAt(list: seq<Interceptor>, call: nat, start: Context, k: nat)
    requires k < |Visits(list, call, start)|
    ensures var visits := Visits(list, call, start);
            && visits[k] == NextVisit(list[k], Moment(call, k), start, visits[..k])
            && !Blocked(visits[..k])
  {
    hide NextVisit, Blocked;
    var visits, before := Visits(list, call, start), Visits(list[..|list| - 1], call, start);
    if k < |before| {
      VisitAt(list[..|list| - 1], call, start, k);
      assert visits[..k] == before[..k];
    } else {
      assert visits[..k] == before;
    }
  }

  /** What each interceptor of a pass is asked and given, at its own moment and in the context of the start. */
  lemma VisitConsults(list: seq<Interceptor>, call: nat, start: Context, k: nat)
    requires k < |Visits(list, call, start)|
    ensures var visits, moment := Visits(list, call, start), Moment(call, k);
            && visits[k].asked == LastGiven(start.message, visits[..k])
            && (visits[k].Handled? <==>
                list[k].shouldIntercept(
                  moment, Context(visits[k].asked, start.direction, start.sessionId, start.metadata)))
            && (visits[k].Handled? ==>
                  && visits[k].given == Newest(start.message, visits[..k])
                  && visits[k].reply == list[k].intercept(
                       moment, Context(visits[k].given, start.direction, start.sessionId, start.metadata)))
  {
    hide Visits, LastGiven, Newest;
    VisitAt(list, call, start, k);
  }

  /** A pass depends on no interceptor after the first block. */
  lemma {:induction false} LaterIgnored(list: seq<Interceptor>, n: nat, call: nat, start: Context)
    requires n <= |list| && Blocked(Visits(list[..n], call, start))
    ensures Visits(list, call, start) == Visits(list[..n], call, start)
    decreases |list|
  {
    if n < |list| {
      var front := list[..|list| - 1];
      assert front[..n] == list[..n];
      LaterIgnored(front, n, call, start);
    } else {
      assert list[..n] == list;
    }
  }

  /** A pass over a longer list starts with the pass over the shorter one. */
  lemma {:induction false} PassExtends(list: seq<Interceptor>, more: seq<Interceptor>, call: nat, start: Context)
    ensures Visits(list, call, start) <= Visits(list + more, call, start)
    decreases |more|
  {
    if more == [] {
      assert list + more == list;
    } else {
      var front := more[..|more| - 1];
      assert (list + more)[..|list + more| - 1] == list + front;
      PassExtends(list, front, call, start);
    }
  }

  lemma {:induction false} LastHandled(original: Message, visits: seq<Visit>) returns (k: int)
    ensures -1 <= k < |visits|
    ensures forall j :: k < j < |visits| ==> visits[j].Skipped?
    ensures k < 0 ==> LastGiven(original, visits) == original == Newest(original, visits)
    ensures k >= 0 ==> visits[k].Handled? && LastGiven(original, visits) == visits[k].given
    ensures k >= 0 ==>
              Newest(original, visits)
              == (if visits[k].reply.Modifies() then visits[k].reply.result.message
                  else Newest(original, visits[..k]))
  {
    if visits == [] {
      k := -1;
    } else if visits[|visits| - 1].Handled? {
      k := |visits| - 1;
    } else {
      var front := visits[..|visits| - 1];
      k := LastHandled(original, front);
      if k >= 0 {
        assert front[..k] == visits[..k];
      }
    }
  }

  /** The last participant among the first k visits replaced the message it was given. */
  ghost predicate LastReplaced(visits: seq<Visit>, k: nat)
    requires k <= |visits|
  {
    exists j: nat :: j < k
      && visits[j].Handled? && visits[j].reply.Modifies() && visits[j].reply.result.message != visits[j].given
      && forall i :: j < i < k ==> visits[i].Skipped?
  }

  /** The message last handed over is not the newest one exactly when the last participant replaced it. */
  lemma GivenLagsExactlyAfterModification(list: seq<Interceptor>, call: nat, start: Context, k: nat)
    requires k <= |Visits(list, call, start)|
    ensures var visits := Visits(list, call, start);
            LastGiven(start.message, visits[..k]) != Newest(start.message, visits[..k]) <==> LastReplaced(visits, k)
  {
    hide Visits, LastGiven, Newest;
    var visits := Visits(list, call, start);
    var j := LastHandled(start.message, visits[..k]);
    if j >= 0 {
      assert visits[..k][..j] == visits[..j];
      VisitAt(list, call, start, j);
    }
  }

  /**
   The question lags behind: an interceptor is asked about a message other than the newest
   one exactly when the interceptor that last took part replaced the message it was given.
   */
  lemma QuestionLagsExactlyAfterModification(list: seq<Interceptor>, call: nat, start: Context, k: nat)
    requires k < |Visits(list, call, start)|
    ensures var visits := Visits(list, call, start);
            visits[k].asked != Newest(start.message, visits[..k]) <==> LastReplaced(visits, k)
  {
    hide Visits, LastGiven, Newest, LastReplaced;
    VisitAt(list, call, start, k);
    GivenLagsExactlyAfterModification(list, call, start, k);
  }

  /**
   So does the count: a pass is counted under a message other than the one it returns
   exactly when its last participant replaced the message it was given.
   */
  lemma CountedMessageLagsExactlyAfterModification(list: seq<Interceptor>, call: nat, start: Context, millis: nat)
    requires !Blocked(Visits(list, call, start))
    ensures var visits := Visits(list, call, start);
            && (forall m :: Pass(start.message, visits, millis).CountedMethod() == Some(m) <==>
                  !LastGiven(start.message, visits).Response? && LastGiven(start.message, visits).name == m)
            && (LastGiven(start.message, visits) != Conclude(start.message, visits).message <==>
                LastReplaced(visits, |visits|))
  {
    hide Visits, LastGiven, Newest, LastReplaced;
    var visits := Visits(list, call, start);
    assert visits[..|visits|] == visits;
    GivenLagsExactlyAfterModification(list, call, start, |visits|);
  }

  /** An interceptor that takes part in everything and always answers with the same replacement. */
  function Rewriter(replacement: Message): Interceptor {
    Interceptor("rewriter", 0, (_, _) => true,
                (_, _) => Answered(InterceptionResult(true, replacement, false, None, None)))
  }

  /** Two rewriters: the second is asked about the original; and one rewriter: its pass is counted under the original. */
  lemma RewritersLag(start: Context, replacement: Message, call: nat, millis: nat)
    ensures var r := Rewriter(replacement);
            var one, two := Visits([r], call, start), Visits([r, r], call, start);
            && |two| == 2 && two[1].asked == start.message && Newest(start.message, two[..1]) == replacement
            && Pass(start.message, one, millis).CountedMethod() == start.message.Method()
            && Conclude(start.message, one).message == replacement
  {
    var r := Rewriter(replacement);
    var visit := Handled(start.message, start.message, r.intercept(Moment(call, 0), start));
    assert [r][..0] == [] && [r, r][..1] == [r];
    assert Visits([r], call, start) == [visit];
    var two := Visits([r, r], call, start);
    assert two[..1] == [visit];
    assert [visit][..0] == [];
  }

  /** An interceptor that takes part is always given the newest message, and a pass without modification returns the original. */
  lemma HandledGetsNewest(list: seq<Interceptor>, call: nat, start: Context)
    ensures var visits := Visits(list, call, start);
            && (forall k :: 0 <= k < |visits| && visits[k].Handled? ==>
                  visits[k].given == Newest(start.message, visits[..k]))
            && (!Modified(visits) ==> Newest(start.message, visits) == start.message)
  {
    var visits := Visits(list, call, start);
    forall k | 0 <= k < |visits| && visits[k].Handled?
      ensures visits[k].given == Newest(start.message, visits[..k])
    {
      VisitAt(list, call, start, k);
    }
    NewestNeedsModification(start.message, visits);
  }

  lemma {:induction false} NewestNeedsModification(original: Message, visits: seq<Visit>)
    ensures !Modified(visits) ==> Newest(original, visits) == original
  {
    if visits != [] {
      NewestNeedsModification(original, visits[..|visits| - 1]);
      assert visits[|visits| - 1] in visits;
    }
  }

  /** The visit got an answer that modifies the message and does not block. */
  ghost predicate Rewrites(v: Visit) {
    v.Handled? && v.reply.Answered? && v.reply.result.modified && !v.reply.result.block
  }

  lemma {:induction false} NewestIsLatest(original: Message, visits: seq<Visit>) returns (k: int)
    ensures -1 <= k < |visits| && forall j :: k < j < |visits| ==> !Rewrites(visits[j])
    ensures k < 0 ==> Newest(original, visits) == original
    ensures k >= 0 ==> Rewrites(visits[k]) && Newest(original, visits) == visits[k].reply.result.message
  {
    k := |visits| - 1;
    if visits != [] && !Rewrites(visits[k]) {
      k := NewestIsLatest(original, visits[..k]);
    }
  }

  /** The reason that a rewriting visit gives. */
  ghost function ReasonOf(v: Visit): Option<string> {
    if Rewrites(v) then v.reply.result.reasoning else None
  }

  ghost function ReasonsOffered(visits: seq<Visit>): seq<Option<string>> {
    seq(|visits|, i requires 0 <= i < |visits| => ReasonOf(visits[i]))
  }

  /** The reasons are those that rewriting visits give, in the order of the visits. */
  lemma {:induction false} ReasonsInOrder(visits: seq<Visit>) returns (at: seq<nat>)
    ensures Collects(Reasons(visits), ReasonsOffered(visits), at)
  {
    at := [];
    if visits != [] {
      var front, last := visits[..|visits| - 1], visits[|visits| - 1];
      at := ReasonsInOrder(front);
      CollectsMore(Reasons(front), ReasonsOffered(front), at, ReasonOf(last));
      assert ReasonsOffered(visits) == ReasonsOffered(front) + [ReasonOf(last)];
      hide Collects;
      assert Reasons(visits) == Reasons(front) + if ReasonOf(last).Some? then [ReasonOf(last).value] else [];
      at := at + if ReasonOf(last).Some? then [|front|] else [];
    }
  }

  /** The confidence that a rewriting visit gives. */
  ghost function ConfidenceOf(v: Visit): Option<real> {
    if Rewrites(v) then v.reply.result.confidence else None
  }

  ghost function ConfidencesOffered(visits: seq<Visit>): seq<Option<real>> {
    seq(|visits|, i requires 0 <= i < |visits| => ConfidenceOf(visits[i]))
  }

  /** So are the confidences. */
  lemma {:induction false} ConfidencesInOrder(visits: seq<Visit>) returns (at: seq<nat>)
    ensures Collects(Confidences(visits), ConfidencesOffered(visits), at)
  {
    at := [];
    if visits != [] {
      var front, last := visits[..|visits| - 1], visits[|visits| - 1];
      at := ConfidencesInOrder(front);
      CollectsMore(Confidences(front), ConfidencesOffered(front), at, ConfidenceOf(last));
      assert ConfidencesOffered(visits) == ConfidencesOffered(front) + [ConfidenceOf(last)];
      hide Collects;
      assert Confidences(visits) == Confidences(front) + if ConfidenceOf(last).Some? then [ConfidenceOf(last).value] else [];
      at := at + if ConfidenceOf(last).Some? then [|front|] else [];
    }
  }

  /** The joined text of two lists of reasons is that of both, with a separator between them. */
  lemma {:induction false} JoinSeparates(a: seq<string>, b: seq<string>)
    requires a != [] && b != []
    ensures Join(a + b) == Join(a) + "; " + Join(b)
    ensures |a| == 1 ==> Join(a) == a[0]
  {
    var front, last := b[..|b| - 1], b[|b| - 1];
    assert (a + b)[..|a + b| - 1] == a + front;
    assert Join(a + b) == Join(a + front) + "; " + last;
    if front == [] {
      assert a + front == a;
    } else {
      JoinSeparates(a, front);
      assert Join(b) == Join(front) + "; " + last;
      hide Join;
      var x, y := Join(a), Join(front);
      assert (x + "; " + y) + "; " + last == x + "; " + (y + "; " + last);
    }
  }

  /**
   The answer to a pass: the blocking reply itself, or else the latest replacement, with all
   reasons joined and the mean of the confidences; nothing replaced means the original alone.
   */
  lemma PassConcludes(original: Message, visits: seq<Visit>) returns (k: int)
    ensures -1 <= k < |visits| && forall j :: k < j < |visits| ==> !Rewrites(visits[j])
    ensures k >= 0 ==> Rewrites(visits[k])
    ensures var result := Conclude(original, visits);
            if visits != [] && visits[|visits| - 1].Handled? && visits[|visits| - 1].reply.Answered?
               && visits[|visits| - 1].reply.result.block
            then result == visits[|visits| - 1].reply.result
            else if k < 0 then result == InterceptionResult(false, original, false, None, None)
            else
              && result.modified && !result.block && result.message == visits[k].reply.result.message
              && result.reasoning == Some(Join(Reasons(visits)))
              && result.confidence.Some?
              && result.confidence.value * |Confidences(visits)| as real == Sum(Confidences(visits))
  {
    hide Newest, Reasons, Confidences, Join, Modified, Sum, Average, Rewrites;
    k := NewestIsLatest(original, visits);
    ModifiedIffRewritten(visits, k);
    MeanTimesCount(Confidences(visits));
  }

  lemma ModifiedIffRewritten(visits: seq<Visit>, k: int)
    requires -1 <= k < |visits| && forall j :: k < j < |visits| ==> !Rewrites(visits[j])
    requires k >= 0 ==> Rewrites(visits[k])
    ensures Modified(visits) <==> k >= 0
  {
    if k >= 0 {
      assert visits[k] in visits;
    }
  }

  lemma MeanTimesCount(xs: seq<real>)
    ensures Average(Sum(xs), |xs|) * |xs| as real == Sum(xs)
  {
  }

  lemma {:induction false} SumOfUnits(xs: seq<real>)
    requires forall i :: 0 <= i < |xs| ==> 0.0 <= xs[i] <= 1.0
    ensures 0.0 <= Sum(xs) <= |xs| as real
  {
    if xs != [] {
      SumOfUnits(xs[..|xs| - 1]);
    }
  }

  /** If every modification has a confidence between 0 and 1, so has the result of an unblocked pass. */
  lemma ConfidenceStaysInRange(original: Message, visits: seq<Visit>)
    requires !Blocked(visits)
    requires forall i :: 0 <= i < |Confidences(visits)| ==> 0.0 <= Confidences(visits)[i] <= 1.0
    ensures var confidence := Conclude(original, visits).confidence;
            && (confidence.Some? <==> Modified(visits))
            && 0.0 <= confidence.GetOr(0.0) <= 1.0
  {
    hide Confidences, Sum, Average, Modified, Newest, Reasons, Join;
    AverageOfUnits(Confidences(visits));
  }

  lemma AverageOfUnits(xs: seq<real>)
    requires forall i :: 0 <= i < |xs| ==> 0.0 <= xs[i] <= 1.0
    ensures 0.0 <= Average(Sum(xs), |xs|) <= 1.0
  {
    SumOfUnits(xs);
    hide Sum;
    if xs != [] {
      DivisionOfUnit(Sum(xs), |xs| as real);
    }
  }

  lemma DivisionOfUnit(x: real, n: real)
    requires 0.0 <= x <= n && n > 0.0
    ensures 0.0 <= x / n <= 1.0
  {
  }

  // ----- Statistics over whole runs

  function StatsAfter(passes: seq<Pass>): Stats {
    if passes == [] then NO_STATS
    else Count(StatsAfter(passes[..|passes| - 1]), passes[|passes| - 1])
  }

  lemma StatsStep(passes: seq<Pass>, pass: Pass)
    ensures StatsAfter(passes + [pass]) == Count(StatsAfter(passes), pass)
  {
    assert (passes + [pass])[..|passes|] == passes;
  }

  /** The number of passes with a property. */
  ghost function Tally(passes: seq<Pass>, holds: Pass -> bool): nat {
    if passes == [] then 0
    else Tally(passes[..|passes| - 1], holds) + (if holds(passes[|passes| - 1]) then 1 else 0)
  }

  function WasBlocked(): Pass -> bool { (p: Pass) => Blocked(p.visits) }
  function WasModified(): Pass -> bool { (p: Pass) => !Blocked(p.visits) && Modified(p.visits) }
  function HadNoMethod(): Pass -> bool { (p: Pass) => !Blocked(p.visits) && p.CountedMethod().None? }
  function HadMethod(m: string): Pass -> bool { (p: Pass) => !Blocked(p.visits) && p.CountedMethod() == Some(m) }

  ghost function Total(m: map<string, nat>): nat {
    if m == map[] then 0 else
      var k :| k in m;
      m[k] + Total(m - {k})
  }

  lemma {:induction false} TotalWithout(m: map<string, nat>, k: string)
    requires k in m
    ensures Total(m) == m[k] + Total(m - {k})
    decreases |m|
  {
    var k0 :| k0 in m && Total(m) == m[k0] + Total(m - {k0});
    if k0 != k {
      var both := m - {k0, k};
      assert m - {k0} - {k} == both && m - {k} - {k0} == both;
      TotalWithout(m - {k0}, k);
      TotalWithout(m - {k}, k0);
    }
  }

  lemma TotalIncrement(m: map<string, nat>, k: string)
    ensures Total(m[k := Lookup(m, k).GetOr(0) + 1]) == Total(m) + 1
  {
    var m' := m[k := Lookup(m, k).GetOr(0) + 1];
    TotalWithout(m', k);
    assert m' - {k} == m - {k};
    if k in m {
      TotalWithout(m, k);
    } else {
      assert m - {k} == m;
    }
  }

  /** The counters after any run of passes, each as the number of passes of its kind. */
  lemma {:induction false} StatsAreTallies(passes: seq<Pass>)
    ensures var stats := StatsAfter(passes);
            && stats.processed == |passes|
            && stats.blocked == Tally(passes, WasBlocked())
            && stats.modifications == Tally(passes, WasModified())
            && (forall m :: Lookup(stats.byMethod, m).GetOr(0) == Tally(passes, HadMethod(m)))
  {
    if passes != [] {
      StatsAreTallies(passes[..|passes| - 1]);
    }
  }

  /** The time that some passes took together. */
  function TotalMillis(passes: seq<Pass>): nat {
    if passes == [] then 0 else TotalMillis(passes[..|passes| - 1]) + passes[|passes| - 1].millis
  }

  lemma MeanStep(average: real, count: nat, total: nat, millis: nat)
    requires average * count as real == total as real
    ensures UpdatedAverage(average, count + 1, millis) * (count + 1) as real == (total + millis) as real
  {
  }

  lemma {:induction false} AverageTotals(passes: seq<Pass>)
    ensures StatsAfter(passes).averageMillis * |passes| as real == TotalMillis(passes) as real
  {
    if passes != [] {
      var front, last := passes[..|passes| - 1], passes[|passes| - 1];
      AverageTotals(front);
      StatsAreTallies(front);
      var before := StatsAfter(front);
      var n, average := |front|, before.averageMillis;
      MeanStep(average, n, TotalMillis(front), last.millis);
      hide UpdatedAverage, Blocked, Modified;
      assert StatsAfter(passes).averageMillis == UpdatedAverage(average, n + 1, last.millis);
      assert |passes| == n + 1;
    }
  }

  /** The running average is the mean time of all passes, blocked or not. */
  lemma AverageIsMean(passes: seq<Pass>)
    ensures StatsAfter(passes).averageMillis == Average(TotalMillis(passes) as real, |passes|)
  {
    hide TotalMillis, Average, Count;
    AverageTotals(passes);
    if passes == [] {
      MeanOfNone();
    } else {
      hide StatsAfter;
      MeanFromTotal(StatsAfter(passes).averageMillis, |passes|, TotalMillis(passes));
    }
  }

  lemma MeanFromTotal(average: real, count: nat, total: nat)
    requires count > 0 && average * count as real == total as real
    ensures average == Average(total as real, count)
  {
    QuotientOfProduct(average, count as real);
  }

  lemma QuotientOfProduct(x: real, y: real)
    requires y != 0.0
    ensures (x * y) / y == x
  {
  }

  lemma MeanOfNone()
    ensures Average(TotalMillis([]) as real, 0) == 0.0
  {
  }

  /** Conservation: every unblocked pass is counted under its method, or has none. */
  lemma {:induction false} MethodCountsAreConserved(passes: seq<Pass>)
    ensures var stats := StatsAfter(passes);
            Total(stats.byMethod) + Tally(passes, HadNoMethod()) == stats.processed - stats.blocked
  {
    if passes != [] {
      var front, last := passes[..|passes| - 1], passes[|passes| - 1];
      MethodCountsAreConserved(front);
      if !Blocked(last.visits) && last.CountedMethod().Some? {
        TotalIncrement(StatsAfter(front).byMethod, last.CountedMethod().value);
      }
    }
  }
}
