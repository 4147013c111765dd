/**
 The LLM interceptor's correlation of requests with responses: predictions are stored
 under the id of an outgoing message and settled when an incoming one has the same id.
 */
module Correlation {
  import opened Options
  import opened Messages
  import Decimal

  datatype RoutingMode = Bypass | Semantic | Hybrid
  datatype RuleLookup = NoRule | RuleFound | LookupFailed
  datatype Prediction = Prediction(recordId: string, tool: string)

  datatype Pending = Pending(
    recordId: string,
    predictedTool: string,
    actualTool: Option<string>,
    sessionId: Option<string>,
    messageId: string)

  /**
   One call of the interceptor: what it was asked about and given, the routing mode, and
   what the routing database and the predictor answered (`None`: the prediction failed).
   */
  datatype Event = Event(
    direction: Direction,
    asked: Message,
    message: Message,
    mode: RoutingMode,
    rule: RuleLookup,
    prediction: Option<Prediction>,
    sessionId: Option<string>,
    messageId: string)

  /** What the predictor is told when a prediction is settled. */
  datatype Settlement = Settlement(recordId: string, actualTool: string)

  // ----- Reading a message

  /** The id as a key. Ids of different kinds can share a key: see `KeysCoincideIff`. */
  function KeyOf(id: RequestId): string {
    match id
    case StringId(s) => s
    case NumberId(i) => Decimal.Integer(i)
    case NullId => "null"
  }

  function RequestKey(m: Message): Option<string> {
    if m.Notification? then None else Some(KeyOf(m.id))
  }

  function NameIn(value: Json): Option<string> {
    AsText(Get(value, "name"))
  }

  function FirstName(items: seq<Json>): Option<string> {
    if items == [] then None
    else if NameIn(items[0]).Some? then NameIn(items[0]) else FirstName(items[1..])
  }

  function ToolName(params: Option<Json>): Option<string> {
    match params
    case Some(Object(_)) => NameIn(params.value)
    case Some(Array(items)) => FirstName(items)
    case _ => None
  }

  function ActualTool(m: Message): Option<string> {
    if m.Response? then None
    else if m.name == "tools/call" || m.name == "tools.call" then ToolName(m.params)
    else Some(m.name)
  }

  // ----- What an event does

  predicate Intercepted(e: Event) {
    e.direction.Outgoing? || e.asked.Response?
  }

  /** The event predicts, and stores the prediction under key k. */
  predicate Stores(e: Event, k: string) {
    && Intercepted(e) && e.direction.Outgoing?
    && (e.mode.Semantic? || (e.mode.Hybrid? && e.rule.NoRule?))
    && e.prediction.Some?
    && RequestKey(e.message) == Some(k)
  }

  function Stored(e: Event): Pending
    requires e.prediction.Some?
  {
    Pending(e.prediction.value.recordId, e.prediction.value.tool, ActualTool(e.message), e.sessionId, e.messageId)
  }

  /** The event looks for a prediction under key k and removes it. */
  predicate Answers(e: Event, k: string) {
    Intercepted(e) && e.direction.Incoming? && RequestKey(e.message) == Some(k)
  }

  /** The predictions that wait for an answer. */
  function PendingAfter(h: seq<Event>): map<string, Pending> {
    if h == [] then map[] else
      var before, e := PendingAfter(h[..|h| - 1]), h[|h| - 1];
      match RequestKey(e.message)
      case None => before
      case Some(k) =>
        if Stores(e, k) then before[k := Stored(e)]
        else if Answers(e, k) then before - {k}
        else before
  }

  /** The prediction that the event at j settles. */
  function SettledAt(h: seq<Event>, j: nat): Option<Pending>
    requires j < |h|
  {
    match RequestKey(h[j].message)
    case Some(k) => if Answers(h[j], k) then Lookup(PendingAfter(h[..j]), k) else None
    case None => None
  }

  function Settlements(h: seq<Event>): seq<Settlement> {
    if h == [] then [] else
      var before, p := Settlements(h[..|h| - 1]), SettledAt(h, |h| - 1);
      if p.Some? && p.value.actualTool.Some?
      then before + [Settlement(p.value.recordId, p.value.actualTool.value)] else before
  }

  class LlmInterceptor {
    var pending: map<string, Pending>
    var reported: seq<Settlement>
    ghost var history: seq<Event>

    ghost predicate Valid()
      reads this
    {
      pending == PendingAfter(history) && reported == Settlements(history)
    }

    constructor ()
      ensures Valid() && history == []
    {
      pending, reported, history := map[], [], [];
    }

    method Intercept(e: Event)
      requires Valid()
      modifies this
      ensures Valid() && history == old(history) + [e]
    {
      assert (history + [e])[..|history|] == history;
      if e.direction.Outgoing? || e.asked.Response? {
        match e.direction {
          case Outgoing => Route(e);
          case Incoming => UpdateAccuracy(e.message);
        }
      }
      history := history + [e];
    }

    method Route(e: Event)
      modifies this`pending
      ensures pending == match RequestKey(e.message)
                         case Some(k) =>
                           if (e.mode.Semantic? || (e.mode.Hybrid? && e.rule.NoRule?)) && e.prediction.Some?
                           then old(pending)[k := Stored(e)] else old(pending)
                         case None => old(pending)
    {
      if e.mode.Bypass? {
        return;
      }
      if e.mode.Hybrid? && !e.rule.NoRule? {
        return;
      }
      if e.prediction.None? {
        return;
      }
      if RequestKey(e.message).Some? {
        pending := pending[RequestKey(e.message).value := Stored(e)];
      }
    }

    method UpdateAccuracy(m: Message)
      modifies this`pending, this`reported
      ensures RequestKey(m).None? ==> pending == old(pending) && reported == old(reported)
      ensures RequestKey(m).Some? ==>
                var p := Lookup(old(pending), RequestKey(m).value);
                && pending == old(pending) - {RequestKey(m).value}
                && reported == (if p.Some? && p.value.actualTool.Some?
                                then old(reported) + [Settlement(p.value.recordId, p.value.actualTool.value)]
                                else old(reported))
    {
      if RequestKey(m).Some? {
        var k := RequestKey(m).value;
        if k in pending {
          var p := pending[k];
          pending := pending - {k};
          if p.actualTool.Some? {
            reported := reported + [Settlement(p.recordId, p.actualTool.value)];
          }
        }
        assert k !in pending;
      }
    }
  }

  /** In a list of arguments the tool is named by the first object that has a textual name. */
  lemma {:induction false} FirstNameIsFirst(items: seq<Json>)
    ensures FirstName(items).Some? <==> exists i :: 0 <= i < |items| && NameIn(items[i]).Some?
    ensures forall i :: 0 <= i < |items| && NameIn(items[i]).Some?
              && (forall j :: 0 <= j < i ==> NameIn(items[j]).None?)
              ==> FirstName(items) == NameIn(items[i])
  {
    hide NameIn;
    if items != [] && NameIn(items[0]).None? {
      FirstNameIsFirst(items[1..]);
      assert forall i :: 0 < i < |items| ==> items[i] == items[1..][i - 1];
    }
  }

  /** The value is an object whose name is the text. */
  ghost predicate Names(value: Json, tool: string) {
    value.Object? && "name" in value.fields && value.fields["name"] == Text(tool)
  }

  /**
   The tool of a message: its own method, unless that is a tool call; then the name in its
   arguments, or in the first of a list of them that has one. A response has none.
   */
  lemma ActualToolIs(m: Message, tool: string)
    ensures ActualTool(m) == Some(tool) <==>
            && !m.Response?
            && if m.name != "tools/call" && m.name != "tools.call" then m.name == tool
               else
                 && m.params.Some?
                 && (|| Names(m.params.value, tool)
                     || (m.params.value.Array? && exists i ::
                           && 0 <= i < |m.params.value.items| && Names(m.params.value.items[i], tool)
                           && forall j, t :: 0 <= j < i ==> !Names(m.params.value.items[j], t)))
  {
    if !m.Response? && m.params.Some? && m.params.value.Array? {
      var items := m.params.value.items;
      forall i, t | 0 <= i < |items| ensures NameIn(items[i]) == Some(t) <==> Names(items[i], t) {
      }
      FirstNameIsFirst(items);
      assert forall i :: 0 <= i < |items| ==>
          (NameIn(items[i]).None? <==> forall t :: !Names(items[i], t)) by {
        forall i | 0 <= i < |items| ensures NameIn(items[i]).None? <==> forall t :: !Names(items[i], t) {
          if NameIn(items[i]).Some? {
            assert Names(items[i], NameIn(items[i]).value);
          }
        }
      }
      hide FirstName, NameIn, Names;
      if FirstName(items).Some? {
        var i := FirstNamed(items);
      }
    }
  }

  lemma {:induction false} FirstNamed(items: seq<Json>) returns (i: nat)
    requires FirstName(items).Some?
    ensures i < |items| && NameIn(items[i]) == FirstName(items)
    ensures forall j :: 0 <= j < i ==> NameIn(items[j]).None?
  {
    if NameIn(items[0]).Some? {
      i := 0;
    } else {
      var k := FirstNamed(items[1..]);
      i := k + 1;
      assert forall j :: 0 < j < |items| ==> items[j] == items[1..][j - 1];
    }
  }

  // ----- Correlation over whole histories

  /** Neither a store nor an answer for k from i up to j. */
  ghost predicate Quiet(h: seq<Event>, i: int, j: int, k: string)
    requires 0 <= i && j <= |h|
  {
    forall x :: i <= x < j ==> !Stores(h[x], k) && !Answers(h[x], k)
  }

  /** The store at i is the latest one for k and nothing has answered it. */
  ghost predicate Waiting(h: seq<Event>, i: nat, k: string) {
    i < |h| && Stores(h[i], k) && Quiet(h, i + 1, |h|, k)
  }

  /** The event at j answers the store at i. */
  ghost predicate Settles(h: seq<Event>, i: nat, j: nat, k: string) {
    i < j < |h| && Stores(h[i], k) && Answers(h[j], k) && Quiet(h, i + 1, j, k)
  }

  /** What the last event of a history does to one key. */
  lemma PendingStep(h: seq<Event>, k: string)
    requires h != []
    ensures var front, e := h[..|h| - 1], h[|h| - 1];
            Lookup(PendingAfter(h), k)
            == (if Stores(e, k) then Some(Stored(e))
                else if Answers(e, k) then None
                else Lookup(PendingAfter(front), k))
  {
  }

  lemma WaitingStep(h: seq<Event>, i: nat, k: string)
    requires h != []
    ensures var n := |h| - 1;
            Waiting(h, i, k) <==>
              if i == n then Stores(h[n], k)
              else Waiting(h[..n], i, k) && !Stores(h[n], k) && !Answers(h[n], k)
  {
    var n := |h| - 1;
    if i < n {
      assert forall x :: i + 1 <= x < n ==> h[..n][x] == h[x];
    }
  }

  /** A prediction is pending exactly while its store is waiting, with the tool of the message that stored it. */
  lemma {:induction false} PendingIffWaiting(h: seq<Event>, k: string)
    ensures k in PendingAfter(h) <==> exists i: nat :: Waiting(h, i, k)
    ensures forall i: nat :: Waiting(h, i, k) ==> Lookup(PendingAfter(h), k) == Some(Stored(h[i]))
  {
    if h != [] {
      var n := |h| - 1;
      PendingIffWaiting(h[..n], k);
      PendingStep(h, k);
      forall i: nat
        ensures Waiting(h, i, k) <==>
                  if i == n then Stores(h[n], k)
                  else Waiting(h[..n], i, k) && !Stores(h[n], k) && !Answers(h[n], k)
      {
        WaitingStep(h, i, k);
      }
      hide Waiting, Stored, PendingAfter, Answers;
      if Stores(h[n], k) {
        assert Waiting(h, n, k);
      } else if !Answers(h[n], k) && k in PendingAfter(h) {
        var i: nat :| Waiting(h[..n], i, k);
        assert Waiting(h, i, k);
      }
    }
  }

  /** The pending keys are exactly the stored ids without a later answer. */
  lemma PendingKeysAreUnanswered(h: seq<Event>, k: string)
    ensures k in PendingAfter(h) <==>
            exists i: nat :: i < |h| && Stores(h[i], k) && forall x :: i < x < |h| ==> !Answers(h[x], k)
  {
    PendingIffWaiting(h, k);
    if k in PendingAfter(h) {
      var i: nat :| Waiting(h, i, k);
    }
    if i: nat :| i < |h| && Stores(h[i], k) && forall x :: i < x < |h| ==> !Answers(h[x], k) {
      var last := LatestStore(h, i, k);
    }
  }

  lemma {:induction false} LatestStore(h: seq<Event>, i: nat, k: string) returns (last: nat)
    requires i < |h| && Stores(h[i], k) && forall x :: i < x < |h| ==> !Answers(h[x], k)
    ensures Waiting(h, last, k)
    decreases |h| - i
  {
    if j: nat :| i < j < |h| && Stores(h[j], k) {
      last := LatestStore(h, j, k);
    } else {
      last := i;
    }
  }

  /** An event settles a prediction exactly when it answers some store, and then it settles that store's prediction. */
  lemma SettledAtIffSettles(h: seq<Event>, j: nat, k: string)
    requires j < |h| && Answers(h[j], k)
    ensures SettledAt(h, j).Some? <==> exists i: nat :: Settles(h, i, j, k)
    ensures forall i: nat :: Settles(h, i, j, k) ==> SettledAt(h, j) == Some(Stored(h[i]))
  {
    PendingIffWaiting(h[..j], k);
    forall i: nat ensures Settles(h, i, j, k) <==> Waiting(h[..j], i, k) {
      if Settles(h, i, j, k) {
        assert forall x :: i + 1 <= x < j ==> h[..j][x] == h[x];
      }
      if Waiting(h[..j], i, k) {
        assert forall x :: i + 1 <= x < j ==> h[..j][x] == h[x];
      }
    }
  }

  /** The event at j reports the store at i: its own record, with the tool of its own message. */
  ghost predicate Reports(h: seq<Event>, i: nat, j: nat, k: string, s: Settlement) {
    && Settles(h, i, j, k)
    && s.recordId == h[i].prediction.value.recordId
    && ActualTool(h[i].message) == Some(s.actualTool)
  }

  ghost predicate Reported(h: seq<Event>, j: nat, s: Settlement) {
    exists i: nat, k :: Reports(h, i, j, k, s)
  }

  /** What the event at j reports. */
  ghost function ReportAt(h: seq<Event>, j: nat): Option<Settlement>
    requires j < |h|
  {
    var p := SettledAt(h, j);
    if p.Some? && p.value.actualTool.Some? then Some(Settlement(p.value.recordId, p.value.actualTool.value)) else None
  }

  ghost function ReportsOffered(h: seq<Event>): seq<Option<Settlement>> {
    seq(|h|, j requires 0 <= j < |h| => ReportAt(h, j))
  }

  /** An event reports exactly the prediction that it settles, if the tool is known. */
  lemma ReportedIff(h: seq<Event>, j: nat, s: Settlement)
    ensures Reported(h, j, s) <==> j < |h| && ReportAt(h, j) == Some(s)
  {
    hide PendingAfter, ActualTool;
    if j < |h| && RequestKey(h[j].message).Some? && Answers(h[j], RequestKey(h[j].message).value) {
      var key := RequestKey(h[j].message).value;
      SettledAtIffSettles(h, j, key);
      if SettledAt(h, j).Some? {
        var i: nat :| Settles(h, i, j, key);
        assert Reports(h, i, j, key, s) <==>
               s.recordId == SettledAt(h, j).value.recordId && SettledAt(h, j).value.actualTool == Some(s.actualTool);
      }
    }
  }

  lemma ReportsStep(h: seq<Event>)
    requires h != []
    ensures var front, last := h[..|h| - 1], ReportAt(h, |h| - 1);
            && ReportsOffered(h) == ReportsOffered(front) + [last]
            && Settlements(h) == Settlements(front) + if last.Some? then [last.value] else []
  {
    var front := h[..|h| - 1];
    forall j | 0 <= j < |front| ensures ReportAt(front, j) == ReportAt(h, j) {
      assert front[..j] == h[..j];
    }
  }

  lemma {:induction false} SettlementsCollect(h: seq<Event>) returns (at: seq<nat>)
    ensures Collects(Settlements(h), ReportsOffered(h), at)
  {
    if h == [] {
      at := [];
    } else {
      hide Collects, ReportAt, Settlements;
      var front, last := h[..|h| - 1], ReportAt(h, |h| - 1);
      at := SettlementsCollect(front);
      ReportsStep(h);
      CollectsMore(Settlements(front), ReportsOffered(front), at, last);
      at := at + if last.Some? then [|front|] else [];
    }
  }

  /** The reports are, in order, those of the answers that settle a store whose tool is known. */
  lemma ReportedInOrder(h: seq<Event>) returns (at: seq<nat>)
    ensures |at| == |Settlements(h)| && forall x, y :: 0 <= x < y < |at| ==> at[x] < at[y]
    ensures forall x :: 0 <= x < |at| ==> Reported(h, at[x], Settlements(h)[x])
    ensures forall j: nat, s :: Reported(h, j, s) ==> j in at
  {
    hide Reported, ReportAt, Settlements;
    at := SettlementsCollect(h);
    forall j: nat, s ensures Reported(h, j, s) <==> j < |h| && ReportAt(h, j) == Some(s) {
      ReportedIff(h, j, s);
    }
    forall j: nat, s | Reported(h, j, s) ensures j in at {
      assert ReportsOffered(h)[j].Some?;
    }
    forall x | 0 <= x < |at| ensures Reported(h, at[x], Settlements(h)[x]) {
      assert ReportsOffered(h)[at[x]] == Some(Settlements(h)[x]);
    }
  }

  /**
   An event changes nothing when it is an incoming message and the question was not about a
   response, or an outgoing one that is bypassed, ruled or unpredicted, or has no id.
   */
  lemma IdleEvent(h: seq<Event>, e: Event)
    requires || (e.direction.Incoming? && !e.asked.Response?)
             || (e.direction.Outgoing? && e.mode.Bypass?)
             || (e.direction.Outgoing? && e.mode.Hybrid? && !e.rule.NoRule?)
             || (e.direction.Outgoing? && e.prediction.None?)
             || e.message.Notification?
    ensures PendingAfter(h + [e]) == PendingAfter(h) && Settlements(h + [e]) == Settlements(h)
  {
    assert (h + [e])[..|h|] == h;
  }

  /** No store is settled twice and no event settles two stores. */
  lemma SettlementIsOneToOne(h: seq<Event>, i: nat, j: nat, i': nat, j': nat, k: string)
    requires Settles(h, i, j, k) && Settles(h, i', j', k)
    ensures i == i' <==> j == j'
  {
  }

  /**
   The answer is the first later one, and a store is settled exactly when such an answer
   comes before the id is stored again; a second store under the same id discards the first.
   */
  lemma SettledByFirstAnswer(h: seq<Event>, i: nat, j: nat, k: string)
    requires i < j < |h| && Stores(h[i], k) && Answers(h[j], k)
    requires forall x :: i < x < j ==> !Answers(h[x], k)
    ensures Settles(h, i, j, k) <==> forall x :: i < x < j ==> !Stores(h[x], k)
    ensures (exists j': nat :: Settles(h, i, j', k)) <==> Settles(h, i, j, k)
  {
    if j': nat :| Settles(h, i, j', k) {
      assert j' == j;
    }
  }

  /** A request that is sent again before its answer: the first prediction is never settled, the second one is. */
  lemma RetriedRequestDiscardsPrediction(id: RequestId, name: string, result: Json, p: Prediction, q: Prediction)
    ensures var request, response := Request(id, name, None), Response(id, result);
            var first := Event(Outgoing, request, request, Semantic, NoRule, Some(p), None, "first");
            var second := Event(Outgoing, request, request, Semantic, NoRule, Some(q), None, "second");
            var answer := Event(Incoming, response, response, Semantic, NoRule, None, None, "answer");
            var h := [first, second, answer];
            && Stores(h[0], KeyOf(id)) && Answers(h[2], KeyOf(id))
            && (forall j: nat :: !Settles(h, 0, j, KeyOf(id)))
            && SettledAt(h, 2) == Some(Stored(second))
  {
    var request, response := Request(id, name, None), Response(id, result);
    var first := Event(Outgoing, request, request, Semantic, NoRule, Some(p), None, "first");
    var second := Event(Outgoing, request, request, Semantic, NoRule, Some(q), None, "second");
    var answer := Event(Incoming, response, response, Semantic, NoRule, None, None, "answer");
    var h, k := [first, second, answer], KeyOf(id);
    hide KeyOf;
    assert Stores(h[1], k);
    SettledByFirstAnswer(h, 0, 2, k);
    SettledByFirstAnswer(h, 1, 2, k);
    SettledAtIffSettles(h, 2, k);
  }

  /** Two ids share a key exactly when they are equal or one of them is the text of the other. */
  lemma KeysCoincideIff(a: RequestId, b: RequestId)
    ensures KeyOf(a) == KeyOf(b) <==>
            a == b || (a.StringId? && a.s == KeyOf(b)) || (b.StringId? && b.s == KeyOf(a))
  {
    match (a, b)
    case (NumberId(i), NumberId(j)) =>
      if KeyOf(a) == KeyOf(b) {
        Decimal.IntegerIsInjective(i, j);
      }
    case (NumberId(i), NullId) =>
      Decimal.IntegerStart(i);
    case (NullId, NumberId(j)) =>
      Decimal.IntegerStart(j);
    case _ =>
  }

  /** Such ids exist: a prediction for one is settled by an answer to the other. */
  lemma KeysCollide()
    ensures NumberId(1) != StringId("1") && KeyOf(NumberId(1)) == KeyOf(StringId("1"))
    ensures NullId != StringId("null") && KeyOf(NullId) == KeyOf(StringId("null"))
  {
  }
}
