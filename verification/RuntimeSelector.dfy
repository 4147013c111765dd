/**
 Runtime selection for a tool: policy, availability and the tool's own requirement are
 resolved over unordered sets, through a list in whatever order the sets enumerate.
 */
module RuntimeSelector {
  import opened Options
  import opened StableSort

  datatype RuntimeType = Process | V8 | Wasm
  datatype TrustLevel = Untrusted | Verified | Trusted | System
  datatype Language = JavaScript | Python | WasmCode | Shell

  datatype Requirement =
    | Specific(runtime: RuntimeType)
    | Auto(language: Language, preferred: Option<RuntimeType>)
    | AnyOf(runtimes: seq<RuntimeType>)

  datatype ResourceLimits =
    ResourceLimits(maxDurationSecs: Option<nat>, maxMemoryBytes: Option<nat>, maxCpuTimeMs: Option<nat>)

  const DEFAULT_LIMITS := ResourceLimits(Some(30), Some(100 * 1024 * 1024), Some(30_000))

  datatype ToolPolicy = ToolPolicy(
    allowedRuntimes: seq<RuntimeType>,
    limits: Option<ResourceLimits>,
    auditRequired: bool)
  datatype SecurityPolicy = SecurityPolicy(
    allowedByTrust: map<TrustLevel, set<RuntimeType>>,
    limitsByTrust: map<TrustLevel, ResourceLimits>,
    toolPolicies: map<string, ToolPolicy>,
    allowProcessRuntime: bool)

  datatype Tool = Tool(id: string, trust: TrustLevel, runtime: Requirement)

  /** Why a runtime was selected. */
  datatype Reason =
    | RequestAllowed | RequestNotAllowed
    | PreferenceAvailable | PreferenceUnavailable | MostSecureForLanguage
    | MostSecureAcceptable | NoneAcceptable

  datatype Decision = Decision(
    runtime: RuntimeType,
    limits: ResourceLimits,
    isOverride: bool,
    reason: Reason,
    auditRequired: bool)
  datatype Result = Ok(decision: Decision) | NoCompatibleRuntime | UnsupportedLanguage(language: Language)

  /** Lower is more secure. */
  function SecurityRank(r: RuntimeType): int {
    match r
    case Wasm => 0
    case V8 => 1
    case Process => 2
  }

  predicate SupportsLanguage(r: RuntimeType, language: Language) {
    match (r, language)
    case (V8, JavaScript) => true
    case (Wasm, WasmCode) => true
    case (Wasm, Python) => true
    case (Process, _) => true
    case _ => false
  }

  // ----- Policy

  predicate IsRuntimeAllowed(policy: SecurityPolicy, tool: string, trust: TrustLevel, r: RuntimeType) {
    if r == Process && !policy.allowProcessRuntime then false
    else if tool in policy.toolPolicies && policy.toolPolicies[tool].allowedRuntimes != []
    then r in policy.toolPolicies[tool].allowedRuntimes
    else trust in policy.allowedByTrust && r in policy.allowedByTrust[trust]
  }

  function AllowedRuntimes(policy: SecurityPolicy, tool: string, trust: TrustLevel): set<RuntimeType> {
    var banned := if policy.allowProcessRuntime then {} else {Process};
    if tool in policy.toolPolicies && policy.toolPolicies[tool].allowedRuntimes != []
    then (set r <- policy.toolPolicies[tool].allowedRuntimes) - banned
    else Lookup(policy.allowedByTrust, trust).GetOr({}) - banned
  }

  predicate RequiresAudit(policy: SecurityPolicy, tool: string, trust: TrustLevel) {
    (tool in policy.toolPolicies && policy.toolPolicies[tool].auditRequired) || trust.System? || trust.Trusted?
  }

  function GetLimits(policy: SecurityPolicy, tool: string, trust: TrustLevel): ResourceLimits {
    if tool in policy.toolPolicies && policy.toolPolicies[tool].limits.Some?
    then policy.toolPolicies[tool].limits.value
    else Lookup(policy.limitsByTrust, trust).GetOr(DEFAULT_LIMITS)
  }

  /** The yes-or-no question and the set of answers agree. */
  lemma AllowedIffListed(policy: SecurityPolicy, tool: string, trust: TrustLevel, r: RuntimeType)
    ensures IsRuntimeAllowed(policy, tool, trust, r) <==> r in AllowedRuntimes(policy, tool, trust)
  {
  }

  // ----- The choice, as a function of sets

  function MostSecure(runtimes: set<RuntimeType>): RuntimeType {
    if Wasm in runtimes then Wasm else if V8 in runtimes then V8 else Process
  }

  /** The runtimes that policy, build and language leave for a tool. */
  function Eligible(policy: SecurityPolicy, available: set<RuntimeType>, tool: Tool): set<RuntimeType> {
    var candidates := AllowedRuntimes(policy, tool.id, tool.trust) * available;
    if tool.runtime.Auto?
    then set r <- candidates | SupportsLanguage(r, tool.runtime.language)
    else candidates
  }

  /** What the tool itself asks for, if it asks for anything. */
  predicate Wants(requirement: Requirement, r: RuntimeType) {
    match requirement
    case Specific(runtime) => r == runtime
    case Auto(_, Some(preferred)) => r == preferred
    case Auto(_, None) => true
    case AnyOf(runtimes) => r in runtimes
  }

  /** The most secure wanted runtime, or else, as an override, the most secure eligible one. */
  function Resolve(eligible: set<RuntimeType>, requirement: Requirement): (RuntimeType, bool) {
    var wanted := set r <- eligible | Wants(requirement, r);
    if wanted == {} then (MostSecure(eligible), true) else (MostSecure(wanted), false)
  }

  /** The reason says which kind of requirement was met or overridden. */
  function ReasonFor(requirement: Requirement, isOverride: bool): Reason {
    match requirement
    case Specific(_) => if isOverride then RequestNotAllowed else RequestAllowed
    case Auto(_, Some(_)) => if isOverride then PreferenceUnavailable else PreferenceAvailable
    case Auto(_, None) => MostSecureForLanguage
    case AnyOf(_) => if isOverride then NoneAcceptable else MostSecureAcceptable
  }

  function Choice(policy: SecurityPolicy, available: set<RuntimeType>, tool: Tool): Result {
    if AllowedRuntimes(policy, tool.id, tool.trust) * available == {} then NoCompatibleRuntime
    else
      var eligible := Eligible(policy, available, tool);
      if eligible == {} then
        if tool.runtime.Auto? then UnsupportedLanguage(tool.runtime.language) else NoCompatibleRuntime
      else
        var (chosen, isOverride) := Resolve(eligible, tool.runtime);
        Ok(Decision(chosen, GetLimits(policy, tool.id, tool.trust), isOverride, ReasonFor(tool.runtime, isOverride),
                    RequiresAudit(policy, tool.id, tool.trust)))
  }

  // ----- The selector, over lists

  /** The elements of a set in an arbitrary order. */
  method Enumerate(runtimes: set<RuntimeType>) returns (list: seq<RuntimeType>)
    ensures forall r :: r in list <==> r in runtimes
    ensures |list| == |runtimes|
  {
    list := [];
    var rest := runtimes;
    while rest != {}
      invariant rest <= runtimes
      invariant forall r :: r in list <==> r in runtimes - rest
      invariant |list| + |rest| == |runtimes|
    {
      var r :| r in rest;
      list := list + [r];
      rest := rest - {r};
    }
  }

  lemma SortedHeadIsMostSecure(list: seq<RuntimeType>, runtimes: set<RuntimeType>)
    requires list != [] && forall r :: r in list <==> r in runtimes
    ensures SortByKey(list, SecurityRank) != []
    ensures SortByKey(list, SecurityRank)[0] == MostSecure(runtimes)
  {
    var sorted := SortByKey(list, SecurityRank);
    SortByKeyStablySorts(list, SecurityRank);
    forall r <- list ensures r in sorted {
      var i :| 0 <= i < |list| && list[i] == r;
      KeyIsPresent(list, SecurityRank, i);
      WithKeySelects(sorted, SecurityRank, SecurityRank(r));
    }
    forall r <- sorted ensures r in list {
      var i :| 0 <= i < |sorted| && sorted[i] == r;
      KeyIsPresent(sorted, SecurityRank, i);
      WithKeySelects(list, SecurityRank, SecurityRank(r));
    }
    assert list[0] in runtimes && list[0] in sorted;
    MostSecureIsMinimal(runtimes);
    assert MostSecure(runtimes) in list;
    assert sorted[0] in sorted;
  }

  method MinByRank(list: seq<RuntimeType>) returns (best: RuntimeType)
    requires list != []
    ensures best in list
    ensures forall r <- list :: SecurityRank(best) <= SecurityRank(r)
  {
    best := list[0];
    for i := 1 to |list|
      invariant best in list
      invariant forall j :: 0 <= j < i ==> SecurityRank(best) <= SecurityRank(list[j])
    {
      if SecurityRank(list[i]) < SecurityRank(best) {
        best := list[i];
      }
    }
  }

  method MostSecureOf(list: seq<RuntimeType>, ghost runtimes: set<RuntimeType>) returns (chosen: RuntimeType)
    requires list != [] && forall r :: r in list <==> r in runtimes
    ensures chosen == MostSecure(runtimes)
  {
    SortedHeadIsMostSecure(list, runtimes);
    var sorted := SortByKey(list, SecurityRank);
    chosen := sorted[0];
  }

  /** A requested or preferred runtime, or the most secure candidate in its place. */
  method ChooseOne(list: seq<RuntimeType>, ghost runtimes: set<RuntimeType>, requirement: Requirement,
                   requested: RuntimeType)
    returns (chosen: RuntimeType, isOverride: bool)
    requires list != [] && forall r :: r in list <==> r in runtimes
    requires forall r :: Wants(requirement, r) <==> r == requested
    ensures (chosen, isOverride) == Resolve(runtimes, requirement)
  {
    if requested in list {
      assert (set r <- runtimes | Wants(requirement, r)) == {requested};
      chosen, isOverride := requested, false;
    } else {
      chosen := MostSecureOf(list, runtimes);
      isOverride := true;
    }
  }

  method ChooseAnyOf(list: seq<RuntimeType>, ghost runtimes: set<RuntimeType>, requested: seq<RuntimeType>)
    returns (chosen: RuntimeType, isOverride: bool)
    requires list != [] && forall r :: r in list <==> r in runtimes
    ensures (chosen, isOverride) == Resolve(runtimes, AnyOf(requested))
  {
    var isCandidate := (r: RuntimeType) => r in list;
    var acceptable := Retain(requested, isCandidate);
    RetainSelects(requested, isCandidate);
    hide Retain;
    ghost var wanted := set r <- runtimes | Wants(AnyOf(requested), r);
    assert forall r :: r in acceptable <==> r in wanted;
    if acceptable == [] {
      chosen := MostSecureOf(list, runtimes);
      isOverride := true;
    } else {
      assert acceptable[0] in wanted;
      chosen := MinByRank(acceptable);
      MostSecureIsMinimal(wanted);
      assert SecurityRank(chosen) == SecurityRank(MostSecure(wanted));
      isOverride := false;
    }
  }

  /** The decision is a function of the sets, whatever order they are enumerated in. */
  method SelectRuntime(policy: SecurityPolicy, available: set<RuntimeType>, tool: Tool) returns (result: Result)
    ensures result == Choice(policy, available, tool)
  {
    hide AllowedRuntimes, Resolve;
    var candidates := Enumerate(AllowedRuntimes(policy, tool.id, tool.trust) * available);
    ghost var eligible := Eligible(policy, available, tool);
    if candidates == [] {
      return NoCompatibleRuntime;
    }
    assert candidates[0] in AllowedRuntimes(policy, tool.id, tool.trust) * available;
    var chosen, isOverride, reason;
    match tool.runtime {
      case Specific(runtime) =>
        chosen, isOverride := ChooseOne(candidates, eligible, tool.runtime, runtime);
        reason := if isOverride then RequestNotAllowed else RequestAllowed;
      case Auto(language, preferred) =>
        var supports := (r: RuntimeType) => SupportsLanguage(r, language);
        var supported := Retain(candidates, supports);
        RetainSelects(candidates, supports);
        assert forall r :: r in supported <==> r in eligible;
        if supported == [] {
          return UnsupportedLanguage(language);
        }
        assert supported[0] in eligible;
        if preferred.Some? {
          chosen, isOverride := ChooseOne(supported, eligible, tool.runtime, preferred.value);
          reason := if isOverride then PreferenceUnavailable else PreferenceAvailable;
        } else {
          chosen := MostSecureOf(supported, eligible);
          NoPreference(eligible, language);
          isOverride, reason := false, MostSecureForLanguage;
        }
      case AnyOf(runtimes) =>
        chosen, isOverride := ChooseAnyOf(candidates, eligible, runtimes);
        reason := if isOverride then NoneAcceptable else MostSecureAcceptable;
    }
    var limits := GetLimits(policy, tool.id, tool.trust);
    result := Ok(Decision(chosen, limits, isOverride, reason, RequiresAudit(policy, tool.id, tool.trust)));
  }

  lemma NoPreference(eligible: set<RuntimeType>, language: Language)
    requires eligible != {}
    ensures Resolve(eligible, Auto(language, None)) == (MostSecure(eligible), false)
  {
    assert (set r <- eligible | Wants(Auto(language, None), r)) == eligible;
  }

  // ----- Properties of the choice

  lemma MostSecureIsMinimal(runtimes: set<RuntimeType>)
    requires runtimes != {}
    ensures MostSecure(runtimes) in runtimes
    ensures forall r <- runtimes :: SecurityRank(MostSecure(runtimes)) <= SecurityRank(r)
  {
    var x :| x in runtimes;
    assert x.Process? || x.V8? || x.Wasm?;
    if x.Process? {
      assert Process in runtimes;
    } else if x.V8? {
      assert V8 in runtimes;
    } else {
      assert Wasm in runtimes;
    }
  }

  /** Policy and build leave the runtime to the tool: its own list decides if it has one, or else its trust. */
  ghost predicate Permits(policy: SecurityPolicy, available: set<RuntimeType>, tool: Tool, r: RuntimeType) {
    && r in available
    && (r == Process ==> policy.allowProcessRuntime)
    && if tool.id in policy.toolPolicies && policy.toolPolicies[tool.id].allowedRuntimes != []
       then r in policy.toolPolicies[tool.id].allowedRuntimes
       else tool.trust in policy.allowedByTrust && r in policy.allowedByTrust[tool.trust]
  }

  /** A process runs everything, V8 JavaScript only, and WebAssembly itself and Python. */
  ghost predicate Runs(r: RuntimeType, language: Language) {
    r == Process || (r, language) in {(V8, JavaScript), (Wasm, WasmCode), (Wasm, Python)}
  }

  ghost predicate Usable(policy: SecurityPolicy, available: set<RuntimeType>, tool: Tool, r: RuntimeType) {
    Permits(policy, available, tool, r) && (tool.runtime.Auto? ==> Runs(r, tool.runtime.language))
  }

  /** The runtimes between which security decides: the acceptable ones, or all when nothing asked for is usable. */
  ghost predicate Pooled(requirement: Requirement, isOverride: bool, r: RuntimeType) {
    || isOverride
    || (requirement.Auto? && requirement.preferred.None?)
    || (requirement.AnyOf? && r in requirement.runtimes)
  }

  lemma EligibleIffUsable(policy: SecurityPolicy, available: set<RuntimeType>, tool: Tool, r: RuntimeType)
    ensures r in AllowedRuntimes(policy, tool.id, tool.trust) * available <==> Permits(policy, available, tool, r)
    ensures r in Eligible(policy, available, tool) <==> Usable(policy, available, tool, r)
  {
  }

  /** Selection fails exactly when nothing is permitted, or nothing permitted runs the language. */
  lemma SelectionFailsIff(policy: SecurityPolicy, available: set<RuntimeType>, tool: Tool)
    ensures Choice(policy, available, tool) == NoCompatibleRuntime <==> forall r :: !Permits(policy, available, tool, r)
    ensures forall l :: Choice(policy, available, tool) == UnsupportedLanguage(l) <==>
              && tool.runtime.Auto? && tool.runtime.language == l
              && (exists r :: Permits(policy, available, tool, r))
              && forall r :: Permits(policy, available, tool, r) ==> !Runs(r, l)
  {
    forall r
      ensures r in AllowedRuntimes(policy, tool.id, tool.trust) * available <==> Permits(policy, available, tool, r)
      ensures r in Eligible(policy, available, tool) <==> Usable(policy, available, tool, r)
    {
      EligibleIffUsable(policy, available, tool, r);
    }
    hide AllowedRuntimes, Eligible, Permits, Runs;
    var candidates, eligible := AllowedRuntimes(policy, tool.id, tool.trust) * available, Eligible(policy, available, tool);
    if candidates != {} {
      var r :| r in candidates;
      assert Permits(policy, available, tool, r);
    }
    if eligible != {} {
      var r :| r in eligible;
      assert Usable(policy, available, tool, r);
    }
    assert !tool.runtime.Auto? ==> eligible == candidates;
  }

  /**
   A selection in the policy's own terms: a requested or preferred runtime that is usable is
   taken, one of several acceptable ones too, and otherwise it is an override; what was not
   asked for by name is WebAssembly before V8 before a process.
   */
  lemma SelectionIs(policy: SecurityPolicy, available: set<RuntimeType>, tool: Tool)
    requires Choice(policy, available, tool).Ok?
    ensures var d := Choice(policy, available, tool).decision;
            && Usable(policy, available, tool, d.runtime)
            && (match tool.runtime
                case Specific(x) =>
                  && (d.isOverride <==> !Usable(policy, available, tool, x)) && (!d.isOverride ==> d.runtime == x)
                  && d.reason == (if d.isOverride then RequestNotAllowed else RequestAllowed)
                case Auto(_, Some(x)) =>
                  && (d.isOverride <==> !Usable(policy, available, tool, x)) && (!d.isOverride ==> d.runtime == x)
                  && d.reason == (if d.isOverride then PreferenceUnavailable else PreferenceAvailable)
                case Auto(_, None) => !d.isOverride && d.reason == MostSecureForLanguage
                case AnyOf(xs) =>
                  && (d.isOverride <==> forall x <- xs :: !Usable(policy, available, tool, x))
                  && (!d.isOverride ==> d.runtime in xs)
                  && d.reason == (if d.isOverride then NoneAcceptable else MostSecureAcceptable))
            && (forall r :: Usable(policy, available, tool, r) && Pooled(tool.runtime, d.isOverride, r) ==>
                  r == d.runtime || r == Process || (r == V8 && d.runtime == Wasm))
  {
    forall r ensures r in Eligible(policy, available, tool) <==> Usable(policy, available, tool, r) {
      EligibleIffUsable(policy, available, tool, r);
    }
    hide AllowedRuntimes, Eligible, Usable;
    var d, eligible := Choice(policy, available, tool).decision, Eligible(policy, available, tool);
    var wanted := set r <- eligible | Wants(tool.runtime, r);
    MostSecureIsMinimal(if wanted == {} then eligible else wanted);
    assert forall r <- eligible :: Wants(tool.runtime, r) ==> r in wanted;
  }

  /** Limits and audit of a selection: the tool's own limits, or its trust's, or the defaults. */
  lemma SelectionCarries(policy: SecurityPolicy, available: set<RuntimeType>, tool: Tool)
    requires Choice(policy, available, tool).Ok?
    ensures var d := Choice(policy, available, tool).decision;
            var own := Lookup(policy.toolPolicies, tool.id);
            && (own.Some? && own.value.limits.Some? ==> Some(d.limits) == own.value.limits)
            && (own.None? || own.value.limits.None? ==>
                  d.limits == if tool.trust in policy.limitsByTrust then policy.limitsByTrust[tool.trust]
                              else ResourceLimits(Some(30), Some(104_857_600), Some(30_000)))
            && (d.auditRequired <==>
                tool.trust in {Trusted, System} || (own.Some? && own.value.auditRequired))
  {
    hide Eligible, Resolve, AllowedRuntimes;
  }

  /**
   The choice is allowed, available and fit for the language; it is flagged an override
   exactly when the tool does not want it, which happens only when it wants nothing
   eligible; and it is the most secure of the eligible runtimes it was chosen from.
   */
  lemma ChoiceIsSecure(policy: SecurityPolicy, available: set<RuntimeType>, tool: Tool)
    requires Choice(policy, available, tool).Ok?
    ensures var d, eligible := Choice(policy, available, tool).decision, Eligible(policy, available, tool);
            && d.runtime in eligible && d.runtime in available
            && IsRuntimeAllowed(policy, tool.id, tool.trust, d.runtime)
            && (d.isOverride <==> !Wants(tool.runtime, d.runtime))
            && (d.isOverride <==> forall r <- eligible :: !Wants(tool.runtime, r))
            && (forall r <- eligible :: (Wants(tool.runtime, r) || d.isOverride) ==>
                  SecurityRank(d.runtime) <= SecurityRank(r))
  {
    var d, eligible := Choice(policy, available, tool).decision, Eligible(policy, available, tool);
    var wanted := set r <- eligible | Wants(tool.runtime, r);
    MostSecureIsMinimal(if wanted == {} then eligible else wanted);
    AllowedIffListed(policy, tool.id, tool.trust, d.runtime);
    assert forall r <- eligible :: Wants(tool.runtime, r) ==> r in wanted;
  }
}
