/**
 Tool capabilities and their attenuation: a syntactic subset check on patterns against
 the sets of tools the patterns denote, for one delegation and for whole chains.
 */
module Capabilities {
  import opened Options

  datatype ToolPattern = ToolPattern(pattern: string) {
    predicate IsWildcard() { pattern != "" && pattern[|pattern| - 1] == '*' }
    predicate IsDirectory() { pattern != "" && pattern[|pattern| - 1] == '/' }

    /** The pattern without its final wildcard. */
    function Word(): string {
      if IsWildcard() then pattern[..|pattern| - 1] else pattern
    }

    predicate Matches(tool: string) {
      if IsWildcard() then pattern[..|pattern| - 1] <= tool
      else if IsDirectory() then pattern <= tool
      else tool == pattern
    }

    predicate IsSubsetOf(parent: ToolPattern) {
      if parent.IsWildcard() then parent.pattern[..|parent.pattern| - 1] <= pattern
      else pattern == parent.pattern
    }

    /** Every tool that this pattern matches, the parent matches. */
    ghost predicate Within(parent: ToolPattern) {
      forall tool :: Matches(tool) ==> parent.Matches(tool)
    }

    /** The pair `w*` below `w**`, which the subset check accepts and should not. */
    predicate IsStarBelowTwoStars(parent: ToolPattern) {
      IsWildcard() && parent.pattern == pattern + "*"
    }

    predicate IsSoundSubsetOf(parent: ToolPattern) {
      IsSubsetOf(parent) && !IsStarBelowTwoStars(parent)
    }
  }

  datatype ResourceLimits =
    ResourceLimits(maxReadBytes: Option<nat>, maxWriteBytes: Option<nat>, maxConcurrentRequests: Option<nat>)
  datatype RateLimit = RateLimit(maxPresentations: nat, windowSecs: nat)

  datatype Capability = Capability(
    allowedTools: seq<ToolPattern>,
    deniedTools: seq<ToolPattern>,
    resourceLimits: ResourceLimits,
    rateLimit: RateLimit)

  // ----- Patterns

  /** `w*` matches what starts with w, `d/` what starts with it, and any other pattern only itself. */
  lemma MatchesIff(word: string, tool: string)
    ensures ToolPattern(word + "*").Matches(tool) <==> exists rest :: tool == word + rest
    ensures ToolPattern(word + "/").Matches(tool) <==> exists rest :: tool == word + "/" + rest
    ensures word == "" || word[|word| - 1] !in "*/" ==> (ToolPattern(word).Matches(tool) <==> tool == word)
  {
    assert (word + "*")[..|word|] == word;
    if word <= tool {
      assert tool == word + tool[|word|..];
    }
    if word + "/" <= tool {
      assert tool == word + "/" + tool[|word| + 1..];
    }
  }

  /** Below a parent that passes the check, a matched tool is lost exactly for `w*` below `w**`, unless it starts with `w*`. */
  lemma SubsetCarriesToolIff(child: ToolPattern, parent: ToolPattern, tool: string)
    requires child.IsSubsetOf(parent) && child.Matches(tool)
    ensures parent.Matches(tool) <==> !(child.IsStarBelowTwoStars(parent) && !(child.pattern <= tool))
  {
    if child.IsStarBelowTwoStars(parent) {
      assert parent.Word() == child.pattern;
    } else if parent.IsWildcard() {
      var v := parent.Word();
      assert parent.pattern == v + "*";
      assert v <= child.Word();
      assert child.Word() <= tool;
    }
  }

  /** The check is sound except for a child `w*` of the parent `w**`. */
  lemma SubsetIsSoundIff(child: ToolPattern, parent: ToolPattern)
    requires child.IsSubsetOf(parent)
    ensures child.Within(parent) <==> !child.IsStarBelowTwoStars(parent)
  {
    forall tool | child.Matches(tool)
      ensures parent.Matches(tool) <==> !(child.IsStarBelowTwoStars(parent) && !(child.pattern <= tool))
    {
      SubsetCarriesToolIff(child, parent, tool);
    }
    assert child.Matches(child.Word());
  }

  /** The failing pair: `w*` passes below `w**` and matches `wx`, which `w**` does not. */
  lemma StarBelowTwoStarsPasses()
    ensures var child, parent := ToolPattern("w*"), ToolPattern("w**");
            child.IsSubsetOf(parent) && child.Matches("wx") && !parent.Matches("wx")
  {
    assert "w*" == "w**"[..2] && "w" == "w*"[..1];
    assert "wx"[1] != "w*"[1];
  }

  /** The check finds every inclusion except below a parent that matches by the prefix `dir/`. */
  lemma InclusionIsFoundIff(child: ToolPattern, parent: ToolPattern)
    requires child.Within(parent)
    ensures child.IsSubsetOf(parent) <==> !(parent.IsDirectory() && child != parent)
  {
    assert child.Matches(child.Word());
    if !parent.IsWildcard() && !parent.IsDirectory() && child.IsWildcard() {
      assert child.Matches(child.Word() + "*");
    }
  }

  /** A missed inclusion: `d/` matches every tool that `d/f` matches. */
  lemma InclusionBelowDirectoryIsMissed()
    ensures var child, parent := ToolPattern("d/f"), ToolPattern("d/");
            child.Within(parent) && !child.IsSubsetOf(parent)
  {
    assert "d/" == "d/f"[..2];
  }

  /** Two steps of the check compose except across `w*` below `w**`, for a pattern that does not start with `w*`. */
  lemma SubsetComposesIff(a: ToolPattern, b: ToolPattern, c: ToolPattern)
    requires a.IsSubsetOf(b) && b.IsSubsetOf(c)
    ensures a.IsSubsetOf(c) <==> !(b.IsStarBelowTwoStars(c) && !(b.pattern <= a.pattern))
  {
    if b.IsStarBelowTwoStars(c) {
      assert c.Word() == b.pattern;
    } else if c.IsWildcard() && b.IsWildcard() {
      assert c.pattern == c.Word() + "*";
      assert c.Word() <= b.Word();
    }
  }

  /** A failing triple: `wx` passes below `w*`, and `w*` below `w**`, but not `wx` below `w**`. */
  lemma SubsetDoesNotCompose()
    ensures var a, b, c := ToolPattern("wx"), ToolPattern("w*"), ToolPattern("w**");
            a.IsSubsetOf(b) && b.IsSubsetOf(c) && !a.IsSubsetOf(c)
  {
    assert "w*" == "w**"[..2] && "w" == "w*"[..1];
    assert "wx"[1] != "w*"[1];
  }

  /** Without the unsound pair the check is a preorder. */
  lemma SoundSubsetComposes(a: ToolPattern, b: ToolPattern, c: ToolPattern)
    requires a.IsSoundSubsetOf(b) && b.IsSoundSubsetOf(c)
    ensures a.IsSoundSubsetOf(c)
  {
    SubsetComposesIff(a, b, c);
    SubsetIsSoundIff(a, b);
    SubsetIsSoundIff(b, c);
    SubsetIsSoundIff(a, c);
  }

  // ----- Limits

  predicate LimitWithin(child: Option<nat>, parent: Option<nat>) {
    if parent.Some? then child.Some? && child.value <= parent.value else true
  }

  predicate LimitsWithin(child: ResourceLimits, parent: ResourceLimits) {
    && LimitWithin(child.maxReadBytes, parent.maxReadBytes)
    && LimitWithin(child.maxWriteBytes, parent.maxWriteBytes)
    && LimitWithin(child.maxConcurrentRequests, parent.maxConcurrentRequests)
  }

  predicate Respects(amount: nat, limit: Option<nat>) {
    limit.None? || amount <= limit.value
  }

  /** The limit check is exactly that the parent admits every amount the child admits. */
  lemma LimitWithinIffAdmits(child: Option<nat>, parent: Option<nat>)
    ensures LimitWithin(child, parent) <==> forall amount: nat :: Respects(amount, child) ==> Respects(amount, parent)
  {
    if parent.Some? {
      var amount := if child.Some? then child.value else parent.value + 1;
      assert Respects(amount, child);
    }
  }

  /** The amounts read and written in one operation and the concurrent requests that the limits admit. */
  ghost predicate Admits(limits: ResourceLimits, read: nat, written: nat, concurrent: nat) {
    && Respects(read, limits.maxReadBytes)
    && Respects(written, limits.maxWriteBytes)
    && Respects(concurrent, limits.maxConcurrentRequests)
  }

  /** The check of all three limits is exactly that the parent admits whatever the child admits. */
  lemma LimitsWithinIffAdmits(child: ResourceLimits, parent: ResourceLimits)
    ensures LimitsWithin(child, parent) <==>
            forall read: nat, written: nat, concurrent: nat ::
              Admits(child, read, written, concurrent) ==> Admits(parent, read, written, concurrent)
  {
    LimitWithinIffAdmits(child.maxReadBytes, parent.maxReadBytes);
    LimitWithinIffAdmits(child.maxWriteBytes, parent.maxWriteBytes);
    LimitWithinIffAdmits(child.maxConcurrentRequests, parent.maxConcurrentRequests);
    hide LimitWithin;
    if x: nat :| Respects(x, child.maxReadBytes) && !Respects(x, parent.maxReadBytes) {
      assert Admits(child, x, 0, 0);
    }
    if x: nat :| Respects(x, child.maxWriteBytes) && !Respects(x, parent.maxWriteBytes) {
      assert Admits(child, 0, x, 0);
    }
    if x: nat :| Respects(x, child.maxConcurrentRequests) && !Respects(x, parent.maxConcurrentRequests) {
      assert Admits(child, 0, 0, x);
    }
  }

  // ----- Capabilities

  ghost predicate MatchesAny(patterns: seq<ToolPattern>, tool: string) {
    exists p <- patterns :: p.Matches(tool)
  }

  ghost predicate Allows(c: Capability, tool: string) {
    !MatchesAny(c.deniedTools, tool) && MatchesAny(c.allowedTools, tool)
  }

  ghost predicate SubsetOf(child: Capability, parent: Capability) {
    && (forall p <- child.allowedTools :: exists q <- parent.allowedTools :: p.IsSubsetOf(q))
    && child.rateLimit.maxPresentations <= parent.rateLimit.maxPresentations
    && LimitsWithin(child.resourceLimits, parent.resourceLimits)
  }

  method IsToolAllowed(c: Capability, tool: string) returns (allowed: bool)
    ensures allowed <==> Allows(c, tool)
    ensures allowed <==> && (exists p <- c.allowedTools :: p.Matches(tool))
                         && forall p <- c.deniedTools :: !p.Matches(tool)
  {
    for i := 0 to |c.deniedTools|
      invariant forall j :: 0 <= j < i ==> !c.deniedTools[j].Matches(tool)
    {
      if c.deniedTools[i].Matches(tool) {
        return false;
      }
    }
    for i := 0 to |c.allowedTools|
      invariant forall j :: 0 <= j < i ==> !c.allowedTools[j].Matches(tool)
    {
      if c.allowedTools[i].Matches(tool) {
        return true;
      }
    }
    return false;
  }

  method IsSubsetOf(child: Capability, parent: Capability) returns (subset: bool)
    ensures subset <==> SubsetOf(child, parent)
    ensures subset <==>
            && (forall p <- child.allowedTools :: exists q <- parent.allowedTools :: p.IsSubsetOf(q))
            && child.rateLimit.maxPresentations <= parent.rateLimit.maxPresentations
            && forall read: nat, written: nat, concurrent: nat ::
                 Admits(child.resourceLimits, read, written, concurrent)
                 ==> Admits(parent.resourceLimits, read, written, concurrent)
  {
    LimitsWithinIffAdmits(child.resourceLimits, parent.resourceLimits);
    hide LimitsWithin, Admits;
    for i := 0 to |child.allowedTools|
      invariant forall k :: 0 <= k < i ==> exists q <- parent.allowedTools :: child.allowedTools[k].IsSubsetOf(q)
    {
      var found := false;
      for j := 0 to |parent.allowedTools|
        invariant !found
        invariant forall k :: 0 <= k < j ==> !child.allowedTools[i].IsSubsetOf(parent.allowedTools[k])
      {
        if child.allowedTools[i].IsSubsetOf(parent.allowedTools[j]) {
          assert parent.allowedTools[j] in parent.allowedTools;
          found := true;
          break;
        }
      }
      if !found {
        assert child.allowedTools[i] in child.allowedTools;
        return false;
      }
    }
    if child.rateLimit.maxPresentations > parent.rateLimit.maxPresentations {
      return false;
    }
    return LimitsWithin(child.resourceLimits, parent.resourceLimits);
  }

  // ----- Chains of delegation

  /** Each capability is a subset of the one before it; the first is the root. */
  ghost predicate IsChain(chain: seq<Capability>) {
    chain != [] && forall i :: 0 < i < |chain| ==> SubsetOf(chain[i], chain[i - 1])
  }

  /** The allow-lists pass the check without relying on a pair `w*` below `w**`. */
  ghost predicate AllowListWithin(child: Capability, parent: Capability) {
    forall p <- child.allowedTools :: exists q <- parent.allowedTools :: p.IsSoundSubsetOf(q)
  }

  ghost predicate HasSoundLinks(chain: seq<Capability>) {
    forall i :: 0 < i < |chain| ==> AllowListWithin(chain[i], chain[i - 1])
  }

  /** Along any chain the rate cap and the resource limits lie within the root's. */
  lemma {:induction false} ChainAttenuatesLimits(chain: seq<Capability>)
    requires IsChain(chain)
    ensures var root, last := chain[0], chain[|chain| - 1];
            && last.rateLimit.maxPresentations <= root.rateLimit.maxPresentations
            && LimitsWithin(last.resourceLimits, root.resourceLimits)
            && forall read: nat, written: nat, concurrent: nat ::
                 Admits(last.resourceLimits, read, written, concurrent)
                 ==> Admits(root.resourceLimits, read, written, concurrent)
  {
    if |chain| > 1 {
      var front := chain[..|chain| - 1];
      ChainAttenuatesLimits(front);
      assert SubsetOf(chain[|chain| - 1], front[|front| - 1]);
    }
    LimitsWithinIffAdmits(chain[|chain| - 1].resourceLimits, chain[0].resourceLimits);
  }

  lemma AllowListWithinComposes(a: Capability, b: Capability, c: Capability)
    requires AllowListWithin(a, b) && AllowListWithin(b, c)
    ensures AllowListWithin(a, c)
  {
    forall p <- a.allowedTools ensures exists r <- c.allowedTools :: p.IsSoundSubsetOf(r) {
      var q :| q in b.allowedTools && p.IsSoundSubsetOf(q);
      var r :| r in c.allowedTools && q.IsSoundSubsetOf(r);
      SoundSubsetComposes(p, q, r);
    }
  }

  /** Without the unsound pair, the end of a chain of any length passes the check against its root. */
  lemma {:induction false} ChainComposes(chain: seq<Capability>)
    requires IsChain(chain) && HasSoundLinks(chain)
    ensures SubsetOf(chain[|chain| - 1], chain[0]) && AllowListWithin(chain[|chain| - 1], chain[0])
  {
    ChainAttenuatesLimits(chain);
    if |chain| == 1 {
      forall p <- chain[0].allowedTools ensures exists q <- chain[0].allowedTools :: p.IsSoundSubsetOf(q) {
        assert p.IsSoundSubsetOf(p);
      }
    } else {
      var front := chain[..|chain| - 1];
      ChainComposes(front);
      AllowListWithinComposes(chain[|chain| - 1], front[|front| - 1], chain[0]);
    }
  }

  /**
   Along a chain of any length without the unsound pair, the last allow-list lies within the
   root's, and a tool allowed at the end is allowed at the root exactly when the root's
   deny-list does not match it.
   */
  lemma ChainAttenuates(chain: seq<Capability>, tool: string)
    requires IsChain(chain) && HasSoundLinks(chain)
    ensures var root, last := chain[0], chain[|chain| - 1];
            && (MatchesAny(last.allowedTools, tool) ==> MatchesAny(root.allowedTools, tool))
            && (Allows(last, tool) ==> (Allows(root, tool) <==> !MatchesAny(root.deniedTools, tool)))
  {
    var root, last := chain[0], chain[|chain| - 1];
    ChainComposes(chain);
    if MatchesAny(last.allowedTools, tool) {
      var p :| p in last.allowedTools && p.Matches(tool);
      var q :| q in root.allowedTools && p.IsSoundSubsetOf(q);
      SubsetIsSoundIff(p, q);
      assert q.Matches(tool);
    }
  }

  /** Every capability of the chain repeats the denied patterns of the one before it. */
  ghost predicate KeepsDenials(chain: seq<Capability>) {
    forall i :: 0 < i < |chain| ==> forall d <- chain[i - 1].deniedTools :: d in chain[i].deniedTools
  }

  lemma {:induction false} DenialsReachTheEnd(chain: seq<Capability>, d: ToolPattern)
    requires chain != [] && KeepsDenials(chain) && d in chain[0].deniedTools
    ensures d in chain[|chain| - 1].deniedTools
  {
    if |chain| > 1 {
      DenialsReachTheEnd(chain[..|chain| - 1], d);
    }
  }

  /** With the denied patterns kept, nothing is allowed at the end that the root does not allow. */
  lemma KeptDenialsCarryBack(chain: seq<Capability>, tool: string)
    requires IsChain(chain) && HasSoundLinks(chain) && KeepsDenials(chain) && Allows(chain[|chain| - 1], tool)
    ensures Allows(chain[0], tool)
  {
    ChainAttenuates(chain, tool);
    if MatchesAny(chain[0].deniedTools, tool) {
      var d :| d in chain[0].deniedTools && d.Matches(tool);
      DenialsReachTheEnd(chain, d);
    }
  }

  /** The check compares neither the denied tools nor the windows of the rate limits. */
  lemma DenialsAndWindowsAreNotChecked(child: Capability, parent: Capability, denied: seq<ToolPattern>, window: nat)
    ensures var other := child.(deniedTools := denied, rateLimit := child.rateLimit.(windowSecs := window));
            SubsetOf(child, parent) <==> SubsetOf(other, parent)
  {
  }

  /** The presentations per second that the child may make are at most the parent's. */
  predicate RateWithin(child: RateLimit, parent: RateLimit) {
    child.maxPresentations * parent.windowSecs <= parent.maxPresentations * child.windowSecs
  }

  /** The compared cap bounds the rate, for all caps it admits, exactly when the child's window is no shorter. */
  lemma CapBoundsRateIff(childWindow: nat, parentWindow: nat)
    ensures (forall m: nat, n: nat :: m <= n ==> RateWithin(RateLimit(m, childWindow), RateLimit(n, parentWindow)))
            <==> parentWindow <= childWindow
  {
    if parentWindow <= childWindow {
      forall m: nat, n: nat | m <= n ensures RateWithin(RateLimit(m, childWindow), RateLimit(n, parentWindow)) {
        ProductGrows(m, n, parentWindow, childWindow);
      }
    } else {
      assert !RateWithin(RateLimit(1, childWindow), RateLimit(1, parentWindow));
    }
  }

  /** A child with its parent's cap and a shorter window passes the check and may exceed the parent's rate. */
  lemma ShorterWindowPasses(parent: Capability, window: nat)
    requires parent.rateLimit.maxPresentations > 0 && window < parent.rateLimit.windowSecs
    ensures var child := parent.(rateLimit := parent.rateLimit.(windowSecs := window));
            SubsetOf(child, parent) && !RateWithin(child.rateLimit, parent.rateLimit)
  {
    assert forall p <- parent.allowedTools :: p.IsSubsetOf(p);
  }

  lemma ProductGrows(a: nat, b: nat, x: nat, y: nat)
    requires a <= b && x <= y
    ensures a * x <= b * y
  {
    assert a * x <= b * x <= b * y;
  }

  /** A child without its parent's denied pattern passes the check and allows the denied tool. */
  lemma DroppedDenialPasses(p: ToolPattern, limits: ResourceLimits, rate: RateLimit, tool: string)
    requires p.Matches(tool)
    ensures var parent, child := Capability([p], [p], limits, rate), Capability([p], [], limits, rate);
            SubsetOf(child, parent) && Allows(child, tool) && !Allows(parent, tool)
  {
    assert p.IsSubsetOf(p);
    assert p in [p];
  }
}
