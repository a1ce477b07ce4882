// Two-phase dispatch over the compiled rules, and the file scan it stands for.
module RuleDispatch {
  import opened Flow
  import opened RuleLines
  import opened RuleBuilder
  import opened RuleMatch
  import opened RuleOrder

  datatype HostSpec = Domain(name: Name) | Address(ip: Ip)

  // The dispatcher's resolver: absent, dropped, or the answers it gives for the domain in question;
  // a failed lookup answers nothing.
  datatype Resolver = NoResolver | Gone | Live(v4s: seq<nat>, v6s: seq<nat>)

  datatype Verdict = Matched(action: nat) | Fallback | Unavailable

  function First(s: seq<nat>): Option<nat> {
    if s == [] then None else Some(s[0])
  }

  function Act(r: Option<nat>, actions: nat): Verdict {
    if r.None? then Fallback else if r.value < actions then Matched(r.value) else Unavailable
  }

  function ActionOf(h: Option<RuleHandle>): Option<nat> {
    if h.None? then None else Some(h.value.Action())
  }

  datatype TryMatchResult = Decided(verdict: Verdict) | NeedAsync(name: Name, v4s: seq<nat>, v6s: seq<nat>)

  // `RuleDispatcher::try_match`
  function TryMatch(rs: RuleSet, env: Env, host: HostSpec, resolver: Resolver, actions: nat)
    : TryMatchResult
    requires Sound(rs)
  {
    match host
    case Domain(name) =>
      if resolver.NoResolver? || !ShouldResolve(rs, name)
      then Decided(Act(ActionOf(Match(rs, env, None, None, Some(name))), actions))
      else if resolver.Gone? then Decided(Unavailable)
      else NeedAsync(name, resolver.v4s, resolver.v6s)
    case Address(V4(ip)) => Decided(Act(ActionOf(Match(rs, env, Some(ip), None, None)), actions))
    case Address(V6(ip)) => Decided(Act(ActionOf(Match(rs, env, None, Some(ip), None)), actions))
  }

  // `AsyncMatchContext::try_match`
  function AsyncTryMatch(
      rs: RuleSet, env: Env, name: Name, v4s: seq<nat>, v6s: seq<nat>, actions: nat): Verdict
    requires Sound(rs)
  {
    Act(ActionOf(Match(rs, env, First(v4s), First(v6s), Some(name))), actions)
  }

  // `try_match_with`: both phases.
  function Dispatch(rs: RuleSet, env: Env, host: HostSpec, resolver: Resolver, actions: nat): Verdict
    requires Sound(rs)
  {
    match TryMatch(rs, env, host, resolver, actions)
    case Decided(v) => v
    case NeedAsync(name, v4s, v6s) => AsyncTryMatch(rs, env, name, v4s, v6s, actions)
  }

  /** `match_domain`, the resolver's entry point, decides as a stream to the same domain does. */
  function MatchDomain(rs: RuleSet, env: Env, name: Name, resolver: Resolver, actions: nat)
    : (v: Verdict)
    requires Sound(rs)
    ensures v == Dispatch(rs, env, Domain(name), resolver, actions)
  {
    if !resolver.NoResolver? && ShouldResolve(rs, name) then
      if resolver.Gone? then Unavailable
      else AsyncTryMatch(rs, env, name, resolver.v4s, resolver.v6s, actions)
    else Act(ActionOf(Match(rs, env, None, None, Some(name))), actions)
  }

  // ---- the reference: a top-to-bottom scan ----

  datatype Query = Query(host: Option<Name>, v4: Option<nat>, v6: Option<nat>)

  // Line `i` matches what is known of the destination.
  predicate Hits(lines: seq<Line>, env: Env, q: Query, i: nat)
    requires i < |lines|
  {
    match lines[i]
    case Ignored => false
    case FinalRule(_) => true
    case DomainRule(kind, pattern, _) => q.host.Some? && Means(kind, pattern, StripDot(q.host.value))
    case IpRule(Block4(b), _, _) => q.v4.Some? && b.Contains(q.v4.value)
    case IpRule(Block6(b), _, _) => q.v6.Some? && b.Contains(q.v6.value)
    case IpRule(Code(code), _, _) => env.hasDb && LocatedIn(env, q, code)
  }

  predicate LocatedIn(env: Env, q: Query, code: Name) {
    || (q.v4.Some? && env.countryOf(V4(q.v4.value)) == Some(code))
    || (q.v6.Some? && env.countryOf(V6(q.v6.value)) == Some(code))
  }

  datatype Outcome = NoRule | Took(line: nat) | ResolverGone

  function Resolved(host: Name, resolver: Resolver): Query {
    match resolver
    case Live(v4s, v6s) => Query(Some(host), First(v4s), First(v6s))
    case _ => Query(Some(host), None, None)
  }

  /** The rule file read from line `i` on. While the addresses of a domain are unknown, no-resolve
      rules are passed over and the first other address rule resolves; the answer is kept. */
  function Scan(
      lines: seq<Line>, env: Env, q: Query, known: bool, resolver: Resolver, i: nat): Outcome
    requires i <= |lines| && (!known ==> q.host.Some?)
    decreases |lines| - i
  {
    if i == |lines| then NoRule
    else if lines[i].IpRule? && !known then
      if lines[i].noResolve then Scan(lines, env, q, known, resolver, i + 1)
      else if resolver.Gone? then ResolverGone
      else
        var full := Resolved(q.host.value, resolver);
        if Hits(lines, env, full, i) then Took(i)
        else Scan(lines, env, full, true, resolver, i + 1)
    else if Hits(lines, env, q, i) then Took(i)
    else Scan(lines, env, q, known, resolver, i + 1)
  }

  function ScanDispatch(
      lines: seq<Line>, env: Env, host: HostSpec, resolver: Resolver, actions: nat): Verdict
  {
    match Scan(lines, env, QueryOf(host), host.Address?, resolver, 0)
    case NoRule => Fallback
    case ResolverGone => Unavailable
    case Took(line) =>
      if line < |lines| then Act(Some(lines[line].Action()), actions) else Fallback
  }

  // ---- the conditions on a rule file ----

  // Line `i` is aggregated ahead of the earlier line `j` although it acts differently.
  predicate Inverted(lines: seq<Line>, j: nat, i: nat)
    requires j < i < |lines|
  {
    && !lines[i].Ignored? && !lines[j].Ignored?
    && StoredId(lines, i) < StoredId(lines, j) && lines[i].Action() != lines[j].Action()
  }

  // Merging never puts a rule in front of one with a different action.
  ghost predicate NoInversion(lines: seq<Line>) {
    forall i, j :: 0 <= j < i < |lines| ==> !Inverted(lines, j, i)
  }

  // No two country rules for one code lie on either side of the first resolving rule.
  ghost predicate GeoSafe(lines: seq<Line>) {
    forall i, j, code :: 0 <= i < j && CodeHit(lines, i, code) && CodeHit(lines, j, code) ==>
      !AcrossFirst(lines, i + 1, j + 1)
  }

  predicate AcrossFirst(lines: seq<Line>, low: RuleId, high: RuleId) {
    var first := FirstResolving(lines);
    first.Some? && low < first.value <= high
  }

  // No merged pattern straddles the first resolving rule.
  ghost predicate NoStraddle(lines: seq<Line>) {
    forall i: nat :: i < |lines| ==> !AcrossFirst(lines, StoredId(lines, i), i + 1)
  }

  ghost predicate NetsAscend(lines: seq<Line>) {
    LastsAscend(NetTable(lines, Net4)) && LastsAscend(NetTable(lines, Net6))
  }

  // ---- the scan takes the least line that matches in its place ----

  function Fresh(host: Name): Query {
    Query(Some(host), None, None)
  }

  function QueryOf(host: HostSpec): Query {
    match host
    case Domain(name) => Fresh(name)
    case Address(V4(ip)) => Query(None, Some(ip), None)
    case Address(V6(ip)) => Query(None, None, Some(ip))
  }

  // What is known of a destination when its addresses have been asked for.
  function Known(q: Query, resolver: Resolver): Query {
    if q.host.Some? then Resolved(q.host.value, resolver) else q
  }

  // Line `i` matches when the scan reaches it: address rules only once addresses are wanted.
  predicate Satisfied(lines: seq<Line>, env: Env, q: Query, resolver: Resolver, i: nat) {
    i < |lines| &&
    if lines[i].IpRule?
    then Hits(lines, env, Known(q, resolver), i) && (q.host.Some? ==> AcrossFirst(lines, 0, i + 1))
    else Hits(lines, env, q, i)
  }

  // No two lines that match this destination in the scan are inverted by merging.
  ghost predicate NoClash(lines: seq<Line>, env: Env, q: Query, resolver: Resolver) {
    forall i: nat, j: nat | j < i < |lines| ::
      Satisfied(lines, env, q, resolver, i) && Satisfied(lines, env, q, resolver, j) ==>
      !Inverted(lines, j, i)
  }

  ghost predicate Least(lines: seq<Line>, env: Env, q: Query, resolver: Resolver, from: nat, o: Outcome)
  {
    match o
    case NoRule => forall j: nat :: j >= from ==> !Satisfied(lines, env, q, resolver, j)
    case Took(i) => from <= i && Satisfied(lines, env, q, resolver, i)
      && forall j: nat :: from <= j < i ==> !Satisfied(lines, env, q, resolver, j)
    case ResolverGone => resolver.Gone?
  }

  lemma {:induction false} KnownScanLeast(
      lines: seq<Line>, env: Env, q: Query, known: Query, resolver: Resolver, i: nat)
    requires i <= |lines|
    requires known == Known(q, resolver) && (q.host.Some? ==> AcrossFirst(lines, 0, i))
    ensures Least(lines, env, q, resolver, i, Scan(lines, env, known, true, resolver, i))
    decreases |lines| - i
  {
    if i < |lines| {
      assert Satisfied(lines, env, q, resolver, i) <==> Hits(lines, env, known, i);
      if !Hits(lines, env, known, i) {
        KnownScanLeast(lines, env, q, known, resolver, i + 1);
      }
    }
  }

  lemma {:induction false} FreshScanLeast(
      lines: seq<Line>, env: Env, q: Query, resolver: Resolver, i: nat)
    requires i <= |lines| && q.host.Some? && q == Fresh(q.host.value)
    requires !AcrossFirst(lines, 0, i)
    ensures Least(lines, env, q, resolver, i, Scan(lines, env, q, false, resolver, i))
    decreases |lines| - i
  {
    if i < |lines| {
      if lines[i].Resolving() {
        if !resolver.Gone? {
          var known := Resolved(q.host.value, resolver);
          if !Hits(lines, env, known, i) {
            KnownScanLeast(lines, env, q, known, resolver, i + 1);
          }
        }
      } else if lines[i].IpRule? || !Hits(lines, env, q, i) {
        FreshScanLeast(lines, env, q, resolver, i + 1);
      }
    }
  }
}
