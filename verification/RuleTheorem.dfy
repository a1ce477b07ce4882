// Exactly when compiling and dispatching in two phases gives the action of the top-to-bottom scan.
module RuleTheorem {
  import opened Flow
  import opened RuleLines
  import opened RuleBuilder
  import opened RuleMatch
  import opened RuleOrder
  import opened RuleDispatch

  function QueryCandidates(lines: seq<Line>, env: Env, q: Query): seq<RuleHandle>
    requires Sound(Compile(lines, env.hasDb))
  {
    Candidates(Compile(lines, env.hasDb), env, q.v4, q.v6, q.host)
  }

  function MatchAction(rs: RuleSet, env: Env, m: Query): Option<nat>
    requires Sound(rs)
  {
    ActionOf(Match(rs, env, m.v4, m.v6, m.host))
  }

  lemma GeoFrom(lines: seq<Line>, env: Env, ip: Ip, h: RuleHandle) returns (i: nat)
    requires h in GeoMatches(Compile(lines, env.hasDb), env, ip)
    ensures env.countryOf(ip).Some? && CodeHit(lines, i, env.countryOf(ip).value)
    ensures env.hasDb && Stored(lines, i) == h
    ensures forall j: nat :: j < i ==> !CodeHit(lines, j, env.countryOf(ip).value)
  {
    i := CodeFrom(lines, env.countryOf(ip).value);
  }

  lemma GeoTo(lines: seq<Line>, env: Env, ip: Ip, i: nat) returns (j: nat)
    requires env.hasDb && env.countryOf(ip).Some? && CodeHit(lines, i, env.countryOf(ip).value)
    ensures j <= i && CodeHit(lines, j, env.countryOf(ip).value)
    ensures Stored(lines, j) in GeoMatches(Compile(lines, env.hasDb), env, ip)
  {
    j := CodeFrom(lines, env.countryOf(ip).value);
  }

  // ---- what the compiled match finds ----

  // The search for the known address starts no later than at the block of line `i`.
  ghost predicate NetReached(lines: seq<Line>, env: Env, m: Query, i: nat)
    requires i < |lines|
  {
    match lines[i]
    case IpRule(Block4(_), _, _) =>
      m.v4.Some? && Reaches(env.search, NetTable(lines, Net4), m.v4.value, EntryOf(lines, i))
    case IpRule(Block6(_), _, _) =>
      m.v6.Some? && Reaches(env.search, NetTable(lines, Net6), m.v6.value, EntryOf(lines, i))
    case _ => true
  }

  // Line `i` is no country rule behind another one for its code.
  ghost predicate FirstForCode(lines: seq<Line>, i: nat)
    requires i < |lines|
  {
    lines[i].IpRule? && lines[i].ipSet.Code? ==>
      forall j: nat :: j < i ==> !CodeHit(lines, j, lines[i].ipSet.code)
  }

  /** A candidate is the stored handle of a line that matches and is found, ... */
  lemma CandidateFrom(lines: seq<Line>, env: Env, q: Query, h: RuleHandle) returns (i: nat)
    requires Sound(Compile(lines, env.hasDb)) && h in QueryCandidates(lines, env, q)
    ensures i < |lines| && Hits(lines, env, q, i) && Stored(lines, i) == h
    ensures NetReached(lines, env, q, i) && FirstForCode(lines, i)
  {
    var rs := Compile(lines, env.hasDb);
    if h in V4Candidates(rs, env, q.v4) {
      if h in MatchIpRules(env.search, rs.net4, q.v4.value) {
        i := NetFrom(env.search, lines, Net4, q.v4.value, h);
      } else {
        i := GeoFrom(lines, env, V4(q.v4.value), h);
      }
    } else if h in V6Candidates(rs, env, q.v6) {
      if h in MatchIpRules(env.search, rs.net6, q.v6.value) {
        i := NetFrom(env.search, lines, Net6, q.v6.value, h);
      } else {
        i := GeoFrom(lines, env, V6(q.v6.value), h);
      }
    } else if h in DomainCandidates(rs, q.host) {
      i := DomainFrom(lines, env.hasDb, q.host.value, h);
    } else {
      i := FirstFinal(lines).value;
    }
  }

  // An earlier line that stands in for line `i`: the first rule for the code, or the first final.
  predicate StandsFor(lines: seq<Line>, j: nat, i: nat) {
    j <= i < |lines| &&
    (j == i || (lines[j].FinalRule? && lines[i].FinalRule?) ||
     (lines[i].IpRule? && lines[i].ipSet.Code? && CodeHit(lines, j, lines[i].ipSet.code)))
  }

  /** ... and every line that matches and is reached, or one that stands for it, has its stored
      handle among them. */
  lemma CandidateTo(lines: seq<Line>, env: Env, q: Query, i: nat) returns (j: nat)
    requires Sound(Compile(lines, env.hasDb))
    requires i < |lines| && Hits(lines, env, q, i) && NetReached(lines, env, q, i)
    ensures StandsFor(lines, j, i) && Hits(lines, env, q, j)
    ensures Stored(lines, j) in QueryCandidates(lines, env, q)
  {
    j := i;
    match lines[i]
    case FinalRule(_) =>
      j := FirstFinal(lines).value;
    case DomainRule(_, _, _) =>
      DomainTo(lines, env.hasDb, q.host.value, i);
    case IpRule(Block4(_), _, _) =>
      NetTo(env.search, lines, Net4, q.v4.value, i);
    case IpRule(Block6(_), _, _) =>
      NetTo(env.search, lines, Net6, q.v6.value, i);
    case IpRule(Code(code), _, _) =>
      if q.v4.Some? && env.countryOf(V4(q.v4.value)) == Some(code) {
        j := GeoTo(lines, env, V4(q.v4.value), i);
      } else {
        j := GeoTo(lines, env, V6(q.v6.value), i);
      }
  }

  lemma StoredHandleId(lines: seq<Line>, i: nat)
    requires i < |lines| < ID_SPAN
    ensures Stored(lines, i).Id() == StoredId(lines, i) <= i + 1
    ensures Stored(lines, i).Action() == lines[i].Action()
  {
    StoredIdAction(lines, i);
  }

  lemma StandInIsEarlier(lines: seq<Line>, j: nat, i: nat)
    requires StandsFor(lines, j, i) && |lines| < ID_SPAN
    ensures Stored(lines, j).Id() == StoredId(lines, j) <= StoredId(lines, i)
  {
    StoredHandleId(lines, j);
    assert lines[i].DomainRule? ==> j == i;
  }

  // A line the scan is satisfied with and the compiled match finds: the address search reaches its
  // block, and no rule for its country ahead of the first resolving rule hides it.
  ghost predicate Found(lines: seq<Line>, env: Env, q: Query, resolver: Resolver, i: nat) {
    && Satisfied(lines, env, q, resolver, i)
    && NetReached(lines, env, Known(q, resolver), i)
    && (q.host.Some? ==> !Hidden(lines, i))
  }

  ghost predicate Hidden(lines: seq<Line>, i: nat)
    requires i < |lines|
  {
    && lines[i].IpRule? && lines[i].ipSet.Code?
    && exists j: nat :: j < i && CodeHit(lines, j, lines[i].ipSet.code) && AcrossFirst(lines, j + 1, i + 1)
  }

  // What aggregation chooses: the found line with the least stored id.
  ghost predicate Picked(lines: seq<Line>, env: Env, q: Query, resolver: Resolver, c: nat) {
    && Found(lines, env, q, resolver, c)
    && forall k: nat :: Found(lines, env, q, resolver, k) ==> StoredId(lines, c) <= StoredId(lines, k)
  }

  // What the scan chooses.
  ghost predicate IsFirst(lines: seq<Line>, env: Env, q: Query, resolver: Resolver, f: nat) {
    && Satisfied(lines, env, q, resolver, f)
    && forall k: nat :: k < f ==> !Satisfied(lines, env, q, resolver, k)
  }

  ghost predicate Answers(
      lines: seq<Line>, env: Env, q: Query, resolver: Resolver, action: Option<nat>)
  {
    match action
    case None => forall i: nat :: !Found(lines, env, q, resolver, i)
    case Some(a) => exists c: nat :: Picked(lines, env, q, resolver, c) && lines[c].Action() == a
  }

  // The id filter of the match lets line `i` through.
  predicate Kept(lines: seq<Line>, env: Env, m: Query, i: nat)
    requires i < |lines|
  {
    StoredId(lines, i) >= MinRuleId(Compile(lines, env.hasDb), m.v4, m.v6, m.host)
  }

  ghost predicate Considered(lines: seq<Line>, env: Env, m: Query, i: nat) {
    && i < |lines| && Hits(lines, env, m, i) && Kept(lines, env, m, i)
    && NetReached(lines, env, m, i) && FirstForCode(lines, i)
  }

  // The match considers a handle no later than line `i`.
  ghost predicate Covered(lines: seq<Line>, env: Env, m: Query, i: nat)
    requires i < |lines| && Sound(Compile(lines, env.hasDb))
  {
    exists h :: h in QueryCandidates(lines, env, m) && h.Id() <= StoredId(lines, i)
      && h.Id() >= MinRuleId(Compile(lines, env.hasDb), m.v4, m.v6, m.host)
  }

  /** The step shared by all phases: if what the match considers is found in the sense above, and
      covers everything that is, the match answers with the line of least stored id. */
  lemma MatchAnswers(lines: seq<Line>, env: Env, q: Query, resolver: Resolver, m: Query)
    requires |lines| < ID_SPAN && Sound(Compile(lines, env.hasDb))
    requires forall i: nat :: Considered(lines, env, m, i) ==> Found(lines, env, q, resolver, i)
    requires forall i: nat :: Found(lines, env, q, resolver, i) ==> Covered(lines, env, m, i)
    ensures Answers(lines, env, q, resolver, MatchAction(Compile(lines, env.hasDb), env, m))
  {
    MatchIsLeast(Compile(lines, env.hasDb), env, m.v4, m.v6, m.host);
    LeastAnswers(
      lines, env, q, resolver, m, Match(Compile(lines, env.hasDb), env, m.v4, m.v6, m.host));
  }

  lemma LeastAnswers(
      lines: seq<Line>, env: Env, q: Query, resolver: Resolver, m: Query, r: Option<RuleHandle>)
    requires |lines| < ID_SPAN && Sound(Compile(lines, env.hasDb))
    requires forall i: nat :: Considered(lines, env, m, i) ==> Found(lines, env, q, resolver, i)
    requires forall i: nat :: Found(lines, env, q, resolver, i) ==> Covered(lines, env, m, i)
    requires IsLeast(QueryCandidates(lines, env, m),
      MinRuleId(Compile(lines, env.hasDb), m.v4, m.v6, m.host), r)
    ensures Answers(lines, env, q, resolver, ActionOf(r))
  {
    if r.Some? {
      var c := CandidateFrom(lines, env, m, r.value);
      StoredHandleId(lines, c);
      assert Considered(lines, env, m, c);
      assert Picked(lines, env, q, resolver, c);
    }
  }

  // A line that is matched, reached and kept, together with what stands for it, is covered.
  lemma KeptCovered(lines: seq<Line>, env: Env, m: Query, i: nat)
    requires |lines| < ID_SPAN && Sound(Compile(lines, env.hasDb))
    requires i < |lines| && Hits(lines, env, m, i) && NetReached(lines, env, m, i)
    requires forall j: nat :: StandsFor(lines, j, i) && Hits(lines, env, m, j) ==>
      Kept(lines, env, m, j)
    ensures Covered(lines, env, m, i)
  {
    var j := CandidateTo(lines, env, m, i);
    StandInIsEarlier(lines, j, i);
  }

  // ---- the three phases ----

  lemma AddressAnswers(lines: seq<Line>, env: Env, q: Query, resolver: Resolver)
    requires |lines| < ID_SPAN && Sound(Compile(lines, env.hasDb)) && q.host.None?
    ensures Answers(lines, env, q, resolver, MatchAction(Compile(lines, env.hasDb), env, q))
  {
    forall i: nat | Found(lines, env, q, resolver, i) ensures Covered(lines, env, q, i) {
      KeptCovered(lines, env, q, i);
    }
    MatchAnswers(lines, env, q, resolver, q);
  }

  // Every domain or final rule that matches is aggregated behind the first resolving rule.
  ghost predicate AllBehind(lines: seq<Line>, env: Env, host: Name) {
    && FirstResolving(lines).Some?
    && forall i: nat :: i < |lines| && Hits(lines, env, Fresh(host), i) ==>
         StoredId(lines, i) >= FirstResolving(lines).value
  }

  /** Without resolution, the name alone is matched; rules that need addresses come later than what
      is found then, or do not matter. */
  lemma NameAnswers(lines: seq<Line>, env: Env, host: Name, resolver: Resolver)
    requires |lines| < ID_SPAN && Sound(Compile(lines, env.hasDb))
    requires resolver.Live? ==> !AllBehind(lines, env, host)
    ensures Answers(lines, env, Fresh(host), resolver,
      MatchAction(Compile(lines, env.hasDb), env, Fresh(host)))
  {
    var q := Fresh(host);
    forall i: nat | Found(lines, env, q, resolver, i) ensures Covered(lines, env, q, i) {
      if lines[i].IpRule? {
        var k: nat :| k < |lines| && Hits(lines, env, q, k)
          && StoredId(lines, k) < FirstResolving(lines).value;
        KeptCovered(lines, env, q, k);
      } else {
        KeptCovered(lines, env, q, i);
      }
    }
    MatchAnswers(lines, env, q, resolver, q);
  }

  /** With the addresses at hand, everything ahead of the first resolving rule is left out, and
      nothing of it matched. */
  lemma ResolvedAnswers(lines: seq<Line>, env: Env, host: Name, v4s: seq<nat>, v6s: seq<nat>)
    requires |lines| < ID_SPAN && Sound(Compile(lines, env.hasDb))
    requires AllBehind(lines, env, host)
    ensures Answers(lines, env, Fresh(host), Live(v4s, v6s),
      MatchAction(Compile(lines, env.hasDb), env, Resolved(host, Live(v4s, v6s))))
  {
    var q, resolver := Fresh(host), Live(v4s, v6s);
    var m := Known(q, resolver);
    forall i: nat | i < |lines| && Hits(lines, env, m, i)
      ensures Kept(lines, env, m, i) <==> Satisfied(lines, env, q, resolver, i)
    {
      KeptIsSatisfied(lines, env, host, v4s, v6s, i);
    }
    forall i: nat | Found(lines, env, q, resolver, i) ensures Covered(lines, env, m, i) {
      forall j: nat | StandsFor(lines, j, i) && Hits(lines, env, m, j)
        ensures Kept(lines, env, m, j)
      {
        StandInSatisfied(lines, env, q, resolver, j, i);
      }
      KeptCovered(lines, env, m, i);
    }
    MatchAnswers(lines, env, q, resolver, m);
  }

  lemma KeptIsSatisfied(
      lines: seq<Line>, env: Env, host: Name, v4s: seq<nat>, v6s: seq<nat>, i: nat)
    requires i < |lines| && Hits(lines, env, Resolved(host, Live(v4s, v6s)), i)
    requires AllBehind(lines, env, host)
    ensures Kept(lines, env, Resolved(host, Live(v4s, v6s)), i)
      <==> Satisfied(lines, env, Fresh(host), Live(v4s, v6s), i)
  {
    if !lines[i].IpRule? {
      assert Hits(lines, env, Fresh(host), i);
    }
  }

  // What stands for a line that is found is itself satisfied in the scan.
  lemma StandInSatisfied(
      lines: seq<Line>, env: Env, q: Query, resolver: Resolver, j: nat, i: nat)
    requires Found(lines, env, q, resolver, i) && StandsFor(lines, j, i) && q.host.Some?
    requires Hits(lines, env, Known(q, resolver), j)
    ensures Satisfied(lines, env, q, resolver, j)
  {
    if j < i && lines[i].IpRule? {
      assert !AcrossFirst(lines, j + 1, i + 1);
    }
  }

  // ---- when to resolve ----

  /** The first phase sends a domain to the resolver exactly when no domain or final rule that
      matches it is aggregated ahead of the first resolving rule. */
  lemma ShouldResolveMeans(lines: seq<Line>, env: Env, host: Name)
    requires |lines| < ID_SPAN && Sound(Compile(lines, env.hasDb))
    ensures ShouldResolve(Compile(lines, env.hasDb), host) <==> AllBehind(lines, env, host)
  {
    var first, q := FirstResolving(lines), Fresh(host);
    var all := QueryCandidates(lines, env, q);
    ResolvesWhenAllBehind(Compile(lines, env.hasDb), env, host);
    if first.Some? {
      if forall h :: h in all ==> h.Id() >= first.value {
        forall i: nat | i < |lines| && Hits(lines, env, q, i)
          ensures StoredId(lines, i) >= first.value
        {
          KeptCovered(lines, env, q, i);
        }
      } else {
        var h :| h in all && h.Id() < first.value;
        var c := CandidateFrom(lines, env, q, h);
        StoredHandleId(lines, c);
      }
    }
  }

  lemma ResolvesWhenAllBehind(rs: RuleSet, env: Env, host: Name)
    requires Sound(rs)
    ensures ShouldResolve(rs, host) <==>
      && rs.firstResolving.Some?
      && forall h :: h in Candidates(rs, env, None, None, Some(host)) ==>
           h.Id() >= rs.firstResolving.value
  {
    NameCandidates(rs, env, host);
    if rs.firstResolving.Some? {
      LeastReaches(Candidates(rs, env, None, None, Some(host)), rs.firstResolving.value);
    }
  }

  lemma NameCandidates(rs: RuleSet, env: Env, host: Name)
    requires Sound(rs)
    ensures Candidates(rs, env, None, None, Some(host))
      == MatchDomainImpl(rs, host) + AsSeq(rs.final)
  {
    assert V4Candidates(rs, env, None) == V6Candidates(rs, env, None) == [];
    EmptyInFront(MatchDomainImpl(rs, host), AsSeq(rs.final));
  }

  lemma EmptyInFront(s: seq<RuleHandle>, t: seq<RuleHandle>)
    ensures [] + [] + s + t == s + t
  {
  }

  lemma LeastReaches(s: seq<RuleHandle>, first: nat)
    ensures var least := ReduceRules(s);
      (least.None? || least.value.Id() >= first) <==> forall h :: h in s ==> h.Id() >= first
  {
    var least := ReduceRules(s);
    if s != [] && least.value.Id() >= first {
      assert forall h :: h in s ==> least.value.Id() <= h.Id();
    }
  }

  // Every domain or final rule that matches stands behind the first resolving rule in the file.
  ghost predicate AllAfter(lines: seq<Line>, env: Env, host: Name, from: nat) {
    && FirstResolving(lines).Some?
    && forall i: nat :: from <= i < |lines| && Hits(lines, env, Fresh(host), i) ==>
         i + 1 >= FirstResolving(lines).value
  }

  // Whether the scan of a domain comes to a rule that needs its addresses.
  predicate ScanResolves(lines: seq<Line>, env: Env, host: Name) {
    Scan(lines, env, Fresh(host), false, Gone, 0).ResolverGone?
  }

  lemma {:induction false} ScanResolvesMeans(lines: seq<Line>, env: Env, host: Name, i: nat)
    requires i <= |lines| && !AcrossFirst(lines, 0, i)
    ensures Scan(lines, env, Fresh(host), false, Gone, i).ResolverGone?
      <==> AllAfter(lines, env, host, i)
    decreases |lines| - i
  {
    if i < |lines| && !lines[i].Resolving() && (lines[i].IpRule? || !Hits(lines, env, Fresh(host), i)) {
      ScanResolvesMeans(lines, env, host, i + 1);
    }
  }

  /** The first phase may spare a resolution that the scan makes, never the other way round; it does
      so exactly for the domains whose matching rules all stand behind the first resolving rule while
      one of them carries the id of a pattern ahead of it. */
  lemma ResolutionSparedIff(lines: seq<Line>, env: Env, host: Name)
    requires |lines| < ID_SPAN && Sound(Compile(lines, env.hasDb))
    ensures ShouldResolve(Compile(lines, env.hasDb), host) ==> ScanResolves(lines, env, host)
    ensures ScanResolves(lines, env, host) && !ShouldResolve(Compile(lines, env.hasDb), host)
      <==> AllAfter(lines, env, host, 0) && exists i: nat ::
        i < |lines| && Hits(lines, env, Fresh(host), i)
        && AcrossFirst(lines, StoredId(lines, i), i + 1)
  {
    ShouldResolveMeans(lines, env, host);
    ScanResolvesMeans(lines, env, host, 0);
    forall i: nat | i < |lines| ensures StoredId(lines, i) <= i + 1 {
      StoredIdAction(lines, i);
    }
  }

  // ---- the two dispatches ----

  // The domain is sent to the resolver, if there is one.
  predicate Needs(rs: RuleSet, host: HostSpec, resolver: Resolver)
    requires Sound(rs)
  {
    host.Domain? && !resolver.NoResolver? && ShouldResolve(rs, host.name)
  }

  // What the match is asked: a domain's addresses are known only after resolution.
  function Asked(rs: RuleSet, host: HostSpec, resolver: Resolver): Query
    requires Sound(rs)
  {
    if Needs(rs, host, resolver) then Resolved(host.name, resolver) else QueryOf(host)
  }

  lemma DispatchMeans(rs: RuleSet, env: Env, host: HostSpec, resolver: Resolver, actions: nat)
    requires Sound(rs)
    ensures Dispatch(rs, env, host, resolver, actions) ==
      if Needs(rs, host, resolver) && resolver.Gone? then Unavailable
      else Act(MatchAction(rs, env, Asked(rs, host, resolver)), actions)
  {
  }

  lemma AskedAnswers(
      lines: seq<Line>, env: Env, host: HostSpec, resolver: Resolver, rs: RuleSet, m: Query)
    requires |lines| < ID_SPAN && rs == Compile(lines, env.hasDb) && Sound(rs)
    requires !Stalls(lines, env, host, resolver) && m == Asked(rs, host, resolver)
    ensures Answers(lines, env, QueryOf(host), resolver, MatchAction(rs, env, m))
  {
    match host
    case Address(_) =>
      AddressAnswers(lines, env, m, resolver);
    case Domain(name) =>
      ShouldResolveMeans(lines, env, name);
      if m == Fresh(name) && !(resolver.Live? && AllBehind(lines, env, name)) {
        NameAnswers(lines, env, name, resolver);
      } else {
        ResolvedAnswers(lines, env, name, resolver.v4s, resolver.v6s);
      }
  }

  // Every destination has an answer, also one for which the resolver is missing.
  lemma SomeAnswer(lines: seq<Line>, env: Env, host: HostSpec, resolver: Resolver)
    returns (action: Option<nat>)
    requires |lines| < ID_SPAN
    ensures Answers(lines, env, QueryOf(host), resolver, action)
  {
    CompileSound(lines, env.hasDb);
    if Stalls(lines, env, host, resolver) {
      NameAnswers(lines, env, host.name, resolver);
      action := MatchAction(Compile(lines, env.hasDb), env, Fresh(host.name));
    } else {
      var rs := Compile(lines, env.hasDb);
      AskedAnswers(lines, env, host, resolver, rs, Asked(rs, host, resolver));
      action := MatchAction(rs, env, Asked(rs, host, resolver));
    }
  }

  lemma DispatchAnswers(lines: seq<Line>, env: Env, host: HostSpec, resolver: Resolver, actions: nat)
    returns (action: Option<nat>)
    requires |lines| < ID_SPAN && Sound(Compile(lines, env.hasDb))
    ensures Dispatch(Compile(lines, env.hasDb), env, host, resolver, actions) ==
      if Stalls(lines, env, host, resolver) then Unavailable else Act(action, actions)
    ensures !Stalls(lines, env, host, resolver) ==>
      Answers(lines, env, QueryOf(host), resolver, action)
  {
    var rs := Compile(lines, env.hasDb);
    action := MatchAction(rs, env, Asked(rs, host, resolver));
    DispatchMeans(rs, env, host, resolver, actions);
    if host.Domain? {
      ShouldResolveMeans(lines, env, host.name);
    }
    if !Stalls(lines, env, host, resolver) {
      AskedAnswers(lines, env, host, resolver, rs, Asked(rs, host, resolver));
    }
  }

  // The compiled dispatch needs a resolver that is gone.
  ghost predicate Stalls(lines: seq<Line>, env: Env, host: HostSpec, resolver: Resolver) {
    host.Domain? && resolver.Gone? && AllBehind(lines, env, host.name)
  }

  // So does the scan.
  ghost predicate ScanStalls(lines: seq<Line>, env: Env, host: HostSpec, resolver: Resolver) {
    host.Domain? && resolver.Gone? && AllAfter(lines, env, host.name, 0)
  }

  function OutcomeAction(lines: seq<Line>, o: Outcome): Option<nat> {
    if o.Took? && o.line < |lines| then Some(lines[o.line].Action()) else None
  }

  lemma ScanAnswers(lines: seq<Line>, env: Env, host: HostSpec, resolver: Resolver, actions: nat)
    returns (o: Outcome)
    ensures ScanDispatch(lines, env, host, resolver, actions) ==
      if ScanStalls(lines, env, host, resolver) then Unavailable
      else Act(OutcomeAction(lines, o), actions)
    ensures !ScanStalls(lines, env, host, resolver) ==>
      !o.ResolverGone? && Least(lines, env, QueryOf(host), resolver, 0, o)
  {
    var q := QueryOf(host);
    o := Scan(lines, env, q, host.Address?, resolver, 0);
    match host
    case Address(_) =>
      KnownScanLeast(lines, env, q, q, resolver, 0);
      KnownNeverGone(lines, env, q, resolver, 0);
    case Domain(name) =>
      FreshScanLeast(lines, env, q, resolver, 0);
      if resolver.Gone? {
        ScanResolvesMeans(lines, env, name, 0);
      } else {
        OnlyGoneFails(lines, env, q, resolver, 0);
      }
  }

  lemma {:induction false} KnownNeverGone(
      lines: seq<Line>, env: Env, q: Query, resolver: Resolver, i: nat)
    requires i <= |lines|
    ensures !Scan(lines, env, q, true, resolver, i).ResolverGone?
    decreases |lines| - i
  {
    if i < |lines| && !Hits(lines, env, q, i) {
      KnownNeverGone(lines, env, q, resolver, i + 1);
    }
  }

  lemma {:induction false} OnlyGoneFails(
      lines: seq<Line>, env: Env, q: Query, resolver: Resolver, i: nat)
    requires i <= |lines| && q.host.Some? && !resolver.Gone?
    ensures !Scan(lines, env, q, false, resolver, i).ResolverGone?
    decreases |lines| - i
  {
    if i < |lines| {
      if lines[i].Resolving() {
        KnownNeverGone(lines, env, Resolved(q.host.value, resolver), resolver, i + 1);
      } else {
        OnlyGoneFails(lines, env, q, resolver, i + 1);
      }
    }
  }

  // ---- the main results ----

  // What the compiled match chooses, if anything, acts unlike the first line that is satisfied.
  ghost predicate Overtaken(lines: seq<Line>, env: Env, q: Query, resolver: Resolver) {
    exists f: nat :: IsFirst(lines, env, q, resolver, f)
      && forall c: nat :: Picked(lines, env, q, resolver, c) ==>
           lines[c].Action() != lines[f].Action()
  }

  /** Compiled dispatch goes wrong for a destination: over a resolver that is gone, by sparing the
      resolution that the scan insists on; otherwise by choosing another action. */
  ghost predicate Misrouted(lines: seq<Line>, env: Env, host: HostSpec, resolver: Resolver) {
    && !Stalls(lines, env, host, resolver)
    && (ScanStalls(lines, env, host, resolver) || Overtaken(lines, env, QueryOf(host), resolver))
  }

  lemma SamePickSameAction(
      lines: seq<Line>, env: Env, q: Query, resolver: Resolver, c: nat, d: nat)
    requires Picked(lines, env, q, resolver, c) && Picked(lines, env, q, resolver, d)
    ensures lines[c].Action() == lines[d].Action()
  {
    StoredIdAction(lines, c);
    StoredIdAction(lines, d);
  }

  /** The compiled rules in closed form: they act as the line that is picked, ... */
  lemma DispatchPicks(
      lines: seq<Line>, env: Env, host: HostSpec, resolver: Resolver, actions: nat, c: nat)
    requires |lines| < ID_SPAN && Sound(Compile(lines, env.hasDb))
    requires !Stalls(lines, env, host, resolver) && Picked(lines, env, QueryOf(host), resolver, c)
    ensures Dispatch(Compile(lines, env.hasDb), env, host, resolver, actions)
      == if lines[c].Action() < actions then Matched(lines[c].Action()) else Unavailable
  {
    var action := DispatchAnswers(lines, env, host, resolver, actions);
    AnswerIsPicked(lines, env, QueryOf(host), resolver, action, c);
  }

  // ... or fall back if none is found; ...
  lemma DispatchFallsBack(
      lines: seq<Line>, env: Env, host: HostSpec, resolver: Resolver, actions: nat)
    requires |lines| < ID_SPAN && Sound(Compile(lines, env.hasDb))
    requires !Stalls(lines, env, host, resolver)
    requires forall i: nat :: !Found(lines, env, QueryOf(host), resolver, i)
    ensures Dispatch(Compile(lines, env.hasDb), env, host, resolver, actions) == Fallback
  {
    var action := DispatchAnswers(lines, env, host, resolver, actions);
  }

  // ... the scan acts as the first line that is satisfied.
  lemma ScanTakesFirst(
      lines: seq<Line>, env: Env, host: HostSpec, resolver: Resolver, actions: nat, f: nat)
    requires !ScanStalls(lines, env, host, resolver)
    requires IsFirst(lines, env, QueryOf(host), resolver, f)
    ensures ScanDispatch(lines, env, host, resolver, actions)
      == if lines[f].Action() < actions then Matched(lines[f].Action()) else Unavailable
  {
    var o := ScanAnswers(lines, env, host, resolver, actions);
  }

  // An answer acts like the first satisfied line exactly when that line is not overtaken.
  lemma AnswersFirst(
      lines: seq<Line>, env: Env, q: Query, resolver: Resolver, action: Option<nat>, o: Outcome)
    requires Answers(lines, env, q, resolver, action)
    requires !o.ResolverGone? && Least(lines, env, q, resolver, 0, o)
    ensures Overtaken(lines, env, q, resolver)
      <==> action != OutcomeAction(lines, o)
  {
    if o.Took? {
      FirstTaken(lines, env, q, resolver, action, o.line);
    } else {
      NothingTaken(lines, env, q, resolver, action);
    }
  }

  lemma FirstTaken(
      lines: seq<Line>, env: Env, q: Query, resolver: Resolver, action: Option<nat>, f: nat)
    requires Answers(lines, env, q, resolver, action) && IsFirst(lines, env, q, resolver, f)
    ensures Overtaken(lines, env, q, resolver) <==> action != Some(lines[f].Action())
  {
    if action == Some(lines[f].Action()) {
      var c: nat :| Picked(lines, env, q, resolver, c) && lines[c].Action() == action.value;
      assert forall g: nat :: IsFirst(lines, env, q, resolver, g) ==> g == f;
    } else {
      forall d: nat | Picked(lines, env, q, resolver, d)
        ensures lines[d].Action() != lines[f].Action()
      {
        AnswerIsPicked(lines, env, q, resolver, action, d);
      }
    }
  }

  lemma NothingTaken(
      lines: seq<Line>, env: Env, q: Query, resolver: Resolver, action: Option<nat>)
    requires Answers(lines, env, q, resolver, action)
    requires forall i: nat :: !Satisfied(lines, env, q, resolver, i)
    ensures action.None? && !Overtaken(lines, env, q, resolver)
  {
  }

  lemma AnswerIsPicked(
      lines: seq<Line>, env: Env, q: Query, resolver: Resolver, action: Option<nat>, d: nat)
    requires Answers(lines, env, q, resolver, action) && Picked(lines, env, q, resolver, d)
    ensures action == Some(lines[d].Action())
  {
    var c: nat :| Picked(lines, env, q, resolver, c) && lines[c].Action() == action.value;
    SamePickSameAction(lines, env, q, resolver, c, d);
  }

  ghost predicate ActionsKnown(lines: seq<Line>, actions: nat) {
    forall i :: 0 <= i < |lines| ==> lines[i].Action() < actions
  }

  /** The main result, for every file, destination and resolver: compiled two-phase dispatch decides
      as the top-to-bottom scan if and only if the destination is not misrouted. */
  lemma CompiledEqualsScanIff(
      lines: seq<Line>, env: Env, host: HostSpec, resolver: Resolver, actions: nat)
    requires |lines| < ID_SPAN && ActionsKnown(lines, actions)
    ensures Sound(Compile(lines, env.hasDb))
    ensures Dispatch(Compile(lines, env.hasDb), env, host, resolver, actions)
      == ScanDispatch(lines, env, host, resolver, actions)
      <==> !Misrouted(lines, env, host, resolver)
  {
    CompileSound(lines, env.hasDb);
    var action := DispatchAnswers(lines, env, host, resolver, actions);
    var o := ScanAnswers(lines, env, host, resolver, actions);
    if Stalls(lines, env, host, resolver) {
      BehindIsAfter(lines, env, host.name);
    } else {
      AnswerKnown(lines, env, QueryOf(host), resolver, action, actions);
      if ScanStalls(lines, env, host, resolver) {
        StallsOrMatches(lines, env, host.name, action);
      } else {
        AnswersFirst(lines, env, QueryOf(host), resolver, action, o);
        ActTellsApart(action, OutcomeAction(lines, o), actions);
      }
    }
  }

  lemma ActTellsApart(a: Option<nat>, b: Option<nat>, actions: nat)
    requires (a.Some? ==> a.value < actions) && (b.Some? ==> b.value < actions)
    ensures Act(a, actions) == Act(b, actions) <==> a == b
  {
  }

  lemma AnswerKnown(
      lines: seq<Line>, env: Env, q: Query, resolver: Resolver, action: Option<nat>, actions: nat)
    requires ActionsKnown(lines, actions) && Answers(lines, env, q, resolver, action)
    ensures action.Some? ==> action.value < actions
  {
  }

  lemma BehindIsAfter(lines: seq<Line>, env: Env, host: Name)
    requires AllBehind(lines, env, host)
    ensures AllAfter(lines, env, host, 0)
  {
    forall i: nat | i < |lines| ensures StoredId(lines, i) <= i + 1 {
      StoredIdAction(lines, i);
    }
  }

  // When only the scan needs the resolver, the compiled rules have found a line.
  lemma StallsOrMatches(lines: seq<Line>, env: Env, host: Name, action: Option<nat>)
    requires AllAfter(lines, env, host, 0) && !AllBehind(lines, env, host)
    requires Answers(lines, env, Fresh(host), Gone, action)
    ensures action.Some?
  {
    var k: nat :| k < |lines| && Hits(lines, env, Fresh(host), k)
      && StoredId(lines, k) < FirstResolving(lines).value;
    assert Found(lines, env, Fresh(host), Gone, k);
  }

  // Ids fit the 24 bits of a handle, and the address tables can be searched.
  ghost predicate Searchable(lines: seq<Line>) {
    |lines| < ID_SPAN && NetsAscend(lines)
  }

  /** In a file with searchable tables and country rules on one side of the first resolving rule,
      everything satisfied is found. */
  lemma SafeTablesFind(lines: seq<Line>, env: Env, q: Query, resolver: Resolver, i: nat)
    requires NetsAscend(lines) && (q.host.Some? ==> GeoSafe(lines))
    requires Satisfied(lines, env, q, resolver, i)
    ensures Found(lines, env, q, resolver, i)
  {
    var m := Known(q, resolver);
    match lines[i]
    case IpRule(Block4(_), _, _) => AscendingReached(env.search, lines, Net4, m.v4.value, i);
    case IpRule(Block6(_), _, _) => AscendingReached(env.search, lines, Net6, m.v6.value, i);
    case IpRule(Code(code), _, _) => assert CodeHit(lines, i, code);
    case _ =>
  }

  /** A line aggregated no later than an earlier one acts alike, unless the pair is inverted. */
  lemma ActsAlike(lines: seq<Line>, i: nat, c: nat)
    requires i <= c < |lines| && StoredId(lines, c) <= StoredId(lines, i)
    requires !lines[i].Ignored? && !lines[c].Ignored? && (i < c ==> !Inverted(lines, i, c))
    ensures lines[i].Action() == lines[c].Action()
  {
    StoredIdAction(lines, i);
    StoredIdAction(lines, c);
  }

  // In such a file a line is overtaken only by one that is inverted with it.
  lemma NoClashNotOvertaken(
      lines: seq<Line>, env: Env, q: Query, resolver: Resolver, action: Option<nat>)
    requires NetsAscend(lines) && (q.host.Some? ==> GeoSafe(lines))
    requires NoClash(lines, env, q, resolver) && Answers(lines, env, q, resolver, action)
    ensures !Overtaken(lines, env, q, resolver)
  {
    if Overtaken(lines, env, q, resolver) {
      var f: nat :| IsFirst(lines, env, q, resolver, f) && forall c: nat ::
        Picked(lines, env, q, resolver, c) ==> lines[c].Action() != lines[f].Action();
      SafeTablesFind(lines, env, q, resolver, f);
      var c: nat :| Picked(lines, env, q, resolver, c) && lines[c].Action() == action.value;
      ActsAlike(lines, f, c);
      assert false;
    }
  }

  // Rules that match an address are never merged.
  lemma AddressNoClash(lines: seq<Line>, env: Env, q: Query, resolver: Resolver)
    requires q.host.None?
    ensures NoClash(lines, env, q, resolver)
  {
  }

  /** Sufficient conditions a rule file can be checked for: searchable tables, country rules on one
      side, no inverted rules that match the domain, and, should the resolver be gone, no merged
      pattern on both sides of the first resolving rule. */
  lemma CompiledEqualsScan(
      lines: seq<Line>, env: Env, host: HostSpec, resolver: Resolver, actions: nat)
    requires Searchable(lines) && (host.Domain? ==> GeoSafe(lines))
    requires host.Domain? ==> NoClash(lines, env, Fresh(host.name), resolver)
    requires host.Domain? && resolver.Gone? ==> NoStraddle(lines)
    ensures Sound(Compile(lines, env.hasDb))
    ensures Dispatch(Compile(lines, env.hasDb), env, host, resolver, actions)
      == ScanDispatch(lines, env, host, resolver, actions)
  {
    CompileSound(lines, env.hasDb);
    var q := QueryOf(host);
    var action := DispatchAnswers(lines, env, host, resolver, actions);
    var o := ScanAnswers(lines, env, host, resolver, actions);
    if host.Domain? && resolver.Gone? {
      StraddleFree(lines, env, host.name);
    }
    if host.Address? {
      AddressNoClash(lines, env, q, resolver);
    }
    if !Stalls(lines, env, host, resolver) {
      AnswersFirst(lines, env, q, resolver, action, o);
      NoClashNotOvertaken(lines, env, q, resolver, action);
    }
  }

  lemma StraddleFree(lines: seq<Line>, env: Env, host: Name)
    requires NoStraddle(lines)
    ensures AllBehind(lines, env, host) <==> AllAfter(lines, env, host, 0)
  {
    forall i: nat | i < |lines| && FirstResolving(lines).Some?
      ensures StoredId(lines, i) >= FirstResolving(lines).value <==> i + 1 >= FirstResolving(lines).value
    {
      StoredIdAction(lines, i);
      assert !AcrossFirst(lines, StoredId(lines, i), i + 1);
    }
  }
}
