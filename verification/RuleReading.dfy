// What compiled dispatch does with the smallest files, read off the rule and the destination.
module RuleReading {
  import opened Flow
  import opened RuleLines
  import opened RuleBuilder
  import opened RuleMatch
  import opened RuleOrder
  import opened RuleDispatch
  import opened RuleTheorem

  // ---- the resolver's answers ----

  /** Only the first answer of each family counts, for every rule what. */
  lemma FirstAnswerCounts(
      rs: RuleSet, env: Env, name: Name, a: nat, rest: seq<nat>, b: nat, rest': seq<nat>, actions: nat)
    requires Sound(rs)
    ensures var d := Domain(name);
      && Dispatch(rs, env, d, Live([a] + rest, [b] + rest'), actions)
        == Dispatch(rs, env, d, Live([a], [b]), actions)
      && Dispatch(rs, env, d, Live([a] + rest, []), actions)
        == Dispatch(rs, env, d, Live([a], []), actions)
      && Dispatch(rs, env, d, Live([], [b] + rest'), actions)
        == Dispatch(rs, env, d, Live([], [b]), actions)
  {
    SameFirst(rs, env, name, [a] + rest, [a], [b] + rest', [b], actions);
    SameFirst(rs, env, name, [a] + rest, [a], [], [], actions);
    SameFirst(rs, env, name, [], [], [b] + rest', [b], actions);
  }

  lemma SameFirst(
      rs: RuleSet, env: Env, name: Name, s: seq<nat>, s': seq<nat>, t: seq<nat>, t': seq<nat>,
      actions: nat)
    requires Sound(rs)
    requires (s == [] <==> s' == []) && (s != [] ==> s[0] == s'[0])
    requires (t == [] <==> t' == []) && (t != [] ==> t[0] == t'[0])
    ensures Dispatch(rs, env, Domain(name), Live(s, t), actions)
      == Dispatch(rs, env, Domain(name), Live(s', t'), actions)
  {
    assert First(s) == First(s') && First(t) == First(t');
  }

  // ---- names ----

  predicate EndsInDot(h: Name) {
    h != [] && h[|h| - 1] == '.'
  }

  /** A trailing dot of the name makes no difference, for every rule what. */
  lemma TrailingDotIgnored(
      rs: RuleSet, env: Env, h: Name, resolver: Resolver, actions: nat)
    requires Sound(rs) && !EndsInDot(h)
    ensures Dispatch(rs, env, Domain(h + "."), resolver, actions)
      == Dispatch(rs, env, Domain(h), resolver, actions)
  {
    Stripped(h);
    SameName(rs, h + ".", h);
    DispatchMeans(rs, env, Domain(h + "."), resolver, actions);
    DispatchMeans(rs, env, Domain(h), resolver, actions);
    if resolver.Live? {
      SameMatch(rs, env, First(resolver.v4s), First(resolver.v6s), h + ".", h);
    }
    SameMatch(rs, env, None, None, h + ".", h);
  }

  lemma Stripped(h: Name)
    requires !EndsInDot(h)
    ensures StripDot(h + ".") == StripDot(h) == h
  {
    assert (h + ".")[..|h|] == h;
  }

  lemma SameName(rs: RuleSet, g: Name, h: Name)
    requires Sound(rs) && StripDot(g) == StripDot(h)
    ensures MatchDomainImpl(rs, g) == MatchDomainImpl(rs, h)
    ensures ShouldResolve(rs, g) == ShouldResolve(rs, h)
  {
  }

  lemma SameMatch(rs: RuleSet, env: Env, v4: Option<nat>, v6: Option<nat>, g: Name, h: Name)
    requires Sound(rs) && MatchDomainImpl(rs, g) == MatchDomainImpl(rs, h)
    ensures Match(rs, env, v4, v6, Some(g)) == Match(rs, env, v4, v6, Some(h))
  {
    assert DomainCandidates(rs, Some(g)) == DomainCandidates(rs, Some(h));
    assert MinRuleId(rs, v4, v6, Some(g)) == MinRuleId(rs, v4, v6, Some(h));
  }

  // ---- one rule and a final one ----

  lemma ShortFile(rule: Line, other: ActionHandle)
    ensures var lines := [rule, FinalRule(other)];
      Searchable(lines) && GeoSafe(lines) && NoStraddle(lines) && NoInversion(lines)
  {
    var lines := [rule, FinalRule(other)];
    OneEntry(lines, Net4);
    OneEntry(lines, Net6);
    StoredIdAction(lines, 0);
    StoredIdAction(lines, 1);
    assert StoredId(lines, 0) == 1 && StoredId(lines, 1) == 2;
  }

  lemma OneEntry(lines: seq<Line>, kind: IpKind)
    requires |lines| == 2 && lines[1].FinalRule?
    ensures |NetTable(lines, kind)| <= 1
  {
    var l := lines[..1];
    assert l[..0] == [] && |SelectIp(l, kind)| <= 1;
    assert |multiset(NetTable(lines, kind))| == |multiset(SelectIp(lines, kind))|;
  }

  // Such a file is dispatched as it is scanned.
  lemma ShortScan(
      rule: Line, other: ActionHandle, env: Env, host: HostSpec, resolver: Resolver, actions: nat,
      v: Verdict)
    requires ScanDispatch([rule, FinalRule(other)], env, host, resolver, actions) == v
    ensures ShortVerdict(rule, other, env, host, resolver, actions) == v
  {
    ShortFile(rule, other);
    CompileSound([rule, FinalRule(other)], env.hasDb);
    CompiledEqualsScan([rule, FinalRule(other)], env, host, resolver, actions);
  }

  // What the compiled rules decide for a file of one rule and a final one.
  function ShortVerdict(
      rule: Line, other: ActionHandle, env: Env, host: HostSpec, resolver: Resolver, actions: nat)
    : Verdict
  {
    CompileSound([rule, FinalRule(other)], env.hasDb);
    Dispatch(Compile([rule, FinalRule(other)], env.hasDb), env, host, resolver, actions)
  }

  function Chosen(taken: bool, rule: ActionHandle, other: ActionHandle): Verdict {
    Matched(if taken then rule else other)
  }

  /** A full name, a suffix and a keyword, in terms of the host name alone. */
  lemma NameRuleRead(
      kind: DomainKind, p: Name, act: ActionHandle, other: ActionHandle, env: Env, h: Name,
      resolver: Resolver, actions: nat)
    requires !EndsInDot(h) && act < actions && other < actions
    ensures ShortVerdict(DomainRule(kind, p, act), other, env, Domain(h), resolver, actions)
      == Chosen(
        match kind
        case Full => h == p
        case Suffix => h == p || exists x: Name :: h == x + "." + p
        case Keyword => exists x: Name, y: Name :: h == x + p + y, act, other)
  {
    Stripped(h);
    match kind {
      case Full =>
      case Suffix => SuffixRead(p, h);
      case Keyword => KeywordRead(p, h);
    }
    NameScan(DomainRule(kind, p, act), other, env, h, resolver, actions);
    ShortScan(
      DomainRule(kind, p, act), other, env, Domain(h), resolver, actions,
      Chosen(Means(kind, p, h), act, other));
  }

  lemma NameScan(
      rule: Line, other: ActionHandle, env: Env, h: Name, resolver: Resolver, actions: nat)
    requires rule.DomainRule? && !EndsInDot(h) && rule.dAction < actions && other < actions
    ensures ScanDispatch([rule, FinalRule(other)], env, Domain(h), resolver, actions)
      == Chosen(Means(rule.kind, rule.pattern, h), rule.dAction, other)
  {
    var lines := [rule, FinalRule(other)];
    Stripped(h);
    assert Hits(lines, env, Fresh(h), 0) <==> Means(rule.kind, rule.pattern, h);
    assert Scan(lines, env, Fresh(h), false, resolver, 1) == Took(1);
  }

  lemma SuffixRead(p: Name, h: Name)
    ensures EndsWith(h, "." + p) <==> exists x: Name :: h == x + "." + p
  {
    if EndsWith(h, "." + p) {
      var x := h[..|h| - |p| - 1];
      assert h == x + h[|h| - |p| - 1..];
      assert h == x + "." + p;
    }
    if x: Name :| h == x + "." + p {
      assert h[|x|..] == "." + p;
    }
  }

  lemma KeywordRead(p: Name, h: Name)
    ensures Means(Keyword, p, h) <==> exists x: Name, y: Name :: h == x + p + y
  {
    if at: nat :| at <= |h| && Occurs(p, h, at) {
      assert h == h[..at] + p + h[at + |p|..];
    }
    if x: Name, y: Name :| h == x + p + y {
      assert Occurs(p, h, |x|);
    }
  }

  // ---- address rules ----

  /** A block decides by the address of the destination, ... */
  lemma BlockByAddress(
      what: IpSet, act: ActionHandle, other: ActionHandle, env: Env, ip: Ip, noResolve: bool,
      actions: nat)
    requires act < actions && other < actions && !what.Code?
    ensures ShortVerdict(
        IpRule(what, act, noResolve), other, env, Address(ip), NoResolver, actions)
      == Chosen(
        match ip
        case V4(a) => what.Block4? && what.b4.first <= a <= what.b4.last
        case V6(a) => what.Block6? && what.b6.first <= a <= what.b6.last, act, other)
  {
    AddressScan(IpRule(what, act, noResolve), other, env, ip, actions);
    ShortScan(
      IpRule(what, act, noResolve), other, env, Address(ip), NoResolver, actions,
      Chosen(HoldsAddress(what, env, ip), act, other));
  }

  // A block or a country applies to an address.
  predicate HoldsAddress(what: IpSet, env: Env, ip: Ip) {
    match what
    case Block4(b) => ip.V4? && b.first <= ip.v4 <= b.last
    case Block6(b) => ip.V6? && b.first <= ip.v6 <= b.last
    case Code(code) => env.hasDb && env.countryOf(ip) == Some(code)
  }

  lemma AddressScan(rule: Line, other: ActionHandle, env: Env, ip: Ip, actions: nat)
    requires rule.IpRule? && rule.iAction < actions && other < actions
    ensures ScanDispatch([rule, FinalRule(other)], env, Address(ip), NoResolver, actions)
      == Chosen(HoldsAddress(rule.ipSet, env, ip), rule.iAction, other)
  {
    var lines, q := [rule, FinalRule(other)], QueryOf(Address(ip));
    assert Hits(lines, env, q, 0) <==> HoldsAddress(rule.ipSet, env, ip);
    assert Scan(lines, env, q, true, NoResolver, 1) == Took(1);
  }

  /** ... or by the first answer for its family: later answers, and those for the other family, do
      not matter, and without an answer it does not apply. */
  lemma Block4ByAnswer(
      b: Cidr, act: ActionHandle, other: ActionHandle, env: Env, h: Name, v4s: seq<nat>,
      v6s: seq<nat>, actions: nat)
    requires act < actions && other < actions
    ensures ShortVerdict(
        IpRule(Block4(b), act, false), other, env, Domain(h), Live(v4s, v6s), actions)
      == Chosen(v4s != [] && b.first <= v4s[0] <= b.last, act, other)
  {
    ResolvedRead(IpRule(Block4(b), act, false), other, env, h, v4s, v6s, actions);
  }

  lemma Block6ByAnswer(
      b: Cidr, act: ActionHandle, other: ActionHandle, env: Env, h: Name, v4s: seq<nat>,
      v6s: seq<nat>, actions: nat)
    requires act < actions && other < actions
    ensures ShortVerdict(
        IpRule(Block6(b), act, false), other, env, Domain(h), Live(v4s, v6s), actions)
      == Chosen(v6s != [] && b.first <= v6s[0] <= b.last, act, other)
  {
    ResolvedRead(IpRule(Block6(b), act, false), other, env, h, v4s, v6s, actions);
  }

  /** Any address rule, with any answers: it applies if it holds the first of either family. */
  lemma ResolvedRead(
      rule: Line, other: ActionHandle, env: Env, h: Name, v4s: seq<nat>, v6s: seq<nat>,
      actions: nat)
    requires rule.Resolving() && rule.iAction < actions && other < actions
    ensures ShortVerdict(rule, other, env, Domain(h), Live(v4s, v6s), actions) == Chosen(
      || (v4s != [] && HoldsAddress(rule.ipSet, env, V4(v4s[0])))
      || (v6s != [] && HoldsAddress(rule.ipSet, env, V6(v6s[0]))), rule.iAction, other)
  {
    ResolvedScan(rule, other, env, h, v4s, v6s, actions);
    ShortScan(
      rule, other, env, Domain(h), Live(v4s, v6s), actions,
      ScanDispatch([rule, FinalRule(other)], env, Domain(h), Live(v4s, v6s), actions));
  }

  lemma ResolvedScan(
      rule: Line, other: ActionHandle, env: Env, h: Name, v4s: seq<nat>, v6s: seq<nat>,
      actions: nat)
    requires rule.Resolving() && rule.iAction < actions && other < actions
    ensures ScanDispatch([rule, FinalRule(other)], env, Domain(h), Live(v4s, v6s), actions)
      == Chosen(
        || (v4s != [] && HoldsAddress(rule.ipSet, env, V4(v4s[0])))
        || (v6s != [] && HoldsAddress(rule.ipSet, env, V6(v6s[0]))), rule.iAction, other)
  {
    var lines, resolver := [rule, FinalRule(other)], Live(v4s, v6s);
    var full := Resolved(h, resolver);
    assert Hits(lines, env, full, 0) <==>
      || (v4s != [] && HoldsAddress(rule.ipSet, env, V4(v4s[0])))
      || (v6s != [] && HoldsAddress(rule.ipSet, env, V6(v6s[0])));
    assert Scan(lines, env, full, true, resolver, 1) == Took(1);
  }

  /** A country decides by the database, if there is one. */
  lemma CountryRead(
      code: Name, act: ActionHandle, other: ActionHandle, env: Env, h: Name, a: nat, b: nat,
      actions: nat)
    requires act < actions && other < actions
    ensures var rule := IpRule(Code(code), act, false);
      var in4 := env.hasDb && env.countryOf(V4(a)) == Some(code);
      var in6 := env.hasDb && env.countryOf(V6(b)) == Some(code);
      && ShortVerdict(rule, other, env, Address(V4(a)), NoResolver, actions) == Chosen(in4, act, other)
      && ShortVerdict(rule, other, env, Address(V6(b)), NoResolver, actions) == Chosen(in6, act, other)
      && ShortVerdict(rule, other, env, Domain(h), Live([a], [b]), actions)
        == Chosen(in4 || in6, act, other)
  {
    var rule := IpRule(Code(code), act, false);
    AddressScan(rule, other, env, V4(a), actions);
    AddressScan(rule, other, env, V6(b), actions);
    ShortScan(rule, other, env, Address(V4(a)), NoResolver, actions,
      Chosen(HoldsAddress(Code(code), env, V4(a)), act, other));
    ShortScan(rule, other, env, Address(V6(b)), NoResolver, actions,
      Chosen(HoldsAddress(Code(code), env, V6(b)), act, other));
    ResolvedRead(rule, other, env, h, [a], [b], actions);
  }

  /** When a name is resolved at all: not for a no-resolve rule nor without a resolver, and to no
      verdict over one that is gone. */
  lemma ResolverRead(
      what: IpSet, act: ActionHandle, other: ActionHandle, env: Env, h: Name, resolver: Resolver,
      actions: nat)
    requires act < actions && other < actions
    ensures ShortVerdict(IpRule(what, act, true), other, env, Domain(h), resolver, actions)
      == Matched(other)
    ensures ShortVerdict(IpRule(what, act, false), other, env, Domain(h), NoResolver, actions)
      == Matched(other)
    ensures ShortVerdict(IpRule(what, act, false), other, env, Domain(h), Gone, actions)
      == Unavailable
  {
    ResolverScan(what, act, other, env, h, resolver, actions);
    ShortScan(
      IpRule(what, act, true), other, env, Domain(h), resolver, actions, Matched(other));
    ShortScan(
      IpRule(what, act, false), other, env, Domain(h), NoResolver, actions, Matched(other));
    ShortScan(IpRule(what, act, false), other, env, Domain(h), Gone, actions, Unavailable);
  }

  lemma ResolverScan(
      what: IpSet, act: ActionHandle, other: ActionHandle, env: Env, h: Name, resolver: Resolver,
      actions: nat)
    requires act < actions && other < actions
    ensures ScanDispatch(
        [IpRule(what, act, true), FinalRule(other)], env, Domain(h), resolver, actions)
      == Matched(other)
    ensures ScanDispatch(
        [IpRule(what, act, false), FinalRule(other)], env, Domain(h), NoResolver, actions)
      == Matched(other)
    ensures ScanDispatch(
        [IpRule(what, act, false), FinalRule(other)], env, Domain(h), Gone, actions)
      == Unavailable
  {
    var skip := [IpRule(what, act, true), FinalRule(other)];
    var rule := [IpRule(what, act, false), FinalRule(other)];
    assert Scan(skip, env, Fresh(h), false, resolver, 1) == Took(1);
    assert Scan(rule, env, Resolved(h, NoResolver), true, NoResolver, 1) == Took(1);
  }

  // ---- verdicts ----

  /** The verdict is the rule's own action, if there is one of that number, ... */
  lemma VerdictRead(act: ActionHandle, other: ActionHandle, env: Env, host: HostSpec, actions: nat)
    ensures ShortVerdict(FinalRule(act), other, env, host, NoResolver, actions)
      == if act < actions then Matched(act) else Unavailable
  {
    FinalScan(act, other, env, host, actions);
    ShortScan(FinalRule(act), other, env, host, NoResolver, actions,
      if act < actions then Matched(act) else Unavailable);
  }

  lemma FinalScan(act: ActionHandle, other: ActionHandle, env: Env, host: HostSpec, actions: nat)
    ensures ScanDispatch([FinalRule(act), FinalRule(other)], env, host, NoResolver, actions)
      == if act < actions then Matched(act) else Unavailable
  {
    assert Scan([FinalRule(act), FinalRule(other)], env, QueryOf(host), host.Address?, NoResolver, 0)
      == Took(0);
  }

  /** ... and the fallback for a file without rules. */
  lemma NoRuleRead(lines: seq<Line>, env: Env, host: HostSpec, resolver: Resolver, actions: nat)
    requires |lines| < ID_SPAN && forall i :: 0 <= i < |lines| ==> lines[i].Ignored?
    ensures Sound(Compile(lines, env.hasDb))
    ensures Dispatch(Compile(lines, env.hasDb), env, host, resolver, actions) == Fallback
  {
    CompileSound(lines, env.hasDb);
    DispatchFallsBack(lines, env, host, resolver, actions);
  }
}
