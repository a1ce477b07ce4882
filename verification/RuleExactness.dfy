// What it takes for a file to be misrouted, and files that are.
module RuleExactness {
  import opened Flow
  import opened RuleLines
  import opened RuleBuilder
  import opened RuleMatch
  import opened RuleOrder
  import opened RuleDispatch
  import opened RuleTheorem

  /** Where the tables find everything, a destination is overtaken exactly when the line aggregated
      first was put in front of the line that stands first in the file, and acts differently. */
  lemma OvertakenByMergingIff(lines: seq<Line>, env: Env, host: HostSpec, resolver: Resolver)
    requires Searchable(lines) && (host.Domain? ==> GeoSafe(lines))
    ensures var q := QueryOf(host);
      Overtaken(lines, env, q, resolver) <==> exists f: nat, c: nat ::
        IsFirst(lines, env, q, resolver, f) && Picked(lines, env, q, resolver, c)
        && f < c && Inverted(lines, f, c)
  {
    var q := QueryOf(host);
    if f: nat :| IsFirst(lines, env, q, resolver, f) {
      SafeTablesFind(lines, env, q, resolver, f);
      var action := SomeAnswer(lines, env, host, resolver);
      var c: nat :| Picked(lines, env, q, resolver, c) && lines[c].Action() == action.value;
      forall d: nat | Picked(lines, env, q, resolver, d)
        ensures lines[d].Action() == lines[c].Action()
        ensures lines[d].Action() != lines[f].Action() <==> f < d && Inverted(lines, f, d)
      {
        SamePickSameAction(lines, env, q, resolver, c, d);
        PickedInverted(lines, env, q, resolver, f, d);
      }
      assert forall g: nat :: IsFirst(lines, env, q, resolver, g) ==> g == f;
    }
  }

  lemma PickedInverted(lines: seq<Line>, env: Env, q: Query, resolver: Resolver, f: nat, c: nat)
    requires IsFirst(lines, env, q, resolver, f) && Found(lines, env, q, resolver, f)
    requires Picked(lines, env, q, resolver, c)
    ensures lines[c].Action() != lines[f].Action() <==> f < c && Inverted(lines, f, c)
  {
    StoredIdAction(lines, f);
    StoredIdAction(lines, c);
  }

  // Every rule between the line whose id a merged pattern carries and the pattern's own line has
  // the pattern's action.
  ghost predicate UniformRuns(lines: seq<Line>) {
    forall i, j :: 0 <= j < i < |lines| && StoredId(lines, i) <= j && !lines[j].Ignored? ==>
      lines[j].Action() == lines[i].Action()
  }

  /** That is enough for merging not to invert rules. */
  lemma UniformBetween(lines: seq<Line>)
    requires UniformRuns(lines)
    ensures NoInversion(lines)
  {
    forall i, j | 0 <= j < i < |lines| ensures !Inverted(lines, j, i) {
      StoredIdAction(lines, j);
    }
  }

  ghost predicate OneRulePerCode(lines: seq<Line>) {
    forall i, j, code :: 0 <= i < j && CodeHit(lines, i, code) ==> !CodeHit(lines, j, code)
  }

  /** A file whose runs are uniform, with one rule per country and blocks whose ends ascend, is
      dispatched as written: for every destination, every answer of the resolver and, if no pattern
      is merged across the first resolving rule, also when the resolver is gone. */
  lemma UniformFileEqualsScan(lines: seq<Line>, env: Env, actions: nat)
    requires Searchable(lines) && UniformRuns(lines) && OneRulePerCode(lines)
    ensures Sound(Compile(lines, env.hasDb))
    ensures forall host: HostSpec, resolver: Resolver ::
      (resolver.Gone? ==> NoStraddle(lines)) ==>
      Dispatch(Compile(lines, env.hasDb), env, host, resolver, actions)
        == ScanDispatch(lines, env, host, resolver, actions)
  {
    CompileSound(lines, env.hasDb);
    UniformBetween(lines);
    forall host: HostSpec, resolver: Resolver | resolver.Gone? ==> NoStraddle(lines)
      ensures Dispatch(Compile(lines, env.hasDb), env, host, resolver, actions)
        == ScanDispatch(lines, env, host, resolver, actions)
    {
      CompiledEqualsScan(lines, env, host, resolver, actions);
    }
  }

  // Two rules for the code lie on either side of the id.
  ghost predicate CodeAcross(lines: seq<Line>, code: Name, minId: nat) {
    exists i: nat, j: nat :: CodeHit(lines, i, code) && CodeHit(lines, j, code) && i + 1 < minId <= j + 1
  }

  /** The country lookup finds a rule at or behind an id whenever there is one, exactly when the
      rules for the code all lie on one side of it. */
  lemma CountryLookupIff(lines: seq<Line>, code: Name, minId: nat)
    requires |lines| < ID_SPAN
    ensures
      (FromId(GeoQuery(SelectIp(lines, Country), Some(code)), minId) == [] <==>
       forall j: nat :: CodeHit(lines, j, code) ==> j + 1 < minId)
      <==> !CodeAcross(lines, code, minId)
  {
    var i := CodeFrom(lines, code);
    var found := FromId(GeoQuery(SelectIp(lines, Country), Some(code)), minId);
    if CodeHit(lines, i, code) {
      StoredHandleId(lines, i);
      assert Stored(lines, i).Id() == i + 1;
      assert i + 1 >= minId ==> Stored(lines, i) in found;
      if found != [] {
        assert found[0] in found && found[0] == Stored(lines, i);
      }
    } else {
      assert found == [];
    }
  }

  // ---- files that are misrouted ----

  lemma ThirdJoinsFirst(lines: seq<Line>, text: Name, other: Name, action: ActionHandle)
    requires |lines| == 3 && lines[0] == DomainRule(Full, text, action)
    requires lines[2] == DomainRule(Full, other, action)
    requires !(lines[1].DomainRule? && lines[1].kind == Full)
    ensures StoredId(lines, 2) == 1
  {
    var l0, l1, l2 := lines[..0], lines[..1], lines[..2];
    assert l2[..1] == l1 && l1[..0] == l0 && lines[..3] == lines;
    assert Select(l1, Full) == [Pattern(text, action, 1)];
    assert Select(l2, Full) == [Pattern(text, action, 1)];
    assert Select(lines, Full) == [Pattern(text, action, 1), Pattern(other, action, 3)];
    assert RunStart(Select(lines, Full), 1) == RunStart(Select(lines, Full), 0) == 1;
  }

  const MERGED_FILE: seq<Line> :=
    [DomainRule(Full, "a", 0), DomainRule(Keyword, "b", 1), DomainRule(Full, "b", 0)]

  /** `host,a,0`, `host-keyword,b,1`, `host,b,0`: the scan sends the host b to action 1, the
      compiled rules to action 0, because the third line carries the id of the first. */
  lemma MergedRangeOvertakes(env: Env)
    ensures Sound(Compile(MERGED_FILE, env.hasDb))
    ensures ScanDispatch(MERGED_FILE, env, Domain("b"), NoResolver, 2) == Matched(1)
    ensures Dispatch(Compile(MERGED_FILE, env.hasDb), env, Domain("b"), NoResolver, 2) == Matched(0)
  {
    CompileSound(MERGED_FILE, env.hasDb);
    MergedHits(env);
    ThirdJoinsFirst(MERGED_FILE, "a", "b", 0);
    LeastIdPicked(MERGED_FILE, env, Fresh("b"), NoResolver, 2);
    ScanTakesFirst(MERGED_FILE, env, Domain("b"), NoResolver, 2, 1);
    DispatchPicks(MERGED_FILE, env, Domain("b"), NoResolver, 2, 2);
  }

  lemma MergedHits(env: Env)
    ensures IsFirst(MERGED_FILE, env, Fresh("b"), NoResolver, 1)
    ensures Satisfied(MERGED_FILE, env, Fresh("b"), NoResolver, 2)
  {
    assert StripDot("b") == "b" && Occurs("b", "b", 0);
    assert !Hits(MERGED_FILE, env, Fresh("b"), 0);
    assert Hits(MERGED_FILE, env, Fresh("b"), 1) && Hits(MERGED_FILE, env, Fresh("b"), 2);
  }

  lemma LeastIdPicked(lines: seq<Line>, env: Env, q: Query, resolver: Resolver, c: nat)
    requires Satisfied(lines, env, q, resolver, c) && lines[c].DomainRule?
    requires StoredId(lines, c) == 1
    ensures Picked(lines, env, q, resolver, c)
  {
    forall k: nat | Found(lines, env, q, resolver, k) ensures StoredId(lines, k) >= 1 {
      StoredIdAction(lines, k);
    }
  }

  const STRADDLING_FILE: seq<Line> :=
    [DomainRule(Full, "a", 0), IpRule(Code("XX"), 1, false), DomainRule(Full, "b", 0)]

  /** `host,a,0`, `geoip,xx,1`, `host,b,0` over a resolver that is gone: the scan of the host b needs
      it for the second line, the compiled rules have the third line ahead of that. */
  lemma StraddlingSparesResolution(env: Env)
    ensures Sound(Compile(STRADDLING_FILE, env.hasDb))
    ensures ScanDispatch(STRADDLING_FILE, env, Domain("b"), Gone, 2) == Unavailable
    ensures Dispatch(Compile(STRADDLING_FILE, env.hasDb), env, Domain("b"), Gone, 2) == Matched(0)
  {
    CompileSound(STRADDLING_FILE, env.hasDb);
    StraddlingHits(env);
    ThirdJoinsFirst(STRADDLING_FILE, "a", "b", 0);
    LeastIdPicked(STRADDLING_FILE, env, Fresh("b"), Gone, 2);
    var o := ScanAnswers(STRADDLING_FILE, env, Domain("b"), Gone, 2);
    DispatchPicks(STRADDLING_FILE, env, Domain("b"), Gone, 2, 2);
  }

  lemma StraddlingHits(env: Env)
    ensures FirstResolving(STRADDLING_FILE) == Some(2)
    ensures AllAfter(STRADDLING_FILE, env, "b", 0)
    ensures Hits(STRADDLING_FILE, env, Fresh("b"), 2)
  {
    assert StripDot("b") == "b" && STRADDLING_FILE[1].Resolving();
    assert !Hits(STRADDLING_FILE, env, Fresh("b"), 0);
  }

  const NESTED_FILE: seq<Line> := [
    IpRule(Block4(AddressRange(0, 255)), 0, false), IpRule(Block4(AddressRange(16, 31)), 1, false)]

  /** A small block inside a large one: for an address behind the small block a search may start at
      either end of the table. Plain bisection starts behind both blocks, and then the rule of the
      large one is missed. */
  lemma NestedBlockMissed(env: Env)
    ensures Sound(Compile(NESTED_FILE, env.hasDb))
    ensures var t := NetTable(NESTED_FILE, Net4); var found := MatchIpRules(env.search, t, 200);
      && Bisect(t, 200) == 2 && Linear(t, 200) == [NewHandle(0, 1)]
      && found == if env.search(t, 200) == 2 then [] else [NewHandle(0, 1)]
    ensures ScanDispatch(NESTED_FILE, env, Address(V4(200)), NoResolver, 2) == Matched(0)
    ensures env.search(NetTable(NESTED_FILE, Net4), 200) == 2 ==>
      Dispatch(Compile(NESTED_FILE, env.hasDb), env, Address(V4(200)), NoResolver, 2) == Fallback
  {
    CompileSound(NESTED_FILE, env.hasDb);
    NestedTable();
    SearchTwo(env.search, NetTable(NESTED_FILE, Net4), 200);
    NestedFirst(env);
    ScanTakesFirst(NESTED_FILE, env, Address(V4(200)), NoResolver, 2, 0);
    if env.search(NetTable(NESTED_FILE, Net4), 200) == 2 {
      NestedFindsNone(env);
      DispatchFallsBack(NESTED_FILE, env, Address(V4(200)), NoResolver, 2);
    }
  }

  lemma NestedFirst(env: Env)
    ensures IsFirst(NESTED_FILE, env, QueryOf(Address(V4(200))), NoResolver, 0)
    ensures !Hits(NESTED_FILE, env, QueryOf(Address(V4(200))), 1)
  {
    assert Hits(NESTED_FILE, env, QueryOf(Address(V4(200))), 0);
  }

  lemma NestedFindsNone(env: Env)
    requires |NetTable(NESTED_FILE, Net4)| == 2 == env.search(NetTable(NESTED_FILE, Net4), 200)
    ensures forall i: nat :: !Found(NESTED_FILE, env, QueryOf(Address(V4(200))), NoResolver, i)
  {
    NestedFirst(env);
    assert !NetReached(NESTED_FILE, env, QueryOf(Address(V4(200))), 0);
  }

  lemma NestedTable()
    ensures NetTable(NESTED_FILE, Net4) == [EntryOf(NESTED_FILE, 0), EntryOf(NESTED_FILE, 1)]
  {
    NestedSelected();
    SortTwo(EntryOf(NESTED_FILE, 0), EntryOf(NESTED_FILE, 1));
  }

  lemma NestedSelected()
    ensures SelectIp(NESTED_FILE, Net4) == [EntryOf(NESTED_FILE, 0), EntryOf(NESTED_FILE, 1)]
  {
    var l1 := NESTED_FILE[..1];
    assert l1[..0] == [] && NESTED_FILE[..2] == NESTED_FILE;
    assert SelectIp(l1, Net4) == [EntryOf(NESTED_FILE, 0)];
  }

  lemma SortTwo(a: IpEntry, b: IpEntry)
    requires Before(a, b)
    ensures Sort([a, b]) == [a, b]
  {
    assert [a, b][..1] == [a] && [a][..0] == [];
    assert Sort([a]) == Insert([], a) == [a];
    assert Insert([a], b) == [a] + Insert([], b);
  }

  lemma SearchTwo(search: Search, t: seq<IpEntry>, ip: nat)
    requires |t| == 2 && Block(t[0]).Contains(ip) && ip > Block(t[1]).last
    ensures Bisect(t, ip) == 2 && Linear(t, ip) == [t[0].handle]
    ensures search(t, ip) == 0 || search(t, ip) == 2
    ensures MatchIpRules(search, t, ip) == if search(t, ip) == 2 then [] else [t[0].handle]
  {
    assert Boundary(t, ip, search(t, ip));
    assert PartitionPoint(t, ip, 2, 2) == 2;
    assert t[0..] == t && t[2..] == [] && t[1..] == [t[1]] && t[1..][1..] == [];
    EndedBefore(t[1..], ip);
  }

  lemma EndedBefore(t: seq<IpEntry>, ip: nat)
    requires |t| == 1 && ip > Block(t[0]).last
    ensures Linear(t, ip) == [] == TakeMatching(t, ip)
  {
    assert t[1..] == [];
  }

  const SPLIT_FILE: seq<Line> :=
    [IpRule(Code("XX"), 0, true), IpRule(Code("XX"), 1, false)]

  /** `geoip,xx,0,no-resolve`, `geoip,xx,1`: once the address is resolved, the lookup for the country
      yields the first rule only, which the id filter drops, and the second is not found. */
  lemma SplitCountryMissed(env: Env, host: Name)
    requires env.hasDb && env.countryOf(V4(7)) == Some("XX")
    ensures Sound(Compile(SPLIT_FILE, env.hasDb))
    ensures ScanDispatch(SPLIT_FILE, env, Domain(host), Live([7], []), 2) == Matched(1)
    ensures Dispatch(Compile(SPLIT_FILE, env.hasDb), env, Domain(host), Live([7], []), 2) == Fallback
  {
    var resolver := Live([7], []);
    CompileSound(SPLIT_FILE, env.hasDb);
    SplitHits(env, host, resolver);
    ScanTakesFirst(SPLIT_FILE, env, Domain(host), resolver, 2, 1);
    DispatchFallsBack(SPLIT_FILE, env, Domain(host), resolver, 2);
  }

  lemma SplitHits(env: Env, host: Name, resolver: Resolver)
    requires env.hasDb && env.countryOf(V4(7)) == Some("XX") && resolver == Live([7], [])
    ensures IsFirst(SPLIT_FILE, env, Fresh(host), resolver, 1)
    ensures forall i: nat :: !Found(SPLIT_FILE, env, Fresh(host), resolver, i)
  {
    assert SPLIT_FILE[1].Resolving() && !SPLIT_FILE[0].Resolving();
    assert FirstResolving(SPLIT_FILE) == Some(2);
    assert Hits(SPLIT_FILE, env, Resolved(host, resolver), 1);
    assert CodeHit(SPLIT_FILE, 0, "XX") && AcrossFirst(SPLIT_FILE, 1, 2);
    assert Hidden(SPLIT_FILE, 1);
  }
}
