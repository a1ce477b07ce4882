// Matching against the compiled tables.
module RuleMatch {
  import opened Flow
  import opened RuleLines
  import opened RuleBuilder

  /** What dispatch calls into: the GeoIP database, if one is loaded, as a lookup from addresses to
      country codes, and the library's search in sorted tables. */
  datatype Env = Env(hasDb: bool, countryOf: Ip -> Option<Name>, search: Search)

  // ---- sorted address tables ----

  /** What `partition_point` may return: an index that separates a block ending before the address
      from one that does not. On a table that is not partitioned there can be several. */
  predicate Boundary(t: seq<IpEntry>, ip: nat, idx: nat) {
    && idx <= |t|
    && (idx > 0 ==> ip > Block(t[idx - 1]).last)
    && (idx < |t| ==> ip <= Block(t[idx]).last)
  }

  ghost predicate IsSearch(f: (seq<IpEntry>, nat) -> nat) {
    forall t, ip :: Boundary(t, ip, f(t, ip))
  }

  // Any function that ends at a boundary: which one, the library leaves open.
  type Search = f: (seq<IpEntry>, nat) -> nat | IsSearch(f) witness Bisect

  function Bisect(t: seq<IpEntry>, ip: nat): (idx: nat)
    ensures Boundary(t, ip, idx)
  {
    PartitionPoint(t, ip, 0, |t|)
  }

  // Bisection at the middle is one.
  function PartitionPoint(t: seq<IpEntry>, ip: nat, lo: nat, hi: nat): (idx: nat)
    requires lo <= hi <= |t|
    requires lo > 0 ==> ip > Block(t[lo - 1]).last
    requires hi < |t| ==> ip <= Block(t[hi]).last
    ensures Boundary(t, ip, idx)
    decreases hi - lo
  {
    if lo == hi then lo else
    var mid := (lo + hi) / 2;
    if ip > Block(t[mid]).last then PartitionPoint(t, ip, mid + 1, hi)
    else PartitionPoint(t, ip, lo, mid)
  }

  // `take_while(ip >= first)`, then `filter(ip <= last)`.
  function TakeMatching(t: seq<IpEntry>, ip: nat): seq<RuleHandle> {
    if t == [] || ip < Block(t[0]).first then []
    else (if ip <= Block(t[0]).last then [t[0].handle] else []) + TakeMatching(t[1..], ip)
  }

  function MatchIpRules(search: Search, t: seq<IpEntry>, ip: nat): seq<RuleHandle> {
    assert Boundary(t, ip, search(t, ip));
    TakeMatching(t[search(t, ip)..], ip)
  }

  // Reference: every rule of the table whose block holds the address, in table order.
  function Linear(t: seq<IpEntry>, ip: nat): seq<RuleHandle> {
    if t == [] then []
    else (if Block(t[0]).Contains(ip) then [t[0].handle] else []) + Linear(t[1..], ip)
  }

  ghost predicate LastsAscend(t: seq<IpEntry>) {
    forall i, j :: 0 <= i < j < |t| ==> Block(t[i]).last <= Block(t[j]).last
  }

  /** Only rules whose block holds the address are ever returned, whatever the table. */
  lemma {:induction false} LookupSound(t: seq<IpEntry>, ip: nat)
    ensures forall h :: h in TakeMatching(t, ip) ==>
      exists i :: 0 <= i < |t| && Block(t[i]).Contains(ip) && t[i].handle == h
  {
    if t != [] && ip >= Block(t[0]).first {
      LookupSound(t[1..], ip);
      forall h | h in TakeMatching(t[1..], ip)
        ensures exists i :: 0 <= i < |t| && Block(t[i]).Contains(ip) && t[i].handle == h
      {
        var i :| 0 <= i < |t[1..]| && Block(t[1..][i]).Contains(ip) && t[1..][i].handle == h;
        assert t[i + 1].handle == h;
      }
    }
  }

  // The entry lies where the search starts, or behind.
  ghost predicate Reaches(search: Search, t: seq<IpEntry>, ip: nat, e: IpEntry) {
    exists k :: search(t, ip) <= k < |t| && t[k] == e
  }

  /** A lookup that starts at an index misses nothing exactly when no block in front of that index
      holds the address. */
  lemma LookupMissesIff(t: seq<IpEntry>, ip: nat, idx: nat)
    requires Sorted(t) && idx <= |t|
    ensures TakeMatching(t[idx..], ip) == Linear(t, ip)
      <==> forall i :: 0 <= i < idx ==> !Block(t[i]).Contains(ip)
  {
    TakesAll(t[idx..], ip);
    if i :| 0 <= i < idx && Block(t[i]).Contains(ip) {
      LinearCounts(t, ip, idx, i);
    } else {
      LinearSkips(t, ip, idx);
    }
  }

  /** Every index that a binary search may end at serves every address, whatever its probes, exactly
      when the blocks' last addresses ascend along the sorted table. */
  lemma LookupCompleteIff(t: seq<IpEntry>)
    requires Sorted(t)
    ensures (forall ip: nat, idx: nat :: Boundary(t, ip, idx) ==> TakeMatching(t[idx..], ip) == Linear(t, ip))
      <==> LastsAscend(t)
  {
    if LastsAscend(t) {
      forall ip: nat, idx: nat | Boundary(t, ip, idx)
        ensures TakeMatching(t[idx..], ip) == Linear(t, ip)
      {
        BoundaryComplete(t, ip, idx);
      }
    } else {
      var i, j :| 0 <= i < j < |t| && Block(t[i]).last > Block(t[j]).last;
      LosesEntry(t, i, j);
    }
  }

  lemma BoundaryComplete(t: seq<IpEntry>, ip: nat, idx: nat)
    requires Sorted(t) && LastsAscend(t) && Boundary(t, ip, idx)
    ensures TakeMatching(t[idx..], ip) == Linear(t, ip)
  {
    AscendingClears(t, ip, idx);
    LookupMissesIff(t, ip, idx);
  }

  lemma AscendingClears(t: seq<IpEntry>, ip: nat, idx: nat)
    requires LastsAscend(t) && Boundary(t, ip, idx)
    ensures forall i :: 0 <= i < idx ==> !Block(t[i]).Contains(ip)
  {
    forall i | 0 <= i < idx ensures !Block(t[i]).Contains(ip) {
      assert Block(t[i]).last <= Block(t[idx - 1]).last;
    }
  }

  lemma {:induction false} LinearSkips(t: seq<IpEntry>, ip: nat, idx: nat)
    requires idx <= |t| && forall i :: 0 <= i < idx ==> !Block(t[i]).Contains(ip)
    ensures Linear(t, ip) == Linear(t[idx..], ip)
  {
    if idx > 0 {
      LinearSkips(t[1..], ip, idx - 1);
      assert t[1..][idx - 1..] == t[idx..];
    }
  }

  lemma {:induction false} TakesAll(t: seq<IpEntry>, ip: nat)
    requires Sorted(t)
    ensures TakeMatching(t, ip) == Linear(t, ip)
  {
    if t != [] && ip < Block(t[0]).first {
      forall i | 0 <= i < |t| ensures !Block(t[i]).Contains(ip) {
        assert i > 0 ==> Before(t[0], t[i]);
      }
      LinearSkips(t, ip, |t|);
    } else if t != [] {
      TakesAll(t[1..], ip);
    }
  }

  // The first index from `m` on whose block does not end before the address.
  function NextEnd(t: seq<IpEntry>, ip: nat, m: nat): (r: nat)
    requires 0 < m <= |t| && ip > Block(t[m - 1]).last
    ensures m <= r && Boundary(t, ip, r)
    decreases |t| - m
  {
    if m == |t| || ip <= Block(t[m]).last then m else NextEnd(t, ip, m + 1)
  }

  // An entry that ends after a later one can be stepped over by the binary search.
  lemma LosesEntry(t: seq<IpEntry>, i: nat, j: nat)
    requires Sorted(t) && i < j < |t| && Block(t[i]).last > Block(t[j]).last
    ensures exists ip: nat, idx: nat :: Boundary(t, ip, idx) && TakeMatching(t[idx..], ip) != Linear(t, ip)
  {
    var ip := Block(t[i]).last;
    var idx := NextEnd(t, ip, j + 1);
    LookupMissesIff(t, ip, idx);
    assert Boundary(t, ip, idx) && TakeMatching(t[idx..], ip) != Linear(t, ip);
  }

  lemma {:induction false} LinearCounts(t: seq<IpEntry>, ip: nat, idx: nat, i: nat)
    requires i < idx <= |t| && Block(t[i]).Contains(ip)
    ensures |Linear(t, ip)| > |Linear(t[idx..], ip)|
  {
    assert t[1..][idx - 1..] == t[idx..];
    if i > 0 {
      LinearCounts(t[1..], ip, idx - 1, i - 1);
    } else {
      LinearLonger(t[1..], ip, idx - 1);
    }
  }

  lemma {:induction false} LinearLonger(t: seq<IpEntry>, ip: nat, idx: nat)
    requires idx <= |t|
    ensures |Linear(t, ip)| >= |Linear(t[idx..], ip)|
  {
    if idx > 0 {
      assert t[1..][idx - 1..] == t[idx..];
      LinearLonger(t[1..], ip, idx - 1);
    }
  }

  /** Of two blocks that begin alike the larger one sorts first, so that a table with two such
      blocks cannot be searched for every address. */
  lemma LargerBlockFirst(t: seq<IpEntry>, i: nat, j: nat)
    requires Sorted(t) && i < j < |t| && Block(t[i]).first == Block(t[j]).first
    ensures Block(t[i]).last >= Block(t[j]).last
    ensures Block(t[i]) != Block(t[j]) ==> !LastsAscend(t)
    ensures Block(t[i]) == Block(t[j]) ==> t[i].handle.Id() <= t[j].handle.Id()
  {
    assert Before(t[i], t[j]);
  }

  /** Blocks that are pairwise disjoint or equal meet the condition. */
  lemma DisjointOrEqualAscend(t: seq<IpEntry>)
    requires Sorted(t)
    requires forall i, j :: 0 <= i < j < |t| ==>
      Block(t[i]) == Block(t[j]) || Block(t[i]).last < Block(t[j]).first
      || Block(t[j]).last < Block(t[i]).first
    ensures LastsAscend(t)
  {
    forall i, j | 0 <= i < j < |t| ensures Block(t[i]).last <= Block(t[j]).last {
      assert Before(t[i], t[j]);
    }
  }

  // ---- domain tables ----

  // The occurrences one kind of table keeps of those the automaton reports.
  predicate Keeps(kind: DomainKind, pattern: Name, host: Name, at: nat)
    requires Occurs(pattern, host, at)
  {
    match kind
    case Full => at == 0 && at + |pattern| == |host|
    case Suffix => at + |pattern| == |host| && (at == 0 || host[at - 1] == '.')
    case Keyword => true
  }

  predicate Reported(kind: DomainKind, pattern: Name, host: Name) {
    exists at :: 0 <= at <= |host| && Occurs(pattern, host, at) && Keeps(kind, pattern, host, at)
  }

  /** Filtering occurrences by position implements exactly what the rule kinds mean. */
  lemma ReportedMeans(kind: DomainKind, pattern: Name, host: Name)
    ensures Reported(kind, pattern, host) <==> Means(kind, pattern, host)
  {
    match kind
    case Full =>
      if host == pattern {
        assert Occurs(pattern, host, 0) && Keeps(Full, pattern, host, 0);
      }
    case Suffix =>
      SuffixMeans(pattern, host);
    case Keyword =>
      if at :| 0 <= at <= |host| && Occurs(pattern, host, at) {
        assert Keeps(Keyword, pattern, host, at);
      }
  }

  lemma SuffixMeans(pattern: Name, host: Name)
    ensures Reported(Suffix, pattern, host) <==> Means(Suffix, pattern, host)
  {
    var at := |host| - |pattern|;
    if at == 0 && host == pattern {
      assert Occurs(pattern, host, 0) && Keeps(Suffix, pattern, host, 0);
    } else if at > 0 {
      SuffixAt(pattern, host);
      if EndsWith(host, "." + pattern) {
        assert Occurs(pattern, host, at) && Keeps(Suffix, pattern, host, at);
      }
    }
  }

  lemma SuffixAt(pattern: Name, host: Name)
    requires |host| > |pattern|
    ensures var at := |host| - |pattern|;
      EndsWith(host, "." + pattern) <==> host[at..] == pattern && host[at - 1] == '.'
  {
    var at := |host| - |pattern|;
    assert host[at - 1..] == [host[at - 1]] + host[at..];
    if EndsWith(host, "." + pattern) {
      assert host[at - 1..][0] == ("." + pattern)[0];
      assert host[at - 1..][1..] == ("." + pattern)[1..];
    }
  }

  // Every pattern can be looked up, so that no match can run into the lookup's panic.
  ghost predicate Indexed(t: AcTable) {
    forall k :: 0 <= k < |t.patterns| ==> Lookup(t.ranges, k).Some?
  }

  // The handles of the reported patterns below `k`.
  function MatchAc(t: AcTable, kind: DomainKind, host: Name, k: nat): seq<RuleHandle>
    requires Indexed(t) && k <= |t.patterns|
  {
    if k == 0 then [] else
    MatchAc(t, kind, host, k - 1) +
      if Reported(kind, t.patterns[k - 1], host) then [Lookup(t.ranges, k - 1).value] else []
  }

  ghost predicate Sound(rs: RuleSet) {
    Indexed(rs.full) && Indexed(rs.suffix) && Indexed(rs.keyword)
  }

  function MatchDomainImpl(rs: RuleSet, domain: Name): seq<RuleHandle>
    requires Sound(rs)
  {
    var host := StripDot(domain);
    MatchAc(rs.full, Full, host, |rs.full.patterns|)
    + MatchAc(rs.suffix, Suffix, host, |rs.suffix.patterns|)
    + MatchAc(rs.keyword, Keyword, host, |rs.keyword.patterns|)
  }

  // ---- country table ----

  // `query`: the first rule for the country of the address.
  function GeoQuery(t: seq<IpEntry>, code: Option<Name>): seq<RuleHandle> {
    if t == [] || code.None? then []
    else if t[0].ipSet == Code(code.value) then [t[0].handle]
    else GeoQuery(t[1..], code)
  }

  function GeoMatches(rs: RuleSet, env: Env, ip: Ip): seq<RuleHandle> {
    if rs.geo.Some? then GeoQuery(rs.geo.value, env.countryOf(ip)) else []
  }

  // ---- aggregation ----

  // `min_by_key(|r| r.rule_id())`: the first of the handles with the least id.
  function ReduceRules(s: seq<RuleHandle>): (r: Option<RuleHandle>)
    ensures r.None? <==> s == []
    ensures r.Some? ==> r.value in s && forall h :: h in s ==> r.value.Id() <= h.Id()
  {
    if s == [] then None else
    var n := |s| - 1;
    var before := ReduceRules(s[..n]);
    assert s == s[..n] + [s[n]];
    if before.Some? && before.value.Id() <= s[n].Id() then before else Some(s[n])
  }

  function FromId(s: seq<RuleHandle>, minId: nat): (r: seq<RuleHandle>)
    ensures forall h :: h in r <==> h in s && h.Id() >= minId
  {
    if s == [] then [] else
    assert s == [s[0]] + s[1..];
    (if s[0].Id() >= minId then [s[0]] else []) + FromId(s[1..], minId)
  }

  function AsSeq<T>(o: Option<T>): seq<T> {
    if o.Some? then [o.value] else []
  }

  predicate ShouldResolve(rs: RuleSet, domain: Name)
    requires Sound(rs)
  {
    var least := ReduceRules(MatchDomainImpl(rs, domain) + AsSeq(rs.final));
    rs.firstResolving.Some? && (least.None? || least.value.Id() >= rs.firstResolving.value)
  }

  function MinRuleId(rs: RuleSet, v4: Option<nat>, v6: Option<nat>, domain: Option<Name>): nat {
    if domain.Some? && (v4.Some? || v6.Some?) then rs.firstResolving.GetOr(0) else 0
  }

  function V4Candidates(rs: RuleSet, env: Env, v4: Option<nat>): seq<RuleHandle> {
    if v4.None? then [] else MatchIpRules(env.search, rs.net4, v4.value) + GeoMatches(rs, env, V4(v4.value))
  }

  function V6Candidates(rs: RuleSet, env: Env, v6: Option<nat>): seq<RuleHandle> {
    if v6.None? then [] else MatchIpRules(env.search, rs.net6, v6.value) + GeoMatches(rs, env, V6(v6.value))
  }

  function DomainCandidates(rs: RuleSet, domain: Option<Name>): seq<RuleHandle>
    requires Sound(rs)
  {
    if domain.None? then [] else MatchDomainImpl(rs, domain.value)
  }

  function Match(
      rs: RuleSet, env: Env, v4: Option<nat>, v6: Option<nat>, domain: Option<Name>)
    : Option<RuleHandle>
    requires Sound(rs)
  {
    var minId := MinRuleId(rs, v4, v6, domain);
    var domainRes := ReduceRules(FromId(DomainCandidates(rs, domain), minId));
    var v4Res := ReduceRules(FromId(V4Candidates(rs, env, v4), minId));
    var v6Res := ReduceRules(FromId(V6Candidates(rs, env, v6), minId));
    ReduceRules(AsSeq(v4Res) + AsSeq(v6Res) + AsSeq(domainRes) + FromId(AsSeq(rs.final), minId))
  }

  function Candidates(
      rs: RuleSet, env: Env, v4: Option<nat>, v6: Option<nat>, domain: Option<Name>)
    : seq<RuleHandle>
    requires Sound(rs)
  {
    V4Candidates(rs, env, v4) + V6Candidates(rs, env, v6) + DomainCandidates(rs, domain)
    + AsSeq(rs.final)
  }

  // A first choice among the handles that pass the id filter: there is one if any passes, and no
  // other has a smaller id.
  ghost predicate IsLeast(s: seq<RuleHandle>, minId: nat, r: Option<RuleHandle>) {
    match r
    case None => forall h :: h in s ==> h.Id() < minId
    case Some(l) => l in s && l.Id() >= minId && KeptFrom(s, minId, l.Id())
  }

  /** The staged reductions pick a least candidate among all that pass the id filter. */
  lemma MatchIsLeast(rs: RuleSet, env: Env, v4: Option<nat>, v6: Option<nat>, domain: Option<Name>)
    requires Sound(rs)
    ensures IsLeast(
      Candidates(rs, env, v4, v6, domain), MinRuleId(rs, v4, v6, domain),
      Match(rs, env, v4, v6, domain))
  {
    StagedLeast(
      V4Candidates(rs, env, v4), V6Candidates(rs, env, v6), DomainCandidates(rs, domain),
      AsSeq(rs.final), MinRuleId(rs, v4, v6, domain));
  }

  lemma StagedLeast(
      a: seq<RuleHandle>, b: seq<RuleHandle>, c: seq<RuleHandle>, d: seq<RuleHandle>, minId: nat)
    ensures IsLeast(a + b + c + d, minId, ReduceRules(
      AsSeq(ReduceRules(FromId(a, minId))) + AsSeq(ReduceRules(FromId(b, minId)))
      + AsSeq(ReduceRules(FromId(c, minId))) + FromId(d, minId)))
  {
    var x := AsSeq(ReduceRules(FromId(a, minId)));
    var y := AsSeq(ReduceRules(FromId(b, minId)));
    var z := AsSeq(ReduceRules(FromId(c, minId)));
    var w := FromId(d, minId);
    ReducedStands(a, minId);
    ReducedStands(b, minId);
    ReducedStands(c, minId);
    assert StandsIn(w, d, minId);
    StandsTogether(x, a, y, b, minId);
    StandsTogether(x + y, a + b, z, c, minId);
    StandsTogether(x + y + z, a + b + c, w, d, minId);
    StandInLeast(x + y + z + w, a + b + c + d, minId);
  }

  // What passes the filter has no id below the bound.
  ghost predicate KeptFrom(s: seq<RuleHandle>, minId: nat, bound: nat) {
    forall h :: h in s && h.Id() >= minId ==> h.Id() >= bound
  }

  // `t` consists of handles of `s` that pass the filter, a least one among them.
  ghost predicate StandsIn(t: seq<RuleHandle>, s: seq<RuleHandle>, minId: nat) {
    && (forall h :: h in t ==> h in s && h.Id() >= minId)
    && (forall bound: nat :: KeptFrom(t, 0, bound) ==> KeptFrom(s, minId, bound))
  }

  lemma ReducedStands(s: seq<RuleHandle>, minId: nat)
    ensures StandsIn(AsSeq(ReduceRules(FromId(s, minId))), s, minId)
  {
    var r := ReduceRules(FromId(s, minId));
    if r.Some? {
      assert r.value in AsSeq(r);
    }
  }

  lemma StandsTogether(
      t: seq<RuleHandle>, s: seq<RuleHandle>, t': seq<RuleHandle>, s': seq<RuleHandle>, minId: nat)
    requires StandsIn(t, s, minId) && StandsIn(t', s', minId)
    ensures StandsIn(t + t', s + s', minId)
  {
    forall bound: nat | KeptFrom(t + t', 0, bound) ensures KeptFrom(s + s', minId, bound) {
      assert forall h :: h in t || h in t' ==> h in t + t';
      assert KeptFrom(t, 0, bound) && KeptFrom(t', 0, bound);
    }
  }

  lemma StandInLeast(t: seq<RuleHandle>, s: seq<RuleHandle>, minId: nat)
    requires StandsIn(t, s, minId)
    ensures IsLeast(s, minId, ReduceRules(t))
  {
    var r := ReduceRules(t);
    if r.Some? {
      assert KeptFrom(t, 0, r.value.Id());
    } else {
      forall h | h in s ensures h.Id() < minId {
        assert KeptFrom(t, 0, h.Id() + 1);
      }
    }
  }
}
