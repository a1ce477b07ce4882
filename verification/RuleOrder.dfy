// What merging ids does to the order of rules, and how handles relate to lines.
module RuleOrder {
  import opened Flow
  import opened RuleLines
  import opened RuleBuilder
  import opened RuleMatch

  // The id a matching line `i` is aggregated under: merged domain patterns carry that of the line
  // that starts their run, every other rule its own.
  function StoredId(lines: seq<Line>, i: nat): RuleId
    requires i < |lines|
  {
    if lines[i].DomainRule? then
      var kind := lines[i].kind;
      SelectAt(lines, i);
      RunStart(Select(lines, kind), |Select(lines[..i], kind)|)
    else i + 1
  }

  function Stored(lines: seq<Line>, i: nat): RuleHandle
    requires i < |lines|
  {
    NewHandle(lines[i].Action(), StoredId(lines, i))
  }

  lemma {:induction false} SelectAt(lines: seq<Line>, i: nat)
    requires i < |lines| && lines[i].DomainRule?
    ensures var pats, k := Select(lines, lines[i].kind), |Select(lines[..i], lines[i].kind)|;
      k < |pats| && pats[k] == Pattern(lines[i].pattern, lines[i].dAction, i + 1)
    decreases |lines|
  {
    var n := |lines| - 1;
    if i < n {
      SelectAt(lines[..n], i);
      assert lines[..n][..i] == lines[..i];
    }
  }

  lemma {:induction false} SelectBack(lines: seq<Line>, kind: DomainKind, k: nat)
    requires k < |Select(lines, kind)|
    ensures var p := Select(lines, kind)[k];
      && 0 < p.id <= |lines| && lines[p.id - 1] == DomainRule(kind, p.text, p.action)
      && |Select(lines[..p.id - 1], kind)| == k
  {
    var n := |lines| - 1;
    if k < |Select(lines[..n], kind)| {
      SelectBack(lines[..n], kind, k);
      var p := Select(lines, kind)[k];
      assert lines[..n][..p.id - 1] == lines[..p.id - 1];
    }
  }

  /** The stored id belongs to a line at or before the matching one, with the same action. */
  lemma StoredIdAction(lines: seq<Line>, i: nat)
    requires i < |lines|
    ensures 0 < StoredId(lines, i) <= i + 1
    ensures lines[StoredId(lines, i) - 1].Action() == lines[i].Action()
    ensures lines[StoredId(lines, i) - 1].DomainRule? == lines[i].DomainRule?
  {
    if lines[i].DomainRule? {
      SelectAt(lines, i);
      RunStartAction(lines, lines[i].kind, |Select(lines[..i], lines[i].kind)|);
    }
  }

  lemma {:induction false} RunStartAction(lines: seq<Line>, kind: DomainKind, k: nat)
    requires k < |Select(lines, kind)|
    ensures var pats := Select(lines, kind); var s := RunStart(pats, k);
      && 0 < s <= pats[k].id <= |lines|
      && lines[s - 1].DomainRule? && lines[s - 1].Action() == pats[k].action
  {
    SelectBack(lines, kind, k);
    var pats := Select(lines, kind);
    if k > 0 && pats[k - 1].action == pats[k].action {
      RunStartAction(lines, kind, k - 1);
      SelectAscends(lines, kind, k);
    }
  }

  lemma {:induction false} SelectAscends(lines: seq<Line>, kind: DomainKind, k: nat)
    requires 0 < k < |Select(lines, kind)|
    ensures Select(lines, kind)[k - 1].id < Select(lines, kind)[k].id
  {
    var n := |lines| - 1;
    if k < |Select(lines[..n], kind)| {
      SelectAscends(lines[..n], kind, k);
    } else {
      SelectBack(lines[..n], kind, k - 1);
    }
  }

  /** The compiled tables are sound: no pattern lookup can panic. */
  lemma CompileSound(lines: seq<Line>, hasGeoDb: bool)
    ensures Sound(Compile(lines, hasGeoDb))
  {
    RangesIndex(Select(lines, Full));
    RangesIndex(Select(lines, Suffix));
    RangesIndex(Select(lines, Keyword));
  }

  // ---- which handles a query can produce ----

  function PatternHandle(lines: seq<Line>, kind: DomainKind, j: nat): RuleHandle
    requires j < |Select(lines, kind)|
  {
    NewHandle(Select(lines, kind)[j].action, RunStart(Select(lines, kind), j))
  }

  lemma {:induction false} AcFrom(t: AcTable, kind: DomainKind, host: Name, k: nat, h: RuleHandle)
    returns (j: nat)
    requires Indexed(t) && k <= |t.patterns| && h in MatchAc(t, kind, host, k)
    ensures j < k && Reported(kind, t.patterns[j], host) && Lookup(t.ranges, j) == Some(h)
  {
    if h in MatchAc(t, kind, host, k - 1) {
      j := AcFrom(t, kind, host, k - 1, h);
    } else {
      j := k - 1;
    }
  }

  lemma {:induction false} AcTo(t: AcTable, kind: DomainKind, host: Name, k: nat, j: nat)
    requires Indexed(t) && j < k <= |t.patterns| && Reported(kind, t.patterns[j], host)
    ensures Lookup(t.ranges, j).value in MatchAc(t, kind, host, k)
  {
    if j < k - 1 {
      AcTo(t, kind, host, k - 1, j);
    }
  }

  /** A compiled table holds the patterns of its kind, each under the handle of its run. */
  lemma TableAt(lines: seq<Line>, kind: DomainKind, j: nat)
    requires j < |Select(lines, kind)|
    ensures |Table(lines, kind).patterns| == |Select(lines, kind)|
    ensures Table(lines, kind).patterns[j] == Select(lines, kind)[j].text
    ensures Lookup(Table(lines, kind).ranges, j) == Some(PatternHandle(lines, kind, j))
  {
    RangesIndex(Select(lines, kind));
  }

  // Line `i` matches a host name given without its trailing dot.
  predicate DomainHit(lines: seq<Line>, i: nat, host: Name) {
    i < |lines| && lines[i].DomainRule? && Means(lines[i].kind, lines[i].pattern, host)
  }

  lemma KindFrom(lines: seq<Line>, kind: DomainKind, host: Name, h: RuleHandle) returns (i: nat)
    requires Indexed(Table(lines, kind))
    requires h in MatchAc(Table(lines, kind), kind, host, |Table(lines, kind).patterns|)
    ensures DomainHit(lines, i, host) && Stored(lines, i) == h
  {
    var t := Table(lines, kind);
    var j := AcFrom(t, kind, host, |t.patterns|, h);
    ReportedMeans(kind, t.patterns[j], host);
    TableAt(lines, kind, j);
    SelectBack(lines, kind, j);
    i := Select(lines, kind)[j].id - 1;
  }

  lemma KindTo(lines: seq<Line>, host: Name, i: nat)
    requires DomainHit(lines, i, host) && Indexed(Table(lines, lines[i].kind))
    ensures var t := Table(lines, lines[i].kind);
      Stored(lines, i) in MatchAc(t, lines[i].kind, host, |t.patterns|)
  {
    var kind, j := lines[i].kind, |Select(lines[..i], lines[i].kind)|;
    SelectAt(lines, i);
    TableAt(lines, kind, j);
    ReportedMeans(kind, lines[i].pattern, host);
    AcTo(Table(lines, kind), kind, host, |Table(lines, kind).patterns|, j);
  }

  /** Every handle a domain match produces is the stored handle of a matching line, ... */
  lemma DomainFrom(lines: seq<Line>, hasGeoDb: bool, domain: Name, h: RuleHandle) returns (i: nat)
    requires Sound(Compile(lines, hasGeoDb))
    requires h in MatchDomainImpl(Compile(lines, hasGeoDb), domain)
    ensures DomainHit(lines, i, StripDot(domain)) && Stored(lines, i) == h
  {
    var kind := KindOf(Compile(lines, hasGeoDb), domain, h);
    CompiledTable(lines, hasGeoDb, kind);
    i := KindFrom(lines, kind, StripDot(domain), h);
  }

  function TableOf(rs: RuleSet, kind: DomainKind): AcTable {
    match kind case Full => rs.full case Suffix => rs.suffix case Keyword => rs.keyword
  }

  lemma KindOf(rs: RuleSet, domain: Name, h: RuleHandle) returns (kind: DomainKind)
    requires Sound(rs) && h in MatchDomainImpl(rs, domain)
    ensures h in MatchAc(TableOf(rs, kind), kind, StripDot(domain), |TableOf(rs, kind).patterns|)
  {
    var host := StripDot(domain);
    kind := if h in MatchAc(rs.full, Full, host, |rs.full.patterns|) then Full
      else if h in MatchAc(rs.suffix, Suffix, host, |rs.suffix.patterns|) then Suffix
      else Keyword;
  }

  lemma KindIn(rs: RuleSet, domain: Name, kind: DomainKind, h: RuleHandle)
    requires Sound(rs)
    requires h in MatchAc(TableOf(rs, kind), kind, StripDot(domain), |TableOf(rs, kind).patterns|)
    ensures h in MatchDomainImpl(rs, domain)
  {
  }

  /** ... and the stored handle of every matching line is produced. */
  lemma DomainTo(lines: seq<Line>, hasGeoDb: bool, domain: Name, i: nat)
    requires Sound(Compile(lines, hasGeoDb)) && DomainHit(lines, i, StripDot(domain))
    ensures Stored(lines, i) in MatchDomainImpl(Compile(lines, hasGeoDb), domain)
  {
    var rs := Compile(lines, hasGeoDb);
    CompiledTable(lines, hasGeoDb, lines[i].kind);
    KindTo(lines, StripDot(domain), i);
    KindIn(rs, domain, lines[i].kind, Stored(lines, i));
  }

  lemma CompiledTable(lines: seq<Line>, hasGeoDb: bool, kind: DomainKind)
    ensures TableOf(Compile(lines, hasGeoDb), kind) == Table(lines, kind)
  {
  }

  function EntryOf(lines: seq<Line>, i: nat): IpEntry
    requires i < |lines| && lines[i].IpRule?
  {
    IpEntry(lines[i].ipSet, NewHandle(lines[i].iAction, i + 1))
  }

  lemma {:induction false} SelectIpFrom(lines: seq<Line>, kind: IpKind, e: IpEntry) returns (i: nat)
    requires e in SelectIp(lines, kind)
    ensures i < |lines| && lines[i].IpRule? && lines[i].ipSet.Kind() == kind && EntryOf(lines, i) == e
  {
    var n := |lines| - 1;
    if e in SelectIp(lines[..n], kind) {
      i := SelectIpFrom(lines[..n], kind, e);
    } else {
      i := n;
    }
  }

  lemma {:induction false} SelectIpTo(lines: seq<Line>, kind: IpKind, i: nat)
    requires i < |lines| && lines[i].IpRule? && lines[i].ipSet.Kind() == kind
    ensures EntryOf(lines, i) in SelectIp(lines, kind)
  {
    var n := |lines| - 1;
    if i < n {
      SelectIpTo(lines[..n], kind, i);
    }
  }

  lemma {:induction false} LinearFrom(t: seq<IpEntry>, ip: nat, h: RuleHandle) returns (e: IpEntry)
    requires h in Linear(t, ip)
    ensures e in t && Block(e).Contains(ip) && e.handle == h
  {
    if Block(t[0]).Contains(ip) && t[0].handle == h {
      e := t[0];
    } else {
      e := LinearFrom(t[1..], ip, h);
    }
  }

  lemma {:induction false} LinearTo(t: seq<IpEntry>, ip: nat, e: IpEntry)
    requires e in t && Block(e).Contains(ip)
    ensures e.handle in Linear(t, ip)
  {
    if e != t[0] {
      LinearTo(t[1..], ip, e);
    }
  }

  predicate NetHit(lines: seq<Line>, i: nat, kind: IpKind, ip: nat) {
    && i < |lines| && lines[i].IpRule? && lines[i].ipSet.Kind() == kind != Country
    && Block(EntryOf(lines, i)).Contains(ip)
  }

  /** Every handle an address lookup produces is that of a line whose block holds the address, ... */
  lemma NetFrom(search: Search, lines: seq<Line>, kind: IpKind, ip: nat, h: RuleHandle) returns (i: nat)
    requires kind != Country && h in MatchIpRules(search, NetTable(lines, kind), ip)
    ensures NetHit(lines, i, kind, ip) && Stored(lines, i) == h
    ensures Reaches(search, NetTable(lines, kind), ip, EntryOf(lines, i))
  {
    var t := NetTable(lines, kind);
    var e := ReachedFrom(search, t, ip, h);
    assert e in multiset(t);
    i := SelectIpFrom(lines, kind, e);
  }

  lemma ReachedFrom(search: Search, t: seq<IpEntry>, ip: nat, h: RuleHandle) returns (e: IpEntry)
    requires h in MatchIpRules(search, t, ip)
    ensures e in t && Reaches(search, t, ip, e) && Block(e).Contains(ip) && e.handle == h
  {
    var idx := search(t, ip);
    assert Boundary(t, ip, idx);
    LookupSound(t[idx..], ip);
    var k :| 0 <= k < |t[idx..]| && Block(t[idx..][k]).Contains(ip) && t[idx..][k].handle == h;
    e := t[idx..][k];
    assert t[idx + k] == e;
  }

  /** ... and such a line's handle is produced if the search starts no later than at its entry, ... */
  lemma NetTo(search: Search, lines: seq<Line>, kind: IpKind, ip: nat, i: nat)
    requires NetHit(lines, i, kind, ip) && Reaches(search, NetTable(lines, kind), ip, EntryOf(lines, i))
    ensures Stored(lines, i) in MatchIpRules(search, NetTable(lines, kind), ip)
  {
    ReachedTo(search, NetTable(lines, kind), ip, EntryOf(lines, i));
  }

  lemma ReachedTo(search: Search, t: seq<IpEntry>, ip: nat, e: IpEntry)
    requires Sorted(t) && Reaches(search, t, ip, e) && Block(e).Contains(ip)
    ensures e.handle in MatchIpRules(search, t, ip)
  {
    var idx := search(t, ip);
    assert Boundary(t, ip, idx);
    TakesAll(t[idx..], ip);
    var k :| idx <= k < |t| && t[k] == e;
    assert t[idx..][k - idx] == e;
    LinearTo(t[idx..], ip, e);
  }

  /** ... as it does for all of them when the blocks' last addresses ascend. */
  lemma AscendingReached(search: Search, lines: seq<Line>, kind: IpKind, ip: nat, i: nat)
    requires LastsAscend(NetTable(lines, kind)) && NetHit(lines, i, kind, ip)
    ensures Reaches(search, NetTable(lines, kind), ip, EntryOf(lines, i))
  {
    var t, e := NetTable(lines, kind), EntryOf(lines, i);
    SelectIpTo(lines, kind, i);
    assert e in multiset(t);
    AscendingReaches(search, t, ip, e);
  }

  lemma AscendingReaches(search: Search, t: seq<IpEntry>, ip: nat, e: IpEntry)
    requires LastsAscend(t) && e in t && Block(e).Contains(ip)
    ensures Reaches(search, t, ip, e)
  {
    AscendingClears(t, ip, search(t, ip));
    var k :| 0 <= k < |t| && t[k] == e;
  }

  predicate CodeHit(lines: seq<Line>, i: nat, code: Name) {
    i < |lines| && lines[i].IpRule? && lines[i].ipSet == Code(code)
  }

  /** The country table produces one handle, that of the first rule for the code, if there is one. */
  lemma {:induction false} CodeFrom(lines: seq<Line>, code: Name) returns (i: nat)
    ensures var q := GeoQuery(SelectIp(lines, Country), Some(code));
      if CodeHit(lines, i, code) then q == [Stored(lines, i)] else q == []
    ensures forall j: nat :: j < i ==> !CodeHit(lines, j, code)
    ensures i >= |lines| || CodeHit(lines, i, code)
  {
    i := 0;
    if lines != [] {
      var n := |lines| - 1;
      i := CodeFrom(lines[..n], code);
      forall j: nat | j < i && j < n ensures !CodeHit(lines, j, code) {
        assert !CodeHit(lines[..n], j, code);
      }
      if lines[n].IpRule? && lines[n].ipSet.Kind() == Country {
        GeoQueryAppend(SelectIp(lines[..n], Country), EntryOf(lines, n), code);
      }
      if i >= n {
        i := if CodeHit(lines, n, code) then n else n + 1;
      }
    }
  }

  lemma {:induction false} GeoQueryAppend(t: seq<IpEntry>, e: IpEntry, code: Name)
    ensures GeoQuery(t + [e], Some(code)) ==
      if GeoQuery(t, Some(code)) != [] then GeoQuery(t, Some(code))
      else if e.ipSet == Code(code) then [e.handle] else []
  {
    if t != [] {
      GeoQueryAppend(t[1..], e, code);
      assert (t + [e])[1..] == t[1..] + [e];
    }
  }
}
