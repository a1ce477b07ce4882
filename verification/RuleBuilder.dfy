// The compiler from a rule file to match tables.
module RuleBuilder {
  import opened Flow
  import opened RuleLines

  // Patterns `lo..hi` of a table share one handle.
  datatype IdRange = IdRange(lo: nat, hi: nat, handle: RuleHandle)

  datatype AcTable = AcTable(patterns: seq<Name>, ranges: seq<IdRange>)

  datatype IpEntry = IpEntry(ipSet: IpSet, handle: RuleHandle)

  datatype RuleSet = RuleSet(
    full: AcTable, suffix: AcTable, keyword: AcTable,
    net4: seq<IpEntry>, net6: seq<IpEntry>, geo: Option<seq<IpEntry>>,
    final: Option<RuleHandle>, firstResolving: Option<RuleId>)

  // A pattern of one domain table with the line it came from.
  datatype Pattern = Pattern(text: Name, action: ActionHandle, id: RuleId)

  // The patterns of one table, in file order.
  function Select(lines: seq<Line>, kind: DomainKind): (r: seq<Pattern>)
    ensures |r| <= |lines|
  {
    if lines == [] then [] else
    var n := |lines| - 1;
    var before, line := Select(lines[..n], kind), lines[n];
    if line.DomainRule? && line.kind == kind
    then before + [Pattern(line.pattern, line.dAction, n + 1)]
    else before
  }

  function Texts(pats: seq<Pattern>): (r: seq<Name>)
    ensures |r| == |pats| && forall i :: 0 <= i < |pats| ==> r[i] == pats[i].text
  {
    if pats == [] then [] else Texts(pats[..|pats| - 1]) + [pats[|pats| - 1].text]
  }

  function PushRange(ranges: seq<IdRange>, idx: nat, handle: RuleHandle): seq<IdRange> {
    if ranges != [] && ranges[|ranges| - 1].handle.Action() == handle.Action() then
      var last := ranges[|ranges| - 1];
      ranges[..|ranges| - 1] + [last.(hi := if last.hi > idx + 1 then last.hi else idx + 1)]
    else ranges + [IdRange(idx, idx + 1, handle)]
  }

  function Ranges(pats: seq<Pattern>): seq<IdRange> {
    if pats == [] then [] else
    var n := |pats| - 1;
    PushRange(Ranges(pats[..n]), n, NewHandle(pats[n].action, pats[n].id))
  }

  // The first line of the run of equal actions that pattern `k` belongs to: the id that is stored.
  function RunStart(pats: seq<Pattern>, k: nat): RuleId
    requires k < |pats|
  {
    if k > 0 && pats[k - 1].action == pats[k].action then RunStart(pats, k - 1) else pats[k].id
  }

  // The handle of the first range that holds pattern `k`; None is the lookup's panic.
  function Lookup(ranges: seq<IdRange>, k: nat): Option<RuleHandle> {
    if ranges == [] then None
    else if ranges[0].lo <= k < ranges[0].hi then Some(ranges[0].handle)
    else Lookup(ranges[1..], k)
  }

  // Ranges that follow one another without gap from `lo` to `hi`.
  ghost predicate Contiguous(ranges: seq<IdRange>, lo: nat, hi: nat) {
    if ranges == [] then lo == hi else
    ranges[0].lo == lo < ranges[0].hi && Contiguous(ranges[1..], ranges[0].hi, hi)
  }

  /** After any build the ranges are contiguous and cover exactly the patterns; the lookup of any
      pattern succeeds and yields its own action under the id that starts its run. */
  lemma {:induction false} RangesIndex(pats: seq<Pattern>)
    ensures Contiguous(Ranges(pats), 0, |pats|)
    ensures forall k :: 0 <= k < |pats| ==>
      Lookup(Ranges(pats), k) == Some(NewHandle(pats[k].action, RunStart(pats, k)))
  {
    if pats != [] {
      var n := |pats| - 1;
      var before, handle := Ranges(pats[..n]), NewHandle(pats[n].action, pats[n].id);
      RangesIndex(pats[..n]);
      PushKeeps(before, 0, n, handle);
      forall k | 0 <= k < |pats|
        ensures Lookup(Ranges(pats), k) == Some(NewHandle(pats[k].action, RunStart(pats, k)))
      {
        if k < n {
          RunStartPrefix(pats, n, k);
          assert Lookup(before, k) == Some(NewHandle(pats[..n][k].action, RunStart(pats[..n], k)));
        } else {
          NewestLookup(pats, before, n);
        }
      }
    }
  }

  // The handle of the pattern pushed last, in terms of the run it joins or starts.
  lemma NewestLookup(pats: seq<Pattern>, before: seq<IdRange>, n: nat)
    requires n + 1 == |pats| && Contiguous(before, 0, n)
    requires n > 0 ==>
      Lookup(before, n - 1) == Some(NewHandle(pats[n - 1].action, RunStart(pats[..n], n - 1)))
    ensures var handle := NewHandle(pats[n].action, pats[n].id);
      Lookup(PushRange(before, n, handle), n) == Some(NewHandle(pats[n].action, RunStart(pats, n)))
  {
    PushKeeps(before, 0, n, NewHandle(pats[n].action, pats[n].id));
    if n > 0 {
      LastLookup(before, 0, n);
      RunStartPrefix(pats, n, n - 1);
    } else {
      ContiguousGrows(before, 0, 0);
    }
  }

  lemma {:induction false} RunStartPrefix(pats: seq<Pattern>, n: nat, k: nat)
    requires k < n <= |pats|
    ensures RunStart(pats[..n], k) == RunStart(pats, k)
  {
    if k > 0 {
      RunStartPrefix(pats, n, k - 1);
    }
  }

  lemma {:induction false} LastLookup(ranges: seq<IdRange>, lo: nat, hi: nat)
    requires lo < hi && Contiguous(ranges, lo, hi)
    ensures ranges != [] && ranges[|ranges| - 1].hi == hi
    ensures Lookup(ranges, hi - 1) == Some(ranges[|ranges| - 1].handle)
  {
    if |ranges| > 1 {
      var mid := ranges[0].hi;
      assert ranges[1..] != [] && mid == ranges[1].lo;
      ContiguousGrows(ranges[1..], mid, hi);
      LastLookup(ranges[1..], mid, hi);
    }
  }

  lemma {:induction false} ContiguousGrows(ranges: seq<IdRange>, lo: nat, hi: nat)
    requires Contiguous(ranges, lo, hi)
    ensures lo <= hi && (ranges != [] ==> lo < hi)
    ensures forall k: nat :: k < lo || k >= hi ==> Lookup(ranges, k) == None
  {
    if ranges != [] {
      ContiguousGrows(ranges[1..], ranges[0].hi, hi);
    }
  }

  lemma {:induction false} PushKeeps(ranges: seq<IdRange>, lo: nat, n: nat, handle: RuleHandle)
    requires lo <= n && Contiguous(ranges, lo, n)
    ensures Contiguous(PushRange(ranges, n, handle), lo, n + 1)
    ensures forall k :: lo <= k < n ==>
      Lookup(PushRange(ranges, n, handle), k) == Lookup(ranges, k)
    ensures Lookup(PushRange(ranges, n, handle), n) == Some(
      if ranges != [] && ranges[|ranges| - 1].handle.Action() == handle.Action()
      then ranges[|ranges| - 1].handle else handle)
  {
    var pushed := PushRange(ranges, n, handle);
    if ranges == [] {
      assert pushed[1..] == [];
    } else if |ranges| == 1 {
      assert ranges[1..] == [];
      if ranges[0].handle.Action() == handle.Action() {
        assert pushed[1..] == [];
      } else {
        assert pushed[1..] == [IdRange(n, n + 1, handle)] && pushed[1..][1..] == [];
      }
    } else {
      ContiguousGrows(ranges[1..], ranges[0].hi, n);
      assert ranges[1..][|ranges| - 2] == ranges[|ranges| - 1];
      PushKeeps(ranges[1..], ranges[0].hi, n, handle);
      assert pushed[0] == ranges[0] && pushed[1..] == PushRange(ranges[1..], n, handle);
    }
  }

  // The address rules of one kind, in file order.
  function SelectIp(lines: seq<Line>, kind: IpKind): seq<IpEntry> {
    if lines == [] then [] else
    var n := |lines| - 1;
    var before, line := SelectIp(lines[..n], kind), lines[n];
    if line.IpRule? && line.ipSet.Kind() == kind
    then before + [IpEntry(line.ipSet, NewHandle(line.iAction, n + 1))]
    else before
  }

  // The least id of a rule that needs resolved addresses.
  function FirstResolving(lines: seq<Line>): (r: Option<RuleId>)
    ensures r.Some? ==> 0 < r.value <= |lines| && lines[r.value - 1].Resolving()
    ensures forall i :: 0 <= i < |lines| && lines[i].Resolving() ==> r.Some? && r.value <= i + 1
  {
    if lines == [] then None else
    var n := |lines| - 1;
    var before := FirstResolving(lines[..n]);
    if before.Some? then before
    else if lines[n].Resolving() then Some(n + 1) else None
  }

  function FirstFinal(lines: seq<Line>): (r: Option<nat>)
    ensures r.Some? ==> r.value < |lines| && lines[r.value].FinalRule?
    ensures forall i :: 0 <= i < |lines| && lines[i].FinalRule? ==> r.Some? && r.value <= i
  {
    if lines == [] then None else
    var n := |lines| - 1;
    var before := FirstFinal(lines[..n]);
    if before.Some? then before
    else if lines[n].FinalRule? then Some(n) else None
  }

  // `sort_by_key(|(cidr, handle)| (*cidr, handle.rule_id()))`: blocks are ordered by network
  // address, then by prefix length, which puts the larger of two blocks first.
  predicate Before(a: IpEntry, b: IpEntry) {
    var x, y := Block(a), Block(b);
    x.first < y.first || (x.first == y.first &&
      (x.last > y.last || (x.last == y.last && a.handle.Id() <= b.handle.Id())))
  }

  // The block of an entry; country entries, which are never sorted, have none.
  function Block(e: IpEntry): Cidr {
    match e.ipSet case Block4(b) => b case Block6(b) => b case Code(_) => AddressRange(0, 0)
  }

  ghost predicate Sorted(t: seq<IpEntry>) {
    forall i, j :: 0 <= i < j < |t| ==> Before(t[i], t[j])
  }

  function Sort(t: seq<IpEntry>): seq<IpEntry> {
    if t == [] then [] else Insert(Sort(t[..|t| - 1]), t[|t| - 1])
  }

  // Behind every entry that is not greater, so that equal keys keep their order.
  function Insert(t: seq<IpEntry>, e: IpEntry): (r: seq<IpEntry>)
    ensures |r| == |t| + 1 && (r[0] == e || (t != [] && r[0] == t[0]))
  {
    if t == [] || !Before(t[0], e) then [e] + t else [t[0]] + Insert(t[1..], e)
  }

  lemma {:induction false} SortSorts(t: seq<IpEntry>)
    ensures Sorted(Sort(t)) && multiset(Sort(t)) == multiset(t)
  {
    if t != [] {
      var n := |t| - 1;
      SortSorts(t[..n]);
      InsertSorts(Sort(t[..n]), t[n]);
      assert t == t[..n] + [t[n]];
    }
  }

  lemma {:induction false} InsertSorts(t: seq<IpEntry>, e: IpEntry)
    requires Sorted(t)
    ensures Sorted(Insert(t, e)) && multiset(Insert(t, e)) == multiset(t) + multiset{e}
  {
    if t != [] && Before(t[0], e) {
      InsertSorts(t[1..], e);
      SortedCons(t[0], Insert(t[1..], e));
      assert t == [t[0]] + t[1..];
    } else if t != [] {
      SortedCons(e, t);
    }
  }

  lemma SortedCons(e: IpEntry, t: seq<IpEntry>)
    requires Sorted(t) && (t != [] ==> Before(e, t[0]))
    ensures Sorted([e] + t)
  {
    forall i, j | 0 <= i < j < |[e] + t| ensures Before(([e] + t)[i], ([e] + t)[j]) {
      if i == 0 && j > 1 {
        assert Before(t[0], t[j - 1]);
      }
    }
  }

  function Table(lines: seq<Line>, kind: DomainKind): AcTable {
    AcTable(Texts(Select(lines, kind)), Ranges(Select(lines, kind)))
  }

  // The sorted table of one address family.
  function NetTable(lines: seq<Line>, kind: IpKind): (r: seq<IpEntry>)
    ensures Sorted(r) && multiset(r) == multiset(SelectIp(lines, kind))
  {
    SortSorts(SelectIp(lines, kind));
    Sort(SelectIp(lines, kind))
  }

  function FinalRuleOf(lines: seq<Line>): Option<RuleHandle> {
    var final := FirstFinal(lines);
    if final.None? then None else Some(NewHandle(lines[final.value].fAction, final.value + 1))
  }

  // The rule set `load_quanx_filter` builds; `hasGeoDb` says whether a GeoIP database is given.
  function Compile(lines: seq<Line>, hasGeoDb: bool): RuleSet {
    RuleSet(
      Table(lines, Full), Table(lines, Suffix), Table(lines, Keyword),
      NetTable(lines, Net4), NetTable(lines, Net6),
      if hasGeoDb then Some(SelectIp(lines, Country)) else None,
      FinalRuleOf(lines), FirstResolving(lines))
  }

  /** The range list of one table while it is being built. */
  class RangeList {
    var ranges: seq<IdRange>

    constructor ()
      ensures ranges == []
    {
      ranges := [];
    }

    method PushIdRangeHandleIntoSorted(idx: nat, handle: RuleHandle)
      modifies this
      ensures ranges == PushRange(old(ranges), idx, handle)
    {
      if ranges != [] && ranges[|ranges| - 1].handle.Action() == handle.Action() {
        var last := ranges[|ranges| - 1];
        var end := if last.hi > idx + 1 then last.hi else idx + 1;
        ranges := ranges[|ranges| - 1 := last.(hi := end)];
        return;
      }
      ranges := ranges + [IdRange(idx, idx + 1, handle)];
    }
  }

  method BuildAcFromLineSegs(lines: seq<Line>, kind: DomainKind, ruleRanges: RangeList)
    returns (patterns: seq<Name>)
    requires ruleRanges.ranges == []
    modifies ruleRanges
    ensures AcTable(patterns, ruleRanges.ranges) == Table(lines, kind)
  {
    patterns := [];
    ghost var pats: seq<Pattern> := [];
    for i := 0 to |lines|
      invariant pats == Select(lines[..i], kind)
      invariant patterns == Texts(pats) && ruleRanges.ranges == Ranges(pats)
    {
      SelectStep(lines, i, kind);
      match lines[i] {
        case DomainRule(k, pattern, action) =>
          if k == kind {
            ghost var p := Pattern(pattern, action, i + 1);
            OneMorePattern(pats, p);
            ruleRanges.PushIdRangeHandleIntoSorted(|patterns|, NewHandle(action, i + 1));
            patterns, pats := patterns + [pattern], pats + [p];
          }
        case _ =>
      }
    }
    assert lines[..|lines|] == lines;
  }

  lemma SelectStep(lines: seq<Line>, i: nat, kind: DomainKind)
    requires i < |lines|
    ensures Select(lines[..i + 1], kind) == Select(lines[..i], kind) +
      match lines[i]
      case DomainRule(k, text, action) => if k == kind then [Pattern(text, action, i + 1)] else []
      case _ => []
  {
    assert lines[..i + 1][..i] == lines[..i];
  }

  lemma OneMorePattern(pats: seq<Pattern>, p: Pattern)
    ensures Texts(pats + [p]) == Texts(pats) + [p.text]
    ensures Ranges(pats + [p]) == PushRange(Ranges(pats), |pats|, NewHandle(p.action, p.id))
  {
    assert (pats + [p])[..|pats|] == pats && (pats + [p])[|pats|] == p;
  }

  // Lowers the accumulated id to that of a resolving rule, as the builder's last stage does.
  function Lower(first: Option<RuleId>, id: RuleId): Option<RuleId> {
    Some(if first.Some? && first.value < id then first.value else id)
  }

  // The accumulator after one pass over the rules of a kind.
  function FirstOfKind(lines: seq<Line>, kind: IpKind, first: Option<RuleId>): (r: Option<RuleId>)
    ensures first.Some? ==> r.Some? && r.value <= first.value
    ensures forall i ::
      0 <= i < |lines| && lines[i].Resolving() && lines[i].ipSet.Kind() == kind ==>
      r.Some? && r.value <= i + 1
    ensures r == first ||
      (r.Some? && 0 < r.value <= |lines| && lines[r.value - 1].Resolving()
       && lines[r.value - 1].ipSet.Kind() == kind)
  {
    if lines == [] then first else
    var n := |lines| - 1;
    var before := FirstOfKind(lines[..n], kind, first);
    if lines[n].Resolving() && lines[n].ipSet.Kind() == kind then Lower(before, n + 1) else before
  }

  method BuildIpRulesFromLineSegs(lines: seq<Line>, kind: IpKind, first: Option<RuleId>)
    returns (rules: seq<IpEntry>, firstResolving: Option<RuleId>)
    ensures rules == SelectIp(lines, kind)
    ensures firstResolving == FirstOfKind(lines, kind, first)
  {
    rules, firstResolving := [], first;
    for i := 0 to |lines|
      invariant rules == SelectIp(lines[..i], kind)
      invariant firstResolving == FirstOfKind(lines[..i], kind, first)
    {
      assert lines[..i + 1][..i] == lines[..i];
      match lines[i] {
        case IpRule(ipSet, action, noResolve) =>
          if ipSet.Kind() == kind {
            if !noResolve {
              firstResolving := Lower(firstResolving, i + 1);
            }
            rules := rules + [IpEntry(ipSet, NewHandle(action, i + 1))];
          }
        case _ =>
      }
    }
    assert lines[..|lines|] == lines;
  }

  /** Three passes share the accumulator; it ends at the least id of all resolving rules. */
  lemma ThreePasses(lines: seq<Line>)
    ensures FirstOfKind(lines, Country, FirstOfKind(lines, Net6, FirstOfKind(lines, Net4, None)))
      == FirstResolving(lines)
  {
    var a := FirstOfKind(lines, Net4, None);
    var b := FirstOfKind(lines, Net6, a);
    var c := FirstOfKind(lines, Country, b);
    var r := FirstResolving(lines);
    if r.Some? {
      assert lines[r.value - 1].Resolving();
      assert c.Some? && c.value <= r.value;
    }
    if c.Some? {
      assert lines[c.value - 1].Resolving();
    }
  }

  // One table with its own range list.
  method BuildTable(lines: seq<Line>, kind: DomainKind) returns (t: AcTable)
    ensures t == Table(lines, kind)
  {
    var ranges := new RangeList();
    var patterns := BuildAcFromLineSegs(lines, kind, ranges);
    t := AcTable(patterns, ranges.ranges);
  }

  method LoadQuanxFilter(lines: seq<Line>, hasGeoDb: bool) returns (rs: RuleSet)
    ensures rs == Compile(lines, hasGeoDb)
  {
    var full := BuildTable(lines, Full);
    var sub := BuildTable(lines, Suffix);
    var keyword := BuildTable(lines, Keyword);
    var net4, first := BuildIpRulesFromLineSegs(lines, Net4, None);
    var net6, geo;
    net6, first := BuildIpRulesFromLineSegs(lines, Net6, first);
    geo, first := BuildIpRulesFromLineSegs(lines, Country, first);
    ThreePasses(lines);
    rs := RuleSet(
      full, sub, keyword, Sort(net4), Sort(net6), if hasGeoDb then Some(geo) else None,
      FinalRuleOf(lines), first);
  }
}
