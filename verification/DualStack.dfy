// Resolution order and the racing dial of a dual-stack destination, after RFC 8305.
module DualStack {
  import opened Flow

  datatype Addr = V4(v4: nat) | V6(v6: nat)

  type Answer = Result<seq<Addr>, FlowError>

  // ---- the order in which addresses are sent ----

  /** One run of `resolve_dual_stack_ips`: which family answers first, whether the 50 ms timer fires
      before the later IPv6 answer, and after how many sends of the first family the other answer
      wins the select against the send in flight (if the list is not exhausted by then). */
  datatype Schedule = Schedule(v6First: bool, timerFirst: bool, winAt: nat)

  function Sent(a: Answer): seq<Addr> {
    if a.Ok? then a.value else []
  }

  // itertools' `interleave`: alternates, starting with `a`, until both run out.
  function Interleave(a: seq<Addr>, b: seq<Addr>): (r: seq<Addr>)
    ensures |r| == |a| + |b|
    decreases |a| + |b|
  {
    if a == [] then b else [a[0]] + Interleave(b, a[1..])
  }

  function OneFirst(first: Answer, other: Answer, winAt: nat): seq<Addr> {
    match first
    case Err(_) => Sent(other)
    case Ok(a) =>
      if other.Ok? && winAt < |a| then a[..winAt] + Interleave(other.value, a[winAt + 1..])
      else a + Sent(other)
  }

  // What a receiver that stays open is sent.
  function Emission(v6: Answer, v4: Answer, s: Schedule): seq<Addr> {
    if s.v6First then OneFirst(v6, v4, s.winAt)
    else if v4.Ok? && !s.timerFirst then Interleave(Sent(v6), v4.value)
    else OneFirst(v4, v6, s.winAt)
  }

  // The address in flight when the other family's answer won the select, if that happened.
  function Dropped(v6: Answer, v4: Answer, s: Schedule): Option<Addr> {
    var (first, other) := if s.v6First then (v6, v4) else (v4, v6);
    if (s.v6First || s.timerFirst) && first.Ok? && other.Ok? && s.winAt < |first.value|
    then Some(first.value[s.winAt]) else None
  }

  predicate WellTagged(v6: Answer, v4: Answer) {
    && (v6.Ok? ==> forall i :: 0 <= i < |v6.value| ==> v6.value[i].V6?)
    && (v4.Ok? ==> forall i :: 0 <= i < |v4.value| ==> v4.value[i].V4?)
  }

  function Family(s: seq<Addr>, six: bool): seq<Addr> {
    if s == [] then []
    else (if s[0].V6? == six then [s[0]] else []) + Family(s[1..], six)
  }

  lemma {:induction false} FamilyAppend(s: seq<Addr>, t: seq<Addr>, six: bool)
    ensures Family(s + t, six) == Family(s, six) + Family(t, six)
  {
    if s == [] {
      assert s + t == t;
    } else {
      FamilyAppend(s[1..], t, six);
      assert (s + t)[0] == s[0] && (s + t)[1..] == s[1..] + t;
      var head := if s[0].V6? == six then [s[0]] else [];
      assert head + (Family(s[1..], six) + Family(t, six)) == head + Family(s[1..], six) + Family(t, six);
    }
  }

  lemma {:induction false} FamilyOfOne(s: seq<Addr>, six: bool)
    requires forall i :: 0 <= i < |s| ==> s[i].V6? == six
    ensures Family(s, six) == s && Family(s, !six) == []
  {
    if s != [] {
      FamilyOfOne(s[1..], six);
    }
  }

  lemma {:induction false} InterleaveKeeps(a: seq<Addr>, b: seq<Addr>, six: bool)
    requires forall i :: 0 <= i < |a| ==> a[i].V6? == six
    requires forall i :: 0 <= i < |b| ==> b[i].V6? != six
    ensures Family(Interleave(a, b), six) == a && Family(Interleave(a, b), !six) == b
    decreases |a| + |b|
  {
    if a == [] {
      FamilyOfOne(b, !six);
    } else {
      InterleaveKeeps(b, a[1..], !six);
      assert Interleave(a, b)[1..] == Interleave(b, a[1..]);
    }
  }

  // A list with the entry at `k` left out.
  function Without(s: seq<Addr>, k: nat): seq<Addr>
    requires k < |s|
  {
    s[..k] + s[k + 1..]
  }

  lemma OneFirstKeeps(first: Answer, other: Answer, winAt: nat, six: bool)
    requires first.Ok? ==> forall i :: 0 <= i < |first.value| ==> first.value[i].V6? == six
    requires other.Ok? ==> forall i :: 0 <= i < |other.value| ==> other.value[i].V6? != six
    ensures var out := OneFirst(first, other, winAt);
      && Family(out, !six) == Sent(other)
      && Family(out, six) == if first.Ok? && other.Ok? && winAt < |first.value|
           then Without(first.value, winAt) else Sent(first)
  {
    FamilyOfOne(Sent(other), !six);
    if first.Ok? {
      var a := first.value;
      if other.Ok? && winAt < |a| {
        WonKeeps(a, other.value, winAt, six);
      } else {
        WholeKeeps(a, Sent(other), six);
      }
    }
  }

  lemma WonKeeps(a: seq<Addr>, b: seq<Addr>, winAt: nat, six: bool)
    requires winAt < |a| && forall i :: 0 <= i < |a| ==> a[i].V6? == six
    requires forall i :: 0 <= i < |b| ==> b[i].V6? != six
    ensures var out := a[..winAt] + Interleave(b, a[winAt + 1..]);
      Family(out, !six) == b && Family(out, six) == Without(a, winAt)
  {
    InterleaveKeeps(b, a[winAt + 1..], !six);
    OwnThenRest(a[..winAt], Interleave(b, a[winAt + 1..]), six);
    assert [] + b == b;
  }

  lemma WholeKeeps(a: seq<Addr>, b: seq<Addr>, six: bool)
    requires forall i :: 0 <= i < |a| ==> a[i].V6? == six
    requires forall i :: 0 <= i < |b| ==> b[i].V6? != six
    ensures Family(a + b, !six) == b && Family(a + b, six) == a
  {
    FamilyOfOne(b, !six);
    OwnThenRest(a, b, six);
    assert a + [] == a && [] + b == b;
  }

  lemma OwnThenRest(own: seq<Addr>, rest: seq<Addr>, six: bool)
    requires forall i :: 0 <= i < |own| ==> own[i].V6? == six
    ensures Family(own + rest, six) == own + Family(rest, six)
    ensures Family(own + rest, !six) == [] + Family(rest, !six)
  {
    FamilyOfOne(own, six);
    FamilyAppend(own, rest, six);
    FamilyAppend(own, rest, !six);
  }

  /** Every schedule sends each family in its own order and no list entry twice: the family that
      answers later completely, the other completely except for the one entry in flight when the
      later answer wins. */
  lemma EmissionAccounts(v6: Answer, v4: Answer, s: Schedule)
    requires WellTagged(v6, v4)
    ensures var out, lost := Emission(v6, v4, s), Dropped(v6, v4, s);
      && Family(out, true) ==
           (if lost.Some? && s.v6First then Without(v6.value, s.winAt) else Sent(v6))
      && Family(out, false) ==
           (if lost.Some? && !s.v6First then Without(v4.value, s.winAt) else Sent(v4))
  {
    if s.v6First {
      OneFirstKeeps(v6, v4, s.winAt, true);
    } else if v4.Ok? && !s.timerFirst {
      InterleaveKeeps(Sent(v6), v4.value, true);
    } else {
      OneFirstKeeps(v4, v6, s.winAt, false);
    }
  }

  lemma {:induction false} FamilySplit(s: seq<Addr>)
    ensures multiset(s) == multiset(Family(s, true)) + multiset(Family(s, false))
  {
    if s != [] {
      FamilySplit(s[1..]);
      assert s == [s[0]] + s[1..];
    }
  }

  /** Exactly the dropped address is missing; all resolved addresses are sent if and only if no
      answer won the select against a send. */
  lemma AllSentIff(v6: Answer, v4: Answer, s: Schedule)
    requires WellTagged(v6, v4)
    ensures var out, lost := Emission(v6, v4, s), Dropped(v6, v4, s);
      && multiset(out) + AsMultiset(lost) == multiset(Sent(v6)) + multiset(Sent(v4))
      && (multiset(out) == multiset(Sent(v6)) + multiset(Sent(v4)) <==> lost.None?)
  {
    var out, lost := Emission(v6, v4, s), Dropped(v6, v4, s);
    EmissionAccounts(v6, v4, s);
    FamilySplit(out);
    if lost.Some? && s.v6First {
      PutBack(v6.value, s.winAt);
    } else if lost.Some? {
      PutBack(v4.value, s.winAt);
    }
    CountedApart(multiset(Family(out, true)), multiset(Family(out, false)),
      multiset(Sent(v6)), multiset(Sent(v4)), lost, s.v6First);
  }

  // Two collections that are complete but for one entry of either.
  lemma CountedApart(
      f: multiset<Addr>, g: multiset<Addr>, m: multiset<Addr>, n: multiset<Addr>,
      lost: Option<Addr>, inFirst: bool)
    requires f + (if inFirst then AsMultiset(lost) else multiset{}) == m
    requires g + (if inFirst then multiset{} else AsMultiset(lost)) == n
    ensures f + g + AsMultiset(lost) == m + n
    ensures f + g == m + n <==> lost.None?
  {
    if lost.Some? {
      assert (m + n)[lost.value] == (f + g)[lost.value] + 1;
    }
  }

  function AsMultiset(a: Option<Addr>): multiset<Addr> {
    if a.Some? then multiset{a.value} else multiset{}
  }

  lemma PutBack(s: seq<Addr>, k: nat)
    requires k < |s|
    ensures multiset(Without(s, k)) + multiset{s[k]} == multiset(s)
  {
    assert s == s[..k] + [s[k]] + s[k + 1..];
  }

  // The entries `2 * i` and `2 * i + 1` of a list that alternates, starting with `a`, while both last.
  predicate Alternates(out: seq<Addr>, a: seq<Addr>, b: seq<Addr>, i: nat) {
    |out| == |a| + |b| &&
    (i < |a| && i <= |b| ==> out[2 * i] == a[i] && (i < |b| ==> out[2 * i + 1] == b[i]))
  }

  /** While both families last, interleaved addresses alternate between them. */
  lemma {:induction false} InterleaveAlternates(a: seq<Addr>, b: seq<Addr>, i: nat)
    ensures Alternates(Interleave(a, b), a, b, i)
    decreases i
  {
    if i < |a| && i <= |b| {
      var rest := Interleave(b, a[1..]);
      if i > 0 {
        assert rest == [b[0]] + Interleave(a[1..], b[1..]);
        InterleaveAlternates(a[1..], b[1..], i - 1);
      } else if b != [] {
        assert rest[0] == b[0];
      }
    }
  }

  /** The order on the channel. An answer that wins a select is interleaved with what is left of
      the first family, starting with its own family; an IPv6 answer within the 50 ms is
      interleaved starting with IPv6; otherwise one family follows the other. */
  lemma EmissionOrder(v6: Answer, v4: Answer, s: Schedule, i: nat)
    ensures
      var (first, other) := if s.v6First then (v6, v4) else (v4, v6);
      var out := Emission(v6, v4, s);
      if Dropped(v6, v4, s).Some? then
        && out[..s.winAt] == first.value[..s.winAt]
        && Alternates(out[s.winAt..], other.value, first.value[s.winAt + 1..], i)
      else if !s.v6First && v4.Ok? && !s.timerFirst then Alternates(out, Sent(v6), v4.value, i)
      else out == Sent(first) + Sent(other)
  {
    var (first, other) := if s.v6First then (v6, v4) else (v4, v6);
    if Dropped(v6, v4, s).Some? {
      InterleaveAlternates(other.value, first.value[s.winAt + 1..], i);
      var rest := Interleave(other.value, first.value[s.winAt + 1..]);
      assert (first.value[..s.winAt] + rest)[s.winAt..] == rest;
    } else if !s.v6First && v4.Ok? && !s.timerFirst {
      InterleaveAlternates(Sent(v6), v4.value, i);
    }
  }

  // ---- sending the addresses ----

  /** The sending end of the channel; the receiver takes `room` more addresses before it is gone. */
  class Sender {
    var sent: seq<Addr>
    var room: nat

    constructor (room: nat)
      ensures sent == [] && this.room == room
    {
      sent, this.room := [], room;
    }

    method Send(ip: Addr) returns (ok: bool)
      modifies this
      ensures ok <==> old(room) > 0
      ensures ok ==> sent == old(sent) + [ip] && room == old(room) - 1
      ensures !ok ==> sent == old(sent) && room == 0
    {
      ok := room > 0;
      if ok {
        sent, room := sent + [ip], room - 1;
      }
    }

    // `for ip in ips { if ip_tx.send(ip).await.is_err() { return; } }`
    method SendAll(ips: seq<Addr>) returns (ok: bool)
      modifies this
      ensures ok <==> |ips| <= old(room)
      ensures sent == old(sent) + Fit(ips, old(room)) && room == old(room) - |Fit(ips, old(room))|
    {
      for i := 0 to |ips|
        invariant i <= old(room) && room == old(room) - i && sent == old(sent) + ips[..i]
      {
        ok := Send(ips[i]);
        if !ok {
          return;
        }
      }
      ok := true;
    }
  }

  // As much of a list as the receiver takes.
  function Fit(ips: seq<Addr>, room: nat): (r: seq<Addr>)
    ensures r <= ips && |r| <= room && (|r| < room ==> r == ips)
  {
    if |ips| <= room then ips else ips[..room]
  }

  lemma FitAppend(a: seq<Addr>, b: seq<Addr>, room: nat)
    ensures |a| <= room ==> Fit(a + b, room) == a + Fit(b, room - |a|)
    ensures |a| > room ==> Fit(a + b, room) == Fit(a, room)
  {
  }

  function Reversed(s: seq<Addr>): (r: seq<Addr>)
    ensures |r| == |s|
  {
    if s == [] then [] else Reversed(s[1..]) + [s[0]]
  }

  lemma {:induction false} ReversedAppend(s: seq<Addr>, ip: Addr)
    ensures Reversed(s + [ip]) == [ip] + Reversed(s)
  {
    if s != [] {
      ReversedAppend(s[1..], ip);
      assert (s + [ip])[1..] == s[1..] + [ip];
    }
  }

  lemma {:induction false} ReversedTwice(s: seq<Addr>)
    ensures Reversed(Reversed(s)) == s
  {
    if s != [] {
      ReversedTwice(s[1..]);
      ReversedAppend(Reversed(s[1..]), s[0]);
    }
  }

  lemma PopReversed(left: seq<Addr>)
    requires left != []
    ensures var stack := Reversed(left); var n := |stack| - 1;
      stack[n] == left[0] && stack[..n] == Reversed(left[1..])
  {
  }

  /** The loop that sends the first family while the other's answer is outstanding. `pending` is the
      list as it came; the loop pops from its reverse. The result says whether to go on with the
      other family: not if its answer was consumed here, nor if the receiver is gone. */
  method SendWhileWaiting(pending: seq<Addr>, other: Answer, winAt: nat, tx: Sender)
    returns (goOn: bool)
    modifies tx
    ensures goOn ==> tx.sent == old(tx.sent) + pending && tx.room == old(tx.room) - |pending|
    ensures goOn ==> !(other.Ok? && winAt < |pending|) && |pending| <= old(tx.room)
    ensures !goOn ==> tx.sent == old(tx.sent) + Fit(OneFirst(Ok(pending), other, winAt), old(tx.room))
  {
    var stack := Reversed(pending);
    ghost var was, room := tx.sent, tx.room;
    ghost var gone, left := [], pending;
    while |stack| > 0
      invariant gone + left == pending && stack == Reversed(left)
      invariant tx.sent == was + gone && tx.room == room - |gone| && |gone| <= room
      invariant other.Ok? ==> |gone| <= winAt
      decreases |stack|
    {
      PopReversed(left);
      var ip := stack[|stack| - 1];
      stack := stack[..|stack| - 1];
      if other.Ok? && |pending| - |stack| - 1 == winAt {
        WonSelect(was, pending, gone, left, other, winAt, room);
        SendMixed(stack, left[1..], other.value, tx);
        return false;
      }
      var ok := tx.Send(ip);
      if !ok {
        ClosedEarly(was, pending, gone, left, other, winAt, room);
        return false;
      }
      OneMoreSent(was, gone, left);
      gone, left := gone + [left[0]], left[1..];
    }
    goOn := true;
  }

  // The other answer won: it is interleaved with what is left on the stack.
  method SendMixed(stack: seq<Addr>, ghost left: seq<Addr>, other: seq<Addr>, tx: Sender)
    requires stack == Reversed(left)
    modifies tx
    ensures tx.sent == old(tx.sent) + Fit(Interleave(other, left), old(tx.room))
  {
    ReversedTwice(left);
    var _ := tx.SendAll(Interleave(other, Reversed(stack)));
  }

  lemma WonSelect(
      was: seq<Addr>, pending: seq<Addr>, gone: seq<Addr>, left: seq<Addr>, other: Answer,
      winAt: nat, room: nat)
    requires other.Ok? && left != [] && pending == gone + left && winAt == |gone| <= room
    ensures was + Fit(OneFirst(Ok(pending), other, winAt), room)
      == was + gone + Fit(Interleave(other.value, left[1..]), room - |gone|)
  {
    var mixed := Interleave(other.value, left[1..]);
    assert pending[..|gone|] == gone && pending[|gone| + 1..] == left[1..];
    FitAppend(gone, mixed, room);
    var tail := Fit(mixed, room - |gone|);
    assert was + (gone + tail) == was + gone + tail;
  }

  lemma OneMoreSent(was: seq<Addr>, gone: seq<Addr>, left: seq<Addr>)
    requires left != []
    ensures gone + [left[0]] + left[1..] == gone + left
    ensures was + gone + [left[0]] == was + (gone + [left[0]])
  {
  }

  lemma ClosedEarly(
      was: seq<Addr>, pending: seq<Addr>, gone: seq<Addr>, left: seq<Addr>, other: Answer,
      winAt: nat, room: nat)
    requires left != [] && (other.Ok? ==> room < winAt) && pending == gone + left && |gone| == room
    ensures was + Fit(OneFirst(Ok(pending), other, winAt), room) == was + gone
  {
    assert OneFirst(Ok(pending), other, winAt)[..room] == gone;
  }

  /** `resolve_dual_stack_ips` under a schedule: what arrives is the emission of that schedule, as
      far as the receiver takes it. */
  method ResolveDualStackIps(v6: Answer, v4: Answer, s: Schedule, tx: Sender)
    modifies tx
    ensures tx.sent == old(tx.sent) + Fit(Emission(v6, v4, s), old(tx.room))
  {
    if s.v6First {
      FirstThenOther(v6, v4, s.winAt, tx);
    } else if v4.Ok? && !s.timerFirst {
      var _ := tx.SendAll(Interleave(Sent(v6), v4.value));
    } else {
      FirstThenOther(v4, v6, s.winAt, tx);
    }
  }

  method FirstThenOther(first: Answer, other: Answer, winAt: nat, tx: Sender)
    modifies tx
    ensures tx.sent == old(tx.sent) + Fit(OneFirst(first, other, winAt), old(tx.room))
  {
    match first
    case Err(_) =>
      if other.Ok? {
        var _ := tx.SendAll(other.value);
      }
    case Ok(ips) =>
      var goOn := SendWhileWaiting(ips, other, winAt, tx);
      if goOn {
        FitAppend(ips, Sent(other), old(tx.room));
        if other.Ok? {
          var _ := tx.SendAll(other.value);
        }
      }
  }

  // ---- the racing dial ----

  // What the dial does, in order: it starts an attempt, or sees one end.
  datatype Event = Start(i: nat) | End(i: nat)

  /** The connection attempts of `dial_stream`: attempt `i` goes to the `i`-th address received and
      ends as `outcomes[i]`. Timeouts and the order in which attempts end are arbitrary. `observed`
      lists the attempts in the order in which their ends were seen. */
  method Race(outcomes: seq<Result<nat, FlowError>>)
    returns (
      ret: Result<nat, FlowError>, started: nat, observed: seq<nat>, ghost events: seq<Event>)
    ensures started <= |outcomes| && forall i :: i in observed ==> i < started
    ensures forall i, j :: 0 <= i < j < |observed| ==> observed[i] != observed[j]
    // it succeeds exactly when a success was observed, which is then the last thing it looked at
    ensures ret.Ok? <==> exists i :: i in observed && outcomes[i].Ok?
    ensures ret == Latest(outcomes, observed)
    // every attempt is started once, in order, and none after a success was seen
    ensures Starts(events) == seq(started, i => i) && Ends(events) == observed
    ensures ret.Ok? ==> events[|events| - 1] == End(observed[|observed| - 1])
    // it fails only when every address was tried and observed to fail
    ensures ret.Err? ==> started == |outcomes| && forall i :: 0 <= i < |outcomes| ==> i in observed
  {
    ret, started, observed, events := Err(NoOutbound), 0, [], [];
    var futs: set<nat> := {};
    while started < |outcomes| && ret.Err?
      invariant Racing(outcomes, ret, started, observed, futs)
      invariant Logged(ret, started, observed, events)
    {
      Starting(ret, started, observed, events);
      events := events + [Start(started)];
      futs := futs + {started};
      started := started + 1;
      var expired: bool := *;
      while !expired && futs != {} && ret.Err?
        invariant Racing(outcomes, ret, started, observed, futs)
        invariant Logged(ret, started, observed, events)
        decreases futs
      {
        var i :| i in futs;
        RacingStep(outcomes, ret, started, observed, futs, i);
        Ending(ret, started, observed, events, i, outcomes[i]);
        ret, futs, observed := outcomes[i], futs - {i}, observed + [i];
        events := events + [End(i)];
        expired := *;
      }
    }
    while ret.Err? && futs != {}
      invariant Racing(outcomes, ret, started, observed, futs)
      invariant Logged(ret, started, observed, events)
      invariant ret.Err? ==> started == |outcomes|
      decreases futs
    {
      var i :| i in futs;
      RacingStep(outcomes, ret, started, observed, futs, i);
      Ending(ret, started, observed, events, i, outcomes[i]);
      ret, futs, observed := outcomes[i], futs - {i}, observed + [i];
      events := events + [End(i)];
    }
    if ret.Ok? {
      assert observed[|observed| - 1] in observed;
    }
  }

  function Starts(events: seq<Event>): seq<nat> {
    if events == [] then [] else
    var n := |events| - 1;
    Starts(events[..n]) + if events[n].Start? then [events[n].i] else []
  }

  function Ends(events: seq<Event>): seq<nat> {
    if events == [] then [] else
    var n := |events| - 1;
    Ends(events[..n]) + if events[n].End? then [events[n].i] else []
  }

  ghost predicate Logged(
      ret: Result<nat, FlowError>, started: nat, observed: seq<nat>, events: seq<Event>)
  {
    && Starts(events) == seq(started, i => i) && Ends(events) == observed
    && (ret.Ok? ==> events != [] && observed != [])
    && (ret.Ok? ==> events[|events| - 1] == End(observed[|observed| - 1]))
  }

  lemma Starting(
      ret: Result<nat, FlowError>, started: nat, observed: seq<nat>, events: seq<Event>)
    requires Logged(ret, started, observed, events) && ret.Err?
    ensures Logged(ret, started + 1, observed, events + [Start(started)])
  {
    assert (events + [Start(started)])[..|events|] == events;
    assert seq<nat>(started, i => i) + [started] == seq<nat>(started + 1, i => i);
  }

  lemma Ending(
      ret: Result<nat, FlowError>, started: nat, observed: seq<nat>, events: seq<Event>, i: nat,
      end: Result<nat, FlowError>)
    requires Logged(ret, started, observed, events)
    ensures Logged(end, started, observed + [i], events + [End(i)])
  {
    assert (events + [End(i)])[..|events|] == events;
  }

  // The end seen last; before any, the error the dial starts out with.
  function Latest(outcomes: seq<Result<nat, FlowError>>, observed: seq<nat>): Result<nat, FlowError>
    requires forall i :: i in observed ==> i < |outcomes|
  {
    if observed == [] then Err(NoOutbound) else
    var last := observed[|observed| - 1];
    assert last in observed;
    outcomes[last]
  }

  // Started attempts are in flight or were observed; a success is only ever the last one observed.
  ghost predicate Racing(
      outcomes: seq<Result<nat, FlowError>>, ret: Result<nat, FlowError>, started: nat,
      observed: seq<nat>, futs: set<nat>)
  {
    && started <= |outcomes|
    && (forall i :: i in futs ==> i < started && i !in observed)
    && (forall i :: i in observed ==> i < started)
    && (forall i :: 0 <= i < started ==> i in futs || i in observed)
    && (forall i, j :: 0 <= i < j < |observed| ==> observed[i] != observed[j])
    && (ret.Err? ==> forall i :: i in observed ==> outcomes[i].Err?)
    && ret == Latest(outcomes, observed)
  }

  lemma RacingStep(
      outcomes: seq<Result<nat, FlowError>>, ret: Result<nat, FlowError>, started: nat,
      observed: seq<nat>, futs: set<nat>, i: nat)
    requires Racing(outcomes, ret, started, observed, futs) && ret.Err? && i in futs
    ensures Racing(outcomes, outcomes[i], started, observed + [i], futs - {i})
  {
  }

  /** Both parts together, for a domain on a host with both families: the dial succeeds if and only
      if some address that was sent accepts; so an error means that every resolved address refused,
      except possibly the one dropped in flight, which was never tried. The result is that of an
      attempt on an address that was sent. */
  method DialDualStack(v6: Answer, v4: Answer, s: Schedule, reach: Addr -> Result<nat, FlowError>)
    returns (ret: Result<nat, FlowError>)
    requires WellTagged(v6, v4)
    ensures ret.Ok? <==> exists ip :: ip in Emission(v6, v4, s) && reach(ip).Ok?
    ensures Emission(v6, v4, s) != [] ==> exists ip :: ip in Emission(v6, v4, s) && reach(ip) == ret
    ensures Emission(v6, v4, s) == [] ==> ret == Err(NoOutbound)
    ensures ret.Err? ==> forall ip :: ip in Sent(v6) + Sent(v4) ==>
      reach(ip).Err? || Dropped(v6, v4, s) == Some(ip)
  {
    var ips := Emission(v6, v4, s);
    var tx := new Sender(|ips|);
    ResolveDualStackIps(v6, v4, s, tx);
    assert tx.sent == ips;
    var outcomes := seq(|ips|, i requires 0 <= i < |ips| => reach(ips[i]));
    var started, observed;
    ghost var events;
    ret, started, observed, events := Race(outcomes);
    assert observed != [] ==> observed[0] in observed;
    if ips != [] {
      assert ret.Err? ==> 0 in observed;
      var last := observed[|observed| - 1];
      assert last in observed && reach(ips[last]) == ret && ips[last] in ips;
    }
    if ret.Err? {
      forall ip | ip in ips ensures reach(ip).Err? {
        var i :| 0 <= i < |ips| && ips[i] == ip;
        assert i in observed && outcomes[i].Err?;
      }
      AllRefused(v6, v4, s, reach);
    } else {
      var i :| i in observed && outcomes[i].Ok?;
      assert ips[i] in ips;
    }
  }

  /** A dial that fails although a resolved address accepts: the IPv4 answer arrives while the only
      reachable address, the first of the IPv6 family, is in flight. */
  method OnlyReachableDropped(a: Addr, b: Addr)
    returns (ret: Result<nat, FlowError>, ghost reach: Addr -> Result<nat, FlowError>)
    requires a.V6? && b.V4?
    ensures reach(a).Ok? && ret.Err?
  {
    var accepts := (ip: Addr) => if ip == a then Ok(0) else Err(Io);
    reach := accepts;
    ret := DialDualStack(Ok([a]), Ok([b]), Schedule(true, false, 0), accepts);
    assert Emission(Ok([a]), Ok([b]), Schedule(true, false, 0)) == [b];
  }

  lemma AllRefused(v6: Answer, v4: Answer, s: Schedule, reach: Addr -> Result<nat, FlowError>)
    requires WellTagged(v6, v4)
    requires forall ip :: ip in Emission(v6, v4, s) ==> reach(ip).Err?
    ensures forall ip :: ip in Sent(v6) + Sent(v4) ==>
      reach(ip).Err? || Dropped(v6, v4, s) == Some(ip)
  {
    AllSentIff(v6, v4, s);
    var ips := Emission(v6, v4, s);
    forall ip | ip in Sent(v6) + Sent(v4)
      ensures reach(ip).Err? || Dropped(v6, v4, s) == Some(ip)
    {
      assert ip in multiset(Sent(v6)) + multiset(Sent(v4));
      assert ip in multiset(ips) || Dropped(v6, v4, s) == Some(ip);
    }
  }
}
