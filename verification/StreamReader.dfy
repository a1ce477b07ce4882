// The buffered reader that every handshake and the AEAD layer pull their bytes through.
module StreamReader {
  import opened Flow

  // At most this many bytes are moved to the front of the buffer when the reader advances.
  const COMPACT_BELOW := 1024

  datatype State = PollSizeHint(buf: Buffer, offset: nat) | PollBuffer(offset: nat)

  class Reader {
    var state: State

    constructor (initialData: Buffer)
      ensures state == PollSizeHint(initialData, 0)
    {
      state := PollSizeHint(initialData, 0);
    }

    /** The buffer is in exactly one place: with the reader in PollSizeHint, with the lower stream,
        which has announced data for it, in PollBuffer. */
    ghost predicate Valid(lower: LowerStream)
      reads this, lower
    {
      && (state.PollSizeHint? <==> lower.rxBuf.None?)
      && (state.PollBuffer? ==> lower.announced && lower.room > 0)
      && state.offset <= |Held(lower)|
    }

    /** The whole circulating buffer, bytes already advanced over included. */
    ghost function Held(lower: LowerStream): Buffer
      reads this, lower
    {
      if state.PollSizeHint? then state.buf else lower.rxBuf.GetOr([])
    }

    /** The byte queue this reader stands for: what is buffered and unread, then what the lower
        stream still has to deliver. */
    ghost function Queue(lower: LowerStream): seq<byte>
      requires Valid(lower)
      reads this, lower
    {
      Held(lower)[state.offset..] + lower.incoming
    }

    /** The lazy-compaction invariant: consumed bytes are kept only in front of a long tail. */
    ghost predicate Lazy(lower: LowerStream)
      reads this, lower
    {
      state.offset == 0 || |Held(lower)| - state.offset >= COMPACT_BELOW
    }

    /** What holds at every point of a run whose requests all fit the compaction threshold. */
    ghost predicate Settled(lower: LowerStream)
      reads this, lower
    {
      Lazy(lower) && (state.PollBuffer? ==> state.offset == 0)
    }

    /** The buffer was handed to the lower stream only because fewer than `len` bytes were unread. */
    ghost predicate Waiting(lower: LowerStream, len: nat)
      reads this, lower
    {
      state.PollBuffer? ==> |Held(lower)| - state.offset < len
    }

    method Advance(len: nat, ghost lower: LowerStream)
      requires Valid(lower) && state.offset + len <= |Held(lower)|
      modifies this
      ensures Valid(lower)
      ensures Queue(lower) == old(Queue(lower))[len..]
      ensures state.PollSizeHint? == old(state.PollSizeHint?)
      ensures state.PollSizeHint? ==> Lazy(lower)
      ensures |old(Held(lower))| - old(state.offset) - len >= COMPACT_BELOW ==>
        Held(lower) == old(Held(lower)) && state.offset == old(state.offset) + len
    {
      Consumed(Held(lower), state.offset, len, lower.incoming);
      match state
      case PollSizeHint(buf, offset) =>
        var newOffset := offset + len;
        var remaining := |buf| - newOffset;
        if remaining < COMPACT_BELOW {
          state := PollSizeHint(buf[newOffset..], 0);
        } else {
          state := PollSizeHint(buf, newOffset);
        }
      case PollBuffer(offset) =>
        state := PollBuffer(offset + len);
    }

    // The arm of `poll_core` that hands the buffer to the lower stream, if its size request is
    // answered; None sends the loop round again.
    method HandDown(lower: LowerStream)
      returns (r: Option<Poll<Result<(), FlowError>>>, ghost handed: bool)
      requires Valid(lower) && state.PollSizeHint?
      modifies this, lower
      ensures Valid(lower) && lower.incoming == old(lower.incoming)
      ensures Held(lower) == old(Held(lower))
      ensures r == Some(Pending) ==> lower.pendings < old(lower.pendings) && state == old(state)
      ensures r != Some(Pending) ==> lower.pendings == old(lower.pendings)
      ensures r.None? ==> state == PollBuffer(old(state.offset))
      ensures r.Some? && r.value.Ready? ==>
        && r.value.value.Err? && !lower.reliable && state.PollSizeHint?
        && lower.error == Some(r.value.value.error)
        && state.offset == if handed then 0 else old(state.offset)
    {
      var hint := lower.PollRequestSize();
      if hint.Pending? {
        return Some(Pending), false;
      }
      if hint.value.Err? {
        return Some(Ready(Err(hint.value.error))), false;
      }
      var committed := lower.CommitRxBuffer(state.buf, hint.value.value.WithMinContent(CONTENT));
      if committed.Err? {
        state := PollSizeHint(committed.error.0, 0);
        return Some(Ready(Err(committed.error.1))), true;
      }
      state := PollBuffer(state.offset);
      r, handed := None, true;
    }

    // The arm that takes it back, with more bytes in it or with an error.
    method TakeBack(lower: LowerStream) returns (r: Option<Poll<Result<(), FlowError>>>)
      requires Valid(lower) && state.PollBuffer?
      modifies this, lower
      ensures Valid(lower) && Held(lower) + lower.incoming == old(Held(lower) + lower.incoming)
      ensures |Held(lower)| >= |old(Held(lower))|
      ensures r == Some(Pending) ==>
        && lower.pendings < old(lower.pendings) && state == old(state)
        && Held(lower) == old(Held(lower)) && lower.incoming == old(lower.incoming)
      ensures r != Some(Pending) ==> lower.pendings == old(lower.pendings) && state.PollSizeHint?
      ensures r.None? ==>
        state.offset == old(state.offset) && |lower.incoming| < |old(lower.incoming)|
      ensures r.Some? && r.value.Ready? ==>
        && r.value.value.Err? && state.offset == 0 && lower.error == Some(r.value.value.error)
        && (lower.reliable ==> r.value.value.error == Eof && lower.incoming == old(lower.incoming) == [])
    {
      ghost var before := lower.rxBuf.value;
      var answer := lower.PollRxBuffer();
      if answer.Pending? {
        return Some(Pending);
      }
      match answer.value
      case Ok(buf) =>
        assert |buf| > |before| && |buf + lower.incoming| == |before + old(lower.incoming)|;
        state := PollSizeHint(buf, state.offset);
        r := None;
      case Err((buf, e)) =>
        state := PollSizeHint(buf, 0);
        r := Some(Ready(Err(e)));
    }

    /** One poll for at least `len` unread bytes. `handed` says whether the lower stream had the
        buffer when an error came: then the offset is reset, which puts every consumed byte that is
        still in the buffer back in front of the queue; otherwise nothing changes. */
    method PollCore(lower: LowerStream, len: nat)
      returns (r: Poll<Result<(), FlowError>>, ghost handed: bool)
      requires Valid(lower)
      modifies this, lower
      ensures Valid(lower)
      ensures !(r.Ready? && r.value.Err?) ==>
        Queue(lower) == old(Queue(lower)) && (old(Lazy(lower)) ==> Lazy(lower))
      ensures r.Pending? ==> lower.pendings < old(lower.pendings)
      ensures r.Ready? ==> lower.pendings == old(lower.pendings)
      ensures r.Ready? && r.value.Ok? ==> state.PollSizeHint? && |state.buf| - state.offset >= len
      ensures old(state.PollSizeHint? && |state.buf| - state.offset >= len) ==>
        r == Ready(Ok(())) && state == old(state) && lower.incoming == old(lower.incoming)
      ensures r.Ready? && r.value.Err? && !handed ==> state.offset == old(state.offset)
      ensures r.Ready? && r.value.Err? && handed ==>
        state.offset == 0 && Queue(lower) == old(Held(lower) + lower.incoming)
      // an error keeps the queue exactly when no consumed byte can come back
      ensures r.Ready? && r.value.Err? ==>
        (Queue(lower) == old(Queue(lower)) <==> !handed || old(state.offset) == 0)
      ensures r.Ready? && r.value.Err? ==> state.PollSizeHint? && lower.error == Some(r.value.error)
      ensures r.Ready? && r.value.Err? && lower.reliable ==>
        && r.value.error == Eof
        && state.offset == 0 && Queue(lower) == old(Held(lower) + lower.incoming)
        && (old(Waiting(lower, len)) ==> |old(Queue(lower))| < len)
      ensures r.Pending? && old(Waiting(lower, len)) ==> Waiting(lower, len)
      // requests that fit the compaction threshold never lose their place, even on errors
      ensures old(Settled(lower)) && len <= COMPACT_BELOW ==>
        Settled(lower) && Queue(lower) == old(Queue(lower))
    {
      ghost var queue, whole := Queue(lower), Held(lower) + lower.incoming;
      ResetKeepsQueueIff(Held(lower), state.offset, lower.incoming);
      handed := false;
      while true
        invariant Valid(lower) && state.offset == old(state.offset)
        invariant Held(lower) + lower.incoming == whole
        invariant |Held(lower)| >= |old(Held(lower))|
        invariant lower.pendings == old(lower.pendings)
        invariant old(Waiting(lower, len)) ==> Waiting(lower, len)
        invariant old(state.PollSizeHint? && |state.buf| - state.offset >= len) ==>
          state == old(state) && lower.incoming == old(lower.incoming)
        invariant old(Settled(lower)) && len <= COMPACT_BELOW ==> Settled(lower)
        decreases |lower.incoming|, state.PollSizeHint?
      {
        assert Queue(lower) == whole[state.offset..] == queue;
        var turn;
        if state.PollSizeHint? {
          if |state.buf| - state.offset >= len {
            return Ready(Ok(())), false;
          }
          turn, handed := HandDown(lower);
        } else {
          turn := TakeBack(lower);
          handed := true;
        }
        if turn.Some? {
          assert Queue(lower) == whole[state.offset..];
          return turn.value, handed;
        }
      }
    }

    method PollPeekAtLeast(lower: LowerStream, len: nat)
      returns (r: Poll<Result<seq<byte>, FlowError>>)
      requires Valid(lower)
      modifies this, lower
      ensures Valid(lower)
      ensures r.Ready? && r.value.Err? ==> lower.error == Some(r.value.error)
      ensures r.Pending? ==> lower.pendings < old(lower.pendings)
      ensures r.Ready? ==> lower.pendings == old(lower.pendings) && state.PollSizeHint?
      ensures r.Pending? && old(Waiting(lower, len)) ==> Waiting(lower, len)
      ensures r.Ready? && r.value.Ok? ==> len <= |r.value.value| && r.value.value <= old(Queue(lower))
      ensures r.Ready? && r.value.Ok? ==> r.value.value == state.buf[state.offset..]
      ensures r.Ready? && r.value.Err? && lower.reliable && old(Waiting(lower, len)) ==>
        r.value.error == Eof && |old(Queue(lower))| < len
      ensures !(r.Ready? && r.value.Err?) ==> Queue(lower) == old(Queue(lower))
      ensures old(Settled(lower)) && len <= COMPACT_BELOW ==>
        Settled(lower) && Queue(lower) == old(Queue(lower))
    {
      var core, _ := PollCore(lower, len);
      match core
      case Pending =>
        r := Pending;
      case Ready(Err(e)) =>
        r := Ready(Err(e));
      case Ready(Ok(_)) =>
        var data := state.buf[state.offset..];
        assert Queue(lower) == data + lower.incoming;
        r := Ready(Ok(data));
    }

    /** The callback sees the requested bytes exactly once, and they leave the queue with it. */
    method PollReadExact(lower: LowerStream, len: nat)
      returns (r: Poll<Result<seq<byte>, FlowError>>)
      requires Valid(lower)
      modifies this, lower
      ensures Valid(lower)
      ensures r.Ready? && r.value.Err? ==> lower.error == Some(r.value.error)
      ensures r.Pending? ==>
        lower.pendings < old(lower.pendings) && Queue(lower) == old(Queue(lower))
      ensures r.Ready? ==> lower.pendings == old(lower.pendings) && state.PollSizeHint?
      ensures r.Pending? && old(Waiting(lower, len)) ==> Waiting(lower, len)
      ensures old(state.PollSizeHint? && |state.buf| - state.offset >= len) ==>
        r.Ready? && r.value.Ok? && lower.incoming == old(lower.incoming)
      ensures old(state.PollSizeHint? && |state.buf| - state.offset >= len + COMPACT_BELOW) ==>
        Held(lower) == old(Held(lower))
      ensures r.Ready? && r.value.Ok? ==>
        && len <= |old(Queue(lower))| && r.value.value == old(Queue(lower))[..len]
        && Queue(lower) == old(Queue(lower))[len..] && Lazy(lower)
      ensures r.Ready? && r.value.Err? && lower.reliable ==>
        && r.value.error == Eof
        && Queue(lower) == old(Held(lower) + lower.incoming)
        && (old(Waiting(lower, len)) ==> |old(Queue(lower))| < len)
      ensures old(Settled(lower)) && len <= COMPACT_BELOW ==> Settled(lower)
      ensures old(Settled(lower)) && len <= COMPACT_BELOW && r.Ready? && r.value.Err? ==>
        Queue(lower) == old(Queue(lower))
    {
      var core, _ := PollCore(lower, len);
      match core
      case Pending =>
        r := Pending;
      case Ready(Err(e)) =>
        r := Ready(Err(e));
      case Ready(Ok(_)) =>
        var data := state.buf[state.offset..][..len];
        assert Queue(lower)[..len] == data;
        Advance(len, lower);
        r := Ready(Ok(data));
    }

    /** `read_exact(..).await`: polls until ready. */
    method ReadExact(lower: LowerStream, len: nat) returns (r: Result<seq<byte>, FlowError>)
      requires Valid(lower) && state.PollSizeHint?
      modifies this, lower
      ensures Valid(lower) && state.PollSizeHint?
      ensures lower.pendings <= old(lower.pendings)
      ensures r.Err? ==> lower.error == Some(r.error)
      ensures r.Ok? ==>
        && len <= |old(Queue(lower))| && r.value == old(Queue(lower))[..len]
        && Queue(lower) == old(Queue(lower))[len..]
      ensures r.Err? && lower.reliable ==> r.error == Eof && |old(Queue(lower))| < len
      ensures old(Settled(lower)) && len <= COMPACT_BELOW ==>
        Settled(lower) && (r.Err? ==> Queue(lower) == old(Queue(lower)))
    {
      var poll := PollReadExact(lower, len);
      while poll.Pending?
        invariant Valid(lower) && lower.pendings <= old(lower.pendings)
        invariant poll.Pending? ==> Queue(lower) == old(Queue(lower)) && Waiting(lower, len)
        invariant poll.Ready? && poll.value.Err? ==> lower.error == Some(poll.value.error)
        invariant poll.Ready? ==> state.PollSizeHint?
        invariant poll.Ready? && poll.value.Ok? ==>
          && len <= |old(Queue(lower))| && poll.value.value == old(Queue(lower))[..len]
          && Queue(lower) == old(Queue(lower))[len..]
        invariant poll.Ready? && poll.value.Err? && lower.reliable ==>
          poll.value.error == Eof && |old(Queue(lower))| < len
        invariant old(Settled(lower)) && len <= COMPACT_BELOW ==> Settled(lower)
        invariant old(Settled(lower)) && len <= COMPACT_BELOW && poll.Ready? && poll.value.Err? ==>
          Queue(lower) == old(Queue(lower))
        decreases poll.Pending?, lower.pendings
      {
        poll := PollReadExact(lower, len);
      }
      r := poll.value;
    }

    /** `peek_at_least(..).await`: the bytes seen stay in the queue. */
    method PeekAtLeast(lower: LowerStream, len: nat) returns (r: Result<seq<byte>, FlowError>)
      requires Valid(lower) && state.PollSizeHint?
      modifies this, lower
      ensures Valid(lower) && state.PollSizeHint?
      ensures lower.pendings <= old(lower.pendings)
      ensures r.Err? ==> lower.error == Some(r.error)
      ensures r.Ok? ==>
        len <= |r.value| && r.value <= Queue(lower) && Queue(lower) == old(Queue(lower))
      ensures r.Err? && lower.reliable ==> r.error == Eof && |old(Queue(lower))| < len
      ensures old(Settled(lower)) && len <= COMPACT_BELOW ==>
        Settled(lower) && Queue(lower) == old(Queue(lower))
    {
      var poll := PollPeekAtLeast(lower, len);
      while poll.Pending?
        invariant Valid(lower) && lower.pendings <= old(lower.pendings)
        invariant poll.Pending? ==> Waiting(lower, len)
        invariant !(poll.Ready? && poll.value.Err?) ==> Queue(lower) == old(Queue(lower))
        invariant poll.Ready? && poll.value.Err? ==> lower.error == Some(poll.value.error)
        invariant poll.Ready? ==> state.PollSizeHint?
        invariant poll.Ready? && poll.value.Ok? ==>
          len <= |poll.value.value| && poll.value.value <= old(Queue(lower))
        invariant poll.Ready? && poll.value.Err? && lower.reliable ==>
          poll.value.error == Eof && |old(Queue(lower))| < len
        invariant old(Settled(lower)) && len <= COMPACT_BELOW ==>
          Settled(lower) && Queue(lower) == old(Queue(lower))
        decreases poll.Pending?, lower.pendings
      {
        poll := PollPeekAtLeast(lower, len);
      }
      r := poll.value;
    }

    method IntoBuffer(ghost lower: LowerStream) returns (r: Option<Buffer>)
      requires Valid(lower)
      ensures r.Some? <==> state.PollSizeHint?
      ensures r.Some? ==> r.value + lower.incoming == Queue(lower)
    {
      match state
      case PollSizeHint(buf, offset) => r := Some(buf[offset..]);
      case PollBuffer(_) => r := None;
    }
  }

  lemma Consumed(held: Buffer, offset: nat, len: nat, incoming: seq<byte>)
    requires offset + len <= |held|
    ensures (held[offset..] + incoming)[len..] == held[offset + len..] + incoming
    ensures held[offset + len..][0..] == held[offset + len..]
  {
  }

  /** The offset reset on an error path keeps the byte queue exactly when no consumed byte is still
      in front of it. */
  lemma ResetKeepsQueueIff(held: Buffer, offset: nat, incoming: seq<byte>)
    requires offset <= |held|
    ensures held + incoming == held[offset..] + incoming <==> offset == 0
  {
    assert |held + incoming| == |held[offset..] + incoming| + offset;
  }

  /** A run that reads bytes twice: 100 of 2000 buffered bytes are read, a request for 2000 more
      meets the end of the stream, and the next read delivers the first 100 bytes again. */
  method ReplayAfterEof(data: seq<byte>) returns (first: seq<byte>, replay: seq<byte>)
    requires |data| == 2000
    ensures first == replay == data[..100]
  {
    var lower := new LowerStream([], 0, true, false);
    var reader := new Reader(data);
    var r0 := reader.PollReadExact(lower, 100);
    var r1 := reader.PollReadExact(lower, 2000);
    assert reader.Queue(lower) == data + [];
    var r2 := reader.PollReadExact(lower, 100);
    first, replay := r0.value.value, r2.value.value;
  }
}
