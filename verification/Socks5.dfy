// The SOCKS5 handshake of RFC 1928 without authentication, both sides, on top of the reader.
module Socks5 {
  import opened Flow
  import opened StreamReader
  import opened Address

  const METHOD_OK: seq<byte> := [5, 0]
  const METHOD_REFUSED: seq<byte> := [5, 0xff]
  const GRANTED: seq<byte> := [5, 0, 0, 1, 0, 0, 0, 0, 0, 0]
  const REJECTED: seq<byte> := [5, 7, 0, 1, 0, 0, 0, 0, 0, 0]
  const GREETING: seq<byte> := [5, 1, 0]

  function Request(dest: Destination): seq<byte> {
    [5, 1, 0] + WriteDest(dest)
  }

  // ---- what each side makes of a whole input ----

  // `written` is everything sent up to the end; an input that stops short ends in Eof.
  datatype Serving =
    | Accepted(dest: Destination, rest: seq<byte>, written: seq<byte>)
    | Refused(error: FlowError, written: seq<byte>)
    | Panicked(written: seq<byte>)

  function Serve(s: seq<byte>, norm: Normalise): Serving {
    if |s| < 2 then Refused(Eof, [])
    else if s[0] != 5 then Refused(UnexpectedData, [])
    else if s[1] == 0 then Refused(UnexpectedData, METHOD_REFUSED)
    else ServeMethods(s[2..], s[1], norm)
  }

  function ServeMethods(s: seq<byte>, n: nat, norm: Normalise): Serving {
    if |s| < n then Refused(Eof, [])
    else if 0 !in s[..n] then Refused(UnexpectedData, METHOD_REFUSED)
    else ServeRequest(s[n..], norm)
  }

  // The length of a request as its first five bytes give it, in 8-bit wrapping arithmetic.
  function RequestLen(s: seq<byte>): Option<nat>
    requires |s| >= 5
  {
    if s[3] == 1 then Some(10)
    else if s[3] == 3 then Some((s[4] as int + 7) % 256)
    else if s[3] == 4 then Some(22)
    else None
  }

  function ServeRequest(s: seq<byte>, norm: Normalise): Serving {
    if |s| < 5 then Refused(Eof, METHOD_OK)
    else if RequestLen(s).None? || s[0] != 5 || s[1] != 1
    then Refused(UnexpectedData, METHOD_OK + REJECTED)
    else
      var len := RequestLen(s).value;
      if |s| < len then Refused(Eof, METHOD_OK)
      else if len < 3 then Panicked(METHOD_OK)
      else match ParseDest(s[3..len], norm)
        case None => Refused(UnexpectedData, METHOD_OK)
        case Some((dest, _)) => Accepted(dest, s[len..], METHOD_OK + GRANTED)
  }

  datatype Performing =
    | Done(rest: seq<byte>, written: seq<byte>)
    | Broken(error: FlowError, written: seq<byte>)

  function Perform(s: seq<byte>, dest: Destination): Performing {
    if |s| < 2 then Broken(Eof, GREETING)
    else if s[..2] != METHOD_OK then Broken(UnexpectedData, GREETING)
    else PerformReply(s[2..], GREETING + Request(dest))
  }

  function PerformReply(s: seq<byte>, written: seq<byte>): Performing {
    if |s| < 2 then Broken(Eof, written)
    else if s[..2] != [5, 0] then Broken(UnexpectedData, written)
    else if |s| < 6 then Broken(Eof, written)
    else match ReplyRemaining(s[2..6])
      case None => Broken(UnexpectedData, written)
      case Some(n) =>
        if |s| < 6 + n then Broken(Eof, written) else Done(s[6 + n..], written)
  }

  // What is left of a reply behind its first six bytes; an empty name wraps around to one byte.
  function ReplyRemaining(s: seq<byte>): Option<nat>
    requires |s| == 4
  {
    if s[1] == 1 then Some(4)
    else if s[1] == 4 then Some(16)
    else if s[1] == 3 then Some(s[2] as int + 1)
    else None
  }

  // ---- the handshakes as written, over any segmentation ----

  // The outcome is the specified one; on success the bytes behind the request are in the returned
  // buffer and in the stream. Or a stream that may fail cut it short, before anything wrong was
  // written.
  ghost predicate Serves(r: Serving, spec: Serving, lower: LowerStream)
    reads lower
  {
    || (!spec.Accepted? && r == spec)
    || (spec.Accepted? && r.Accepted? && r == spec.(rest := r.rest) && r.rest + lower.incoming == spec.rest)
    || (!lower.reliable && r.Refused? && r.written <= spec.written && lower.error == Some(r.error))
  }

  ghost predicate Performs(r: Performing, spec: Performing, lower: LowerStream)
    reads lower
  {
    || (!spec.Done? && r == spec)
    || (spec.Done? && r.Done? && r == spec.(rest := r.rest) && r.rest + lower.incoming == spec.rest)
    || (!lower.reliable && r.Broken? && r.written <= spec.written && lower.error == Some(r.error))
  }

  /** `serve_handshake` without credentials: its outcome is the function of the input above. */
  method ServeHandshake(lower: LowerStream, initialData: Buffer, norm: Normalise)
    returns (r: Serving)
    requires lower.rxBuf.None?
    modifies lower
    ensures Serves(r, Serve(initialData + old(lower.incoming), norm), lower)
  {
    ghost var s := initialData + lower.incoming;
    var reader := new Reader(initialData);
    assert reader.Queue(lower) == s;
    var head := reader.ReadExact(lower, 2);
    if head.Err? {
      return Refused(head.error, []);
    }
    if head.value[0] != 5 {
      return Refused(UnexpectedData, []);
    }
    var nauth := head.value[1];
    if nauth == 0 {
      return Refused(UnexpectedData, METHOD_REFUSED);
    }
    var methods := reader.ReadExact(lower, nauth);
    if methods.Err? {
      return Refused(methods.error, []);
    }
    if 0 !in methods.value {
      return Refused(UnexpectedData, METHOD_REFUSED);
    }
    ghost var q := s[2..][nauth..];
    assert Serve(s, norm) == ServeRequest(q, norm);
    r := ReadRequest(reader, lower, norm);
  }

  method ReadRequest(reader: Reader, lower: LowerStream, norm: Normalise) returns (r: Serving)
    requires reader.Valid(lower) && reader.state.PollSizeHint?
    modifies reader, lower
    ensures Serves(
      r, ServeRequest(old(reader.Queue(lower)), norm), lower)
  {
    ghost var q := reader.Queue(lower);
    var peek := reader.PeekAtLeast(lower, 5);
    if peek.Err? {
      return Refused(peek.error, METHOD_OK);
    }
    var len := RequestLen(peek.value);
    assert len == RequestLen(q);
    if len.None? || peek.value[0] != 5 || peek.value[1] != 1 {
      return Refused(UnexpectedData, METHOD_OK + REJECTED);
    }
    var req := reader.ReadExact(lower, len.value);
    if req.Err? {
      return Refused(req.error, METHOD_OK);
    }
    if len.value < 3 {
      return Panicked(METHOD_OK);
    }
    assert req.value[3..] == q[3..len.value];
    var dest := ParseDest(req.value[3..], norm);
    if dest.None? {
      return Refused(UnexpectedData, METHOD_OK);
    }
    var rest := reader.IntoBuffer(lower);
    r := Accepted(dest.value.0, rest.value, METHOD_OK + GRANTED);
  }

  /** `perform_handshake` without credentials; `initialRes` is what the outbound already read. */
  method PerformHandshake(lower: LowerStream, initialRes: Buffer, dest: Destination)
    returns (r: Performing)
    requires lower.rxBuf.None?
    modifies lower
    ensures Performs(r, Perform(initialRes + old(lower.incoming), dest), lower)
  {
    ghost var s := initialRes + lower.incoming;
    var reader := new Reader(initialRes);
    assert reader.Queue(lower) == s;
    var accepted := reader.ReadExact(lower, 2);
    if accepted.Err? {
      return Broken(accepted.error, GREETING);
    }
    if accepted.value != METHOD_OK {
      return Broken(UnexpectedData, GREETING);
    }
    assert s[2..] == reader.Queue(lower);
    r := ReadReply(reader, lower, GREETING + Request(dest));
  }

  method ReadReply(reader: Reader, lower: LowerStream, written: seq<byte>) returns (r: Performing)
    requires reader.Valid(lower) && reader.state.PollSizeHint?
    modifies reader, lower
    ensures Performs(
      r, PerformReply(old(reader.Queue(lower)), written), lower)
  {
    ghost var t := reader.Queue(lower);
    var granted := reader.ReadExact(lower, 2);
    if granted.Err? {
      return Broken(granted.error, written);
    }
    if granted.value != [5, 0] {
      return Broken(UnexpectedData, written);
    }
    var more := reader.ReadExact(lower, 4);
    if more.Err? {
      return Broken(more.error, written);
    }
    assert more.value == t[2..6];
    var remaining := ReplyRemaining(more.value);
    if remaining.None? {
      return Broken(UnexpectedData, written);
    }
    var tail := reader.ReadExact(lower, remaining.value);
    if tail.Err? {
      return Broken(tail.error, written);
    }
    assert t[2..][4..][remaining.value..] == t[6 + remaining.value..];
    var rest := reader.IntoBuffer(lower);
    r := Done(rest.value, written);
  }

  // ---- the two sides together ----

  const MAX_SOCKS_DOMAIN := 248

  predicate SocksLength(d: Destination) {
    d.host.DomainName? ==> |TrimDots(d.host.name)| <= MAX_SOCKS_DOMAIN
  }

  // The byte that announces the length of a name, which is cut to 8 bits.
  function LengthByte(dest: Destination): nat
    requires dest.host.DomainName?
  {
    |TrimDots(dest.host.name)| % 256
  }

  lemma RequestLenOfRequest(dest: Destination, x: seq<byte>)
    requires SocksLength(dest)
    ensures var q := Request(dest) + x;
      && |q| >= 5 && q[0] == 5 && q[1] == 1
      && RequestLen(q) == Some(|Request(dest)|) && |Request(dest)| <= |q|
  {
    WrittenLength(dest);
    RequestBehind(0, WriteDest(dest) + x);
    Regroup([5, 1, 0], WriteDest(dest), x);
  }

  lemma WrittenLength(dest: Destination)
    requires FitsLength(dest)
    ensures AddressLength(WriteDest(dest))
    ensures SocksLength(dest) ==> |WriteDest(dest)| <= 252
  {
  }

  // The length of a written destination, as its first two bytes give it.
  predicate AddressLength(w: seq<byte>) {
    |w| >= 4 && ((w[0] == 1 && |w| == 7) || (w[0] == 4 && |w| == 19)
      || (w[0] == 3 && |w| == w[1] as int + 4))
  }

  /** A request sent by the client side serves its purpose exactly when the name fits 248 bytes and
      can be normalised: the server then has the normalised destination and every byte behind it. */
  lemma ServedIff(dest: Destination, x: seq<byte>, norm: Normalise)
    ensures var r, n := ServeRequest(Request(dest) + x, norm), Normalised(dest, norm);
      n.Some? && r == Accepted(n.value, x, METHOD_OK + GRANTED) <==> SocksLength(dest) && n.Some?
  {
    var q := Request(dest) + x;
    if SocksLength(dest) {
      RequestLenOfRequest(dest, x);
      assert q[3..|Request(dest)|] == WriteDest(dest) + [] && q[|Request(dest)|..] == x;
      ParseWritten(dest, [], norm);
    } else {
      LongNameOutcome(dest, x, norm);
    }
  }

  /** What the server makes of a name that is too long. Lengths wrap around twice: a length byte of
      249 to 251 makes it panic, one of 252 to 255 makes it refuse; with a smaller one, which names
      of 256 bytes and more have, it takes the beginning of the name for the name, the two bytes
      behind that for the port and all the rest for data. */
  lemma LongNameOutcome(dest: Destination, x: seq<byte>, norm: Normalise)
    requires !SocksLength(dest)
    ensures var name, n := TrimDots(dest.host.name), LengthByte(dest);
      ServeRequest(Request(dest) + x, norm) ==
        if n > 251 then Refused(UnexpectedData, METHOD_OK)
        else if n > MAX_SOCKS_DOMAIN then Panicked(METHOD_OK)
        else match norm(name[..n])
          case None => Refused(UnexpectedData, METHOD_OK)
          case Some(wrong) => Accepted(
            Destination(DomainName(wrong), name[n] as int * 256 + name[n + 1] as int),
            name[n + 2..] + PortBytes(dest.port) + x, METHOD_OK + GRANTED)
  {
    var name, n := TrimDots(dest.host.name), LengthByte(dest);
    var body := [3, n] + name + PortBytes(dest.port) + x;
    RequestBody(dest, x, body);
    if n <= MAX_SOCKS_DOMAIN {
      NamedRequest(body, norm);
      TruncatedName(name, n, dest.port, x, norm);
    } else {
      WrappedRequest(body, norm);
    }
  }

  lemma RequestBody(dest: Destination, x: seq<byte>, body: seq<byte>)
    requires dest.host.DomainName?
    requires body == [3, LengthByte(dest)] + TrimDots(dest.host.name) + PortBytes(dest.port) + x
    ensures Request(dest) + x == [5, 1, 0] + body
  {
  }

  // A request for a name, by the bytes behind its first three.
  lemma NamedHead(body: seq<byte>)
    requires |body| >= 2 && body[0] == 3
    ensures var s := [5, 1, 0] + body;
      && |s| >= 5 && s[0] == 5 && s[1] == 1 && |s| == |body| + 3
      && RequestLen(s) == Some(
        if body[1] as int <= MAX_SOCKS_DOMAIN then body[1] as int + 7 else body[1] as int - 249)
  {
    var s := [5, 1, 0] + body;
    assert s[3] == body[0] && s[4] == body[1];
  }

  lemma NamedRequest(body: seq<byte>, norm: Normalise)
    requires |body| >= 2 && body[0] == 3
    requires body[1] as int <= MAX_SOCKS_DOMAIN && body[1] as int + 4 <= |body|
    ensures var len := body[1] as int + 4;
      ServeRequest([5, 1, 0] + body, norm) == match ParseDest(body[..len], norm)
        case None => Refused(UnexpectedData, METHOD_OK)
        case Some((dest, _)) => Accepted(dest, body[len..], METHOD_OK + GRANTED)
  {
    var len := body[1] as int + 7;
    NamedHead(body);
    SliceBehind([5, 1, 0], body, 3, len);
    SliceBehind([5, 1, 0], body, len, len);
  }

  lemma WrappedRequest(body: seq<byte>, norm: Normalise)
    requires |body| >= 250 && body[0] == 3 && body[1] as int > MAX_SOCKS_DOMAIN
    ensures ServeRequest([5, 1, 0] + body, norm) ==
      if body[1] as int > 251 then Refused(UnexpectedData, METHOD_OK) else Panicked(METHOD_OK)
  {
    NamedHead(body);
    var len := body[1] as int - 249;
    if len >= 3 {
      ShortIsNone(([5, 1, 0] + body)[3..len], norm);
    }
  }

  lemma ShortIsNone(w: seq<byte>, norm: Normalise)
    requires |w| <= 3
    ensures ParseDest(w, norm) == None
  {
  }

  lemma TruncatedName(name: seq<byte>, n: byte, port: Port, x: seq<byte>, norm: Normalise)
    requires n as int + 2 <= |name|
    ensures var w, cut := [3, n] + name + PortBytes(port) + x, n as int + 4;
      && w[cut..] == name[cut - 2..] + PortBytes(port) + x
      && ParseDest(w[..cut], norm) == match norm(name[..n])
        case None => None
        case Some(wrong) => Some((
          Destination(DomainName(wrong), name[cut - 4] as int * 256 + name[cut - 3] as int), cut))
  {
    var t, p0, p1 := name[..n], name[n as int], name[n as int + 1];
    var rest := name[n as int + 2..] + PortBytes(port) + x;
    var head := [3, n] + t + [p0, p1];
    assert name == t + [p0, p1] + name[n as int + 2..];
    assert [3, n] + name + PortBytes(port) + x == head + rest;
    SliceBehind(head, rest, n as int + 4, n as int + 4);
    PortRead(p0, p1);
    ParseWrittenDomain(t, p0 as int * 256 + p1 as int, [], norm);
    assert head + [] == head == (head + rest)[..n as int + 4];
  }

  // ---- every other conversation ----

  /** The server takes any non-empty list of methods that has the one without authentication, any
      reserved byte, and any destination that can be served. */
  lemma ServerAccepts(
      methods: seq<byte>, rsv: byte, dest: Destination, x: seq<byte>, norm: Normalise)
    requires 1 <= |methods| <= 255 && 0 in methods
    requires SocksLength(dest) && Normalised(dest, norm).Some?
    ensures Serve([5, |methods|] + methods + ([5, 1, rsv] + (WriteDest(dest) + x)), norm)
      == Accepted(Normalised(dest, norm).value, x, METHOD_OK + GRANTED)
  {
    MethodsTaken(methods, [5, 1, rsv] + (WriteDest(dest) + x), norm);
    ReservedIgnored(rsv, 0, WriteDest(dest) + x, norm);
    assert [5, 1, 0] + (WriteDest(dest) + x) == Request(dest) + x;
    ServedIff(dest, x, norm);
  }

  lemma MethodsTaken(methods: seq<byte>, t: seq<byte>, norm: Normalise)
    requires 1 <= |methods| <= 255 && 0 in methods
    ensures Serve([5, |methods|] + methods + t, norm) == ServeRequest(t, norm)
  {
    var s := [5, |methods|] + methods + t;
    assert s[2..] == methods + t && (methods + t)[..|methods|] == methods;
    assert (methods + t)[|methods|..] == t;
  }

  lemma ReservedIgnored(r: byte, r': byte, w: seq<byte>, norm: Normalise)
    requires |w| >= 2
    ensures ServeRequest([5, 1, r] + w, norm) == ServeRequest([5, 1, r'] + w, norm)
  {
    RequestBehind(r, w);
    RequestBehind(r', w);
  }

  lemma RequestBehind(r: byte, w: seq<byte>)
    requires |w| >= 2
    ensures var s := [5, 1, r] + w;
      && s[0] == 5 && s[1] == 1 && s[3] == w[0] && s[4] == w[1] && |s| == |w| + 3
      && forall len: nat :: 3 <= len <= |s| ==> s[3..len] == w[..len - 3] && s[len..] == w[len - 3..]
  {
    var s := [5, 1, r] + w;
    forall len: nat | 3 <= len <= |s| ensures s[3..len] == w[..len - 3] && s[len..] == w[len - 3..] {
      SliceBehind([5, 1, r], w, 3, len);
      SliceBehind([5, 1, r], w, len, len);
    }
  }

  /** What it refuses: another version, no methods, no method it has, ... */
  lemma ServerRefusesMethods(version: byte, methods: seq<byte>, t: seq<byte>, norm: Normalise)
    requires |methods| <= 255
    ensures var r := Serve([version, |methods|] + methods + t, norm);
      && (version != 5 ==> r == Refused(UnexpectedData, []))
      && (version == 5 && 0 !in methods ==> r == Refused(UnexpectedData, METHOD_REFUSED))
  {
    var s := [version, |methods|] + methods + t;
    assert s[2..] == methods + t && (methods + t)[..|methods|] == methods;
  }

  /** ... and a request of another version, for anything but a connection, or for an address of an
      unknown type. */
  lemma ServerRefusesRequest(
      methods: seq<byte>, version: byte, command: byte, rsv: byte, atyp: byte, b: byte,
      t: seq<byte>, norm: Normalise)
    requires 1 <= |methods| <= 255 && 0 in methods
    requires version != 5 || command != 1 || (atyp != 1 && atyp != 3 && atyp != 4)
    ensures Serve([5, |methods|] + methods + ([version, command, rsv, atyp, b] + t), norm)
      == Refused(UnexpectedData, METHOD_OK + REJECTED)
  {
    MethodsTaken(methods, [version, command, rsv, atyp, b] + t, norm);
  }

  /** Nothing else is accepted. */
  lemma AcceptedMeans(s: seq<byte>, norm: Normalise)
    requires Serve(s, norm).Accepted?
    ensures var n := s[1] as int;
      && |s| >= n + 7 && s[0] == 5 && n > 0 && 0 in s[2..n + 2]
      && s[n + 2] == 5 && s[n + 3] == 1 && s[n + 5] in [1, 3, 4]
    ensures var t := s[s[1] as int + 2..]; var len := RequestLen(t);
      && len.Some? && 3 <= len.value <= |t|
      && var dest := ParseDest(t[3..len.value], norm);
      && dest.Some?
      && Serve(s, norm) == Accepted(dest.value.0, t[len.value..], METHOD_OK + GRANTED)
  {
    var n := s[1] as int;
    assert s[2..][..n] == s[2..n + 2] && s[2..][n..] == s[n + 2..];
  }

  /** The client gives up on any answer but the acceptance of its method, ... */
  lemma ClientNeedsMethod(a: byte, b: byte, tail: seq<byte>, dest: Destination)
    requires a != 5 || b != 0
    ensures Perform([a, b] + tail, dest) == Broken(UnexpectedData, GREETING)
  {
    assert ([a, b] + tail)[..2] == [a, b];
    assert [a, b][0] == a && [a, b][1] == b;
  }

  /** ... on any reply that does not grant the request, whatever follows, ... */
  lemma ClientNeedsGrant(version: byte, rep: byte, tail: seq<byte>, dest: Destination)
    requires version != 5 || rep != 0
    ensures Perform(METHOD_OK + ([version, rep] + tail), dest)
      == Broken(UnexpectedData, GREETING + Request(dest))
  {
    var t := [version, rep] + tail;
    MethodAccepted(t, dest);
    assert t[..2] == [version, rep];
    assert [version, rep][0] == version && [version, rep][1] == rep;
  }

  /** ... so on everything a server writes that refuses. */
  lemma RefusalBreaksClient(tail: seq<byte>, dest: Destination)
    ensures Perform(METHOD_REFUSED + tail, dest) == Broken(UnexpectedData, GREETING)
    ensures Perform(METHOD_OK + REJECTED + tail, dest)
      == Broken(UnexpectedData, GREETING + Request(dest))
  {
    ClientNeedsMethod(5, 0xff, tail, dest);
    var more := [0, 1, 0, 0, 0, 0, 0, 0] + tail;
    ClientNeedsGrant(5, 7, more, dest);
    assert METHOD_OK + REJECTED + tail == METHOD_OK + ([5, 7] + more);
  }

  /** A grant is taken with any bound address - of either family, or a name of up to 255 bytes - and
      the bytes behind it are kept. */
  lemma ClientTakesGrant(bound: Destination, rsv: byte, rest: seq<byte>, dest: Destination)
    requires FitsLength(bound)
    ensures Perform(METHOD_OK + ([5, 0, rsv] + (WriteDest(bound) + rest)), dest)
      == Done(rest, GREETING + Request(dest))
  {
    var w := WriteDest(bound);
    MethodAccepted([5, 0, rsv] + (w + rest), dest);
    WrittenLength(bound);
    WholeGrant(rsv, w, rest, GREETING + Request(dest));
  }

  lemma WholeGrant(rsv: byte, w: seq<byte>, rest: seq<byte>, written: seq<byte>)
    requires AddressLength(w)
    ensures PerformReply([5, 0, rsv] + (w + rest), written) == Done(rest, written)
  {
    var t := [5, 0, rsv] + (w + rest);
    assert t[0] == 5 && t[1] == 0 && t[..2] == [5, 0];
    assert t[2..6][1] == t[3] == w[0] && t[2..6][2] == t[4] == w[1];
    SliceBehind([5, 0, rsv], w + rest, 3 + |w|, 3 + |w|);
    assert (w + rest)[|w|..] == rest;
  }

  /** A grant with an address of an unknown type is refused. */
  lemma ClientNeedsAddress(
      rsv: byte, atyp: byte, b: byte, b': byte, tail: seq<byte>, dest: Destination)
    requires atyp != 1 && atyp != 3 && atyp != 4
    ensures Perform(METHOD_OK + ([5, 0, rsv, atyp, b, b'] + tail), dest)
      == Broken(UnexpectedData, GREETING + Request(dest))
  {
    var t := [5, 0, rsv, atyp, b, b'] + tail;
    MethodAccepted(t, dest);
    assert t[..2] == [5, 0] && t[2..6][1] == atyp;
  }

  /** An answer that stops short ends the handshake, whatever the address would have been. */
  lemma ClientNeedsAll(bound: Destination, rsv: byte, n: nat, dest: Destination)
    requires FitsLength(bound)
    requires n < 5 + |WriteDest(bound)|
    ensures Perform((METHOD_OK + ([5, 0, rsv] + WriteDest(bound)))[..n], dest)
      == Broken(Eof, if n < 2 then GREETING else GREETING + Request(dest))
  {
    var w := WriteDest(bound);
    var t := [5, 0, rsv] + w;
    if n >= 2 {
      var u := t[..n - 2];
      WrittenLength(bound);
      assert (METHOD_OK + t)[..n] == METHOD_OK + u;
      MethodAccepted(u, dest);
      ShortGrant(u, t, w, GREETING + Request(dest));
    }
  }

  lemma ShortGrant(u: seq<byte>, t: seq<byte>, w: seq<byte>, written: seq<byte>)
    requires |t| == |w| + 3 && t[3..] == w && t[0] == 5 && t[1] == 0 && u < t
    requires AddressLength(w)
    ensures PerformReply(u, written) == Broken(Eof, written)
  {
    assert |u| >= 2 ==> u[0] == 5 && u[1] == 0 && u[..2] == [5, 0];
    if |u| >= 6 {
      assert u[2..6][1] == u[3] == t[3] == t[3..][0] && u[2..6][2] == u[4] == t[4] == t[3..][1];
    }
  }

  // ---- the conversation of the two sides ----

  // What the client has put on its connection after receiving `b`: its handshake, then `x`.
  function ClientOut(b: seq<byte>, dest: Destination, x: seq<byte>): seq<byte> {
    match Perform(b, dest)
    case Done(_, written) => written + x
    case Broken(_, written) => written
  }

  // What the server has put on its connection after receiving `a`: its handshake, then `y`.
  function ServerOut(a: seq<byte>, norm: Normalise, y: seq<byte>): seq<byte> {
    match Serve(a, norm)
    case Accepted(_, _, written) => written + y
    case Refused(_, written) => written
    case Panicked(written) => written
  }

  function ToServer(dest: Destination, x: seq<byte>): seq<byte> {
    GREETING + Request(dest) + x
  }

  function ToClient(y: seq<byte>): seq<byte> {
    METHOD_OK + GRANTED + y
  }

  /** What the client sends depends only on how much of the server's bytes has arrived. */
  lemma ClientOutAt(n: nat, dest: Destination, x: seq<byte>, y: seq<byte>)
    requires n <= |ToClient(y)|
    ensures ClientOut(ToClient(y)[..n], dest, x) ==
      if n < 2 then GREETING else if n < 12 then GREETING + Request(dest) else ToServer(dest, x)
    ensures n >= 12 ==>
      Perform(ToClient(y)[..n], dest) == Done(ToClient(y)[12..n], GREETING + Request(dest))
  {
    var written := GREETING + Request(dest);
    if n >= 2 {
      var t := (GRANTED + y)[..n - 2];
      assert ToClient(y)[..n] == METHOD_OK + t;
      MethodAccepted(t, dest);
      if n >= 12 {
        assert t == GRANTED + ToClient(y)[12..n];
        WholeReply(ToClient(y)[12..n], written);
      } else {
        assert t == GRANTED[..n - 2];
        PartialReply(n - 2, written);
      }
    }
  }

  lemma MethodAccepted(t: seq<byte>, dest: Destination)
    ensures Perform(METHOD_OK + t, dest) == PerformReply(t, GREETING + Request(dest))
  {
    assert (METHOD_OK + t)[..2] == METHOD_OK && (METHOD_OK + t)[2..] == t;
  }

  lemma WholeReply(rest: seq<byte>, written: seq<byte>)
    ensures PerformReply(GRANTED + rest, written) == Done(rest, written)
  {
    var s := GRANTED + rest;
    assert s[0] == 5 && s[1] == 0 && s[3] == 1 && s[10..] == rest;
    assert s[..2] == [5, 0] && s[2..6][1] == 1;
  }

  lemma PartialReply(n: nat, written: seq<byte>)
    requires n < |GRANTED|
    ensures PerformReply(GRANTED[..n], written) == Broken(Eof, written)
  {
    var s := GRANTED[..n];
    if n >= 2 {
      assert s[0] == 5 && s[1] == 0;
      assert s[..2] == [5, 0];
    }
    if n >= 6 {
      assert s[2..6][1] == s[3] == GRANTED[3] == 1;
    }
  }

  lemma ServerOutAt(n: nat, dest: Destination, norm: Normalise, x: seq<byte>, y: seq<byte>)
    requires n <= |ToServer(dest, x)| && SocksLength(dest) && Normalised(dest, norm).Some?
    ensures ServerOut(ToServer(dest, x)[..n], norm, y) ==
      if n < 3 then [] else if n < 3 + |Request(dest)| then METHOD_OK else ToClient(y)
    ensures n >= 3 + |Request(dest)| ==>
      Serve(ToServer(dest, x)[..n], norm) == Accepted(
        Normalised(dest, norm).value, ToServer(dest, x)[3 + |Request(dest)|..n], METHOD_OK + GRANTED)
  {
    var req := Request(dest);
    if n >= 3 {
      var t := (req + x)[..n - 3];
      assert ToServer(dest, x) == GREETING + (req + x) && ToServer(dest, x)[..n] == GREETING + t;
      GreetingServed(t, norm);
      if n >= 3 + |req| {
        var rest := ToServer(dest, x)[3 + |req|..n];
        assert t == req + rest;
        ServedIff(dest, rest, norm);
      } else {
        assert t == req[..n - 3];
        PartialRequest(dest, n - 3, norm);
      }
    }
  }

  lemma GreetingServed(t: seq<byte>, norm: Normalise)
    ensures Serve(GREETING + t, norm) == ServeRequest(t, norm)
  {
    var a := GREETING + t;
    assert a[2..] == [0] + t && ([0] + t)[..1] == [0] && ([0] + t)[1..] == t;
  }

  lemma PartialRequest(dest: Destination, n: nat, norm: Normalise)
    requires SocksLength(dest) && n < |Request(dest)|
    ensures ServeRequest(Request(dest)[..n], norm) == Refused(Eof, METHOD_OK)
  {
    if n >= 5 {
      RequestLenOfRequest(dest, []);
      assert Request(dest) + [] == Request(dest);
      assert RequestLen(Request(dest)[..n]) == RequestLen(Request(dest));
    }
  }

  // A state of the connection: the bytes each side has received so far.
  datatype Net = Net(atServer: seq<byte>, atClient: seq<byte>)

  // Some more of what one side has sent arrives at the other, in any portion.
  predicate Delivers(s: Net, t: Net, dest: Destination, norm: Normalise, x: seq<byte>, y: seq<byte>)
  {
    || (t.atClient == s.atClient && s.atServer <= t.atServer <= ClientOut(s.atClient, dest, x))
    || (t.atServer == s.atServer && s.atClient <= t.atClient <= ServerOut(s.atServer, norm, y))
  }

  // Both sides have received prefixes of the intended conversation.
  predicate OnCourse(s: Net, dest: Destination, x: seq<byte>, y: seq<byte>) {
    s.atServer <= ToServer(dest, x) && s.atClient <= ToClient(y)
  }

  /** On course, what either side has sent is a prefix of the intended bytes. */
  lemma OutputsOnCourse(s: Net, dest: Destination, norm: Normalise, x: seq<byte>, y: seq<byte>)
    requires SocksLength(dest) && Normalised(dest, norm).Some? && OnCourse(s, dest, x, y)
    ensures ClientOut(s.atClient, dest, x) <= ToServer(dest, x)
    ensures ServerOut(s.atServer, norm, y) <= ToClient(y)
  {
    assert s.atClient == ToClient(y)[..|s.atClient|];
    assert s.atServer == ToServer(dest, x)[..|s.atServer|];
    ClientOutAt(|s.atClient|, dest, x, y);
    ServerOutAt(|s.atServer|, dest, norm, x, y);
  }

  /** Every run from the start, however the bytes are portioned and whichever side goes first, stays
      on course: neither side ever receives a wrong byte. */
  lemma RunStaysOnCourse(
      run: seq<Net>, dest: Destination, norm: Normalise, x: seq<byte>, y: seq<byte>)
    requires SocksLength(dest) && Normalised(dest, norm).Some?
    requires run != [] && run[0] == Net([], [])
    requires forall i :: 0 < i < |run| ==> Delivers(run[i - 1], run[i], dest, norm, x, y)
    ensures forall i :: 0 <= i < |run| ==> OnCourse(run[i], dest, x, y)
  {
    forall i | 0 <= i < |run| ensures OnCourse(run[i], dest, x, y) {
      StateOnCourse(run, i, dest, norm, x, y);
    }
  }

  lemma {:induction false} StateOnCourse(
      run: seq<Net>, i: nat, dest: Destination, norm: Normalise, x: seq<byte>, y: seq<byte>)
    requires SocksLength(dest) && Normalised(dest, norm).Some?
    requires i < |run| && run[0] == Net([], [])
    requires forall i :: 0 < i < |run| ==> Delivers(run[i - 1], run[i], dest, norm, x, y)
    ensures OnCourse(run[i], dest, x, y)
  {
    if i > 0 {
      StateOnCourse(run, i - 1, dest, norm, x, y);
      StepOnCourse(run[i - 1], run[i], dest, norm, x, y);
    }
  }

  lemma StepOnCourse(
      s: Net, t: Net, dest: Destination, norm: Normalise, x: seq<byte>, y: seq<byte>)
    requires SocksLength(dest) && Normalised(dest, norm).Some? && OnCourse(s, dest, x, y)
    requires Delivers(s, t, dest, norm, x, y)
    ensures OnCourse(t, dest, x, y)
  {
    OutputsOnCourse(s, dest, norm, x, y);
  }

  /** No deadlock and the right end: when nothing is left in flight, both handshakes are complete,
      the server has the normalised destination, and each side holds exactly the other's bytes
      behind its handshake. */
  lemma QuietMeansDone(s: Net, dest: Destination, norm: Normalise, x: seq<byte>, y: seq<byte>)
    requires SocksLength(dest) && Normalised(dest, norm).Some? && OnCourse(s, dest, x, y)
    requires s.atServer == ClientOut(s.atClient, dest, x)
    requires s.atClient == ServerOut(s.atServer, norm, y)
    ensures Serve(s.atServer, norm) == Accepted(Normalised(dest, norm).value, x, METHOD_OK + GRANTED)
    ensures Perform(s.atClient, dest) == Done(y, GREETING + Request(dest))
  {
    assert s.atClient == ToClient(y)[..|s.atClient|];
    assert s.atServer == ToServer(dest, x)[..|s.atServer|];
    ClientOutAt(|s.atClient|, dest, x, y);
    ServerOutAt(|s.atServer|, dest, norm, x, y);
    assert s.atServer == ToServer(dest, x) && s.atClient == ToClient(y);
    assert ToServer(dest, x)[3 + |Request(dest)|..] == x;
    assert ToClient(y)[12..] == y;
  }
}
