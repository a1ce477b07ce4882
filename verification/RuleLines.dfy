// A parsed rule file: one entry per numbered line, in file order.
module RuleLines {
  type Name = string
  type ActionHandle = a: nat | a < 256
  // Line numbers start at 1.
  type RuleId = nat

  const ID_SPAN := 0x100_0000

  // 8 bits of action above 24 bits of rule id; shifts and masks are written as arithmetic.
  datatype RuleHandle = RuleHandle(raw: nat) {
    function Action(): nat { raw / ID_SPAN }
    function Id(): nat { raw % ID_SPAN }
  }

  function NewHandle(action: ActionHandle, id: RuleId): (h: RuleHandle)
    ensures h.raw < 0x1_0000_0000
    ensures h.Action() == action && h.Id() == id % ID_SPAN
    ensures h.Id() == id <==> id < ID_SPAN
  {
    RuleHandle(action * ID_SPAN + id % ID_SPAN)
  }

  // An address block given by its first and last address.
  datatype AddressRange = AddressRange(first: nat, last: nat) {
    predicate Contains(ip: nat) { first <= ip <= last }
  }

  type Cidr = r: AddressRange | r.first <= r.last witness AddressRange(0, 0)

  datatype Ip = V4(v4: nat) | V6(v6: nat)

  datatype DomainKind = Full | Suffix | Keyword

  datatype IpKind = Net4 | Net6 | Country

  // What an address rule tests: a block of one family, or a country code.
  datatype IpSet = Block4(b4: Cidr) | Block6(b6: Cidr) | Code(code: Name) {
    function Kind(): IpKind {
      match this case Block4(_) => Net4 case Block6(_) => Net6 case Code(_) => Country
    }
  }

  // `Ignored` is a line that is numbered but yields no rule.
  datatype Line =
    | Ignored
    | DomainRule(kind: DomainKind, pattern: Name, dAction: ActionHandle)
    | IpRule(ipSet: IpSet, iAction: ActionHandle, noResolve: bool)
    | FinalRule(fAction: ActionHandle)
  {
    function Action(): ActionHandle {
      match this
      case Ignored => 0
      case DomainRule(_, _, a) => a
      case IpRule(_, a, _) => a
      case FinalRule(a) => a
    }

    predicate Resolving() {
      IpRule? && !noResolve
    }
  }

  // What a domain rule means for a host name without its trailing dot.
  predicate Means(kind: DomainKind, pattern: Name, host: Name) {
    match kind
    case Full => host == pattern
    case Suffix => host == pattern || EndsWith(host, "." + pattern)
    case Keyword => exists at :: 0 <= at <= |host| && Occurs(pattern, host, at)
  }

  predicate EndsWith(s: Name, t: Name) {
    |t| <= |s| && s[|s| - |t|..] == t
  }

  predicate Occurs(pattern: Name, host: Name, at: nat) {
    at + |pattern| <= |host| && host[at..at + |pattern|] == pattern
  }

  function StripDot(host: Name): Name {
    if host != [] && host[|host| - 1] == '.' then host[..|host| - 1] else host
  }
}
