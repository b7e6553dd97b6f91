/** Routing rules and what a rule list does to a packet: the first rule that matches decides. Inside one
    field any selector suffices, different fields must all agree, an empty field is no condition. */
module Routing {
  import opened Text

  datatype Rule = Rule(
    ty: string, inboundTag: seq<string>, outboundTag: string, balancerTag: string, domain: seq<string>,
    ip: seq<string>, network: string, port: string, protocol: seq<string>)

  /** A packet is known by the selectors it satisfies, field by field. */
  datatype Packet = Packet(
    inbound: string -> bool, domain: string -> bool, ip: string -> bool, network: string -> bool,
    port: string -> bool, protocol: string -> bool)

  const ALL_PORTS := "0-65535"

  /** Every packet has a port in the full range, and a blank network or port text selects nothing. */
  ghost predicate WellFormed(p: Packet) {
    && p.port(ALL_PORTS)
    && forall s :: Trim(s) == "" ==> !p.network(s) && !p.port(s)
  }

  ghost predicate FieldHit(selectors: seq<string>, hit: string -> bool) {
    selectors == [] || exists s :: s in selectors && hit(s)
  }

  ghost predicate TextHit(text: string, hit: string -> bool) {
    text == "" || hit(text)
  }

  ghost predicate Matches(r: Rule, p: Packet) {
    && FieldHit(r.inboundTag, p.inbound)
    && FieldHit(r.domain, p.domain)
    && FieldHit(r.ip, p.ip)
    && TextHit(r.network, p.network)
    && TextHit(r.port, p.port)
    && FieldHit(r.protocol, p.protocol)
  }

  datatype Target = ToOutbound(tag: string) | ToBalancer(name: string) | Unrouted

  function TargetOf(r: Rule): Target {
    if r.balancerTag != "" then ToBalancer(r.balancerTag) else ToOutbound(r.outboundTag)
  }

  ghost function Route(rules: seq<Rule>, p: Packet): Target {
    if rules == [] then Unrouted
    else if Matches(rules[0], p) then TargetOf(rules[0])
    else Route(rules[1..], p)
  }

  lemma RouteHead(r: Rule, rest: seq<Rule>, p: Packet)
    ensures Route([r] + rest, p) == if Matches(r, p) then TargetOf(r) else Route(rest, p)
  {
    assert ([r] + rest)[1..] == rest;
  }

  lemma {:induction false} RouteConcat(a: seq<Rule>, b: seq<Rule>, p: Packet)
    ensures Route(a + b, p) == if Route(a, p) != Unrouted then Route(a, p) else Route(b, p)
  {
    if a == [] {
      assert a + b == b;
    } else {
      RouteConcat(a[1..], b, p);
      assert (a + b)[1..] == a[1..] + b;
    }
  }
}
