/** Where the packets of a client end up under a generated configuration: out directly, dropped, or through the
    server of one of the user's clients. The references are in terms of the request alone. */
module GeneratorFate {
  import opened Generator
  import opened GeneratorMeaning
  import opened GeneratorClosure
  import opened Lists
  import opened Options
  import opened Routing
  import opened Text

  // ----- what an outbound does -----

  datatype Fate = Leaves | Dropped | Through(protocol: string, host: string, port: int) | Lost

  /** One fate, or that of one of several outbounds with another to fall back to. */
  datatype Way = One(fate: Fate) | OneOf(fates: seq<Fate>, otherwise: Fate, strategy: string) | NoWay

  function FateOf(ob: Outbound): Fate {
    if ob.protocol == "freedom" then Leaves
    else if ob.protocol == "blackhole" then Dropped
    else Through(ob.protocol, ob.host, ob.port)
  }

  function Lookup(obs: seq<Outbound>, tag: string): Option<Outbound> {
    if obs == [] then None else if obs[0].tag == tag then Some(obs[0]) else Lookup(obs[1..], tag)
  }

  function FateAt(obs: seq<Outbound>, tag: string): Fate {
    match Lookup(obs, tag)
    case Some(ob) => FateOf(ob)
    case None => Lost
  }

  function FatesAt(obs: seq<Outbound>, tags: seq<string>): seq<Fate> {
    seq(|tags|, i requires 0 <= i < |tags| => FateAt(obs, tags[i]))
  }

  function WayOf(cfg: Config, target: Target): Way {
    match target
    case ToOutbound(tag) => One(FateAt(cfg.outbounds, tag))
    case ToBalancer(name) =>
      if cfg.balancers != [] && cfg.balancers[0].tag == name then
        var b := cfg.balancers[0];
        OneOf(FatesAt(cfg.outbounds, b.selector), FateAt(cfg.outbounds, b.fallbackTag), b.strategy)
      else NoWay
    case Unrouted => NoWay
  }

  // ----- what is meant to happen -----

  /** Whether the client's transport is XHTTP: by the network its inbound is stored with or, when that does not say,
      by the inbound tag. */
  ghost predicate UsesXHTTP(c: Client) {
    var network := if c.raw.Inbound? then Lower(Trim(c.raw.network)) else "";
    || network == "xhttp" || network == "splithttp"
    || (network == "" && Occurs("xhttp", Lower(c.inboundTag)))
  }

  ghost predicate Occurs(p: string, s: string) {
    exists before, after :: s == before + p + after
  }

  /** Whether an outbound can be made for the client. */
  predicate CanServe(c: Client) {
    && c.credentialsParse && c.raw.Inbound? && c.settingsBuild
    && (Lower(c.protocol) == "vmess" || Lower(c.protocol) == "vless" || Lower(c.protocol) == "trojan"
        || Lower(c.protocol) == "shadowsocks" || Lower(c.protocol) == "socks")
  }

  /** The first of these that is not blank, or the last resort. */
  function FirstSet(texts: seq<string>, last: string): string {
    if texts == [] then last else if Trim(texts[0]) != "" then texts[0] else FirstSet(texts[1..], last)
  }

  function FirstPositive(numbers: seq<int>, last: int): int {
    if numbers == [] then last else if numbers[0] > 0 then numbers[0] else FirstPositive(numbers[1..], last)
  }

  /** The server a client goes through: the node's address, else the one set for the inbound, else the common one. */
  function Server(req: Request, c: Client): Fate {
    Through(Lower(c.protocol),
            FirstSet([c.nodeHost, if c.inboundTag in req.hosts then req.hosts[c.inboundTag] else ""], req.serverHost),
            FirstPositive([c.nodePort, if c.inboundTag in req.ports then req.ports[c.inboundTag] else 0], c.port))
  }

  function Servers(req: Request, cs: seq<Client>): seq<Fate> {
    seq(|cs|, i requires 0 <= i < |cs| => Server(req, cs[i]))
  }

  ghost function Primary(): Client -> bool {
    (c: Client) => UsesXHTTP(c)
  }

  ghost function Secondary(): Client -> bool {
    (c: Client) => !UsesXHTTP(c)
  }

  /** The strategy in Xray's spelling; least ping when it is none of the four. */
  function Strategy(text: string): string {
    match Lower(Trim(text))
    case "random" => "random"
    case "roundrobin" => "roundRobin"
    case "leastload" => "leastLoad"
    case _ => "leastPing"
  }

  /** The way of everything that is to be proxied: the only client, or one of the XHTTP clients with another kind to
      fall back to, or one of all when there is no XHTTP client. */
  ghost function MainWay(req: Request): Way {
    var x := Filter(CanServe, Filter(Primary(), req.clients));
    var o := Filter(CanServe, Filter(Secondary(), req.clients));
    if |x| + |o| == 1 then One(Server(req, (x + o)[0]))
    else if x == [] then
      if o == [] then NoWay else OneOf(Servers(req, o), Server(req, o[0]), Strategy(req.strategy))
    else OneOf(Servers(req, x), Server(req, if o != [] then o[0] else x[0]), Strategy(req.strategy))
  }

  /** "direct" and "block" have their fate in lower case only; in another spelling they lead nowhere. */
  ghost function Meant(req: Request, tag: string): Way {
    if Lower(Trim(tag)) == "proxy" then MainWay(req)
    else if Trim(tag) == "direct" then One(Leaves)
    else if Trim(tag) == "block" then One(Dropped)
    else One(Lost)
  }

  ghost function IntendedWay(req: Request, p: Packet): Way {
    match Choice(req.userRoutes, p)
    case Some(tag) => Meant(req, tag)
    case None =>
      match Choice(req.globalRoutes, p)
      case Some(tag) => Meant(req, tag)
      case None =>
        match DefaultChoice(p)
        case Some(tag) => Meant(req, tag)
        case None => MainWay(req)
  }

  // ----- the pieces -----

  lemma OccursFirst(p: string, s: string)
    requires HasPrefix(s, p)
    ensures Occurs(p, s)
  {
    assert s == "" + p + s[|p|..];
  }

  lemma OccursFurther(p: string, c: char, s: string)
    requires Occurs(p, s)
    ensures Occurs(p, [c] + s)
  {
    var before, after :| s == before + p + after;
    assert [c] + s == ([c] + before) + p + after;
  }

  lemma OccursLater(p: string, s: string)
    requires Occurs(p, s) && !HasPrefix(s, p)
    ensures s != "" && Occurs(p, s[1..])
  {
    var before, after :| s == before + p + after;
    assert s[1..] == before[1..] + p + after;
  }

  lemma {:induction false} ContainsIs(s: string, p: string)
    ensures Contains(s, p) <==> Occurs(p, s)
  {
    hide Occurs;
    if HasPrefix(s, p) {
      OccursFirst(p, s);
    } else if s == "" {
      if Occurs(p, s) {
        OccursLater(p, s);
      }
    } else {
      ContainsIs(s[1..], p);
      assert s == [s[0]] + s[1..];
      if Occurs(p, s) {
        OccursLater(p, s);
      }
      if Occurs(p, s[1..]) {
        OccursFurther(p, s[0], s[1..]);
      }
    }
  }

  lemma XHTTPIs(c: Client)
    ensures IsXHTTP(c) <==> UsesXHTTP(c)
  {
    hide Lower, Trim, Contains;
    ContainsIs(Lower(c.inboundTag), "xhttp");
  }

  lemma EndpointIs(req: Request, c: Client)
    ensures Server(req, c) == Through(Lower(c.protocol), HostFor(req, c), PortFor(req, c))
  {
    hide Trim, Lower;
    var h, p := if c.inboundTag in req.hosts then req.hosts[c.inboundTag] else "", if c.inboundTag in req.ports then req.ports[c.inboundTag] else 0;
    BlankTrim();
    assert [c.nodeHost, h][1..] == [h] && [h][1..] == [] && [c.nodePort, p][1..] == [p] && [p][1..] == [];
    assert FirstSet([h], req.serverHost) == if Trim(h) != "" then h else FirstSet([], req.serverHost);
    assert FirstPositive([p], c.port) == if p > 0 then p else FirstPositive([], c.port);
  }

  lemma BlankTrim()
    ensures Trim("") == ""
  {
  }

  lemma StrategyIs(text: string)
    ensures Normalized(text) == Strategy(text)
  {
    hide Trim, Lower;
  }

  lemma BuildableIs(c: Client)
    ensures Buildable(c) <==> CanServe(c)
  {
    hide Lower;
  }

  function FateBy(p: Proxy): Fate {
    FateOf(p.outbound)
  }

  /** What a client's outbound does. */
  lemma ProxyFate(req: Request, c: Client, i: nat)
    requires Buildable(c)
    ensures FateBy(ProxyFor(req, c, i)) == Server(req, c)
    ensures ProxyFor(req, c, i).xhttp == UsesXHTTP(c)
  {
    hide Trim, Lower, Tag, HostFor, PortFor, IsXHTTP, UsesXHTTP, Server;
    EndpointIs(req, c);
    XHTTPIs(c);
    assert "freedom"[0] == 'f' && "blackhole"[0] == 'b';
    assert forall s :: s in PROTOCOLS ==> s[0] != 'f' && s[0] != 'b';
  }

  /** The fates of the outbounds made for clients that are all of one kind. */
  lemma {:induction false} EmittedFates(req: Request, cs: seq<Client>, i: nat, x: bool)
    requires forall c :: c in cs ==> UsesXHTTP(c) == x
    ensures var ps := Emitted(req, cs, i);
            && Map(FateBy, ps) == Servers(req, Filter(CanServe, cs))
            && forall p :: p in ps ==> p.xhttp == x
    decreases |cs|
  {
    hide Buildable, CanServe, ProxyFor, UsesXHTTP, Server, FateBy;
    if cs != [] {
      assert cs == [cs[0]] + cs[1..] && cs[0] in cs;
      BuildableIs(cs[0]);
      EmittedFates(req, cs[1..], i + 1, x);
      if Buildable(cs[0]) {
        ProxyFate(req, cs[0], i);
      }
    }
  }

  // ----- looking outbounds up -----

  lemma {:induction false} LookupIs(obs: seq<Outbound>, k: nat)
    requires k < |obs| && forall i :: 0 <= i < k ==> obs[i].tag != obs[k].tag
    ensures Lookup(obs, obs[k].tag) == Some(obs[k])
  {
    if k > 0 {
      assert obs[0].tag != obs[k].tag;
      LookupIs(obs[1..], k - 1);
    }
  }

  lemma {:induction false} LookupNone(obs: seq<Outbound>, tag: string)
    requires forall i :: 0 <= i < |obs| ==> obs[i].tag != tag
    ensures Lookup(obs, tag) == None
  {
    if obs != [] {
      assert obs[0].tag != tag;
      LookupNone(obs[1..], tag);
    }
  }

  /** Every outbound of the configuration is found by its tag. */
  lemma GeneratedLookup(req: Request, k: nat)
    requires Proxies(req) != [] && k < |Generated(req).outbounds|
    ensures FateAt(Generated(req).outbounds, Generated(req).outbounds[k].tag) == FateOf(Generated(req).outbounds[k])
  {
    hide Generated, Proxies, FateOf;
    var obs := Generated(req).outbounds;
    forall i | 0 <= i < k
      ensures obs[i].tag != obs[k].tag
    {
      OutboundTagsDistinct(req, i, k);
    }
    LookupIs(obs, k);
  }

  lemma GeneratedOutbounds(req: Request)
    requires Proxies(req) != []
    ensures var obs, ps := Generated(req).outbounds, Proxies(req);
            && |obs| == |ps| + 2 && (forall k :: 0 <= k < |ps| ==> obs[k] == ps[k].outbound)
            && obs[|ps|] == DIRECT && obs[|ps| + 1] == BLOCK
  {
    hide Proxies, ResolvedRules, BaseRules, CatchAll, Selector, Fallback, Normalized, MainTarget, Trim;
  }

  lemma FatesOfProxies(req: Request, ps: seq<Proxy>)
    requires Proxies(req) != [] && forall p :: p in ps ==> p in Proxies(req)
    ensures FatesAt(Generated(req).outbounds, Map(TagOf, ps)) == Map(FateBy, ps)
  {
    hide Generated, Proxies, FateOf, FateAt;
    GeneratedOutbounds(req);
    forall i | 0 <= i < |ps|
      ensures FateAt(Generated(req).outbounds, ps[i].outbound.tag) == FateBy(ps[i])
    {
      assert ps[i] in ps && ps[i] in Proxies(req);
      var k :| 0 <= k < |Proxies(req)| && Proxies(req)[k] == ps[i];
      GeneratedLookup(req, k);
    }
  }

  /** "direct" leads out and "block" drops, and no other spelling leads anywhere. */
  lemma FixedFate(req: Request, tag: string)
    requires Proxies(req) != [] && Allowed(tag) && Fold(tag) != "proxy"
    ensures FateAt(Generated(req).outbounds, Trim(tag)) ==
            if Trim(tag) == "direct" then Leaves else if Trim(tag) == "block" then Dropped else Lost
  {
    hide Generated, Proxies, Trim, Allowed, Fold, Lookup;
    GeneratedOutbounds(req);
    var obs, n := Generated(req).outbounds, |Proxies(req)|;
    GeneratedLookup(req, n);
    GeneratedLookup(req, n + 1);
    FixedFates();
    if Trim(tag) != "direct" && Trim(tag) != "block" {
      AllowedTrim(tag);
      FoldTrim(tag);
      forall k | 0 <= k < |obs|
        ensures obs[k].tag != Trim(tag)
      {
        if k < n {
          ProxyTag(req, k);
          AllowedNotEmpty(Trim(tag));
        }
      }
      LookupNone(obs, Trim(tag));
    }
  }

  lemma FixedFates()
    ensures FateOf(DIRECT) == Leaves && DIRECT.tag == "direct" && FateOf(BLOCK) == Dropped && BLOCK.tag == "block"
  {
    assert "freedom"[0] != "blackhole"[0];
  }

  // ----- where the main target leads -----

  /** The proxies of a request: those of the XHTTP clients, then those of the others. */
  lemma ProxiesByKind(req: Request) returns (a: seq<Proxy>, b: seq<Proxy>)
    ensures Proxies(req) == a + b && Filter(ViaXHTTP, a + b) == a && Filter(ViaOther, a + b) == b
    ensures Map(FateBy, a) == Servers(req, Filter(CanServe, Filter(Primary(), req.clients)))
    ensures Map(FateBy, b) == Servers(req, Filter(CanServe, Filter(Secondary(), req.clients)))
  {
    hide Emitted, IsXHTTP, UsesXHTTP, CanServe, Filter, Server, FateBy;
    forall c
      ensures IsXHTTP(c) == Primary()(c) && IsOther(c) == Secondary()(c)
    {
      XHTTPIs(c);
    }
    FilterSame(IsXHTTP, Primary(), req.clients);
    FilterSame(IsOther, Secondary(), req.clients);
    FilterMembers(Primary(), req.clients);
    FilterMembers(Secondary(), req.clients);
    var x, o := Filter(IsXHTTP, req.clients), Filter(IsOther, req.clients);
    EmittedConcat(req, x, o, 0);
    a, b := Emitted(req, x, 0), Emitted(req, o, |x|);
    EmittedFates(req, x, 0, true);
    EmittedFates(req, o, |x|, false);
    FilterConcat(ViaXHTTP, a, b);
    FilterConcat(ViaOther, a, b);
    FilterAll(ViaXHTTP, a);
    FilterAll(ViaOther, b);
    FilterNone(ViaXHTTP, b);
    FilterNone(ViaOther, a);
    assert a + [] == a && [] + b == b;
  }

  lemma MainWayIs(req: Request)
    requires Proxies(req) != []
    ensures WayOf(Generated(req), MainTarget(Proxies(req))) == MainWay(req)
  {
    hide Proxies, Filter, Server, FateOf, Lookup, Strategy, Normalized, BaseRules, ResolvedRules, CatchAll, CanServe, Trim, FateBy, FateAt;
    var a, b := ProxiesByKind(req);
    var ps, obs := Proxies(req), Generated(req).outbounds;
    var x, o := Filter(CanServe, Filter(Primary(), req.clients)), Filter(CanServe, Filter(Secondary(), req.clients));
    StrategyIs(req.strategy);
    assert |x| == |Map(FateBy, a)| == |a| && |o| == |Map(FateBy, b)| == |b|;
    FatesOfProxies(req, a);
    FatesOfProxies(req, b);
    forall i | 0 <= i < |a|
      ensures FateAt(obs, a[i].outbound.tag) == Server(req, x[i])
    {
      assert FatesAt(obs, Map(TagOf, a))[i] == Map(FateBy, a)[i];
    }
    forall i | 0 <= i < |b|
      ensures FateAt(obs, b[i].outbound.tag) == Server(req, o[i])
    {
      assert FatesAt(obs, Map(TagOf, b))[i] == Map(FateBy, b)[i];
    }
    assert Map(TagOf, ps) == if a == [] then Map(TagOf, b) else Map(TagOf, a + b);
    assert a == [] ==> ps == b;
  }

  // ----- when there is a configuration -----

  lemma {:induction false} CountBoth(f: Client -> bool, g: Client -> bool, h: Client -> bool, xs: seq<Client>)
    requires forall x :: h(x) == !g(x)
    ensures |Filter(f, Filter(g, xs))| + |Filter(f, Filter(h, xs))| == |Filter(f, xs)|
  {
    if xs != [] {
      CountBoth(f, g, h, xs[1..]);
      FilterHead(f, xs[0], Filter(g, xs[1..]));
      FilterHead(f, xs[0], Filter(h, xs[1..]));
    }
  }

  /** One proxy for every client that can be served. */
  lemma ProxyCount(req: Request)
    ensures |Proxies(req)| == |Filter(CanServe, req.clients)|
  {
    hide Proxies, Filter, CanServe, UsesXHTTP, Server;
    var a, b := ProxiesByKind(req);
    assert |a| == |Map(FateBy, a)| && |b| == |Map(FateBy, b)|;
    CountBoth(CanServe, Primary(), Secondary(), req.clients);
  }

  /** There is a configuration exactly when some client can be served. */
  lemma GeneratedExactly(req: Request)
    ensures Proxies(req) != [] <==> exists c :: c in req.clients && CanServe(c)
  {
    hide Proxies, Filter, CanServe;
    ProxyCount(req);
    FilterMembers(CanServe, req.clients);
    var able := Filter(CanServe, req.clients);
    if able != [] {
      assert able[0] in able;
    }
  }

  /** Main result: whatever the packet, it ends up where the request means it to: out directly, dropped, or through
      the server of a client that can be served, balanced over the XHTTP ones. */
  lemma FateMeaning(req: Request, p: Packet)
    requires WellFormed(p) && exists c :: c in req.clients && CanServe(c)
    ensures Proxies(req) != []
    ensures WayOf(Generated(req), Route(Generated(req).rules, p)) == IntendedWay(req, p)
  {
    hide Generated, Proxies, MainTarget, Route, Choice, DefaultChoice, WellFormed, MainWay, WayOf, Meant, Reach, CanServe;
    GeneratedExactly(req);
    RoutingMeaning(req, p);
    MainWayIs(req);
    ChoiceAllowed(req.userRoutes, p);
    ChoiceAllowed(req.globalRoutes, p);
    DefaultAllowed(p);
    forall tag | Allowed(tag)
      ensures WayOf(Generated(req), Reach(tag, MainTarget(Proxies(req)))) == Meant(req, tag)
    {
      TagMeant(req, tag);
    }
  }

  lemma TagMeant(req: Request, tag: string)
    requires Proxies(req) != [] && Allowed(tag)
    ensures WayOf(Generated(req), Reach(tag, MainTarget(Proxies(req)))) == Meant(req, tag)
  {
    hide Generated, Proxies, MainTarget, MainWay, Trim, Lower, Allowed, FateAt;
    MainWayIs(req);
    if Fold(tag) != "proxy" {
      FixedFate(req, tag);
    }
  }

  lemma ChoiceAllowed(routes: Routes, p: Packet)
    ensures Choice(routes, p).Some? ==> Allowed(Choice(routes, p).value)
  {
    if routes.Stored? {
      HitAllowed(routes.rules, p);
    }
  }

  lemma {:induction false} HitAllowed(us: seq<UserRule>, p: Packet)
    ensures FirstHit(us, p).Some? ==> Allowed(FirstHit(us, p).value)
  {
    hide Allowed, Hits;
    if us != [] {
      HitAllowed(us[1..], p);
    }
  }

  lemma DefaultAllowed(p: Packet)
    ensures DefaultChoice(p).Some? ==> Allowed(DefaultChoice(p).value)
  {
    assert Fold("direct") == "direct" && Fold("block") == "block" && Fold("proxy") == "proxy";
  }
}
