/** The client-config generator: stored routes, defaults and a client list become an ordered rule list,
    proxy outbounds and a balancer. */
module Generator {
  import opened Lists
  import opened Options
  import opened Routing
  import opened Text

  // ----- input -----

  datatype UserRule = UserRule(
    ty: string, outboundTag: string, domain: seq<string>, ip: seq<string>, network: string, port: string,
    protocol: seq<string>, inboundTag: seq<string>)

  /** The stored routes text: blank or null, not JSON, or a list of rules. */
  datatype Routes = Absent | Malformed | Stored(rules: seq<UserRule>)

  /** The stored inbound text: blank, not JSON, or an object with this transport network ("" when unset). */
  datatype Raw = Blank | Unparseable | Inbound(network: string)

  /** One credential of the user. credentialsParse and settingsBuild stand for the JSON of the stored
      credential and for the per-protocol settings builders, either of which can fail. */
  datatype Client = Client(
    inboundTag: string, protocol: string, port: int, raw: Raw, credentialsParse: bool, settingsBuild: bool,
    nodeHost: string, nodePort: int)

  datatype Request = Request(
    serverHost: string, hosts: map<string, string>, ports: map<string, int>, userRoutes: Routes,
    globalRoutes: Routes, clients: seq<Client>, strategy: string, probeURL: string, probeInterval: string)

  // ----- output -----

  datatype Outbound = Outbound(tag: string, protocol: string, host: string, port: int)

  datatype Balancer = Balancer(tag: string, selector: seq<string>, strategy: string, fallbackTag: string)

  datatype Observatory = Observatory(subjects: seq<string>, probeURL: string, probeInterval: string)

  datatype Config = Config(
    outbounds: seq<Outbound>, rules: seq<Rule>, balancers: seq<Balancer>, observatory: Option<Observatory>)

  const BALANCER := "proxy-balance"
  const DIRECT := Outbound("direct", "freedom", "", 0)
  const BLOCK := Outbound("block", "blackhole", "", 0)

  // ----- XHTTP clients first -----

  predicate IsXHTTP(c: Client) {
    if c.raw.Inbound? && Fold(c.raw.network) != "" then
      Fold(c.raw.network) == "xhttp" || Fold(c.raw.network) == "splithttp"
    else Contains(Lower(c.inboundTag), "xhttp")
  }

  predicate IsOther(c: Client) {
    !IsXHTTP(c)
  }

  function Priority(c: Client): int {
    if IsXHTTP(c) then 0 else 1
  }

  function XHTTPFirst(clients: seq<Client>): seq<Client> {
    Filter(IsXHTTP, clients) + Filter(IsOther, clients)
  }

  /** out is a stable sort of clients: priorities ascend and equals keep their order. */
  ghost predicate StableSortOf(out: seq<Client>, clients: seq<Client>) {
    && (forall i, j :: 0 <= i < j < |out| ==> Priority(out[i]) <= Priority(out[j]))
    && Filter(IsXHTTP, out) == Filter(IsXHTTP, clients)
    && Filter(IsOther, out) == Filter(IsOther, clients)
  }

  /** There is exactly one stable sort: the XHTTP clients followed by the rest. */
  lemma {:induction false} StableSortUnique(out: seq<Client>, clients: seq<Client>)
    requires StableSortOf(out, clients)
    ensures out == XHTTPFirst(clients)
  {
    XHTTPFirstOfSorted(out);
  }

  lemma {:induction false} XHTTPFirstOfSorted(out: seq<Client>)
    requires forall i, j :: 0 <= i < j < |out| ==> Priority(out[i]) <= Priority(out[j])
    ensures out == XHTTPFirst(out)
  {
    if out != [] {
      XHTTPFirstOfSorted(out[1..]);
      if IsOther(out[0]) {
        forall x | x in out
          ensures !IsXHTTP(x)
        {
          var i :| 0 <= i < |out| && out[i] == x;
          assert Priority(out[0]) <= Priority(out[i]);
        }
        FilterNone(IsXHTTP, out);
        FilterAll(IsOther, out);
      }
    }
  }

  lemma {:induction false} SplitKeepsAll(clients: seq<Client>)
    ensures multiset(XHTTPFirst(clients)) == multiset(clients)
  {
    if clients != [] {
      SplitKeepsAll(clients[1..]);
      assert clients == [clients[0]] + clients[1..];
      FilterHead(IsXHTTP, clients[0], clients[1..]);
      FilterHead(IsOther, clients[0], clients[1..]);
    }
  }

  lemma XHTTPFirstIsStableSort(clients: seq<Client>)
    ensures StableSortOf(XHTTPFirst(clients), clients)
  {
    var x, o := Filter(IsXHTTP, clients), Filter(IsOther, clients);
    FilterMembers(IsXHTTP, clients);
    FilterMembers(IsOther, clients);
    FilterConcat(IsXHTTP, x, o);
    FilterConcat(IsOther, x, o);
    FilterAll(IsXHTTP, x);
    FilterAll(IsOther, o);
    FilterNone(IsXHTTP, o);
    FilterNone(IsOther, x);
    forall i, j | 0 <= i < j < |x + o|
      ensures Priority((x + o)[i]) <= Priority((x + o)[j])
    {
      if i >= |x| {
        assert (x + o)[i] in o && (x + o)[j] in o;
      } else {
        assert (x + o)[i] in x;
      }
    }
  }

  lemma InsertStable(clients: seq<Client>, i: nat)
    requires i < |clients|
    ensures XHTTPFirst(clients[..i + 1]) ==
            var x, o := Filter(IsXHTTP, clients[..i]), Filter(IsOther, clients[..i]);
            if IsXHTTP(clients[i]) then x + [clients[i]] + o else x + o + [clients[i]]
  {
    hide IsXHTTP;
    FilterStep(IsXHTTP, clients, i);
    FilterStep(IsOther, clients, i);
  }

  /** A stable insertion sort by priority on a copy. */
  method SortClientsXHTTPFirst(clients: seq<Client>) returns (out: seq<Client>)
    ensures out == XHTTPFirst(clients)
  {
    hide IsXHTTP, Filter;
    out := [];
    SplitKeepsAll([]);
    assert clients[..0] == [];
    for i := 0 to |clients|
      invariant out == XHTTPFirst(clients[..i])
    {
      ghost var x, o := Filter(IsXHTTP, clients[..i]), Filter(IsOther, clients[..i]);
      XHTTPFirstPriorities(clients[..i]);
      InsertStable(clients, i);
      var k := |out|;
      while k > 0 && Priority(clients[i]) < Priority(out[k - 1])
        invariant 0 <= k <= |out|
        invariant IsOther(clients[i]) ==> k == |out|
        invariant IsXHTTP(clients[i]) ==> k >= |x|
      {
        k := k - 1;
      }
      out := out[..k] + [clients[i]] + out[k..];
    }
    assert clients[..|clients|] == clients;
  }

  lemma XHTTPFirstPriorities(clients: seq<Client>)
    ensures var out, n := XHTTPFirst(clients), |Filter(IsXHTTP, clients)|;
            && (forall k :: 0 <= k < n ==> Priority(out[k]) == 0)
            && (forall k :: n <= k < |out| ==> Priority(out[k]) == 1)
  {
    hide IsXHTTP, Filter;
    var x, o := Filter(IsXHTTP, clients), Filter(IsOther, clients);
    FilterMembers(IsXHTTP, clients);
    FilterMembers(IsOther, clients);
    var out := XHTTPFirst(clients);
    forall k | 0 <= k < |out|
      ensures Priority(out[k]) == if k < |x| then 0 else 1
    {
      if k < |x| {
        assert x[k] in x;
      } else {
        assert o[k - |x|] in o;
      }
    }
  }

  // ----- outbounds -----

  function SanitizeTag(tag: string): (r: string)
    ensures |r| == |tag|
  {
    seq(|tag|, i requires 0 <= i < |tag| => if tag[i] in [' ', '/', '\\'] then '-' else tag[i])
  }

  function Tag(inboundTag: string, index: nat): string {
    SanitizeTag(inboundTag) + "-" + Decimal(index)
  }

  /** The index is readable off the tag, so outbounds at different positions never share one. */
  lemma TagIndex(a: string, i: nat, b: string, j: nat)
    requires Tag(a, i) == Tag(b, j)
    ensures i == j
  {
    LastHyphen(SanitizeTag(a), Decimal(i), SanitizeTag(b), Decimal(j));
    ValueOfDecimal(i);
    ValueOfDecimal(j);
  }

  /** A generated tag ends in a digit, unlike every fixed tag, in any letter case. */
  lemma TagEndsInDigit(a: string, i: nat)
    ensures var t := Tag(a, i); t != "" && '0' <= t[|t| - 1] <= '9'
    ensures Tag(a, i) != "direct" && Tag(a, i) != "block" && Tag(a, i) != BALANCER
    ensures Fold(Tag(a, i)) != "proxy"
  {
    var t, d := Tag(a, i), Decimal(i);
    assert t[|t| - 1] == d[|d| - 1];
    TrimKeepsLast(t);
    var f := Fold(t);
    assert f[|f| - 1] == t[|t| - 1];
    assert "proxy"[4] == 'y' && "direct"[5] == 't' && "block"[4] == 'k' && BALANCER[|BALANCER| - 1] == 'e';
  }

  lemma TrimKeepsLast(s: string)
    requires s != "" && !IsSpace(s[|s| - 1])
    ensures Trim(s) != "" && Trim(s)[|Trim(s)| - 1] == s[|s| - 1]
  {
    TrimLeftSuffix(s);
  }

  lemma {:induction false} TrimLeftSuffix(s: string)
    requires s != "" && !IsSpace(s[|s| - 1])
    ensures TrimLeft(s) != "" && TrimLeft(s)[|TrimLeft(s)| - 1] == s[|s| - 1]
  {
    if IsSpace(s[0]) {
      TrimLeftSuffix(s[1..]);
    }
  }

  const PROTOCOLS := ["vmess", "vless", "trojan", "shadowsocks", "socks"]

  predicate Buildable(c: Client) {
    c.credentialsParse && c.raw.Inbound? && c.settingsBuild && Lower(c.protocol) in PROTOCOLS
  }

  /** Node endpoint over per-inbound override over server host. */
  function HostFor(req: Request, c: Client): string {
    if Trim(c.nodeHost) != "" then c.nodeHost
    else if c.inboundTag in req.hosts && Trim(req.hosts[c.inboundTag]) != "" then req.hosts[c.inboundTag]
    else req.serverHost
  }

  function PortFor(req: Request, c: Client): int {
    if c.nodePort > 0 then c.nodePort
    else if c.inboundTag in req.ports && req.ports[c.inboundTag] > 0 then req.ports[c.inboundTag]
    else c.port
  }

  datatype Proxy = Proxy(outbound: Outbound, xhttp: bool)

  function TagOf(p: Proxy): string { p.outbound.tag }
  function OutboundOf(p: Proxy): Outbound { p.outbound }
  predicate ViaXHTTP(p: Proxy) { p.xhttp }
  predicate ViaOther(p: Proxy) { !p.xhttp }

  function ProxyFor(req: Request, c: Client, i: nat): Proxy {
    Proxy(Outbound(Tag(c.inboundTag, i), Lower(c.protocol), HostFor(req, c), PortFor(req, c)), IsXHTTP(c))
  }

  /** What the clients from position i on emit; a client that fails to build leaves a gap in the numbering. */
  function Emitted(req: Request, cs: seq<Client>, i: nat): seq<Proxy> {
    if cs == [] then []
    else if Buildable(cs[0]) then [ProxyFor(req, cs[0], i)] + Emitted(req, cs[1..], i + 1)
    else Emitted(req, cs[1..], i + 1)
  }

  function Proxies(req: Request): seq<Proxy> {
    Emitted(req, XHTTPFirst(req.clients), 0)
  }

  lemma NothingEmitted(req: Request, n: nat)
    ensures Emitted(req, [], n) == [] && Map(OutboundOf, []) == [] && Map(TagOf, []) == []
    ensures Filter(ViaXHTTP, []) == [] && Filter(ViaOther, []) == []
  {
  }

  lemma EmittedHead(req: Request, cs: seq<Client>, i: nat)
    requires i < |cs|
    ensures Emitted(req, cs[i..], i) ==
            (if Buildable(cs[i]) then [ProxyFor(req, cs[i], i)] else []) + Emitted(req, cs[i + 1..], i + 1)
  {
    hide Buildable, ProxyFor;
    assert cs[i..][1..] == cs[i + 1..];
  }

  /** One more proxy at the end of the list. */
  lemma CollectedStep(ps: seq<Proxy>, p: Proxy)
    ensures Map(OutboundOf, ps + [p]) == Map(OutboundOf, ps) + [p.outbound] && Map(TagOf, ps + [p]) == Map(TagOf, ps) + [TagOf(p)]
    ensures Filter(ViaXHTTP, ps + [p]) == Filter(ViaXHTTP, ps) + if p.xhttp then [p] else []
    ensures Filter(ViaOther, ps + [p]) == Filter(ViaOther, ps) + if p.xhttp then [] else [p]
    ensures Map(TagOf, Filter(ViaXHTTP, ps + [p])) == Map(TagOf, Filter(ViaXHTTP, ps)) + if p.xhttp then [TagOf(p)] else []
    ensures Map(TagOf, Filter(ViaOther, ps + [p])) == Map(TagOf, Filter(ViaOther, ps)) + if p.xhttp then [] else [TagOf(p)]
  {
    hide Filter, Map, TagOf;
    MapAppend(OutboundOf, ps, p);
    MapAppend(TagOf, ps, p);
    FilterAppend(ViaXHTTP, ps, p);
    FilterAppend(ViaOther, ps, p);
    assert Filter(ViaXHTTP, ps) + [] == Filter(ViaXHTTP, ps) && Filter(ViaOther, ps) + [] == Filter(ViaOther, ps);
    assert Map(TagOf, Filter(ViaXHTTP, ps)) + [] == Map(TagOf, Filter(ViaXHTTP, ps));
    assert Map(TagOf, Filter(ViaOther, ps)) + [] == Map(TagOf, Filter(ViaOther, ps));
    MapAppend(TagOf, Filter(ViaXHTTP, ps), p);
    MapAppend(TagOf, Filter(ViaOther, ps), p);
  }

  method BuildOutbound(req: Request, c: Client, index: nat) returns (ok: bool, ob: Outbound)
    ensures ok == Buildable(c)
    ensures ok ==> ob == ProxyFor(req, c, index).outbound
  {
    var host, port := req.serverHost, c.port;
    if c.inboundTag in req.hosts && Trim(req.hosts[c.inboundTag]) != "" {
      host := req.hosts[c.inboundTag];
    }
    if c.inboundTag in req.ports && req.ports[c.inboundTag] > 0 {
      port := req.ports[c.inboundTag];
    }
    if Trim(c.nodeHost) != "" {
      host := c.nodeHost;
    }
    if c.nodePort > 0 {
      port := c.nodePort;
    }
    ob := Outbound(Tag(c.inboundTag, index), Lower(c.protocol), host, port);
    ok := c.credentialsParse && c.raw.Inbound? && Lower(c.protocol) in PROTOCOLS && c.settingsBuild;
  }

  // ----- rules -----

  predicate Allowed(tag: string) {
    Fold(tag) == "direct" || Fold(tag) == "proxy" || Fold(tag) == "block"
  }

  /** An allowed target and at least one condition. */
  predicate Admissible(u: UserRule) {
    && Allowed(u.outboundTag)
    && (u.domain != [] || u.ip != [] || u.network != "" || u.port != "" || u.protocol != [] || u.inboundTag != [])
  }

  function ToRule(u: UserRule): Rule {
    Rule(FirstNonEmpty(Trim(u.ty), "field"), u.inboundTag, Trim(u.outboundTag), "", u.domain, u.ip, u.network,
         u.port, u.protocol)
  }

  function Admitted(routes: Routes): seq<Rule> {
    if routes.Stored? then Map(ToRule, Filter(Admissible, routes.rules)) else []
  }

  lemma NothingAdmitted(routes: Routes)
    requires routes.Stored? ==> routes.rules == []
    ensures Admitted(routes) == []
  {
  }

  lemma AdmittedStep(us: seq<UserRule>, i: nat)
    requires i < |us|
    ensures Admitted(Stored([])) == [] && us[..0] == []
    ensures Admitted(Stored(us[..i + 1]))
         == Admitted(Stored(us[..i])) + if Admissible(us[i]) then [ToRule(us[i])] else []
  {
    hide Admissible, ToRule;
    FilterStep(Admissible, us, i);
  }

  function To(tag: string): Rule {
    Rule("field", [], tag, "", [], [], "", "", [])
  }

  function DefaultRules(): (rules: seq<Rule>)
    ensures |rules| == 8
  {
    [ To("direct").(protocol := ["bittorrent"]),
      To("block").(domain := ["geosite:category-ads-all", "geosite:category-ads", "geosite:category-public-tracker"]),
      To("direct").(ip := ["geoip:private"]),
      To("direct").(domain := ["geosite:private"]),
      To("proxy").(domain := ["geosite:ru-blocked"]),
      To("proxy").(ip := ["geoip:ru-blocked"]),
      To("direct").(domain := ["geosite:category-ru"]),
      To("direct").(ip := ["geoip:ru"]) ]
  }

  function BaseRules(req: Request): seq<Rule> {
    Admitted(req.userRoutes) + (Admitted(req.globalRoutes) + DefaultRules())
  }

  /** The place "proxy" stands for: the only proxy, or the balancer over all of them. */
  function MainTarget(ps: seq<Proxy>): Target
    requires ps != []
  {
    if |ps| > 1 then ToBalancer(BALANCER) else ToOutbound(ps[0].outbound.tag)
  }

  function Resolve(r: Rule, main: Target): Rule {
    if Fold(r.outboundTag) != "proxy" then r
    else match main
      case ToBalancer(name) => r.(outboundTag := "", balancerTag := name)
      case ToOutbound(tag) => r.(outboundTag := tag, balancerTag := "")
      case Unrouted => r
  }

  function CatchAll(main: Target): Rule {
    Resolve(To("proxy").(port := ALL_PORTS), main)
  }

  function ResolvedRules(rules: seq<Rule>, main: Target): seq<Rule> {
    Map(r => Resolve(r, main), rules)
  }

  function Normalized(strategy: string): string {
    var s := Fold(strategy);
    if s == "random" then "random"
    else if s == "roundrobin" then "roundRobin"
    else if s == "leastload" then "leastLoad"
    else "leastPing"
  }

  /** Balance over the XHTTP proxies when there are any, and over all proxies otherwise. */
  function Selector(ps: seq<Proxy>): seq<string> {
    var x := Map(TagOf, Filter(ViaXHTTP, ps));
    if x != [] then x else Map(TagOf, ps)
  }

  /** The first proxy outside the selector if there is one, else the first proxy inside it. */
  function Fallback(ps: seq<Proxy>): string
    requires ps != []
  {
    var x, o := Filter(ViaXHTTP, ps), Filter(ViaOther, ps);
    if x == [] then ps[0].outbound.tag
    else if o != [] then o[0].outbound.tag
    else x[0].outbound.tag
  }

  function Generated(req: Request): Config
    requires Proxies(req) != []
  {
    var ps := Proxies(req);
    var main := MainTarget(ps);
    var strategy := Normalized(req.strategy);
    Config(
      Map(OutboundOf, ps) + [DIRECT, BLOCK],
      ResolvedRules(BaseRules(req), main) + [CatchAll(main)],
      if |ps| > 1 then [Balancer(BALANCER, Selector(ps), strategy, Fallback(ps))] else [],
      if |ps| > 1 && (strategy == "leastPing" || strategy == "leastLoad") then
        Some(Observatory(
               Selector(ps),
               FirstNonEmpty(Trim(req.probeURL), "https://www.gstatic.com/generate_204"),
               FirstNonEmpty(Trim(req.probeInterval), "30s")))
      else None)
  }

  /** The configuration under construction. */
  class ClientConfig {
    var outbounds: seq<Outbound>
    var rules: seq<Rule>
    var balancers: seq<Balancer>
    var observatory: Option<Observatory>

    constructor ()
      ensures View() == Config([], DefaultRules(), [], None)
    {
      outbounds, rules, balancers, observatory := [], DefaultRules(), [], None;
    }

    function View(): Config
      reads this
    {
      Config(outbounds, rules, balancers, observatory)
    }

    method ApplyUserRoutes(routes: Routes)
      modifies this`rules
      ensures rules == Admitted(routes) + old(rules)
    {
      hide Allowed, Filter, Trim, FirstNonEmpty;
      if !routes.Stored? || |routes.rules| == 0 {
        NothingAdmitted(routes);
        assert [] + rules == rules;
        return;
      }
      var custom := [];
      AdmittedStep(routes.rules, 0);
      for i := 0 to |routes.rules|
        invariant custom == Admitted(Stored(routes.rules[..i])) && rules == old(rules)
      {
        AdmittedStep(routes.rules, i);
        var r := routes.rules[i];
        if !Allowed(r.outboundTag) {
          continue;
        }
        var rr := ToRule(r);
        if |rr.domain| == 0 && |rr.ip| == 0 && rr.network == "" && rr.port == "" && |rr.protocol| == 0
          && |rr.inboundTag| == 0
        {
          continue;
        }
        custom := custom + [rr];
      }
      assert routes.rules[..|routes.rules|] == routes.rules;
      assert Stored(routes.rules) == routes;
      if |custom| == 0 {
        assert custom + rules == rules;
        return;
      }
      rules := custom + rules;
    }

    /** Build one outbound per client that can be built, and sort their tags by transport. */
    method EmitProxies(req: Request, clients: seq<Client>)
      returns (proxyTags: seq<string>, xhttpTags: seq<string>, otherTags: seq<string>)
      requires outbounds == []
      modifies this`outbounds
      ensures var ps := Emitted(req, clients, 0);
              && outbounds == Map(OutboundOf, ps)
              && proxyTags == Map(TagOf, ps)
              && xhttpTags == Map(TagOf, Filter(ViaXHTTP, ps))
              && otherTags == Map(TagOf, Filter(ViaOther, ps))
    {
      hide IsXHTTP, Buildable, HostFor, PortFor, Tag, Map, Filter, Emitted;
      proxyTags, xhttpTags, otherTags := [], [], [];
      ghost var ps: seq<Proxy> := [];
      NothingEmitted(req, |clients|);
      for i := 0 to |clients|
        invariant ps + Emitted(req, clients[i..], i) == Emitted(req, clients, 0)
        invariant outbounds == Map(OutboundOf, ps)
        invariant proxyTags == Map(TagOf, ps)
        invariant xhttpTags == Map(TagOf, Filter(ViaXHTTP, ps))
        invariant otherTags == Map(TagOf, Filter(ViaOther, ps))
      {
        var c := clients[i];
        EmittedHead(req, clients, i);
        var built, ob := BuildOutbound(req, c, i);
        if !built {
          continue;
        }
        ghost var p := ProxyFor(req, c, i);
        CollectedStep(ps, p);
        assert ps + ([p] + Emitted(req, clients[i + 1..], i + 1)) == ps + [p] + Emitted(req, clients[i + 1..], i + 1);
        ps := ps + [p];
        outbounds := outbounds + [ob];
        proxyTags := proxyTags + [ob.tag];
        if IsXHTTP(c) {
          xhttpTags := xhttpTags + [ob.tag];
        } else {
          otherTags := otherTags + [ob.tag];
        }
      }
      assert clients[|clients|..] == [] && ps + [] == ps;
    }

    method AddBalancer(req: Request, proxyTags: seq<string>, xhttpTags: seq<string>, otherTags: seq<string>)
      requires |proxyTags| > 1 && observatory.None?
      modifies this`balancers, this`observatory
      ensures var selector := if xhttpTags != [] then xhttpTags else proxyTags;
              var strategy := Normalized(req.strategy);
              && balancers == old(balancers)
                   + [Balancer(BALANCER, selector, strategy,
                               if xhttpTags == [] then proxyTags[0]
                               else if otherTags != [] then otherTags[0]
                               else xhttpTags[0])]
              && observatory == if strategy == "leastPing" || strategy == "leastLoad" then
                   Some(Observatory(
                          selector,
                          FirstNonEmpty(Trim(req.probeURL), "https://www.gstatic.com/generate_204"),
                          FirstNonEmpty(Trim(req.probeInterval), "30s")))
                 else None
      ensures (forall t :: t in xhttpTags || t in otherTags ==> t in proxyTags) ==>
                var b := balancers[|old(balancers)|];
                && b.selector != [] && b.fallbackTag in proxyTags && (forall t :: t in b.selector ==> t in proxyTags)
                && (xhttpTags != [] && otherTags != [] && (forall t :: t in otherTags ==> t !in xhttpTags) ==>
                      b.fallbackTag !in b.selector)
    {
      hide Normalized, Trim;
      var strategy := Normalized(req.strategy);
      var selector, fallbackTag := proxyTags, proxyTags[0];
      if |xhttpTags| > 0 {
        selector := xhttpTags;
        fallbackTag := if |otherTags| > 0 then otherTags[0] else xhttpTags[0];
      }
      balancers := balancers + [Balancer(BALANCER, selector, strategy, fallbackTag)];
      if strategy == "leastPing" || strategy == "leastLoad" {
        observatory := Some(Observatory(
          selector,
          FirstNonEmpty(Trim(req.probeURL), "https://www.gstatic.com/generate_204"),
          FirstNonEmpty(Trim(req.probeInterval), "30s")));
      }
    }

    method ResolveProxyRouteTargets(useBalancer: bool, target: string)
      modifies this`rules
      ensures rules == if target == "" then old(rules)
                       else ResolvedRules(old(rules), if useBalancer then ToBalancer(target) else ToOutbound(target))
    {
      if target == "" {
        return;
      }
      ghost var main := if useBalancer then ToBalancer(target) else ToOutbound(target);
      ghost var was := rules;
      assert was[..0] == [] && ResolvedRules([], main) == [];
      for i := 0 to |rules|
        invariant |rules| == |was| && rules == ResolvedRules(was[..i], main) + was[i..]
      {
        hide Fold, ResolvedRules;
        ResolvedStep(was, main, i);
        if Fold(rules[i].outboundTag) != "proxy" {
          continue;
        }
        if useBalancer {
          rules := rules[i := rules[i].(outboundTag := "", balancerTag := target)];
        } else {
          rules := rules[i := rules[i].(outboundTag := target, balancerTag := "")];
        }
      }
      assert was[..|was|] == was;
    }
  }

  lemma ResolvedStep(was: seq<Rule>, main: Target, i: nat)
    requires i < |was|
    ensures var now := ResolvedRules(was[..i], main) + was[i..];
            && i < |now| && now[i] == was[i]
            && ResolvedRules(was[..i + 1], main) + was[i + 1..] == now[i := Resolve(was[i], main)]
  {
    hide Resolve;
    assert was[..i + 1] == was[..i] + [was[i]] && was[i..] == [was[i]] + was[i + 1..];
    assert ResolvedRules(was[..i + 1], main) == ResolvedRules(was[..i], main) + [Resolve(was[i], main)];
  }

  method GenerateClientConfig(req: Request) returns (ok: bool, cfg: ClientConfig)
    ensures fresh(cfg)
    ensures ok <==> Proxies(req) != []
    ensures ok ==> cfg.View() == Generated(req)
  {
    hide Emitted, XHTTPFirst, Admitted, Filter, Resolve, DefaultRules, Normalized, Trim;
    cfg := new ClientConfig();
    cfg.ApplyUserRoutes(req.globalRoutes);
    cfg.ApplyUserRoutes(req.userRoutes);
    ghost var ps := Proxies(req);
    var clients := SortClientsXHTTPFirst(req.clients);
    var proxyTags, xhttpTags, otherTags := cfg.EmitProxies(req, clients);
    if |cfg.outbounds| == 0 {
      return false, cfg;
    }
    cfg.outbounds := cfg.outbounds + [DIRECT, BLOCK];
    if |proxyTags| > 1 {
      cfg.AddBalancer(req, proxyTags, xhttpTags, otherTags);
      cfg.ResolveProxyRouteTargets(true, BALANCER);
      cfg.rules := cfg.rules + [Rule("field", [], "", BALANCER, [], [], "", ALL_PORTS, [])];
    } else {
      EmittedTags(req, clients, 0, 0);
      cfg.ResolveProxyRouteTargets(false, proxyTags[0]);
      cfg.rules := cfg.rules + [Rule("field", [], proxyTags[0], "", [], [], "", ALL_PORTS, [])];
    }
    CatchAllShape(MainTarget(ps));
    ok := true;
  }

  lemma CatchAllShape(main: Target)
    ensures main.ToBalancer? ==> CatchAll(main) == Rule("field", [], "", main.name, [], [], "", ALL_PORTS, [])
    ensures main.ToOutbound? ==> CatchAll(main) == Rule("field", [], main.tag, "", [], [], "", ALL_PORTS, [])
  {
    assert Fold("proxy") == "proxy";
  }

  /** The k-th emitted proxy carries the tag of some client at a position no earlier than k. */
  lemma {:induction false} EmittedTags(req: Request, cs: seq<Client>, i: nat, k: nat)
    requires k < |Emitted(req, cs, i)|
    ensures exists j: nat, c :: j >= i && c in cs && Buildable(c) && Emitted(req, cs, i)[k] == ProxyFor(req, c, j)
    ensures Emitted(req, cs, i)[k].outbound.tag != ""
  {
    hide Buildable, HostFor, PortFor, IsXHTTP, Tag;
    if Buildable(cs[0]) && k == 0 {
      assert Emitted(req, cs, i)[0] == ProxyFor(req, cs[0], i);
      TagEndsInDigit(cs[0].inboundTag, i);
    } else {
      var k' := if Buildable(cs[0]) then k - 1 else k;
      EmittedTags(req, cs[1..], i + 1, k');
      var j: nat, c :| j >= i + 1 && c in cs[1..] && Buildable(c) && Emitted(req, cs[1..], i + 1)[k'] == ProxyFor(req, c, j);
      assert c in cs;
    }
  }
}
