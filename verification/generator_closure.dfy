/** The references inside a generated configuration, the shape of its balancer, and the mobile variant. */
module GeneratorClosure {
  import opened Generator
  import opened GeneratorMeaning
  import opened Lists
  import opened Routing
  import opened Text
  import Mobile

  // ----- tags -----

  lemma {:induction false} EmittedTagsDiffer(req: Request, cs: seq<Client>, i: nat, k: nat, l: nat)
    requires k < l < |Emitted(req, cs, i)|
    ensures Emitted(req, cs, i)[k].outbound.tag != Emitted(req, cs, i)[l].outbound.tag
  {
    hide Buildable, HostFor, PortFor, IsXHTTP, Tag;
    if Buildable(cs[0]) && k == 0 {
      EmittedTags(req, cs[1..], i + 1, l - 1);
      var j: nat, c :| j >= i + 1 && c in cs[1..] && Buildable(c) && Emitted(req, cs[1..], i + 1)[l - 1] == ProxyFor(req, c, j);
      if Tag(cs[0].inboundTag, i) == Tag(c.inboundTag, j) {
        TagIndex(cs[0].inboundTag, i, c.inboundTag, j);
      }
    } else {
      var d := if Buildable(cs[0]) then 1 else 0;
      EmittedTagsDiffer(req, cs[1..], i + 1, k - d, l - d);
    }
  }

  /** A proxy's tag is a generated one. */
  lemma ProxyTag(req: Request, k: nat)
    requires k < |Proxies(req)|
    ensures exists a, j: nat :: Proxies(req)[k].outbound.tag == Tag(a, j)
    ensures var t := Proxies(req)[k].outbound.tag;
            t != "direct" && t != "block" && t != "" && Fold(t) != "proxy" && '0' <= t[|t| - 1] <= '9'
  {
    hide Emitted, XHTTPFirst, Buildable, HostFor, PortFor, Tag, Fold, BALANCER;
    var cs := XHTTPFirst(req.clients);
    EmittedTags(req, cs, 0, k);
    var j: nat, c :| j >= 0 && c in cs && Buildable(c) && Emitted(req, cs, 0)[k] == ProxyFor(req, c, j);
    TagEndsInDigit(c.inboundTag, j);
  }

  /** Outbound tags are pairwise distinct, the fixed "direct" and "block" included. */
  lemma OutboundTagsDistinct(req: Request, k: nat, l: nat)
    requires Proxies(req) != []
    requires k < l < |Generated(req).outbounds|
    ensures Generated(req).outbounds[k].tag != Generated(req).outbounds[l].tag
  {
    hide Emitted, XHTTPFirst, ResolvedRules, BaseRules, CatchAll, Selector, Fallback, Normalized, MainTarget, Fold, Trim;
    var ps := Proxies(req);
    if k < |ps| {
      ProxyTag(req, k);
      if l < |ps| {
        EmittedTagsDiffer(req, XHTTPFirst(req.clients), 0, k, l);
      }
    } else {
      assert "direct"[0] != "block"[0];
    }
  }

  // ----- rules -----

  predicate OneTarget(r: Rule) {
    (r.outboundTag != "") != (r.balancerTag != "")
  }

  predicate Known(cfg: Config, t: Target) {
    match t
    case ToOutbound(tag) => exists o :: o in cfg.outbounds && o.tag == tag
    case ToBalancer(name) => exists b :: b in cfg.balancers && b.tag == name
    case Unrouted => false
  }

  /** Usable stored rules spell their direct and block targets in lower case. */
  predicate LowerCaseTargets(routes: Routes) {
    routes.Stored? ==> forall u :: u in routes.rules && Admissible(u) ==> LowerCase(Trim(u.outboundTag))
  }

  predicate LowerCase(tag: string) {
    Fold(tag) == "proxy" || tag == "direct" || tag == "block"
  }

  predicate AllowedRule(r: Rule) {
    Allowed(r.outboundTag) && r.balancerTag == ""
  }

  lemma AdmittedRules(routes: Routes)
    ensures forall r :: r in Admitted(routes) ==> AllowedRule(r)
    ensures LowerCaseTargets(routes) <==> forall r :: r in Admitted(routes) ==> LowerCase(r.outboundTag)
  {
    hide Fold, Trim, LowerCase, Allowed;
    if routes.Stored? {
      var kept := Filter(Admissible, routes.rules);
      FilterMembers(Admissible, routes.rules);
      forall r | r in Admitted(routes)
        ensures AllowedRule(r)
        ensures exists u :: u in kept && r == ToRule(u)
      {
        var i :| 0 <= i < |kept| && Admitted(routes)[i] == r;
        assert kept[i] in kept && r == ToRule(kept[i]);
        AllowedTrim(kept[i].outboundTag);
      }
      forall u | u in kept
        ensures ToRule(u) in Admitted(routes)
      {
        var i :| 0 <= i < |kept| && kept[i] == u;
        assert Admitted(routes)[i] == ToRule(u);
      }
    }
  }

  lemma AllowedTrim(tag: string)
    ensures Allowed(Trim(tag)) == Allowed(tag)
  {
    FoldTrim(tag);
  }

  lemma DefaultTags()
    ensures forall r :: r in DefaultRules() ==> r.balancerTag == "" && r.outboundTag in ["direct", "block", "proxy"]
  {
  }

  lemma DefaultsAllowed()
    ensures forall r :: r in DefaultRules() ==> AllowedRule(r) && LowerCase(r.outboundTag)
  {
    hide DefaultRules;
    DefaultTags();
    assert Fold("direct") == "direct" && Fold("block") == "block" && Fold("proxy") == "proxy";
  }

  lemma BaseAllowed(req: Request)
    ensures forall r :: r in BaseRules(req) ==> AllowedRule(r)
    ensures (LowerCaseTargets(req.userRoutes) && LowerCaseTargets(req.globalRoutes))
       <==> forall r :: r in BaseRules(req) ==> LowerCase(r.outboundTag)
  {
    hide DefaultRules, Admitted, AllowedRule, LowerCase, LowerCaseTargets;
    AdmittedRules(req.userRoutes);
    AdmittedRules(req.globalRoutes);
    DefaultsAllowed();
    var u, g, d := Admitted(req.userRoutes), Admitted(req.globalRoutes), DefaultRules();
    assert forall r :: r in BaseRules(req) <==> r in u || r in g || r in d;
  }

  /** An allowed target is not blank and, unlike a generated tag, does not end in a digit. */
  lemma AllowedNotEmpty(tag: string)
    ensures Allowed(tag) ==> tag != "" && !('0' <= tag[|tag| - 1] <= '9')
  {
    if tag != "" && '0' <= tag[|tag| - 1] <= '9' {
      TrimKeepsLast(tag);
      var f := Fold(tag);
      assert f[|f| - 1] == tag[|tag| - 1];
      assert "proxy"[4] == 'y' && "direct"[5] == 't' && "block"[4] == 'k';
    }
  }

  /** No placeholder survives: every rule names exactly one of an outbound and a balancer. */
  lemma EveryRuleNamesOneTarget(req: Request, r: Rule)
    requires Proxies(req) != [] && r in Generated(req).rules
    ensures OneTarget(r) && Fold(r.outboundTag) != "proxy"
  {
    hide Emitted, XHTTPFirst, BaseRules, Trim, Selector, Fallback, Normalized, Allowed, Lower;
    var main, base := MainTarget(Proxies(req)), BaseRules(req);
    MainIsProper(req);
    ProxyTag(req, 0);
    CatchAllShape(main);
    BaseAllowed(req);
    BlankIsNoProxy();
    var rs := Generated(req).rules;
    var i :| 0 <= i < |rs| && rs[i] == r;
    if i < |base| {
      assert base[i] in base && r == Resolve(base[i], main);
      AllowedNotEmpty(base[i].outboundTag);
    }
  }

  lemma BlankIsNoProxy()
    ensures Fold("") != "proxy"
  {
    assert Fold("") == "";
  }

  lemma MainKnown(req: Request)
    requires Proxies(req) != []
    ensures Known(Generated(req), MainTarget(Proxies(req)))
  {
    hide Emitted, XHTTPFirst, ResolvedRules, BaseRules, CatchAll, Selector, Fallback, Normalized, Trim;
    var cfg, ps := Generated(req), Proxies(req);
    if |ps| > 1 {
      assert cfg.balancers[0] in cfg.balancers;
    } else {
      assert cfg.outbounds[0] in cfg.outbounds && cfg.outbounds[0].tag == ps[0].outbound.tag;
    }
  }

  /** Where an allowed, unresolved target points: it exists exactly when it is spelled in lower case. */
  lemma FixedTargetKnown(req: Request, tag: string)
    requires Proxies(req) != [] && Allowed(tag) && Fold(tag) != "proxy"
    ensures Known(Generated(req), ToOutbound(tag)) <==> LowerCase(tag)
  {
    hide Emitted, XHTTPFirst, ResolvedRules, BaseRules, CatchAll, Selector, Fallback, Normalized, Fold, Trim, MainTarget;
    var obs, ps := Generated(req).outbounds, Proxies(req);
    assert obs[|ps|] == DIRECT && obs[|ps| + 1] == BLOCK;
    assert DIRECT in obs && BLOCK in obs;
    AllowedNotEmpty(tag);
    forall o | o in obs && o.tag == tag
      ensures o == DIRECT || o == BLOCK
    {
      var k :| 0 <= k < |obs| && obs[k] == o;
      if k < |ps| {
        ProxyTag(req, k);
      }
    }
  }

  /** Main result on references: all rule targets exist exactly when the usable stored rules spell their
      direct and block targets in lower case. */
  lemma ReferencesExistExactly(req: Request)
    requires Proxies(req) != []
    ensures (forall r :: r in Generated(req).rules ==> Known(Generated(req), TargetOf(r)))
       <==> LowerCaseTargets(req.userRoutes) && LowerCaseTargets(req.globalRoutes)
  {
    hide Emitted, XHTTPFirst, BaseRules, Trim, Selector, Fallback, Normalized, LowerCaseTargets, Known, Allowed, Fold;
    var cfg, main, base := Generated(req), MainTarget(Proxies(req)), BaseRules(req);
    MainIsProper(req);
    MainKnown(req);
    BaseAllowed(req);
    CatchAllShape(main);
    assert cfg.rules[|base|] == CatchAll(main);
    forall i | 0 <= i < |base|
      ensures cfg.rules[i] in cfg.rules
      ensures Known(cfg, TargetOf(cfg.rules[i])) <==> LowerCase(base[i].outboundTag)
    {
      assert base[i] in base && cfg.rules[i] == Resolve(base[i], main);
      if Fold(base[i].outboundTag) != "proxy" {
        FixedTargetKnown(req, base[i].outboundTag);
      }
    }
  }

  /** A stored "Direct" is accepted and emitted as it stands, and then points nowhere. */
  lemma UpperCaseDirectDangles(req: Request)
    requires Proxies(req) != []
    requires req.userRoutes == Stored([UserRule("field", "Direct", ["example.org"], [], "", "", [], [])])
    ensures !forall r :: r in Generated(req).rules ==> Known(Generated(req), TargetOf(r))
  {
    hide Emitted, XHTTPFirst, Generated, Proxies;
    var u := UserRule("field", "Direct", ["example.org"], [], "", "", [], []);
    assert Fold("Direct") == "direct" && Trim("Direct") == "Direct" && "Direct"[0] != "direct"[0];
    assert u in req.userRoutes.rules && Admissible(u) && !LowerCase(Trim(u.outboundTag));
    ReferencesExistExactly(req);
  }

  // ----- balancer -----

  lemma {:induction false} EmittedConcat(req: Request, a: seq<Client>, b: seq<Client>, i: nat)
    ensures Emitted(req, a + b, i) == Emitted(req, a, i) + Emitted(req, b, i + |a|)
  {
    hide Buildable, ProxyFor;
    if a == [] {
      assert a + b == b;
    } else {
      assert (a + b)[1..] == a[1..] + b;
      EmittedConcat(req, a[1..], b, i + 1);
    }
  }

  lemma {:induction false} EmittedKind(req: Request, cs: seq<Client>, i: nat, x: bool)
    requires forall c :: c in cs ==> IsXHTTP(c) == x
    ensures forall p :: p in Emitted(req, cs, i) ==> p.xhttp == x
  {
    hide Buildable, HostFor, PortFor, IsXHTTP, Tag;
    if cs != [] {
      assert cs[0] in cs;
      EmittedKind(req, cs[1..], i + 1, x);
    }
  }

  /** Whatever builds fail, the XHTTP proxies come first and keep the clients' order within each kind. */
  lemma XHTTPProxiesFirst(req: Request)
    ensures var x, o := Filter(IsXHTTP, req.clients), Filter(IsOther, req.clients);
            && Proxies(req) == Emitted(req, x, 0) + Emitted(req, o, |x|)
            && Filter(ViaXHTTP, Proxies(req)) == Emitted(req, x, 0)
            && Filter(ViaOther, Proxies(req)) == Emitted(req, o, |x|)
  {
    hide Emitted, IsXHTTP;
    var x, o := Filter(IsXHTTP, req.clients), Filter(IsOther, req.clients);
    FilterMembers(IsXHTTP, req.clients);
    FilterMembers(IsOther, req.clients);
    EmittedConcat(req, x, o, 0);
    EmittedKind(req, x, 0, true);
    EmittedKind(req, o, |x|, false);
    var px, po := Emitted(req, x, 0), Emitted(req, o, |x|);
    FilterConcat(ViaXHTTP, px, po);
    FilterConcat(ViaOther, px, po);
    FilterAll(ViaXHTTP, px);
    FilterNone(ViaXHTTP, po);
    FilterAll(ViaOther, po);
    FilterNone(ViaOther, px);
  }

  /** The balancer never selects nothing or something that is not a proxy, and its fallback lies outside
      the selector exactly when both kinds of transport were emitted. */
  lemma BalancerShape(req: Request)
    requires |Proxies(req)| > 1
    ensures var cfg, ps := Generated(req), Proxies(req);
            var x, o := Filter(ViaXHTTP, ps), Filter(ViaOther, ps);
            && |cfg.balancers| == 1
            && var b := cfg.balancers[0];
               && b.tag == BALANCER
               && b.selector == (if x != [] then Map(TagOf, x) else Map(TagOf, ps))
               && b.selector != []
               && (forall t :: t in b.selector ==> t in Map(TagOf, ps))
               && b.fallbackTag in Map(TagOf, ps)
               && (b.fallbackTag !in b.selector <==> x != [] && o != [])
               && (cfg.observatory.Some? ==> cfg.observatory.value.subjects == b.selector)
  {
    hide Emitted, XHTTPFirst, ResolvedRules, BaseRules, CatchAll, Normalized, Trim, Filter;
    var ps := Proxies(req);
    var x, o := Filter(ViaXHTTP, ps), Filter(ViaOther, ps);
    XHTTPProxiesFirst(req);
    assert ps == x + o;
    var tags := Map(TagOf, ps);
    assert tags == Map(TagOf, x) + Map(TagOf, o);
    assert x != [] ==> Map(TagOf, x)[0] == x[0].outbound.tag;
    assert o != [] ==> Map(TagOf, o)[0] == o[0].outbound.tag;
    assert tags[0] == ps[0].outbound.tag;
    if x != [] && o != [] {
      forall k | 0 <= k < |x|
        ensures x[k].outbound.tag != o[0].outbound.tag
      {
        EmittedTagsDiffer(req, XHTTPFirst(req.clients), 0, k, |x|);
      }
    }
  }

  // ----- the mobile variant -----

  predicate NeverWidens(routes: Routes) {
    forall r :: r in Admitted(routes) ==> !Mobile.Widens(r)
  }

  /** A rule with a single condition is dropped rather than loosened. */
  lemma SingleFieldSafe(tag: string, sel: seq<string>)
    ensures !Mobile.Widens(To(tag).(domain := sel))
    ensures !Mobile.Widens(To(tag).(ip := sel))
    ensures !Mobile.Widens(To(tag).(protocol := sel))
  {
    assert Trim("") == "";
  }

  lemma DefaultsNeverWiden()
    ensures forall r :: r in DefaultRules() ==> Mobile.Conditioned(r) && !Mobile.Widens(r)
  {
    hide Mobile.Widens;
    SingleFieldSafe("direct", ["bittorrent"]);
    SingleFieldSafe("block", ["geosite:category-ads-all", "geosite:category-ads", "geosite:category-public-tracker"]);
    SingleFieldSafe("direct", ["geoip:private"]);
    SingleFieldSafe("direct", ["geosite:private"]);
    SingleFieldSafe("proxy", ["geosite:ru-blocked"]);
    SingleFieldSafe("proxy", ["geoip:ru-blocked"]);
    SingleFieldSafe("direct", ["geosite:category-ru"]);
    SingleFieldSafe("direct", ["geoip:ru"]);
  }

  lemma AdmittedConditioned(routes: Routes)
    ensures forall r :: r in Admitted(routes) ==> Mobile.Conditioned(r)
  {
    hide Allowed, Trim, FirstNonEmpty;
    if routes.Stored? {
      var kept := Filter(Admissible, routes.rules);
      FilterMembers(Admissible, routes.rules);
      forall r | r in Admitted(routes)
        ensures Mobile.Conditioned(r)
      {
        var i :| 0 <= i < |kept| && Admitted(routes)[i] == r;
        assert kept[i] in kept && r == ToRule(kept[i]);
      }
    }
  }

  lemma ResolveKeepsConditions(r: Rule, main: Target)
    ensures Mobile.Conditioned(Resolve(r, main)) == Mobile.Conditioned(r)
    ensures Mobile.Widens(Resolve(r, main)) == Mobile.Widens(r)
  {
    hide Fold, Trim, Mobile.NonGeo;
  }

  lemma CatchAllStays(main: Target)
    requires Proper(main)
    ensures Mobile.Conditioned(CatchAll(main)) && !Mobile.Widens(CatchAll(main))
    ensures Mobile.Profile([CatchAll(main)]) == [CatchAll(main)]
  {
    CatchAllShape(main);
    assert Trim(ALL_PORTS) == ALL_PORTS;
    hide CatchAll, Trim;
    Mobile.ProfileHead(CatchAll(main), []);
    assert [CatchAll(main)] + [] == [CatchAll(main)];
    assert Mobile.NonGeo([]) == [];
    assert Mobile.StripRule(CatchAll(main)) == CatchAll(main);
  }

  /** Geo selectors are all this rule has for conditions. */
  predicate GeoOnly(r: Rule) {
    && r.network == "" && r.port == "" && r.protocol == [] && r.inboundTag == []
    && (forall s :: s in r.domain ==> Mobile.GeoText(s)) && forall s :: s in r.ip ==> Mobile.GeoText(s)
  }

  lemma GeoOnlyDropped(r: Rule, main: Target)
    requires GeoOnly(r)
    ensures Mobile.Profile([Resolve(r, main)]) == []
  {
    hide Fold, Mobile.GeoText;
    Mobile.RuleInTheProfile(Resolve(r, main));
    FilterNone(Mobile.NoGeoText(), r.domain);
    FilterNone(Mobile.NoGeoText(), r.ip);
    assert Trim("") == "";
  }

  lemma GeoSelector(text: string)
    requires "geosite:" <= text || "geoip:" <= text
    requires !IsSpace(text[|text| - 1])
    ensures Mobile.GeoText(text)
  {
    assert Trim(text) == text;
    var prefix := if "geosite:" <= text then "geosite:" else "geoip:";
    assert Lower(prefix) == prefix;
    assert prefix <= Lower(text);
  }

  /** Of the built-in rules the profile keeps the bittorrent rule alone. */
  lemma MobileDefaults(main: Target)
    ensures Mobile.Profile(ResolvedRules(DefaultRules(), main))
         == [Rule("field", [], "direct", "", [], [], "", "", ["bittorrent"])]
  {
    var d := DefaultRules();
    assert d[..1] == [d[0]] && d == [d[0]] + d[1..];
    assert d[0] == Rule("field", [], "direct", "", [], [], "", "", ["bittorrent"]);
    BittorrentStays(main);
    hide DefaultRules, Resolve, Fold, GeoOnly, Mobile.Profile;
    forall r | r in d[1..]
      ensures GeoOnly(r)
    {
      var k :| 1 <= k < 8 && d[k] == r;
      DefaultSelectors(k);
    }
    ResolvedHead(d[0], d[1..], main);
    Mobile.ProfileConcat([Resolve(d[0], main)], ResolvedRules(d[1..], main));
    AllGeoDropped(d[1..], main);
  }

  lemma {:induction false} AllGeoDropped(rules: seq<Rule>, main: Target)
    requires forall r :: r in rules ==> GeoOnly(r)
    ensures Mobile.Profile(ResolvedRules(rules, main)) == []
  {
    hide Resolve, GeoOnly, Mobile.Profile;
    if rules == [] {
      Mobile.ProfileOfNone();
    } else {
      assert rules == [rules[0]] + rules[1..];
      ResolvedHead(rules[0], rules[1..], main);
      Mobile.ProfileConcat([Resolve(rules[0], main)], ResolvedRules(rules[1..], main));
      GeoOnlyDropped(rules[0], main);
      AllGeoDropped(rules[1..], main);
    }
  }

  lemma GeoSite(tag: string, selectors: seq<string>)
    requires forall s :: s in selectors ==> Mobile.GeoText(s)
    ensures GeoOnly(To(tag).(domain := selectors))
  {
    hide Mobile.GeoText;
  }

  lemma GeoIP(tag: string, selectors: seq<string>)
    requires forall s :: s in selectors ==> Mobile.GeoText(s)
    ensures GeoOnly(To(tag).(ip := selectors))
  {
    hide Mobile.GeoText;
  }

  lemma AdSelectors()
    ensures Mobile.GeoText("geosite:category-ads-all") && Mobile.GeoText("geosite:category-ads")
  {
    GeoSelector("geosite:category-ads-all");
    GeoSelector("geosite:category-ads");
  }

  lemma TrackerSelector()
    ensures Mobile.GeoText("geosite:category-public-tracker")
  {
    GeoSelector("geosite:category-public-tracker");
  }

  lemma SiteSelectors()
    ensures Mobile.GeoText("geosite:private") && Mobile.GeoText("geosite:category-ru")
  {
    GeoSelector("geosite:private");
    GeoSelector("geosite:category-ru");
  }

  lemma BlockedSiteSelector()
    ensures Mobile.GeoText("geosite:ru-blocked")
  {
    GeoSelector("geosite:ru-blocked");
  }

  lemma IPSelectors()
    ensures Mobile.GeoText("geoip:private") && Mobile.GeoText("geoip:ru")
  {
    GeoSelector("geoip:private");
    GeoSelector("geoip:ru");
  }

  lemma BlockedIPSelector()
    ensures Mobile.GeoText("geoip:ru-blocked")
  {
    GeoSelector("geoip:ru-blocked");
  }

  lemma DefaultSelectors(k: nat)
    requires 1 <= k < 8
    ensures GeoOnly(DefaultRules()[k])
  {
    hide GeoOnly, Mobile.GeoText;
    AdSelectors();
    TrackerSelector();
    SiteSelectors();
    BlockedSiteSelector();
    IPSelectors();
    BlockedIPSelector();
    match k {
      case 1 => GeoSite("block", ["geosite:category-ads-all", "geosite:category-ads", "geosite:category-public-tracker"]);
      case 2 => GeoIP("direct", ["geoip:private"]);
      case 3 => GeoSite("direct", ["geosite:private"]);
      case 4 => GeoSite("proxy", ["geosite:ru-blocked"]);
      case 5 => GeoIP("proxy", ["geoip:ru-blocked"]);
      case 6 => GeoSite("direct", ["geosite:category-ru"]);
      case _ => GeoIP("direct", ["geoip:ru"]);
    }
  }

  lemma BittorrentStays(main: Target)
    ensures var r := Rule("field", [], "direct", "", [], [], "", "", ["bittorrent"]);
            Resolve(r, main) == r && Mobile.Profile([Resolve(r, main)]) == [r]
  {
    var r := Rule("field", [], "direct", "", [], [], "", "", ["bittorrent"]);
    assert Fold("direct") == "direct";
    assert "direct"[0] == 'd' && "proxy"[0] == 'p';
    Mobile.RuleInTheProfile(r);
  }

  /** Main result: without stored rules the mobile variant has the bittorrent rule and the catch-all, and nothing
      else. */
  lemma MobileOfDefaults(req: Request)
    requires Proxies(req) != [] && Admitted(req.userRoutes) == [] && Admitted(req.globalRoutes) == []
    ensures Mobile.Profile(Generated(req).rules)
         == [Rule("field", [], "direct", "", [], [], "", "", ["bittorrent"]), CatchAll(MainTarget(Proxies(req)))]
  {
    hide Emitted, XHTTPFirst, DefaultRules, Admitted, Resolve, CatchAll, Mobile.Profile, MainTarget, Proxies;
    var main := MainTarget(Proxies(req));
    MainIsProper(req);
    CatchAllStays(main);
    MobileDefaults(main);
    assert BaseRules(req) == DefaultRules();
    Mobile.ProfileConcat(ResolvedRules(BaseRules(req), main), [CatchAll(main)]);
  }

  /** Main result on the mobile variant: for a packet without geo matches it decides as intended, provided no
      stored rule is loosened; and the catch-all is always kept, at the end. */
  lemma MobileMeaning(req: Request, p: Packet)
    requires Proxies(req) != [] && WellFormed(p)
    ensures var rules := Mobile.Profile(Generated(req).rules);
            rules != [] && rules[|rules| - 1] == CatchAll(MainTarget(Proxies(req)))
    ensures Mobile.GeoFree(p) && NeverWidens(req.userRoutes) && NeverWidens(req.globalRoutes) ==>
              Route(Mobile.Profile(Generated(req).rules), p) == Intended(req, p, MainTarget(Proxies(req)))
  {
    hide Emitted, XHTTPFirst, DefaultRules, Admitted, Resolve, CatchAll, Mobile.Widens, Mobile.GeoFree, WellFormed,
         Intended, Mobile.Profile, Route, MainTarget, Proxies, Mobile.Conditioned;
    var main, base := MainTarget(Proxies(req)), BaseRules(req);
    var rules := Generated(req).rules;
    MainIsProper(req);
    CatchAllStays(main);
    Mobile.ProfileConcat(ResolvedRules(base, main), [CatchAll(main)]);
    if Mobile.GeoFree(p) && NeverWidens(req.userRoutes) && NeverWidens(req.globalRoutes) {
      AdmittedConditioned(req.userRoutes);
      AdmittedConditioned(req.globalRoutes);
      DefaultsNeverWiden();
      forall r | r in rules
        ensures Mobile.Conditioned(r) && !Mobile.Widens(r)
      {
        var i :| 0 <= i < |rules| && rules[i] == r;
        if i < |base| {
          assert base[i] in base && r == Resolve(base[i], main);
          ResolveKeepsConditions(base[i], main);
        }
      }
      Mobile.ProfilePreservesRouting(rules, p);
      RoutingMeaning(req, p);
    }
  }
}
