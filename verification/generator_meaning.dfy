/** What a generated configuration means: the routing it performs and the references it contains. */
module GeneratorMeaning {
  import opened Generator
  import opened Lists
  import opened Options
  import opened Routing
  import opened Text

  // ----- a reference reading of the stored routes, without generating anything -----

  ghost predicate Hits(u: UserRule, p: Packet) {
    && FieldHit(u.inboundTag, p.inbound)
    && FieldHit(u.domain, p.domain)
    && FieldHit(u.ip, p.ip)
    && TextHit(u.network, p.network)
    && TextHit(u.port, p.port)
    && FieldHit(u.protocol, p.protocol)
  }

  /** The target of the first usable stored rule that the packet satisfies. */
  ghost function FirstHit(us: seq<UserRule>, p: Packet): Option<string> {
    if us == [] then None
    else if Admissible(us[0]) && Hits(us[0], p) then Some(us[0].outboundTag)
    else FirstHit(us[1..], p)
  }

  ghost function Choice(routes: Routes, p: Packet): Option<string> {
    if routes.Stored? then FirstHit(routes.rules, p) else None
  }

  ghost function DefaultChoice(p: Packet): Option<string> {
    if p.protocol("bittorrent") then Some("direct")
    else if
      || p.domain("geosite:category-ads-all")
      || p.domain("geosite:category-ads")
      || p.domain("geosite:category-public-tracker")
    then Some("block")
    else if p.ip("geoip:private") || p.domain("geosite:private") then Some("direct")
    else if p.domain("geosite:ru-blocked") || p.ip("geoip:ru-blocked") then Some("proxy")
    else if p.domain("geosite:category-ru") || p.ip("geoip:ru") then Some("direct")
    else None
  }

  /** "proxy", in any letter case, means the main target; anything else names an outbound. */
  function Reach(tag: string, main: Target): Target {
    if Fold(tag) == "proxy" then main else ToOutbound(Trim(tag))
  }

  /** User rules before global rules before defaults before the main target. */
  ghost function Intended(req: Request, p: Packet, main: Target): Target {
    match Choice(req.userRoutes, p)
    case Some(tag) => Reach(tag, main)
    case None =>
      match Choice(req.globalRoutes, p)
      case Some(tag) => Reach(tag, main)
      case None =>
        match DefaultChoice(p)
        case Some(tag) => Reach(tag, main)
        case None => main
  }

  function After(choice: Option<string>, main: Target): Target {
    match choice
    case Some(tag) => Reach(tag, main)
    case None => Unrouted
  }

  predicate Proper(main: Target) {
    main.ToOutbound? || (main.ToBalancer? && main.name != "")
  }

  lemma ResolvedHead(r: Rule, rest: seq<Rule>, main: Target)
    ensures ResolvedRules([r] + rest, main) == [Resolve(r, main)] + ResolvedRules(rest, main)
  {
    hide Resolve;
  }

  lemma ResolvedConcat(a: seq<Rule>, b: seq<Rule>, main: Target)
    ensures ResolvedRules(a + b, main) == ResolvedRules(a, main) + ResolvedRules(b, main)
  {
    hide Resolve;
  }

  lemma ResolvedTarget(u: UserRule, main: Target, p: Packet)
    requires Proper(main)
    ensures TargetOf(Resolve(ToRule(u), main)) == Reach(u.outboundTag, main)
    ensures Matches(Resolve(ToRule(u), main), p) <==> Hits(u, p)
  {
    FoldTrim(u.outboundTag);
    hide Trim, Fold, FirstNonEmpty;
  }

  lemma AdmittedHead(us: seq<UserRule>)
    requires us != []
    ensures Admitted(Stored(us)) == (if Admissible(us[0]) then [ToRule(us[0])] else []) + Admitted(Stored(us[1..]))
  {
    hide Admissible, ToRule;
    assert us == [us[0]] + us[1..];
    FilterHead(Admissible, us[0], us[1..]);
  }

  lemma {:induction false} StoredMeaning(us: seq<UserRule>, p: Packet, main: Target)
    requires Proper(main)
    ensures Route(ResolvedRules(Admitted(Stored(us)), main), p) == After(FirstHit(us, p), main)
  {
    hide Admissible, ToRule, Resolve, Matches, Hits, Reach, Admitted;
    if us == [] {
      NothingAdmitted(Stored(us));
    } else {
      var u, rest := us[0], Admitted(Stored(us[1..]));
      AdmittedHead(us);
      StoredMeaning(us[1..], p, main);
      ResolvedTarget(u, main, p);
      ResolvedHead(ToRule(u), rest, main);
      RouteHead(Resolve(ToRule(u), main), ResolvedRules(rest, main), p);
      assert [] + rest == rest;
      ReachRoutes(u.outboundTag, main);
    }
  }

  lemma ReachRoutes(tag: string, main: Target)
    requires Proper(main)
    ensures Reach(tag, main) != Unrouted
  {
  }

  lemma RoutesMeaning(routes: Routes, p: Packet, main: Target)
    requires Proper(main)
    ensures Route(ResolvedRules(Admitted(routes), main), p) == After(Choice(routes, p), main)
  {
    if routes.Stored? {
      StoredMeaning(routes.rules, p, main);
      assert Stored(routes.rules) == routes;
    } else {
      NothingAdmitted(routes);
    }
  }

  /** One default rule: one field, one target. */
  lemma DefaultRule(r: Rule, tag: string, rest: seq<Rule>, p: Packet, main: Target)
    requires Proper(main)
    requires r.outboundTag == tag && r.balancerTag == "" && Trim(tag) == tag
    ensures Route(ResolvedRules([r] + rest, main), p)
         == if Matches(r, p) then Reach(tag, main) else Route(ResolvedRules(rest, main), p)
  {
    hide Trim, Lower;
    ResolvedHead(r, rest, main);
    RouteHead(Resolve(r, main), ResolvedRules(rest, main), p);
  }

  lemma OneProtocol(tag: string, sel: string, p: Packet)
    ensures Matches(To(tag).(protocol := [sel]), p) <==> p.protocol(sel)
  {
    assert sel in [sel];
  }

  lemma OneDomain(tag: string, sel: string, p: Packet)
    ensures Matches(To(tag).(domain := [sel]), p) <==> p.domain(sel)
  {
    assert sel in [sel];
  }

  lemma ThreeDomains(tag: string, a: string, b: string, c: string, p: Packet)
    ensures Matches(To(tag).(domain := [a, b, c]), p) <==> p.domain(a) || p.domain(b) || p.domain(c)
  {
    assert a in [a, b, c] && b in [a, b, c] && c in [a, b, c];
  }

  lemma OneIP(tag: string, sel: string, p: Packet)
    ensures Matches(To(tag).(ip := [sel]), p) <==> p.ip(sel)
  {
    assert sel in [sel];
  }

  lemma TrimmedTags()
    ensures Trim("direct") == "direct" && Trim("block") == "block" && Trim("proxy") == "proxy"
  {
  }

  /** The default rules from the k-th on, as an if-chain. */
  ghost function DefaultsAfter(k: nat, p: Packet): Option<string>
    requires k <= 8
  {
    if k <= 0 && p.protocol("bittorrent") then Some("direct")
    else if
      && k <= 1
      && (p.domain("geosite:category-ads-all") || p.domain("geosite:category-ads")
          || p.domain("geosite:category-public-tracker"))
    then Some("block")
    else if k <= 2 && p.ip("geoip:private") then Some("direct")
    else if k <= 3 && p.domain("geosite:private") then Some("direct")
    else if k <= 4 && p.domain("geosite:ru-blocked") then Some("proxy")
    else if k <= 5 && p.ip("geoip:ru-blocked") then Some("proxy")
    else if k <= 6 && p.domain("geosite:category-ru") then Some("direct")
    else if k <= 7 && p.ip("geoip:ru") then Some("direct")
    else None
  }

  lemma DefaultShape(k: nat, p: Packet)
    requires k < 8
    ensures var r := DefaultRules()[k];
            && r.balancerTag == "" && r.outboundTag in ["direct", "block", "proxy"]
            && DefaultsAfter(k, p) == if Matches(r, p) then Some(r.outboundTag) else DefaultsAfter(k + 1, p)
  {
    hide Matches;
    match k {
      case 0 => OneProtocol("direct", "bittorrent", p);
      case 1 => ThreeDomains("block", "geosite:category-ads-all", "geosite:category-ads", "geosite:category-public-tracker", p);
      case 2 => OneIP("direct", "geoip:private", p);
      case 3 => OneDomain("direct", "geosite:private", p);
      case 4 => OneDomain("proxy", "geosite:ru-blocked", p);
      case 5 => OneIP("proxy", "geoip:ru-blocked", p);
      case 6 => OneDomain("direct", "geosite:category-ru", p);
      case _ => OneIP("direct", "geoip:ru", p);
    }
  }

  lemma {:induction false} DefaultsFrom(k: nat, p: Packet, main: Target)
    requires Proper(main) && k <= 8
    ensures Route(ResolvedRules(DefaultRules()[k..], main), p) == After(DefaultsAfter(k, p), main)
    decreases 8 - k
  {
    hide DefaultRules, Matches, Trim, Reach, ResolvedRules, DefaultsAfter;
    var d := DefaultRules();
    if k < 8 {
      assert d[k..] == [d[k]] + d[k + 1..];
      DefaultsFrom(k + 1, p, main);
      DefaultShape(k, p);
      TrimmedTags();
      DefaultRule(d[k], d[k].outboundTag, d[k + 1..], p, main);
    } else {
      NoDefaults(p, main);
    }
  }

  lemma NoDefaults(p: Packet, main: Target)
    ensures DefaultsAfter(8, p) == None && Route(ResolvedRules([], main), p) == Unrouted
  {
  }

  lemma DefaultsMeaning(p: Packet, main: Target)
    requires Proper(main)
    ensures Route(ResolvedRules(DefaultRules(), main), p) == After(DefaultChoice(p), main)
  {
    hide DefaultRules, ResolvedRules, Reach, Route, Trim;
    DefaultsFrom(0, p, main);
    assert DefaultRules()[0..] == DefaultRules();
  }

  lemma MainIsProper(req: Request)
    requires Proxies(req) != []
    ensures Proper(MainTarget(Proxies(req)))
    ensures var main := MainTarget(Proxies(req));
            main.ToOutbound? ==> main.tag != ""
  {
    hide XHTTPFirst, Emitted;
    EmittedTags(req, XHTTPFirst(req.clients), 0, 0);
  }

  /** Main result: whatever the packet, first-match routing of the generated configuration is the intended
      decision; filtering, prepending, resolving "proxy" and appending the catch-all do not disturb it. */
  lemma RoutingMeaning(req: Request, p: Packet)
    requires Proxies(req) != [] && WellFormed(p)
    ensures Route(Generated(req).rules, p) == Intended(req, p, MainTarget(Proxies(req)))
    ensures Route(Generated(req).rules, p) != Unrouted
  {
    hide Admitted, ResolvedRules, DefaultRules, Choice, Reach, DefaultChoice, Proxies, Route, MainTarget, CatchAll, WellFormed;
    var main := MainTarget(Proxies(req));
    MainIsProper(req);
    RoutesMeaning(req.userRoutes, p, main);
    RoutesMeaning(req.globalRoutes, p, main);
    DefaultsMeaning(p, main);
    var u, g, d := Admitted(req.userRoutes), Admitted(req.globalRoutes), DefaultRules();
    ResolvedConcat(u, g + d, main);
    ResolvedConcat(g, d, main);
    RouteConcat(ResolvedRules(u, main), ResolvedRules(g + d, main), p);
    RouteConcat(ResolvedRules(g, main), ResolvedRules(d, main), p);
    RouteConcat(ResolvedRules(BaseRules(req), main), [CatchAll(main)], p);
    CatchAllRoutes(main, p);
    forall tag: string
      ensures Reach(tag, main) != Unrouted
    {
      ReachRoutes(tag, main);
    }
  }

  lemma CatchAllRoutes(main: Target, p: Packet)
    requires Proper(main) && WellFormed(p)
    ensures Route([CatchAll(main)], p) == main
  {
    CatchAllShape(main);
    hide CatchAll, Trim;
    assert [CatchAll(main)] + [] == [CatchAll(main)];
    RouteHead(CatchAll(main), [], p);
  }
}
