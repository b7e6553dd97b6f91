/** A generated configuration from the outside: when there is one, which stored rules count, and its fixed parts as
    Xray reads them. */
module GeneratorForms {
  import opened Generator
  import opened GeneratorFate
  import opened GeneratorMeaning
  import opened Lists
  import opened Options
  import opened Routing
  import opened Text

  // ----- the stored rules -----

  ghost predicate AnyHit(selectors: seq<string>, hit: string -> bool) {
    |selectors| == 0 || exists i :: 0 <= i < |selectors| && hit(selectors[i])
  }

  /** The target is one of the three words, some condition is set, and the packet meets all that are. */
  ghost predicate Applies(u: UserRule, p: Packet) {
    var word := Lower(Trim(u.outboundTag));
    && (word == "direct" || word == "proxy" || word == "block")
    && |u.domain| + |u.ip| + |u.network| + |u.port| + |u.protocol| + |u.inboundTag| > 0
    && AnyHit(u.domain, p.domain) && AnyHit(u.ip, p.ip) && AnyHit(u.protocol, p.protocol)
    && AnyHit(u.inboundTag, p.inbound) && (u.network != "" ==> p.network(u.network)) && (u.port != "" ==> p.port(u.port))
  }

  lemma AnyHitIs(selectors: seq<string>, hit: string -> bool)
    ensures AnyHit(selectors, hit) <==> FieldHit(selectors, hit)
  {
    if s :| s in selectors && hit(s) {
      var i :| 0 <= i < |selectors| && selectors[i] == s;
    }
    if i :| 0 <= i < |selectors| && hit(selectors[i]) {
      assert selectors[i] in selectors;
    }
  }

  lemma AppliesIs(u: UserRule, p: Packet)
    ensures Applies(u, p) <==> Admissible(u) && Hits(u, p)
  {
    hide Trim, Lower, AnyHit, FieldHit;
    AnyHitIs(u.domain, p.domain);
    AnyHitIs(u.ip, p.ip);
    AnyHitIs(u.protocol, p.protocol);
    AnyHitIs(u.inboundTag, p.inbound);
  }

  lemma {:induction false} FirstHitIs(us: seq<UserRule>, p: Packet) returns (i: nat)
    ensures i <= |us| && forall j :: 0 <= j < i ==> !Applies(us[j], p)
    ensures FirstHit(us, p) == if i < |us| then Some(us[i].outboundTag) else None
    ensures i < |us| ==> Applies(us[i], p)
  {
    hide Applies, Admissible, Hits;
    i := 0;
    if us != [] {
      AppliesIs(us[0], p);
      if !Applies(us[0], p) {
        var k := FirstHitIs(us[1..], p);
        i := k + 1;
        forall j | 0 <= j < i
          ensures !Applies(us[j], p)
        {
          assert j > 0 ==> us[j] == us[1..][j - 1];
        }
      }
    }
  }

  /** A stored list decides by its first rule that applies. */
  lemma ChosenRule(routes: Routes, p: Packet)
    ensures Choice(routes, p) == None <==> (routes.Stored? ==> forall u :: u in routes.rules ==> !Applies(u, p))
    ensures Choice(routes, p).Some? ==>
              exists i ::
                && 0 <= i < |routes.rules| && Applies(routes.rules[i], p)
                && (forall j :: 0 <= j < i ==> !Applies(routes.rules[j], p))
                && Choice(routes, p).value == routes.rules[i].outboundTag
  {
    hide Applies, FirstHit;
    if routes.Stored? {
      var i := FirstHitIs(routes.rules, p);
      if i < |routes.rules| {
        assert routes.rules[i] in routes.rules;
      }
    }
  }

  lemma ExampleTexts()
    ensures Trim(" ") == "" && Trim(" Direct ") == "Direct" && Lower("Direct") == "direct"
  {
  }

  /** A rule without a type becomes one of type "field", its target loses surrounding space and keeps its case. */
  lemma StoredRuleExample()
    ensures Admitted(Stored([UserRule(" ", " Direct ", ["a"], [], "", "", [], [])])) ==
            [Rule("field", [], "Direct", "", ["a"], [], "", "", [])]
  {
    var u := UserRule(" ", " Direct ", ["a"], [], "", "", [], []);
    ExampleTexts();
    hide Trim, Lower, Admitted;
    AdmittedHead([u]);
    NothingAdmitted(Stored([]));
    assert [u][1..] == [];
  }

  // ----- the fixed parts -----

  /** The two fixed outbounds, the catch-all at the end of the rules, the one balancer and the observatory. */
  lemma FixedParts(req: Request)
    requires Proxies(req) != []
    ensures var cfg, n := Generated(req), |Filter(CanServe, req.clients)|;
            && |cfg.outbounds| == n + 2
            && cfg.outbounds[n..] == [Outbound("direct", "freedom", "", 0), Outbound("block", "blackhole", "", 0)]
            && cfg.rules != []
            && var last := cfg.rules[|cfg.rules| - 1];
               && last.(outboundTag := "", balancerTag := "") == Rule("field", [], "", "", [], [], "", "0-65535", [])
               && (n > 1 ==> last.outboundTag == "" && last.balancerTag == "proxy-balance")
               && (n == 1 ==> last.outboundTag == cfg.outbounds[0].tag && last.balancerTag == "")
  {
    hide Proxies, Filter, CanServe, BaseRules, ResolvedRules, Resolve, Selector, Fallback, Normalized, FirstNonEmpty, Trim;
    ProxyCount(req);
    CatchAllShape(MainTarget(Proxies(req)));
  }

  lemma Balancing(req: Request)
    requires Proxies(req) != []
    ensures var cfg, n, s := Generated(req), |Filter(CanServe, req.clients)|, Strategy(req.strategy);
            && (n == 1 ==> cfg.balancers == [] && cfg.observatory == None)
            && (n > 1 ==>
                  && |cfg.balancers| == 1 && cfg.balancers[0].tag == "proxy-balance" && cfg.balancers[0].strategy == s
                  && (cfg.observatory.Some? <==> s == "leastPing" || s == "leastLoad")
                  && (cfg.observatory.Some? ==> cfg.observatory.value.subjects == cfg.balancers[0].selector))
  {
    hide Proxies, Filter, CanServe, BaseRules, ResolvedRules, CatchAll, Selector, Fallback, Normalized, Strategy, FirstNonEmpty, Trim;
    ProxyCount(req);
    StrategyIs(req.strategy);
  }

  lemma ProbeURL(req: Request)
    requires Proxies(req) != [] && Generated(req).observatory.Some?
    ensures Generated(req).observatory.value.probeURL ==
            if Trim(req.probeURL) != "" then Trim(req.probeURL) else "https://www.gstatic.com/generate_204"
  {
    hide Proxies, BaseRules, ResolvedRules, CatchAll, Selector, Fallback, Normalized, Trim, OutboundOf, MainTarget;
  }

  lemma ProbeInterval(req: Request)
    requires Proxies(req) != [] && Generated(req).observatory.Some?
    ensures Generated(req).observatory.value.probeInterval == if Trim(req.probeInterval) != "" then Trim(req.probeInterval) else "30s"
  {
    hide Proxies, BaseRules, ResolvedRules, CatchAll, Selector, Fallback, Normalized, Trim, OutboundOf, MainTarget;
  }

  lemma StrategyTexts()
    ensures Fold(" RoundRobin ") == "roundrobin" && Fold("leastload") == "leastload"
  {
    assert Trim(" RoundRobin ") == "RoundRobin" && Trim("leastload") == "leastload";
  }

  /** Letter case and surrounding space do not matter; anything unknown is least ping. */
  lemma StrategyExamples()
    ensures Normalized(" RoundRobin ") == "roundRobin" && Normalized("leastload") == "leastLoad" && Normalized("") == "leastPing"
  {
    StrategyTexts();
    assert Fold("") == "";
    hide Fold;
    assert |"random"| == 6 && |"leastload"| == 9 && |"roundrobin"| == 10;
  }
}
