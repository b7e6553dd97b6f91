/** The mobile profile: geosite/geoip selectors are removed from every rule, and rules left without any
    condition are dropped. */
module Mobile {
  import opened Lists
  import opened Text
  import opened Routing

  predicate IsGeo(selector: string) {
    HasPrefix(Fold(selector), "geosite:") || HasPrefix(Fold(selector), "geoip:")
  }

  predicate IsKept(selector: string) {
    !IsGeo(selector)
  }

  /** The selectors that are kept, in order. */
  function NonGeo(values: seq<string>): seq<string> {
    Filter(IsKept, values)
  }

  method StripGeoSelectors(values: seq<string>) returns (out: seq<string>)
    ensures out == NonGeo(values)
  {
    if |values| == 0 {
      return values;
    }
    out := [];
    for i := 0 to |values|
      invariant out == Filter(IsKept, values[..i])
    {
      FilterStep(IsKept, values, i);
      if !IsGeo(values[i]) {
        out := out + [values[i]];
      }
    }
    assert values[..|values|] == values;
  }

  /** A rule that still names some condition once trimmed texts are looked at. */
  predicate Effective(r: Rule) {
    || r.domain != [] || r.ip != [] || Trim(r.network) != "" || Trim(r.port) != ""
    || r.protocol != [] || r.inboundTag != []
  }

  function StripRule(r: Rule): Rule {
    r.(domain := NonGeo(r.domain), ip := NonGeo(r.ip))
  }

  function Profile(rules: seq<Rule>): seq<Rule> {
    Filter(Effective, Map(StripRule, rules))
  }

  method ApplyMobileRoutingProfile(rules: seq<Rule>) returns (out: seq<Rule>)
    ensures out == Profile(rules)
  {
    out := [];
    ghost var stripped := Map(StripRule, rules);
    for i := 0 to |rules|
      invariant out == Filter(Effective, stripped[..i])
    {
      FilterStep(Effective, stripped, i);
      var d := StripGeoSelectors(rules[i].domain);
      var ip := StripGeoSelectors(rules[i].ip);
      var rule := rules[i].(domain := d, ip := ip);
      if |rule.domain| == 0 && |rule.ip| == 0 && Trim(rule.network) == "" && Trim(rule.port) == ""
        && |rule.protocol| == 0 && |rule.inboundTag| == 0
      {
        continue;
      }
      out := out + [rule];
    }
    assert stripped[..|rules|] == stripped;
  }

  // ----- meaning -----

  /** A packet that satisfies no geo selector. */
  ghost predicate GeoFree(p: Packet) {
    forall s :: IsGeo(s) ==> !p.domain(s) && !p.ip(s)
  }

  predicate OnlyGeo(values: seq<string>) {
    values != [] && NonGeo(values) == []
  }

  /** Stripping loosens this rule: a field consisting of geo selectors alone disappears while another
      condition remains. */
  predicate Widens(r: Rule) {
    && (OnlyGeo(r.domain) || OnlyGeo(r.ip))
    && Effective(StripRule(r))
    && (r.network == "" || Trim(r.network) != "")
    && (r.port == "" || Trim(r.port) != "")
  }

  lemma NonGeoMembers(values: seq<string>)
    ensures forall s :: s in NonGeo(values) <==> s in values && !IsGeo(s)
  {
    FilterMembers(IsKept, values);
  }

  lemma ProfileHead(r: Rule, rest: seq<Rule>)
    ensures Profile([r] + rest) == (if Effective(StripRule(r)) then [StripRule(r)] else []) + Profile(rest)
  {
    assert Map(StripRule, [r] + rest) == [StripRule(r)] + Map(StripRule, rest);
    FilterHead(Effective, StripRule(r), Map(StripRule, rest));
  }

  /** On geo-free packets a stripped field says the same, unless it consisted of geo selectors alone. */
  lemma StrippedField(values: seq<string>, hit: string -> bool)
    requires forall s :: IsGeo(s) ==> !hit(s)
    ensures !OnlyGeo(values) ==> (FieldHit(NonGeo(values), hit) <==> FieldHit(values, hit))
    ensures OnlyGeo(values) ==> !FieldHit(values, hit)
  {
    NonGeoMembers(values);
    if OnlyGeo(values) {
      forall s | s in values
        ensures IsGeo(s)
      {
        assert !(s in NonGeo(values));
      }
    }
  }

  ghost predicate KeepsMeaning(r: Rule, p: Packet) {
    Matches(r, p) <==> Effective(StripRule(r)) && Matches(StripRule(r), p)
  }

  /** What the generator guarantees of every rule it emits. */
  predicate Conditioned(r: Rule) {
    r.domain != [] || r.ip != [] || r.network != "" || r.port != "" || r.protocol != [] || r.inboundTag != []
  }

  /** A rule that widening does not touch matches the same geo-free packets before and after, and is
      dropped only when it matched none of them. */
  lemma StripRuleMeaning(r: Rule, p: Packet)
    requires WellFormed(p) && GeoFree(p) && !Widens(r)
    requires Conditioned(r)
    ensures KeepsMeaning(r, p)
  {
    StrippedField(r.domain, p.domain);
    StrippedField(r.ip, p.ip);
  }

  lemma {:induction false} RuleByRule(rules: seq<Rule>, p: Packet)
    requires forall r :: r in rules ==> KeepsMeaning(r, p)
    ensures Route(Profile(rules), p) == Route(rules, p)
  {
    if rules != [] {
      var r, rest := rules[0], rules[1..];
      assert rules == [r] + rest;
      assert KeepsMeaning(r, p);
      RuleByRule(rest, p);
      ProfileHead(r, rest);
      RouteHead(r, rest, p);
      RouteHead(StripRule(r), Profile(rest), p);
      assert [] + Profile(rest) == Profile(rest);
    }
  }

  lemma ProfilePreservesRouting(rules: seq<Rule>, p: Packet)
    requires WellFormed(p) && GeoFree(p)
    requires forall r :: r in rules ==> Conditioned(r) && !Widens(r)
    ensures Route(Profile(rules), p) == Route(rules, p)
  {
    forall r | r in rules
      ensures KeepsMeaning(r, p)
    {
      StripRuleMeaning(r, p);
    }
    RuleByRule(rules, p);
  }

  /** The packet that satisfies every selector except geo selectors and blank texts. */
  ghost function Greedy(): Packet {
    Packet(s => true, s => !IsGeo(s), s => !IsGeo(s), s => Trim(s) != "", s => Trim(s) != "", s => true)
  }

  lemma GreedyIsLegal()
    ensures WellFormed(Greedy()) && GeoFree(Greedy())
  {
    assert Trim(ALL_PORTS) == ALL_PORTS;
  }

  /** Not widening is exactly what a rule needs: a rule means the same to every geo-free packet after
      stripping if and only if it does not widen. */
  lemma SafeExactlyWhenNotWidened(r: Rule)
    requires Conditioned(r)
    ensures (forall p :: WellFormed(p) && GeoFree(p) ==> Route(Profile([r]), p) == Route([r], p)) <==> !Widens(r)
  {
    if Widens(r) {
      var p := Greedy();
      GreedyIsLegal();
      NonGeoMembers(r.domain);
      NonGeoMembers(r.ip);
      StrippedField(r.domain, p.domain);
      StrippedField(r.ip, p.ip);
      assert !Matches(r, p) && Route([r], p) == Unrouted;
      assert FieldHit(NonGeo(r.domain), p.domain) by {
        if NonGeo(r.domain) != [] { assert NonGeo(r.domain)[0] in NonGeo(r.domain); }
      }
      assert FieldHit(NonGeo(r.ip), p.ip) by {
        if NonGeo(r.ip) != [] { assert NonGeo(r.ip)[0] in NonGeo(r.ip); }
      }
      assert FieldHit(r.inboundTag, p.inbound) by {
        if r.inboundTag != [] { assert r.inboundTag[0] in r.inboundTag; }
      }
      assert FieldHit(r.protocol, p.protocol) by {
        if r.protocol != [] { assert r.protocol[0] in r.protocol; }
      }
      assert Matches(StripRule(r), p);
      ProfileHead(r, []);
      assert [r] + [] == [r];
      assert Profile([r]) == [StripRule(r)];
      assert Route(Profile([r]), p) == TargetOf(r);
    } else {
      forall p | WellFormed(p) && GeoFree(p)
        ensures Route(Profile([r]), p) == Route([r], p)
      {
        ProfilePreservesRouting([r], p);
      }
    }
  }

  /** A private-address rule limited to UDP starts to catch every UDP packet. */
  lemma WideningExample()
    ensures exists r, p ::
              && Conditioned(r) && Widens(r) && WellFormed(p) && GeoFree(p)
              && Route([r], p) == Unrouted && Route(Profile([r]), p) == ToOutbound("direct")
  {
    var r := Rule("field", [], "direct", "", [], ["geoip:private"], "udp", "", []);
    var p := Greedy();
    GreedyIsLegal();
    assert IsGeo("geoip:private") by {
      assert Fold("geoip:private") == "geoip:private";
    }
    NonGeoMembers(r.ip);
    FilterNone(IsKept, r.ip);
    assert Trim("udp") == "udp";
    assert Effective(StripRule(r));
    ProfileHead(r, []);
    assert [r] + [] == [r];
    assert Profile([r]) == [StripRule(r)];
    assert Matches(StripRule(r), p);
    StrippedField(r.ip, p.ip);
    assert !Matches(r, p);
    assert Route([r][1..], p) == Unrouted;
  }

  lemma StripTwice(r: Rule)
    ensures StripRule(StripRule(r)) == StripRule(r)
  {
    hide IsKept, Filter;
    FilterTwice(IsKept, r.domain);
    FilterTwice(IsKept, r.ip);
  }

  lemma {:induction false} ProfileIdempotent(rules: seq<Rule>)
    ensures Profile(Profile(rules)) == Profile(rules)
  {
    hide StripRule, Effective, Filter;
    if rules != [] {
      var r, rest := rules[0], rules[1..];
      assert rules == [r] + rest;
      ProfileIdempotent(rest);
      ProfileHead(r, rest);
      StripTwice(r);
      ProfileHead(StripRule(r), Profile(rest));
      assert [] + Profile(rest) == Profile(rest);
    }
  }

  lemma ProfileConcat(a: seq<Rule>, b: seq<Rule>)
    ensures Profile(a + b) == Profile(a) + Profile(b)
  {
    assert Map(StripRule, a + b) == Map(StripRule, a) + Map(StripRule, b);
    FilterConcat(Effective, Map(StripRule, a), Map(StripRule, b));
  }

  // ----- in terms of the selectors' text -----

  /** Trimmed and in lower case, the text begins with one of the two prefixes. */
  predicate GeoText(selector: string) {
    var text := Lower(Trim(selector));
    "geosite:" <= text || "geoip:" <= text
  }

  function NoGeoText(): string -> bool {
    (s: string) => !GeoText(s)
  }

  lemma GeoIsText(s: string)
    ensures IsGeo(s) <==> GeoText(s)
  {
    hide Trim, Lower;
  }

  /** What the profile leaves of one rule: the same rule with exactly the geosite and geoip selectors taken out, the
      others in order, unless no condition is left. */
  lemma RuleInTheProfile(r: Rule)
    ensures var left := r.(domain := Filter(NoGeoText(), r.domain), ip := Filter(NoGeoText(), r.ip));
            Profile([r]) ==
            if left.domain == [] && left.ip == [] && Trim(r.network) == "" && Trim(r.port) == "" && r.protocol == [] && r.inboundTag == []
            then [] else [left]
  {
    hide Trim, Lower, IsGeo, GeoText, Filter;
    forall s
      ensures IsKept(s) <==> NoGeoText()(s)
    {
      GeoIsText(s);
    }
    FilterSame(IsKept, NoGeoText(), r.domain);
    FilterSame(IsKept, NoGeoText(), r.ip);
    ProfileHead(r, []);
    ProfileOfNone();
    assert [r] + [] == [r] && [StripRule(r)] + [] == [StripRule(r)];
  }

  lemma ProfileOfNone()
    ensures Profile([]) == []
  {
  }

  /** Main result: no rule of the profile has a selector whose trimmed, lower-case text begins with "geosite:" or
      "geoip:". */
  lemma {:induction false} NoGeoLeft(rules: seq<Rule>)
    ensures forall r, s :: r in Profile(rules) && (s in r.domain || s in r.ip) ==> !GeoText(s)
  {
    hide Trim, Lower, GeoText, Filter;
    if rules != [] {
      var r, rest := rules[0], rules[1..];
      assert rules == [r] + rest;
      NoGeoLeft(rest);
      ProfileConcat([r], rest);
      RuleInTheProfile(r);
      FilterMembers(NoGeoText(), r.domain);
      FilterMembers(NoGeoText(), r.ip);
    }
  }

  /** Letter case and surrounding space do not hide a geo selector, a name that merely contains one is none. */
  lemma GeoTextExamples()
    ensures GeoText("geosite:private") && GeoText(" GeoIP:ru") && !GeoText("ext:geosite:ru") && !GeoText("geosite")
  {
    assert Trim("geosite:private") == "geosite:private" && Lower("geosite:private") == "geosite:private";
    assert Trim(" GeoIP:ru") == "GeoIP:ru" && Lower("GeoIP:ru") == "geoip:ru";
    assert Trim("ext:geosite:ru") == "ext:geosite:ru" && Lower("ext:geosite:ru")[0] == 'e';
    assert Trim("geosite") == "geosite" && |Lower("geosite")| == 7 && Lower("geosite")[3] == 's';
  }
}
