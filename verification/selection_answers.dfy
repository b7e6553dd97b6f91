/** Which clients a subscription request is answered with, read off the request itself. */
module SelectionAnswers {
  import opened Generator
  import opened Lists
  import opened Selection
  import opened Text

  /** The first of these that is not blank decides, and none at all lets every protocol through. */
  predicate ProtocolWanted(protocol: string, asked: seq<string>) {
    if asked == [] then true
    else if Trim(asked[0]) != "" then Lower(protocol) == Lower(Trim(asked[0]))
    else ProtocolWanted(protocol, asked[1..])
  }

  /** text is the tag with a hyphen for every blank, slash and backslash. */
  predicate Hyphenated(tag: string, text: string) {
    |text| == |tag|
    && forall i :: 0 <= i < |tag| ==> text[i] == if tag[i] == ' ' || tag[i] == '/' || tag[i] == '\\' then '-' else tag[i]
  }

  /** A name of the client at this place in the list: its tag, the hyphenated tag, or that with the place. */
  predicate Names(text: string, tag: string, place: nat) {
    || text == tag
    || Hyphenated(tag, text)
    || (|text| > |tag| && Hyphenated(tag, text[..|tag|]) && text[|tag|..] == "-" + Decimal(place))
  }

  predicate TagWanted(tag: string, place: nat, asked: seq<string>) {
    if asked == [] then true
    else if Trim(asked[0]) != "" then Names(Trim(asked[0]), tag, place)
    else TagWanted(tag, place, asked[1..])
  }

  /** Not excluded, and on the side asked for when there are sides. */
  predicate OnSide(s: Settings, onFallback: bool, c: Client) {
    c.inboundTag !in s.excluded && (s.fallback == [] || (c.inboundTag in s.fallback <==> onFallback))
  }

  ghost predicate EmergencyOn(s: Settings, em: Emergency, onFallback: bool, clients: seq<Client>) {
    em.active && exists c :: c in clients && OnSide(s, onFallback, c) && c.inboundTag in em.tags
  }

  /** Everything a client has to meet apart from the tag filter. */
  function Meets(s: Settings, onFallback: bool, emergency: bool, tags: seq<string>, asked: seq<string>): Client -> bool {
    (c: Client) => OnSide(s, onFallback, c) && (emergency ==> c.inboundTag in tags) && ProtocolWanted(c.protocol, asked)
  }

  // ----- the filters of the code -----

  lemma LowerTwice(s: string)
    ensures Lower(Lower(s)) == Lower(s)
  {
  }

  lemma LowerBlank(s: string)
    ensures Lower(s) == "" <==> s == ""
  {
    assert |Lower(s)| == |s|;
  }

  lemma TwoAsked(protocol: string, a: string, b: string)
    ensures var p := FirstNonEmpty(Fold(a), Fold(b));
            ProtocolWanted(protocol, [a, b]) <==> p == "" || OfProtocol(Simple("").(protocol := protocol), p)
  {
    hide Trim, Lower;
    assert [a, b][1..] == [b] && [b][1..] == [];
    LowerBlank(Trim(a));
    LowerBlank(Trim(b));
    LowerTwice(Trim(a));
    LowerTwice(Trim(b));
    assert ProtocolWanted(protocol, [b]) == if Trim(b) != "" then Lower(protocol) == Lower(Trim(b)) else ProtocolWanted(protocol, []);
  }

  lemma ThreeAsked(c: Client, a: string, r: Query)
    ensures Asked(FirstNonEmpty(Fold(a), ProtocolFilter(r)))(c) <==> ProtocolWanted(c.protocol, [a, r.protocolVar, r.protocolQuery])
    ensures Asked(ProtocolFilter(r))(c) <==> ProtocolWanted(c.protocol, [r.protocolVar, r.protocolQuery])
  {
    hide Trim, Lower;
    assert [a, r.protocolVar, r.protocolQuery][1..] == [r.protocolVar, r.protocolQuery];
    LowerBlank(Trim(a));
    LowerTwice(Trim(a));
    TwoAsked(c.protocol, r.protocolVar, r.protocolQuery);
    hide FirstNonEmpty;
    assert OfProtocol(Simple("").(protocol := c.protocol), ProtocolFilter(r)) == OfProtocol(c, ProtocolFilter(r));
  }

  lemma HyphenatedIs(tag: string, text: string)
    ensures Hyphenated(tag, text) <==> text == SanitizeTag(tag)
  {
    if Hyphenated(tag, text) {
      assert text == SanitizeTag(tag);
    }
  }

  lemma NamesIs(text: string, tag: string, place: nat)
    ensures Names(text, tag, place) <==> NamedBy(tag, text) || Tag(tag, place) == text
  {
    hide SanitizeTag, Hyphenated, Decimal;
    HyphenatedIs(tag, text);
    var d := Decimal(place);
    if |text| > |tag| {
      HyphenatedIs(tag, text[..|tag|]);
      assert text == text[..|tag|] + text[|tag|..];
      if Tag(tag, place) == text {
        assert text[..|tag|] == SanitizeTag(tag) && text[|tag|..] == "-" + d;
      }
    } else {
      assert |Tag(tag, place)| > |tag|;
    }
  }

  lemma TagWantedIs(tag: string, place: nat, r: Query)
    ensures TagWanted(tag, place, [r.tagVar, r.tagQuery]) <==> TagFilter(r) == "" || MatchesTag(tag, TagFilter(r), place)
  {
    hide Trim, Names, NamedBy, Tag;
    assert [r.tagVar, r.tagQuery][1..] == [r.tagQuery] && [r.tagQuery][1..] == [];
    TrimIdempotent(r.tagVar);
    TrimIdempotent(r.tagQuery);
    NamesIs(Trim(r.tagVar), tag, place);
    NamesIs(Trim(r.tagQuery), tag, place);
    assert TagWanted(tag, place, [r.tagQuery]) ==
           if Trim(r.tagQuery) != "" then Names(Trim(r.tagQuery), tag, place) else TagWanted(tag, place, []);
  }

  // ----- filters in a row -----

  function Both(f: Client -> bool, g: Client -> bool): Client -> bool {
    (c: Client) => f(c) && g(c)
  }

  lemma {:induction false} FilterBoth(f: Client -> bool, g: Client -> bool, xs: seq<Client>)
    ensures Filter(g, Filter(f, xs)) == Filter(Both(f, g), xs)
  {
    if xs != [] {
      FilterBoth(f, g, xs[1..]);
      FilterHead(g, xs[0], Filter(f, xs[1..]));
    }
  }

  function Sided(s: Settings, onFallback: bool): Client -> bool {
    (c: Client) => OnSide(s, onFallback, c)
  }

  lemma SideIs(s: Settings, onFallback: bool, clients: seq<Client>)
    ensures Side(s, onFallback, NotExcluded(s, clients)) == Filter(Sided(s, onFallback), clients)
  {
    hide Filter;
    var f, g := TagIs(s.excluded, false), TagIs(s.fallback, onFallback);
    if s.fallback == [] {
      FilterSame(f, Sided(s, onFallback), clients);
    } else {
      FilterBoth(f, g, clients);
      FilterSame(Both(f, g), Sided(s, onFallback), clients);
    }
  }

  /** What is left for the tag filter, in one go. */
  lemma LinksOffered(s: Settings, r: Query, forced: string, clients: seq<Client>)
    ensures ByProtocol(FirstNonEmpty(Fold(forced), ProtocolFilter(r)), Side(s, r.onFallback, NotExcluded(s, clients)))
         == Filter(Meets(s, r.onFallback, false, [], [forced, r.protocolVar, r.protocolQuery]), clients)
  {
    hide Filter, Fold, ProtocolFilter, FirstNonEmpty, OnSide, ProtocolWanted, OfProtocol;
    var p, asked := FirstNonEmpty(Fold(forced), ProtocolFilter(r)), [forced, r.protocolVar, r.protocolQuery];
    SideIs(s, r.onFallback, clients);
    FilterBoth(Sided(s, r.onFallback), Asked(p), clients);
    forall c
      ensures Both(Sided(s, r.onFallback), Asked(p))(c) == Meets(s, r.onFallback, false, [], asked)(c)
    {
      ThreeAsked(c, forced, r);
    }
    FilterSame(Both(Sided(s, r.onFallback), Asked(p)), Meets(s, r.onFallback, false, [], asked), clients);
  }

  lemma RestrictedIs(s: Settings, em: Emergency, onFallback: bool, clients: seq<Client>)
    ensures Restricted(em, Side(s, onFallback, NotExcluded(s, clients))) ==
            if EmergencyOn(s, em, onFallback, clients) then Filter(Both(Sided(s, onFallback), TagIs(em.tags, true)), clients)
            else Filter(Sided(s, onFallback), clients)
  {
    hide Filter, OnSide;
    var side := Filter(Sided(s, onFallback), clients);
    var tagged := Filter(TagIs(em.tags, true), side);
    SideIs(s, onFallback, clients);
    FilterBoth(Sided(s, onFallback), TagIs(em.tags, true), clients);
    FilterMembers(Sided(s, onFallback), clients);
    FilterMembers(TagIs(em.tags, true), side);
    if tagged != [] {
      assert tagged[0] in tagged;
    }
    if EmergencyOn(s, em, onFallback, clients) {
      var c :| c in clients && OnSide(s, onFallback, c) && c.inboundTag in em.tags;
      assert c in tagged;
    }
  }

  lemma JSONOffered(s: Settings, em: Emergency, r: Query, clients: seq<Client>)
    ensures var on := EmergencyOn(s, em, r.onFallback, clients);
            ByProtocol(ProtocolFilter(r), Restricted(em, Side(s, r.onFallback, NotExcluded(s, clients)))) ==
            Filter(Meets(s, r.onFallback, on, em.tags, [r.protocolVar, r.protocolQuery]), clients)
  {
    hide Filter, ProtocolFilter, OnSide, ProtocolWanted, OfProtocol, EmergencyOn, Restricted;
    var on, p, asked := EmergencyOn(s, em, r.onFallback, clients), ProtocolFilter(r), [r.protocolVar, r.protocolQuery];
    var f := if on then Both(Sided(s, r.onFallback), TagIs(em.tags, true)) else Sided(s, r.onFallback);
    RestrictedIs(s, em, r.onFallback, clients);
    FilterBoth(f, Asked(p), clients);
    forall c
      ensures Both(f, Asked(p))(c) == Meets(s, r.onFallback, on, em.tags, asked)(c)
    {
      ThreeAsked(c, "", r);
    }
    FilterSame(Both(f, Asked(p)), Meets(s, r.onFallback, on, em.tags, asked), clients);
  }

  lemma TagFiltered(r: Query, offered: seq<Client>)
    ensures forall c :: c in ByTag(TagFilter(r), offered, 0) <==>
              exists k :: 0 <= k < |offered| && offered[k] == c && TagWanted(c.inboundTag, k, [r.tagVar, r.tagQuery])
  {
    hide ByTag, TagFilter, MatchesTag, TagWanted;
    ByTagMembers(TagFilter(r), offered, 0);
    forall c: Client, k: nat
      ensures TagWanted(c.inboundTag, k, [r.tagVar, r.tagQuery]) <==> TagFilter(r) == "" || MatchesTag(c.inboundTag, TagFilter(r), 0 + k)
    {
      TagWantedIs(c.inboundTag, k, r);
    }
  }

  /** Main result: both kinds of answer, from the request. A link request gets, of the clients that are not excluded,
      on the side asked for and of the protocol imposed or else asked for, those the tag filter names; a JSON request
      the same without an imposed protocol, and only emergency tags while the emergency leaves any of its side. */
  lemma AnswersExactly(s: Settings, em: Emergency, r: Query, forced: string, clients: seq<Client>)
    ensures var offered := Filter(Meets(s, r.onFallback, false, [], [forced, r.protocolVar, r.protocolQuery]), clients);
            forall c :: c in ForLinks(s, r, forced, clients) <==>
              exists k :: 0 <= k < |offered| && offered[k] == c && TagWanted(c.inboundTag, k, [r.tagVar, r.tagQuery])
    ensures var on := EmergencyOn(s, em, r.onFallback, clients);
            var offered := Filter(Meets(s, r.onFallback, on, em.tags, [r.protocolVar, r.protocolQuery]), clients);
            forall c :: c in ForJSON(s, em, r, clients) <==>
              exists k :: 0 <= k < |offered| && offered[k] == c && TagWanted(c.inboundTag, k, [r.tagVar, r.tagQuery])
  {
    hide Filter, ByTag, TagFilter, ProtocolFilter, Fold, FirstNonEmpty, ByProtocol, Restricted, Side, NotExcluded, EmergencyOn, Meets, TagWanted;
    LinksOffered(s, r, forced, clients);
    JSONOffered(s, em, r, clients);
    var on := EmergencyOn(s, em, r.onFallback, clients);
    TagFiltered(r, Filter(Meets(s, r.onFallback, false, [], [forced, r.protocolVar, r.protocolQuery]), clients));
    TagFiltered(r, Filter(Meets(s, r.onFallback, on, em.tags, [r.protocolVar, r.protocolQuery]), clients));
  }

  /** Names of the outbound at place 12 of a client with a tag of blanks and slashes. */
  lemma TagExample()
    ensures Tag("a b/c\\d", 12) == "a-b-c-d-12" && SanitizeTag("a b/c\\d") == "a-b-c-d"
    ensures Names("a-b-c-d-12", "a b/c\\d", 12) && Names("a-b-c-d", "a b/c\\d", 0)
  {
    assert Decimal(12 / 10) == "1" && Decimal(12) == "12";
    var tag, text := "a b/c\\d", "a-b-c-d";
    assert Hyphenated(tag, text);
    HyphenatedIs(tag, text);
    assert "a-b-c-d-12"[..7] == text && "a-b-c-d-12"[7..] == "-12";
  }
}
