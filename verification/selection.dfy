/** Which of a user's clients a subscription request gets: exclusion, the split between primary and fallback
    subscriptions, the emergency restriction, and the request's own filters. An empty selection is refused. */
module Selection {
  import opened Generator
  import opened Lists
  import opened Text

  datatype Settings = Settings(excluded: seq<string>, fallback: seq<string>)

  datatype Emergency = Emergency(active: bool, tags: seq<string>)

  /** The path and query forms of the two filters; blank when absent. */
  datatype Query = Query(onFallback: bool, protocolVar: string, protocolQuery: string, tagVar: string, tagQuery: string)

  function ProtocolFilter(r: Query): string {
    FirstNonEmpty(Fold(r.protocolVar), Fold(r.protocolQuery))
  }

  function TagFilter(r: Query): string {
    FirstNonEmpty(Trim(r.tagVar), Trim(r.tagQuery))
  }

  // ----- the stages -----

  function TagIs(tags: seq<string>, want: bool): Client -> bool {
    (c: Client) => (c.inboundTag in tags) == want
  }

  /** The clients whose inbound tag is (want), or is not (!want), among the tags, in order. */
  function Tagged(tags: seq<string>, want: bool, clients: seq<Client>): seq<Client> {
    Filter(TagIs(tags, want), clients)
  }

  function NotExcluded(s: Settings, clients: seq<Client>): seq<Client> {
    Tagged(s.excluded, false, clients)
  }

  function Side(s: Settings, onFallback: bool, clients: seq<Client>): seq<Client> {
    if s.fallback == [] then clients else Tagged(s.fallback, onFallback, clients)
  }

  function Restricted(em: Emergency, clients: seq<Client>): seq<Client> {
    if em.active && em.tags != [] && Tagged(em.tags, true, clients) != [] then Tagged(em.tags, true, clients) else clients
  }

  predicate OfProtocol(c: Client, protocol: string) {
    Lower(c.protocol) == Lower(protocol)
  }

  function Asked(protocol: string): Client -> bool {
    (c: Client) => protocol == "" || OfProtocol(c, protocol)
  }

  function ByProtocol(protocol: string, clients: seq<Client>): seq<Client> {
    Filter(Asked(protocol), clients)
  }

  /** The tag or its sanitised form. */
  predicate NamedBy(tag: string, filter: string) {
    tag == filter || SanitizeTag(tag) == filter
  }

  /** One of these, or the sanitised form with the position. */
  predicate MatchesTag(tag: string, filter: string, index: nat) {
    var f := Trim(filter);
    f == "" || NamedBy(tag, f) || Tag(tag, index) == f
  }

  function ByTag(filter: string, clients: seq<Client>, index: nat): seq<Client>
    decreases |clients|
  {
    if clients == [] then []
    else if filter == "" || MatchesTag(clients[0].inboundTag, filter, index) then
      [clients[0]] + ByTag(filter, clients[1..], index + 1)
    else ByTag(filter, clients[1..], index + 1)
  }

  /** What the JSON subscription is built from. */
  function ForJSON(s: Settings, em: Emergency, r: Query, clients: seq<Client>): seq<Client> {
    ByTag(TagFilter(r), ByProtocol(ProtocolFilter(r), Restricted(em, Side(s, r.onFallback, NotExcluded(s, clients)))), 0)
  }

  /** What the link subscription is built from, with the protocol some of its paths impose. */
  function ForLinks(s: Settings, r: Query, forced: string, clients: seq<Client>): seq<Client> {
    ByTag(TagFilter(r), ByProtocol(FirstNonEmpty(Fold(forced), ProtocolFilter(r)), Side(s, r.onFallback, NotExcluded(s, clients))), 0)
  }

  // ----- the stages as the code runs them -----

  method FilterExcludedInbounds(s: Settings, clients: seq<Client>) returns (kept: seq<Client>)
    ensures kept == NotExcluded(s, clients)
  {
    if s.excluded == [] {
      NothingTagged(clients);
      return clients;
    }
    kept := [];
    for i := 0 to |clients|
      invariant kept + Tagged(s.excluded, false, clients[i..]) == Tagged(s.excluded, false, clients)
    {
      assert clients[i..][1..] == clients[i + 1..];
      if clients[i].inboundTag !in s.excluded {
        kept := kept + [clients[i]];
      }
    }
  }

  method SplitFallback(s: Settings, onFallback: bool, clients: seq<Client>) returns (kept: seq<Client>)
    ensures kept == Side(s, onFallback, clients)
  {
    if s.fallback == [] {
      return clients;
    }
    kept := [];
    for i := 0 to |clients|
      invariant kept + Tagged(s.fallback, onFallback, clients[i..]) == Tagged(s.fallback, onFallback, clients)
    {
      assert clients[i..][1..] == clients[i + 1..];
      var inFallback := clients[i].inboundTag in s.fallback;
      if onFallback && inFallback {
        kept := kept + [clients[i]];
      } else if !onFallback && !inFallback {
        kept := kept + [clients[i]];
      }
    }
  }

  method RestrictToEmergency(em: Emergency, clients: seq<Client>) returns (kept: seq<Client>)
    ensures kept == Restricted(em, clients)
  {
    if !em.active || em.tags == [] {
      return clients;
    }
    var emergency: seq<Client> := [];
    for i := 0 to |clients|
      invariant emergency + Tagged(em.tags, true, clients[i..]) == Tagged(em.tags, true, clients)
    {
      assert clients[i..][1..] == clients[i + 1..];
      if clients[i].inboundTag in em.tags {
        emergency := emergency + [clients[i]];
      }
    }
    return if emergency != [] then emergency else clients;
  }

  lemma ByProtocolHead(protocol: string, c: Client, rest: seq<Client>)
    ensures ByProtocol(protocol, [c] + rest) ==
            (if protocol == "" || OfProtocol(c, protocol) then [c] else []) + ByProtocol(protocol, rest)
    ensures ByProtocol(protocol, []) == []
  {
    hide OfProtocol;
    FilterHead(Asked(protocol), c, rest);
  }

  lemma ByTagHead(filter: string, c: Client, rest: seq<Client>, index: nat)
    ensures ByTag(filter, [c] + rest, index) ==
            (if filter == "" || MatchesTag(c.inboundTag, filter, index) then [c] else []) + ByTag(filter, rest, index + 1)
    ensures ByTag(filter, [], index) == []
  {
    hide MatchesTag;
    assert ([c] + rest)[1..] == rest;
  }

  lemma NoneLeft(protocol: string, filter: string)
    ensures ByProtocol(protocol, []) == [] && forall index: nat :: ByTag(filter, [], index) == []
  {
  }

  method ApplySubscriptionFilters(clients: seq<Client>, r: Query, forced: string) returns (result: seq<Client>)
    ensures result == ByTag(TagFilter(r), ByProtocol(FirstNonEmpty(Fold(forced), ProtocolFilter(r)), clients), 0)
  {
    hide Lower, Fold, Trim, MatchesTag, OfProtocol, ProtocolFilter, TagFilter, ByProtocol, ByTag;
    result := clients;
    var p := Fold(forced);
    if p == "" {
      p := ProtocolFilter(r);
    }
    NoFilters(clients);
    if p != "" {
      result := [];
      for i := 0 to |clients|
        invariant result + ByProtocol(p, clients[i..]) == ByProtocol(p, clients)
      {
        assert clients[i..] == [clients[i]] + clients[i + 1..];
        ByProtocolHead(p, clients[i], clients[i + 1..]);
        if OfProtocol(clients[i], p) {
          result := result + [clients[i]];
        }
      }
      NoneLeft(p, "");
      assert result == ByProtocol(p, clients);
    }
    var t := TagFilter(r);
    NoFilters(result);
    assert result == ByProtocol(p, clients);
    if t != "" {
      var all := result;
      result := [];
      for i := 0 to |all|
        invariant result + ByTag(t, all[i..], i) == ByTag(t, all, 0)
      {
        assert all[i..] == [all[i]] + all[i + 1..];
        ByTagHead(t, all[i], all[i + 1..], i);
        if MatchesTag(all[i].inboundTag, t, i) {
          result := result + [all[i]];
        }
      }
      NoneLeft("", t);
      assert all[|all|..] == [];
      assert result == ByTag(t, all, 0);
    }
  }

  /** The filters of the JSON path, which has its own copy of them and of the split. */
  method FilterForJSON(clients: seq<Client>, r: Query) returns (selected: seq<Client>)
    ensures selected == ByTag(TagFilter(r), ByProtocol(ProtocolFilter(r), clients), 0)
  {
    hide Lower, Trim, MatchesTag, OfProtocol, ProtocolFilter, TagFilter, ByProtocol, ByTag;
    selected := clients;
    var p := ProtocolFilter(r);
    NoFilters(clients);
    if p != "" {
      var all, filtered: seq<Client> := selected, [];
      for i := 0 to |all|
        invariant filtered + ByProtocol(p, all[i..]) == ByProtocol(p, all)
      {
        assert all[i..] == [all[i]] + all[i + 1..];
        ByProtocolHead(p, all[i], all[i + 1..]);
        if OfProtocol(all[i], p) {
          filtered := filtered + [all[i]];
        }
      }
      NoneLeft(p, "");
      selected := filtered;
    }
    assert selected == ByProtocol(p, clients);
    var t := TagFilter(r);
    NoFilters(selected);
    if t != "" {
      var all, filtered: seq<Client> := selected, [];
      for i := 0 to |all|
        invariant filtered + ByTag(t, all[i..], i) == ByTag(t, all, 0)
      {
        assert all[i..] == [all[i]] + all[i + 1..];
        ByTagHead(t, all[i], all[i + 1..], i);
        if MatchesTag(all[i].inboundTag, t, i) {
          filtered := filtered + [all[i]];
        }
      }
      NoneLeft("", t);
      assert all[|all|..] == [];
      selected := filtered;
      assert selected == ByTag(t, all, 0);
    }
  }

  method SelectForJSON(s: Settings, em: Emergency, r: Query, clients: seq<Client>) returns (selected: seq<Client>)
    ensures selected == ForJSON(s, em, r, clients)
  {
    hide Restricted, ByTag, ByProtocol;
    selected := FilterExcludedInbounds(s, clients);
    if s.fallback != [] {
      var all, filtered: seq<Client> := selected, [];
      for i := 0 to |all|
        invariant filtered + Tagged(s.fallback, r.onFallback, all[i..]) == Tagged(s.fallback, r.onFallback, all)
      {
        assert all[i..][1..] == all[i + 1..];
        var inFallback := all[i].inboundTag in s.fallback;
        if r.onFallback && inFallback {
          filtered := filtered + [all[i]];
        } else if !r.onFallback && !inFallback {
          filtered := filtered + [all[i]];
        }
      }
      selected := filtered;
      assert selected == Tagged(s.fallback, r.onFallback, all);
    }
    assert selected == Side(s, r.onFallback, NotExcluded(s, clients));
    selected := RestrictToEmergency(em, selected);
    selected := FilterForJSON(selected, r);
  }

  method SelectForLinks(s: Settings, r: Query, forced: string, clients: seq<Client>) returns (selected: seq<Client>)
    ensures selected == ForLinks(s, r, forced, clients)
  {
    var kept := FilterExcludedInbounds(s, clients);
    kept := SplitFallback(s, r.onFallback, kept);
    selected := ApplySubscriptionFilters(kept, r, forced);
  }

  lemma NothingTagged(clients: seq<Client>)
    ensures Tagged([], false, clients) == clients
  {
    FilterAll(TagIs([], false), clients);
  }

  lemma NoFilters(clients: seq<Client>)
    ensures ByProtocol("", clients) == clients && ByTag("", clients, 0) == clients
  {
    FilterAll(Asked(""), clients);
    NoTagFilter(clients, 0);
  }

  lemma {:induction false} NoTagFilter(clients: seq<Client>, index: nat)
    ensures ByTag("", clients, index) == clients
    decreases |clients|
  {
    hide MatchesTag;
    if clients != [] {
      NoTagFilter(clients[1..], index + 1);
    }
  }

  // ----- the split -----

  /** c is an order-preserving merge of a and b. */
  predicate MergesTo(a: seq<Client>, b: seq<Client>, c: seq<Client>)
    decreases |c|
  {
    if c == [] then a == [] && b == []
    else (a != [] && a[0] == c[0] && MergesTo(a[1..], b, c[1..])) || (b != [] && b[0] == c[0] && MergesTo(a, b[1..], c[1..]))
  }

  lemma {:induction false} TaggedMerge(tags: seq<string>, clients: seq<Client>)
    ensures MergesTo(Tagged(tags, false, clients), Tagged(tags, true, clients), clients)
  {
    if clients != [] {
      TaggedMerge(tags, clients[1..]);
      var c := clients[0];
      var a, b := Tagged(tags, false, clients), Tagged(tags, true, clients);
      if c.inboundTag in tags {
        assert b[1..] == Tagged(tags, true, clients[1..]);
      } else {
        assert a[1..] == Tagged(tags, false, clients[1..]);
      }
    }
  }

  /** Main result: with fallback tags configured, the primary and the fallback side share no inbound tag, and
      together, in order, they are exactly the clients that are not excluded. */
  lemma SplitIsAPartition(s: Settings, clients: seq<Client>)
    requires s.fallback != []
    ensures var all := NotExcluded(s, clients);
            var primary, fallback := Side(s, false, all), Side(s, true, all);
            && (forall c, d :: c in primary && d in fallback ==> c.inboundTag != d.inboundTag)
            && MergesTo(primary, fallback, all)
            && forall c :: c in all <==> c in clients && c.inboundTag !in s.excluded
  {
    FilterMembers(TagIs(s.excluded, false), clients);
    FilterMembers(TagIs(s.fallback, false), NotExcluded(s, clients));
    FilterMembers(TagIs(s.fallback, true), NotExcluded(s, clients));
    TaggedMerge(s.fallback, NotExcluded(s, clients));
  }

  // ----- the emergency restriction -----

  /** The tag filter goes by the position in the list it filters. */
  lemma {:induction false} ByTagMembers(filter: string, clients: seq<Client>, index: nat)
    ensures forall c :: c in ByTag(filter, clients, index) <==>
              exists i :: 0 <= i < |clients| && clients[i] == c && (filter == "" || MatchesTag(c.inboundTag, filter, index + i))
    decreases |clients|
  {
    hide MatchesTag;
    if clients != [] {
      var rest := clients[1..];
      ByTagMembers(filter, rest, index + 1);
      forall c
        ensures c in ByTag(filter, clients, index) <==>
                exists i :: 0 <= i < |clients| && clients[i] == c && (filter == "" || MatchesTag(c.inboundTag, filter, index + i))
      {
        if c in ByTag(filter, rest, index + 1) {
          var i :| 0 <= i < |rest| && rest[i] == c && (filter == "" || MatchesTag(c.inboundTag, filter, index + 1 + i));
          assert clients[i + 1] == c && index + 1 + i == index + (i + 1);
        }
        if i :| 0 <= i < |clients| && clients[i] == c && (filter == "" || MatchesTag(c.inboundTag, filter, index + i)) {
          if i > 0 {
            assert rest[i - 1] == c && index + i == index + 1 + (i - 1);
          } else {
            assert ByTag(filter, clients, index)[0] == c;
          }
        }
      }
    }
  }

  /** Main result: emergency mode never empties a selection, and whatever its tags and the request's filters are,
      a JSON answer contains only clients of the user that are not excluded and belong to the side asked for: no
      fallback tag in a primary answer, no other tag in a fallback answer. */
  lemma AnswersStayOnTheirSide(s: Settings, em: Emergency, r: Query, clients: seq<Client>)
    ensures forall cs :: Restricted(em, cs) == [] <==> cs == []
    ensures forall c :: c in ForJSON(s, em, r, clients) ==>
              && c in clients && c.inboundTag !in s.excluded
              && (s.fallback != [] ==> (c.inboundTag in s.fallback) == r.onFallback)
  {
    hide ProtocolFilter, TagFilter, MatchesTag, OfProtocol, ByTag, Filter;
    var all := NotExcluded(s, clients);
    var side := Side(s, r.onFallback, all);
    var restricted := Restricted(em, side);
    var shown := ByProtocol(ProtocolFilter(r), restricted);
    FilterMembers(TagIs(s.excluded, false), clients);
    FilterMembers(TagIs(s.fallback, r.onFallback), all);
    FilterMembers(TagIs(em.tags, true), side);
    FilterMembers(Asked(ProtocolFilter(r)), restricted);
    ByTagMembers(TagFilter(r), shown, 0);
    TaggedOfNone(em.tags);
    forall c | c in ForJSON(s, em, r, clients)
      ensures c in shown
    {
    }
  }

  lemma TaggedOfNone(tags: seq<string>)
    ensures Tagged(tags, true, []) == []
  {
  }

  // ----- the two paths -----

  predicate Effective(s: Settings, em: Emergency, r: Query, clients: seq<Client>) {
    em.active && em.tags != [] && Tagged(em.tags, true, Side(s, r.onFallback, NotExcluded(s, clients))) != []
  }

  /** Without an effective emergency and without an imposed protocol, both kinds of subscription
      select the same clients, whatever the filters. */
  lemma PathsAgree(s: Settings, em: Emergency, r: Query, clients: seq<Client>)
    requires !Effective(s, em, r, clients)
    ensures ForJSON(s, em, r, clients) == ForLinks(s, r, "", clients)
  {
    assert Fold("") == "";
  }

  /** An imposed protocol works like one asked for in the path. */
  lemma ImposedProtocol(s: Settings, r: Query, forced: string, clients: seq<Client>)
    requires Fold(forced) != ""
    ensures ForLinks(s, r, forced, clients) == ForLinks(s, r.(protocolVar := forced), "", clients)
  {
    assert Fold("") == "";
  }

  predicate Chosen(filter: string, c: Client, index: nat) {
    filter == "" || MatchesTag(c.inboundTag, filter, index)
  }

  /** The clients a request would get but for its tag filter and any emergency. */
  function Offered(s: Settings, r: Query, clients: seq<Client>): seq<Client> {
    ByProtocol(ProtocolFilter(r), Side(s, r.onFallback, NotExcluded(s, clients)))
  }

  /** How many of the offered clients before position i have an emergency tag. */
  function Earlier(em: Emergency, offered: seq<Client>, i: nat): nat
    requires i <= |offered|
  {
    |Tagged(em.tags, true, offered[..i])|
  }

  predicate AllTagged(em: Emergency, clients: seq<Client>) {
    forall c :: c in clients ==> c.inboundTag in em.tags
  }

  /** Restricting to the emergency tags does not change whether the tag filter lets the i-th offered client through:
      one it names has an emergency tag; one it names by position has one, and so have all before it; and no client
      moves to the position it names. */
  predicate Unaffected(em: Emergency, filter: string, offered: seq<Client>, i: nat)
    requires i < |offered|
  {
    var c := offered[i];
    if filter == "" || NamedBy(c.inboundTag, filter) then c.inboundTag in em.tags
    else
      && (Tag(c.inboundTag, i) == filter ==> AllTagged(em, offered[..i + 1]))
      && (c.inboundTag in em.tags && Tag(c.inboundTag, Earlier(em, offered, i)) == filter ==> AllTagged(em, offered[..i]))
  }

  lemma UnaffectedExactly(em: Emergency, filter: string, offered: seq<Client>, i: nat)
    requires i < |offered| && Trim(filter) == filter
    ensures Unaffected(em, filter, offered, i) <==>
            (Chosen(filter, offered[i], i) <==>
             offered[i].inboundTag in em.tags && Chosen(filter, offered[i], Earlier(em, offered, i)))
  {
    hide Trim, Tag, SanitizeTag;
    var c, k := offered[i], Earlier(em, offered, i);
    FilterAllExactly(TagIs(em.tags, true), offered[..i]);
    assert k == i <==> AllTagged(em, offered[..i]);
    assert offered[..i + 1] == offered[..i] + [c];
    if Tag(c.inboundTag, i) == filter && Tag(c.inboundTag, k) == filter {
      TagIndex(c.inboundTag, i, c.inboundTag, k);
    }
  }

  /** A tag filter over a list without repeats selects in its order. */
  lemma {:induction false} ByTagInOrder(filter: string, clients: seq<Client>, index: nat)
    requires Distinct(clients)
    ensures ByTag(filter, clients, index) == Filter(Among(ByTag(filter, clients, index)), clients)
    decreases |clients|
  {
    hide MatchesTag;
    if clients != [] {
      var c, rest := clients[0], clients[1..];
      assert forall i :: 0 <= i < |rest| ==> rest[i] == clients[i + 1];
      ByTagInOrder(filter, rest, index + 1);
      ByTagMembers(filter, rest, index + 1);
      var more, out := ByTag(filter, rest, index + 1), ByTag(filter, clients, index);
      assert forall x :: x in rest ==> (x in out <==> x in more);
      FilterSame(Among(out), Among(more), rest);
    }
  }

  /** The tag filter on the offered list and on its emergency part, client by client. */
  lemma ChosenEither(em: Emergency, filter: string, offered: seq<Client>, i: nat)
    requires i < |offered| && Distinct(offered)
    ensures offered[i] in ByTag(filter, offered, 0) <==> Chosen(filter, offered[i], i)
    ensures offered[i] in ByTag(filter, Tagged(em.tags, true, offered), 0) <==>
            offered[i].inboundTag in em.tags && Chosen(filter, offered[i], Earlier(em, offered, i))
  {
    hide MatchesTag, Filter, ByTag;
    var c, part, k := offered[i], Tagged(em.tags, true, offered), Earlier(em, offered, i);
    AtOnePlace(filter, offered, i);
    FilterMembers(TagIs(em.tags, true), offered);
    FilterDistinct(TagIs(em.tags, true), offered);
    if c.inboundTag in em.tags {
      FilterPlace(TagIs(em.tags, true), offered, i);
      AtOnePlace(filter, part, k);
    } else {
      if c in ByTag(filter, part, 0) {
        ByTagWithin(filter, part, c);
      }
    }
  }

  lemma ByTagWithin(filter: string, clients: seq<Client>, c: Client)
    requires c in ByTag(filter, clients, 0)
    ensures c in clients
  {
    hide MatchesTag;
    ByTagMembers(filter, clients, 0);
  }

  lemma AtOnePlace(filter: string, clients: seq<Client>, i: nat)
    requires i < |clients| && Distinct(clients)
    ensures clients[i] in ByTag(filter, clients, 0) <==> Chosen(filter, clients[i], i)
  {
    hide MatchesTag;
    ByTagMembers(filter, clients, 0);
    assert i == 0 + i;
  }

  lemma RestrictionShows(em: Emergency, filter: string, offered: seq<Client>)
    requires Distinct(offered) && Trim(filter) == filter
    ensures ByTag(filter, Tagged(em.tags, true, offered), 0) == ByTag(filter, offered, 0) <==>
            forall i :: 0 <= i < |offered| ==> Unaffected(em, filter, offered, i)
  {
    hide Trim, Unaffected, Chosen, ByTag, Filter, Earlier;
    var all, part := ByTag(filter, offered, 0), ByTag(filter, Tagged(em.tags, true, offered), 0);
    forall i | 0 <= i < |offered|
      ensures Unaffected(em, filter, offered, i) <==> (offered[i] in all <==> offered[i] in part)
    {
      ChosenEither(em, filter, offered, i);
      UnaffectedExactly(em, filter, offered, i);
    }
    if forall i :: 0 <= i < |offered| ==> Unaffected(em, filter, offered, i) {
      SameSelection(em, filter, offered);
    }
  }

  lemma SameSelection(em: Emergency, filter: string, offered: seq<Client>)
    requires Distinct(offered)
    requires var all, part := ByTag(filter, offered, 0), ByTag(filter, Tagged(em.tags, true, offered), 0);
             forall c :: c in offered ==> (c in all <==> c in part)
    ensures ByTag(filter, Tagged(em.tags, true, offered), 0) == ByTag(filter, offered, 0)
  {
    hide ByTag;
    var tagged := Tagged(em.tags, true, offered);
    var all, part := ByTag(filter, offered, 0), ByTag(filter, tagged, 0);
    FilterDistinct(TagIs(em.tags, true), offered);
    FilterMembers(TagIs(em.tags, true), offered);
    ByTagInOrder(filter, offered, 0);
    ByTagInOrder(filter, tagged, 0);
    ByTagMembers(filter, tagged, 0);
    FilterSame(Among(all), Among(part), offered);
    FilterWithin(Among(part), TagIs(em.tags, true), offered);
  }

  /** Main result: for a user without repeated clients and any request, with or without filters, both kinds of
      subscription select the same clients exactly when no emergency is effective or the restriction affects none
      of the clients offered. */
  lemma PathsExactly(s: Settings, em: Emergency, r: Query, clients: seq<Client>)
    requires Distinct(clients)
    ensures ForJSON(s, em, r, clients) == ForLinks(s, r, "", clients) <==>
            !Effective(s, em, r, clients)
            || forall i :: 0 <= i < |Offered(s, r, clients)| ==> Unaffected(em, TagFilter(r), Offered(s, r, clients), i)
  {
    hide ProtocolFilter, ByTag, Filter, Unaffected, Trim, Fold, Lower;
    FoldBlank();
    var side, offered := Side(s, r.onFallback, NotExcluded(s, clients)), Offered(s, r, clients);
    if Effective(s, em, r, clients) {
      FilterDistinct(TagIs(s.excluded, false), clients);
      FilterDistinct(TagIs(s.fallback, r.onFallback), NotExcluded(s, clients));
      FilterDistinct(Asked(ProtocolFilter(r)), side);
      FilterCommutes(Asked(ProtocolFilter(r)), TagIs(em.tags, true), side);
      TrimIdempotent(r.tagVar);
      TrimIdempotent(r.tagQuery);
      RestrictionShows(em, TagFilter(r), offered);
    }
  }

  lemma FoldBlank()
    ensures Fold("") == "" && Trim("") == ""
  {
  }

  /** Main result for filters that name no position, as no filter at all: the paths differ during an effective
      emergency exactly when some client that is not excluded, on the side asked for, of the protocol asked for and
      named by the filter has no emergency tag. */
  lemma PathsDuringEmergency(s: Settings, em: Emergency, r: Query, clients: seq<Client>)
    requires Distinct(clients) && Effective(s, em, r, clients)
    requires forall c, index: nat :: c in clients ==> Tag(c.inboundTag, index) != TagFilter(r)
    ensures ForJSON(s, em, r, clients) == ForLinks(s, r, "", clients) <==>
            forall c :: c in clients && c.inboundTag !in s.excluded
                        && (s.fallback != [] ==> (c.inboundTag in s.fallback) == r.onFallback)
                        && (ProtocolFilter(r) != "" ==> OfProtocol(c, ProtocolFilter(r)))
                        && (TagFilter(r) != "" ==> NamedBy(c.inboundTag, TagFilter(r)))
                        ==> c.inboundTag in em.tags
  {
    hide ProtocolFilter, TagFilter, ForJSON, ForLinks, Filter, OfProtocol, NamedBy, Tag, Effective;
    PathsExactly(s, em, r, clients);
    var all := NotExcluded(s, clients);
    var side, offered := Side(s, r.onFallback, all), Offered(s, r, clients);
    FilterMembers(TagIs(s.excluded, false), clients);
    FilterMembers(TagIs(s.fallback, r.onFallback), all);
    FilterMembers(Asked(ProtocolFilter(r)), side);
    forall i | 0 <= i < |offered|
      ensures offered[i] in offered && offered[i] in clients
      ensures Unaffected(em, TagFilter(r), offered, i) <==>
              (TagFilter(r) == "" || NamedBy(offered[i].inboundTag, TagFilter(r)) ==> offered[i].inboundTag in em.tags)
    {
      assert offered[i] in offered;
      assert Tag(offered[i].inboundTag, i) != TagFilter(r);
      assert Tag(offered[i].inboundTag, Earlier(em, offered, i)) != TagFilter(r);
    }
    forall c
      ensures c in offered <==>
              && c in clients && c.inboundTag !in s.excluded
              && (s.fallback != [] ==> (c.inboundTag in s.fallback) == r.onFallback)
              && (ProtocolFilter(r) != "" ==> OfProtocol(c, ProtocolFilter(r)))
    {
    }
  }

  // ----- concrete requests during an emergency -----

  function Simple(tag: string): Client {
    Client(tag, "vless", 443, Blank, true, true, "", 0)
  }

  const TWO := [Simple("a"), Simple("b")]
  const PLAIN := Settings([], [])
  const ONLY_B := Emergency(true, ["b"])

  lemma Untouched()
    ensures NotExcluded(PLAIN, TWO) == TWO && Side(PLAIN, false, TWO) == TWO
    ensures Tagged(ONLY_B.tags, true, TWO) == [Simple("b")]
    ensures ByProtocol("", TWO) == TWO && ByProtocol("", [Simple("b")]) == [Simple("b")]
    ensures Fold("") == "" && Trim("") == ""
  {
    NothingTagged(TWO);
    NoFilters(TWO);
    NoFilters([Simple("b")]);
    assert TWO[1..] == [Simple("b")] && [Simple("b")][1..] == [];
    assert "a" != "b" by {
      assert "a"[0] != "b"[0];
    }
  }

  /** Without filters the link subscription offers what the emergency takes out of the JSON one. */
  lemma EmergencyExample()
    ensures var r := Query(false, "", "", "", "");
            ForJSON(PLAIN, ONLY_B, r, TWO) == [Simple("b")] && ForLinks(PLAIN, r, "", TWO) == TWO
  {
    hide Filter, Fold, Trim, Lower;
    Untouched();
    NoFilters(TWO);
    NoFilters([Simple("b")]);
  }

  /** A filter by position means another client once the emergency has taken one out before it: every client the
      link subscription gives has an emergency tag, and the JSON one gives none. */
  lemma PositionExample()
    ensures var r := Query(false, "", "", "", "b-1");
            ForJSON(PLAIN, ONLY_B, r, TWO) == [] && ForLinks(PLAIN, r, "", TWO) == [Simple("b")]
  {
    hide Filter, Fold, Lower, Trim;
    Untouched();
    PositionTexts();
    hide MatchesTag;
    assert TWO[1..] == [Simple("b")] && [Simple("b")][1..] == [];
  }

  lemma PositionTexts()
    ensures Trim("b-1") == "b-1"
    ensures !MatchesTag("a", "b-1", 0) && MatchesTag("b", "b-1", 1) && !MatchesTag("b", "b-1", 0)
  {
    assert Decimal(1) == "1" && Decimal(0) == "0";
    assert SanitizeTag("a") == "a" && SanitizeTag("b") == "b";
    assert Tag("b", 1) == "b-1";
    assert Tag("b", 0)[2] == '0' && Tag("a", 0)[2] == '0' && "b-1"[2] == '1';
    assert |"b-1"| == 3;
  }
}
