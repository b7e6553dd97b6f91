# Verified model of Raven-subscribe

Raven-subscribe serves VPN subscriptions for Xray servers. What a user downloads is computed from database rows, and
those rows, the server's configuration files and the running Xray processes are brought into line with each other by
loops and handlers that may be interrupted, repeated or run against stale answers. This project writes that logic down
in Dafny and proves what it guarantees. `dafny verify dfyconfig.toml` checks everything.

| component | files |
|---|---|
| Client-config generator as a compiler from rules and clients to routing, and the mobile rewrite | `routing.dfy`, `generator.dfy`, `generator_meaning.dfy`, `generator_closure.dfy`, `generator_fate.dfy`, `generator_forms.dfy`, `mobile.dfy` |
| Killswitch as interleaved steps of handlers and ticks, with Xray restarts and failing calls | `killswitch.dfy` |
| Fan-out to several nodes and the add-only reconcile | `fanout.dfy`, `reconcile.dfy` |
| Node rows, user placement and the expansion of clients to node endpoints | `placement.dfy` |
| Two-way sync between files and tables | `credentials.dfy`, `credential_forms.dfy`, `config_file.dfy`, `restore.dfy`, `restore_results.dfy`, `restore_cases.dfy`, `sync.dfy`, `sync_rows.dfy`, `names.dfy`, `sync_results.dfy`, `resync.dfy`, `accounts.dfy`, `newcomers.dfy`, `two_way.dfy`, `two_way_results.dfy`, `two_way_reports.dfy`, `settling.dfy`, `passes.dfy`, `fixpoint.dfy`, `unsettled.dfy`, `in_the_end.dfy`, `survival.dfy` |
| Failure ring against the full history, evicting rate limiter against one that never evicts | `error_ring.dfy`, `rate_limit.dfy`, `rate_limit_bound.dfy`, `rate_limit_service.dfy` |
| Selection of the clients a subscription gets | `selection.dfy`, `selection_answers.dfy` |
| Strings, lists, optional values | `text.dfy`, `text_facts.dfy`, `lists.dfy`, `options.dfy` |

Code that updates state in place is modelled by classes and loops whose contracts tie them to functions; what the
system promises is then proved about those functions, over all inputs and all runs. Replies of Xray, the clock, random
credentials, the order in which a map of files is visited and the answers of database queries are parameters, and the
results hold for all of them.

What a name, a credential, a tag, a list of rules or a number of requests is turned into at the leaves is stated a second
time without the functions that do it, in literals or from the input alone: `TextFacts`, `Names`, `CredentialForms`,
`GeneratorFate`, `GeneratorForms`, `SelectionAnswers`, `RestoreCases`, `SyncRows`, `TwoWayReports` and `RateLimitService`.

## What turned out to hold only under a condition

- Stored "direct" and "block" targets are compared without regard to case but emitted as written, so a stored "Direct"
  points at no outbound. All targets exist exactly when those targets are stored in lower case
  (`GeneratorClosure.ReferencesExistExactly`).
- Removing geo selectors for the mobile profile loosens a rule exactly when a field of geo selectors alone disappears
  while another condition stays (`Mobile.SafeExactlyWhenNotWidened`).
- The order of files matters for an inbound tag that moved from one file to another: the old enrolments survive only if
  the new file is processed first. All orders lead to the same tables exactly when for every moved tag every old
  enrolment is enabled and listed in the new file (`SyncResults.OrderMattersExactly`; a case is
  `SyncResults.MovedTagExample`).
- The two-way sync does not always settle in two passes. From files with distinct tags and sanitised identities, and
  users of any trimmed name, the second of two passes writes no client and creates no account exactly when, before the
  first, two conditions hold (`Fixpoint.SecondPassIdleExactly`).
  - Every inbound with settings and a tag either reads back what is appended to its client list, or is missing no active
    user with a writable credential, or is a single-user Shadowsocks inbound whose own user is switched off.
  - The name of every user about to be written to an inbound that will show it is harmless. Sanitised, it is blank, or
    the name of a user whom the inbound will show as well or who is switched off, or a name that needs trimming and whose
    trimmed form has an account.

  `Unsettled` has a case for each way to fail: a list element that is not an object, a protocol without a client list, a
  second user on a single-user inbound, and the name `a--b`, which the API accepts and sanitising turns into `ab`; the
  second pass makes an account `ab` or, if there is one, enrols it.
- In the first two of these cases every pass writes the missing user again (`Unsettled.NeverSettles`), and nothing else
  keeps a run from coming to rest. When sanitising changes no name more than d times in a row (0 for clean names), every
  pass from the (d + 3)rd on writes nothing exactly when no inbound was in that state at the start
  (`InTheEnd.IdleInTheEndExactly`), and then files and users are fixed after d + 3 passes and all tables after d + 4
  (`InTheEnd.RestInTheEnd`).
- A sync leaves a user the credential they have in an inbound exactly when the last client of the inbound that stands for
  them, if there is one, carries it (`Survival.SecretKeptExactly`). Over a run every credential of its inbound's protocol
  stays as long as no other identity stands for the user (`Survival.CredentialsSurvive`); otherwise user `ab` can get the
  credential of `a--b` (`Survival.MistakenExample`).
- A stored credential comes back unchanged from the files except a Shadowsocks one without a method
  (`Credentials.RoundTrip`), and a created VMess client agrees with its file entry except when the inbound's first client
  has a non-zero alterId (`Credentials.CreationAgreesWithTheFile`).
- A client newly added to several nodes is sure to have one credential everywhere, whatever the nodes answer, exactly
  when there is at most one node or every node has the client already, with one credential
  (`Fanout.AgreementForSure`; two accepting nodes suffice to disagree, `Fanout.TwoNodesDisagree`). Reconcile never
  repairs the difference (`Reconcile.CredentialStays`).
- The JSON and the link subscription select the same clients exactly when no emergency is effective or it affects none
  of the clients offered (`Selection.PathsExactly`). For a request whose tag filter names no position this means: every
  client that is not excluded, on the side asked for, of the protocol asked for and named by the filter has an
  emergency tag (`Selection.PathsDuringEmergency`). A filter by position can name another client once the emergency has
  taken one out (`Selection.PositionExample`).
- Evicting idle rate limiters changes no decision exactly when requests ask their limiter soon enough after fetching it
  for an idle one to fill up before it can be evicted (`RateLimitBound.EvictionInvisibleExactly`).

## Where code and documentation disagree

The model follows the code.

- `internal/xray/fanout.go:63-66` says the credential of a new client is the same on every node; each target generates
  its own. Lines 22-29 count "already exists" as success for adding; `AddClient` counts it as a failure.
- `docs/multi-node-design.md` section 6.4 describes a reconcile that adds and removes users; the code only adds.
- `internal/syncer/status.go:65-67` speaks of twelve buckets of five minutes; the ring holds up to 48 single timestamps.

## Model

| member | source | states |
|---|---|---|
| Routing.RouteConcat | internal/xray/generator.go:180-218 | First-match routing over two concatenated lists tries the second only where the first decides nothing |
| TextFacts.TrimIs | internal/api/server.go:1819-1832 | Trimming takes off exactly surrounding blanks, tabs, line and page breaks |
| TextFacts.LowerIs | internal/api/server.go:1819-1832 | Lower-casing replaces the 26 capitals by their small letters and nothing else |
| Mobile.StripGeoSelectors | internal/api/server.go:1819-1832 | The loop keeps exactly the selectors without a geo prefix, in order |
| Mobile.ApplyMobileRoutingProfile | internal/api/server.go:1797-1817 | The rewrite strips every rule and drops those left without a condition |
| Mobile.ProfilePreservesRouting | internal/api/server.go:1797-1817 | For every packet without geo matches the stripped list picks the same target, when no rule widens |
| Mobile.SafeExactlyWhenNotWidened | internal/api/server.go:1803-1813 | A rule means the same to all such packets if and only if it does not widen |
| Mobile.WideningExample | internal/api/server.go:1803-1813 | A rule and a packet that the rule catches only after stripping |
| Mobile.ProfileIdempotent | internal/api/server.go:1797-1817 | Applying the profile twice is applying it once |
| Mobile.ProfileConcat | internal/api/server.go:1797-1817 | The profile works rule by rule |
| Mobile.RuleInTheProfile | internal/api/server.go:1797-1832 | What is left of one rule: the rule with exactly the selectors taken out whose trimmed, lower-case text begins with "geosite:" or "geoip:", the others in order, and nothing when no condition is left |
| Mobile.NoGeoLeft | internal/api/server.go:1819-1832 | No rule of the profile has such a selector |
| Mobile.GeoTextExamples | internal/api/server.go:1819-1832 | Letter case and space do not hide a geo selector, and a text that only contains one is none |
| Generator.StableSortUnique | internal/xray/generator.go:647-661 | There is one stable sort by transport priority: XHTTP clients, then the rest |
| Generator.XHTTPFirstIsStableSort | internal/xray/generator.go:647-661 | That list is a stable sort |
| Generator.SplitKeepsAll | internal/xray/generator.go:647-661 | It is a permutation of the clients |
| Generator.SortClientsXHTTPFirst | internal/xray/generator.go:647-661 | The in-place insertion sort computes it |
| Generator.TagIndex | internal/xray/generator.go:253 | Equal outbound tags come from equal positions, whatever the inbound tags |
| Generator.TagEndsInDigit | internal/xray/generator.go:253-262 | A generated tag is none of the fixed tags |
| Generator.BuildOutbound | internal/xray/generator.go:247-303 | Which clients build, and the endpoint precedence node, per-inbound override, server |
| Generator.ClientConfig.ApplyUserRoutes | internal/xray/generator.go:180-218 | Usable stored rules go, trimmed and in order, before the rules already there |
| Generator.ClientConfig.EmitProxies | internal/xray/generator.go:56-93 | Exactly the clients that build give outbounds, tags sorted by transport |
| Generator.ClientConfig.AddBalancer | internal/xray/generator.go:122-145 | Selector, fallback and observatory; the selector is not empty and among the proxies, the fallback outside it when both kinds exist |
| Generator.ClientConfig.ResolveProxyRouteTargets | internal/xray/generator.go:229-245 | Every "proxy" target becomes the balancer or the single outbound, other rules stay; nothing without a target |
| Generator.GenerateClientConfig | internal/xray/generator.go:21-163 | Fails exactly when no client builds, and otherwise yields the specified configuration |
| GeneratorMeaning.StoredMeaning | internal/xray/generator.go:180-227 | Routing over the emitted stored rules is the choice of the first usable stored rule the packet satisfies |
| GeneratorMeaning.DefaultsMeaning | internal/xray/generator.go:734-760 | Routing over the built-in rules is the built-in decision chain |
| GeneratorMeaning.RoutingMeaning | internal/xray/generator.go:45-160 | For every packet: user rules, else global rules, else defaults, else the main target; routing is total |
| GeneratorClosure.OutboundTagsDistinct | internal/xray/generator.go:63-93 | All outbound tags, with direct and block, are pairwise distinct |
| GeneratorClosure.EveryRuleNamesOneTarget | internal/xray/generator.go:105-160 | Every emitted rule names exactly one of outbound and balancer and no placeholder remains |
| GeneratorClosure.ReferencesExistExactly | internal/xray/generator.go:180-227 | All rule targets exist if and only if usable stored direct and block targets are in lower case |
| GeneratorClosure.UpperCaseDirectDangles | internal/xray/generator.go:200-227 | A stored rule with another spelling leaves a dangling target |
| GeneratorClosure.XHTTPProxiesFirst | internal/xray/generator.go:56-93 | Whatever builds fail, the proxies are those of the XHTTP clients followed by those of the rest |
| GeneratorClosure.BalancerShape | internal/xray/generator.go:122-145 | The selector is never empty and selects proxies; the fallback is outside it exactly when both kinds exist |
| GeneratorClosure.MobileMeaning | internal/api/server.go:1797-1832 | The mobile variant of a generated config decides as intended and keeps the catch-all |
| GeneratorClosure.MobileOfDefaults | internal/api/server.go:1797-1832 | With no stored rules the mobile variant consists of exactly the bittorrent rule and the catch-all |
| GeneratorFate.XHTTPIs | internal/xray/generator.go:663-685 | A client counts as XHTTP if and only if its network, trimmed and in lower case, is xhttp or splithttp, or is blank and the tag in lower case contains xhttp |
| GeneratorFate.EndpointIs | internal/xray/generator.go:64-80 | An outbound goes to the first endpoint set of node, per-inbound override and common server, host and port each for itself |
| GeneratorFate.StrategyIs | internal/xray/generator.go:165-178 | The balancing strategy in Xray's spelling, least ping for anything unknown |
| GeneratorFate.GeneratedExactly | internal/xray/generator.go:63-99 | There is a configuration if and only if some client can be served |
| GeneratorFate.ProxyCount | internal/xray/generator.go:63-93 | One proxy for every client that can be served |
| GeneratorFate.MainWayIs | internal/xray/generator.go:100-145 | Where the main target leads: the only server, or balanced over those of the XHTTP clients with another kind to fall back to, or over all |
| GeneratorFate.FateMeaning | internal/xray/generator.go:21-163 | For every packet, looked up in the emitted outbounds: it leaves directly, is dropped, or goes through the server of a client that can be served, exactly as the request means it |
| GeneratorForms.ChosenRule | internal/xray/generator.go:180-218 | A stored list decides by its first rule with one of the three targets and some condition whose conditions the packet all meets |
| GeneratorForms.StoredRuleExample | internal/xray/generator.go:200-218 | A rule without a type and with space around its target, as it is emitted |
| GeneratorForms.FixedParts | internal/xray/generator.go:100-160 | The direct and block outbounds by protocol, and the catch-all over all ports at the end of the rules, to the balancer or the only proxy |
| GeneratorForms.Balancing | internal/xray/generator.go:122-145 | One balancer exactly for several proxies, and an observatory over the same proxies exactly for least ping and least load |
| GeneratorForms.ProbeURL | internal/xray/generator.go:142 | The configured probe address, trimmed, or the fixed one |
| GeneratorForms.ProbeInterval | internal/xray/generator.go:143 | The configured probe interval, trimmed, or thirty seconds |
| Killswitch.AlwaysExclusive | internal/api/fallback.go:96-121 | In every interleaving at most the lock holder is inside a critical section |
| Killswitch.ControlledExactly | internal/config/config.go:265-273 | A tag is under the killswitch if and only if there is an API address and it is not blank and the trim of a killswitch tag or, when none is set, of a fallback tag |
| Killswitch.KillSwitchTagsWin | internal/config/config.go:265-273 | With both lists set a disable takes down the killswitch tag and leaves the fallback tag running |
| Killswitch.PlanKeepsOrder | internal/api/fallback.go:189-205 | Tags are acted on in the order of the settings, blank ones passed over |
| Killswitch.CleanRun | internal/api/fallback.go:170-243 | What holds throughout and after a critical section without errors and restarts |
| Killswitch.OffMeansGone | internal/api/fallback.go:96-243 | With the mutex free, flag off means that no tag the settings put under the killswitch runs, after a section without error or restart |
| Killswitch.EnableSection | internal/api/fallback.go:96-106 | An enable without errors has brought up every tag before its position |
| Killswitch.OnMeansPresent | internal/api/fallback.go:96-243 | After a clean enable all controlled inbounds stay up until a restart or a switch-off |
| Killswitch.OthersUntouched | internal/api/fallback.go:189-243 | No step but a restart changes an inbound whose tag the settings do not put under the killswitch |
| Killswitch.OthersUntouchedOverRuns | internal/config/config.go:265-273 | Nor does any run without restarts |
| Killswitch.TickWithFlagOnIsIdle | internal/api/fallback.go:170-182 | A tick that finds the flag on changes nothing |
| Killswitch.TickRecovers | internal/api/fallback.go:170-243 | With the flag off, from any runtime, a tick without errors can finish and removes exactly the controlled tags |
| Killswitch.AppliedPointwise | internal/api/fallback.go:189-243 | A tag ends as wanted if a call for it took effect and stays as it was otherwise |
| Killswitch.SectionIsApplied | internal/api/fallback.go:189-243 | From inside a section, whoever else is scheduled in between, the steps compute what the loop computes |
| Killswitch.Server.ApplyKillSwitchInboundsLocked | internal/api/fallback.go:189-243 | The loop over trimmed, non-blank tags, nothing without an API address |
| Killswitch.Server.EnableFallback | internal/api/fallback.go:96-106 | Flag first, then the inbounds; nothing when the flag cannot be saved |
| Killswitch.Server.DisableFallback | internal/api/fallback.go:112-122 | Flag first, then the inbounds; nothing when the flag cannot be saved |
| Killswitch.Server.ReconcileKillSwitchLocked | internal/api/fallback.go:170-182 | Acts only when the flag can be read and is off |
| Fanout.FanoutAdmin.AddClient | internal/xray/fanout.go:67-94 | Every target is called once; the result is the credential installed on the first that accepted, none without targets |
| Fanout.FanoutAdmin.AddExistingClient | internal/xray/fanout.go:99-115 | Every target is called once; success exactly when one confirmed the identity |
| Fanout.FanoutAdmin.RemoveClient | internal/xray/fanout.go:121-136 | Every target is called once; success exactly when all confirmed absence |
| Fanout.CallsExactly | internal/xray/fanout.go:22-55 | What one call leaves on a node: an add never replaces a credential, a removal leaves the identity only when it failed without effect, and no other identity is touched |
| Fanout.NewClientAgreement | internal/xray/fanout.go:67-94 | With a credential generated per target, agreement holds exactly when at most one target took the client and, if one did, no node had it |
| Fanout.AgreementForSure | internal/xray/fanout.go:67-94 | Agreement whatever the nodes answer, if and only if there is at most one node or every node has the client already, with one credential |
| Fanout.TwoNodesDisagree | internal/xray/fanout.go:67-94 | Two nodes that accept a new client end up with different credentials |
| Fanout.StoredClientAgreement | internal/xray/fanout.go:99-115 | Handing out one stored credential keeps agreement, whatever the replies |
| Reconcile.ClientsToAdd | internal/api/nodes.go:333-345 | The wanted clients whose identity is missing, in order |
| Reconcile.PassAddsMissing | internal/api/nodes.go:296-345 | A pass sets out to add exactly the wanted clients whose identity the node does not have when asked |
| Reconcile.PassOnlyAddsWanted | internal/api/nodes.go:296-331 | In every run no step of a pass removes or replaces a client; what it adds belonged on the node, with that credential, in the tables when its snapshot was read |
| Reconcile.CompletePassCovers | internal/api/nodes.go:282-331 | An undisturbed pass leaves the whole snapshot on the node, and the next pass has nothing to add |
| Reconcile.RestartedNodeRecovers | internal/api/nodes.go:282-331 | A node found empty holds after an undisturbed pass exactly the identities of enabled users placed on it with an enabled credential for its inbound, in the tables the pass read, each with such a credential |
| Reconcile.SnapshotEntitles | internal/database/database.go:774-800 | A snapshot holds exactly the credentials that enabled users placed on the node have, enabled, for its inbound |
| Reconcile.FailuresAre | internal/api/nodes.go:314-330 | An add fails exactly when the answer is neither success nor "already there" |
| Reconcile.CredentialStays | internal/api/nodes.go:296-345 | A credential on a node stays as it is, right or wrong, until restart or removal |
| Reconcile.AfterTodoExtends | internal/api/nodes.go:314-330 | What a pass achieves under any truthful replies |
| Reconcile.RemoteNode.ReconcileOneNode | internal/api/nodes.go:296-331 | One pass as a loop: reported status and the new runtime |
| Placement.StartupNodes | internal/database/database.go:1037-1059 | Startup keeps ids, nodes, users and placements, and leaves enabled exactly what the configuration enables |
| Placement.StartupPlacement | internal/database/database.go:1067-1076 | Placed users stay where they are, unplaced users go to exactly the nodes whose last entry in the configuration enables them |
| Placement.StartupIdempotent | main.go:203-220 | A second startup with the same configuration changes nothing |
| Placement.StartupSound | internal/database/database.go:1037-1076 | Startup keeps ids unique and references intact |
| Placement.NodeIdsForever | internal/database/database.go:969-1161 | Over all runs no node disappears or changes its id and no placement dangles |
| Placement.PlacementsLast | internal/database/database.go:1067-1161 | Over all runs only an explicit operation on a user takes a placement away |
| Placement.SetNodesIs | internal/database/database.go:1139-1155 | A user ends up on exactly the given nodes when all of them and the user exist, and nothing changes otherwise; other users stay where they are |
| Placement.Store.UpsertNode | internal/database/database.go:969-989 | Insert with a new id or update in place keeping the id |
| Placement.Store.ReconcileNodes | internal/database/database.go:1037-1059 | The two loops of the reconcile |
| Placement.Store.BackfillUserNodesToEnabled | internal/database/database.go:1067-1076 | Every placed user keeps their nodes, every other gets exactly the enabled ones |
| Placement.Store.ReconcileAtStartup | main.go:203-220 | Reconcile, then backfill |
| Placement.Store.SetUserNodes | internal/database/database.go:1139-1155 | Replaces the placement by exactly the given nodes, or changes nothing on a dangling reference |
| Placement.ExpandClientsForNodes | internal/api/nodes.go:31-80 | Unchanged without nodes or placements or when a query fails, otherwise one copy per client and serving node |
| Placement.ExpansionIsTheJoin | internal/api/nodes.go:55-79 | The expansion is the tag join of clients with enabled placed nodes, every pair exactly once |
| Placement.EndpointsAreTheNodes | internal/xray/generator.go:64-80 | Every proxy outbound points at such a node where it sets an endpoint |
| Placement.EveryNodeHasItsOutbound | internal/xray/generator.go:64-80 | Every such node has an outbound for every client that builds |
| Credentials.ExtractClients | internal/xray/parser.go:173-327 | The clients read from an inbound, for every protocol and malformed list |
| CredentialForms.VMessEntries | internal/xray/parser.go:191-209 | Every VMess entry field by field, named by email or else ID |
| CredentialForms.VLESSEntries | internal/xray/parser.go:211-259 | Every VLESS entry field by field, with the public key configured for the trimmed tag when the inbound decrypts and one is, "none" otherwise |
| CredentialForms.TrojanEntries | internal/xray/parser.go:261-279 | Every Trojan entry field by field, named by email or else password |
| CredentialForms.ShadowsocksEntries | internal/xray/parser.go:281-312 | Every Shadowsocks entry field by field, method of the client, else of the inbound, else AES-256-GCM; without a list the single user |
| CredentialForms.SocksEntries | internal/xray/parser.go:314-327 | Every SOCKS account, named by its user |
| CredentialForms.NoEntries | internal/xray/parser.go:173-189 | Nothing is read for other protocols, without settings, or from a list with an element that is no object |
| CredentialForms.WrittenForms | internal/xray/configwriter.go:194-228 | The list element written for a stored credential, per protocol, nothing for others |
| CredentialForms.NewClientForms | internal/xray/configwriter.go:276-349 | A new client per protocol: what it takes from the inbound and its first client, and a generated key for methods of the 2022 family |
| CredentialForms.StoredForms | internal/xray/configwriter.go:351-399 | What creation stores for the client it built, per protocol |
| CredentialForms.SameSecret | internal/xray/configwriter.go:194-228 | Two stored credentials count as the same exactly when protocol and the fields written for it agree |
| Credentials.RoundTrip | internal/xray/configwriter.go:194-228 | Written and read back, a credential keeps identity and secret, except exactly Shadowsocks without a method |
| Credentials.FileCredentialsSurvive | internal/xray/parser.go:191-312 | A credential read from a file always survives writing and re-reading |
| Credentials.CreationAgreesWithTheFile | internal/xray/configwriter.go:276-399 | Creation stores what the file says, except exactly VMess with an inherited alterId |
| ConfigFile.AddClientToFile | internal/xray/configwriter.go:405-461 | Appends to the first inbound with the tag, or one of three errors |
| ConfigFile.FilterClients | internal/xray/configwriter.go:158-174 | Drops every client of the identity and reports whether there was one |
| ConfigFile.RemoveClientFromFile | internal/xray/configwriter.go:119-191 | Rewrites the file only when a client was dropped |
| ConfigFile.AddExactly | internal/xray/configwriter.go:405-461 | For every file and tag: which error, or the file with the client after those of the first object with this trimmed tag |
| ConfigFile.RemoveExactly | internal/xray/configwriter.go:119-191 | For every file and tag: which error, the file as it was, or exactly the clients of the identity gone from the first object with the tag, null for an empty list |
| ConfigFile.EditsOnlyTheClients | internal/xray/configwriter.go:405-461 | Both edits leave every other inbound and key as they were |
| ConfigFile.RemoveUndoesAdd | internal/xray/configwriter.go:119-191 | Removing after adding restores the client list if and only if the identity was absent |
| ConfigFile.RemoveIsComplete | internal/xray/configwriter.go:158-174 | After a removal the identity is gone and the other clients are there in order |
| Restore.AddInFlat | internal/xray/configwriter.go:230-274 | Lookup and edit over all files act like one list of inbounds |
| Restore.ConfigDir.FindInbound | internal/xray/configwriter.go:230-274 | The first file that holds the tag |
| Restore.ConfigDir.AddExistingClientToInbound | internal/xray/configwriter.go:72-89 | Rewrites one file or fails without a change, with the error of the first failing check |
| Restore.ConfigDir.GetExistingIdentitiesInInbound | internal/xray/restore.go:96-115 | The identities of the first readable inbound with the tag |
| Restore.ConfigDir.SyncDBToConfig | internal/xray/restore.go:60-93 | The loop over the users, its counters and its identity map |
| RestoreCases.AddExistingExactly | internal/xray/configwriter.go:72-89 | For every directory: blank name, unknown tag, credential without a form and inbound without settings are errors, in this order, and otherwise the form comes last in the first inbound with the tag |
| RestoreCases.ExistingExactly | internal/xray/restore.go:96-115 | The identities are the non-blank names of the clients read from the first object with the trimmed tag and a readable port |
| RestoreCases.FirstFailure | internal/xray/restore.go:60-93 | The error reported is that of the first write that failed |
| RestoreResults.SyncConserves | internal/xray/restore.go:60-93 | Added, failed and skipped sum up; every user not failed is in; each identity is added once; nothing is removed |
| RestoreResults.DistinctStaysDistinct | internal/xray/restore.go:60-93 | Distinct identities equal to the known ones stay so |
| RestoreResults.SyncHandlesAll | internal/xray/restore.go:60-93 | Afterwards every user is among the identities kept in memory or cannot be written |
| RestoreResults.OneMoreShown | internal/xray/parser.go:173-312 | What an inbound shows after one more client: besides the others, instead of its single user, or nothing new |
| RestoreResults.SyncSettles | internal/xray/restore.go:60-93 | A fresh reading finds every user who can be written if and only if a condition on the state before holds |
| RestoreResults.NothingToDo | internal/xray/restore.go:74-80 | Nothing is written if and only if every user is in or cannot be written |
| RestoreResults.AppendedIsRead | internal/xray/parser.go:191-312 | A client appended to a receptive inbound is read back after the ones there |
| Sync.ParseConfigFile | internal/xray/parser.go:101-148 | The inbounds of a file with a readable port, with their clients |
| SyncRows.ParsedExactly | internal/xray/parser.go:121-148 | Inbound by inbound: tag, protocol in lower case, port, text and clients, passing over what is no object and ports that cannot be read |
| SyncRows.RowOfInbound | internal/database/database.go:471-493 | The row of an inbound just synced has its protocol, port and text, and belongs to the file |
| SyncRows.ClientExactly | internal/syncer/syncer.go:275-300 | What one client does to the tables: who is created under which name, who is enrolled with which credential and flag, and that all else stays |
| Names.SanitizeIs | internal/syncer/syncer.go:302-313 | However a trimmed name is cut into pairs of hyphens, dropped characters and others, sanitising leaves the others, blanks and tabs as underscores, up to 64 characters |
| Names.Pieces | internal/syncer/syncer.go:302-313 | Every name can be cut that way |
| Names.PlainName | internal/syncer/syncer.go:302-313 | A trimmed name without pairs of hyphens and dropped characters keeps every character up to the 64th, but for underscores in place of blanks and tabs |
| Names.BlankExample | internal/syncer/syncer.go:275-313 | The client "john doe" gets the account "john_doe" |
| Names.ForbiddenExample | internal/syncer/syncer.go:302-313 | A quote, a semicolon and three hyphens in a row |
| Sync.Database.UpsertInbound | internal/database/database.go:471-493 | Insert, or update keeping the enrolments |
| Sync.Database.UpsertUserClient | internal/database/database.go:619-627 | Insert enabled, or update the credential keeping the flag |
| Sync.Database.SyncOneClient | internal/syncer/syncer.go:275-300 | Finds or creates the sanitised user and enrols it; blank or clashing names change nothing |
| Sync.Database.RemoveStale | internal/database/database.go:560-616 | Exactly the tags the file owns and no longer has are removed |
| Sync.Database.SyncFile | internal/syncer/syncer.go:186-220 | One file: stale inbounds out, present ones in, clients enrolled |
| Sync.Database.SyncFiles | internal/syncer/syncer.go:186-220 | All files in a given order |
| SyncResults.ProcessFileClosed | internal/syncer/syncer.go:186-220 | What one file does to the row of any tag and to the users |
| SyncResults.TidyUnlessOddSpace | internal/syncer/syncer.go:302-313 | Sanitising leaves nothing to trim unless the identity has vertical tabs or form feeds |
| SyncResults.OrderMattersExactly | internal/syncer/syncer.go:186-220 | All orders of the files lead to the same tables if and only if for every moved tag every old enrolment is enabled and listed in the new file |
| SyncResults.OrderDoesNotMatter | internal/syncer/syncer.go:186-220 | The tables after a sync do not depend on the order of the files, when no tag moved |
| SyncResults.MovedTag | internal/syncer/syncer.go:193-206 | For a moved tag: the old enrolments are lost exactly when the old file comes first |
| SyncResults.MovedTagOrder | internal/syncer/syncer.go:193-206 | Two orders agree on a moved tag if and only if every old enrolment is enabled and listed in the new file |
| SyncResults.MovedTagExample | internal/syncer/syncer.go:193-206 | Two files and two orders that leave different enrolments |
| SyncResults.SyncIsFramed | internal/database/database.go:471-627 | Files own exactly their tags, rows of others are untouched, flags and users are kept |
| Resync.SyncBringsUpToDate | internal/syncer/syncer.go:186-220 | After one sync every inbound, user and enrolment of the files is in the tables, and nothing stale is |
| Resync.ResyncKeeps | internal/syncer/syncer.go:186-220 | Syncing again creates and drops nothing, and a further sync changes nothing |
| Accounts.NobodyNewExactly | internal/syncer/syncer.go:275-300 | A sync, in any order, creates no account if and only if no client of the files would by itself |
| Accounts.OutcomeAlike | internal/syncer/syncer.go:186-300 | Whatever the clients are called, a sync leaves everybody who had an account with the enrolments that reading the one client list leaves, in any order |
| Accounts.SyncTwice | internal/syncer/syncer.go:186-300 | Whatever the clients are called, syncing twice is syncing once when that creates no account |
| Newcomers.SyncEnters | internal/syncer/syncer.go:275-300 | After a sync no client of an inbound would create an account, whoever has one is enrolled with a credential of the list, and nobody else is newly enrolled but under the trimmed name of a new account |
| TwoWay.Syncer.ParseConfigDir | internal/xray/parser.go:61-92 | All files of the directory, parsed, by name |
| TwoWay.Syncer.SyncOneInbound | internal/syncer/syncer.go:231-262 | One inbound: what is written, the failures, the first error and the totals |
| TwoWay.Syncer.SyncUsersToFiles | internal/syncer/syncer.go:222-264 | The loop over inbounds, its counts, its first error and its drift list |
| TwoWay.Syncer.SyncXray | internal/syncer/syncer.go:177-272 | A whole pass, with and without the write-back, and the health record it leaves; nothing at all when the directory cannot be read |
| TwoWayReports.ReportsExactly | internal/syncer/syncer.go:222-264 | What a write-back reports, told from the files before it: all listed users and all identities of the inbounds found counted, as drift exactly the users their inbound refuses, and an error exactly when there is drift or an inbound with users is not found |
| TwoWayReports.FineExactly | internal/syncer/syncer.go:222-272 | A pass is recorded as fine if and only if every inbound with active users is found and refuses none of them |
| TwoWayReports.FailedExactly | internal/xray/restore.go:60-93 | Reported as failed are exactly those not known whose first credentials cannot be written |
| TwoWayReports.AnswerExactly | internal/database/database.go:774-800 | The rows listed for an inbound are those of enabled users with an enabled enrolment, by email or else name, trimmed |
| TwoWayReports.MessageTells | internal/syncer/syncer.go:236-272 | The recorded message is blank exactly without an error and tells errors apart |
| TwoWay.CleanIsTrimmed | internal/syncer/syncer.go:302-313 | A name that sanitising leaves alone has nothing to trim |
| TwoWayResults.SyncBackEvolves | internal/syncer/syncer.go:222-264 | Writing back changes files only by appending written forms of enrolments |
| TwoWayResults.EvolvedIdentities | internal/xray/parser.go:173-327 | Such files show only identities they showed before and names of enrolled users |
| TwoWayResults.OrderlyParses | internal/xray/parser.go:61-148 | Distinct trimmed tags in the directory parse to files in which no tag occurs twice, each inbound from a readable one of the directory |
| TwoWayResults.CleanDirParses | internal/xray/parser.go:61-148 | A clean directory parses to files with distinct tags and clean identities |
| Settling.SyncBackSettles | internal/syncer/syncer.go:222-264 | After the write-back everybody listed for an inbound is in or cannot be written, if and only if a condition on the inbound before holds |
| Settling.SyncBackShows | internal/syncer/syncer.go:222-264 | What every inbound shows after the write-back: the missing names besides the others, instead of the single user, or no difference |
| Settling.SyncBackIdle | internal/syncer/syncer.go:222-264 | A write-back writes nothing if and only if that holds already |
| Passes.PassReflects | internal/syncer/syncer.go:177-272 | One pass over clean files leaves tables that reflect the files, including what was written: the files own their inbounds and every identity an inbound shows is enrolled |
| Passes.StaysReflected | internal/syncer/syncer.go:177-272 | Every further pass keeps that, whatever the users are called |
| Fixpoint.ShownAfterPass | internal/syncer/syncer.go:222-264 | What every inbound shows after the first pass, told from the tables and files before it |
| Fixpoint.IdleExactly | internal/syncer/syncer.go:177-300 | From there a pass writes no client and creates no account if and only if nobody is missing and no identity of the files makes an account or enrols somebody who is not shown |
| Fixpoint.SecondPassIdleExactly | internal/syncer/syncer.go:177-313 | The second of two passes writes no client and creates no account if and only if the tables and files before the first satisfy a condition on each inbound and one on each name to be written; it creates no account if and only if each of these names, sanitised, is blank or has an account, as it is or trimmed |
| Fixpoint.SecondPassOfCleanNames | internal/syncer/syncer.go:177-313 | Over names that sanitising leaves alone the condition on the inbounds decides alone |
| Fixpoint.QuietPass | internal/syncer/syncer.go:177-272 | From there a pass writes no client, creates no user, and a further sync changes no row |
| Fixpoint.SyncReachesAFixpoint | internal/syncer/syncer.go:177-300 | Under these conditions, over any run of passes, files and users are fixed after the first pass and all tables after the second |
| Fixpoint.ReceptiveExactly | internal/xray/parser.go:281-312 | An appended client shows up besides the others if and only if the inbound is receptive |
| Unsettled.NeverSettles | internal/syncer/syncer.go:222-264 | An inbound that does not show what is written gets a missing user written again by every pass |
| InTheEnd.IdleInTheEndExactly | internal/syncer/syncer.go:177-313 | Every pass from the (d + 3)rd on writes nothing if and only if no such inbound is missing anybody at the start, when no name takes more than d rounds of sanitising |
| InTheEnd.RestInTheEnd | internal/syncer/syncer.go:177-313 | In a run without such an inbound files and users are fixed after d + 3 passes, all tables after d + 4, and further syncs change nothing |
| InTheEnd.Quieten | internal/syncer/syncer.go:177-313 | When nobody is missing and every identity not yet dealt with is clean, a pass leads to a quiet state |
| InTheEnd.PassDescends | internal/syncer/syncer.go:177-313 | Each pass brings the names left to be dealt with one round of sanitising closer to clean |
| InTheEnd.DepthBound | internal/syncer/syncer.go:302-313 | A name takes at most as many rounds as it has characters, one more with blanks; a--b takes one |
| Unsettled.PassExists | internal/syncer/syncer.go:177-272 | From every state there is a pass |
| Unsettled.AlienElementExample | internal/xray/parser.go:191-312 | A client list with a non-object element: the second pass writes |
| Unsettled.OtherProtocolExample | internal/xray/parser.go:173-189 | A protocol without a client list: the second pass writes |
| Unsettled.SecondUserExample | internal/xray/parser.go:288-303 | A single-user Shadowsocks inbound with a second user: the second pass writes |
| Unsettled.NewAccountExample | internal/syncer/syncer.go:275-313 | User a--b: the second pass creates an account of another name |
| Unsettled.EnrolledByNameExample | internal/syncer/syncer.go:275-313 | Users a--b and ab: the second pass enrols ab where it was not and writes it |
| Survival.SecretKeptExactly | internal/syncer/syncer.go:275-300 | A sync leaves a user the credential they have in an inbound if and only if the last client that stands for them carries it |
| Survival.CredentialsSurvive | internal/xray/configwriter.go:194-228 | Over every pass of every run an enrolment keeps flag, ID, flow, alterId, password and method, when the credential is of its inbound's protocol (with a method for Shadowsocks) and no other identity shown stands for the user |
| Survival.CleanCredentialsSurvive | internal/xray/configwriter.go:194-228 | Over names that sanitising leaves alone that needs no condition on other identities |
| Survival.MistakenExample | internal/syncer/syncer.go:275-313 | Users ab and a--b: the second pass gives ab the credential of a--b |
| ErrorRing.PushKeepsAgreement | internal/syncer/status.go:75-93 | Pushing keeps the ring a sufficient part of the full history |
| ErrorRing.QueryCountsNewest | internal/syncer/status.go:95-103 | A query counts exactly the failures of the hour among the newest 48 ever recorded |
| ErrorRing.InOrderCount | internal/syncer/status.go:95-103 | For times in order that is the smaller of 48 and the number of failures in the hour |
| ErrorRing.Reported | internal/syncer/status.go:75-103 | What the ring tells is the number of failures within 60 minutes among the newest 48, and in order of time the smaller of 48 and all of them |
| ErrorRing.CountIs | internal/syncer/status.go:95-103 | The count is the number of entries after the cutoff |
| ErrorRing.Ring.Append | internal/syncer/status.go:76 | Appending to the slice, in place or in a larger copy |
| ErrorRing.Ring.ShiftTo | internal/syncer/status.go:86-88 | The in-place shift leaves exactly the suffix |
| ErrorRing.Ring.Push | internal/syncer/status.go:75-93 | Append, shift, cap |
| ErrorRing.Ring.CountSince | internal/syncer/status.go:95-103 | The number of entries after the cutoff |
| ErrorRing.StatusState.Record | internal/syncer/status.go:140-154 | Every failure, and only failures, enter the history; the rest of the record is replaced |
| ErrorRing.StatusState.TakeSnapshot | internal/syncer/status.go:120-138 | The reported count is the number of failures within 60 minutes among the newest 48, and in order of time the smaller of 48 and all of them |
| RateLimit.FullWithinTwoMinutes | internal/api/ratelimit.go:26-35 | Burst times interval is at most two minutes for every rate |
| RateLimit.LookupAgrees | internal/api/ratelimit.go:59-74 | Fetching a limiter keeps agreement with the map that never evicts |
| RateLimit.DecideAgrees | internal/api/ratelimit.go:76-82 | Both decide alike and stay in agreement |
| RateLimit.SweepAgrees | internal/api/ratelimit.go:42-55 | Evicting idle limiters keeps agreement |
| RateLimit.EvictionInvisible | internal/api/ratelimit.go:26-83 | Over every run in which requests ask in time eviction changes no decision |
| RateLimitBound.EvictionInvisibleExactly | internal/api/ratelimit.go:26-83 | That is so for all runs if and only if the time to ask is within a bound, or nothing is limited |
| RateLimit.AdmissionsArePaid | internal/api/ratelimit.go:26-83 | Admissions up to a time are covered by the level and the time that passes |
| RateLimit.WindowBound | internal/api/ratelimit.go:26-83 | When requests ask in time, in any window n admissions satisfy n times interval at most burst times interval plus the window |
| RateLimitService.NumbersAre | internal/api/ratelimit.go:26-35 | Burst and interval in numbers for every rate: 2 up to 17 a minute, 20 from 120 on, a sixth of the rate in between; the interval times the rate is a minute, rounded down |
| RateLimitService.SweepInNumbers | internal/api/ratelimit.go:47-51 | A limiter goes exactly when idle for more than ten minutes |
| RateLimitService.ServedByTheMeter | internal/api/ratelimit.go:59-82 | For any times of requests the bucket admits what a meter with one unit per interval and room for the burst admits |
| RateLimitService.BurstThenOneEach | internal/api/ratelimit.go:26-82 | Of simultaneous requests from a new address exactly the first max(2, min(20, rate / 6)) are admitted, and then exactly one after each further interval |
| RateLimitService.ThreeAtOnce | internal/api/ratelimit.go:26-82 | Three simultaneous first requests are all admitted at 60 a minute, and two of them at 6 |
| RateLimit.Middleware.Lookup | internal/api/ratelimit.go:63-74 | The part of a request under the mutex |
| RateLimit.Middleware.Decide | internal/api/ratelimit.go:76-82 | The part after it, on the limiter that was fetched |
| RateLimit.Middleware.Sweep | internal/api/ratelimit.go:42-55 | The cleanup pass deletes exactly the limiters idle for more than ten minutes |
| Selection.FilterExcludedInbounds | internal/api/sub_links.go:155-170 | Drops exactly the excluded tags |
| Selection.SplitFallback | internal/api/server.go:308-324 | Whitelist on the fallback side, blacklist on the primary side, nothing without fallback tags |
| Selection.RestrictToEmergency | internal/api/server.go:328-345 | The emergency tags, unless that leaves nothing |
| Selection.ApplySubscriptionFilters | internal/api/sub_links.go:172-197 | Protocol filter, imposed or asked for, then the tag filter by position |
| Selection.FilterForJSON | internal/api/server.go:347-368 | The filters of the JSON path, by its own loops |
| Selection.SelectForJSON | internal/api/server.go:301-368 | The stages of the JSON path, with its own loop for the split |
| Selection.SelectForLinks | internal/api/sub_links.go:323-347 | The stages of the link path, without the emergency restriction |
| Selection.SplitIsAPartition | internal/api/server.go:308-324 | The two sides share no tag and merge in order to the clients that are not excluded |
| Selection.AnswersStayOnTheirSide | internal/api/server.go:301-368 | The emergency never empties a selection, and no excluded or wrong-side tag enters an answer |
| Selection.ByTagMembers | internal/api/sub_links.go:219-234 | A client passes the tag filter by its tag, its sanitised tag, or that with its position |
| SelectionAnswers.AnswersExactly | internal/api/sub_links.go:323-347 | Both kinds of answer from the request alone: exclusion, side, emergency, protocol imposed or else asked for in path or else query, and the tag filter by tag, hyphenated tag, or that with the place |
| SelectionAnswers.TagExample | internal/xray/generator.go:762-768 | The outbound tag of a client at place 12 with a blank, a slash and a backslash in its inbound tag |
| Selection.PathsAgree | internal/api/sub_links.go:323-347 | Without an effective emergency and imposed protocol both paths select the same clients |
| Selection.PathsExactly | internal/api/server.go:328-345 | For any request both paths agree if and only if no emergency is effective or it affects none of the clients offered |
| Selection.PathsDuringEmergency | internal/api/server.go:328-345 | Without a filter by position: if and only if every client of the request's side, protocol and tag has an emergency tag |
| Selection.EmergencyExample | internal/api/sub_links.go:323-347 | A request without filters on which the paths differ |
| Selection.PositionExample | internal/api/sub_links.go:219-234 | A filter by position on which they differ although every client of the link answer has an emergency tag |
| Selection.ImposedProtocol | internal/api/sub_links.go:172-186 | An imposed protocol acts like one asked for in the path |

## Left out

- HTTP routing, authentication, JSON text, headers, metrics, logging and warnings: no property beyond plumbing.
- gRPC dialling, TLS, the SQLite driver, file watching and timers: their outcomes are parameters or steps.
- Write errors of the file system: an edit that is well-formed succeeds; a failed write changes nothing by the rename.
- `AddInboundFromJSON` and `RemoveInbound` of the fan-out: the same two loops again, over inbounds instead of clients.
- Generator.BuildOutbound: settings, stream settings and mux are not part of the modelled outbound; whether they can be
  built is an input.
- Generator.GenerateClientConfig: log level, DNS and the local inbounds are not part of the modelled result.
- TwoWay.Syncer.SyncXray: the wording of the error in the health record is abbreviated.
- Per-protocol settings builders, stream settings, share links and key derivation: a client either builds or does not.
- Local SOCKS and HTTP inbounds, DNS and the blackhole response of a generated config: copied from the configuration.
- Xray's own matching: a packet says which selectors it satisfies, and balancer selectors are exact tags.
- RateLimit.EvictionInvisible: a token bucket is an integer credit in nanoseconds, not a floating-point count.
- RateLimit.WindowBound: for requests that ask in time; beyond the bound an evicted limiter can be asked.
- ErrorRing.StatusState.TakeSnapshot: the comparison with the history is for a clock that has not gone back behind a
  recorded failure.
- Killswitch.OnMeansPresent: speaks of inbounds that have a row in the inbounds table, as others are never added.
- Restore.ConfigDir.GetExistingIdentitiesInInbound: with one tag in several files the code reads an arbitrary one of
  them; the model reads the first. The fixpoint results assume distinct tags.
- Fixpoint.SyncReachesAFixpoint: for files with distinct tags without surrounding white space and with identities that
  sanitising leaves alone, and users whose email is their name, as the API and the sync create them.
- Null elements of client lists and values of an unexpected JSON type inside objects: an element is an object with
  readable fields, or not an object.
- Text beyond ASCII: trimming, lower-casing and the cut after 64 bytes treat one character as one byte.
- Row numbers: tables are keyed by their unique names, except nodes, whose ids are the point; the counter for new node
  ids moves only when a node is inserted.
- The order of the users of an inbound, and of nodes in a listing: results hold for any order.
- Creating the fallback inbound row (`api-managed`) at the start of a sync, and the startup restore over gRPC.
- The positional form of the tag filter against generated tags: its position is taken before the sort by transport.
- Route, emergency-profile and pagination handlers and configuration validation: only easy members.
