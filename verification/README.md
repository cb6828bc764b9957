# Verified model of a DSpace installation with metadata based access control

This project models the parts of the repository whose correctness is hardest to
see from one function at a time, and proves what they promise. The project is
written for Dafny 4.11; `dafny verify dfyconfig.toml` checks all of it.

The model keeps the form of the code. Objects whose methods change their fields
are classes with those fields; loops are loops, proved against functions and
predicates about which the properties are then proved as lemmas; tables are
sequences, sets or maps. What the code leaves to the hash tables, the database
or the server (iteration orders, which of several rows a query returns, when the
index is committed) is left open in the model, so that the properties hold for
every choice.

## The parts

**Groups** (`GroupGraph`, `GroupTables`, `GroupRuns`, `GroupCache`,
`Membership`). The `group2group` table is a graph, and `rethinkGroupCache`
writes its transitive closure into a cache by a loop that widens the very map it
is still walking. For every acyclic table and every iteration order the result
is exactly the closure. `GroupRuns` follows the tables over all sequences of
updates and deletions. `Membership` compares the questions answered by one
lookup in the cache with those answered by recursion over the graph.

**Access decisions and the search filter** (`Authorize`, `SearchFilter`,
`SearchSoundness`, `PolicyLists`, `PolicyRuns`, `PolicyIndex`). `authorize` and
`isAdmin` as they stand, with the metadata policies of groups; the tokens and
fields written into the index; the boolean filter added to every search; and
exactly when the filter, asked of the policies in force, shows no more, and no
less, than `authorize` grants, for the configuration as loaded and after every
run of indexings, which add to it.

**The discovery index** (`SolrIndex`, `SolrExact`, `SolrRuns`, `SolrIndexer`,
`Strings`, `Splitting`, `FacetCodec`, `FacetRoundTrip`, `FacetExact`). Documents
by their unique id, as queries see them and as they have been written;
incremental against forced updates over all histories; and the facet strings
with their three decoders.

**Programs carried by the REST documentation pages** (`Highlight`,
`HighlightOrder`, `HighlightMerge`, `HighlightReading`, `HighlightDom`,
`HighlightPlacement`; the `Handlebars` modules; `Marked`, `MarkedLexer`,
`MarkedParser`). The stream merge of highlight.js from two DOM trees to one
piece of markup; both passes of the Handlebars compiler from the syntax tree to
the generated source and the table of programs; the block lexer and the parser
of marked from text to HTML.

**Smaller state machines and codecs** (`EmbargoPolicies`, `Checker`,
`SwordUrls`, `Decimal`, `AcceptHeader`).

**Laws.** The modules whose names end in `Laws` stand beside each of these. The
theorems of the others are about an access decision, a compiled template, a
lexed text or a ranked header as functions and predicates define them; the laws
say what those definitions come to in terms of the rows, fields, texts and
options alone: which row grants, which rule is first, which result a checksum
gets, in which bucket a part is; a
definition with a case dropped, or two of them exchanged, would not meet them.

## Where the code and its promise part

Each of these is a lemma with a concrete case, a condition that says exactly
when the promise holds, or both.

- `addMember` refuses only the group itself, so two calls can close a cycle, on
  which `getChildren` does not return (`SelfCheckAllowsCycle`,
  `AcyclicAfterAdding`, `ReturnsIffAcyclic`).
- `delete` does not rebuild the cache; it stays exact only where the deleted
  group was bridged (`DeleteExactness`, `StaleCacheOvercounts`).
- The index ignores the dates of policies: an item whose policies are not in
  force is shown to whom they name, and granted to nobody (`OutOfForceShown`).
  All other results about the filter are about what it shows by policies that
  are in force, which is all it shows where every policy is (`GrantedIff`,
  `WrittenAdmitsMore`).
- `isAuthorized` asks for all policies of a group, the search filter for any of
  them (`FilterSoundIff`, `TwoPoliciesUnsound`), and its sentinel can be met by
  an item that carries it (`SentinelUnsound`). Visitors are asked for no
  policies at all (`VisitorFilterSoundIff`, `VisitorUnsound`).
- The index plugin adds the policies of the subgroups to the configured list it
  was given, so that indexing narrows later decisions (`GrownIsSameIff`,
  `IndexingNarrows`). The filter is sound for the configuration as it is shipped
  and loaded, which has one policy for each group (`OnePolicyPerGroupIsSound`),
  but it need not stay so: once an item that a group may read has been indexed,
  a configured subgroup makes that group one with two policies
  (`IndexingBreaksSoundness`). It stays sound whatever is indexed exactly under
  the condition of `SoundAfterEveryRunIff`, and in particular where no
  configured group stands above another (`FlatStaysSound`).
- The index plugin fails on a READ policy that names a person
  (`PolicyIndex.AdditionalIndex`).
- The comment on `createIndex` says it wipes the old index; it does not, and it
  leaves just the right documents exactly if there are no strays
  (`CreateIndexIsExactIff`, `StrayStays`). A change in the millisecond of the
  last indexing is not picked up (`EqualStampIsMissed`, `UpdateIsRightIff`).
- A facet value comes back exactly if no separator lies in or across the strings
  (`RoundTripIff`, `PlainRoundTripIff`); one that holds the separator comes back
  without it (`EncodedIff`, `PlainIff`, `SeparatorsAreLost`).
- highlight.js counts the newlines it strips from the text, so that elements no
  longer enclose their own letters (`StrippedNewlineShifts`); `MergeMarkup` says
  exactly when.
- A Handlebars block on a data path compiles in the first pass and throws in the
  second (`CompilesExactly`, `NamelessBlockThrows`). The parser produces none: it
  already rejects such a block because the opening tag has no original text to
  compare with the closing one. One reaches the compiler only in a syntax tree
  passed to `compile` instead of a text.
- The table of Handlebars programs takes two for equal although only one of them
  is simple. That makes no difference to the text, and none at all unless a
  value is written unescaped: then the function of the simple one returns the
  value as it is, and that of the other as text, so that a comment decides which
  of them a helper gets (`SharingIsExactIff`, `TextSame`, `ValueTellsApart`,
  `CommentSharesProgram`).
- highlight.js does not escape quotes in attribute values; the merged string
  reads as the merged markup exactly if there are none (`NestedReadBackIff`,
  `QuoteSwallows`).
- An embargo on a collection or community creates policies of an item
  (`CollectionEmbargoMissed`).
- `getCollection` compares the length of the base URL only
  (`CollectionHandleIff`, `OwnLocationIff`).
- The quality of an Accept part with parameters is read from the parameters
  (`QualityWithParamsIff`), a quality above one turns the order of the parts
  without one around (`UnqualifiedOrder`), and a quality of zero ranks a refused
  type with the most wanted one (`ZeroQuality`).

## Assumptions the theorems name

- Acyclic group graphs where a rebuild or a recursive search has to end.
- Handles that are not shared and not used again, and changes stamped later than
  anything indexed before, where the index is to be current
  (`SolrRuns.Allowed`).
- Matchers of the Markdown grammar that take a non-empty prefix, and text to be
  lexed again that is shorter than the match it comes from
  (`MarkedLexer.Progress`); the regular expressions of the grammar do both.
- DOM trees in which no element occurs twice.
- Policies in force, where the filter is to show only what is granted
  (`SearchSoundness.IndexedInForce`): the index itself knows no dates.
- One party to each READ policy, a group or a person, where the filter is to show
  all that is granted (`SearchSoundness.OnePartyEach`).
- A transitive group cache where lists grow: the cache is transitive at every
  moment of every run of group updates and deletions (`RunKeepsSound`).

## Model

| member | source | states |
|---|---|---|
| GroupGraph.ClosureIsLeast | dspace/modules/additions/src/main/java/org/dspace/eperson/Group.java:1373-1402 | the closure the cache is to hold is the least transitive relation with all the rows in it |
| GroupGraph.DescendantsShrink | dspace/modules/additions/src/main/java/org/dspace/eperson/Group.java:1415-1443 | in an acyclic graph every step down leaves strictly fewer groups below: why `getChildren` ends |
| GroupGraph.AcyclicAfterAdding | dspace/modules/additions/src/main/java/org/dspace/eperson/Group.java:270-284 | an added subgroup keeps the graph acyclic if and only if it is not the group itself and does not already lie above it |
| GroupGraph.SelfCheckAllowsCycle | dspace/modules/additions/src/main/java/org/dspace/eperson/Group.java:274-279 | the check `addMember` makes lets two calls close a cycle |
| GroupGraph.ClosureWithout | dspace/modules/additions/src/main/java/org/dspace/eperson/Group.java:1117-1125 | dropping the rows of a deleted group from a closure gives the closure of what is left if and only if its parents still reach its children without it |
| GroupTables.DeleteEither | dspace/modules/additions/src/main/java/org/dspace/eperson/Group.java:1117-1125 | exactly the rows that name the group on neither side are kept, and no duplicates arise |
| GroupTables.WriteThenRead | dspace/modules/additions/src/main/java/org/dspace/eperson/Group.java:1209-1273 | what `update` writes for a group is what `loadData` reads back, in order, and every other group reads what it read before |
| GroupRuns.StepKeepsSound | dspace/modules/additions/src/main/java/org/dspace/eperson/Group.java:1209-1273 | every operation keeps the cache transitive and no smaller than the closure |
| GroupRuns.RunKeepsSound | dspace/modules/additions/src/main/java/org/dspace/eperson/Group.java:1100-1141 | over every run: the cache is transitive and holds the closure; it is exactly the closure after a subgroup update, and free of the deleted id after a deletion |
| GroupRuns.DeletedStaysGone | dspace/modules/additions/src/main/java/org/dspace/eperson/Group.java:1117-1125 | a deleted group stays out of both tables until some update names it again |
| GroupRuns.DeleteExactness | dspace/modules/additions/src/main/java/org/dspace/eperson/Group.java:1117-1125 | from an exact cache, deletion leaves it exact if and only if the group was bridged |
| GroupRuns.DeleteLeavesStaleRow | dspace/modules/additions/src/main/java/org/dspace/eperson/Group.java:1117-1125 | a concrete deletion after which the cache grants what the graph does not |
| GroupRuns.StepAcyclic | dspace/modules/additions/src/main/java/org/dspace/eperson/Group.java:1209-1273 | an update keeps the graph acyclic if and only if none of the new subgroups is, or lies above, the group; a deletion always does |
| GroupCache.Group.LoadData | dspace/modules/additions/src/main/java/org/dspace/eperson/Group.java:93-140 | loads both member lists once, in row order, and leaves the change flags |
| GroupCache.Group.AddEPerson | dspace/modules/additions/src/main/java/org/dspace/eperson/Group.java:250-264 | the list grows by the person unless already there, and the flag is set exactly then |
| GroupCache.Group.AddGroup | dspace/modules/additions/src/main/java/org/dspace/eperson/Group.java:270-285 | the list grows by the group unless it is there already or is the group itself |
| GroupCache.Group.RemoveEPerson | dspace/modules/additions/src/main/java/org/dspace/eperson/Group.java:293-303 | the first occurrence goes, and the flag is set exactly when there was one |
| GroupCache.Group.RemoveGroup | dspace/modules/additions/src/main/java/org/dspace/eperson/Group.java:309-319 | the first occurrence goes, and the flag is set exactly when there was one |
| GroupCache.Group.GetChildren | dspace/modules/additions/src/main/java/org/dspace/eperson/Group.java:1415-1443 | on a map already partly widened by the loop that calls it: exactly the descendants in the graph |
| GroupCache.ReturnsIffAcyclic | dspace/modules/additions/src/main/java/org/dspace/eperson/Group.java:1415-1443 | at whatever point of a rebuild, `getChildren` returns for every group if and only if the graph has no cycle |
| GroupCache.Group.RethinkGroupCache | dspace/modules/additions/src/main/java/org/dspace/eperson/Group.java:1329-1403 | for every acyclic table and any iteration order of the hash map it ends, and writes exactly the transitive closure, each pair once |
| GroupCache.Group.ReadParents | dspace/modules/additions/src/main/java/org/dspace/eperson/Group.java:1335-1362 | the map holds every row and nothing outside the closure |
| GroupCache.Group.WriteCache | dspace/modules/additions/src/main/java/org/dspace/eperson/Group.java:1384-1402 | each pair of the map once, and nothing else |
| GroupCache.Group.Update | dspace/modules/additions/src/main/java/org/dspace/eperson/Group.java:1209-1273 | rows, cache and flags afterwards; the tables take the step of the state machine |
| GroupCache.Group.Delete | dspace/modules/additions/src/main/java/org/dspace/eperson/Group.java:1100-1141 | rows afterwards; the tables take the deletion step, with the cache not rebuilt |
| GroupLaws.RemoveFirstIs | dspace/modules/additions/src/main/java/org/dspace/eperson/Group.java:293-319 | the first occurrence goes from a list, and nothing else |
| GroupLaws.RowsAfterUpdate | dspace/modules/additions/src/main/java/org/dspace/eperson/Group.java:1209-1273 | row by row: the group's rows are those of its list, and all others are as they were |
| GroupLaws.DeletionInOrder | dspace/modules/additions/src/main/java/org/dspace/eperson/Group.java:1117-1125 | the rows that stay when a group is deleted stay in their order |
| GroupLaws.StepIs | dspace/modules/additions/src/main/java/org/dspace/eperson/Group.java:1100-1273 | each operation on the two tables, row by row: an update with new subgroups puts what is reachable into the cache, and a deletion takes out of both what names the group |
| Membership.AllMemberGroupIDs | dspace/modules/additions/src/main/java/org/dspace/eperson/Group.java:478-583 | exactly the direct, special and anonymous groups and those one cache row above them |
| Membership.IsMember | dspace/modules/additions/src/main/java/org/dspace/eperson/Group.java:389-406 | the anonymous group always, and otherwise exactly the groups `allMemberGroupIDs` finds |
| Membership.AllMemberIDs | dspace/modules/additions/src/main/java/org/dspace/eperson/Group.java:626-720 | exactly the people with a row in the group or in one of its cached subgroups |
| Membership.IsInGroup | dspace/modules/swordv2/src/main/java/org/dspace/sword2/SwordAuthenticator.java:391-419 | the recursive search ends on every acyclic graph and finds a person exactly if some group at or below holds that person |
| Membership.IsEmpty | dspace/modules/additions/src/main/java/org/dspace/eperson/Group.java:1182-1204 | true exactly if no group at or below holds anybody |
| Membership.SearchesAgreeIffExact | dspace/modules/swordv2/src/main/java/org/dspace/sword2/SwordAuthenticator.java:391-419 | cached query and recursive search agree on every table of members if and only if the cache is the closure between distinct groups |
| Membership.ClosureAgrees | dspace/modules/additions/src/main/java/org/dspace/eperson/Group.java:626-720 | so they agree after every rebuild |
| Membership.GroupIDsClosed | dspace/modules/additions/src/main/java/org/dspace/eperson/Group.java:478-583 | one hop through a rebuilt cache is the full way up: a group is found if and only if it holds the user or is, or reaches, group 0 or an applicable special group |
| Membership.StaleCacheOvercounts | dspace/modules/additions/src/main/java/org/dspace/eperson/Group.java:1117-1125 | a stale cache makes a member of a group no longer below it |
| MembershipLaws.DirectIff | dspace/modules/additions/src/main/java/org/dspace/eperson/Group.java:478-583 | a user is in a group outright by a row, or because everyone is in group 0, or by a special group of the session if it is the user's own or nobody is logged in |
| MembershipLaws.GroupIDsIff | dspace/modules/additions/src/main/java/org/dspace/eperson/Group.java:478-583 | the groups found are those and the ones a cache row puts above them, one step and no more |
| MembershipLaws.OwnSpecialGroupsOnly | dspace/modules/additions/src/main/java/org/dspace/eperson/Group.java:478-583 | another person gets nothing from the special groups of a session |
| MembershipLaws.MemberIDsIff | dspace/modules/additions/src/main/java/org/dspace/eperson/Group.java:626-720 | a person is found exactly by a row in the group or in a group the cache puts below it |
| Authorize.PolicyIsAuthorized | dspace/modules/additions/src/main/java/com/atmire/access/model/ExactMatchPolicy.java:64-93 | true exactly if a value of the item equals one extracted from the user |
| Authorize.MetadataIsAuthorized | dspace/modules/additions/src/main/java/com/atmire/access/service/MetadataBasedAuthorizationServiceBean.java:25-59 | true exactly if all policies of the group accept the item, or the item of the bitstream |
| Authorize.IsAdmin | dspace/modules/additions/src/main/java/org/dspace/authorize/AuthorizeManager.java:390-439 | true exactly for system administrators and those named, in force, on the object or on anything above it |
| Authorize.FamilySearch | dspace/modules/additions/src/main/java/org/dspace/authorize/AuthorizeManager.java:315-334 | true exactly if some group of the family takes the user in directly and its metadata policies accept the object |
| Authorize.PolicyGrants | dspace/modules/additions/src/main/java/org/dspace/authorize/AuthorizeManager.java:299-341 | one policy: custom rule, dates, person, membership, and for items and bitstreams the family |
| Authorize.PolicyLoop | dspace/modules/additions/src/main/java/org/dspace/authorize/AuthorizeManager.java:299-344 | true exactly if some policy for the action grants |
| Authorize.AuthorizeAction | dspace/modules/additions/src/main/java/org/dspace/authorize/AuthorizeManager.java:247-345 | the whole decision: authorization off, administrator, or a granting policy |
| Authorize.InGroupIffFamily | dspace/modules/additions/src/main/java/org/dspace/authorize/AuthorizeManager.java:310-321 | membership through the cache is direct or special membership somewhere in the family |
| Authorize.SearchDecidesAsMembership | dspace/modules/additions/src/main/java/org/dspace/authorize/AuthorizeManager.java:310-338 | when the metadata policies accept the object for every group, the item branch decides as plain membership, for all cache tables, special groups and visitors |
| Authorize.ItemDecidedAsContainer | dspace/modules/additions/src/main/java/org/dspace/authorize/AuthorizeManager.java:310-338 | so an item or bitstream without metadata policies is decided as a container with the same policies |
| AuthorizeLaws.CheckedBy | dspace/modules/additions/src/main/java/com/atmire/access/service/MetadataBasedAuthorizationServiceBean.java:26-59 | for every group, user and table: an item is checked by its own values, a bitstream by those of its item, and a bitstream without one, a bundle and a container by none |
| AuthorizeLaws.BitstreamCheckedAsItem | dspace/modules/additions/src/main/java/com/atmire/access/service/MetadataBasedAuthorizationServiceBean.java:26-40 | the check of a bitstream is that of its item |
| AuthorizeLaws.ItemGrantedIff | dspace/modules/additions/src/main/java/org/dspace/authorize/AuthorizeManager.java:299-344 | an item is granted exactly by a policy in force, not custom unless it is archived, that names the user or a group whose family has one taking the user in with all of its metadata policies met on the item |
| AuthorizeLaws.BitstreamGrantedIff | dspace/modules/additions/src/main/java/org/dspace/authorize/AuthorizeManager.java:299-344 | a bitstream is granted exactly so by the values of its item, custom policies counting for logos and installed items |
| AuthorizeLaws.OtherGrantedIff | dspace/modules/additions/src/main/java/org/dspace/authorize/AuthorizeManager.java:299-344 | a bitstream without an item, a bundle and a container are granted with no such condition |
| AuthorizeLaws.AdminAboveIs | dspace/modules/additions/src/main/java/org/dspace/authorize/AuthorizeManager.java:390-439 | administrators are those an ADMIN policy in force names, on the object or on anything above it |
| AuthorizeLaws.AuthorizedIff | dspace/modules/additions/src/main/java/org/dspace/authorize/AuthorizeManager.java:247-345 | the decision is yes exactly if authorization is off, the user administers the system, the object or something above it, or a policy grants |
| SearchFilter.TokensDistinct | dspace/modules/additions/src/main/java/org/dspace/discovery/SolrServiceResourceRestrictionPlugin.java:49-60 | different groups and people never share a token |
| SearchFilter.AdditionalIndex | dspace/modules/additions/src/main/java/org/dspace/discovery/SolrServiceResourceRestrictionPlugin.java:46-64 | the document has exactly the tokens of the READ policies |
| SearchFilter.SolrQueryCriteria | dspace/modules/additions/src/main/java/com/atmire/access/model/ExactMatchPolicy.java:142-168 | asks exactly for the extracted values that are not blank, or for the sentinel |
| SearchFilter.RetrievePoliciesForGroupAndMembers | dspace/modules/additions/src/main/java/org/dspace/discovery/SolrServiceResourceRestrictionPlugin.java:131-149 | exactly the policies of the groups of the family that take the user in |
| SearchFilter.GroupClauses | dspace/modules/additions/src/main/java/org/dspace/discovery/SolrServiceResourceRestrictionPlugin.java:95-115 | a document passes the clauses of a group exactly if it has the token and meets one of the policies, if there are any |
| SearchFilter.AdditionalSearchParameters | dspace/modules/additions/src/main/java/org/dspace/discovery/SolrServiceResourceRestrictionPlugin.java:67-129 | no filter for system administrators; for all others a document passes exactly by the anonymous token, the own token, or some group, in any iteration order |
| SearchLaws.WhitespaceIff | dspace/modules/additions/src/main/java/com/atmire/access/model/ExactMatchPolicy.java:152-156 | what counts as blank: the Unicode separators that may be broken at, and nine control characters |
| SearchLaws.AdmitsIff | dspace/modules/additions/src/main/java/org/dspace/discovery/SolrServiceResourceRestrictionPlugin.java:95-115 | a query finds a document exactly by a clause whose token it has and one of whose values stands in the named field |
| SearchLaws.ShownIff | dspace/modules/additions/src/main/java/org/dspace/discovery/SolrServiceResourceRestrictionPlugin.java:67-129 | an indexed item is shown exactly for a READ policy that names group 0, or no group but the user, or a group whose family takes the user in and, if policies are configured for those that do, one of them is offered a value |
| SearchLaws.UnfilteredIff | dspace/modules/additions/src/main/java/org/dspace/discovery/SolrServiceResourceRestrictionPlugin.java:69 | unfiltered are exactly system administrators and code that runs with authorization off |
| SearchLaws.TokensSpelled | dspace/modules/additions/src/main/java/org/dspace/discovery/SolrServiceResourceRestrictionPlugin.java:53-56 | the tokens of group 17 and person 3 as they are written |
| SearchSoundness.FilterSoundIff | dspace/modules/additions/src/main/java/org/dspace/discovery/SolrServiceResourceRestrictionPlugin.java:67-149 | for a logged-in user everything the filter shows by a policy in force is something `authorize` grants READ on if and only if, in every family, one value the filter accepts is enough for all policies of some group of it |
| SearchSoundness.OutOfForceShown | dspace/modules/additions/src/main/java/org/dspace/authorize/AuthorizeManager.java:711-716 | the tokens written ignore dates: an item whose one READ policy is for Anonymous and not in force is shown to everybody and granted to nobody, under every configuration |
| SearchSoundness.GrantedIff | dspace/modules/additions/src/main/java/org/dspace/authorize/AuthorizeManager.java:299-341 | from a safe configuration, whatever policies of the item are out of force: it is granted if and only if the filter would still show it by those in force, or a group grants it through nothing but blank values |
| SearchSoundness.WrittenAdmitsMore | dspace/modules/additions/src/main/java/org/dspace/discovery/SolrServiceResourceRestrictionPlugin.java:46-64 | the document written lets through at least what one of the policies in force would, and just that if all are in force |
| SearchSoundness.SafeImpliesSound | dspace/modules/additions/src/main/java/org/dspace/authorize/AuthorizeManager.java:299-341 | the direction used, for every item: admission by the policies in force implies the grant |
| SearchSoundness.OnePolicyPerGroupIsSound | dspace/config/metadata-based-access-control.xml:1-21 | with at most one policy for each group and none for Anonymous, as the configuration is when it has just been loaded, the filter is sound in that sense for every user and graph on items without the sentinel |
| SearchSoundness.TwoPoliciesUnsound | dspace/modules/additions/src/main/java/org/dspace/discovery/SolrServiceResourceRestrictionPlugin.java:97-109 | with two policies in one group the filter asks for either where `authorize` asks for both |
| SearchSoundness.SentinelUnsound | dspace/modules/additions/src/main/java/com/atmire/access/model/ExactMatchPolicy.java:161-163 | an item that carries the sentinel is shown to users without the field |
| SearchSoundness.VisitorFilterSoundIff | dspace/modules/additions/src/main/java/org/dspace/discovery/SolrServiceResourceRestrictionPlugin.java:131-149 | for visitors it is sound in that sense if and only if every group they are in has a way in without policies |
| SearchSoundness.VisitorUnsound | dspace/modules/additions/src/main/java/org/dspace/discovery/SolrServiceResourceRestrictionPlugin.java:131-149 | a visitor with a special group that has a policy is shown what is refused |
| SearchSoundness.FilterCompleteIff | dspace/modules/additions/src/main/java/org/dspace/discovery/SolrServiceResourceRestrictionPlugin.java:67-149 | by the policies in force it hides nothing `authorize` grants if and only if, in every family with policies, each group that takes the user in has one whose values are never blank |
| SearchSoundness.ContainerFilterExact | dspace/modules/additions/src/main/java/org/dspace/discovery/SolrServiceResourceRestrictionPlugin.java:48-60 | for communities and collections without a metadata service the filter admits by the policies in force exactly what the READ policy loop grants |
| PolicyLists.PoliciesFactory.GetPolicies | dspace/modules/additions/src/main/java/com/atmire/access/factory/MetdataBasedAccessControlPoliciesFactoryBean.java:28-35 | the configured list itself, and not a copy of it |
| PolicyLists.PoliciesFactory.RetrievePoliciesFromGroupAndMembers | dspace/modules/additions/src/main/java/com/atmire/access/plugins/MetadataBasedAccessControlIndexPlugin.java:58-71 | the list returned, and what the call leaves in the configuration |
| PolicyLists.GrownIsSameIff | dspace/modules/additions/src/main/java/com/atmire/access/plugins/MetadataBasedAccessControlIndexPlugin.java:64-68 | indexing leaves the configuration alone if and only if the group has no list or its cached subgroups have no policies |
| PolicyLists.IndexingNarrows | dspace/modules/additions/src/main/java/com/atmire/access/plugins/MetadataBasedAccessControlIndexPlugin.java:64-68 | afterwards a group accepts an object exactly if it did before and, when it has a list, all its subgroups do |
| PolicyLists.OthersUnaffected | dspace/modules/additions/src/main/java/com/atmire/access/plugins/MetadataBasedAccessControlIndexPlugin.java:64-68 | the check of every other group stays as it was |
| PolicyLaws.AppendedIs | dspace/modules/additions/src/main/java/com/atmire/access/plugins/MetadataBasedAccessControlIndexPlugin.java:58-71 | the list returned is the group's own and behind it those of the subgroups in their order |
| PolicyLaws.GrownIs | dspace/modules/additions/src/main/java/com/atmire/access/plugins/MetadataBasedAccessControlIndexPlugin.java:64-68 | the configured list is left as just that, and all other lists as they were |
| PolicyLaws.DoubledBySelf | dspace/modules/additions/src/main/java/com/atmire/access/plugins/MetadataBasedAccessControlIndexPlugin.java:64-68 | a group among its own subgroups, as in a cycle, has all it has gathered by then added to itself |
| PolicyRuns.RunGrows | dspace/modules/additions/src/main/java/com/atmire/access/plugins/MetadataBasedAccessControlIndexPlugin.java:58-71 | after any run of indexings over a transitive cache the list of each configured group holds what was loaded for it and, if it has been indexed, what was loaded for its cached subgroups, and no list holds anything else |
| PolicyRuns.SoundAfterRunIff | dspace/modules/additions/src/main/java/com/atmire/access/plugins/MetadataBasedAccessControlIndexPlugin.java:58-71 | after a run the filter is sound for a logged-in user if and only if a condition on the table as loaded, the cache and the groups indexed holds |
| PolicyRuns.SafeAfterFewer | dspace/modules/additions/src/main/java/com/atmire/access/plugins/MetadataBasedAccessControlIndexPlugin.java:58-71 | what has been indexed can only make the filter less sound, and groups without a list do not matter |
| PolicyRuns.SoundAfterEveryRunIff | dspace/modules/additions/src/main/java/com/atmire/access/plugins/MetadataBasedAccessControlIndexPlugin.java:58-71 | the filter stays sound whatever is indexed if and only if it would be with every configured group asking for the loaded policies of its whole family |
| PolicyRuns.FlatStaysSound | dspace/config/metadata-based-access-control.xml:1-21 | at most one policy for each group, none for Anonymous, and no configured group above one with policies: sound for every user after every run |
| PolicyRuns.IndexingBreaksSoundness | dspace/modules/additions/src/main/java/com/atmire/access/plugins/MetadataBasedAccessControlIndexPlugin.java:58-71 | two groups with one policy each, one inside the other: sound as loaded, unsound once an item the outer one may read is indexed |
| PolicyIndex.AdditionalIndex | dspace/modules/additions/src/main/java/com/atmire/access/plugins/MetadataBasedAccessControlIndexPlugin.java:29-56 | fails exactly on a READ policy without a group; otherwise the lists grow by a run through the groups that may read, and the fields cover all policies of these groups and their subgroups, both as the lists were before the call and, with a transitive cache, as they are after it; then nothing else is written that was not there |
| PolicyIndex.CoveredWhateverIsIndexed | dspace/modules/additions/src/main/java/com/atmire/access/plugins/MetadataBasedAccessControlIndexPlugin.java:29-71 | over a transitive cache the fields of a document cover the policies as they are after any run if and only if they cover them as they were before it |
| PolicyIndex.FilterSeesMetadata | dspace/modules/additions/src/main/java/com/atmire/access/plugins/MetadataBasedAccessControlIndexPlugin.java:38-50 | the few fields written answer the filter as the whole metadata would, with the tokens of any of the READ policies |
| PolicyIndex.WrittenDocumentGranted | dspace/modules/additions/src/main/java/org/dspace/discovery/SolrServiceResourceRestrictionPlugin.java:67-149 | for a document written after any run and searched after any further one: what the filter lets through by the policies in force, with the lists of that moment, `authorize` grants, if these runs leave the filter sound; and all it lets through if every policy is in force |
| HighlightMerge.Merge | dspace/modules/rest/src/swagger-ui-2.1.0/lib/highlight.7.3.pack.js:1 | for any two nested, sorted streams: the node closed is always on the stack, the markup is well nested with nothing left open and just the nodes of the streams in it, its text is the given text once, and each character lies in exactly the nodes open at its offset in either stream, those that start sooner outside |
| HighlightOrder.SoonerIsTotal | dspace/modules/rest/src/swagger-ui-2.1.0/lib/highlight.7.3.pack.js:1 | of two elements that start in the streams exactly one is the sooner one |
| HighlightOrder.OneIsOutside | dspace/modules/rest/src/swagger-ui-2.1.0/lib/highlight.7.3.pack.js:1 | and of two around one character one is outside the other: the order of all elements around it is determined |
| HighlightReading.ReadBackIff | dspace/modules/rest/src/swagger-ui-2.1.0/lib/highlight.7.3.pack.js:1 | the string written for a sequence of tags and texts is read as that sequence if and only if no attribute value holds a double quote, which the escaping leaves alone |
| HighlightReading.NestedReadBackIff | dspace/modules/rest/src/swagger-ui-2.1.0/lib/highlight.7.3.pack.js:1 | so nested markup is read back if and only if none of its nodes has such a value |
| HighlightReading.QuoteSwallows | dspace/modules/rest/src/swagger-ui-2.1.0/lib/highlight.7.3.pack.js:1 | a value that ends its own tag and swallows the letter behind it |
| HighlightMerge.CloseThrough | dspace/modules/rest/src/swagger-ui-2.1.0/lib/highlight.7.3.pack.js:1 | closing a node takes just it off the stack and reopens what lay above, without touching the text |
| HighlightMerge.CloseDownTo | dspace/modules/rest/src/swagger-ui-2.1.0/lib/highlight.7.3.pack.js:1 | the search for the node stops at or above the bottom of the stack |
| HighlightMerge.TextWritten | dspace/modules/rest/src/swagger-ui-2.1.0/lib/highlight.7.3.pack.js:1 | text written up to the next event is enclosed as the streams say |
| HighlightLaws.ClosedBeforeOpened | dspace/modules/rest/src/swagger-ui-2.1.0/lib/highlight.7.3.pack.js:1 | two streams without empty elements are merged with all closing tags of an offset before the opening ones, so that no tag is opened where another has still to be closed |
| HighlightLaws.AtOneOffset | dspace/modules/rest/src/swagger-ui-2.1.0/lib/highlight.7.3.pack.js:1 | of two tags at one offset the first stream opens first and the second closes first |
| HighlightLaws.EscapeOne | dspace/modules/rest/src/swagger-ui-2.1.0/lib/highlight.7.3.pack.js:1 | ampersand and angle brackets are escaped and every other character is left |
| HighlightLaws.LowerOf | dspace/modules/rest/src/swagger-ui-2.1.0/lib/highlight.7.3.pack.js:1 | tag names are written in small letters |
| HighlightLaws.TextInOrder | dspace/modules/rest/src/swagger-ui-2.1.0/lib/highlight.7.3.pack.js:1 | the text of a tree is in the order of the document |
| HighlightLaws.NewlineOf | dspace/modules/rest/src/swagger-ui-2.1.0/lib/highlight.7.3.pack.js:1 | newlines of the source are stripped exactly where line breaks are elements |
| HighlightLaws.DistinctIff | dspace/modules/rest/src/swagger-ui-2.1.0/lib/highlight.7.3.pack.js:1 | the trees meant: those in which no element comes twice |
| HighlightDom.Walk | dspace/modules/rest/src/swagger-ui-2.1.0/lib/highlight.7.3.pack.js:1 | pushes exactly the events of the tree and returns the offset after it |
| HighlightDom.WalkFaithful | dspace/modules/rest/src/swagger-ui-2.1.0/lib/highlight.7.3.pack.js:1 | the events of any tree are a valid stream, open exactly around the characters each element contains |
| HighlightDom.TextLength | dspace/modules/rest/src/swagger-ui-2.1.0/lib/highlight.7.3.pack.js:1 | the walk counts the characters of the text if and only if no newlines are stripped from it |
| HighlightPlacement.AgreeIffWellPlaced | dspace/modules/rest/src/swagger-ui-2.1.0/lib/highlight.7.3.pack.js:1 | the offsets the walk counts place every element around its own characters of the text if and only if no stripped newline comes before an element with text, or in it unless it ends the text, and none makes an empty element seem to have text |
| HighlightPlacement.NothingStripped | dspace/modules/rest/src/swagger-ui-2.1.0/lib/highlight.7.3.pack.js:1 | so it is with any tree from which no newline is stripped |
| HighlightPlacement.MergeMarkup | dspace/modules/rest/src/swagger-ui-2.1.0/lib/highlight.7.3.pack.js:1 | from two trees to merged markup: each character in exactly the elements that contain its offset in either, and in exactly those that contain the character itself if and only if that condition holds; elements that start sooner are outside, those of the original before those of the other tree at the same offset; the string reads as that markup if and only if no element of either tree has a quote in an attribute value |
| HighlightPlacement.StrippedNewlineShifts | dspace/modules/rest/src/swagger-ui-2.1.0/lib/highlight.7.3.pack.js:1 | with a stripped newline before it, an element no longer encloses its own first letter |
| HighlightPlacement.NewlineAtTheEnd | dspace/modules/rest/src/swagger-ui-2.1.0/lib/highlight.7.3.pack.js:1 | a newline stripped after the last element displaces nothing, though the walk counts it |
| HandlebarsCompiler.Compiler.SexprNode | dspace/modules/rest/src/swagger-ui-2.1.0/lib/handlebars-2.0.0.js:27-28 | throws exactly on the helper calls that may not be, and otherwise pushes the opcodes of the expression |
| HandlebarsCompiler.Compiler.BlockNode | dspace/modules/rest/src/swagger-ui-2.1.0/lib/handlebars-2.0.0.js:27 | the children of a block are compiled first, numbered in order, and its opcodes name them |
| HandlebarsCompiler.Compiler.Compile | dspace/modules/rest/src/swagger-ui-2.1.0/lib/handlebars-2.0.0.js:27 | rejects exactly the programs with such a call, at any depth of child programs; otherwise opcodes and children are those of the template |
| HandlebarsJavaScript.JavaScriptCompiler.PopStack | dspace/modules/rest/src/swagger-ui-2.1.0/lib/handlebars-2.0.0.js:28 | the top of whichever half of the stack is in use, or the invalid-pop error |
| HandlebarsJavaScript.JavaScriptCompiler.ReplaceStack | dspace/modules/rest/src/swagger-ui-2.1.0/lib/handlebars-2.0.0.js:28 | the top replaced by a member access on it, through a variable where it must not be evaluated twice |
| HandlebarsJavaScript.JavaScriptCompiler.FlushInline | dspace/modules/rest/src/swagger-ui-2.1.0/lib/handlebars-2.0.0.js:28 | moves the inline entries below, in order, giving variables to those that are not literals |
| HandlebarsJavaScript.JavaScriptCompiler.SetupOptions | dspace/modules/rest/src/swagger-ui-2.1.0/lib/handlebars-2.0.0.js:28 | pops hash, programs and arguments, the last argument on top |
| HandlebarsJavaScript.JavaScriptCompiler.Execute | dspace/modules/rest/src/swagger-ui-2.1.0/lib/handlebars-2.0.0.js:28 | each opcode does to all fields what the symbolic machine does, and throws exactly where it does |
| HandlebarsJavaScript.JavaScriptCompiler.ExecuteAll | dspace/modules/rest/src/swagger-ui-2.1.0/lib/handlebars-2.0.0.js:28 | the loop over the opcodes is a run of that machine |
| HandlebarsMachine.RunFlattened | dspace/modules/rest/src/swagger-ui-2.1.0/lib/handlebars-2.0.0.js:28 | running the opcode list is running the tree of opcodes the first pass emits |
| HandlebarsCorrect.SexprPushes | dspace/modules/rest/src/swagger-ui-2.1.0/lib/handlebars-2.0.0.js:27-28 | any expression, with parameters and hashes nested at will, adds exactly one value: the call tree read off it, parameters in source order, everything beneath unchanged |
| HandlebarsCorrect.ParamsPush | dspace/modules/rest/src/swagger-ui-2.1.0/lib/handlebars-2.0.0.js:28 | parameters add one value each, in source order |
| HandlebarsCorrect.HashPushes | dspace/modules/rest/src/swagger-ui-2.1.0/lib/handlebars-2.0.0.js:28 | a hash adds one object with its pairs, keyed right although they are popped in reverse, and restores the hash being built around it |
| HandlebarsProgram.ProgramProduces | dspace/modules/rest/src/swagger-ui-2.1.0/lib/handlebars-2.0.0.js:27-28 | statements leave the machine as clean as they found it, and the source they add is the one read off the template |
| HandlebarsProgram.TemplateCompiles | dspace/modules/rest/src/swagger-ui-2.1.0/lib/handlebars-2.0.0.js:28 | a whole program never pops an empty stack, ends with both halves and the slot counter empty, and yields that source |
| HandlebarsTemplates.CompilesExactly | dspace/modules/rest/src/swagger-ui-2.1.0/lib/handlebars-2.0.0.js:28 | the second pass throws exactly on blocks whose call has no name to be made under, at any depth; on all other templates every program of the tree yields its source |
| HandlebarsTemplates.NamelessBlockThrows | dspace/modules/rest/src/swagger-ui-2.1.0/lib/handlebars-2.0.0.js:27-28 | one block on a data path, in a tree passed in ready made: taken by the first pass, thrown on by the second |
| HandlebarsSharing.EqualCompileAlike | dspace/modules/rest/src/swagger-ui-2.1.0/lib/handlebars-2.0.0.js:28 | programs that look alike, with the same opcodes at every depth, compile or throw alike |
| HandlebarsSharing.SharedTable | dspace/modules/rest/src/swagger-ui-2.1.0/lib/handlebars-2.0.0.js:28 | the second pass over a template, sharing child programs through one table, throws exactly where some program would throw on its own, and otherwise leaves a table in which every call goes to a program that looks like the one to be called, each look only once |
| HandlebarsJavaScript.JavaScriptCompiler.MergeSource | dspace/modules/rest/src/swagger-ui-2.1.0/lib/handlebars-2.0.0.js:28 | the lines put together: adjacent contents joined, and a buffer declared only where something else stands among them |
| HandlebarsBodies.MergeKeepsOutput | dspace/modules/rest/src/swagger-ui-2.1.0/lib/handlebars-2.0.0.js:28 | called in any state, the body of a program that is not simple returns the text of its lines in their order, evaluated once each and in that order, whether joined or added to a buffer |
| HandlebarsExact.BodiesSameIff | dspace/modules/rest/src/swagger-ui-2.1.0/lib/handlebars-2.0.0.js:28 | two programs that look alike, only one of them simple, have the same body if and only if no value is written unescaped |
| HandlebarsExact.TextSame | dspace/modules/rest/src/swagger-ui-2.1.0/lib/handlebars-2.0.0.js:28 | whichever of the two is called, in any state, the text is the same |
| HandlebarsExact.ValueTellsApart | dspace/modules/rest/src/swagger-ui-2.1.0/lib/handlebars-2.0.0.js:28 | but where a value is written unescaped the simple one returns the value itself and the other its text |
| HandlebarsExact.SharingIsExactIff | dspace/modules/rest/src/swagger-ui-2.1.0/lib/handlebars-2.0.0.js:28 | the shared functions of a template are those generated one by one if and only if no two of its programs look alike, only one of them simple, and write a value unescaped |
| HandlebarsExact.FullIsUnmixed | dspace/modules/rest/src/swagger-ui-2.1.0/lib/handlebars-2.0.0.js:27 | so they are for every template without comments and without content stripped to nothing |
| HandlebarsExact.CommentSharesProgram | dspace/modules/rest/src/swagger-ui-2.1.0/lib/handlebars-2.0.0.js:27-28 | two blocks around one variable, one of them with a comment before it: written unescaped the second calls the function of the first, which is not its own; escaped, the two are the same |
| HandlebarsLaws.KindOfCall | dspace/modules/rest/src/swagger-ui-2.1.0/lib/handlebars-2.0.0.js:28 | for every expression and all options: the code is a known call exactly for a helper or eligible name among the known ones, a helper call for any other helper, an ambiguous call for any other eligible name unless only known helpers are allowed, and a lambda for everything else |
| HandlebarsLaws.RejectedCallIff | dspace/modules/rest/src/swagger-ui-2.1.0/lib/handlebars-2.0.0.js:27-28 | the first pass throws exactly on a data path where a helper may stand, on an unknown helper where only known ones are allowed, and on such in what a helper is called with |
| HandlebarsLaws.PartsOfCall | dspace/modules/rest/src/swagger-ui-2.1.0/lib/handlebars-2.0.0.js:28 | a call has the name, the programs of its block, and an argument for each parameter |
| HandlebarsLaws.ArgumentAt | dspace/modules/rest/src/swagger-ui-2.1.0/lib/handlebars-2.0.0.js:28 | each argument, by its place: strings quoted, numbers and booleans as they are, paths and subexpressions as they read |
| HandlebarsLaws.PathRead | dspace/modules/rest/src/swagger-ui-2.1.0/lib/handlebars-2.0.0.js:28 | a path is looked up in the context it says, or in those of all depths, name by name |
| HandlebarsLaws.DataRead | dspace/modules/rest/src/swagger-ui-2.1.0/lib/handlebars-2.0.0.js:28 | a data path is looked up in the data of its depth, quietly |
| HandlebarsLaws.ContextRead | dspace/modules/rest/src/swagger-ui-2.1.0/lib/handlebars-2.0.0.js:28 | a path without a name is a context |
| HandlebarsLaws.MustacheLines | dspace/modules/rest/src/swagger-ui-2.1.0/lib/handlebars-2.0.0.js:27-28 | the source of a single mustache: escaped unless it asks not to be or escaping is off |
| HandlebarsLaws.BlockLinesOf | dspace/modules/rest/src/swagger-ui-2.1.0/lib/handlebars-2.0.0.js:27-28 | the source of a single block, for each kind of call, with its programs by number |
| HandlebarsLaws.ContentLines | dspace/modules/rest/src/swagger-ui-2.1.0/lib/handlebars-2.0.0.js:27-28 | the source of a single content, nothing for an empty one or a comment |
| HandlebarsLaws.PartialLines | dspace/modules/rest/src/swagger-ui-2.1.0/lib/handlebars-2.0.0.js:27-28 | a partial without a context is given the one it stands in |
| HandlebarsBodyLaws.ContentsReturned | dspace/modules/rest/src/swagger-ui-2.1.0/lib/handlebars-2.0.0.js:28 | lines that are all content are joined and returned, without a buffer |
| HandlebarsBodyLaws.BufferedBody | dspace/modules/rest/src/swagger-ui-2.1.0/lib/handlebars-2.0.0.js:28 | where something else stands among them the buffer begins with the contents before it, each further run is added to it, and the last one is returned with it |
| HandlebarsBodyLaws.SimpleBody | dspace/modules/rest/src/swagger-ui-2.1.0/lib/handlebars-2.0.0.js:28 | a simple program has its lines one by one, and returns an empty text if there are none |
| HandlebarsBodyLaws.ValueReturned | dspace/modules/rest/src/swagger-ui-2.1.0/lib/handlebars-2.0.0.js:28 | a simple program with one value returns it, or an empty text for null |
| HandlebarsBodyLaws.AddedBy | dspace/modules/rest/src/swagger-ui-2.1.0/lib/handlebars-2.0.0.js:28 | what each line adds to the output, nothing for null |
| HandlebarsContext.Context.MatchExistingProgram | dspace/modules/rest/src/swagger-ui-2.1.0/lib/handlebars-2.0.0.js:28 | the first program of the table that looks the same, or none |
| HandlebarsContext.Context.CompileChildren | dspace/modules/rest/src/swagger-ui-2.1.0/lib/handlebars-2.0.0.js:28 | the table and the indices after all children, shared or new, and failure exactly where a child throws |
| HandlebarsContext.Context.CompileProgram | dspace/modules/rest/src/swagger-ui-2.1.0/lib/handlebars-2.0.0.js:28 | children first, then the opcodes with a compiler of their own, and the check for content left on the stack |
| HandlebarsContext.CompileTemplate | dspace/modules/rest/src/swagger-ui-2.1.0/lib/handlebars-2.0.0.js:27-28 | both passes: fails exactly where the template is at fault, and otherwise leaves a right table, whose functions are those of the source read off the template if and only if that condition holds |
| Marked.TreeIsNested | dspace/modules/rest/src/swagger-ui-2.1.0/lib/marked.js:260-353 | the token stream of any block tree is well nested: brackets match, and items stand directly in lists and nowhere else |
| Marked.NestedIsTree | dspace/modules/rest/src/swagger-ui-2.1.0/lib/marked.js:918-928 | and the well-nested streams are exactly those of block trees |
| MarkedParser.FlattenInjective | dspace/modules/rest/src/swagger-ui-2.1.0/lib/marked.js:918-928 | no two trees have the same stream |
| MarkedLexer.Lexer.Token | dspace/modules/rest/src/swagger-ui-2.1.0/lib/marked.js:149-442 | the tokens pushed are the stream of the block tree of the text, and the links those defined in it; it throws exactly where no rule applies |
| MarkedLexer.Lexer.NextBlock | dspace/modules/rest/src/swagger-ui-2.1.0/lib/marked.js:162-440 | one round of the loop takes one block off the text and puts its tokens behind those already there |
| MarkedLexer.Lexer.Listing | dspace/modules/rest/src/swagger-ui-2.1.0/lib/marked.js:281-353 | brackets around the items of a list, and the text handed back after it |
| MarkedLexer.Lexer.ListItems | dspace/modules/rest/src/swagger-ui-2.1.0/lib/marked.js:290-347 | each item with its content lexed inside its own brackets, loose or tight as the rule says |
| MarkedLexer.NeverThrows | dspace/modules/rest/src/swagger-ui-2.1.0/lib/marked.js:434-440 | the lexer never throws when whatever newlines leave is at least text |
| MarkedLexer.LinksAtTopOnly | dspace/modules/rest/src/swagger-ui-2.1.0/lib/marked.js:368-376 | links are defined at the top level only, neither in quotes nor in items |
| MarkedLexer.EndOfList | dspace/modules/rest/src/swagger-ui-2.1.0/lib/marked.js:315-323 | the first item that a bullet of another kind follows, or the last |
| MarkedLexer.ItemsTaken | dspace/modules/rest/src/swagger-ui-2.1.0/lib/marked.js:315-323 | no item is lost: the list takes those up to its end, and the rest go back in front of the text |
| MarkedLexer.LooseIff | dspace/modules/rest/src/swagger-ui-2.1.0/lib/marked.js:325-332 | an item is loose if and only if there is a blank line in it, or between it and a neighbour of the list |
| MarkedLaws.NextIsFirst | dspace/modules/rest/src/swagger-ui-2.1.0/lib/marked.js:162-440 | for every grammar and text: what is done next is what the rule of lowest rank that applies says, tables, paragraphs and definitions applying at the top only |
| MarkedLaws.FirstBlock | dspace/modules/rest/src/swagger-ui-2.1.0/lib/marked.js:149-442 | the tree of a text begins, behind its newlines, with the block of that rule, and goes on with the tree of what is left |
| MarkedLaws.KindIff | dspace/modules/rest/src/swagger-ui-2.1.0/lib/marked.js:149-442 | a text begins with a list, a quote, a rule, a heading and so on if and only if a rule for such is the first that applies, and with nothing if and only if none does |
| MarkedLaws.ListIs | dspace/modules/rest/src/swagger-ui-2.1.0/lib/marked.js:281-353 | a list ends before the first item of another kind, its items are loose by the blank lines in and between them, and the rest is lexed again |
| MarkedLaws.PlainText | dspace/modules/rest/src/swagger-ui-2.1.0/lib/marked.js:149-442 | the grammar in which everything is text makes progress, is complete, and makes one block of any text |
| MarkedParser.Parser.Next | dspace/modules/rest/src/swagger-ui-2.1.0/lib/marked.js:934-936 | the next token of the stream, or undefined at its end |
| MarkedParser.Parser.ParseText | dspace/modules/rest/src/swagger-ui-2.1.0/lib/marked.js:950-958 | adjacent text tokens joined by newlines, and just those consumed |
| MarkedParser.Parser.Tok | dspace/modules/rest/src/swagger-ui-2.1.0/lib/marked.js:964-1070 | consumes just the tokens of one block and renders it |
| MarkedParser.Parser.Body | dspace/modules/rest/src/swagger-ui-2.1.0/lib/marked.js:1018-1056 | consumes up to the closing token, and never past the end |
| MarkedParser.Parser.ListBody | dspace/modules/rest/src/swagger-ui-2.1.0/lib/marked.js:1027-1036 | the items of a list, each with its own closing token |
| MarkedParser.Parser.Parse | dspace/modules/rest/src/swagger-ui-2.1.0/lib/marked.js:918-928 | on any well-nested stream all tokens are consumed, none is looked for past the end, and the result is the recursive rendering of the one tree it is the stream of |
| MarkedHtmlLaws.FirstRendered | dspace/modules/rest/src/swagger-ui-2.1.0/lib/marked.js:780-816 | the HTML of every kind of block, in front of that of the rest |
| MarkedHtmlLaws.TextsJoined | dspace/modules/rest/src/swagger-ui-2.1.0/lib/marked.js:950-958 | text with text after it is rendered as one text of two lines |
| MarkedHtmlLaws.TextAlone | dspace/modules/rest/src/swagger-ui-2.1.0/lib/marked.js:1064-1068 | text is a paragraph, but bare in a tight item |
| MarkedHtmlLaws.OneItem | dspace/modules/rest/src/swagger-ui-2.1.0/lib/marked.js:1037-1056 | so the text of a loose item is a paragraph, and that of a tight one is not |
| MarkedLexer.Compile | dspace/modules/rest/src/swagger-ui-2.1.0/lib/marked.js:149-442 | from text to HTML: the rendering of the tree of the text, and no error for a complete grammar |
| SolrIndexer.SearchService.NeedsIndexing | dspace/modules/additions/src/main/java/org/dspace/discovery/SolrServiceImpl.java:649-692 | true exactly if the handle finds no document, or one indexed before the change |
| SolrIndexer.SearchService.IndexItemContent | dspace/modules/additions/src/main/java/org/dspace/discovery/SolrServiceImpl.java:201-256 | live and visible documents afterwards, for archived, withdrawn and other items |
| SolrIndexer.SearchService.Update | dspace/modules/additions/src/main/java/org/dspace/discovery/SolrServiceImpl.java:426-473 | the items in the order they are visited, with commits in between, then the containers, then a commit |
| SolrIndex.IndexItemEffect | dspace/modules/additions/src/main/java/org/dspace/discovery/SolrServiceImpl.java:217-236 | one visit makes the visited document the item's and changes no other |
| SolrIndex.VisitsReflect | dspace/modules/additions/src/main/java/org/dspace/discovery/SolrServiceImpl.java:426-473 | whatever the order and whenever the server commits, visited items have exactly their document, and nothing else changes |
| SolrIndex.IncrementalEqualsFull | dspace/modules/additions/src/main/java/org/dspace/discovery/SolrServiceImpl.java:426-473 | an incremental update leaves the documents a forced one leaves, up to the time of indexing |
| SolrExact.UpdateIsRightIff | dspace/modules/additions/src/main/java/org/dspace/discovery/SolrServiceImpl.java:649-692 | whatever is committed in between, an incremental update is right if and only if each item to be indexed has the right document already or looks out of date at one of its visits, by what was visible at the start before the first commit and by what was live at the start after it |
| SolrExact.EqualStampIsMissed | dspace/modules/additions/src/main/java/org/dspace/discovery/SolrServiceImpl.java:677-685 | a change in the very millisecond of the last indexing is missed, but not by a forced update |
| SolrExact.CreateIndexIsExactIff | dspace/modules/additions/src/main/java/org/dspace/discovery/SolrServiceImpl.java:355-367 | `createIndex` wipes nothing: from any index at all it leaves exactly the documents there should be if and only if every document there was belongs to an object of the repository or is found by the handle of an item |
| SolrExact.CreateIndexOfSound | dspace/modules/additions/src/main/java/org/dspace/discovery/SolrServiceImpl.java:355-367 | from a sound index it does if and only if there is no document of an object that is gone |
| SolrExact.StrayStays | dspace/modules/additions/src/main/java/org/dspace/discovery/SolrServiceImpl.java:355-367 | the document of an item that is gone outlives a rebuilding |
| SolrRuns.RunIsSound | dspace/modules/additions/src/main/java/org/dspace/discovery/SolrServiceImpl.java:201-256 | over every history of changes, indexing, deletions and commits, what looks up to date is |
| SolrRuns.UpdateAfterAnyHistory | dspace/modules/additions/src/main/java/org/dspace/discovery/SolrServiceImpl.java:426-473 | so after any history an incremental update gives each archived or withdrawn item one document with its content, and equals the forced update |
| SolrLaws.VisitIff | dspace/modules/additions/src/main/java/org/dspace/discovery/SolrServiceImpl.java:201-256 | one visit over the two flags: neither archived nor withdrawn, the document goes; otherwise the item's document takes the place of all its handle finds, unless a fresh one was found |
| SolrLaws.ShownIff | dspace/modules/additions/src/main/java/org/dspace/discovery/SolrServiceImpl.java:426-473 | after any history and any update that comes to every item, an item has a document if and only if it is archived or withdrawn, with its content, and alone under its handle |
| SolrLaws.WithdrawnIsShown | dspace/modules/additions/src/main/java/org/dspace/discovery/SolrServiceImpl.java:216-236 | a withdrawn item is indexed, and an unfinished one taken out |
| SolrLaws.StepIs | dspace/modules/additions/src/main/java/org/dspace/discovery/SolrServiceImpl.java:201-473 | what indexing one object, deleting by id or by handle, and a commit do to the documents |
| SolrLaws.RepositoryStepIs | dspace/modules/additions/src/main/java/org/dspace/discovery/SolrServiceImpl.java:201-473 | what the repository does leaves the index alone, and an update the repository |
| SolrLaws.AllowedAnyTime | dspace/modules/additions/src/main/java/org/dspace/discovery/SolrServiceImpl.java:201-473 | the histories meant: indexing, commits, updates and deletions from the repository at any time, and deleting the document of what is gone |
| SolrLaws.ChangeAllowed | dspace/modules/additions/src/main/java/org/dspace/discovery/SolrServiceImpl.java:216-236 | an item may be changed with a later stamp, also withdrawn and brought back, as long as it keeps its handle |
| SolrLaws.NewItemAllowed | dspace/modules/additions/src/main/java/org/dspace/discovery/SolrServiceImpl.java:216-236 | and a new one may come with a handle that nothing has |
| FacetCodec.TransformDisplayedValue | dspace/modules/additions/src/main/java/org/dspace/discovery/SolrServiceImpl.java:2260-2290 | locations, encoded fields, bracketed values and the rest |
| FacetCodec.TransformAuthorityValue | dspace/modules/additions/src/main/java/org/dspace/discovery/SolrServiceImpl.java:2293-2325 | the authority of an encoded value, or none |
| FacetCodec.TransformSortValue | dspace/modules/additions/src/main/java/org/dspace/discovery/SolrServiceImpl.java:2328-2358 | the sort key of an encoded value |
| FacetLaws.EncodedFields | dspace/modules/additions/src/main/java/org/dspace/discovery/SolrServiceImpl.java:2265-2266 | values are encoded exactly in the fields whose names end in one of three ways |
| FacetLaws.BracketedIff | dspace/modules/additions/src/main/java/org/dspace/discovery/SolrServiceImpl.java:2285-2289 | brackets come off exactly a value that is a single line in brackets |
| FacetLaws.LocationFields | dspace/modules/additions/src/main/java/org/dspace/discovery/SolrServiceImpl.java:2261-2264 | the two location fields, and the separators |
| FacetLaws.NamedByType | dspace/modules/additions/src/main/java/org/dspace/discovery/SolrServiceImpl.java:2209-2258 | the name of the facet field for each type |
| FacetLaws.RemovedIff | dspace/modules/additions/src/main/java/org/dspace/discovery/SolrServiceImpl.java:2209-2258 | and the name without it: cut at the last ending of its type, or at the last level of a hierarchical one if there is any |
| FacetLaws.PartsInOrder | dspace/modules/additions/src/main/java/org/dspace/discovery/SolrServiceImpl.java:2275-2284 | of several parts the displayed texts, the authorities and the sort keys are put together in their order |
| Strings.FindFirst | dspace/modules/additions/src/main/java/org/dspace/discovery/SolrServiceImpl.java:2276-2284 | the search finds the first occurrence, and misses none |
| Splitting.SplitsAtJoint | dspace/modules/additions/src/main/java/org/dspace/discovery/SolrServiceImpl.java:2275-2276 | a text put together with a separator splits as its two sides do, if no other separator lies across the one put between them |
| Splitting.SplitSum | dspace/modules/additions/src/main/java/org/dspace/discovery/SolrServiceImpl.java:2275-2276 | splitting loses the separators and nothing else, and leaves one part if and only if there is none |
| Splitting.SplitOfJoin | dspace/modules/additions/src/main/java/org/dspace/discovery/SolrServiceImpl.java:2275-2276 | splitting undoes joining, but for empty pieces at the end of several, when one character of the separator occurs in no piece, whatever the separator overlaps with |
| FacetRoundTrip.AuthoritySplits | dspace/modules/additions/src/main/java/org/dspace/discovery/SolrServiceImpl.java:2282-2283 | the authority is cut off at the right place if and only if no authority separator begins in the value, the one written after it included |
| FacetExact.RoundTripIff | dspace/modules/additions/src/main/java/org/dspace/discovery/SolrServiceImpl.java:1216-1226 | for all strings: lower case, value and authority all come back if and only if no separator lies before, behind or across the one that is written, and no authority separator begins in the value |
| FacetExact.PlainRoundTripIff | dspace/modules/additions/src/main/java/org/dspace/discovery/SolrServiceImpl.java:1223-1226 | the same without an authority |
| FacetRoundTrip.EncodedIff | dspace/modules/additions/src/main/java/org/dspace/discovery/SolrServiceImpl.java:1216-1226 | each on its own, for values with separators in them too: the lower case comes back if and only if there is none, the value if and only if besides no authority separator begins in it, and the authority exactly if there is one, the last part is clean and no other part has one |
| FacetRoundTrip.FacetRoundTrip | dspace/modules/additions/src/main/java/org/dspace/discovery/SolrServiceImpl.java:1216-1226 | with no separator in the strings or across the one that is written: the lower case always comes back, the value if and only if it is clean in that sense, and the authority if and only if there is one besides |
| FacetRoundTrip.PlainIff | dspace/modules/additions/src/main/java/org/dspace/discovery/SolrServiceImpl.java:1223-1226 | each on its own without an authority, for values with separators in them too: lower case and value come back if and only if there is none, and for the value no authority separator |
| FacetRoundTrip.PlainRoundTrip | dspace/modules/additions/src/main/java/org/dspace/discovery/SolrServiceImpl.java:1223-1226 | with no separator in the strings or across the one that is written, the value comes back if and only if it holds no authority separator |
| FacetRoundTrip.DefaultSeparator | dspace/modules/additions/src/main/java/org/dspace/discovery/SolrServiceImpl.java:121-123 | for the separator used by default, strings without line breaks are enough |
| FacetRoundTrip.SeparatorsAreLost | dspace/modules/additions/src/main/java/org/dspace/discovery/SolrServiceImpl.java:2277-2285 | a value that holds the separator is still told apart from its lower case, but comes back without it: whole if and only if it is one piece |
| FacetRoundTrip.PostfixUndone | dspace/modules/additions/src/main/java/org/dspace/discovery/SolrServiceImpl.java:2209-2258 | removing the postfix undoes adding it, for every type and field |
| FacetRoundTrip.PostfixRestored | dspace/modules/additions/src/main/java/org/dspace/discovery/SolrServiceImpl.java:2209-2258 | adding undoes removing if and only if the name ends with the postfix |
| EmbargoPolicies.PolicyTable.GenerateAutomaticPolicies | dspace/modules/additions/src/main/java/org/dspace/authorize/AuthorizeManager.java:1154-1185 | nothing without a date unless on a bitstream; otherwise custom rows go, one policy for each authorized group is there, or one for Anonymous, and all other rows stay; without duplicates that is all |
| EmbargoPolicies.PolicyTable.CreateOrModify | dspace/modules/additions/src/main/java/org/dspace/authorize/AuthorizeManager.java:1188-1226 | some matching row is changed or one new row is added |
| EmbargoPolicies.PolicyTable.GetAuthorizedGroups | dspace/modules/additions/src/main/java/org/dspace/authorize/AuthorizeManager.java:1004-1046 | exactly the groups with a row for the action |
| EmbargoPolicies.PolicyTable.RemoveCustom | dspace/modules/additions/src/main/java/org/dspace/authorize/AuthorizeManager.java:863-868 | exactly the custom rows of the object go |
| EmbargoPolicies.EmbargoedStep | dspace/modules/additions/src/main/java/org/dspace/authorize/AuthorizeManager.java:1188-1226 | one more group dealt with, new or repeated, in whatever order |
| EmbargoPolicies.OneEachIff | dspace/modules/additions/src/main/java/org/dspace/authorize/AuthorizeManager.java:1204-1209 | the custom policies are one READ policy with the start date for each group, always on items, bitstreams and bundles, and on others if and only if each group already had one there |
| EmbargoPolicies.CollectionEmbargoMissed | dspace/modules/additions/src/main/java/org/dspace/authorize/AuthorizeManager.java:1204-1209 | an embargo on a collection that ends up on the item with its number |
| EmbargoPolicies.GroupsStay | dspace/modules/additions/src/main/java/org/dspace/authorize/AuthorizeManager.java:1154-1185 | a run for an item, bundle or bitstream leaves the groups of the collection alone |
| EmbargoPolicies.SecondRun | dspace/modules/additions/src/main/java/org/dspace/authorize/AuthorizeManager.java:1154-1185 | of two runs one after the other the second leaves the policies the first left, up to ids and end dates |
| EmbargoLaws.CustomIff | dspace/modules/additions/src/main/java/org/dspace/authorize/AuthorizeManager.java:1154-1185 | after a run on an item, bitstream or bundle the groups with a custom policy are exactly those with a DEFAULT_ITEM_READ row on the collection, or group 0 alone if it has one; each such policy is for reading, from the date on, with the reason, and each group has one |
| EmbargoLaws.RowsThatStay | dspace/modules/additions/src/main/java/org/dspace/authorize/AuthorizeManager.java:1154-1185 | every other row stays, and as it was unless it is a read policy of an embargoed group on the object |
| EmbargoLaws.NoDateNoChange | dspace/modules/additions/src/main/java/org/dspace/authorize/AuthorizeManager.java:1156-1157 | nothing happens without a date, but to a bitstream |
| EmbargoLaws.NewRowsOfContainers | dspace/modules/additions/src/main/java/org/dspace/authorize/AuthorizeManager.java:1204-1209 | a new policy for a collection or community is one of the item with its number |
| Checker.CheckerCommand.CheckBitstream | dspace/modules/additions/src/main/java/org/dspace/checker/CheckerCommand.java:141-181 | records and history afterwards, and the result reported, in all cases |
| Checker.CheckerCommand.ProcessBitstream | dspace/modules/additions/src/main/java/org/dspace/checker/CheckerCommand.java:299-359 | digest compared, or the error recorded, the flag cleared for the final errors only |
| Checker.CheckerCommand.ProcessDeletedBitstream | dspace/modules/additions/src/main/java/org/dspace/checker/CheckerCommand.java:253-263 | recorded once more, and the flag cleared |
| Checker.CheckerCommand.Process | dspace/modules/additions/src/main/java/org/dspace/checker/CheckerCommand.java:98-131 | first records for bitstreams that have none, then the dispatched ids one after the other, and exactly the results to be reported collected |
| Checker.ProcessIsRun | dspace/modules/additions/src/main/java/org/dspace/checker/CheckerCommand.java:98-131 | one call is a run of events, so that what holds of all runs holds of any number of calls |
| Checker.RunProjects | dspace/modules/additions/src/main/java/org/dspace/checker/CheckerCommand.java:98-181 | over any runs, each bitstream has the record and the history it would have on its own |
| Checker.NeverRevived | dspace/modules/additions/src/main/java/org/dspace/checker/CheckerCommand.java:162-168 | the flag is never set back, and nothing is recorded without it |
| Checker.OneRowEach | dspace/modules/additions/src/main/java/org/dspace/checker/CheckerCommand.java:141-181 | as long as a bitstream is to be processed every dispatch of it adds one row |
| Checker.FinalStops | dspace/modules/additions/src/main/java/org/dspace/checker/CheckerCommand.java:253-263 | the flag is cleared exactly when the bitstream is found deleted, missing from the store, or with an algorithm there is not |
| Checker.NothingAfterFinal | dspace/modules/additions/src/main/java/org/dspace/checker/CheckerCommand.java:299-359 | after such a check there is one more row and none ever again |
| CheckerLaws.CompareIff | dspace/modules/additions/src/main/java/org/dspace/checker/CheckerCommand.java:228-242 | a match exactly for two equal checksums |
| CheckerLaws.ResultIff | dspace/modules/additions/src/main/java/org/dspace/checker/CheckerCommand.java:141-359 | each of the results exactly when it is: a match exactly if the stored checksum is the digest by the algorithm of the record, or by MD5 if it names none |
| CheckerLaws.RecordAfter | dspace/modules/additions/src/main/java/org/dspace/checker/CheckerCommand.java:141-359 | every field of the record after a check, and the row added |
| CheckerLaws.ReportIs | dspace/modules/additions/src/main/java/org/dspace/checker/CheckerCommand.java:98-131 | the report holds the results in the order of the checks, matches only if it is verbose |
| CheckerLaws.MissingAdded | dspace/modules/additions/src/main/java/org/dspace/checker/CheckerCommand.java:98-131 | records there are stay, and a bitstream without one gets the first given for it |
| SwordUrls.ItemUrlsParseBack | dspace/modules/swordv2/src/main/java/org/dspace/sword2/SwordUrlManager.java:105-153 | `getItem` inverts the edit, media, feed and both statement URLs, for every base URL and 32-bit id |
| SwordUrls.ItemUrlIff | dspace/modules/swordv2/src/main/java/org/dspace/sword2/SwordUrlManager.java:105-153 | and finds an item if and only if the URL is the base, one of three paths, a number and possibly a type |
| SwordUrls.BitstreamUrlParsesBack | dspace/modules/swordv2/src/main/java/org/dspace/sword2/SwordUrlManager.java:457-499 | `getBitstream` inverts the bitstream URL for any encoded name, with slashes or not |
| SwordUrls.BitstreamUrlIff | dspace/modules/swordv2/src/main/java/org/dspace/sword2/SwordUrlManager.java:457-499 | and finds a bitstream if and only if the URL is the base, the path, a number, a slash, and anything at all |
| SwordUrls.NotBoth | dspace/modules/swordv2/src/main/java/org/dspace/sword2/SwordUrlManager.java:105-153 | a URL that names a bitstream is no item URL: `getItem` fails on it with an exception |
| SwordUrls.CollectionHandleIff | dspace/modules/swordv2/src/main/java/org/dspace/sword2/SwordUrlManager.java:179-200 | `getCollection` reads a handle from exactly the locations that begin with anything as long as the base URL, go on with a slash or without one, and end with the handle |
| SwordUrls.OwnLocationIff | dspace/modules/swordv2/src/main/java/org/dspace/sword2/SwordUrlManager.java:179-200 | of these the ones below the base URL are exactly those that begin with it |
| SwordUrls.DepositUrlParsesBack | dspace/modules/swordv2/src/main/java/org/dspace/sword2/SwordUrlManager.java:53-57 | the handle comes back if and only if there is one, below the base URL and below any other address of the same length |
| SwordUrls.ServiceHandleIff | dspace/modules/swordv2/src/main/java/org/dspace/sword2/SwordUrlManager.java:246-310 | `extractDSpaceObject` reads a handle from exactly the URLs below the base URL, one slash before and one after it being optional |
| SwordUrls.ServiceUrlParsesBack | dspace/modules/swordv2/src/main/java/org/dspace/sword2/SwordUrlManager.java:246-310 | the handle comes back if and only if it does not end with a slash |
| SwordLaws.UrlsSpelled | dspace/modules/swordv2/src/main/java/org/dspace/sword2/SwordUrlManager.java:523-560 | URLs as they are written |
| SwordLaws.TypedUrlsSpelled | dspace/modules/swordv2/src/main/java/org/dspace/sword2/SwordUrlManager.java:503-566 | and those that end in a type |
| SwordLaws.BitstreamUrlSpelled | dspace/modules/swordv2/src/main/java/org/dspace/sword2/SwordUrlManager.java:457-464 | and that of a bitstream |
| SwordLaws.ItemFailsIff | dspace/modules/swordv2/src/main/java/org/dspace/sword2/SwordUrlManager.java:105-153 | a URL is a bad one exactly if it is below none of the three addresses of items, and otherwise names an item or is an exception |
| SwordLaws.BitstreamFailsIff | dspace/modules/swordv2/src/main/java/org/dspace/sword2/SwordUrlManager.java:457-499 | the same for bitstreams and their address |
| SwordLaws.CollectionFailsIff | dspace/modules/swordv2/src/main/java/org/dspace/sword2/SwordUrlManager.java:179-200 | incomplete exactly if as long as the base URL, or longer by a slash; an exception exactly if shorter |
| SwordLaws.ServiceFailsIff | dspace/modules/swordv2/src/main/java/org/dspace/sword2/SwordUrlManager.java:246-310 | a bad URL exactly if not below the base URL |
| Decimal.ParseToString | dspace/modules/swordv2/src/main/java/org/dspace/sword2/SwordUrlManager.java:144-145 | every 32-bit integer is read back from what it is printed as |
| Decimal.ToStringInjective | dspace/modules/additions/src/main/java/org/dspace/discovery/SolrServiceResourceRestrictionPlugin.java:51-57 | different integers print differently |
| AcceptHeader.AnalyseAccept | dspace/modules/swordv2/src/main/java/org/dspace/sword2/DSpaceSwordAPI.java:104-227 | null without a header, an exception exactly if some part cannot be read; otherwise every part is in the bucket of its key, in header order, and in no other |
| AcceptHeader.PartsOfJoined | dspace/modules/swordv2/src/main/java/org/dspace/sword2/DSpaceSwordAPI.java:111-121 | texts without a comma are the parts of the header they make up, but for empty ones at the end of several |
| AcceptHeader.ReadParts | dspace/modules/swordv2/src/main/java/org/dspace/sword2/DSpaceSwordAPI.java:111-175 | the parts with their qualities, and the highest of these |
| AcceptHeader.PlaceAll | dspace/modules/swordv2/src/main/java/org/dspace/sword2/DSpaceSwordAPI.java:179-226 | each part put into one bucket |
| AcceptHeader.HighestIs | dspace/modules/swordv2/src/main/java/org/dspace/sword2/DSpaceSwordAPI.java:112-171 | the highest quality asked for, or zero |
| AcceptHeader.LabelsConserved | dspace/modules/swordv2/src/main/java/org/dspace/sword2/DSpaceSwordAPI.java:190-224 | nothing is lost or made up: the buckets together hold the labels of the header, each as often as it occurs |
| AcceptHeader.UnqualifiedAbove | dspace/modules/swordv2/src/main/java/org/dspace/sword2/DSpaceSwordAPI.java:207-213 | a part without a quality is placed above the highest one and at most at one, and exactly at one where no gap is left |
| AcceptHeader.UnqualifiedOrder | dspace/modules/swordv2/src/main/java/org/dspace/sword2/DSpaceSwordAPI.java:207-213 | two such parts are ranked by position, the later one higher, alike or lower exactly as the highest quality is below, at or above one |
| AcceptHeader.ZeroQuality | dspace/modules/swordv2/src/main/java/org/dspace/sword2/DSpaceSwordAPI.java:190-224 | an explicit quality is the rank of its part, except that a quality of zero, which refuses a type, ranks it with the highest quality of all |
| AcceptHeader.ThirdComponentIgnored | dspace/modules/swordv2/src/main/java/org/dspace/sword2/DSpaceSwordAPI.java:158-163 | the third component of a part has no bearing on its rank |
| AcceptHeader.QualityWithParamsIff | dspace/modules/swordv2/src/main/java/org/dspace/sword2/DSpaceSwordAPI.java:158-163 | a part with parameters gets a quality if and only if its second component reads as that number from the third character on |
| AcceptLaws.ReadableIff | dspace/modules/swordv2/src/main/java/org/dspace/sword2/DSpaceSwordAPI.java:116-163 | from the text of the parts: the ranking fails exactly where one is empty, or asks for what is not a number |
| AcceptLaws.HighestIff | dspace/modules/swordv2/src/main/java/org/dspace/sword2/DSpaceSwordAPI.java:131-171 | the highest number any part asks for, or zero |
| AcceptLaws.BucketsOf | dspace/modules/swordv2/src/main/java/org/dspace/sword2/DSpaceSwordAPI.java:104-227 | from the text of the header: each bucket holds the labels of exactly the parts that belong to it, in the order of the header, at the number asked for if it is positive and otherwise in the gap above the highest number by position |
| AcceptLaws.QualityBucket | dspace/modules/swordv2/src/main/java/org/dspace/sword2/DSpaceSwordAPI.java:138-148 | `type;q=v` is in the bucket of v under its type |
| AcceptLaws.GapBucket | dspace/modules/swordv2/src/main/java/org/dspace/sword2/DSpaceSwordAPI.java:149-153 | `type;params` and a plain type are in the gap, by position, under all of their text |

## Left out

- REST resources, controllers, OAuth, the SWORD endpoint, logging, mail and statistics: input and output only.
- SQL text and the context's object cache: tables are values, and cached objects are taken to be up to date.
- `Group.find` returning nothing for the id of a deleted group, and exceptions caught inside `isAuthorized`, which then answers true.
- Metadata policies without a value extractor, and index fields of the same name filled by other plugins.
- The Solr query syntax: queries are the boolean structure they express, and an empty disjunction matches nothing.
- Solr's text analysis, highlighting of hits, spell check and "more like this"; `cleanIndex`, whose extent depends on a server default.
- Single deletions and additions of one document interleaved between indexing threads: a visit to an item is one step.
- An empty facet separator, for which `split` falls apart into characters, and the case mapping of `toLowerCase`, which is a parameter.
- `FacetRoundTrip.EncodedIff`: what comes back on its own is said for a lower case with as many separators in it as the value, and in `FacetRoundTrip.PlainIff` for one with its empty parts in the same places, as lower case has unless the separator holds capital letters; `FacetExact.RoundTripIff` and `FacetExact.PlainRoundTripIff` are for all strings.
- `FacetRoundTrip.PlainIff`: as said of `FacetRoundTrip.EncodedIff`.
- `PolicyRuns.SoundAfterEveryRunIff`: the group tables are taken to stay the same over the run of indexings.
- `FacetCodec.TransformDisplayedValue`: the names of communities and collections are looked up by a function given from outside, as in `TransformSortValue`.
- Handlebars options `stringParams` and `trackIds`, alias lines, depth tracking, and the text of the templates behind each code constructor.
- `HandlebarsContext.CompileTemplate`: code is kept as constructors and not as text, bodies leave out the variables they declare, which are the same for programs that look alike (`HandlebarsSharing.DeclaredAlike`), and the table has no gaps between its indices.
- `HighlightReading.ReadBackIff`: the reader knows the three character references that are written, and names without spaces, slashes, quotes and the like.
- `MarkedParser.Parser.Parse`: streams that are not well nested, on which the original throws or writes `undefined`; the block lexer produces none.
- The parser of Handlebars and the inline lexer and renderer functions of marked for single blocks: given from outside.
- The regular expressions of marked, as matchers; the table and code rules are not looked into.
- Language highlighting in highlight.js before the merge; attribute names are written as they are.
- `EmbargoPolicies.PolicyTable.GenerateAutomaticPolicies`: with duplicate rows for a group and action only the preservation of other rows is stated, since which duplicate is changed is up to the database.
- `ResourcePolicy`, `BitstreamInfoDAO`, `ChecksumHistoryDAO` and the class of constants are not part of this model beyond the fields used.
- Digits other than ASCII in `Integer.parseInt`, and lookups of the ids and handles found in SWORD URLs.
- Floating-point rounding, infinities and NaN in the Accept ranking: qualities are exact reals.
- `getAllowedItems` of `SwordAuthenticator`, whose on-behalf-of branch mixes two contexts, and the paging of bitstreams.
- Loading, events and last-modified updates of groups beyond the member lists.
