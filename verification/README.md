# TrackID core: a verified model

This project models the parts of TrackID where a wrong answer would be hard to see, and proves what they
promise: the cluster engine (`cluster/`), the half-precision vector shards and the calibration count
(`bulk/`), exactly-once template matching (`biometricmatch/`), the evidence paths of the case page
(`cases/trace_links.go`), and the article body normaliser (`articles/body.go`).

Code that changes things step by step is modelled by classes and methods with loops; each is proved against
a specification stated as functions and predicates on values, and the results below are lemmas about that
specification. Most proofs pass snapshots of the heap as values, so that the lemmas are about data.
What the main methods compute is stated a second time, over the data alone and without the functions that
specify them: a plan over edges and byte order (`Reconcile.PlannedByFirsts`), what outlives a run over confirmed
pairs (`Clusters.FirstsStay`), a round over its entries (`Decision.Ruled`), a run's rows over the matcher's
answers (`Templates.RowsFromScores`), an identity over the fields of records (`IdentityGroups.ChainJoins`), a
body over the document given (`Body.TakesDoc`, `SaysSame`), a matrix file over its bytes (`Matrix.AllStored`).

| file | what it holds |
|---|---|
| `Reach` | walks and reachability in undirected graphs |
| `DepthFirst`, `Connectivity`, `Structure` | the bridge and cut-vertex search: what every step keeps, the graph theorems, the code |
| `UnionFind` | union-find with path compression, for `reconcile` and `identityGroups` |
| `Order`, `Options` | byte order of strings, sorting; a value that may be missing |
| `Reconcile`, `Clusters`, `History` | one layer's plan, the cluster tables and what a run writes, all sequences of runs |
| `Mentions`, `Chains` | following a retired cluster through the merge log; runs that leave a long chain, and a split cluster |
| `Decision`, `ConfirmedPairs`, `Cases` | a pair's decision chain, the confirmed pairs, the case page's reading of a chain, evidence paths |
| `EditDistance`, `IdentityGroups` | spelling variants; records sorted into identities |
| `Half`, `Matrix`, `Shards` | binary16 conversion, `.npy` matrices, the two-file shard protocol |
| `Impostors` | the impostor-comparison formula and the histograms |
| `Pairing`, `Templates` | one matching run, and all runs over a template table |
| `MentionKeys`, `Body`, `BodyLaws` | mention keys, the normaliser, what a canonical body is |

## How it is modelled

- Go map iteration is a free choice (`:|`), so every result holds for any order.
- Database tables are fields holding maps, sets and sequences; a transaction is one method whose contract
  says what the tables become. The tables' own constraints are invariants: the model's statements may only
  be called when the constraint they could break holds, and that is proved at each call. In particular
  `cluster_members` refers to `clusters` by a plain foreign key (db/migrations/008_clusters.sql:34-36), so
  deleting a cluster that still has members would be refused, not cascaded; `apply` is proved never to ask
  for it. Ids come from a sequence, which may skip numbers but never goes back. Each statement that writes
  the cluster tables is also kept in a log (`Db.writes`), so "writes nothing" says that no statement ran.
- Feature ids are strings in byte order. Dates, scores as floating point in the cluster engine, usernames
  and notes play no part in what is proved and are left out.
- A missing text field is `""`; an unset status is the constructor `UNSET`, where the code has `""`.
- One Go function is sometimes several methods here (the phases of `reconcile`, `identityGroups`, `apply`,
  the innermost part of the depth-first search); each has its own contract. `unionFind`'s map and
  `identityGroups`' slice of parents are one class, with the slice's identity entries made on first use.
- `structure` is called with pairs whose `Bridge` is still false and whose edges join members, as
  `GetDetail` builds them (cluster/detail.go:224-299); the model requires exactly that.
- Bit patterns are numbers: shifts and masks are divisions and remainders by powers of two, and an OR of
  fields that do not overlap is a sum. Values of floats are whole multiples of 2^-149.
- Each step of the file system (listing the directory, looking a file up, reading, creating, writing,
  renaming), given in advance as any sequence of events, works, returns an error, or stops the process
  there. A rename is one step. A stop just after a rename is the stop at the next step. The order in which a
  directory's entries come is given too, and may be any.
- The template matcher answers by any function from a probe and a batch of candidates to scores, or an
  error, and keeps a log of the calls made to it; what a run compared is read off that log.
- A matching run reads and scores first and writes afterwards; between the two, extraction may store and
  replace templates in any way, given as any list of such steps. Runs themselves exclude each other by an
  advisory lock (fingerprint/tasks.go:312).

## Results worth knowing

- **A lone REVIEWER.** The rules of a round are stated for a REVIEWER who follows a VERIFICATOR
  (cluster/decision.go:144-152). When a round holds a REVIEWER's decision without a VERIFICATOR's or an
  INCONSISTENCE, the code lets the SYSTEM decision settle that round. `LoneReviewerExample` gives a chain
  that people confirmed and that stops being reviewed when the matcher adds a POSITIVE;
  `UnmovedExactly` says for which human entries this cannot happen: if and only if the pair is not
  reviewed by them or no round after the deciding one is such a lone round.
- **Long merge chains.** `followMerges` is bounded by 32 hops. Whatever ids are asked together, an id's
  result is a live cluster if and only if its chain is at most 32 merges long, or 33 long and its last
  merge is among the first 32 of another id's chain (`Mentions.FollowMerges`, `Reachable`). Runs do leave
  such chains: `Chains.GrowChain` makes features arrive one run at a time and then links the last with one
  more before it each run, and the log it leaves is a chain of n merges. The newest of 33 clusters merged
  so, asked alone, ends at a retired id (`StopsShort`), asked together with the next it does not
  (`ReachesTogether`), and beyond 33 no list of ids helps (`NeverReaches`). The log has no cycle, so the
  bound is never needed for termination.
- **Where the members are now.** articles/mentions.go:175-176 speaks of the cluster a removed one's members
  are in now. The log says where the cluster went, not its members: after a merge and a later run without
  the edge, a member is in a new cluster while the chain still ends at the old keeper (`Chains.RunSplits`,
  `SplitAgain`). A feature is in the cluster the chain ends at if and only if the last run's edges link it
  to that cluster's anchor (`Mentions.FollowedHolds`).
- **What a matcher can change.** However SYSTEM rows are added, removed or changed, the REVIEWED layer has
  the same edges, if and only if no pair that people confirmed has a later round with a lone REVIEWER
  (`ConfirmedPairs.ReviewedEdgesExactly`).
- **A template replaced during a run.** The considered templates are marked matched by id, although
  extraction may have replaced one since it was read. Then its present content counts as compared and is
  not. Every pair of matched templates is compared in its present contents after a run, if it was before,
  if and only if no considered template with a known feature was replaced meanwhile while another one is
  matched (`Templates.CompleteExactly`, `MissedExample`). New templates and new contents of templates
  matched before do no harm (`ArrivalsHarmless`). That no content is compared twice holds regardless.
- **A shard that cannot be looked up.** `ShardIDs` passes over a shard when the lookup of its vectors file
  returns an error, whatever the error, though it reports one when a read fails. Then it lists exactly what
  complete shards hold if and only if every id of a shard whose lookup failed is in another one that was
  read (`Shards.ListsAllExactly`), and `FillShards` may write and count ids again that were held.
  `HeldYetUnlisted` gives one complete shard and one failing step for which the listing succeeds, empty.
- **What binds an identity.** NAME_BIRTH is documented as "only name and birth date" and the basis given
  as the strongest that applies. The code gives that label whenever a name joined some record to another
  person row, even when person rows and fiscal numbers link all the records anyway (`BoundYetNamed`). A
  name alone holds an identity together if and only if some record in it was joined by name to one that
  rows and numbers do not link it to (`ByNameExactly`); the label says so wrongly if and only if there are
  several person rows and some such join but none that was needed (`LabelledYetBound`).
- **Different fiscal numbers.** Two records with different fiscal numbers can be one identity, through a
  third that shares a name with one and a person row with the other (`TwoNumbersJoined`). They never are
  if and only if each record can be given one number, its own where it has one, such that any two records
  joined directly have the same (`NumbersApartExactly`).
- **Not-a-number payloads.** Reading a stored value and storing it again gives the same bits if and only
  if it is not a not-a-number with a payload other than the one the conversion writes
  (`Half.ReadThenStored`); what was stored by the conversion itself always comes back (`Half.StoredTwice`).
- **Names.** Being a spelling variant is not transitive: what is within m edits and within n edits of one
  name are within the limit of each other, for all names, if and only if m + n is no more than the limit
  (`EditDistance.VariantsOfVariants`).
- **Filling shards.** A successful fill holds every wanted id even when the list of wanted ids repeats some.

## Model

| member | source | states |
|---|---|---|
| Structure.Structure | cluster/detail.go:310-371 | For every graph of edge pairs, exactly the pairs whose removal leaves their two features unconnected are marked bridges, exactly the members whose removal disconnects two connected others are cut vertices, degrees count the edges at a member, and the count is the number of connected components; nothing else of the pairs changes |
| Structure.Search.Dfs | cluster/detail.go:332-357 | A search from any reachable state completes the vertex's subtree and keeps the search invariant: times nest, no edge joins two unrelated vertices, low is right, and the bridge and cut flags are exact so far |
| Structure.Search.Settle | cluster/detail.go:346-352 | What a vertex learns from a finished child, as one new state of all the arrays |
| Structure.Search.SearchAll | cluster/detail.go:358-364 | Searching from every vertex not reached yet leaves all reached, with one root a component, the component's first member |
| Structure.Adjacencies | cluster/detail.go:311-324 | The adjacency lists join exactly the ends of the edge pairs, from both sides, and their lengths are the degrees |
| Structure.Handshake | cluster/detail.go:316-324 | The degrees sum to twice the number of edges |
| DepthFirst.ReachedKeeps | cluster/detail.go:333-334 | Reaching a vertex keeps the search invariant |
| DepthFirst.SearchingBack | cluster/detail.go:340-343 | Meeting a reached vertex keeps what is known of the edges followed so far |
| DepthFirst.SearchingChild | cluster/detail.go:344-352 | Returning from a child keeps it too, and brings the vertex exactly one more child |
| DepthFirst.SettledKeeps | cluster/detail.go:346-352 | Settling a finished child keeps the search invariant, bridge and cut flags included |
| DepthFirst.SearchingEnds | cluster/detail.go:354-356 | A root is a cut vertex exactly when it has two children in the search forest |
| Connectivity.BridgeExactly | cluster/detail.go:347-349 | In a finished search a pair is flagged if and only if its ends are not linked without it |
| Connectivity.CutExactly | cluster/detail.go:350-356 | In a finished search a vertex is flagged if and only if two others are linked but not without it |
| Connectivity.ComponentsExactly | cluster/detail.go:358-364 | The roots of the search are the smallest vertices of the components, one each |
| UnionFind.UnionFind.Find | cluster/reconcile.go:48-56 | Finding returns the root and changes no element's root, whatever links it shortens |
| UnionFind.UnionFind.Union | cluster/reconcile.go:58-63 | Uniting moves one whole class under the other's root and no other element |
| UnionFind.UnionLinks | cluster/reconcile.go:58-63 | When the classes are the components of a graph, after a union they are those of the graph with one more edge |
| Reconcile.Reconcile | cluster/reconcile.go:76-189 | In any map order, the plan is one for its input. Over edges and byte order alone: a cluster is kept if and only if its first member is chained by edges to the first member of no older one, and then it keeps, in byte order, exactly what is chained to that member; what is chained to no cluster's first member is in the new clusters; and the merges, by rising source, take each other cluster into the oldest one its first member is chained to |
| Reconcile.PlanByFirsts | cluster/reconcile.go:72-75 | Every plan says just that, whoever made it |
| Order.LeIsByteOrder | cluster/reconcile.go:112 | Strings compare as Go compares them: a prefix comes first, and otherwise the smaller character at the first place where they differ |
| Order.SmallestFirst | cluster/reconcile.go:105-116 | The anchor found is the one member that comes before all others in byte order |
| Reconcile.Unite | cluster/reconcile.go:100-103 | After all unions two features have one root exactly when a chain of edges links them |
| Reconcile.Keepers | cluster/reconcile.go:133-148 | A class keeps the smallest cluster id whose anchor is in it, or none |
| Reconcile.MergeList | cluster/reconcile.go:166-184 | The merges are exactly the other clusters anchored in a kept class, into its keeper, by rising source |
| Reconcile.PlanPartitions | cluster/reconcile.go:150-188 | Every known feature is in exactly one group of the plan, and two share a group if and only if a chain of edges links them |
| Reconcile.PlanUnique | cluster/reconcile.go:76-189 | Two plans for one input have the same kept groups and merges and the same new clusters up to order: iteration order affects nothing else |
| Reconcile.OldestClaim | cluster/reconcile.go:139-146 | A component some cluster's anchor is in has an oldest such cluster |
| Reconcile.KeeperShared | cluster/reconcile.go:72-75 | The keeper's own anchor is in the component it keeps, and it keeps it from there too |
| Clusters.LoadClusters | cluster/cluster.go:178-202 | The clusters loaded are the layer's, each with its member rows once |
| Clusters.EdgesFor | cluster/cluster.go:163-176 | The layer's edges: all confirmed pairs, or the reviewed ones, in order |
| Clusters.Tables.MoveMember | cluster/cluster.go:234-247 | A feature already in its final cluster is not written; another loses its old row, if it has one, and gains the new one |
| Clusters.Tables.MoveMembers | cluster/cluster.go:234-247 | Each feature of the plan ends in its final cluster; the rows written are exactly those of the features whose cluster differs, each once; the other layer is left alone |
| Clusters.Tables.DeleteRetired | cluster/cluster.go:249-256 | Exactly the clusters the plan does not keep are deleted, one statement each, none while a member row refers to it |
| Clusters.Apply | cluster/cluster.go:205-270 | The tables become the plan: membership is exactly its groups, retired clusters are gone, new ones have fresh ids, merges are appended, the other layer is as it was; and the statements that ran are exactly those of the new clusters, the features that move, the clusters retired and the merges, in that order |
| Clusters.RunLayer | cluster/cluster.go:94-104 | One layer is loaded, reconciled and rewritten, and the schema's constraints hold again |
| Clusters.Run | cluster/cluster.go:74-112 | A run rewrites the AUTOMATIC layer and then the REVIEWED one from the same features and pairs. In each layer a cluster outlives the run if and only if its first member in byte order is chained, by confirmed pairs or by reviewed ones, to the first member of no older cluster; and then it holds that member and exactly the clustered features chained to it |
| Clusters.LayerFirstsStay | cluster/reconcile.go:72-75 | The same of any run of one layer, over the tables before and after it |
| Clusters.EdgeOfPair | cluster/cluster.go:163-176 | A layer's edges are those of the confirmed pairs, for the REVIEWED layer of the reviewed ones only |
| History.LayerRunSound | cluster/cluster.go:205-270 | A layer's run keeps: no cluster empty, the merge log falling and each source once, every id ever created either live or retired by one merge |
| History.HistorySound | cluster/cluster.go:74-112 | All of that holds after any sequence of layer runs from empty tables |
| History.HistoryIntoLive | cluster/reconcile.go:166-184 | At every point of every history no merge leads into an id that an earlier one retired |
| History.LiveOrMergedOnce | cluster/cluster.go:249-267 | In every history each id created is, at every later point, live and never a merge source, or not live and the source of exactly one merge |
| History.LayerMembers | cluster/cluster.go:223-256 | After a layer's run exactly the known features are members, and two share a cluster if and only if edges link them |
| History.ReviewedInsideAutomatic | cluster/cluster.go:163-176 | After a complete run two features that share a REVIEWED cluster share an AUTOMATIC one |
| History.CoveredStays | db/migrations/008_clusters.sql:16-17 | Every feature of a REVIEWED cluster stays in an AUTOMATIC one, run after run |
| History.SettledRunIdle | cluster/reconcile.go:150-188 | On a settled layer the plan creates nothing, merges nothing and keeps every cluster, and applying it runs no writing statement and changes no table, nor the next id |
| History.SecondRunIdle | cluster/cluster.go:74-112 | A second complete run on the same features and decisions writes nothing: no statement, no change, no id spent |
| Mentions.ChainEndsLive | cluster/reconcile.go:166-184 | In sound tables the chain of merges from any id ever created ends in a live cluster |
| Mentions.AfterFalls | cluster/reconcile.go:139-146 | Ids fall strictly along a chain of merges, so the log has no cycle |
| Mentions.Hop | articles/mentions.go:181-198 | One round of lookups adds exactly the merges out of the frontier, and no merge known leads to one missed |
| Mentions.FollowMerges | articles/mentions.go:178-213 | Exactly the ids with a merge have a result, and for any list of ids it is live if and only if the id's chain is at most 32 merges long, or 33 long with its last merge among the first 32 of another id's chain; the same is said of each walk along rows of the merge log, with those numbers |
| Mentions.SearchEnds | articles/mentions.go:181-211 | The search ends where the rows of the log lead from the id, if and only if at most 32 rows lead there, or 33 of which the last is out of an id that fewer than 32 rows lead to from an asked one |
| Mentions.FollowedHolds | articles/mentions.go:175-176 | After any history whose last step rewrote the layer, a feature is in the live cluster a retired one's chain ends at if and only if that run's edges link it to the cluster's anchor |
| Chains.GrowChain | cluster/cluster.go:74-112 | For every n, complete runs from empty tables leave a log in which n clusters were merged one after the other into the one created before |
| Chains.RunGrows | cluster/cluster.go:74-112 | On such a line of clusters a run with one more feature and no edges adds one cluster, newer than all |
| Chains.RunJoins | cluster/cluster.go:74-112 | A run whose edges link the last cluster's features with the one before merges the last into that one and changes nothing else of the line |
| Chains.ChainAfter | articles/mentions.go:178-196 | In that log k merges lead from each cluster to the one created k before it |
| Chains.StopsShort | articles/mentions.go:181-211 | Asked alone, the newest of 34 clusters of such a log, 33 of them merged, ends at a retired id |
| Chains.ReachesTogether | articles/mentions.go:181-211 | Asked together with the cluster it was merged into, it ends at the live one |
| Chains.NeverReaches | articles/mentions.go:181-211 | In a longer one no list of ids makes the newest end at the live one |
| Chains.RunSplits | articles/mentions.go:175-176 | Two features' clusters were merged; a run without the edge puts the second feature in a new cluster, while the log still leads from its old one to the first's |
| Chains.SplitAgain | cluster/cluster.go:74-112 | Such runs happen: complete runs from empty tables end there |
| Decision.DeriveRoundBy | cluster/decision.go:161-196 | A round's status and who settled it, over its entries: the last INCONSISTENCE decides, INCONCLUSIVE meaning DISPUTED; without one the last VERIFICATOR and the last REVIEWER give CONFIRMED, REJECTED or PENDING_REVIEW if and only if both calls are POSITIVE, NEGATIVE or INCONCLUSIVE and their levels are equal, and DISPUTED if and only if a call or level differs; a VERIFICATOR alone is pending; without one the last SYSTEM entry decides; and a round with none of these has no status |
| Decision.RoundRules | cluster/decision.go:144-152 | Of any round of any chain these rules name one outcome, over the entries that count in it, SYSTEM ones in every round, and the derived outcome is that one |
| Decision.DecidingRoundBy | cluster/decision.go:71-140 | The deciding round is the latest settled one, or the latest when none is settled, also with rounds and settling read off the entries; the status and who settled it are what the rules say of that round's entries; no round only for an empty chain |
| Decision.DecidingUnique | cluster/decision.go:71-101 | That condition names at most one round, so no order of entries matters to it |
| Decision.DecidingIs | cluster/decision.go:71-101 | The deciding round is the latest in which the rules confirm or reject, or the latest with an entry when they do so in none |
| Decision.IsReviewed | cluster/decision.go:118-121 | The code says reviewed exactly when the deciding round is confirmed and not by SYSTEM, which is when, in some round after which none is settled, the last INCONSISTENCE is POSITIVE, or there is none and the last VERIFICATOR and REVIEWER are both POSITIVE at one level |
| Decision.ReviewedIs | cluster/decision.go:111-117 | That second form is the first, for every chain |
| Decision.PeopleConfirmIs | cluster/decision.go:180-196 | A round is confirmed otherwise than by SYSTEM if and only if those entries confirm it |
| Decision.UnsettledRoundsIgnored | cluster/decision.go:71-79 | New rounds that end pending, disputed or inconclusive never change the status of a pair that is settled, nor its deciding round |
| Decision.ReviewedByPeople | cluster/decision.go:161-196 | Whatever SYSTEM entries a chain holds and wherever, it is reviewed if and only if its human entries alone are and no lone REVIEWER of a later round lets a deciding SYSTEM entry settle that round |
| Decision.UnmovedExactly | cluster/decision.go:192-195 | For which human entries no SYSTEM entry can change the result: if and only if they are not reviewed or no lone round comes after |
| Decision.LoneExactly | cluster/decision.go:192-195 | A lone round is one with a REVIEWER's entry and no VERIFICATOR's or INCONSISTENCE; the SYSTEM settles when its last entry is not INCONCLUSIVE |
| Decision.MachineCannotReview | cluster/decision.go:111-117 | Adding, removing or changing SYSTEM entries of a well-formed chain never changes whether it is reviewed, nor by which round |
| Decision.LoneReviewerExample | cluster/decision.go:192-195 | A chain that people confirmed, with a lone REVIEWER later, stops being reviewed when a SYSTEM POSITIVE is added |
| Decision.RoundConclusion | cluster/decision.go:343-357 | A comparison's level: its first INCONSISTENCE's, without one its last REVIEWER's, and otherwise none |
| Decision.ReviewedLink | cluster/decision.go:294-339 | Exactly for reviewed pairs, the link's basis, level and identification follow from the analysis type the deciding round's last human entry gives; a level identifies when it is strong support, or support and the minimum is not strong support; the later laudo shown is the latest comparison after that round, as its people left it: disputed, both inconclusive, or pending |
| Decision.LinkIsShown | cluster/decision.go:294-339 | That description over the entries follows from the derived one |
| Decision.AtLeastExactly | cluster/conclusion.go:68-71 | Which levels count as identification, case by case |
| Decision.MachineCannotRelink | cluster/decision.go:294-339 | For well-formed chains no change of SYSTEM entries changes the link of a reviewed pair |
| ConfirmedPairs.LoadConfirmedPairs | cluster/decision.go:221-258 | The pairs listed are exactly those whose chain is confirmed, each once, in the order they first appear in the log. Row by row: the chain is the entries of the log's rows with those two ids in that order, the modality is the first such row's, and the mark is whether people confirm in some round after which none is settled |
| ConfirmedPairs.PairStatedIs | cluster/decision.go:221-258 | What a listed pair says is what its rows, picked from the log, say |
| ConfirmedPairs.SameReviewedExactly | cluster/decision.go:161-196 | All logs with the same human rows agree on which pairs people reviewed, if and only if no pair that people confirmed has a later lone REVIEWER |
| ConfirmedPairs.ReviewedEdgesExactly | biometricmatch/match.go:73-106 | All of them give the REVIEWED layer the same edges under that same condition, and only then |
| ConfirmedPairs.SameReviewedEdges | cluster/cluster.go:163-176 | Logs that agree on the reviewed pairs give the REVIEWED layer the same edges |
| ConfirmedPairs.MachineCannotRegroup | cluster/cluster.go:163-176 | Under that condition, whatever SYSTEM rows a matcher adds, removes or changes, the REVIEWED layer's plan keeps, merges and creates the same groups |
| Cases.IdentityStatus | cases/identity_decisions.go:171-193 | The case page says CONFIRMED of a pair exactly when its chain is reviewed; and in every case what the entries of the deciding round call for: an INCONSISTENCE's call, or what VERIFICATOR and REVIEWER agree on, or that they dispute, and otherwise pending, leaving out a pair the SYSTEM alone rejected |
| Cases.RoundSaysIt | cases/identity_decisions.go:178-193 | The same of any round and its outcome |
| Cases.DecisiveEntry | cases/trace_links.go:357-395 | The row shown is the last of the highest role present, INCONSISTENCE before REVIEWER before VERIFICATOR before SYSTEM, with its user, or for SYSTEM its source, and with the last SYSTEM row's score whoever settled it |
| Cases.DecisiveExactly | cases/trace_links.go:350-356 | The decisive row's role is the one that settled the round if and only if the round is not a lone REVIEWER's |
| Cases.DecisiveSettles | cases/trace_links.go:330-342 | For every reviewed pair the case page names who settled it, an INCONSISTENCE or a REVIEWER |
| Cases.ShortestPaths | cases/trace_links.go:288-315 | Exactly the features some source leads to are reached, each by a path that starts at a source and follows edges to it; no path from any source is shorter, and among those as short it is the first, with the sources in order and each node's neighbours in edges order |
| EditDistance.EditDistance | cluster/conflicts.go:810-830 | The one-row computation gives the distance its two-dimensional recurrence defines |
| EditDistance.LevIsFewest | cluster/conflicts.go:809-830 | The distance is the least number of single-rune insertions, deletions and replacements from one string to the other |
| EditDistance.LevSymmetric | cluster/conflicts.go:809-830 | The distance is symmetric |
| EditDistance.LevZero | cluster/conflicts.go:809-830 | It is zero exactly for equal strings |
| EditDistance.Triangle | cluster/conflicts.go:809-830 | It satisfies the triangle inequality |
| EditDistance.SameName | cluster/conflicts.go:787-793 | Two names are one exactly when at most two edits lead from one folded name to the other |
| EditDistance.VariantsOfVariants | cluster/conflicts.go:486-500 | Being within m edits and then within n edits always gives being within the limit if and only if m + n does not exceed it; so variants of one name need not be variants of each other |
| IdentityGroups.IdentityGroups | cluster/conflicts.go:514-602 | In any map order, two records are in one group if and only if a chain links them in which neighbours share the person row, or a fiscal number, or have one name and one known birth date, of which no two records have different fiscal numbers. A group is labelled PERSON if and only if it has one person row; NAME_BIRTH if and only if it has several and some record without a number is joined so to one of another person row, the last of its name and birth date with a number or else the first, whether or not rows and numbers link the two as well; and FISCAL otherwise. A group labelled PERSON or FISCAL is linked without any name |
| IdentityGroups.IdentityExactly | cluster/conflicts.go:509-513 | The identities that the other results speak of are those chains, field by field |
| IdentityGroups.LabelExactly | cluster/conflicts.go:588-601 | And their labels are those |
| IdentityGroups.AnchorIsJoined | cluster/conflicts.go:562-575 | The record the others of a name join is the last with a fiscal number, or the first when none has one |
| IdentityGroups.ByNameExactly | cluster/conflicts.go:114-116 | A name alone holds an identity together if and only if some record in it was joined by name to an anchor that shared rows and numbers do not link it to; such an identity is labelled NAME_BIRTH |
| IdentityGroups.LabelledYetBound | cluster/conflicts.go:114-116 | NAME_BIRTH is given to an identity that rows and numbers hold together if and only if it has several person rows, some record joined by name to another of them, and no record that needed it |
| IdentityGroups.BoundYetNamed | cluster/conflicts.go:114-116 | Three records that shared rows and numbers link are labelled NAME_BIRTH |
| IdentityGroups.NumbersApartExactly | cluster/conflicts.go:511-513 | Records with different fiscal numbers are never one identity, if and only if the records can be numbered, keeping the numbers there are, so that any two joined directly have the same number |
| IdentityGroups.TwoNumbersJoined | cluster/conflicts.go:511-513 | Three records of which two with different fiscal numbers are one identity |
| IdentityGroups.UnionsAreEvidence | cluster/conflicts.go:550-575 | Uniting each name's records with one anchor links exactly what joining all pairs of its records would |
| IdentityGroups.JoinShared | cluster/conflicts.go:528-543 | Uniting each record with the first of its person row and fiscal number links all records that share one |
| IdentityGroups.JoinByName | cluster/conflicts.go:551-575 | Classes with two fiscal numbers contribute nothing; in the others each record without a number joins the anchor; the records that name alone ties to another person row are marked |
| IdentityGroups.BoundWithoutNames | cluster/conflicts.go:588-601 | What a PERSON or FISCAL label means: any two records of the group are linked by shared rows and numbers only |
| Half.StoresNearest | bulk/npy.go:303-336 | Storing keeps the sign, gives every finite value the nearest binary16 of all with ties to even (IEEE 754-2019, section 4.3.1), and keeps infinities and not-a-numbers |
| Half.OverflowExactly | bulk/npy.go:301-302 | A finite value becomes infinite if and only if it is 65520 or more |
| Half.ErrorBound | bulk/npy.go:301-302 | Below that, and so for all components of unit vectors, the error is at most 2^-11 of the value or at most 2^-25 |
| Half.HalfToFloat32 | bulk/npy.go:338-358 | The normalising loop gives the float32 with the leading one moved to the hidden bit |
| Half.WidensExactly | bulk/npy.go:338-358 | Reading keeps sign and value exactly, subnormals included, and keeps infinities and not-a-numbers |
| Half.ReadThenStored | bulk/npy.go:303-358 | Storing what was read gives the bits back, if and only if they are not a not-a-number with another payload |
| Half.StoredTwice | bulk/npy.go:303-358 | Storing the values read back changes nothing, whatever was stored first |
| Matrix.WriteMatrix | bulk/npy.go:186-217 | The file has the type and shape asked for and is as long as its values; value j of row i is stored at its place, (i times columns plus j) times the value's size, as two or four bytes with the lowest first; a row of another length is an error naming the first such row |
| Matrix.ReadMatrix | bulk/npy.go:264-299 | A file of another shape or type is refused; otherwise each value is what the bytes at its place mean, lowest first, or the error names the first row the file is too short for |
| Matrix.WrittenStored | bulk/npy.go:205-209 | The bytes a written matrix has, value by value |
| Matrix.RowsMeant | bulk/npy.go:282-297 | The values rows read have, byte by byte, and when there are too few |
| Matrix.MatrixBack | bulk/npy.go:186-299 | Reading a written matrix gives the same shape, and each entry is the value itself or, for float16, the nearest binary16 with the same sign, infinite only from 65520 on |
| Matrix.WrittenAgain | bulk/npy.go:186-299 | Writing the rows read back writes the same bytes |
| Shards.WriteFileAtomic | bulk/npy.go:139-162 | When every step works the file is there whole under its name; with an error or a crash at any step the directory's files are as before, and an error leaves no temporary file |
| Shards.ShardWriter.constructor | bulk/shards.go:86-91 | A writer of a fresh run starts empty, with 2^20 rows a shard when none are given |
| Shards.ShardWriter.Add | bulk/shards.go:94-103 | The rows of the shards written followed by the buffer are exactly the embeddings added, in order; an error keeps the buffer; a crash leaves the directory sound; and it fails only on a step's error or a vector of another length |
| Shards.ShardWriter.Flush | bulk/shards.go:119-134 | Vectors first, ids last: success empties the buffer into one more complete shard, an error keeps it and spends a number, and at every step each ids file has its vectors beside it |
| Shards.HeldHasVector | bulk/shards.go:19-28 | Every id a complete shard holds has, at its own row, the binary16 form of a vector that was added under that id |
| Shards.ReadEntry | bulk/shards.go:143-154 | One entry, step by step: only an ids file takes steps; a lookup that returns an error or finds no vectors passes it over after that one step; otherwise it is read and gives its ids, and a read that returns an error fails |
| Shards.ShardIDs | bulk/shards.go:137-161 | In any order of the directory and whatever each step does, the ids listed are exactly those of the complete shards but the ones whose lookup step returned an error; it succeeds if and only if the directory is read and no entry stops it, and otherwise stops at the first step that does, a failed lookup not being one; what is listed is held always, and when every step worked all that is held is listed |
| Shards.ListsAllExactly | bulk/shards.go:148-150 | What is listed is held always, and all that is held is listed if and only if each id of a shard whose lookup failed is also in one that was read |
| Shards.HeldYetUnlisted | bulk/shards.go:148-150 | A complete shard, as a writer leaves it, and one failing lookup: the listing succeeds, empty, and the shard's id counts as missing though it is held |
| Shards.FillShards | bulk/shards.go:165-202 | A successful fill leaves every wanted id held and counts the wanted ids in no complete shard but those whose lookup failed, which are those not held when every step works; it succeeds when no step fails and each wanted id is there once with a vector of the right length; whatever happens, the directory is sound and what it held is unchanged |
| Shards.LackingAtMost | bulk/shards.go:171-176 | That count is at least the number of wanted ids not held, and equal to it if and only if no wanted id is only in shards whose lookup failed |
| Impostors.GroupSumIsPairs | bulk/calibrate.go:117-120 | The sum of n(n-1)/2 over the groups of a column is the number of pairs of rows that agree on it, rows with a null in no pair |
| Impostors.FormulaCountsDifferent | bulk/calibrate.go:111-123 | The four-term formula equals the number of unordered pairs of faces classified DIFFERENT, which are those of two documents with different keys that begin alike up to the first colon |
| Impostors.KindExactly | bulk/identity.go:83 | A key's kind is the text before its first colon, or the whole key without one |
| Impostors.RelateExactly | bulk/identity.go:81-84 | SAME, DIFFERENT and UNKNOWN over documents, keys and those texts |
| Impostors.SetAsideExactly | bulk/calibrate.go:81-91 | A label loses its key exactly when more labels carry it than the limit, 100 when none is given |
| Impostors.CountedKeysAreSmall | bulk/calibrate.go:89-91 | No pair counted uses a key that more faces than the limit share |
| Impostors.Histogram | bulk/calibrate.go:193-210 | Each row's count goes to its bin, clamped: the counts from any bin but the first up add to those of the rows given at or above it, and all of them to those of all rows |
| Impostors.Above | bulk/calibrate.go:166-172 | The cumulative counts are the sums from each bin to the last |
| Pairing.ComparedOnce | biometricmatch/templates.go:107-124 | In a run no two templates are compared twice in one order or the other, and two with known features are compared if and only if one of them had not been matched |
| Pairing.RunLogCompares | biometricmatch/templates.go:126-140 | Whatever the batch boundaries and the matcher's answers, the scores of a run are those of the triangular enumeration, in order |
| Pairing.FreshExactly | biometricmatch/templates.go:140-168 | Each candidate is what some score made, every score that reaches the band between different features has its pair decided, and no pair comes twice or again |
| Pairing.RunCallsCompare | biometricmatch/templates.go:126-135 | Whatever the batch boundaries, the calls made to the matcher ask for exactly the comparisons of the triangular enumeration, in order, at most 2048 candidates and never none a call |
| Pairing.RunCallsFull | biometricmatch/templates.go:126-127 | A call followed by another of the same probe has 2048 candidates |
| Pairing.RunScores | biometricmatch/templates.go:132-140 | The scores a run decides on are the matcher's answers to its calls, in order |
| Pairing.FreshPicks | biometricmatch/templates.go:140-168 | The candidates come from those scores in order, each the first about its pair that reaches the band, with the score as confidence, the probe's modality, the ids in byte order, POSITIVE against the upper limit from it on and INCONCLUSIVE against the lower below it |
| Pairing.JudgedSays | biometricmatch/templates.go:140-168 | A score decides if and only if it is the lower limit or more, between known features of different graph ids |
| Pairing.TemplateMatcher.Match | biometricmatch/templates.go:12-18 | Each call is logged and answered |
| Pairing.ComputeTemplateCandidates | biometricmatch/templates.go:79-174 | The matcher is called for the run's batches, each once and in order, up to the first it does not answer with one score a candidate; if there is none such the run succeeds, the candidates are those the scores make, in order, and the templates considered are the unmatched ones; otherwise it fails naming that call's probe |
| Pairing.KeyInjective | biometricmatch/templates.go:155 | Two pairs of feature ids without a bar have one key only if they are one pair |
| Templates.ComparedAfresh | biometricmatch/templates.go:107-124 | No pair of template contents a run compares was compared before, in it or in an earlier run |
| Templates.CompleteExactly | biometricmatch/templates.go:37-44 | If every two matched templates with known features had been compared in their present contents before a run, they have after it, if and only if no considered one was replaced since it was read while another is matched |
| Templates.ArrivalsHarmless | biometricmatch/templates.go:43-44 | New templates, and new contents of templates not considered, never bring that about |
| Templates.MissedExample | biometricmatch/match.go:99-103 | Two templates of which the first is re-extracted while the matcher works: both end matched, and the first one's present content was never compared |
| Templates.ScoredStaysSound | biometricmatch/templates.go:37-44 | Whatever extraction does meanwhile, a recorded run leaves no content still to be matched among those compared, so none is compared again |
| Templates.CallsCompare | biometricmatch/templates.go:107-135 | What the log of the matcher's calls asks for is what the run compares |
| Templates.ComparesRight | biometricmatch/templates.go:107-124 | What a run asks for, template by template, and in which order |
| Templates.RowsAreFromScores | biometricmatch/templates.go:140-168 | The rows a run writes, from the scores it was given |
| Templates.RowsStaySound | biometricmatch/match.go:73-95 | The rows a run writes break neither the order of a pair's ids nor the one SYSTEM row a pair and threshold version, and are about pairs that had no SYSTEM row of any version |
| Templates.OneEachStays | db/migrations/011_bulk_gallery.sql:98-107 | Where there was at most one SYSTEM row a pair there still is; a pair for which another matcher has written one or several versions gets none |
| Templates.ExistingSystemPairs | biometricmatch/match.go:144-158 | The keys listed are exactly those of the SYSTEM rows |
| Templates.Store.Run | biometricmatch/templates.go:45-77 | With any re-extractions and arrivals between reading and writing, over any sequence of runs: a run that succeeds asks the matcher for each unmatched template of a known feature against every other one but the unmatched before it, by rising ids, 2048 at a time, each pair of contents once. Of the matcher's answers, each score of the lower limit or more between known features of different graph ids leaves its pair a SYSTEM row; the new rows come from such scores in order, each from the first about its pair, with that score, the probe's modality and the smaller id first, POSITIVE with the upper limit as threshold from it on, INCONCLUSIVE with the lower below it, and are about different pairs that had none. Exactly the templates read as unmatched are marked matched, and every two matched templates stay compared in their present contents if and only if none was missed by a replacement. A run fails exactly when the band is not valid or some call is not answered with one score a candidate, and then writes nothing |
| Templates.Store.RecordDecisions | biometricmatch/match.go:73-106 | One row a candidate, then every template with a considered id marked matched, whatever its content now is |
| Templates.Store.Insert | db/queries/features.sql:201-211 | A new template is to be matched, and nothing said of the others changes |
| Templates.Store.Replace | db/queries/features.sql:202-211 | A re-extracted template is a new content, to be matched again against all |
| MentionKeys.ParsedAgain | articles/articles.go:89-106 | Parsing a parsed key again changes nothing, row ids in their decimal form included |
| MentionKeys.ParseKeyExactly | articles/articles.go:89-106 | A kind and ref give a key if and only if the kind is one of the seven and the ref without white space around it is not empty, at most 200 bytes in UTF-8 and without NUL, and for the four kinds with row ids a decimal id from 1 to 2^63-1, perhaps after a plus; the key is that ref, or that id without leading zeros |
| MentionKeys.KeyExample | articles/articles.go:99-104 | An id with white space, a plus and leading zeros |
| Body.Normalizer.BlockContainer | articles/body.go:142-164 | A container comes out as the schema says, with one node counted for each node of the result, unless the schema or the limit of nodes refuses it |
| Body.Normalizer.Block | articles/body.go:166-210 | The same for a block of any kind |
| Body.Normalizer.InlineContainer | articles/body.go:213-256 | The same for a paragraph or heading |
| Body.Normalizer.CleanText | articles/body.go:259-292 | A text's marks are checked, stripped and sorted into their one order, and refused when one repeats |
| Body.SortedByKind | articles/body.go:290-291 | Sorting the cleaned marks puts bold, italic and link in that order |
| Body.ParseBody | articles/body.go:81-119 | A decoded document is accepted if and only if it is a tree the schema, written out over the document given, takes, no way in it goes more than 16 levels down, and it has at most 50,000 nodes. The result is then the same tree, node by node: the same kinds, texts and children in order; the same marks with the same addresses, bold before italic before link; the same heading level; an ordered list starting where the given one does, 1 when it does not say; and each mention's kind, its key as parsed, and its label without white space around it, or the key when that leaves none |
| Body.CanonicalSays | articles/body.go:70-80 | The same of the canonical form that the laws speak of |
| Body.LimitsExactly | articles/body.go:122-131 | Height and size are the longest way down a tree and the number of ways, so of its nodes |
| Body.MarksTaken | articles/body.go:259-292 | Which marks a text may have, and that the cleaned ones are the same |
| Body.MentionTaken | articles/body.go:327-343 | Which attributes make a mention, and what it then says |
| BodyLaws.CanonicalExactly | articles/body.go:70-80 | The accepted results are exactly the trees of the article grammar within its limits, which are exactly the trees the normaliser leaves as they are |
| BodyLaws.NormalisedAgain | articles/body.go:75-80 | Normalising again changes nothing |
| BodyLaws.SameMarks | articles/body.go:290-291 | Neither the order of the marks nor their unknown attributes change the cleaned marks |
| BodyLaws.SameCanonical | articles/body.go:75-80 | Bodies that differ only in mark order or in attributes the schema does not know have the same canonical form, or are both refused |

## Left out

- Clusters.Run: the run of the counts only (`Plan`), the advisory lock and database errors; each layer's transaction is taken as one step.
- History.HistorySound: histories start from empty tables and hold layer runs only; no other code writes these tables.
- Decision.ReviewedByPeople: analysis ids are taken as not negative; they come from a sequence.
- Decision.ReviewedLink: that `roundBasis` of the case page agrees outside facial chains is not claimed, since it does not.
- EditDistance.SameName: folding of case, accents and initials is a parameter.
- IdentityGroups.IdentityGroups: trimming and folding happen before; `SameName` grouping and the conflict lists built from the groups are left out.
- Matrix.WriteMatrix: the text of the `.npy` header and its regular expressions; the header is its type and shape. Values of the float32 file are kept as they are.
- Shards.WriteFileAtomic: the order in which a power failure, rather than a stopped process, may lose renames; the directory itself is not synced by the code.
- Shards.ShardIDs: the encoding of the ids file, and `meta.json`.
- Shards.ShardWriter.Add: the mutex; each call is one step, so concurrent calls are some sequence of them.
- Impostors.Histogram: score arithmetic; the bins arrive as numbers. The rates computed in floating point from the counts are left out.
- Templates.Store.Run: the advisory lock by which one run waits for another; `RunBand` and its approximate neighbour search for embeddings; scores are reals, not floats.
- Templates.Store.Insert: ids rise with every insert, as its sequence gives them to one writer at a time.
- Pairing.ComputeTemplateCandidates: the statistics returned with a run.
- Body.ParseBody: JSON decoding and its byte limit (a number with a fraction or beyond Go's int arrives as no number), the hash, the plain text and the mention counts; URL parsing is a parameter, and the text type holds only valid Unicode, so the UTF-8 checks cannot fail.
- The HTTP interface, accounts, object storage, queues, reports and the language-model client: plumbing with no algorithm of their own.
- `conflictPairs` and the conflict builders: grouping is first-fit over a relation that is not transitive, so nothing stronger holds than what `SameName` says.
- Threshold versions, review-load projections and listings: easy members only.
