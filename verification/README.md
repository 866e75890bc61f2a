# Verified model of metad's in-memory store

metad keeps configuration data in a tree of nodes in memory, mirrors it from a backend, and answers
clients through access rules and per-client mappings. This project models that machinery in Dafny
and proves what it keeps, over every run.

Verify everything with `dafny verify dfyconfig.toml` (Dafny 4.11).

## How it is built

Paths are sequences of components: what remains of a string such as `/a/b` once it is cleaned and
split. The root is `[]`.

* `Stores.dfy` has the mutable classes of `store/node.go`, `store/store.go` and `store/watcher.go`,
  field by field: parent pointers, children maps, watcher lists, the version, the clean channel. Its
  ghost field `tree` says what the linked nodes show, as a map from paths to cells, and `log` is the
  list of all events notified. `Store.Valid` ties them together: links in both directions agree,
  detached nodes have no children and no watchers, every live watcher was sent exactly its part of
  the log, no live watcher's channel is closed, and playing the log from nothing gives exactly the
  visible leaves. `Remove` and `Clean` call each other as the source does, and are proved to
  terminate and to compute the closed forms of `Trees.dfy`.
* `Machine.dfy` is the store as a state machine (`Apply`, `Run`). Every public method of the class
  is proved to end in `Apply(old state, operation)` and to add its operations to the ghost field
  `ops`; `Store.Valid` says that the store is in the state `Run(INIT, ops)`, so that what is proved of
  runs of the machine holds of every store.
* `Invariants.dfy`, `Refinement.dfy` and `Visibility.dfy` are the theorems about runs: the invariant
  of every reachable state, the exact results of `Remove` and `Clean`, refinement of a flat map from
  paths to strings, transparency of watches, the canonical tree, versions.
* `Interleavings.dfy` takes `Remove` one step at a time, with watchers leaving between any two steps, and
  proves it to be the removal of the state machine when none leaves.
* `Mirror.dfy` is replication as a step system with a log. `Replicas.dfy` is the loop of
  `backends/local/client.go` on two stores of class `Store`, with the source free to change and the
  target free to be watched between any two steps; `Etcd.dfy` is the loop of
  `backends/etcdv3/client.go` with string keys under a prefix, responses and revisions, again with a
  target that others watch.
* `Rules.dfy`, `Listing.dfy` and `Grants.dfy` treat access rules as values; `Access.dfy` and
  `Travellers.dfy` are the classes of `store/access.go` and `store/traveller.go`; `Metadata.dfy` is
  the part of `metadata/metarepo.go` that answers clients.
* `Accounts.dfy` says which events an operation adds to the log: one for each path at which the visible
  leaves change, and with which value.
* `Scenarios.dfy`, `Clients.dfy` and `Reports.dfy` put calls together: put and get, a replica from start
  to end; several queries of one client; what a watcher is sent.
* `Strings.dfy`, `Flatmap.dfy` and `Helpers.dfy` are `util/flatmap` and the prefix handling of
  `util/helper.go`, on strings.

Three maps of keys matter throughout. `Visible` are the leaves, which is what can be read.
`Contents` adds the non-empty values that directories hide. `FlatRun` is what a plain map would hold
after the same operations, and `Keeping` says of a run that none of its operations loses an empty
string that the plain map keeps.

Map iteration order is an arbitrary choice everywhere (`:|`), so the results hold for every order.

## Where code and intuition differ

* A value shadowed by children comes back when the last child goes, unless it is the empty string:
  an empty hidden value makes the node disappear instead (store/node.go:224-227,
  `Visibility.EmptyHiddenValueGoes`).
* An empty string is lost when it is written where only a watch holds nodes below, or when a watch is
  put below it (`Refinement.EmptyAboveWatchLost`). Nothing else is ever lost:
  `Refinement.ApplyStores` says exactly when one operation stores what a flat map would,
  `Refinement.RunStores` when a whole run does.
* A watch strictly below a stored key hides that key (`Add` turns the leaf into a directory), see
  `Visibility.WatchedBelowIsHidden`. `Visibility.WatchHides` says for one watch, and
  `Visibility.SeenThroughWatches` for any state, exactly when readers still see what is stored.
* Two readings with the same version can differ (`Visibility.SameVersionOtherReading`), because neither
  a watch nor the cleaner counts. `Visibility.EqualVersions` says exactly when they do.
* The events of a store drive another store that shows the same keys only if that one hides nothing:
  `Mirror.HiddenKeyResurfaces` and `Mirror.EditScriptExactly`.
* A mirror whose source holds nested keys can diverge (`Mirror.NestedKeysDiverge`), because the store
  deletes whole subtrees. `Mirror.MirroredExactly` says for one change exactly when the mirrored
  operation does the same as the change, and `Mirror.ConvergesExactly` that a mirror converges, in any
  overlap of snapshot and changes, exactly if all changes are of that kind.
* An etcd watch that breaks before its first response begins again at the present, and can lose changes
  (`Etcd.BrokenBeforeFirstResponse`). `Etcd.ReconnectedExactly` says exactly when that does no harm.
* With the prefix "/" the etcd snapshot leaves out the keys of the mapping only, while changes of the
  mapping and of the rules are passed over (backends/etcdv3/client.go:253, 318). So rules get into the
  store and stay there as they were, see `Etcd.DeletedRuleStays` and `Etcd.ViewExactly`.
* A rule given the mode -1 explicitly can hide what would otherwise be readable
  (`Grants.NilRuleCutsOff`). `Grants.OpenGenerally` states the rule with such dead ends,
  `Grants.OpenExactly` without them.
* `CheckAccessRules` has an error for repeated paths but never fills the map it looks in
  (store/access.go:32-44): `Access.CheckAccessRules` and `Access.RepeatedPathPasses`. Repeated paths
  therefore reach `NewAccessTree`, where the last one wins (`Rules.BuildMode`).
* `TrimPathPrefix` leaves the prefix itself whole when it is given with a trailing slash
  (`Helpers.UncleanKeyStays`).

## Model

| member | source | states |
|---|---|---|
| Stores.Node.GetChild | store/node.go:152-164 | the child found is the attached node at the longer path, and there is none exactly when the tree has no such path |
| Stores.Node.RelativePath | store/node.go:73-79 | the path from an ancestor down to this node, so that ancestor's path and result join to the node's path |
| Stores.Node.GetValue | store/node.go:237-253 | the nested value, read by path, holds exactly the visible leaves at and below the node, and no empty map inside |
| Stores.Node.InternalNotify | store/node.go:255-278 | every watcher of the node and of its ancestors is sent the event once, with the path relative to the node it watches; never on a closed channel |
| Stores.Node.Notify | store/node.go:280-282 | one event is added to the log, and still every live watcher of the store was sent exactly its part of the log |
| Stores.Node.AsDir | store/node.go:91-97 | only the node's kind changes; reported by one DELETE |
| Stores.Node.AsLeaf | store/node.go:99-105 | only the node's kind changes; reported by one UPDATE |
| Stores.Node.Write | store/node.go:113-131 | the new value is visible exactly if the node has no children, a childless directory turning into a leaf; one UPDATE with the new value if what is visible there changes, and nothing otherwise; the root is left alone |
| Stores.Node.Add | store/node.go:174-180 | the child is linked in both directions; a leaf that gets its first child becomes a directory that hides its value, reported as a DELETE |
| Stores.Node.NewDir | store/node.go:48-63 | an empty directory appears below the parent, nothing is visible there, and only a parent that was a leaf is reported, by one DELETE |
| Stores.Node.NewKV | store/node.go:30-46 | a leaf appears below the parent, reported by one UPDATE, after the one DELETE of a parent that was a leaf |
| Stores.Node.Remove | store/node.go:182-215 | terminates although it re-enters its parent, and leaves the tree `Trees.Remove` describes; which nodes stay linked and what the watchers hold agree with it; it reports leaves at or below that go, and at most a hidden value above that comes back |
| Stores.Node.UnlinkLeaf | store/node.go:191-195 | the leaf is out of its parent's map, reported by one DELETE with its value |
| Stores.Node.Bury | store/node.go:185-190 | a watched leaf stays as an empty directory, reported by one DELETE with the blank value |
| Stores.Node.Clean | store/node.go:218-235 | terminates and leaves the tree `Trees.Clean` describes, ancestors included; the result says whether this node itself went or turned back into a leaf |
| Stores.Node.RemoveChildren | store/node.go:204-207 | the loop may take the children in any order and lose the node itself on the way; the result is the same |
| Stores.Node.Watch | store/node.go:284-306 | the new watcher is the last of the node's list, open, with nothing sent to it |
| Stores.Watcher.Remove | store/watcher.go:60-68 | the channel is closed once, the watcher leaves its node's list, and the node's path is queued exactly when it was the last one |
| Stores.Node.Forget | store/node.go:294-303 | the part of it that is left to the node: no other watcher's channel, list or events change |
| Stores.Watcher.Send | store/node.go:262-269 | the channel must be open; the event is appended |
| Stores.Store.constructor | store/store.go:56-79 | a valid store with just the root directory |
| Stores.Store.CheckDir | store/store.go:277-290 | the child at that path, existing or new |
| Stores.Store.WalkDirs | store/store.go:194-211 | afterwards the tree is the old one with the directories on the way to the path added, leaves on the way turned into directories; each such leaf is reported by one DELETE with its value |
| Stores.Store.InternalGet | store/store.go:250-275 | finds the attached node of the path exactly if the tree has it |
| Stores.Store.InternalPut | store/store.go:213-240 | one step of the machine for one string, and exactly the events of it: the DELETE of a leaf on the way, and the UPDATE if the value is now visible and was not |
| Stores.Store.InternalPutBulk | store/store.go:242-247 | the state after putting each of the string keys once, in some order, blank keys included, and the events of these writes in that order |
| Stores.Store.Put | store/store.go:104-118 | a string is one step, with one event for each path where what is visible changes; a map or a slice is flattened and its keys are put one by one, which with proper names is one bulk step of the normal form |
| Stores.Store.PutBulk | store/store.go:120-124 | one put for each key, in some order; one bulk step if no key is blank and no two lead along the same path |
| Machine.PutsBulk | store/store.go:242-247 | whatever the order, putting such keys one by one ends in the one closed form of the whole set |
| Machine.TargetText | util/helper.go:43-49 | the string a key is appended to leads to the path it is put at, for every key; a blank key is used as it is |
| Stores.Store.Delete | store/store.go:127-141 | an absent path changes nothing, a present one is removed and counted in the version; one event for each path where what is visible changes, a DELETE carrying the value that was visible, or the blank one if the leaf is watched and stays as an empty directory |
| Stores.Store.Get | store/store.go:82-101 | current version, and the pruned value that answers every path below as the visible leaves do; after any history that loses no empty string and hides no key, as a flat map of the history's operations does; an empty directory other than the root counts as absent |
| Stores.Store.Watch | store/store.go:143-162 | one watch step; only a leaf on the way is reported, with its value; the watcher starts at the present end of the log |
| Stores.Store.Clean | store/store.go:172-180 | the path is queued, or recorded as lost when 100 messages wait already |
| Stores.Store.CleanStep | store/store.go:61-77 | the background cleaner taking the oldest message is one machine step, with one event for each path where what is visible changes |
| Trees.BulkStep | store/store.go:242-247 | writing one more key after a set of keys is writing the larger set at once: order leaves no trace |
| Trees.KidRemoved | store/node.go:182-215 | one round of the removal loop, including the round in which the child's removal takes the parent along |
| Events.PlayConcat | store/node.go:255-282 | playing a log is playing its first part and then the rest |
| Events.PlayPrefix | store/node.go:255-282 | at every moment the events so far are genuine changes and no two visible leaves nest |
| Events.RouteRoot | store/node.go:255-282 | a watcher at the root is sent the whole log unchanged |
| Events.RouteExactly | store/node.go:255-278 | the events sent to a watcher are those at or below its node, with their paths from there on |
| Events.RouteConcat | store/node.go:255-278 | they are sent in the order of the log |
| Accounts.OnceEach | store/node.go:255-282 | where events at one path do the same, a log of genuine changes has one event at each path that differs in the end, and none elsewhere |
| Accounts.RemovalAccount | store/node.go:182-215 | a removal tells each change of what is visible once, with the value that went or, where a watched node stays, the blank one |
| Accounts.CleaningAccount | store/node.go:218-235 | cleaning tells each change of what is visible once |
| Accounts.WriteAccount | store/store.go:213-240 | writing a string tells each change of what is visible once, a leaf on the way with the value it hides from now on |
| Accounts.WatchAccount | store/store.go:143-162 | so does making a path for a watch |
| Reports.WatchLeaf | store/node.go:113-195 | what a watcher is sent of a leaf that is written again and deleted, whether it watches the leaf itself or the root |
| Values.SameAnswers | store/node.go:237-253 | a pruned nested value is determined by what it answers for every path |
| Values.LookupPrefixFree | util/flatmap/flatten.go:29-134 | the keys of a nested value never nest |
| Invariants.RunInv | store/store.go:56-79 | every reachable state: ancestors of nodes are directories, childless directories hold no value, and each childless directory other than the root is watched, queued for cleaning, or its message was lost |
| Invariants.ApplyInv | store/store.go:104-180 | each single operation keeps that invariant |
| Invariants.CleanStops | store/node.go:218-235 | exactly which chain of nodes `Clean` takes out and where it stops: at a leaf, another child, a watcher, the root or a hidden value, the last turning back into a leaf |
| Invariants.RemoveResult | store/node.go:182-215 | exactly what `Remove` leaves: below the path only watched nodes and the chains leading to them, emptied; outside everything, the ancestors cleaned as above if the node itself went |
| Interleavings.RemoveWhileLeaving | store/node.go:182-306 | watchers may leave between any two steps of a running removal: when it is over, the store is in order, each empty directory being watched or waiting to be cleaned, and exactly the removed part is no longer stored |
| Interleavings.RemoveAlone | store/node.go:182-235 | a removal during which no watcher leaves comes, step by step and in any order of the children, to the tree the removal at once gives |
| Interleavings.WatchersStay | store/node.go:182-306 | a watched node stays in the tree throughout, as long as its watchers do not leave |
| Interleavings.MoveShrinks | store/node.go:182-235 | every step of a removal brings its end nearer, and no watcher that leaves puts it off |
| Interleavings.Finishes | store/node.go:182-235 | from any such moment a removal can run to its end |
| Refinement.RunRefines | store/store.go:104-141 | without watches, any run of writes and deletes, empty strings included, stores exactly what a flat map would hold |
| Refinement.RunStores | store/store.go:104-162 | with any watches coming, going and being cleaned, a store holds what a flat map would after every operation of a run, if and only if no operation of the run loses an empty string |
| Refinement.ApplyStores | store/store.go:104-162 | one operation stores what it would in a flat map, if and only if it neither writes an empty string where nodes but no keys lie below nor watches below an empty string |
| Refinement.NonEmptyKeeps | store/store.go:104-162 | a run that writes no empty string loses nothing |
| Refinement.EmptyAboveWatchLost | store/node.go:174-180 | two runs of one write and one watch, in either order, that lose an empty string |
| Refinement.RemoveContents | store/node.go:182-215 | delete drops the key and every key below it, whatever is watched |
| Refinement.WatchContents | store/store.go:143-162 | a watch loses exactly the empty leaves strictly above it |
| Refinement.CleanContents | store/node.go:218-235 | cleaning never changes what is stored |
| Refinement.Replaced | backends/local/client.go:42-48 | a replacing put leaves just the new keys at and below the path and all others elsewhere, except empty strings that come to have keys below them |
| Visibility.SeenThroughWatches | store/store.go:143-162 | in every reachable state readers see exactly the stored keys with no stored key below them if and only if none of these lies strictly above a node that is watched or waits to be cleaned |
| Visibility.WatchHides | store/store.go:143-162 | a new watch takes from readers exactly the visible keys strictly above it, and nothing if there are none |
| Visibility.WatchedBelowIsHidden | store/store.go:143-162 | one put and one watch below it after which the stored key cannot be read |
| Visibility.RunReads | store/store.go:82-101 | what can be read after a run among any watches that loses no empty string is what the flat map shows, exactly if no key that should be seen lies strictly above a node that is held |
| Visibility.QuietReads | store/store.go:82-101 | what can be read after any run without watches, empty strings included |
| Visibility.QuietIsTrie | store/node.go:218-235 | with no watch left and the cleaner done, the tree is the trie of its contents |
| Visibility.SameContentsSameTree | store/store.go:104-141 | two such histories that store the same have the same tree |
| Visibility.EmptyHiddenValueGoes | store/node.go:218-235 | three operations after which an empty value that was hidden is gone, not back |
| Scenarios.PutThenGet | store/store.go:81-118 | a map or a slice put at the root of an empty store is read back with scalars as strings, slices by index and empty maps gone |
| Visibility.VersionStep | store/store.go:127-141 | the version rises by one per string written and per delete of something present; an operation that leaves it alone leaves every reading alone if and only if it does not put a watch below a visible key or clean up the last node below a hidden one |
| Visibility.EqualVersions | store/store.go:82-101 | while the version stays the same all readings are equal, if and only if no watch is put below a visible key and no cleaning brings a hidden one back |
| Visibility.CleanShows | store/node.go:218-235 | cleaning changes what readers see exactly if above the cleaned node lies a hidden value with nothing below it but unwatched empty directories on the way, and then just that value comes back |
| Visibility.SameVersionOtherReading | store/store.go:143-180 | a run with equal versions whose readings differ, by a watch and by the cleaner |
| Mirror.Converges | backends/local/client.go:130-154 | whatever of the log the snapshot already held, whatever the source does meanwhile, however often delivery falls back to an earlier change and whoever watches the replica: once it has applied as many changes as it may reflect, it was told exactly the source's keys, nested ones included; it holds them if no empty string was lost, and then shows those with none below exactly if none lies strictly above a node held by a watch |
| Mirror.ConvergesExactly | backends/local/client.go:130-154 | a source can be followed in every order of steps if and only if it can be followed one change after the other, and that is if and only if no key with keys below is deleted and no empty string has a key below |
| Mirror.DeliverGood | backends/local/client.go:136-148 | one delivery keeps the invariant that the replica holds only keys seen, and all keys held unchanged throughout, from the delivered position to the highest one |
| Mirror.EditScript | backends/local/client.go:136-148 | a store's events written to any unwatched store that holds the same keys and hides none lead it to the same keys again |
| Mirror.EditScriptExactly | backends/local/client.go:136-148 | an unwatched store that shows the same keys follows every log of changes if and only if it hides none |
| Mirror.HiddenKeyResurfaces | backends/local/client.go:136-148 | one hidden key and one delete after which such a store shows a key the source does not have |
| Mirror.PlayedSound | store/node.go:255-282 | any log a store can produce meets the conditions asked of a source, and its keys never nest |
| Mirror.MirroredExactly | backends/etcdv3/client.go:343-356 | exactly when a change and the operation it is mirrored by do the same to a store |
| Mirror.NestedKeysDiverge | backends/etcdv3/client.go:343-356 | three changes to nested keys after which the replica is empty and the source is not |
| Etcd.Mirrors | backends/etcdv3/client.go:263-330 | string keys under a prefix, changes cut into responses in any way, watches that break and begin again at the last revision, that revision included, a store that others watch: once everything was received, the store has exactly the keys it should have, which are those whose changes are followed as they are in etcd, and the rules at the root as the snapshot found them |
| Etcd.HandleGetResp | backends/etcdv3/client.go:246-261 | the snapshot's trimmed keys, one path each, without those under "/_metad/mapping" at the root |
| Etcd.OwnKeys | backends/etcdv3/client.go:28-29 | at the root the keys under "/_metad/mapping" are never copied, and neither they nor those under "/_metad/rule" are followed |
| Etcd.TrimmedPath | backends/etcdv3/client.go:321-324 | a key under the prefix is put and deleted at the path below the prefix |
| Etcd.StripChanged | backends/etcdv3/client.go:343-356 | changing a key in etcd is changing its path in the store |
| Etcd.SentSound | backends/etcdv3/client.go:263-330 | the changes that are not passed over meet the conditions asked of a source, if no empty string gets a key below and no key with keys below is deleted |
| Etcd.ViewExactly | backends/etcdv3/client.go:253-318 | the store should have every key other than the mapping's as it is in etcd, if and only if the rules are what the snapshot found; under any other prefix it should have all keys |
| Etcd.DeletedRuleStays | backends/etcdv3/client.go:253-318 | at the root, a rule deleted after the snapshot that stays in the store |
| Etcd.ReconnectedExactly | backends/etcdv3/client.go:264-294 | before the first response, whatever was committed and however often the watch broke: every continuation that receives everything ends up to date, if and only if at the last break the followed keys were what the snapshot found |
| Etcd.BrokenBeforeFirstResponse | backends/etcdv3/client.go:264-294 | a change that is lost when the watch breaks before its first response |
| Replicas.Replica.constructor | backends/local/client.go:130-131 | subscribed at the root before anything is copied, to a target that nothing was written to |
| Replicas.Replica.Snapshot | backends/local/client.go:132-135 | the copy may already contain events still in the channel, and the replica stays valid |
| Replicas.Replica.ProcessEvent | backends/local/client.go:136-148 | one event applied, an overlap with the snapshot included, keeps the replica valid |
| Replicas.Replica.Drain | backends/local/client.go:136-153 | when the channel is empty the target holds exactly what the source shows unless an empty string was lost to its own watches, and shows it exactly if no key lies strictly above a node they hold; without watches it shows exactly what the source shows |
| Replicas.Replica.SourceMoved | backends/local/client.go:130-154 | the source may do anything to itself between two steps |
| Replicas.Replica.TargetMoved | backends/local/client.go:130-154 | the target may be watched, its watches may end and it may be cleaned between two steps |
| Replicas.Client.Put | backends/local/client.go:42-48 | with replace, a delete step and then a put step |
| Scenarios.Replicate | backends/local/client.go:130-154 | a store that changes before and after the snapshot of its replica, which is watched in between: once the channel is empty the replica holds what the source shows, and shows it too if no key lies above the watch |
| Rules.BuildWell | store/access.go:195-224 | sibling names are unique and names and paths agree |
| Rules.BuildKeys | store/access.go:195-224 | the nodes are exactly the prefixes of the rules' paths |
| Rules.BuildMode | store/access.go:195-224 | the last rule for a path wins; a path without rule has the mode Nil |
| Rules.AnyOrder | store/access.go:195-224 | rules for different paths may come in any order without changing a node or a mode |
| Access.CheckAccessRules | store/access.go:25-44 | no error exactly if all modes are valid, otherwise the first wrong mode; a repeated path is never reported |
| Access.RepeatedPathPasses | store/access.go:32-44 | two rules for one path that pass |
| Listing.ReadBack | store/access.go:172-188 | the list read back has each path with a mode once, with its last mode, and nothing else |
| Listing.BuiltAgain | store/access.go:172-224 | building from the list read back gives the same tree, order of children included, less the nodes that lead to no rule |
| Listing.ListAgain | store/access.go:172-224 | the list read back, rebuilt and read back again is the same list |
| Listing.SameTree | store/access.go:172-224 | with no rule of mode Nil the very same tree is rebuilt |
| Access.AccessNode.GetChild | store/access.go:80-91 | the exact name before the wildcard, the wildcard only if not strict, and null exactly if neither is there |
| Access.AccessNode.FullPath | store/access.go:68-74 | the path from the root |
| Access.AccessTree.constructor | store/access.go:195-224 | the linked nodes built in place show the tree of the rules |
| Access.AccessTree.AddRule | store/access.go:205-222 | one rule: the missing nodes on its way appended, then its mode |
| Access.AccessTree.ToAccessRule | store/access.go:172-176 | the list of the whole tree |
| Access.AccessTree.CollectRules | store/access.go:178-188 | a node's rule and its children's in order, after what was collected before |
| Grants.MatchExactly | store/access.go:80-91 | a path is matched to the rule node that has each of its components, or "*" where no node has the component itself, and to none exactly if there is no such node |
| Grants.DeepestMode | store/traveller.go:93-127 | the mode in force is the deepest mode other than Nil on the matched chain |
| Grants.OpenGenerally | store/traveller.go:93-127 | a path can be entered exactly if a rule lies below its match or reading is in force there, and no step on the way leads to a dead end |
| Grants.OpenExactly | store/traveller.go:93-127 | with modes 0 and 1 only, nothing on the way need be looked at |
| Grants.OpenDocumented | docs/api.md:124-155 | what the rules of the documentation let through, for every path |
| Clients.EnterDocumented | docs/api.md:124-155 | with these rules a traveller can enter what there is under "/clusters", except the "env" of any cluster other than "cl-1" |
| Grants.NilRuleCutsOff | store/traveller.go:93-127 | two rules, one of mode Nil, under which a path that is granted cannot be entered |
| Grants.OpenCompose | store/traveller.go:70-91 | entering in two stages is entering at once |
| Grants.ReadBelow | metadata/metarepo.go:96-102 | with read rules only, everything at and below each rule's path is readable, also where one path lies below another |
| Travellers.Traveller.constructor | store/traveller.go:64-68 | at the root, with an empty stack |
| Travellers.Traveller.EnterChild | store/traveller.go:93-127 | succeeds exactly if the node exists and the rules let the step through; pushes one frame, or changes nothing |
| Travellers.Traveller.Enter | store/traveller.go:70-91 | succeeds exactly if the node exists and every step is let through; a failure in the middle restores cursor, access node, mode and stack |
| Travellers.Traveller.Back | store/traveller.go:129-143 | one component and one frame less, the state again being that of the path |
| Travellers.Traveller.BackStep | store/traveller.go:145-149 | undoes that many single steps |
| Travellers.Traveller.BackToRoot | store/traveller.go:151-159 | the state of the root |
| Travellers.Traveller.GetValue | store/traveller.go:161-187 | read by path, exactly the visible leaves below the cursor that the rules let it reach, no empty map inside; the cursor is where it was, and no step back finds an empty stack |
| Travellers.ShownExactly | store/traveller.go:161-187 | a leaf is shown exactly if some rule lies strictly below its match or reading is in force at it |
| Clients.ReadEverything | store/traveller.go:161-187 | with a single rule to read the root, a traveller gets everywhere, and `GetValue` there gives the very value `Get` gives |
| Travellers.AnyOrderShows | store/access.go:195-224 | the order of rules for different paths changes nothing that is shown |
| Metadata.GetMappingData | metadata/metarepo.go:259-267 | what the rules let the client find at the linked path, and an answer exactly if that is in the data and may be entered; the traveller is at the root again |
| Metadata.GetMappingDatas | metadata/metarepo.go:269-313 | terminates; through nested mappings and on into linked data it finds exactly what the rules show at the place the path leads to, says exactly when there is no answer, and lists exactly the names of a nested mapping that have one |
| Clients.SelfCommutes | metadata/metarepo.go:228-313 | two calls of `Self`: the answer for a path is the answer for everything, descended to that path, whether the client has rules or not |
| Metadata.LinksComplete | metadata/metarepo.go:81-105 | a client without rules is shown everything its links lead to |
| Metadata.SameResolve | metadata/metarepo.go:269-313 | following a path through the nested mapping is following it through the keys of the mapping store |
| Metadata.ResolvedExactly | metadata/metarepo.go:259-313 | the link followed is the first key of the mapping on the way, and the rest of the path is walked on in the data |
| Metadata.AnsweredByKeys | metadata/metarepo.go:259-313 | there is an answer exactly if the keys of the mapping go on below the path, or a link on the way leads to a place in the data that may be entered |
| Metadata.FreeAnswer | metadata/metarepo.go:81-105 | without rules of its own a client may enter all that its links lead to |
| Metadata.SameLinksOpen | metadata/metarepo.go:97-102 | the order of the links makes no difference to what they let a client enter and see |
| Metadata.MetadataRepo.PutAccessRule | store/access.go:122-126 | the host's tree is the one of its rules, and no other host's tree changes |
| Metadata.MetadataRepo.GetAccessTree | metadata/metarepo.go:81-105 | the client's own rules, or read rules for every one of its links, and none exactly if it has neither |
| Metadata.MetadataRepo.Self | metadata/metarepo.go:228-257 | read by path, the data that the client's mapping leads to, filtered by the client's rules; unfiltered for a client without rules; an answer exactly if the mapping goes on below the path or a link on the way leads to a place that may be entered, and where the mapping goes on exactly the names with an answer |
| Metadata.MetadataRepo.Root | metadata/metarepo.go:107-133 | an answer exactly if the client has rules or a mapping, and the path exists and can be entered, with the version of the data; the filtered data, and at the root the client's own names under "self" in place of anything stored there |
| Clients.RootAndSelf | metadata/metarepo.go:107-133 | `Root` at the top has under "self" what `Self` answers, if that answers; at every other path and place it has what a traveller with the client's rules is shown |
| Helpers.TrimExactly | util/helper.go:15-32 | for every key: nothing changes under the root, the prefix itself becomes "/" if given in clean form, keys below it lose it component by component, all others are only cleaned |
| Helpers.TrimClean | util/helper.go:15-32 | a key in clean form loses the prefix exactly if it is at or below it |
| Helpers.UncleanKeyStays | util/helper.go:15-32 | the prefix with a trailing slash keeps its name |
| Helpers.TrimAppend | util/helper.go:15-49 | a key moved under a prefix and back is the key, cleaned; a blank key is not moved |
| Strings.CompsKey | util/flatmap/expand.go:37-58 | a path of slash-free components can be read back from its string |
| Strings.KeyPrefix | util/flatmap/expand.go:37-58 | one string continues another after a slash exactly if its path is a longer one |
| Flatmap.Expand | util/flatmap/expand.go:15-22 | one child for each component that follows the prefix in some key, for any keys; the nested value answers each path by the first key met on the way below the prefix, if the prefix is not the root or all keys begin with a slash |
| Flatmap.ExpandKey | util/flatmap/expand.go:24-35 | a key's own value, or the nested value below it, for any keys; never an empty map |
| Flatmap.ExpandMap | util/flatmap/expand.go:37-58 | terminates for any keys, and for every iteration order groups the keys below the prefix by their next component |
| Flatmap.FoundMet | util/flatmap/expand.go:24-58 | a key is found exactly if no other key lies on the way to it |
| Flatmap.Flatten | util/flatmap/flatten.go:29-53 | exactly the keys the thing stands for, whatever the names; of several texts for one key, one |
| Flatmap.FlattenedKey | util/flatmap/flatten.go:29-134 | without slashes in the names, exactly one key for each scalar, with its text, whatever the iteration order |
| Flatmap.NormExactly | util/flatmap/flatten.go:65-134 | nil stands for the blank text, a scalar for the text it is printed as, a slice for the map of its items by index |
| Flatmap.NilFlattened | util/flatmap/flatten.go:76-77 | a nil entry is written as the blank text |
| Flatmap.SlashFlattened | util/flatmap/flatten.go:73-75 | a name that starts with a slash is not given another |
| Flatmap.FlattenInto | util/flatmap/flatten.go:65-111 | adds the keys of one value below its prefix and keeps all others, for any names; a blank prefix changes nothing |
| Flatmap.FlattenTable | util/flatmap/flatten.go:113-127 | the keys of all entries, in any order, for any names |
| Flatmap.FlattenSlice | util/flatmap/flatten.go:129-134 | the keys of all items, under their decimal index |
| Flatmap.NumberDigits | util/flatmap/flatten.go:129-134 | numerals are decimal, without leading zeros, so different indices have different ones |
| Flatmap.FlattenThenExpand | util/flatmap/expand.go:15-58 | flattening and expanding gives a value back, scalars as strings, slices by index, empty maps gone |
| Flatmap.ExpandThenFlatten | util/flatmap/flatten.go:29-134 | expanding and flattening keeps exactly the keys with no other key on the way to them that do not begin with a blank component |
| Flatmap.FlatCleaned | store/store.go:109-112 | with proper names each flattened key leads along its own path, to what the normal form has there |
| Flatmap.ThingOfNorm | util/flatmap/flatten.go:29-134 | a nested value handed to `Flatten` or `Put` stands for itself |

## Left out

- HTTP routes, content negotiation, configuration, signals, logging, metrics and the benchmark tool: input and output only.
- The etcd client, TLS and transactions: the backend is a log of changes with revisions, a snapshot and responses. The header revision of a response is taken not to run ahead of changes still to be sent.
- Real channel sizes of watchers: a channel takes every event. Where the source drops events because a channel is full, the replica theorems do not apply. Dropped clean messages are modelled.
- Locks: an operation of the store runs as one step. Watchers that leave while a `Remove` is running, which their own lock permits, are modelled on trees (`Interleavings.dfy`), without the events sent meanwhile.
- Cleaning of path strings: the operations of the store take component sequences, and `.` and `..` are ordinary components. `newDir` and `newKV` panic on a blank name, which a cleaned path never has; that panic is not modelled.
- 64-bit wrap-around of the version, and its non-atomic increment (`atomic/atomic.go`): the version is an unbounded number.
- `Destroy`, `Json`, `aggregateWatcher`, `WatchSelf`, `changeToResult`: goroutines and timers.
- `AccessStore` beyond one put and the lookup, checking of mappings, the writing side of `metadata/metarepo.go`: easy members.
- Reflection and number formatting in `util/flatmap`: a scalar comes with the text it is printed as.
- Flatmap.FlattenThenExpand: names contain no slash, because a name with a slash can collide with a nested one and the winner would depend on the iteration order (`Flatmap.Flatten` covers any names).
- Flatmap.ExpandThenFlatten: every key starts with a slash, as the keys of all callers do.
- Etcd.Mirrors: keys in clean form, and no key at the prefix itself or beside it with the same text, such as `/ab` beside the prefix `/a`; a first response before the first break of the watch (`Etcd.ReconnectedExactly` covers the breaks before it).
- Metadata.MetadataRepo.Self: links are split into components without resolving `.` and `..`.
