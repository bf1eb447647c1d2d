# A verified model of parts of Camel

A Dafny model of the parts of the Camel mail library that keep state whose invariants are hard to see
from one function, and proofs of what they promise. Line numbers are those of the C sources.

* **Message threading** (`Thread*.dfy`). The nodes are heap objects with `next`, `parent` and `child`
  fields that the passes relink in place; a ghost forest says what they draw. `ThreadForest` has the
  nodes, the forest and the predicate `Seg` that ties them; `ThreadTops` and `ThreadMoves` the surgery
  on forests. The passes are `ThreadLinks`, `ThreadBuild`, `ThreadFollow` and `ThreadReferences` (linking
  by references), `ThreadRoots` (the root list), `ThreadPrune`, `ThreadRegroup`, `ThreadKeep`,
  `ThreadWhole`, `ThreadJoins`, `ThreadGroup`, `ThreadSubjects`, `ThreadCount`, `ThreadPromise` and
  `ThreadMerge` (roots of one subject), `ThreadSort` and `ThreadSorting`, `ThreadPhantom` and
  `ThreadPromote` (no empty nodes). `ThreadTogether` says which messages share a root after each pass,
  and `Thread` puts them together.
* **Block file** (`BlockDisk`, `BlockCache`, `BlockAlloc`, `BlockSync`, `BlockLimiter`) and **key file**
  (`KeyFile`). The write-back cache refines a flat array of blocks: `View` says what a block holds,
  whether it is cached or in the file. The allocator, the clean-shutdown flag and opening a file again
  are proved on top of that. What the system does in a call - whether the file opens, can be read, and
  which blocks can be written - is the parameter `Io`.
* **Database wrapper** (`DbLock`, `DbSavepoint`, `DbSync`). The locks and the deferred fsync are state
  machines whose steps interleave freely; the theorems are about all their runs. The transactions are
  proved against the meaning of a balanced run.
* **GnuPG status reader** (`GpgStatus`): the growing buffer and the line splitter.
* **Folder summary counters** (`SummaryCounts`): counting by steps against counting again.
* **Binary codecs** (`FileCodec`) and the **certificate store** on top of them (`CertDb`).
* `Wrappers` has the type of a value that may be missing.

Each method is the C function of the same name, or a part of it, on fields that it changes in place;
functions and lemmas beside it say what the change means.

## How to read the model

* A message is an item together with its place in the input. Items are distinct pointers; their
  subject and whether it starts with a reply mark are attributes of the item.
* A pointer to a list head that the C code passes by address is a value that goes in and comes out,
  and the trick of using that address as a node is a null `last`.
* The order of a hash table is arbitrary: a loop over it may take the entries in any order.
* `ThreadItems` asks for dates when it is to sort, as the documentation of the constructor does.
* The block cache counts the root block although it is detached; a file is a sequence of whole blocks,
  and a block is 256 words of 32 bits. Offsets stay below 2^32.
* Sections under a mutex and read-write lock operations are single steps of the state machines, as
  nothing in them waits. The timer callback is one step.

## Where the code falls short of what one would expect

* A reference is not followed when the node it names is below the message already: of two messages that
  refer to each other one stays without that parent (`ThreadFollow.MutualReferences`).
  `ThreadFollow.FirstReference` says when it is followed, and `ThreadFollow.AscendingLoopless` when all
  are.
* Without SORT, the swap of items under an empty root can change who is above whom
  (`ThreadPhantom.OlderSibling`): `ThreadPhantom.AncestorsSurvive` says exactly when.
* Merging roots by subject can leave several empty roots of one subject (`ThreadPromise.LeftBehind`):
  `ThreadPromise.OneRoot` says exactly when it leaves one, from the root list before the call, and
  `ThreadMerge.GroupRootSet` how many. Roots with a message never share their subject.
* `camel_block_file_new_block` and `camel_block_file_free_block` mark blocks dirty without clearing
  the SYNC flag of the file. Afterwards it is honest exactly if the flag was not set in the file; right
  after a sync it is not (`BlockSync.AllocateAfterSync`), and a crash then leaves a file that claims to
  be clean.
* `camel_block_file_get_block` hands out the block just behind the end of the file. Once it is marked
  dirty the file no longer ends where the root block says (`BlockSync.TouchBlock`,
  `BlockSync.TouchBehindEnd`).
* The comment at lines 150-152 of `camel-block-file.c` doubts that a file is on one list only; it is.
* A list of more than 1024 keys can be written to a key file but not read back (`KeyFile.KeyFile.Read`,
  `KeyFile.OneTooMany`).
* Reader locks must be given back before the outermost writer lock: a call keeps that rule exactly if
  every reader lock still to be given back is held afterwards (`DbLock.UnlockExact`). A thread that breaks
  it and gives the reader lock back next releases one that it does not hold (`DbLock.TooEarly`,
  `DbLock.Unnested`). Asking to write while reading never succeeds (`DbLock.Upgrade`).
* `camel_folder_summary_replace_flags` is to return whether any count changed; it returns TRUE for any
  change of flags beyond FOLDER_FLAGGED, while `SummaryCounts.Summary.CountsMove` says when one does.
* The summary counts of visible, junk-not-deleted and unread messages drift exactly in the cases that
  `SummaryCounts.Summary.ReplaceFlags` names (`SummaryCounts.DeletedJunk`,
  `SummaryCounts.DeletedUnseen`), and all but the number of saved messages in those of
  `SummaryCounts.Summary.Add`.
* The keys of the certificate store compare without regard to case, but their hash code does not, so
  two spellings of a fingerprint can both be stored (`CertDb.TwoSpellings`): exactly if their codes
  differ (`CertDb.PutReplaces`, `CertDb.PutAllOnePerStrings`). A missing host name comes back as an
  empty one, which is another key (`CertDb.MissingHost`); `CertDb.SaveAndLoad` has the condition.

## Model

| member | source | states |
|---|---|---|
| `Thread.FolderThread.ThreadItems` | src/camel/camel-folder-thread.c:669-884 | For every array of distinct items and all flags, the nodes that are left form a finite forest with null parents at the roots and every parent agreeing with its child list, no node is empty, each item is in exactly one node, all references have been followed (`ThreadFollow.FirstReference`), two messages are under one root of the first forest exactly if the links have a common root above them, and each pass made its forest from the one before as the rows below say |
| `Thread.EachMessageOnce` | src/camel/camel-folder-thread.c:669-884 | The final tree holds exactly the messages of the input, each in one node, and no empty node |
| `Thread.BeforePromotion` | src/camel/camel-folder-thread.c:684-782 | An ancestor by references is still an ancestor after pruning, regrouping and sorting |
| `Thread.AncestorsKept` | src/camel/camel-folder-thread.c:784-860 | An ancestor by references is an ancestor in the final tree whenever no swaps are made, as with SORT, or the swaps are safe |
| `Thread.ReferencesFollowed` | src/camel/camel-folder-thread.c:684-757 | A message comes below the one that it refers to first, unless the lists of other messages lead back from that one to it; when all lists agree with some order of the ids it always does, and it stays there through sorting, and to the end if no unsafe swap is made |
| `Thread.OneThread` | src/camel/camel-folder-thread.c:669-884 | Two messages end under one root if the links, with the nodes of missing messages, have a common root above them; without SUBJECT only then, and with it only then or if they came under roots of one subject |
| `Thread.RootsIncreasing` | src/camel/camel-folder-thread.c:776-860 | With SORT the final roots, and every list of siblings before the last pass, are strictly increasing in the fields of the items: by the date sent, for which the date received stands in where it is 0 or less, then by input order |
| `Thread.AllOrderly` | src/camel/camel-folder-thread.c:687-705 | The messages of the input are all different, and so are their places |
| `Thread.GroupedOk` | src/camel/camel-folder-thread.c:769-774 | Pruning and the optional regrouping leave a forest without repeated nodes, with all messages, and with empty nodes only at the root, each with two or more children |
| `Thread.SortedOk` | src/camel/camel-folder-thread.c:776-782 | The same after the optional sort |
| `ThreadReferences.LinkReferences` | src/camel/camel-folder-thread.c:684-757 | After the reference loop the nodes form a forest, every item has exactly one node even when ids repeat, every parent edge joins neighbours of the list of some message (its own node and then its non-zero references), and all references have been followed |
| `ThreadFollow.FirstReference` | src/camel/camel-folder-thread.c:724-755 | The first reference of a message to another node has a node, and that is its parent, unless a chain of neighbours leads from it back to the message; without such chains it always is |
| `ThreadFollow.AscendingLoopless` | src/camel/camel-folder-thread.c:724-755 | If the ids can be ordered so that every list ascends, there is no such chain |
| `ThreadFollow.MutualReferences` | src/camel/camel-folder-thread.c:187-228 | Two messages that refer to each other do not both get the other as parent |
| `ThreadFollow.LinkFollows` | src/camel/camel-folder-thread.c:742-752 | A node linked to the next other node of the list, or refused because it is above that one already, hangs as it should, and so do all others still |
| `ThreadFollow.PlaceFollows` | src/camel/camel-folder-thread.c:687-722 | A new message leaves every node hanging where it did |
| `ThreadFollow.OwnIs` | src/camel/camel-folder-thread.c:696-717 | A reference leads to the node of a message itself exactly if it is the id of the message and no earlier one has it |
| `ThreadReferences.WalkOne` | src/camel/camel-folder-thread.c:728-754 | After a node that was known the references of the message have been followed; otherwise the walk goes on from the new one, or from the same |
| `ThreadReferences.PlaceItem` | src/camel/camel-folder-thread.c:687-722 | An item goes to the empty node of its id, to a new node of that id, or to a node of its own when the id is taken or zero; the other items keep theirs |
| `ThreadReferences.FollowReferences` | src/camel/camel-folder-thread.c:724-755 | Along one reference list the forest stays a forest, every new edge joins neighbours of that list, and in the end the message and all nodes made for its references hang under the next other node, unless that was below them already |
| `ThreadReferences.FollowOne` | src/camel/camel-folder-thread.c:728-754 | The node of the reference is the one filed under the id or a new one; the child gets it as parent exactly under the guards of container_parent_child, no other parent changes; the walk stops exactly at another node that was there before |
| `ThreadReferences.Lookup` | src/camel/camel-folder-thread.c:731-740 | The node of an id, made empty if the id is new, which changes no other |
| `ThreadReferences.LinkNeighbours` | src/camel/camel-folder-thread.c:742-752 | Joining two neighbours keeps the forest and the origin of all edges; the child ends under the other unless it is above it already |
| `ThreadReferences.SetItem` | src/camel/camel-folder-thread.c:704-722 | A node takes its item and its place in the input |
| `ThreadBuild.FreshItem` | src/camel/camel-folder-thread.c:703-716 | An item of the input not yet placed has no entry in the table keyed by items |
| `ThreadBuild.TakeOk` | src/camel/camel-folder-thread.c:706-712 | Filling the empty node of an id keeps one owner per item |
| `ThreadBuild.TakeNewOk` | src/camel/camel-folder-thread.c:703-716 | A node of its own for an item keeps one owner per item |
| `ThreadBuild.WithIdOk` | src/camel/camel-folder-thread.c:731-740 | An empty node for a new id keeps the forest, the owners and the edges |
| `ThreadBuild.JoinEdges` | src/camel/camel-folder-thread.c:742-752 | A new parent edge joins two nodes next to each other in a list, and all others did already |
| `ThreadLinks.ContainerParentChild` | src/camel/camel-folder-thread.c:187-228 | The child comes under the parent unless that would make a cycle or it is there already; the links stay well-formed, the ancestor walk ends, and the child is found in the list of its old parent |
| `ThreadLinks.Reparent` | src/camel/camel-folder-thread.c:209-216 | Moving a node that is no ancestor of the new parent keeps the links acyclic and drawn |
| `ThreadLinks.ContainerAddChild` | src/camel/camel-folder-thread.c:177-184 | The node becomes the first child and its parent pointer agrees |
| `ThreadLinks.RemoveChild` | src/camel/camel-folder-thread.c:205-227 | The node leaves the child list of its parent, in which it is always found |
| `ThreadLinks.CutChild` | src/camel/camel-folder-thread.c:211-222 | Unlinking a found child leaves the others in order |
| `ThreadLinks.JoinOk` | src/camel/camel-folder-thread.c:177-184 | A child put under a node that it is not above keeps every rank decreasing upwards, so there is no cycle |
| `ThreadLinks.CutOk` | src/camel/camel-folder-thread.c:205-227 | Taking a child from its parent keeps the links well-formed |
| `ThreadLinks.AddNodeOk` | src/camel/camel-folder-thread.c:736-740 | A new node alone keeps the links well-formed |
| `ThreadRoots.CollectRoots` | src/camel/camel-folder-thread.c:759-767 | The root list is drawn over exactly the nodes without a parent, whatever the order of the hash tables; its forest holds all messages and has the ancestors of the links |
| `ThreadRoots.HashLoop` | src/camel/camel-folder-thread.c:278-290 | A node without parent is put in front of the list, once |
| `ThreadRoots.ForEach` | src/camel/camel-folder-thread.c:278-290 | The whole table, in any order |
| `ThreadRoots.ForestDistinct` | src/camel/camel-folder-thread.c:759-767 | Below the roots no node occurs twice |
| `ThreadRoots.ForestMessages` | src/camel/camel-folder-thread.c:759-767 | The forest below the roots holds each message of the input once |
| `ThreadRoots.ForestAncestors` | src/camel/camel-folder-thread.c:759-767 | Ancestors in the forest are those by parent pointers |
| `ThreadRoots.SegOf` | src/camel/camel-folder-thread.c:759-767 | The lists in memory draw the forest of the links |
| `ThreadRoots.AboveOf` | src/camel/camel-folder-thread.c:759-767 | A message is above another in the forest exactly if its node is an ancestor |
| `ThreadRoots.RootAbove` | src/camel/camel-folder-thread.c:188-228 | Every node has a root above it |
| `ThreadTogether.MessagesTogether` | src/camel/camel-folder-thread.c:759-767 | Two messages are under one root of the list if and only if the links have a common root above their nodes |
| `ThreadPrune.PruneEmpty` | src/camel/camel-folder-thread.c:230-276 | The loop ends and leaves the pruned forest, drawn with correct parents |
| `ThreadPrune.PromoteChildren` | src/camel/camel-folder-thread.c:248-262 | The children of an empty node take its place, in reverse, with their parent set |
| `ThreadPrune.Place` | src/camel/camel-folder-thread.c:236-272 | An empty node is dropped, replaced by its children or kept as the source decides; any other is kept after its children have been pruned |
| `ThreadPrune.PruneChildren` | src/camel/camel-folder-thread.c:266-270 | Pruning below a node keeps it drawn |
| `ThreadPrune.PruneKeepsMessages` | src/camel/camel-folder-thread.c:230-276 | Exactly the same messages |
| `ThreadPrune.PruneKeepsAncestors` | src/camel/camel-folder-thread.c:230-276 | Exactly the same ancestor relation among messages |
| `ThreadPrune.PruneShape` | src/camel/camel-folder-thread.c:230-276 | Empty nodes only at the root, each with two or more children that all carry messages |
| `ThreadPrune.PruneDistinct` | src/camel/camel-folder-thread.c:230-276 | No node occurs twice |
| `ThreadPrune.PruneNodes` | src/camel/camel-folder-thread.c:230-276 | No node that was not there before |
| `ThreadTogether.PruneTogether` | src/camel/camel-folder-thread.c:230-276 | Two messages are under one root afterwards if and only if they were before, so the children of an empty root stay one thread |
| `ThreadMerge.GroupRootSet` | src/camel/camel-folder-thread.c:403-488 | It ends, and no message is lost, duplicated or loses an ancestor, and no two messages of one root come apart; a message gets a new ancestor if and only if it is part of a root reply that `ThreadJoins.Joins` puts below the container of its subject, a message that is none; roots without a subject are left alone; a root with a message shares its subject with no other root; empty roots have two or more children, all with messages; and of every subject as many roots are left as `RootsLeft` reads off the root list before the call |
| `ThreadPromise.OneRoot` | src/camel/camel-folder-thread.c:403-488 | Of a subject one root is left if and only if its container is empty, or another message root with the same reply bit comes before every other empty root, or there is no such message and at most one other empty root; if several are left, all are empty |
| `ThreadMerge.MergeRoot` | src/camel/camel-folder-thread.c:429-485 | Each of the arms keeps the invariant of the loop and brings its end nearer |
| `ThreadMerge.NotUnderReply` | src/camel/camel-folder-thread.c:461-464 | The arm for a root that is no reply meeting a reply is never reached |
| `ThreadPromise.AllSeen` | src/camel/camel-folder-thread.c:403-488 | The invariant of the loop gives its promise when all roots have been passed |
| `ThreadPromise.JoinsNewly` | src/camel/camel-folder-thread.c:451-460 | A message gets a new ancestor only as part of a root reply put below a root of its subject that is none |
| `ThreadPromise.OnlyJoined` | src/camel/camel-folder-thread.c:403-488 | Two messages come under one root only if they were before, or were under roots of one subject |
| `ThreadPromise.LeftBehind` | src/camel/camel-folder-thread.c:403-488 | For an empty root and two messages of one subject, none a reply, two empty roots of it are left |
| `ThreadPromise.ThreeRootsLeft` | src/camel/camel-folder-thread.c:412-425 | There the table names the first message |
| `ThreadPromise.RegroupedLeft` | src/camel/camel-folder-thread.c:403-488 | If several roots of a subject are left, all of them are empty |
| `ThreadCount.OneRootLeft` | src/camel/camel-folder-thread.c:428-487 | The number read off the root list is one exactly under that condition, and never zero for a subject of the roots |
| `ThreadCount.LaterOne` | src/camel/camel-folder-thread.c:447-483 | While the container is a message: when the rounds to come leave one root |
| `ThreadCount.StartCounts` | src/camel/camel-folder-thread.c:428 | At the start of the merging loop the roots to come add up to the number |
| `ThreadCount.PassCounts` | src/camel/camel-folder-thread.c:430-434 | A root that is passed keeps the sum of the roots passed and to come, for every subject |
| `ThreadCount.MergeCounts` | src/camel/camel-folder-thread.c:436-460 | A root that goes into its container keeps the sum |
| `ThreadCount.AdoptCounts` | src/camel/camel-folder-thread.c:447-450 | An empty root that takes in its container keeps the sum |
| `ThreadCount.PairCounts` | src/camel/camel-folder-thread.c:465-483 | A new empty root over a root and its container keeps the sum |
| `ThreadCount.EndCounts` | src/camel/camel-folder-thread.c:428-487 | When all roots have been passed they are as many as the number says |
| `ThreadRegroup.ChosenFor` | src/camel/camel-folder-thread.c:412-425 | The table has an entry for exactly the subjects of the roots, each a root of that subject |
| `ThreadRegroup.RootKeyIs` | src/camel/camel-folder-thread.c:325-371 | The subject and reply bit of a root are those of its message, or of the message of its first child |
| `ThreadRegroup.PlainChosen` | src/camel/camel-folder-thread.c:415-423 | If a subject has a root that is a message and no reply, the first such root is filed |
| `ThreadRegroup.FirstReplyChosen` | src/camel/camel-folder-thread.c:415-423 | If all roots of a subject are replies, the first with a message is filed, and if all are empty the first |
| `ThreadSubjects.MergeEmpty` | src/camel/camel-folder-thread.c:436-446 | Two empty roots of one subject become one with the children of both |
| `ThreadSubjects.PutUnder` | src/camel/camel-folder-thread.c:451-460 | A root is put below the container of its subject: an empty one, or a message that is no reply while the root is one |
| `ThreadSubjects.AdoptContainer` | src/camel/camel-folder-thread.c:447-450 | An empty root takes the container of its subject as a child |
| `ThreadSubjects.PairUp` | src/camel/camel-folder-thread.c:465-483 | Two roots with messages of one subject go below a new empty root, at the place of the container |
| `ThreadSubjects.Gather` | src/camel/camel-folder-thread.c:412-425 | The table has for each subject the root that the filing rule chooses in the order of the list, a message before an empty root and a root that is no reply before a reply; every root has its key |
| `ThreadSubjects.FileRoot` | src/camel/camel-folder-thread.c:415-423 | One root is filed under its subject as the source prefers |
| `ThreadSubjects.GetRootSubject` | src/camel/camel-folder-thread.c:325-371 | The subject of a root is that of its message, or of its first child with one |
| `ThreadSubjects.TakeBoth` | src/camel/camel-folder-thread.c:468-470 | Both roots leave the list |
| `ThreadKeep.AdoptKeeps` | src/camel/camel-folder-thread.c:447-450 | An empty root that takes its container as a child keeps the invariant |
| `ThreadKeep.MergeKeeps` | src/camel/camel-folder-thread.c:436-460 | Merging a root into the container of its subject keeps the invariant |
| `ThreadKeep.PairKeeps` | src/camel/camel-folder-thread.c:465-483 | Building a new empty root keeps the invariant |
| `ThreadKeep.PassKeeps` | src/camel/camel-folder-thread.c:428-434 | Passing a root that needs no merge keeps the invariant |
| `ThreadKeep.AdoptSound` | src/camel/camel-folder-thread.c:447-450 | A message gets a new ancestor only below a root of its subject that is no reply |
| `ThreadKeep.AdoptMsgs` | src/camel/camel-folder-thread.c:447-450 | No message is lost or duplicated |
| `ThreadKeep.MergeMsgs` | src/camel/camel-folder-thread.c:436-460 | No message is lost or duplicated |
| `ThreadKeep.PairMsgs` | src/camel/camel-folder-thread.c:465-483 | No message is lost or duplicated |
| `ThreadKeep.AdoptAbove` | src/camel/camel-folder-thread.c:447-450 | Ancestors afterwards are those before |
| `ThreadKeep.MergeAbove` | src/camel/camel-folder-thread.c:436-460 | Ancestors afterwards are those before, and a root with a message above what is put below it |
| `ThreadKeep.PairAbove` | src/camel/camel-folder-thread.c:465-483 | Ancestors afterwards are those before |
| `ThreadWhole.MergeWhole` | src/camel/camel-folder-thread.c:436-460 | Two messages under one root stay so when a root goes into its container |
| `ThreadWhole.AdoptWhole` | src/camel/camel-folder-thread.c:447-450 | And when an empty root takes in its container |
| `ThreadWhole.PairWhole` | src/camel/camel-folder-thread.c:465-483 | And when two roots go below a new empty one |
| `ThreadJoins.JoinsNow` | src/camel/camel-folder-thread.c:451-460 | A reply of which no other message that is none stands in front comes up while its container is still the message |
| `ThreadJoins.NowJoins` | src/camel/camel-folder-thread.c:451-460 | Only such a reply does |
| `ThreadJoins.MergeJoining` | src/camel/camel-folder-thread.c:436-460 | Merging a root into its container gives exactly the new ancestors that it should have then |
| `ThreadJoins.AdoptJoining` | src/camel/camel-folder-thread.c:447-450 | An empty root that takes its container as a child gives no message a new ancestor, and none that it should have |
| `ThreadJoins.PairJoining` | src/camel/camel-folder-thread.c:465-483 | Nor does a new empty root over a root and its container, after which nothing comes below that message |
| `ThreadJoins.EndJoining` | src/camel/camel-folder-thread.c:428-487 | When all roots have been passed the new ancestors are exactly those |
| `ThreadGroup.RemoveNode` | src/camel/camel-folder-thread.c:375-401 | The node leaves the list of the roots or of its parent, and the trailing pointer stays right |
| `ThreadGroup.AddChild` | src/camel/camel-folder-thread.c:177-184 | The tree becomes the first child of the node |
| `ThreadGroup.StealChildren` | src/camel/camel-folder-thread.c:436-446 | The children of one empty root go to the end of the other, with parents left stale |
| `ThreadGroup.InsertAt` | src/camel/camel-folder-thread.c:478-483 | The new root stands where the container stood |
| `ThreadSorting.SortThread` | src/camel/camel-folder-thread.c:603-650 | The lists in memory become the sorted forest, at every level, with the neighbours in the order of the dates sent, or received where that is 0 or less |
| `ThreadSorting.QSort` | src/camel/camel-folder-thread.c:623-628 | The array ends up in the one order the comparator allows, by `SortedUnique` the same for any sort algorithm |
| `ThreadSorting.SortedUnique` | src/camel/camel-folder-thread.c:552-600 | There is only one order: two sorted arrangements of the same nodes are equal |
| `ThreadSorting.SortNodeCbOk` | src/camel/camel-folder-thread.c:552-600 | The comparator is negative exactly if the first node comes before the second by the date sent, or received where that is 0 or less, then by input order, a dummy standing for its first child |
| `ThreadSorting.Relink` | src/camel/camel-folder-thread.c:630-646 | The list is linked in the order of the array |
| `ThreadSorting.SortSiblings` | src/camel/camel-folder-thread.c:609-650 | One list of siblings is sorted and linked |
| `ThreadSorting.SortChildren` | src/camel/camel-folder-thread.c:613-618 | The children of a node are sorted first, so a dummy is compared by its first sorted child |
| `ThreadSort.SortSorts` | src/camel/camel-folder-thread.c:603-650 | Every sibling list of the result is strictly increasing |
| `ThreadSort.SortByDate` | src/camel/camel-folder-thread.c:552-600 | Neighbours of every sibling list are in the order of the dates of their items, field by field |
| `ThreadSort.LessEarlier` | src/camel/camel-folder-thread.c:574-599 | The order compares the dates sent if both are positive; where one is 0 or less the date received stands in for it; the input order breaks ties |
| `ThreadSort.SortKeeps` | src/camel/camel-folder-thread.c:603-650 | The sort keeps the messages |
| `ThreadSort.SortKeepsAncestors` | src/camel/camel-folder-thread.c:603-650 | The sort keeps exactly the ancestors |
| `ThreadSort.SortDistinct` | src/camel/camel-folder-thread.c:603-650 | No node occurs twice |
| `ThreadSort.SortShape` | src/camel/camel-folder-thread.c:603-650 | Empty nodes stay at the root, with two or more children |
| `ThreadTogether.SortTogether` | src/camel/camel-folder-thread.c:603-650 | Two messages are under one root afterwards if and only if they were before |
| `ThreadPromote.RemovePhantoms` | src/camel/camel-folder-thread.c:784-860 | The pass leaves the promoted forest with all parents right, also those that regrouping left stale |
| `ThreadPromote.ReplaceRoot` | src/camel/camel-folder-thread.c:787-855 | One empty root gives way to its first child, which takes the siblings and is the one placed |
| `ThreadPromote.SwapOldest` | src/camel/camel-folder-thread.c:796-838 | After the swaps the oldest message is on top and the siblings hold the others |
| `ThreadPromote.FixParents` | src/camel/camel-folder-thread.c:841-850 | The parents of the siblings are right again |
| `ThreadPhantom.PromoteKeepsMessages` | src/camel/camel-folder-thread.c:784-860 | Every message is kept, once |
| `ThreadPhantom.PromoteFull` | src/camel/camel-folder-thread.c:784-860 | No empty node is left |
| `ThreadPhantom.PromoteNodes` | src/camel/camel-folder-thread.c:784-860 | No node occurs twice, and none is new |
| `ThreadPhantom.AncestorsSurvive` | src/camel/camel-folder-thread.c:796-838 | Every ancestor survives the pass if and only if no swap is made or, under each empty root, no message that has replies gives up its place to an older one |
| `ThreadPhantom.OlderSibling` | src/camel/camel-folder-thread.c:796-838 | A forest in which a message with a reply gives up its place to an older sibling, and the reply is no longer below it |
| `ThreadPhantom.SafePromote` | src/camel/camel-folder-thread.c:796-838 | Safe swaps lose no ancestor |
| `ThreadPhantom.UnsafePromote` | src/camel/camel-folder-thread.c:796-838 | An unsafe swap loses an ancestor: it names the two messages |
| `ThreadPhantom.PromoteAncestors` | src/camel/camel-folder-thread.c:784-860 | Without swaps the only new ancestor is the child that takes the place of its empty root |
| `ThreadPhantom.PromoteIncreasing` | src/camel/camel-folder-thread.c:784-860 | A sorted root list stays strictly increasing: an empty root was filed under the child promoted in its place |
| `ThreadPhantom.OldestOnTop` | src/camel/camel-folder-thread.c:796-838 | The message that replaces an empty root is no later than any of its siblings, in the fields of the items |
| `ThreadPhantom.FirstStays` | src/camel/camel-folder-thread.c:796-838 | The first child stays on top if none of the others is older |
| `ThreadPhantom.PromoteListing` | src/camel/camel-folder-thread.c:784-860 | Without swaps the messages are listed in the same order as before, from the top down |
| `ThreadTogether.PromoteTogether` | src/camel/camel-folder-thread.c:784-860 | Two messages are under one root afterwards if and only if they were before |
| `BlockDisk.WriteRead` | src/camel/camel-block-file.c:811-826 | A block that is written is read back, no other changes, and the file is then just long enough |
| `BlockCache.BlockFile.GetBlock` | src/camel/camel-block-file.c:618-701 | It returns what the block holds, in the cache or in the file, and changes what no block holds, also when it evicts or a write fails; it fails exactly for an invalid id or an unreadable file, changing nothing; blocks in use stay; a hit moves to the front and the others keep their order; after a miss the count is within the limit or of the old blocks only pinned or unwritable ones are left |
| `BlockCache.BlockFile.Miss` | src/camel/camel-block-file.c:645-692 | A miss brings the block in and evicts, changing no view |
| `BlockCache.BlockFile.Evict` | src/camel/camel-block-file.c:669-688 | Blocks go from the least recently used on until the count is within the limit; behind the place it stops at only pinned or unwritable blocks are left |
| `BlockCache.BlockFile.Flush` | src/camel/camel-block-file.c:672-682 | A block goes exactly if nobody uses it and it is clean or can be written, and no view changes |
| `BlockCache.BlockFile.Drop` | src/camel/camel-block-file.c:675-680 | A block that is as it is in the file can go without a change of view |
| `BlockCache.BlockFile.Insert` | src/camel/camel-block-file.c:652-667 | The new block is in the table under its id and holds what the file holds |
| `BlockCache.BlockFile.Unlink` | src/camel/camel-block-file.c:690-692 | The hit block leaves the queue, the others keep their order |
| `BlockCache.BlockFile.PushFront` | src/camel/camel-block-file.c:694-695 | The block is the most recently used one and has one more user |
| `BlockCache.BlockFile.SyncBlockNolock` | src/camel/camel-block-file.c:811-826 | A dirty block is written, and is clean if that worked; what any block holds does not change |
| `BlockAlloc.NewBlock` | src/camel/camel-block-file.c:545-574 | It returns a block exactly if the first free one, or the one at the end, can be fetched, so whenever the file can be read. The block is zeroed, was not allocated and now is, no other allocation or content changes; a failure changes nothing; the free chain stays finite, without duplicates and inside the file. Afterwards the file is honest about its clean shutdown if and only if its SYNC flag is not set |
| `BlockAlloc.FreeBlock` | src/camel/camel-block-file.c:583-606 | The block becomes the first of the free chain and is no longer allocated; nothing else changes; afterwards the file is honest if and only if its SYNC flag is not set |
| `BlockAlloc.Pop` | src/camel/camel-block-file.c:554-558 | The first free block is taken, the chain goes on with the block it links to |
| `BlockAlloc.Extend` | src/camel/camel-block-file.c:559-564 | With no free block the file grows by one |
| `BlockAlloc.Push` | src/camel/camel-block-file.c:598-602 | The freed block links to the old head of the chain |
| `BlockAlloc.Claim` | src/camel/camel-block-file.c:567-570 | Changing one block and the root block and marking both dirty keeps cache and file in agreement |
| `BlockAlloc.TailChained` | src/camel/camel-block-file.c:554-558 | A chain without its head is a chain, and just the head is newly allocated |
| `BlockAlloc.HeadChained` | src/camel/camel-block-file.c:598-602 | A chain with a new head is a chain, and just the head is no longer allocated |
| `BlockAlloc.Get` | src/camel/camel-block-file.c:618-701 | Fetching a block keeps the chain, also when links are evicted and read again, and the honesty of the file |
| `BlockAlloc.Change` | src/camel/camel-block-file.c:618-701 | A holder who changes an allocated block changes no other and not the chain |
| `BlockAlloc.Unref` | src/camel/camel-block-file.c:794-809 | The last user may go if he marked what he changed |
| `BlockSync.TouchBlock` | src/camel/camel-block-file.c:760-781 | The first touch after a sync clears the SYNC flag in memory and in the file; the file stays honest if and only if its flag was not set or that write succeeds, and still ends where the root block says if and only if the block lies inside it |
| `BlockSync.Unsync` | src/camel/camel-block-file.c:772-776 | The flag is cleared in the file exactly if it opens and the root block can be written |
| `BlockSync.Sync` | src/camel/camel-block-file.c:897-919 | If it succeeds, file and memory agree on the root block with SYNC set, and no block is dirty; it succeeds if the file opens and everything can be written; honesty is kept either way |
| `BlockSync.SyncNolock` | src/camel/camel-block-file.c:828-857 | The same once the file is open |
| `BlockSync.SyncBlocks` | src/camel/camel-block-file.c:836-845 | The dirty blocks are written until that fails |
| `BlockSync.AllocateAfterSync` | src/camel/camel-block-file.c:545-574 | A block allocated after a successful sync leaves the SYNC flag set in a file with dirty blocks; both succeed whenever the file can be read and written |
| `BlockSync.TouchBehindEnd` | src/camel/camel-block-file.c:618-640 | The block just behind the end of the file can be fetched, and once it is touched the file does not end where the root block says |
| `BlockSync.SyncedValid` | src/camel/camel-block-file.c:104-118 | After a successful sync the file passes the check of its root block: its size is `last` and SYNC is set |
| `BlockSync.SyncedBlocks` | src/camel/camel-block-file.c:828-857 | After a successful sync the file holds what every block holds |
| `BlockSync.New` | src/camel/camel-block-file.c:344-391 | A file is opened as it is if and only if its root block, word by word, has the version, SYNC set, the block size, a free chain that starts at a block offset not behind the end of the file, and the size of the file as its end; any other becomes a new root block alone, and is opened exactly if that can be written and the file cut |
| `BlockSync.SyncAndReopen` | src/camel/camel-block-file.c:344-391 | Syncing and opening the file again shows the same blocks and the same free chain |
| `BlockSync.TouchAndReopen` | src/camel/camel-block-file.c:760-781 | After a block was touched and the flag written out, opening the file again starts anew with a root block only |
| `BlockSync.CleanRootIs` | src/camel/camel-block-file.c:104-118 | The check of the root block, word by word |
| `BlockSync.InitRootClean` | src/camel/camel-block-file.c:123-136 | A new root block is that of a clean file of one block, with no other word set |
| `BlockLimiter.Limiter.Use` | src/camel/camel-block-file.c:227-304 | It succeeds exactly if the file is open or can be opened; when one file is used at a time the number of open files stays within the threshold; a file already open keeps its place; only files whose locks are free are closed |
| `BlockLimiter.Limiter.CloseOld` | src/camel/camel-block-file.c:271-299 | Closing goes from the head of the idle list on and stops once there are few enough |
| `BlockLimiter.Limiter.GoOnline` | src/camel/camel-block-file.c:254-303 | The opened file is on the list of files in use and others are closed |
| `BlockLimiter.Limiter.Unuse` | src/camel/camel-block-file.c:306-320 | The file goes to the end of the idle list |
| `BlockLimiter.Limiter.Delete` | src/camel/camel-block-file.c:510-534 | The file loses its descriptor, and the count is right |
| `BlockLimiter.Limiter.Finalize` | src/camel/camel-block-file.c:147-158 | The file is on neither list any more, and the count is right |
| `BlockLimiter.Limiter.Add` | src/camel/camel-block-file.c:219-222 | A new file is on the idle list |
| `BlockLimiter.Limiter.OnlyOne` | src/camel/camel-block-file.c:271-299 | When all idle files are closed only the one in use is open |
| `BlockLimiter.WithoutSplit` | src/camel/camel-block-file.c:254-304 | A file that leaves a list leaves the others in their order |
| `KeyFile.KeyFile.Write` | src/camel/camel-block-file.c:1224-1274 | The new list is the head of a chain that goes on with its parent; all other chains read as before; nothing changes on failure |
| `KeyFile.KeyFile.Read` | src/camel/camel-block-file.c:1288-1339 | A list that was written is read back, with a next offset that is smaller, exactly if it has at most 1024 keys |
| `KeyFile.KeyFile.ReadChain` | src/camel/camel-block-file.c:1288-1339 | Reading from the head of a chain gives its lists newest first and comes to the end, exactly if none is too long |
| `KeyFile.ReadEncode` | src/camel/camel-block-file.c:1251-1326 | What was written between other bytes is read back, exactly if it is not too long |
| `KeyFile.OneTooMany` | src/camel/camel-block-file.c:1251-1326 | A list of 1025 keys is not read back |
| `KeyFile.ChainKept` | src/camel/camel-block-file.c:1224-1274 | A new list leaves the chains of other heads as they are |
| `KeyFile.ChainLonger` | src/camel/camel-block-file.c:1224-1274 | The chain of the new head is its list and the chain of its parent |
| `KeyFile.WordsAllBytes` | src/camel/camel-block-file.c:1251-1326 | Words are read back from the bytes they were written as |
| `KeyFile.KeyFile.Add` | src/camel/camel-block-file.c:1251-1261 | Appending keeps all lists where they are |
| `DbLock.EveryRun` | src/camel/camel-db.c:628-733 | In every interleaving where threads give back only what they took, reader locks before the last writer lock, and nobody asks to write while only reading, the level is the number of writer locks of the owner, a positive level means that the owner holds the read-write lock for writing and nobody else holds any lock, whoever is about to release the read-write lock holds it, and no warning fires |
| `DbLock.StepKeeps` | src/camel/camel-db.c:628-733 | Every step of any thread keeps the invariant |
| `DbLock.StepQuiet` | src/camel/camel-db.c:641-669 | The conditions the code warns about hold |
| `DbLock.Exclusion` | src/camel/camel-db.c:628-733 | The locks that the events of a run gave and did not take back exclude each other: with a writer lock a thread owns the read-write lock for writing, at the level of their number, nobody else has any lock and none can be acquired; with reader locks alone it holds the read-write lock that often and nobody can acquire it for writing |
| `DbLock.RunTally` | src/camel/camel-db.c:628-733 | The locks counted from the events of a run are those a thread is to give back |
| `DbLock.WriterWaits` | src/camel/camel-db.c:628-733 | A writer waits while a reader has its lock, and gets it afterwards |
| `DbLock.Balanced` | src/camel/camel-db.c:628-733 | When every thread has given back its locks, nothing is held |
| `DbLock.UnlockExact` | src/camel/camel-db.c:661-681 | After giving back a writer lock a thread still holds every reader lock it is to give back, or is still the owner, if and only if it kept to the rule |
| `DbLock.TooEarly` | src/camel/camel-db.c:661-733 | In any run so far, a thread that gives back its last writer lock with a reader lock left then gives back that one without holding it, whatever the others do meanwhile |
| `DbLock.Unnested` | src/camel/camel-db.c:661-733 | The shortest such run, which is possible from the start |
| `DbLock.Upgrade` | src/camel/camel-db.c:635-638 | A thread that asks to write while it reads waits forever |
| `DbLock.OwnFits` | src/camel/camel-db.c:628-733 | Every step keeps the state of the thread that makes it consistent with the locks |
| `DbLock.OtherFits` | src/camel/camel-db.c:628-733 | And that of all other threads |
| `DbSavepoint.RunMeans` | src/camel/camel-db.c:1133-1224 | Every balanced run goes through; RELEASE and ROLLBACK always name the savepoint made last; open names differ; an aborted transaction leaves the database as at its begin whatever was committed inside; and the savepoints are those of before |
| `DbSavepoint.TransactionMeans` | src/camel/camel-db.c:1133-1224 | The same for one transaction around a run |
| `DbSavepoint.LockedMeans` | src/camel/camel-db.c:628-681 | A writer lock around a run changes nothing but the names in it |
| `DbSavepoint.NameInjective` | src/camel/camel-db.c:735-749 | Different levels give different names |
| `DbSavepoint.Top` | src/camel/camel-db.c:1169-1224 | The name of the present level finds the savepoint made last |
| `DbSavepoint.Connection.BeginTransaction` | src/camel/camel-db.c:1133-1156 | A savepoint named by the new level, or nothing changed |
| `DbSavepoint.Connection.EndTransaction` | src/camel/camel-db.c:1169-1188 | The savepoint made last is gone, the database as it was |
| `DbSavepoint.Connection.AbortTransaction` | src/camel/camel-db.c:1200-1224 | The savepoint made last is gone and the database is as when it was made |
| `DbSync.EveryRun` | src/camel/camel-db.c:79-191 | In every interleaving the count is that of the requests captured, queued or running; every bit asked for is synced afterwards and before the file below is closed; nothing happens to the file after that; bits that wait have a timer, and `DbSync.TimerSyncs` says that it syncs them |
| `DbSync.StepKeeps` | src/camel/camel-db.c:79-191 | Every step keeps the invariant, and the counter counted down is positive |
| `DbSync.StepNothingLost` | src/camel/camel-db.c:303-334 | A bit asked for has been synced since or is on its way |
| `DbSync.TimerHandsOver` | src/camel/camel-db.c:176-191 | The timer puts all bits that waited into one new queued request, counts it, and clears them and itself |
| `DbSync.PoolSyncs` | src/camel/camel-db.c:79-107 | A queued request can be taken and run, which syncs its bits |
| `DbSync.TimerSyncs` | src/camel/camel-db.c:79-191 | From every state reached in which bits wait and nobody closes the file, the timer and the pool can sync exactly these bits |
| `DbSync.CloseHandsOver` | src/camel/camel-db.c:258-301 | Closing cancels the timer, hands the bits that wait to the pool and waits for that request; the file below is closed only when all requests are done |
| `DbSync.WayKept` | src/camel/camel-db.c:109-174 | A bit on its way stays so until the sync that carries it |
| `DbSync.StepCounts` | src/camel/camel-db.c:90-96 | The counter follows the requests |
| `DbSync.CloseEnds` | src/camel/camel-db.c:258-301 | Once closing has begun every step brings it nearer, and until it is done there is a step to take |
| `GpgStatus.Feed` | src/camel/camel-gpg-context.c:1866-1885 | However the stream is cut into reads, the lines handled are those of the whole stream up to the first that cannot be handled, and the buffer keeps what comes after the last newline |
| `GpgStatus.Status.ParseStatus` | src/camel/camel-gpg-context.c:1246-1754 | The whole lines in the buffer are handled up to the first that cannot be; the rest stays; used plus free room does not change |
| `GpgStatus.Status.ParseLine` | src/camel/camel-gpg-context.c:1246-1263 | One line is taken out of the buffer, or none is whole |
| `GpgStatus.Status.Backup` | src/camel/camel-gpg-context.c:1759-1777 | The bytes are appended inside the allocation; room used and free together changes only when the buffer grows, and never shrinks |
| `GpgStatus.Status.Grow` | src/camel/camel-gpg-context.c:1760-1772 | The new buffer has room, the old bytes, and one spare byte |
| `GpgStatus.Status.Recycle` | src/camel/camel-gpg-context.c:1740-1748 | The handled bytes make room at the end |
| `GpgStatus.Status.FindNewline` | src/camel/camel-gpg-context.c:1248-1255 | The first newline, or the end |
| `GpgStatus.LinesUnique` | src/camel/camel-gpg-context.c:1246-1263 | The lines and the rest are the one way to cut a stream at its newlines |
| `GpgStatus.LinesJoin` | src/camel/camel-gpg-context.c:1246-1263 | Put together again they are the stream |
| `GpgStatus.LinesAppend` | src/camel/camel-gpg-context.c:1866-1885 | A longer stream begins with the same lines |
| `GpgStatus.GoodAppend` | src/camel/camel-gpg-context.c:1246-1754 | Handling more lines after an error changes nothing |
| `GpgStatus.FeedStep` | src/camel/camel-gpg-context.c:1866-1885 | What one more read adds to the lines of the stream |
| `SummaryCounts.Summary.ReplaceFlags` | src/camel/camel-folder-summary.c:676-764 | Saved, deleted and junk counts stay equal to counting again; visible and junk-not-deleted counts do if and only if not one of junk and deleted flips while the other stays set; the unread count does if and only if, in a folder neither for junk nor for trash, the message is not hidden or shown while it stays unseen and, in one for both, not deleted or undeleted while it stays unseen nor its SEEN bit changed while it stays deleted; in a folder for one of them always. It returns TRUE exactly if the flags of a known uid differ in more than FOLDER_FLAGGED; counts move exactly if deleted or junk changes, or SEEN on a message that counts |
| `SummaryCounts.DeletedJunk` | src/camel/camel-folder-summary.c:676-764 | A junk message that becomes deleted leaves a wrong count |
| `SummaryCounts.DeletedUnseen` | src/camel/camel-folder-summary.c:676-764 | An unseen message that becomes deleted leaves the unread count wrong |
| `SummaryCounts.Summary.Replace` | src/camel/camel-folder-summary.c:746-756 | The same for a change of flags that is not ignored |
| `SummaryCounts.Summary.Changes` | src/camel/camel-folder-summary.c:702-744 | The bits to count off and on are right for the unread count exactly in those cases |
| `SummaryCounts.Summary.UpdateCounts` | src/camel/camel-folder-summary.c:441-520 | Each counter moves by one for the flags it is for; unread does not go below zero; it reports a change for all flags |
| `SummaryCounts.Summary.Add` | src/camel/camel-folder-summary.c:2350-2399 | A message with a new uid keeps all counts right; one with a known uid replaces the flags and changes no count, so that each stays right if and only if the message counts for it as before |
| `SummaryCounts.Summary.RemoveUid` | src/camel/camel-folder-summary.c:2693-2731 | All counts stay right, and unread never sticks at zero |
| `SummaryCounts.Summary.RemoveUids` | src/camel/camel-folder-summary.c:2744-2768 | The same for a list of uids, unknown and repeated ones too |
| `SummaryCounts.Summary.Clear` | src/camel/camel-folder-summary.c:2606-2634 | All counts are right for the empty summary |
| `SummaryCounts.ShownRight` | src/camel/camel-folder-summary.c:441-520 | Counting off and on gives the right difference exactly if not one of junk and deleted flips while the other stays set |
| `SummaryCounts.CountMeans` | src/camel/camel-folder-summary.c:441-520 | Counting again gives the number of uids with the flags that each count is for |
| `SummaryCounts.CountPut` | src/camel/camel-folder-summary.c:751-756 | How counting again changes with the flags of one message |
| `SummaryCounts.CountDrop` | src/camel/camel-folder-summary.c:2712-2716 | How counting again changes when a message goes |
| `SummaryCounts.CounterRight` | src/camel/camel-folder-summary.c:746-749 | A 32-bit counter that was right stays right exactly if it moves by that difference |
| `FileCodec.Uint32RoundTrip` | src/camel/camel-file-utils.c:48-93 | Every 32-bit value is read back from its seven-bit form and nothing behind it is read |
| `FileCodec.Uint32Shortest` | src/camel/camel-file-utils.c:48-65 | No other bytes that read as the value are fewer |
| `FileCodec.Uint32Form` | src/camel/camel-file-utils.c:48-65 | The seven-bit form: the highest digits first, the highest bit set in the last byte only, no leading zero, and the digits make up the value |
| `FileCodec.Uint32Examples` | src/camel/camel-file-utils.c:48-65 | The bytes of 0, 127, 128, the greatest value and two strings |
| `FileCodec.Int64Examples` | src/camel/camel-file-utils.c:140-151 | The bytes of two numbers |
| `FileCodec.Int64RoundTrip` | src/camel/camel-file-utils.c:140-169 | Every 64-bit value is read back from its eight bytes in two's complement |
| `FileCodec.TextRoundTrip` | src/camel/camel-file-utils.c:272-328 | A string is read back up to its 65536th byte, a missing one as empty, and nothing behind it is read |
| `FileCodec.Stream.EncodeUint32` | src/camel/camel-file-utils.c:48-65 | The loop writes the digits to the base 128 with the last one flagged |
| `FileCodec.Stream.DecodeUint32` | src/camel/camel-file-utils.c:74-93 | The loop reads them and fails exactly at the end of the file |
| `FileCodec.Stream.EncodeInt64` | src/camel/camel-file-utils.c:140-151 | The loop writes the eight bytes highest first |
| `FileCodec.Stream.DecodeInt64` | src/camel/camel-file-utils.c:153-169 | The loop puts the bytes back, and fails exactly if there are fewer than eight |
| `FileCodec.Stream.EncodeString` | src/camel/camel-file-utils.c:272-288 | The length plus one and then the bytes, cut at 65536 |
| `FileCodec.Stream.DecodeString` | src/camel/camel-file-utils.c:300-328 | The string, or failure if it is cut off or its length is not one that is written |
| `FileCodec.DigitsLength` | src/camel/camel-file-utils.c:54-62 | The number of digits is the least that the value needs |
| `FileCodec.ReadDigits` | src/camel/camel-file-utils.c:78-84 | The reading loop undoes the digits |
| `CertDb.SaveAndLoad` | src/camel/camel-certdb.c:462-608 | Saving a store and loading the file into an empty one gives the same certificates in order, temporary trust turned unknown, if and only if their keys still differ after reloading; they do when all strings are there and fit. In any case each certificate loaded came back from a saved one, field by field, and has no temporary trust |
| `CertDb.CertDb.Load` | src/camel/camel-certdb.c:462-522 | The certificates of the file are put one after the other; a file that breaks off leaves those read so far |
| `CertDb.CertDb.LoadCerts` | src/camel/camel-certdb.c:486-500 | The loop of loading |
| `CertDb.CertDb.Save` | src/camel/camel-certdb.c:525-608 | A dirty store writes its version, its number of certificates and each of them; a clean one writes nothing |
| `CertDb.CertDb.SaveCerts` | src/camel/camel-certdb.c:565-570 | The loop of saving |
| `CertDb.CertDb.CertLoad` | src/camel/camel-certdb.c:164-193 | One certificate, temporary trust turned unknown |
| `CertDb.CertDb.CertSave` | src/camel/camel-certdb.c:195-212 | The bytes of one certificate |
| `CertDb.CertDb.Put` | src/camel/camel-certdb.c:678-707 | The certificate is at the end of the list in place of the one with its key; list and table hold the same, one for each key |
| `CertDb.CertDb.RemoveHost` | src/camel/camel-certdb.c:719-745 | The certificate of the key is gone from both, and the store is dirty exactly if there was one or it was before |
| `CertDb.CertDb.GetHost` | src/camel/camel-certdb.c:642-664 | The certificate of the key, if the list has one |
| `CertDb.CertDb.Clear` | src/camel/camel-certdb.c:754-777 | List and table are empty |
| `CertDb.PutReplaces` | src/camel/camel-certdb.c:76-111 | For certificates equal up to case, putting the second replaces the first if and only if the hash codes of the fingerprints agree |
| `CertDb.PutAllOnePerStrings` | src/camel/camel-certdb.c:76-111 | After any certificates have been put there is one for each host name and fingerprint, whatever their case, if and only if those put with the same strings have the same hash code |
| `CertDb.TwoSpellings` | src/camel/camel-certdb.c:76-111 | With the hash function of the library the fingerprints A and a of one host are both stored |
| `CertDb.MissingHost` | src/camel/camel-certdb.c:164-212 | A missing and an empty host name are two keys, and one after reloading |
| `CertDb.CertRoundTrip` | src/camel/camel-certdb.c:164-212 | A certificate is read back and nothing behind it is read |
| `CertDb.ReloadFields` | src/camel/camel-certdb.c:164-212 | What comes back of each field |
| `CertDb.FileExamples` | src/camel/camel-certdb.c:195-212 | The bytes of a certificate, field after field, and of an empty store |
| `CertDb.LoadSaved` | src/camel/camel-certdb.c:462-608 | Loading what was saved puts the reloaded certificates one after the other |
| `CertDb.PutAllKeeps` | src/camel/camel-certdb.c:678-707 | Putting certificates into an empty list gives just them, in order, exactly if no two have the same key |
| `CertDb.ReloadKey` | src/camel/camel-certdb.c:88-111 | A certificate whose strings are there and fit keeps its key |
| `CertDb.PuttingOnePerKey` | src/camel/camel-certdb.c:678-707 | Putting keeps one certificate per key |
| `CertDb.WithoutSplit` | src/camel/camel-certdb.c:678-745 | A certificate that leaves the list leaves the others in their order |

## Left out

- Freeing memory, reference counting of objects other than cached blocks, properties, signals, logging and debug output.
- Errors of real input and output beyond success or failure of opening, reading and writing; a block is written as a whole or not at all. Renaming files.
- Message threading: reading ids and subjects from folders, the locale rules of stripping subjects (lines 293-371 use them; here they are attributes of the item), and the cache of times used by the comparator.
- ThreadSorting.QSort: stands in for the library's sort; it is any algorithm that sorts.
- ThreadGroup.StealChildren: the two independent writes of lines 436-446 and the unlinking of the root are in the other order.
- Block file: files whose length is not a whole number of blocks, which the check of the root block refuses like any other invalid file; `attach_block` and blocks detached by callers other than the root block; the locks of one file, so its operations run one after the other.
- BlockAlloc.NewBlock: does not model the wrap-around of `last` at 2^32, because offsets are stored in 32 bits and callers stay below.
- BlockLimiter.Limiter.Use: whether another file's locks are free is a parameter, and what is written before a file is closed is not part of this module.
- Key file: the limit on open key files, and write errors, after which an appended fragment stays in the file.
- KeyFile.KeyFile.Write: the offset of a new list must fit 32 bits, as it is stored in 32 bits.
- DbLock.EveryRun: fairness of the read-write lock, so nothing is said about when a waiting thread gets it.
- DbSavepoint.RunMeans: SQLite is a stack of snapshots, and statements other than the transaction ones are arbitrary changes that succeed; the caches released afterwards.
- DbSync.EveryRun: pushing to the thread pool succeeds, a sync that fails below is not repeated, and SQLite calls nothing more on a file after it has called xClose.
- GpgStatus.Status.ParseStatus: what the keywords of a status line mean; whether a line can be handled is any function of it and the lines before. Starting gpg, its other streams and prompts.
- GpgStatus.Feed: an unfinished line and the next read together stay within 2^31 bytes, where the size of the buffer would wrap.
- SummaryCounts.Summary.ReplaceFlags: loading and saving the summary, and the messages themselves.
- SummaryCounts.Summary.Add: how a uid is assigned, and that the set of loaded messages is kept beside the flags.
- FileCodec: the other widths of `CFU_ENCODE_T`, which differ only in the number of bytes, 32-bit fixed integers and fixed strings. A decoded string is the bytes read; C code sees it end at a zero byte.
- CertDb.CertDb.Put: a certificate without fingerprint, for which the hash function of the key has no value; the certificate files themselves.
- CertDb.CertDb.Save: errors while writing, after which the temporary file is removed and the store stays dirty.
- Data cache, filter driver and search, cipher and data wrappers, addresses, filter streams and character sets: mostly dispatch, tables or code that rests on parts that are not part of this model.
