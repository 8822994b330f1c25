# The engine core, verified

A model of the single-threaded core of the object engine, with proofs. Each
part comes in two forms: a small specification on values, and the program as it
works, changing nodes, lists, maps and arrays one step at a time. Every
operation of the second form is proved to come to the first, and what the
engine promises is proved of the first, over all inputs and all runs. What a
specification computes is told a second time from outside: Turns, Effects,
CloneOutcome, JsonText and CharacterText say what each operation does to each
entry, property, record or byte without the functions that compute it, and the
operations are proved to do just that.

| modules | what they are about |
|---|---|
| TrieModel, Namespace | the path trie: a map from keys to values held in a first-child/next-sibling tree of linked nodes with one canonical shape |
| SchedModel, Turns, Scheduler | the time-sorted task list with its insertion hint, the due batch, the pool, and messages as tasks: what one batch runs, order, conservation, clock jumps |
| ClassLoader | the bring-up of class libraries: a ring-buffer worklist, and the least fixed point it reaches |
| GraphModel, Effects, Fabric | instances, property wires kept as two records, links, queued messages, and the scrub on deletion |
| ScrubOrder | the record chains in the order they lie in, and when the scrub steps onto a record it has just freed |
| CloneModel, CloneOutcome, Clone | the three-pass copy of a group of nested containers |
| Common, Decimal, JsonModel, JsonText, Json | printing a node tree as text and parsing it back, on a growing buffer and linked nodes |
| RegistryModel, Registry | the stackless walks over classes and instances, and moving a class |
| PathIndex | the path index and the containers' member lists |
| Base64, CharacterMap, CharacterText, DataObj | the Base64 codec, byte maps and their preset texts, and the lazily converted value |

Where the program departs from what it is for, the model keeps the program as it
is, gives the input that shows it, and says for which inputs it does hold:

- Searching the trie can answer another key's value (`SearchCanStray`); it is
  lookup exactly when no other stored key misleads it (`SearchIsLookupIff`), and
  stored keys are always found. With the exit that is missing it would be lookup
  on every key (`GuardedSearchIsLookup`).
- A clock jump moves pending tasks by whole seconds, so a later message can get
  ahead (`JumpCanReorder`); exactly when is `NextSendIsLastIff` for one reading and
  `DispatchedInOrderIff` for runs.
- Removing a task that waits in the due batch works exactly when it has a batch
  task on either side (`UnspliceDueTask`): the first one's removal leaves the rest
  of the batch out of reach (`LostBatch`), the last one's overwrites the tail of
  the pending list.
- Removing a task that is in the pool already closes the pool into a ring; exactly
  when the pool still ends is `ParkAny`.
- Linking a slot that is itself a link target leaves a chain that names the
  wrong owner (`LinkingATargetMisleads`); exactly when is `LinkKeepsDepthOneIff`.
- Deleting an instance with a property wired to itself can step onto a record
  that was just freed (`SelfWireStumbles`); a deletion is safe in every order of
  the properties exactly when there is no such property (`DeletionIsSafeIff`). The
  runs of GraphModel delete only instances without one.
- Where the classes of one name do not answer every dependency alike, which
  libraries start can depend on the order (`OrderMattersForDuplicates`); exactly
  when is `OrderMattersIff`.
- A wire into a property that does not go to the copy can have no counterpart in
  the clone (`CloneOfPointed`); exactly when is `CounterpartIff`.
- Connecting what is connected already adds no wire, but still counts as a change
  and says so (`BumpCounts`).
- Node text loses NUL characters, out-of-width numbers and double digits;
  `ReadsBack` says a tree survives exactly when it holds none of those.
- Parsing a text that stops inside an escape goes on behind its end
  (`LoneBackslash`, `LoneBackslashText`); exactly when is `ReadsPastTheEndIff` for a
  string and `TextReadsPastIff` for a whole text.
- Lower-case hex is printed but misread (`LowerHexMisreads`); exactly when is
  `HexReadsBackIff`. A minus sign is printed but not read (`TextReadsBackIff`).
- Long integers and large doubles are printed past the blocks made for them; exactly
  which is `IntFitsIff` and `RealFitsIff`.
- A single decimal digit in a character map stands for its character, not for the
  byte of that number; in each of the other notations a byte is read as that byte
  (`ByteReadsIff`).
- A class can be moved under itself or a class below it, which leaves no forest;
  exactly when is `MovedIsForestIff`.
- Registering over a taken name, or under a container that is not there, puts the
  index out of step (`TakenNameBreaks`, `MissingContainerBreaks`); exactly when is
  `RegisterKeepsIff`.

## Model

| member | source | states |
|---|---|---|
| TrieModel.GetInsert | src/namespace.c:97-199 | Inserting a key is map update: the new value under that key, and every other key as before |
| TrieModel.GetDelete | src/namespace.c:272-323 | Deleting a key is map removal: nothing under that key, and every other key as before |
| TrieModel.InsertCanonical | src/namespace.c:97-199 | Inserting a nonzero value keeps siblings strictly sorted and leaves no leaf without a value |
| TrieModel.DeleteCanonical | src/namespace.c:272-323 | Deleting keeps siblings sorted and frees every node that no longer leads to a value |
| TrieModel.EqualMapsEqualTrees | src/namespace.c:262-271 | Two canonical trees that answer every key alike are the same tree, node for node |
| TrieModel.DeleteUndoesInsert | src/namespace.c:262-323 | Deleting a freshly inserted key gives back exactly the earlier tree |
| TrieModel.InsertsCommute | src/namespace.c:97-199 | Two different keys leave the same tree in whichever order they are inserted |
| TrieModel.SearchIsGetAtLanding | src/namespace.c:201-260 | Whatever key is searched, the answer is what is stored under the key the walk really lands on, of the same length, or 0 |
| TrieModel.SearchIsLookupIff | src/namespace.c:201-260 | Search is map lookup if and only if no other stored key misleads it: one of the same length and last character that at each place takes the least stored character not below the one asked for, with a smaller sibling wherever the two differ |
| TrieModel.LandsIff | src/namespace.c:201-260 | The walk ends on a given stored key if and only if that key answers this description, as the one asked for does itself when stored; so where a walk ends can be read off the stored keys |
| TrieModel.SearchIsLookupUnlessItStrays | src/namespace.c:201-260 | Search is map lookup if and only if its walk does not end on another stored key |
| TrieModel.GuardedSearchIsLookup | src/namespace.c:201-260 | With the exit on a mismatch after the sibling walk, search is map lookup for every key and every stored set |
| TrieModel.StrayingMeansAbsent | src/namespace.c:201-260 | A walk that does not end on the key asked for proves that key is not stored |
| TrieModel.PresentKeysAreFound | src/namespace.c:201-260 | A stored key is found, whatever else is stored |
| TrieModel.SearchCanStray | src/namespace.c:222-236 | With aY and cX stored, searching bX answers the value of cX |
| Namespace.NSTrie.constructor | src/namespace.c:16-52 | A new namespace is one root node standing for the empty map |
| Namespace.NSTrie.NSInsert | src/namespace.c:97-199 | The pointer walk and splice come to the recursive insertion, refuse only the empty string, and the live count equals the reachable nodes |
| Namespace.NSTrie.InsertLevel | src/namespace.c:112-196 | One level down: past the smaller siblings, then onto the node with the character or a new one hooked in before the first larger |
| Namespace.NSTrie.Splice | src/namespace.c:122-190 | A new node goes in front of what one pointer led to, and every other node keeps the one pointer that leads to it |
| Namespace.NSTrie.NSSearch | src/namespace.c:201-260 | The loop answers what the recursive reading of it does, on every string |
| Namespace.NSTrie.NSDelete | src/namespace.c:272-323 | Answers whether a stored key of 1 to 512 characters was given; if so the tree is the recursive deletion, else nothing changed; the count stays exact |
| Namespace.NSTrie.FindPath | src/namespace.c:280-304 | The recorded node and link for each character are the ones on the way to the key, and each link is the pointer that leads to its node |
| Namespace.NSTrie.Unwind | src/namespace.c:306-322 | Unwinding the recorded links frees exactly the trailing nodes that stand for nothing |
| Namespace.NSTrie.Unlink | src/namespace.c:310-320 | The pointer that led to a freed node goes on to its sibling, and nothing else moves |
| Namespace.NSTrie.NSRelease | src/namespace.c:54-73 | Releasing the tree brings the live count down by every node reachable from the root |
| SchedModel.InsertKeepsSorted | src/sched.c:365-471 | Stable insertion keeps the list sorted by due time |
| SchedModel.InsertStableAt | src/sched.c:406-470 | Any place with nothing later before it and only later entries behind it is the place stable insertion takes |
| SchedModel.DueAtNormal | src/sched.c:383-398 | With micros up to a million and a normal clock the due time is exactly the delay away, micros staying within a million |
| SchedModel.MoveDueIsActivate | src/sched.c:519-545 | Moving due heads one at a time moves exactly the due prefix, in order |
| SchedModel.NothingDueIsLeft | src/sched.c:519-545 | In a sorted list everything behind the due prefix is due later than now |
| SchedModel.ExecTasksRunsWhatIsDue | src/sched.c:519-593 | One call runs exactly the tasks due at its start, each once, in list order, whatever callbacks add; then the batch is empty and the list sorted |
| SchedModel.RunBatchRunsTheBatch | src/sched.c:549-593 | Draining a batch runs its jobs in order and nothing else, whatever the callbacks do |
| SchedModel.JumpKeepsDelays | src/timer.c:84-116 | After a jump each remaining delay changes by old micros minus new micros; order, jobs and spacing are kept |
| SchedModel.NextWakeIsSoonest | src/sched.c:607-629 | The reported wait is the least remaining delay over the whole list, never negative, and 0 when the list is empty |
| SchedModel.MessagesAreConserved | src/object.c:2889-3013 | In every run each message sent is either pending or freed, exactly once, and at rest no batch is left |
| SchedModel.TearDownFreesEachOnce | src/sched.c:297-330 | After any run, tearing the list down leaves every payload ever sent freed exactly once |
| SchedModel.DispatchedInOrderIff | src/object.c:2987-3013 | In a run, whatever its clock does within its range, messages are in the order they were sent all along if and only if nothing is ever sent while a message waits that is due later than the clock reads |
| SchedModel.DispatchedInOrder | src/object.c:2987-3013 | In every run whose clock neither goes back nor jumps, messages are dispatched in exactly the order they were sent, and the pending ones follow |
| SchedModel.StopKeeps | src/sched.c:228-241 | Cancelling a timer from a callback takes out that one entry at most, no message, and leaves the rest in order |
| SchedModel.StopKeepsMessages | src/sched.c:228-241 | Cancelling a timer loses, repeats and reorders no message |
| SchedModel.FreedIsDispatchedAlong | src/object.c:2889-2927 | In every run a payload is freed when its message is dispatched, in that order, and only then |
| SchedModel.JumpCanReorder | src/sched.c:596-605 | A run with a jump after which the later of two messages is ahead of the earlier |
| SchedModel.NextSendIsLastIff | src/sched.c:475-477 | After any clock reading the next message goes behind all pending ones if and only if none of them is due later than the reading |
| Turns.BeforeIff | src/sched.c:432-442 | Comparing two moments as the list does is comparing what is between them, but for a million micros, which are not yet the next second |
| Turns.RunFirstTurns | src/sched.c:549-593 | A turn asks the first job once; what it asks for is queued in order, messages at once and timers for the delay asked; a re-armed timer waits, in its place, exactly the delay it says from now; every other kind of answer queues nothing; a message is freed |
| Turns.RearmedIsDueThen | src/sched.c:365-398 | A timer that re-arms is the one entry its turn adds to what its callback left, due exactly the seconds and micros asked from now |
| Turns.ExecTasksCalls | src/sched.c:519-593 | A call is such a turn for each entry due when it starts, in order, and leaves behind what those queued |
| Turns.ClockMoves | src/timer.c:84-116 | The first reading of the clock, and one in the same or the next second, leaves every due time alone; any other moves each by the seconds between the readings, around 2^64 |
| Scheduler.TaskList.constructor | src/sched.c:105-119 | A new list is the starting state: nothing pending, due, pooled or alive |
| Scheduler.TaskList.FindPlace | src/sched.c:434-442 | Started from the hint or from an end, the walk finds the place a stable insertion from the head takes |
| Scheduler.TaskList.AddTaskDelay | src/sched.c:365-471 | Adding through the hint is stable insertion by due time; the links, head, tail and hint stay consistent |
| Scheduler.TaskList.RemoveTaskFromList | src/sched.c:158-201 | A linked task leaves its place, pending or strictly inside the due batch, its neighbours join, the hint never keeps it; an unlinked task is left alone |
| Scheduler.TaskList.UnspliceDueTask | src/sched.c:158-201 | The same writes on any task of the batch keep both lists right if and only if it has a batch task on either side; the first one leaves the batch head on itself and leading nowhere, the last one overwrites the tail of the pending list |
| Scheduler.LostBatch | src/sched.c:560-576 | A list of three due timers, the first running: removing the second leaves the third waiting and out of reach of the head |
| Scheduler.TaskList.GetTask | src/sched.c:207-219 | A task comes from the pool if one is there, else it is new and counted; nothing else changes |
| Scheduler.TaskList.RemoveTask | src/sched.c:228-241 | A task goes off its list or out of the inside of the batch and onto the pool, once |
| Scheduler.TaskList.ParkAny | src/sched.c:228-241 | The same writes on any task that is on no list: whoever follows the pool comes to its end if and only if the task was not pooled already |
| Scheduler.TaskList.StopTimer | src/sched.c:228-241 | The first pending timer of that name is retired, if there is one; nothing else changes |
| Scheduler.TaskList.AddTaskToTail | src/sched.c:494-510 | The batch grows at its end by this task and the pending list is untouched |
| Scheduler.TaskList.ActivateTimedTasks | src/sched.c:519-545 | Exactly the due prefix goes to the batch, in order |
| Scheduler.TaskList.SndMsg | src/object.c:2987-3013 | A message gets the next serial, one more envelope is alive, and a task due now carries it |
| Scheduler.TaskList.TakeFirst | src/sched.c:560-576 | The first of the batch is unlinked and in hand, the rest keep their order, and the new first one still names it as what is before |
| Scheduler.TaskList.RunOne | src/sched.c:549-593 | One turn asks the first due job once, queues what it asks for in order, and then re-arms it for as long as it says from now, parks it or keeps it: told both as the specification's turn and by its effects (Turn) |
| Scheduler.TaskList.ExecTasks | src/sched.c:549-593 | The loop over the pointers comes to the batch run of the specification, which is one turn for each entry due at the start, in order (Call), and ends even if every callback re-arms at once |
| Scheduler.TaskList.FreeEnvelope | src/object.c:2889-2927 | One fewer envelope is alive and that serial is recorded as freed |
| Scheduler.TaskList.DeactivateTask | src/sched.c:245-255 | A pending task, or one inside the batch, leaves its list, and if it carried a message its payload is freed |
| Scheduler.TaskList.DeleteTask | src/sched.c:258-294 | A task struct is freed wherever it is, out of the list or pool, the count one less, its payload freed if it carried one |
| Scheduler.TaskList.DeleteList | src/sched.c:297-330 | Every pending task is torn down and the pool freed; only tasks in a caller's hand are left |
| Scheduler.TaskList.AdjustDelayedTasks | src/sched.c:596-605 | Every pending task moves by the same whole seconds and the list is still sorted |
| Scheduler.TaskList.TimeUpdate | src/timer.c:84-116 | The clock is replaced and the reported jump is 0 unless the seconds went back or on by more than one |
| Scheduler.TaskList.MainLoop | src/main.c:134-145 | One turn is a clock step that moves pending tasks on a jump, followed by one batch |
| Scheduler.TaskList.SchedNextWakeMicros | src/sched.c:607-629 | The wait read off the head of the list |
| ClassLoader.RegisterKeeps | src/object.c:3515-3564 | A class name that is registered keeps its first class whatever registers later |
| ClassLoader.MetStays | src/object.c:662-706 | A dependency once met stays met, so a recorded answer stays right |
| ClassLoader.UniqueNamesAgree | src/object.c:515-529 | Unique class names are one way for all classes of a name to answer every dependency alike |
| ClassLoader.NamesAreHas | src/object.c:833-989 | Which class names are registered depends only on which libraries are up, whatever names are shared |
| ClassLoader.ClassesAreHas | src/object.c:833-989 | With unique class names the class index depends only on which libraries are up, not on their order |
| ClassLoader.StartedIsLeastFixedPoint | src/object.c:833-989 | Where the classes of one name answer every declared dependency alike, a complete bring-up starts exactly the least set closed under having every dependency there |
| ClassLoader.OrderDoesNotMatter | src/object.c:878-973 | Where they do, two complete bring-ups start the same libraries whatever the work-list order |
| ClassLoader.OrderMattersIff | src/object.c:878-973 | Two complete bring-ups can start different libraries if and only if some library can be started after one order and finds a class at a version it refuses after another |
| ClassLoader.RunGoesOn | src/object.c:833-989 | Every bring-up that has begun can be carried on to a complete one |
| ClassLoader.OrderMattersForDuplicates | src/object.c:515-529 | With one class name registered at two versions, two complete bring-ups start different libraries |
| ClassLoader.IndexIsScanned | src/object.c:866-877 | A file name stands for the last library scanned under it, an empty one for none |
| ClassLoader.FirstRegistrationStands | src/object.c:3515-3564 | The class index holds each name at the version it was registered at first: by the core, else by the first library started that registers it |
| ClassLoader.MetIff | src/object.c:667-691 | What is answered of a dependency is that its file is up and its class stands at the major asked for and no earlier minor |
| ClassLoader.VersionsMet | src/object.c:515-529 | A dependency on the very version registered is met, and so is one on an earlier minor, the major alone or none; a later minor or another major is not |
| ClassLoader.StartedIff | src/object.c:833-989 | A complete bring-up has started exactly the libraries whose every dependency is satisfied by what it started |
| ClassLoader.Loader.SlotsDiffer | src/object.c:917-950 | Two places of the ring less than its size apart are different slots |
| ClassLoader.Loader.PutBack | src/object.c:946-950 | Putting an entry back overwrites no queued entry |
| ClassLoader.Loader.TakeFront | src/object.c:917-920 | Taking the front leaves the rest of the queue in place |
| ClassLoader.Loader.DependencyMet | src/object.c:667-691 | True exactly when the last library scanned under the file name is up and the class, as first registered, is at the major asked for and at no earlier minor; nothing asked accepts any |
| ClassLoader.Loader.UnmetCount | src/object.c:695-706 | Zero exactly when every dependency is met, without rechecking those recorded as met |
| ClassLoader.Loader.Start | src/object.c:922-928 | A library that can start is appended to the started ones, once, and its classes registered |
| ClassLoader.Loader.LoadClasses | src/object.c:833-989 | Terminates; each library is started at most once; at the end a library has been started if and only if every dependency it declares is satisfied, file and version, by what is up |
| GraphModel.ConnectKeeps | src/object.c:2648-2771 | Connecting leaves exactly one more wire, recorded once at both resolved ends however often it is done, and the graph well formed |
| GraphModel.BumpCounts | src/object.c:2748-2760 | Each connect and disconnect raises the Wiring count of the sink's owner by one, as a LONG, changes nothing else, and sends one message if that count is listened to |
| GraphModel.BumpCountsIff | src/object.c:2748-2760 | The count goes up if and only if it is no link; a link's own count stays and what it leads to is written |
| GraphModel.DisconnectKeeps | src/object.c:2779-2853 | Disconnecting takes down exactly the one wire between the two resolved ends, at both |
| GraphModel.AddWireKeepsPaired | src/object.c:2195-2266 | Whatever two properties are wired, each still records the other exactly once |
| GraphModel.CutWireKeepsPaired | src/object.c:2800-2853 | Whatever wire is cut, both records go and every other wire keeps both |
| GraphModel.LinkKeepsDepthOneIff | src/object.c:1587-1608 | Linking keeps every link one step long if and only if the slot is not itself the target of a link, the new one included |
| GraphModel.LinkingATargetMisleads | src/object.c:1587-1608 | Linking a slot that is a target leaves a link that resolves to a property of a third instance but names the second |
| GraphModel.LinkKeeps | src/object.c:1587-1608 | A link from a slot nothing links to keeps the graph well formed |
| GraphModel.WriteKeeps | src/node.c:995-1021 | A property write, through a link or not, keeps the graph well formed and loses no property |
| GraphModel.DispatchKeeps | src/object.c:2889-2927 | Delivering the oldest message, whatever handlers write, keeps the graph well formed |
| GraphModel.RegisterKeeps | src/object.c:3630-3651 | A new instance with its declared properties keeps the graph well formed |
| GraphModel.EnrolKeeps | src/object.c:158-258 | So does telling its container, in LastMember, of the path it was given |
| GraphModel.DeleteKeeps | src/object.c:3862-3903 | After a deletion the graph is well formed, the instance is gone, and exactly the wires that did not touch it are left |
| GraphModel.RunKeepsWF | src/object.c:2648-2960 | Every run of create, link, connect, disconnect, write, send, dispatch and delete, of instances with no property wired to itself, keeps the graph well formed |
| GraphModel.NothingDangles | src/object.c:3663-3903 | In every such run each instance named by a record, a link, a pending message or the path index is registered |
| Effects.EightLinks | src/node.c:200-208 | A chain of links is followed to its end, and no further than the eighth link |
| Effects.WriteStores | src/node.c:838-1021 | A write stores the value where the slot stands for, changes nothing else, and queues one message exactly when something listens there |
| Effects.SendQueues | src/object.c:2987-3029 | A sent message leaves by what the slot stands for, whoever listens, and by an absent slot not at all |
| Effects.DispatchHandsOn | src/object.c:2889-2927 | Whatever handlers answer, each subscriber of the oldest message's port is asked once, in order, and its own writes are what is made |
| Effects.EveryoneHears | src/object.c:2889-2927 | With no handler every subscriber, however many, holds the value afterwards, no other property has changed, and a message goes on for each delivery that is listened to, in their order |
| Effects.LinkStandsFor | src/object.c:1587-1608 | A link reads as the property and instance it was made to; its value is blank, its records stay, nothing else changes |
| Effects.ConnectTies | src/object.c:2648-2771 | The new wire stands first at both ends of what the slots stand for and the count goes up by one; a missing source comes into being as 0, a missing sink refuses; nothing else changes |
| Effects.DisconnectUnties | src/object.c:2779-2853 | Exactly the two records of the one wire go, the others stay in order, and the count goes up by one; with no such wire nothing is done |
| Effects.DeleteLeaves | src/object.c:3862-3903 | The others keep every property and value, every link and record that does not name it, in order; every message stays, its own without a port; every other path leads where it did |
| Effects.SpelledSplits | src/object.c:158-258 | A path as it is written splits at its slashes into its names again |
| Effects.EnrolTells | src/object.c:158-258 | A new instance has what its class declares, is found by its path, and its container's LastMember takes that path |
| Effects.EnrolQuietly | src/object.c:1363-1443 | A new instance without a name has what its class declares, no path leads to it, and nobody is told |
| Effects.StemOf | src/object.c:1518-1539 | A name loses the one _N at its end |
| Effects.OwnStem | src/object.c:1518-1539 | A name without one stays, and the empty name is Thing |
| Effects.MintIsLowest | src/object.c:1518-1539 | The minted name has the lowest number from 1 on whose name is free, or 99999 when none is |
| ScrubOrder.ScrubOwnWiresIn | src/object.c:3711-3783 | Walking one property's chain of records while freeing them stays on live ones if and only if its first record of itself is not directly in front of one of the other kind naming the same instance; then every far chain has lost exactly the records struck |
| ScrubOrder.ScrubOwnWires | src/object.c:3785-3798 | Over all properties in the order they lie in, the walk stays on live records if and only if no chain stumbles as the earlier walks left it; then the chains outside are what walking each of them leaves |
| ScrubOrder.StumblesIff | src/object.c:3711-3783 | While the chains hold what the properties record, the walk of a property steps onto a freed record if and only if it is wired to itself |
| ScrubOrder.ScrubIsSafeIff | src/object.c:3785-3798 | Taking an instance's wires down is safe in every order of its properties if and only if none of them is wired to itself |
| ScrubOrder.ScrubLeaves | src/object.c:3711-3798 | Walking the chains of a dying instance in any order takes every record of it out of everyone else's chain and no other; the rest lie as they lay |
| ScrubOrder.RunIsThreaded | src/object.c:2195-2266 | Along every run the chains, new records in front, hold exactly what the properties record, once each, the two of a self-wire side by side |
| ScrubOrder.DeletionIsSafeIff | src/object.c:3862-3903 | So in every graph a run comes to, deleting an instance is safe in every order if and only if it has no self-wire |
| ScrubOrder.SelfWireStumbles | src/object.c:3719-3750 | The shortest run to it: one instance, one property, wired to itself |
| Fabric.ObjectGraph.ResolveNode | src/node.c:200-208 | Follows at most eight links and stops at the node the chain leads to |
| Fabric.ObjectGraph.ResolvePort | src/object.c:1553-1573 | Gives the property a name stands for and the instance it is said to be on |
| Fabric.ObjectGraph.CreatePrivate | src/object.c:1363-1443 | Succeeds exactly when the container has a path, with a new instance holding its class's properties, without a name or a path, and nobody told |
| Fabric.ObjectGraph.CreateObject | src/object.c:1473-1508 | Succeeds exactly when the container has a path, with a new instance holding its class's properties, under the name asked for or a minted one, and the container told of its path; else nothing changes |
| Fabric.ObjectGraph.AddSubscriptionBack | src/object.c:2195-2221 | The sink records the source once, at the front, and a repeat changes nothing |
| Fabric.ObjectGraph.AddSubscription | src/object.c:2223-2266 | Source and sink record each other once, at the front, and a repeat changes nothing |
| Fabric.ObjectGraph.SayWiring | src/object.c:2748-2760 | The Wiring count of an instance goes up by one, by an ordinary property write |
| Fabric.ObjectGraph.Connect | src/object.c:2648-2771 | Makes a missing source property, refuses a missing sink, resolves links at both ends; the result is the one new wire, the sink's owner told, and a well-formed graph |
| Fabric.ObjectGraph.Disconnect | src/object.c:2779-2853 | Answers whether there was such a wire, removes both its records and tells the sink's owner |
| Fabric.ObjectGraph.LinkPropertyAs | src/object.c:1587-1608 | Links a slot straight to the resolved property, blanking its value; fails exactly when the target has no such property |
| Fabric.ObjectGraph.SetProp | src/node.c:838-1021 | Stores the value where the name stands for, and queues one message exactly when something listens there; an absent property comes into being untold |
| Fabric.ObjectGraph.SndMsg | src/object.c:2987-3029 | Queues one message by the resolved port, or nothing when there is none |
| Fabric.ObjectGraph.DeliverToSubscriber | src/node.c:691-789 | A subscriber is asked once: its own writes are stored in order, or the value is when it has no handler |
| Fabric.ObjectGraph.DispatchMsg | src/object.c:2889-2927 | The oldest message goes to every current subscriber, each asked once and in order, and its own writes are what is made; a cancelled one goes to nobody |
| Fabric.ObjectGraph.PathOfInstance | src/object.c:339-377 | True exactly when the instance has a name and the path spelled by Container and Name leads back to it |
| Fabric.ObjectGraph.DropAll | src/object.c:3735-3745 | The loop over a chain leaves exactly the records that do not name the dying instance, in their order |
| Fabric.ObjectGraph.ScrubHeard | src/object.c:3711-3783 | Everyone a dying property listens to forgets it, and its own Subscription records go |
| Fabric.ObjectGraph.ScrubTold | src/object.c:3711-3783 | Everyone who listens to a dying property forgets it |
| Fabric.ObjectGraph.ScrubOwnWiresIn | src/object.c:3711-3783 | One more property of the dying instance is worked through, both kinds of record at the far ends gone |
| Fabric.ObjectGraph.ScrubOwnWires | src/object.c:3785-3798 | Following only the dying instance's own records removes every record of it everywhere else |
| Fabric.ObjectGraph.ScrubRegistrySubscriptions | src/object.c:3663-3697 | The sweep removes every Subscriber naming the instance, and reports exactly where it found one |
| Fabric.ObjectGraph.ScrubRegistryLinks | src/object.c:3811-3837 | Exactly the links said to be on the dying instance are blanked |
| Fabric.ObjectGraph.CancelPendingSends | src/object.c:2939-2960 | Exactly the messages the instance sent lose their port; the queue keeps its length and order |
| Fabric.ObjectGraph.DeleteInstance | src/object.c:3862-3903 | The whole scrub comes to removing every trace of the instance, and the safety sweep finds nothing outside the instance itself |
| CloneModel.InsideIsABranch | src/object.c:2491-2585 | Walking members and opening plain Views reaches exactly what lies inside the source |
| CloneModel.BranchesDiffer | src/object.c:2491-2585 | With named, distinct members each thing inside is reached through one member only |
| CloneModel.OneMore | src/object.c:2592-2645 | Copying one more instance into a free place keeps the map one to one, the originals untouched but for the container that is told, and the graph well formed |
| CloneModel.RelinkedOneMore | src/object.c:2425-2482 | Re-making one more link keeps every earlier one and the copied values |
| CloneModel.RewiredOneMore | src/object.c:2270-2335 | Trying one more wire adds its counterpart exactly when what listens is there, and no other wire |
| CloneModel.NoWireCrosses | src/object.c:2270-2335 | No wire of the result joins a copy to anything that was there before |
| CloneModel.WiredAlike | src/object.c:2270-2335 | Copies are wired to each other exactly as their sources are, once every property listened on in the group goes to the copy |
| CloneModel.CounterpartIff | src/object.c:2270-2335 | A wire of the group has a counterpart if and only if, when it is tried, what listens is there: it goes to the copy, the wire starts from it, a wire tried before starts from it, or it counts the wires of an instance wired to before |
| CloneModel.SinkCounterpartIff | src/object.c:2270-2335 | A wire to a property that itself starts none and counts none has a counterpart if and only if that property goes to the copy, in whatever order wires are tried |
| CloneModel.PointedIsReached | src/object.c:2648-2771 | A run of the program leads to a view with two boxes, one wired to a live pointer of the other |
| CloneModel.PointedIsReady | src/object.c:2592-2645 | Everything a clone of that view asks for holds |
| CloneModel.WireToAPointerIsLost | src/object.c:1998-2018 | In every clone of that view both boxes have copies and the wire has none |
| Clone.CloneOfPointed | src/object.c:2592-2645 | Cloning it succeeds, and the two copies are not wired |
| CloneOutcome.CloneGroups | src/object.c:2491-2585 | In the group are the source, its visible members, and the visible members of every named View among these, and nothing else |
| CloneOutcome.CloneStands | src/object.c:2592-2645 | The top stands where it was asked to, under the lowest free name; every other copy stands below it as its source below the source, with the same class, name and visibility |
| CloneOutcome.CloneLeads | src/object.c:158-258 | Every path there was leads where it did, and the only new ones are the copies' own |
| CloneOutcome.CloneHolds | src/object.c:2025-2137 | Each plain value of a source is on its copy with the same text; State, Name, Container and live pointers are what the class declares, or absent; a link leads to the copy of its target, to the same target if that has a path, or is gone |
| CloneOutcome.CloneWires | src/object.c:2270-2335 | Every wire of the group to a plain value is there between the copies, no other wire is between copies of things not wired, and none to anything else |
| CloneOutcome.CloneComesTo | src/object.c:2592-2645 | What the three passes leave is all of that |
| GraphModel.MintIsFree | src/object.c:1518-1539 | The minted name is free as soon as one of the numbers tried is |
| Fabric.ObjectGraph.NameTakenIn | src/object.c:2377-2401 | True exactly when some instance placed in that container has the name |
| Fabric.ObjectGraph.MintFreshName | src/object.c:1518-1539 | The stem without a trailing number, with the lowest number whose name is free |
| Clone.CloneData | src/object.c:2025-2137 | Every value of the source that is no link, no live pointer and not the State, Name or Container is on the copy with the source's text; whatever else the copy had, and everyone else, is as before |
| Clone.CloneObject | src/object.c:2147-2168 | A new instance of the same class under the given name, or a minted one, holding its declared properties overwritten by the source's portable ones, its container told |
| Clone.CloneMembers | src/object.c:2491-2585 | The first pass maps everything inside to one new copy each, placed as its source is |
| Clone.CloneRelinkProp | src/object.c:2425-2482 | One link re-made: to the clone of its target inside the group, to the same target outside if that has a path |
| Clone.RelinkMembers | src/object.c:2491-2585 | The second pass re-makes the links of everything inside, and only those |
| Clone.CloneConnection | src/object.c:2270-2335 | One wire is made again between the copies when its far end goes to a copy; a wire that leaves the group is not |
| Clone.RewireMembers | src/object.c:2491-2585 | The third pass makes the counterparts of every in-group wire starting inside |
| Clone.CloneInstance | src/object.c:2592-2645 | Three passes give an isomorphic copy: one copy per original, in place, with exactly their values, re-made links and those wires among copies that can be made in the order they are tried (IsClone), and told from the source's own properties (Outcome); of the originals only the container's LastMember changes, and only words of that and of the copies' wires are queued |
| Decimal.ReadShown | src/data.c:115-160 | The decimal text of any integer reads back as that integer; cutting to a width comes after |
| Decimal.ShowIsInjective | src/object.c:1518-1539 | Different numbers have different decimal texts, so numbered names differ |
| Decimal.NumberRead | src/node.c:1433-1438 | A number reads whatever white space and zeros are in front and whatever follows its digits; one sign counts |
| Decimal.NothingRead | src/node.c:1433-1438 | Text that begins with no number reads as 0 |
| Decimal.Cropped | src/node.c:1433-1438 | A long stops at the ends of its type; an integer keeps the low 32 bits of that |
| JsonModel.ReadCharsEscaped | src/node.c:1103-1151 | Reading an escaped string gives the string back and stops right behind its closing quote |
| JsonModel.ReadsPastTheEndIff | src/node.c:1227-1317 | Reading a string goes on behind the end of the text if and only if no quote closes it and the text stops inside an escape |
| JsonModel.LoneBackslash | src/node.c:1240-1246 | A lone backslash at the end is such a text |
| JsonModel.TextReadsPastIff | src/node.c:1321-1482 | Reading a whole text goes on behind its end if and only if, quotes matched up, the text stops inside an escape of a string and reading gets as far as that string, however objects, fields and lists are nested |
| JsonModel.LoneBackslashText | src/node.c:1469-1482 | An object with a key that is a lone backslash is such a text |
| JsonModel.ReadQuoted | src/node.c:1227-1317 | A printed string anywhere in a text reads back as itself, up to its first NUL |
| JsonModel.ReadPrintedNode | src/node.c:1368-1466 | A node printed anywhere in a text is read whole and reading stops exactly at its end |
| JsonModel.ReadPrintedList | src/node.c:1321-1361 | A printed list anywhere in a text gives its nodes back in order and stops at its end |
| JsonModel.AsReadIff | src/node.c:1155-1199 | A tree survives its text if and only if no string holds a NUL, every number fits its type and every double survives its digits |
| JsonModel.ReadsBack | src/node.c:1189-1482 | Parsing what is printed for any tree ends exactly at the text's end and gives the same tree if and only if it holds nothing the text loses |
| JsonText.CodeReadsBack | src/node.c:1271-1302 | An escape of any code point, in digits of either case, gives that code point back to a byte-wise UTF-8 reader |
| JsonText.LiteralReads | src/node.c:1227-1317 | A literal of plain characters, two-character escapes and codes reads as what section 7 of RFC 8259 says they stand for, an unknown escape as nothing, up to the first NUL |
| JsonText.TextReads | src/node.c:1321-1482 | However an object is laid out, with any white space, missing colons, fields in any order, repeated or unknown, it reads as the node its last fields of each key say |
| JsonText.BrokenReads | src/node.c:1385-1422 | An object that breaks off after a field is what its fields until there make it |
| JsonText.PrintedCharacter | src/node.c:1103-1151 | Quote, backslash and five controls print as their two-character escapes, other controls as their code in lower-case hex, the rest as they are |
| JsonText.PrintedNode | src/node.c:1155-1186 | A node prints as its five members in a fixed order, its lists as the texts of their nodes with commas between |
| Json.StrBuf.Append | src/node.c:1080-1096 | The growing buffer holds the old text followed by the new one |
| Json.StrBuf.AppendJsonString | src/node.c:1103-1151 | Appends the quoted, escaped string up to its first NUL |
| Json.EncodeNode | src/node.c:1172-1186 | The walk over the node's chains appends exactly the text of its tree |
| Json.EncodeList | src/node.c:1155-1170 | The walk over a sibling chain appends the texts of its nodes in order |
| Json.NodeToText | src/node.c:1189-1199 | Gives the text of the tree the node's pointers stand for |
| Json.Cursor.ParseHex4 | src/node.c:1271-1284 | Takes the four characters after the u as one number, anything but a hex digit only shifting it, and stops on the last |
| Json.Cursor.ParseJsonString | src/node.c:1227-1317 | Gives the unescaped string and stops where the recursive reading stops, on every text; a literal in any escapes reads as what its characters stand for |
| Json.Cursor.ParseArray | src/node.c:1321-1361 | Builds a fresh sibling chain for exactly the nodes read, in order |
| Json.Cursor.ParseNodeObject | src/node.c:1368-1466 | Builds fresh nodes for exactly the object read, or nothing where none begins |
| Json.Cursor.ParseFields | src/node.c:1385-1422 | Fields in any order, later ones replacing earlier, unknown ones skipped, on every text |
| Json.Cursor.Attach | src/node.c:1338-1346 | A parsed node goes behind the last one of the chain, sharing nothing with what was there |
| Json.Assemble | src/node.c:1425-1466 | The node made of the parts read, its property and child chains in order and every child naming it as parent |
| Json.SetParents | src/node.c:1452-1459 | Every child of the chain names the node as its parent and is otherwise unchanged |
| Json.TextToNode | src/node.c:1469-1482 | A fresh tree standing for what the text says, or nothing where no object begins; an object laid out in any way gives the node it stands for |
| Json.CopyByText | src/node.c:1469-1482 | Printing and parsing gives the same tree on nodes of its own, exactly when the text loses nothing of it |
| Base64.DecodeEncode | objects/base64/base64.c:62-126 | Decoding the encoding of any byte string gives it back |
| Base64.BufferRoundTrip | objects/base64/base64.c:62-126 | The encoder's buffer, NUL included, decodes to the encoder's input |
| Base64.JunkIsIgnored | objects/base64/base64.c:93-110 | Characters outside the alphabet put in anywhere do not change the decoding |
| Base64.EncodedLength | objects/base64/base64.c:62-72 | The encoding is as long as the buffer made for it and holds no NUL |
| Base64.EncodeJoin | objects/base64/base64.c:72-84 | Whole groups of three encode independently of what follows |
| Base64.TableIs | objects/base64/base64.c:42-58 | A digit is the character table 1 of RFC 4648 gives for its value, and no other character is one |
| Base64.EncodeIsStandard | objects/base64/base64.c:62-86 | The bits of the text, six at a time and filled up with zeros, each six as the table's character, and = up to a multiple of four |
| Base64.OctetsAreBits | objects/base64/base64.c:93-126 | Any digits give their bits, eight at a time; fewer than eight left over are dropped |
| Base64.Base64Val | objects/base64/base64.c:50-58 | Gives the place of a character in the alphabet, and -1 for exactly the others |
| Base64.Base64Encode | objects/base64/base64.c:62-86 | The loop fills the buffer it sized with the encoding and a NUL, staying inside it |
| Base64.Base64Decode | objects/base64/base64.c:93-126 | The loop gathers digits into quads and fills the buffer with the decoding and a NUL, staying inside it, on every input |
| CharacterMap.CharMap_Base | objects/charactermap/charactermap.c:35-53 | The value of the digits in that base, or -1 when any character is not one |
| CharacterMap.NotationReads | objects/charactermap/charactermap.c:56-94 | A number written as %1F, 0x1F, \\x1F, \\37 or 31 in the two to four characters there are is read as that number |
| CharacterMap.ByteReadsIff | objects/charactermap/charactermap.c:56-94 | Every byte in any notation is read as that byte, except exactly a single decimal digit, which stands for its character |
| CharacterMap.MarkedIsNoNumberIff | objects/charactermap/charactermap.c:56-94 | A marked token is no number if and only if some character behind the mark is no digit of its base |
| CharacterMap.OnlyFourCount | objects/charactermap/charactermap.c:56-94 | Characters after the fourth change nothing |
| CharacterMap.CharMap_Token | objects/charactermap/charactermap.c:56-94 | Whatever number was written, in any notation and two to four characters, is the number read |
| CharacterMap.CharMap_Build | objects/charactermap/charactermap.c:97-143 | The table the text describes line by line: two tokens map, one drops, blank and unreadable lines do nothing |
| CharacterMap.CharMap_Recompute | objects/charactermap/charactermap.c:146-173 | The output is the input byte by byte through the table without the dropped ones, inside its buffer |
| CharacterMap.BuildText | objects/charactermap/charactermap.c:97-143 | A text of two-token lines builds what the lines say one after another |
| CharacterMap.PresetText | objects/charactermap/charactermap.c:267-285 | The printing loop writes the line of every changed entry and stays inside its buffer |
| CharacterMap.PresetRebuilds | objects/charactermap/charactermap.c:267-285 | For every 256-byte table the text printed for it builds that table |
| CharacterMap.Rot13Text | objects/charactermap/charactermap.c:252-265 | The printing loop writes both lines of each letter and stays inside its buffer |
| CharacterMap.RotTable | objects/charactermap/charactermap.c:252-265 | The ROT13 text builds the table that turns each letter 13 places and keeps all else |
| CharacterMap.Rot13Twice | objects/charactermap/charactermap.c:252-265 | The ROT13 map applied twice gives back every string |
| CharacterText.TokenNames | objects/charactermap/charactermap.c:56-94 | A token names its character by a letter behind a backslash, or is the backslash; one character is itself |
| CharacterText.TokenCounts | objects/charactermap/charactermap.c:56-94 | A short token that is marked by nothing is read as the C library reads a number |
| CharacterText.EitherCase | objects/charactermap/charactermap.c:35-53 | A hex digit has its value in either case, and nothing else is a digit |
| CharacterText.OneMoreDigit | objects/charactermap/charactermap.c:35-53 | One digit more is a place more in the base, and anything else no number |
| CharacterText.TextBuilds | objects/charactermap/charactermap.c:97-143 | However the text is laid out, with spaces and tabs and any of the three line ends, a byte becomes what the last line about it says: the second token, or dropped without one; a byte no line is about stays itself |
| CharacterText.TranslateJoins | objects/charactermap/charactermap.c:146-173 | A string goes through the table piece by piece, in order |
| CharacterText.TranslateOne | objects/charactermap/charactermap.c:146-173 | A byte becomes the low eight bits of what it is mapped to, or nothing when that is negative |
| CharacterText.RotIs | objects/charactermap/charactermap.c:252-265 | ROT13 turns each letter into the one thirteen places on in its own case and keeps all else |
| DataObj.Data.constructor | src/data.c:420-458 | A new object of a type holds that type's zero and answers every read from it |
| DataObj.Data.Convert | src/data.c:205-334 | Filling a missing form leaves the authoritative type and value alone and adds the conversion of it |
| DataObj.Data.GetInt | src/data.c:536-540 | The conversion of the last written value to an integer, cached or not |
| DataObj.Data.GetStr | src/data.c:481-486 | The conversion of the last written value to text, cached or not |
| DataObj.Data.GetStrLen | src/data.c:520-526 | The length of that text |
| DataObj.Data.GetHex | src/data.c:564-568 | The conversion of the last written value to hex, cached or not |
| DataObj.Data.GetReal | src/data.c:578-584 | The conversion of the last written value to a real, cached or not |
| DataObj.Data.GetLong | src/data.c:550-554 | The conversion of the last written value to a long, cached or not |
| DataObj.Data.Set | src/data.c:336-409 | A write makes its type authoritative and drops every other cached form |
| DataObj.Play | src/data.c:336-409 | However reads and writes are interleaved, each read equals a fresh conversion of the last value written |
| DataObj.HexReadsBackIff | src/data.c:91-113 | The hex printed for an integer is read back as that integer if and only if none of its low seven digits is a letter |
| DataObj.LowerHexMisreads | src/data.c:92-113 | The hex printed for 10 is read back as 42 |
| DataObj.TextReadsBackIff | src/data.c:115-138 | An integer printed as text is read back as itself if and only if it is not negative: no sign is read |
| DataObj.IntFitsIff | src/data.c:115-121 | The ten bytes an integer is printed into hold it, NUL included, if and only if it lies between -99999999 and 999999999 |
| DataObj.RealFitsIff | src/data.c:82-89 | The thirteen a double is printed into hold it if and only if its whole part has at most five digits, four behind a minus sign |
| DataObj.HexFits | src/data.c:91-98 | The ten bytes for hex hold every integer |
| DataObj.LongFits | src/data.c:138-145 | The twenty-four bytes for a long hold every long |
| DataObj.TextIsRead | src/data.c:123-160 | Text reads as the number its first digits show, white space and zeros in front and anything behind, cut to 32 or 64 bits |
| DataObj.TextIsNothing | src/data.c:123-160 | Text that begins with no digit, a sign included, reads as 0 |
| DataObj.CutTowardsZero | src/data.c:292-306 | A double in the range of an integer reads as the whole number next to it on the side of zero |
| DataObj.UpperHexIsRead | src/data.c:100-113 | Upper-case hex reads as the number it shows, cut to 32 bits, and reading stops at what is no digit |
| DataObj.ByWayOfIntegers | src/data.c:205-334 | Text and doubles become hex, and text and hex become doubles, by way of the integer they read as; a long reads as itself and text only; numbers print as text that reads back |
| RegistryModel.SuccessorIsNext | src/object.c:1142-1180 | Down, else across, else up until there is an across, gives the class that comes next in the order |
| RegistryModel.EveryClassOnce | src/object.c:1114-1180 | The order holds every registered class exactly once |
| RegistryModel.NextInstIsNext | src/object.c:1203-1230 | The next instance of the class, else the first of a later class, is the one that comes next |
| RegistryModel.EveryInstanceOnce | src/object.c:1182-1230 | The order holds every instance of every class exactly once and nothing else |
| RegistryModel.MovedIsOk | src/object.c:598-634 | Moving a class under one that is not below it leaves a forest of the same classes and instances |
| RegistryModel.MovedIsForestIff | src/object.c:598-634 | Moving a class leaves a forest if and only if its new parent is neither the class itself nor below it |
| RegistryModel.MovedStands | src/object.c:598-634 | The class stands behind its new parent's first child, or alone; all other children keep their order |
| Registry.Nodes.FirstClass | src/object.c:1142-1158 | The pointer walk finds the first class, past libraries without any |
| Registry.Nodes.NextClass | src/object.c:1164-1180 | The pointer walk finds the class after this one, and 0 at the end |
| Registry.Nodes.FirstInstance | src/object.c:1203-1217 | The pointer walk finds the first instance, past classes without any |
| Registry.Nodes.NextInstance | src/object.c:1219-1230 | The pointer walk finds the instance after this one, and 0 at the end |
| Registry.Nodes.VisitClasses | src/object.c:1153-1180 | Stepping from the first class ends and meets every registered class exactly once |
| Registry.Nodes.VisitInstances | src/object.c:1214-1230 | Stepping from the first instance ends and meets every instance exactly once |
| Registry.Nodes.DelSibling | src/node.c:367-393 | The pointers come to the children's lists with just this node taken out |
| Registry.Nodes.AddChild | src/node.c:462-473 | The pointers come to the parent's list with the node behind its first child, or alone |
| Registry.Nodes.SetClassParent | src/object.c:598-634 | The class stands under its new parent and the walks visit the same classes and instances as before |
| PathIndex.UnregisterKeeps | src/object.c:264-278 | Retiring a leaf's path keeps index and member lists in step and takes no other instance's path |
| PathIndex.RegisterKeeps | src/object.c:158-258 | Registering, renaming or moving a leaf to a free name where its container is keeps all in step, gives that path and takes no other |
| PathIndex.RegisterKeepsIff | src/object.c:158-258 | For a new instance or a leaf, naming it keeps all in step and takes nobody's path if and only if the name is free or its own and the container is there |
| PathIndex.DeleteKeeps | src/object.c:3862-3903 | Deleting a leaf keeps all in step and takes no other instance's path |
| PathIndex.TakenNameBreaks | src/object.c:158-258 | Registering over a taken name leaves its owner listed but without a path |
| PathIndex.MissingContainerBreaks | src/object.c:158-258 | Registering under a container that is not there leaves an index entry that is not its instance's path |
| PathIndex.RunStaysInStep | src/object.c:71-278 | Every run of arrivals, registrations, renames, moves, unregistrations and deletions of leaves keeps all in step |
| PathIndex.OnePathEach | src/object.c:339-377 | In every such run no instance has two paths and each container lists exactly what is registered directly under it |
| PathIndex.RegisterWrites | src/object.c:158-258 | Naming sets Name, Container, the container's LastMember and the path to it, retires the older path, and writes nothing else; a path that ends in nothing keeps the Name |
| PathIndex.Seniority | src/object.c:89-124 | In every run the members of a container stand in the order in which they were last given their places |
| PathIndex.Naming.AddMember | src/object.c:89-110 | The instance is on the container's list, at the end if new, once |
| PathIndex.Naming.RemoveMember | src/object.c:112-124 | The instance's entry goes and the others keep their order |
| PathIndex.Naming.UnregisterPath | src/object.c:264-278 | The path goes and its instance leaves its container's list |
| PathIndex.Naming.RegisterPath | src/object.c:158-258 | An older path is retired first, then index, Name, Container and member list follow the new path, and the container's LastMember is that path |
| PathIndex.Naming.DeleteInstance | src/object.c:3862-3903 | The instance is un-named before it goes |

## Left out

Everything here is proved on unbounded memory: allocation never fails, and the
fixed buffers that `snprintf` truncates into are strings of any length, as are the
blocks `sprintf` prints values into (IntFitsIff and RealFitsIff say which fit). Debug
lines, logging counters and printing are not part of this model.

Scheduler and messages

- SchedModel.DispatchedInOrder: the clock neither goes back nor jumps; for other runs see DispatchedInOrderIff, which asks only that a jump takes no due time around 2^64.
- Scheduler.TaskList.RemoveTaskFromList: a task at either end of the due batch is not removed here; UnspliceDueTask proves what happens then.
- Scheduler.TaskList.RemoveTask: the same, and not a task that is in the pool, by ParkAny.
- Scheduler.TaskList.DeleteTask: the same.
- Scheduler.TaskList.DeactivateTask: the same; the place of the task in its list is a ghost argument, the program goes by the task's own links.
- Scheduler.TaskList.AddTaskDelay: the task is not on a list already, and seconds do not pass 2^64; the program checks neither.
- Scheduler.TaskList.AdjustDelayedTasks: no due time may wrap around 2^64 in the shift.
- Scheduler.TaskList.DeleteList: no batch is left over, as at the end of every run.
- Scheduler.TaskList.MainLoop: one list only, so the `owner` field is left out; the State write that begins a stop is the answer `busy`.
- What a callback does is an arbitrary function of its job, the clock, the number of messages sent and the number of callbacks run: it sends, starts timers and stops pending ones; in a run it does not stop a timer that is due in the same batch.
- The batch is three fields of the task list here, not a second list object.

Namespace and class bring-up

- Namespace.NSTrie.NSInsert: characters compare by code; where `char` is signed, bytes above 127 come first, which changes which order siblings have and nothing else.
- Namespace.NSTrie.NSRelease: counts the nodes freed; the freed pointers themselves are not followed afterwards.
- ClassLoader.Loader.LoadClasses: the order the sort leaves is a parameter, any order of the unstarted libraries; two lookups by name are exact map lookups, which SearchIsLookupIff says when they are.
- ClassLoader.StartedIsLeastFixedPoint: asks that classes of one name answer every dependency alike; without that it is false, as OrderMattersForDuplicates shows, and exactly when orders differ is OrderMattersIff.
- ClassLoader.VersionsMet: the numbers asked for are within 32 bits, beyond which they are read as their low 32 bits.
- What a library's own start code does besides registering classes is left out.

Object graph and clone

- Fabric.ObjectGraph.DeleteInstance: no property of the dying instance is wired to itself, by DeletionIsSafeIff. A wire between two ports of the dying instance may be reported by the sweep.
- Fabric.ObjectGraph.ScrubOwnWires: the same, and so for ScrubOwnWiresIn, ScrubHeard and ScrubTold; the two kinds of record are two sequences there, one chain in ScrubOrder.
- ScrubOrder.DeletionIsSafeIff: says which instances are safe in every order of their properties; for one given order the answer is Safe, by ScrubOrder.ScrubOwnWires. What a property carries besides records is not on the chains.
- GraphModel.RunKeepsWF: deletes only instances without a self-wire, links only slots nothing links to.
- GraphModel.BumpCounts: the count is no link, by BumpCountsIff; it is an unbounded integer, and reads as none where the property is of another type than LONG.
- Fabric.ObjectGraph.DispatchMsg: handlers write and send but do not disconnect or delete in the middle of a delivery; those are steps of their own.
- Fabric.ObjectGraph.LinkPropertyAs: the slot is not a link target, by LinkKeepsDepthOneIff.
- Fabric.ObjectGraph.CreateObject: an older path of the same name is replaced, as in PathIndex. The container's list of members is kept in PathIndex, not in the graph.
- Fabric.ObjectGraph.ResolvePort: one level of properties; properties of properties, other than wire records, are left out.
- Instances, properties and records are kept in maps and sequences that the methods reassign; the sibling pointers between property nodes are not modelled here (Namespace, Scheduler and Json model pointers).
- Paths are looked up in an exact map; SearchIsLookupIff says when the trie is one.
- Clone.CloneInstance: the destination lies outside the source and nothing is there yet, members have distinct names, links carry no records, LastMember and Wiring are no links and LastMember is text, and classes are plain: no panel of their own, no serialize answer and no handler that intercepts the copied values. What LastMember and Wiring of a copy read is left open.
- CloneModel.CounterpartIff: the order in which wires are tried is a sequence CloneInstance gives; which order the member lists lead to is left open.
- GraphModel.MintIsFree: where all 99999 numbers are taken the last one is used though it is taken, as in the program.
- The members of a container are found by Container, not by the Members list, in the clone; PathIndex proves the two agree for named things.
- Aliases, gestures, hidden panels, users and tokens, the bridge and the saved flow files are not part of this model.
- Registry.Nodes.SetClassParent: the parent is given as a node, or 0 where the name is not registered, and does not lie below the class, by MovedIsForestIff; the Parent and ParentClass properties are left out.
- Registry.Nodes.DelSibling: nodes are numbers and the three pointers are maps from node to node.
- PathIndex.RegisterKeepsIff: new instances and leaves only, at a path with nothing below it; re-pathing what is inside a renamed container is done elsewhere and is not part of this model.

Text and values

- Json.Cursor.ParseJsonString: a position past the end of the text reads as NUL; the program reads what lies there, exactly for the texts of ReadsPastTheEndIff and TextReadsPastIff.
- Json.Cursor.ParseHex4: the same.
- JsonModel.ReadsBack: doubles go through two parameters, how one is shown and how its text is read; a character stands for a byte.
- Json.NodeToText: trees without links; the value of a node is a value here, not a data object.
- JsonText.TextReads: lists stand behind props and children and strings behind every other key; where something else stands there, JsonModel's reading says what is read.
- DataObj.CutTowardsZero: doubles in the range of an integer; for others the conversion in C is undefined, and is kept to 32 bits here.
- Base64.Base64Encode: text that ends at its first NUL; ports, handlers and publishing are left out.
- CharacterMap.PresetText: covers the table presets; the fixed one-line presets and the upper and lower case ones are left out as easy. The two shipped EBCDIC tables are not inverse to each other, and no such law is claimed.
- DataObj.RealFitsIff: a double is given in millionths, as %f rounds it.
- DataObj.Play: how a double is shown is a parameter, and the stored type stays one of the five.
