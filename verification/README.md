# The room manager and its message layer, in Dafny

A verified model of the stateful parts of the server: the intrusive lists and the friend registry on top of them, the
containers that objects are carried in, the name tree, the allocators and caches, the messages between the processes
(framing, encryption, the life of a connection, the login protocol), combat movement and rewards, and the text in which
characters are saved.

Code that changes things step by step is modelled as classes with those fields and methods with those loops. Each is
proved against a specification on values, and the properties are proved about that specification:

| files | what they model | specification | main results |
|---|---|---|---|
| LinkedLists, ListHeaps | `LinkedElement`, `LinkedList`, the recycling allocator; all lists together | chains of elements | every operation keeps the links and does to the chain what its name says |
| FriendRegistry, Friends | `CFriend`, `CFriendMgr` | registry of watchers and marks | both views agree in every run; a logout clears a player out of every list exactly when it should |
| Containment, Floors, Weighing, Carrying | owners, contents, rooms, cached weight and bulk; take, drop, give | forests, floors | every move keeps a forest with exact caches; what was checked to fit, fits afterwards |
| SearchTrees, BinaryTrees | the unbalanced tree by name | search trees, finite maps | add, find and del are those of a map, in all cases of deletion |
| LoginProtocol, Logins | login contexts and the login lock, over two channels | state machine of both ends | once all is quiet, the locked accounts are those being played, exactly when no player was given a second one, none who is gone was given any, and none who played left without being logged out |
| Framing, Messaging | messages in pieces over a socket | images of messages | whatever the pieces and whenever a message is added, all arrive as given, once, and in order |
| Encryption | the seeded stream, both directions | words | both sides undo each other and stay in step; exactly when the client's loop does not end early |
| SecureMessages | encryption on top of the messages | words and bytes | whatever the pieces and whenever a message is added, the client makes of what it reads the types and bytes that were given |
| ClientLife, Servers | the loop of the server | books of what was said by whom | over any number of turns: one connecting and one hanging up per client, nothing before or after, and the counter counts, exactly when no client has sent a message of either type itself |
| MemoryPools, StringCache, TrackedHeaps, SparseArrays, ServIDs | allocators and caches | queues, maps, lists | first in first out, nothing handed out twice; canonical strings; counters that agree; partial maps; a search that ends exactly when an id is free |
| SaveText, SaveItems, SavedCharacters | the save format, printer and parser | the text of a character | what is printed is read back, exactly when the character has a head |
| CombatGrid | the grid of a combat | the grid | moves go to the first nearest free cell and keep everybody in place |
| Experience, Rewards | experience, levels, build points, scrolls, the pay of a combat | standings | build points held and spent follow the highest level; one payment for one combat |

Where the code departs from what one would expect, the model keeps the code and the exact condition is proved:

- `LinkedList::addToFront` leaves the tail unset on an empty list: the result is well formed exactly when there was an
  element before (`LinkedLists.LinkedList.AddToFront`). `addBeforeElement` always returns null
  (`LinkedLists.LinkedList.AddBeforeElement`).
- `beTakenBy` and `beGivenTo` must see that a container does not end up inside itself: owners end after a move exactly
  when the two checks hold (`Containment.MoveEnds`). From the floor `beTakenBy` lacks the check for the thing itself,
  one for a taker who is no container, and, when the thing has been taken, one for a taker that nobody plays: the server
  crashes exactly then (`Carrying.WorldObject.BeTakenBy`). A container without a bulk capacity counts as boundless only
  as long as it is empty: nothing more goes into it, or into what is inside it (`Carrying.World.TooHeavyIff`).
- A login reply gives its account to the player of the active context without looking whether he has one, or whether he
  is still there; a player who leaves takes one of his contexts with him at most; and one whose client sends a hang-up
  itself is deleted without being logged out. Delivering a reply leaves a reason for every lock exactly when he has none
  and is there (`LoginProtocol.DeliveredIff`), and leaving does exactly when he is logged out or did not play
  (`LoginProtocol.HungUpIff`). Over every run the locked accounts are in the end those being played exactly when that
  was so of every reply and everybody who left (`LoginProtocol.QuietIff`). Otherwise an account stays locked for good,
  in any of these ways (`LoginProtocol.LeakedLock`, `LoginProtocol.OrphanedLock`, `LoginProtocol.VanishedLock`).
- A server handles a message by its type, and the type of a message that was read is what its client gave it. A client
  that sends a hang-up is deleted without being counted down; if it sends two, or closes its connection after one, it is
  deleted twice; if it sends a connecting it is listed twice, and stays on the list when it is deleted
  (`ClientLife.ForgedOnce`, `ClientLife.ForgedTwice`, `ClientLife.ForgedConnecting`, `ClientLife.ForgedAndClosed`). A
  turn comes to its end with every client's messages in order and a counter that counts exactly when no client has sent
  either, whatever else comes from outside (`Servers.IPCServer.Doit`, `Servers.Serve`).
- The client's encryption loop is a `loopnz` after the exclusive or, so it ends early at a word that becomes zero; a
  message arrives, whatever the buffer held, exactly when no word but the last one does (`Encryption.ArrivesIff`), and
  so for sequences of messages (`Encryption.ClientStreamIff`).
- An empty message is reported with size -4 (`Framing.ReportedSize`).
- `freeServID` lets -1 through and clears bit 31 of word 0: it frees what it is told exactly when it is not told -1, or
  id 31 was free anyway (`ServIDs.ServIDTable.FreeServID`).
- The destructor of `SparseArray` stops one chunk short (`SparseArrays.SparseArray.Destroy`).
- A character without a head is printed with the lines of a face but read without them: it is read back exactly when
  nothing of it is set from its face on (`SavedCharacters.SaveAndLoad`).
- A second player of one name is turned away by its own logout and stays on the lists it watches
  (`FriendRegistry.LogoutClears`).
- One who joins a combat is put at the place that the number of its side says: everybody keeps a cell exactly when
  nobody stood there (`CombatGrid.CombatGroup.AddCharacter`), and after a departure somebody may
  (`CombatGrid.LeaveAndJoin`).

`dafny verify dfyconfig.toml` checks all files together. `Common` has what several modules share. A class of the
repository that two components look at from different sides has, in each of their modules, the fields that matter there:
`WorldObject` in Carrying and in CombatGrid, `CombatGroup` in CombatGrid and in Rewards.

## Model

| member | source | states |
|---|---|---|
| LinkedLists.LinkedElement.LinkAfter | global/list.cpp:27-42 | the element stands between `left` and what came after it, linked in both directions |
| LinkedLists.LinkedElement.LinkBefore | global/list.cpp:46-61 | the same on the other side |
| LinkedLists.LinkedElement.Unlink | global/list.cpp:65-76 | the neighbours are linked with each other, and the element belongs to no list |
| LinkedLists.LinkedList.AddToEnd | global/list.cpp:147-166 | one more element at the end of the chain, recycled if any was free; the links stay consistent |
| LinkedLists.LinkedList.AddToFront | global/list.cpp:170-185 | one more element at the front; the list is well formed afterwards if and only if it was not empty |
| LinkedLists.LinkedList.AddAfter | global/list.cpp:189-210 | the new element comes right after the first one that carries the pointer, or there is none and nothing changes |
| LinkedLists.LinkedList.AddBeforeElement | global/list.cpp:220-243 | the new element comes right before the given one; what is returned is null all the same |
| LinkedLists.LinkedList.DelPtr | global/list.cpp:247-251 | the first element that carries the pointer goes, no other one, and nothing if there is none |
| LinkedLists.LinkedList.DelElement | global/list.cpp:253-270 | the element leaves the chain, order kept, and is the next but all free ones to be recycled |
| LinkedLists.LinkedList.IndexOf | global/list.cpp:292-308 | the first position of the pointer, and -1 only if no element carries it |
| LinkedLists.LinkedList.ElementOf | global/list.cpp:312-322 | the first element that carries the pointer, and null only if none does |
| LinkedLists.LinkedList.Release | global/list.cpp:324-329 | the list is empty; each of its elements, and nothing else, has become free once |
| LinkedLists.ElementPool.Allocate | global/list.cpp:12-23 | an element that was free or new, in no list, with all fields cleared |
| LinkedLists.WithoutIsMinus | global/list.cpp:253-270 | unlinking one position of a chain takes out just that element |
| ListHeaps.ListHeap.Add | global/list.cpp:147-166 | with all lists in view: the element was in no list, is at the end of this one, and every other chain is as it was |
| ListHeaps.ListHeap.Del | global/list.cpp:253-270 | with all lists in view: it leaves its chain alone and every other chain and pointer as it was |
| ListHeaps.ListHeap.DeleteFromList | global/list.cpp:79-84 | an element leaves just the one list that its back pointer names |
| ListHeaps.ListHeap.Release | global/list.cpp:324-329 | the chain is empty, its elements carry nothing, and no other chain has changed |
| FriendRegistry.EnlistKeeps | roommgr/friendmgr.cpp:89-156 | a new watcher, after the checks for capacity and for being listed already, keeps the invariant of all lists |
| FriendRegistry.EnlistDelist | roommgr/friendmgr.cpp:89-199 | adding a watcher and deleting it gives back the registry as it was |
| FriendRegistry.DelistKeeps | roommgr/friendmgr.cpp:169-199 | deleting a watcher keeps the invariant |
| FriendRegistry.DelistRemoves | roommgr/friendmgr.cpp:169-199 | afterwards exactly the others are watching |
| FriendRegistry.LogoutKeeps | roommgr/friendmgr.cpp:295-309 | unhooking all that an element list points at, then emptying it, keeps the invariant |
| FriendRegistry.LogoutRemoves | roommgr/friendmgr.cpp:295-309 | the player is in no watcher list any more, and everybody else is where he was |
| FriendRegistry.LogoutClears | roommgr/friendmgr.cpp:250-312 | a logout clears the player out of all lists if and only if he is the one online under his entry, or watched nobody |
| FriendRegistry.PurgeStep | roommgr/friendmgr.cpp:298-303 | deleting one element through its back pointer, list by list, comes to the purge of all lists at once |
| FriendRegistry.ViewsAgree | roommgr/friendmgr.cpp:117-131 | an element that carries P is in some watcher list if and only if it is marked in P's own element list |
| FriendRegistry.LoginKeeps | roommgr/friendmgr.cpp:202-247 | a login, also the second one of a name, keeps the invariant |
| FriendRegistry.StepKeeps | roommgr/friendmgr.cpp:48-312 | each operation, whatever its arguments, keeps the invariant |
| FriendRegistry.WhoWatches | roommgr/friendmgr.cpp:89-312 | who watches whom after any operation: one more if the watcher is not the one online there, has an entry with less than 200 elements and did not watch already; one less; or none of those that logged off; and everybody else as before |
| FriendRegistry.WhoIsWho | roommgr/friendmgr.cpp:202-312 | who has an entry and who is online under it after any operation: a login of a name that is online leaves the first one online |
| FriendRegistry.Run | roommgr/friendmgr.cpp:48-312 | so does every run of them: the lists are duplicate-free, agree, hold no freed element, and no element list exceeds 200 |
| Friends.CFriend.AddElement | roommgr/friendmgr.cpp:48-64 | the element is marked at the end of the element list, which is made if need be; null is refused |
| Friends.CFriend.DelElement | roommgr/friendmgr.cpp:67-86 | exactly that mark goes; false if and only if there was none |
| Friends.CFriend.AddWatcher | roommgr/friendmgr.cpp:89-156 | true if and only if there is a player, who is not the one online here, has an entry, carries less than 200 elements and is not watching; then the registry has enlisted just him, under a new element |
| Friends.CFriend.BeingWatchedBy | roommgr/friendmgr.cpp:159-166 | true if and only if the player is on the watcher list |
| Friends.CFriend.DelWatcher | roommgr/friendmgr.cpp:169-199 | true if and only if he was watching, and then he is delisted; else nothing changes |
| Friends.CFriend.HandleLogin | roommgr/friendmgr.cpp:202-247 | the entry's player, true if and only if nobody was online under it |
| Friends.CFriend.UnhookAll | roommgr/friendmgr.cpp:294-303 | walking the element list while other lists change leaves the registry purged of all it points at |
| Friends.CFriend.HandleLogout | roommgr/friendmgr.cpp:250-312 | true if and only if it is the entry's player; then the registry is logged off, else as it was; all pointers stay sound |
| Friends.CFriendMgr.FindFriend | roommgr/friendmgr.cpp:411-434 | the one entry of the name, whatever its capital letters, made if there was none; all earlier entries stay, and without a name there is none |
| Friends.CFriendMgr.GuardFacts | roommgr/friendmgr.cpp:383-395 | an entry is at capacity if and only if 200 elements of its player are in use |
| Containment.OwnsWithinIsOwns | roommgr/wobject.cpp:3525-3548 | the search for an owner that is cut off after some levels finds every owner there is if the chain is no longer |
| Containment.InsideIsOwns | roommgr/bcontain.cpp:142-172 | what the recursion over contents reaches is exactly what the recursion over owners says is owned |
| Containment.MoveEnds | roommgr/bcarry.cpp:274-288 | giving the thing an owner leaves owners that end if and only if it is not the owner and does not own it |
| Containment.MovedKeeps | roommgr/bcarry.cpp:340-363 | a move keeps the forest: each object once in the contents of its owner and of no other, and no cycle |
| Containment.DroppedKeeps | roommgr/bcarry.cpp:218-262 | so does leaving its owner for the floor |
| Containment.GivenExact | roommgr/bcarry.cpp:342-348 | with the thing in two contents lists for a while, working out the goal's base owner makes all caches exact for both |
| Containment.LeftExact | roommgr/bcarry.cpp:357-363 | working out the base owner of where it was makes them exact for the forest after the move |
| Containment.RootUnmoved | roommgr/wobject.cpp:3514-3522 | a new owner for one object changes the base owner of nothing that it does not own |
| Floors.GoneAgrees | roommgr/rmroom.cpp:319-341 | out of its room's list, an object has no room, and all others are in the room that lists them, once |
| Floors.LaidAgrees | roommgr/rmroom.cpp:272-299 | put down, it is in the one room that lists it, once |
| Floors.LaidGone | roommgr/rmroom.cpp:272-341 | putting down and picking up again leaves all rooms as they were |
| Weighing.AddedTotal | roommgr/bcontain.cpp:142-207 | an object in one more place adds its load to everything above that place, up to what does not carry, and to nothing else |
| Weighing.MovedTotal | roommgr/bcarry.cpp:340-363 | a move conserves load: what is above the goal gains it, what is above the origin loses it, where the ways met both |
| Weighing.CachesFollow | roommgr/bcontain.cpp:142-230 | the cached numbers obey the same law |
| Weighing.LoadKept | roommgr/bcarry.cpp:340-363 | a move does not change the load of what is moved |
| Weighing.StillFits | roommgr/bcontain.cpp:232-272 | what fitted with the load before fits without it after, all the way up to where the check stops |
| Carrying.Room.AddObject | roommgr/rmroom.cpp:272-299 | in the list once, and its room is this one |
| Carrying.Room.DelObject | roommgr/rmroom.cpp:319-341 | out of the list, and in no room; an object of another room is left alone |
| Carrying.WorldObject.CalculateWeight | roommgr/bcontain.cpp:142-173 | the recursive sum; the caches of all that is inside are exact, those of everything else as they were |
| Carrying.WorldObject.CalculateBulk | roommgr/bcontain.cpp:175-207 | the same for bulk |
| Carrying.WorldObject.ChangeWeight | roommgr/bcontain.cpp:209-218 | the base owner's whole tree is worked out anew |
| Carrying.WorldObject.ChangeBulk | roommgr/bcontain.cpp:220-230 | the same for bulk |
| Containment.RootOwns | roommgr/wobject.cpp:3514-3522 | the end of the chain of owners is the thing itself if nothing owns it, and else owns it |
| Carrying.WorldObject.GetBaseOwner | roommgr/wobject.cpp:3514-3522 | the end of the chain of owners, the object itself if it has none |
| Carrying.WorldObject.IsOwnedBy | roommgr/wobject.cpp:3532-3548 | true if and only if the other is among so many next owners |
| Carrying.World.NotTooHeavy | roommgr/bcontain.cpp:232-251 | what `tooHeavy` lets through fits into every container from here on up, to the first without a bulk capacity |
| Carrying.World.NotTooBulky | roommgr/bcontain.cpp:253-272 | what `tooBulky` lets through does likewise |
| Carrying.World.TooHeavyIff | roommgr/bcontain.cpp:232-251 | `tooHeavy` refuses if and only if some container from here on up, to the first without a bulk capacity, would be above its weight capacity, or that first one is not empty |
| Carrying.World.TooBulkyIff | roommgr/bcontain.cpp:253-272 | `tooBulky` refuses if and only if one of those would be above its bulk capacity, or has no weight capacity and is not empty |
| Carrying.World.WeightIs | roommgr/bcontain.cpp:142-173 | between two operations a container weighs what it weighs itself and what the things in it weigh |
| Carrying.World.BulkIs | roommgr/bcontain.cpp:175-207 | likewise for bulk |
| Carrying.WorldObject.GiveChecks | roommgr/bcarry.cpp:267-324 | handled if and only if each check lets it through, the capacities being those of the containers themselves, and otherwise which one did not |
| Carrying.WorldObject.BeGivenTo | roommgr/bcarry.cpp:267-369 | handled if and only if the taker is a container, not the thing itself, not its owner and not inside it, the thing is not worn, and, as far as nothing is overridden, it has an owner, the taker is not closed, and there is room for its weight and bulk all the way up; then it is the last of the contents of the taker and gone from those of its owner, forest and floor are those of the move, all caches are exact, and without override every container above is within its capacities; else nothing has changed |
| Carrying.WorldObject.BeTakenBy | roommgr/bcarry.cpp:119-189 | the same for taking: from an owner if he consents, from the floor if it lies in a room; if and only if there is room for it all the way up; from the floor the server crashes if and only if the taker is no container, or there is room and the taker is the thing itself or, after it was taken, is one that nobody plays |
| Carrying.WorldObject.BeDroppedBy | roommgr/bcarry.cpp:192-264 | handled if and only if the dropper holds it and does not wear or wield it, or overrides; then it is in the dropper's room, or nowhere if he is in none, and all caches are exact |
| Carrying.WorldObject.GetRoom | roommgr/wobject.cpp:3574-3578 | the room that lists the base owner, if any does |
| SearchTrees.CompareIsOrder | global/tree.cpp:50-112 | the comparison is zero for equal keys only, and turns around |
| SearchTrees.CompareIff | global/tree.cpp:50-112 | the order is that of the dictionary: at the first difference the smaller character, or the end, comes first |
| SearchTrees.InsertIs | global/tree.cpp:50-112 | a key and a node more, still in search order |
| SearchTrees.InsertAt | global/tree.cpp:50-112 | only what is found for that key has changed |
| SearchTrees.DeleteIs | global/tree.cpp:117-183 | a key and a node less, still in search order |
| SearchTrees.DeleteAt | global/tree.cpp:117-183 | deleting forgets that key and no other, in all three cases of a successor |
| SearchTrees.CountIsKeys | global/tree.cpp:50-183 | as many nodes as keys |
| SearchTrees.InsertLinked | global/tree.cpp:82-111 | hanging the new node at the edge makes the pointers those of the larger tree |
| SearchTrees.JoinedLinked | global/tree.cpp:149-170 | so do the steps that put the successor in the place of the node |
| SearchTrees.DeleteLinked | global/tree.cpp:117-183 | and hanging the rest at the parent makes them those of the tree without the key |
| SearchTrees.InsertContents | global/tree.cpp:50-112 | as a map: one more entry |
| SearchTrees.OverwriteContents | global/tree.cpp:50-112 | adding a name that is there changes its entry |
| SearchTrees.DeleteContents | global/tree.cpp:117-183 | as a map: that entry less |
| BinaryTrees.SameFold | global/tree.cpp:50-112 | two names are one without regard to case if and only if they differ in nothing but capital letters |
| BinaryTrees.BinaryTree.Find | global/tree.cpp:188-226 | a node if and only if the map has the name, and then with what the map says |
| BinaryTrees.BinaryTree.Add | global/tree.cpp:50-112 | the map with that entry put; only a new name makes a new node |
| BinaryTrees.BinaryTree.Del | global/tree.cpp:117-183 | the map without that entry, and none but nodes that were there |
| BinaryTrees.BinaryTree.SizeIs | global/tree.cpp:36-183 | `size` is the number of entries |
| LoginProtocol.AskedKeeps | roommgr/login.cpp:41-76 | a new context of a player who is there, whether or not it waits or plays, keeps the invariant of both ends and both channels |
| LoginProtocol.OkayKeeps | roommgr/datamgrclient.cpp:56-82 | a reply for the active context gives its player the account he asked for, if he is there; the one he had, or the one that nobody gets, is forgotten for good |
| LoginProtocol.StaleKeeps | roommgr/datamgrclient.cpp:56-82 | a reply for nobody any more is answered by a logout, and keeps the invariant |
| LoginProtocol.DeliveredKeeps | roommgr/datamgrclient.cpp:56-82 | so does any reply |
| LoginProtocol.DeliveredIff | roommgr/datamgrclient.cpp:56-82 | after a reply every lock still has a reason, in play or under way, if and only if its account was not given to a player who has one or is gone |
| LoginProtocol.DiscardedKeeps | roommgr/login.cpp:78-131 | a context that ends, wherever it was in the queue, leaves the active one at the head |
| LoginProtocol.HungUpKeeps | roommgr/rmplayer.cpp:182-184 | a player who leaves, logged out or not, keeps the invariant but for the account that is forgotten if not, plays none and has no context |
| LoginProtocol.HungUpIff | roommgr/rmplayer.cpp:1166-1176 | after a player left, every lock has a reason if and only if the player did not play or is logged out |
| LoginProtocol.ServedKeeps | datamgr/datamgr.cpp:354-379 | so does a request that the other end handles, also when it refuses |
| LoginProtocol.GrantedIff | datamgr/datamgr.cpp:354-379 | each login is answered, and granted if and only if the credentials are those of an account that is not locked, and nothing else is against it; then it is locked |
| LoginProtocol.LoginSucceeds | datamgr/datamgr.cpp:354-379 | with nothing else under way, one who asks plays that account in the end if and only if it was granted |
| LoginProtocol.RunKeeps | roommgr/login.cpp:41-138 | so does every run of such steps in any order, whatever the clients do |
| LoginProtocol.QuietIff | datamgr/datamgr.cpp:993-1004 | after any run, once both channels are empty: nobody waits, locked are the accounts being played, by one player each who is there, and those forgotten, the users are as many, and none is forgotten if and only if no reply ever gave an account to a player who had one or was gone, and no player who played left without being logged out |
| LoginProtocol.PoliteNeverForgets | roommgr/main.cpp:682-780 | none is forgotten if no client asks again while it waits or plays, and none that plays leaves without being logged out |
| LoginProtocol.Quiescence | datamgr/datamgr.cpp:993-1004 | so after any run of such clients, once both channels are empty: nobody waits, locked are exactly the accounts being played, by one player each, and the users are as many |
| LoginProtocol.LeakedLock | roommgr/main.cpp:682-780 | a run in which a client asks twice, after which an account nobody plays stays locked |
| LoginProtocol.OrphanedLock | roommgr/login.cpp:41-76 | a run in which a client asks twice and leaves before it is answered: no account was overwritten, and one that nobody plays stays locked |
| LoginProtocol.VanishedLock | roommgr/rmplayer.cpp:1166-1176 | a run in which a client that plays sends a hang-up itself, after which its account stays locked |
| Logins.RoomManager.NewContext | roommgr/login.cpp:41-76 | the room manager's state is that of the machine after the asking |
| Logins.RoomManager.DeleteContext | roommgr/login.cpp:78-131 | likewise after a context is discarded |
| Logins.RoomManager.HandleMessage | roommgr/datamgrclient.cpp:56-82 | likewise after a reply is delivered |
| Logins.RoomManager.HandleHungUp | roommgr/main.cpp:620-638 | likewise after a player left, whether or not the handler came to the logout |
| Logins.DataManager.HandleMessage | datamgr/datamgr.cpp:354-379 | the other end's state is that of the machine after a request is served |
| Logins.Take | roommgr/datamgrclient.cpp:203-211 | both ends together take the steps of the machine, whichever comes, and keep its invariant |
| Framing.LowestFirst | global/ipcmsg.cpp:160-230 | a number on the wire has its lowest byte first, in two's complement |
| Framing.ImageSample | global/ipcmsg.cpp:160-230 | two messages as they are on the wire: size, type, data |
| Framing.ReportedSize | global/ipcmsg.cpp:252-258 | the size that is reported is the length rounded up to a multiple of 4, but -4 for an empty message |
| Framing.BodyIsExact | global/ipcmsg.cpp:236-262 | a body is as long as the header says, and read if and only if that is within the limit; a reader with a limit of 127 also takes sizes with their bytes in the other order |
| Framing.ImageIsTaken | global/ipcmsg.cpp:213-294 | of a stream that starts with a message's image, exactly the image is taken, 8 bytes and the size in the header, and it parses as the message |
| Framing.IPCMessage.Send | global/ipcmsg.cpp:24-61 | the data is copied to the front of a padded body, and nothing of it has been sent |
| Framing.IPCMessage.Write | global/ipcmsg.cpp:152-211 | for all partial writes: the wire gets the next bytes of the image and no others; 0 only if it is all out, -2 if and only if the socket failed |
| Framing.IPCMessage.Read | global/ipcmsg.cpp:213-294 | for all partial reads: what is taken goes on from what was; done, to be continued, failed or refused exactly as the bytes and the socket say |
| Framing.IPCMessage.Unfinished | global/ipcmsg.cpp:213-294 | between two calls there is less than a message |
| Messaging.NextMessage | global/ipcclient.cpp:162-180 | a reader in step with what was sent has the next message when it has it whole, and is in step again |
| Messaging.Outgoing.SendNextMsg | global/ipcclient.cpp:304-324 | the wire stays the beginning of the images of all messages; the first message leaves the queue when it is all out |
| Messaging.Outgoing.AddMsg | global/ipcclient.cpp:296-302 | one more at the end |
| Messaging.Outgoing.Send | global/ipcmsg.cpp:24-61 | a message made of a payload waits at the end: its type, its bytes and the padding |
| Messaging.AddBeside | global/ipcclient.cpp:296-302 | adding a message, whatever is under way, keeps both ends in step |
| Messaging.Incoming.GetNextMsg | global/ipcclient.cpp:162-180 | what has been delivered stays the beginning of what was sent; 0 is one message more, and its size is reported as it is |
| Messaging.TakeTurn | global/ipcclient.cpp:162-324 | whichever end takes its turn, it asks the socket if it has anything to send, or to read; what was delivered is the beginning of what was sent, and all of it when nothing is under way |
| Messaging.Converse | global/ipcclient.cpp:162-324 | over any run of messages given and turns taken: what has come is the first of what was given, with the same type, the same bytes in front and the size rounded up to a multiple of 4, -4 for none; and it is all of it when nothing waits or is under way |
| Encryption.MixIs | global/ipcencryption.cpp:324-353 | masking is either bit, but not both |
| Encryption.NextSample | global/ipcencryption.cpp:262-270 | the stream of masks that starts at 0 |
| Encryption.DecodedEncoded | global/ipcencryption.cpp:324-353 | the client undoes what the server does, the checksum test passes, and both seeds move alike |
| Encryption.ClientSees | global/ipcencryption.cpp:324-353 | of two messages of more than three words that differ in one of them the client trusts one at most |
| Encryption.ServerSees | global/ipcencryption.cpp:355-384 | nor does the server of more than five |
| Encryption.StreamInStep | global/ipcencryption.cpp:64-106 | so for any sequence of messages, the seeds staying equal |
| Encryption.OpenedWhole | global/ipcencryption.cpp:355-383 | if the client's loop takes all words, the server gets the message, trusts it, and stays in step |
| Encryption.ArrivesIff | global/ipcencryption.cpp:147-217 | a message arrives, whatever the buffer held, if and only if no word but the last becomes zero |
| Encryption.ClientStreamIff | global/ipcencryption.cpp:147-217 | so for any sequence of messages, the seeds staying equal after each |
| Encryption.OldEncryption.Encode | global/ipcencryption.cpp:324-353 | type and first three words masked, the checksum of the masked type and the plain words in the last one; the seed moved once for each mask |
| Encryption.OldEncryption.Decode | global/ipcencryption.cpp:355-383 | every word unmasked; false if and only if there are more than four and the checksum is wrong |
| Encryption.Client.Decrypt | global/ipcencryption.cpp:64-106 | the machine-code routine computes the client's side of that |
| Encryption.Client.Encrypt | global/ipcencryption.cpp:147-217 | the loop writes the masked words up to its early end, the checksum of those, and leaves the rest of the buffer |
| SecureMessages.WordSample | global/ipcencryption.cpp:324-353 | a word in memory has its lowest byte first |
| SecureMessages.EncodeMessage | global/ipcencryption.cpp:324-353 | encoding in the memory of a message, byte by byte, is encoding its words |
| SecureMessages.MakeEncoded | global/ipcclient.cpp:105-117 | a message of the payload, padded and then encoded |
| SecureMessages.AddEncoded | global/ipcclient.cpp:105-117 | sending on a secured connection, whatever is under way, keeps both ends in step |
| SecureMessages.SameArrives | global/ipcmsg.cpp:24-61 | the payload is in front of the spare word, which is all of padding, so it comes out whole |
| SecureMessages.UndoneArrives | global/ipcencryption.cpp:64-106 | what was encoded message by message on one end, and undone in that order on the other, is trusted and carries the payloads |
| SecureMessages.ConverseSecurely | global/ipcclient.cpp:105-180 | over any run of messages given and turns taken on a secured connection: what has come is trusted, and carries the first of what was given, with type, bytes and size; and it is all of it when nothing waits or is under way |
| ClientLife.AcceptedKeeps | global/ipcserver.cpp:80-107 | a new connection on a free handle keeps the books: whatever was sent, each client is open, or about to be said to hang up, or deleted; and if nothing was forged, each hung up if and only if it is not open, is listed or yet to be, and the counter counts |
| ClientLife.ToldKeeps | global/ipcserver.cpp:271-276 | so does a message that an open client sends, of whatever type |
| ClientLife.DroppedKeeps | global/ipcserver.cpp:224-268 | so does dropping an open client, which is said to hang up after all else |
| ClientLife.HandledKeeps | global/ipcserver.cpp:307-331 | so does handling the first message of the queue, whoever made it, unless it takes a closed client for the table or deletes a deleted one |
| ClientLife.SoundIff | global/ipcserver.cpp:288-331 | when the queue is handled as far as it can be: it is empty, everybody's messages are in order, and the counter counts, if and only if no message was ever forged, that is a connecting or a hang-up that a client sent |
| ClientLife.TurnHonest | global/ipcserver.cpp:158-285 | after a turn nothing was forged if and only if nothing was before, and nobody forged a message who had something to read and was still open then |
| ClientLife.TurnSound | global/ipcserver.cpp:158-285 | a turn comes to its end, with sound books, if and only if nothing was forged by then |
| ClientLife.AllSentIs | global/ipcserver.cpp:175-213 | sending drops exactly those of the list who are open and cannot be sent to, and says of each, once, that it hung up |
| ClientLife.WhoIsRead | global/ipcserver.cpp:235-279 | who forges a message in a turn, in terms of the answers: of those who have something to read, one who is open, can be sent to and is not dead |
| ClientLife.TurnIs | global/ipcserver.cpp:158-285 | a turn in which nothing is forged, client by client: one who connects is said so and open on its handle; one who cannot be sent to or is dead is said to hang up and closed; of one who has something to read every message is dispatched, in order and with its type, and it is closed if it is over or sent something illegal; and nothing else is said of anybody |
| ClientLife.HonestWalkable | global/ipcserver.cpp:177-183 | if nothing was forged nobody on the client list is deleted |
| ClientLife.ForgedOnce | global/ipcserver.cpp:318-327 | a client that sends a hang-up is off the list and closed, and the counter is too high by one |
| ClientLife.ForgedTwice | global/ipcserver.cpp:318-327 | one that sends two, or closes its connection after one, is to be deleted twice |
| ClientLife.ForgedConnecting | global/ipcserver.cpp:310-316 | one that sends a connecting is listed twice, and still listed when it has hung up and is deleted |
| ClientLife.ForgedAndClosed | global/ipcpollmgr.cpp:65-70 | one that sends a connecting and closes its connection is to be polled without a handle, which is fatal |
| ClientLife.ConnectedIsNew | global/ipcserver.cpp:307-331 | if nothing was forged: a client is said to connect once, and was on no list before |
| ClientLife.NothingAfter | global/ipcserver.cpp:288-305 | if nothing was forged: after a client's hanging up was dispatched, no message of it is left to be |
| ClientLife.CountIs | global/ipcserver.cpp:288-331 | if nothing was forged: connections, and hangings up, can be counted, there are as many as clients who did |
| ClientLife.OpenIs | global/ipcserver.cpp:288-331 | if nothing was forged and all is dispatched: open are those who connected and did not hang up, as many as connections less hangings up, which is what the counter says |
| Servers.IPCPollMgr.AddClient | global/ipcpollmgr.cpp:65-80 | the table has the client at its handle, and no handle is above the maximum |
| Servers.IPCPollMgr.DelClient | global/ipcpollmgr.cpp:82-100 | nobody at that handle; the maximum is still one |
| Servers.IPCServer.WaitForConnection | global/ipcserver.cpp:80-107 | a new client, open on that handle, counted and announced |
| Servers.IPCServer.Drop | global/ipcserver.cpp:224-268 | counted down, announced as hung up, and closed |
| Servers.IPCServer.Close | global/ipcclient.cpp:59-67 | closed once only; its handle is no longer polled |
| Servers.IPCServer.Receive | global/ipcserver.cpp:271-276 | the message waits at the end of the queue, with the type that the client gave it |
| Servers.IPCServer.HandleMessage | global/ipcserver.cpp:307-331 | whoever made the message: who connects is listed, at the end, and polled; who hangs up is off all lists, closed and deleted, and the counter stays; it fails if and only if that takes a closed client for the table or deletes a deleted one |
| Servers.IPCServer.DispatchMessages | global/ipcserver.cpp:288-305 | all messages, in the order of the queue, up to one that cannot be handled |
| Servers.IPCServer.Poll | global/ipcpollmgr.cpp:31-63 | each client is on the list of the dead or of those with something to read as its handle's events say; nobody is if poll() answers less than 1 |
| Servers.IPCServer.SendAll | global/ipcserver.cpp:175-213 | open after it are those who were and are not both on the list and impossible to send to; each other one is said to hang up, once; the walk comes to its end if and only if nobody on the list is deleted |
| Servers.IPCServer.Doit | global/ipcserver.cpp:158-285 | a turn comes to its end, each client hung up at most once and last of all that was ever dispatched, and the counter is the number of open clients, if and only if no client has forged a message, before or among those read in this turn; then every client fared as the answers of the sockets say (as in `ClientLife.TurnIs`) |
| Servers.IPCServer.TakeTurn | roommgr/main.cpp:2555-2558 | who is thrown out, poll() and a turn, one after the other: the same in terms of what poll() said; each client is dropped if and only if it cannot be sent to, or was looked at and is given up, thrown out, over or illegal, and just what it sent is dispatched |
| Servers.Serve | global/ipcserver.cpp:158-285 | from the start, over any number of turns, whatever comes from outside: none gets stuck, every client connected first and once and hung up last and at most once, and the counter is the number of open clients, if and only if no client has forged a message; then open are exactly the clients who were said to connect and not to hang up, and the counter is connections less hangings up; as long as no turn gets stuck, each open client is in the table at its handle and none is above the maximum |
| MemoryPools.AllocatedKeeps | global/memorypool.cpp:47-96 | what is handed out was not live and now is, and nothing else changes; live and free blocks make up all, also across growth |
| MemoryPools.FreedKeeps | global/memorypool.cpp:98-114 | a live block that is freed is no longer live, and nothing else changes |
| MemoryPools.FirstInFirstOut | global/memorypool.cpp:47-114 | over any run, what came out and is still free is what was free and went in, in that order |
| MemoryPools.RunKeeps | global/memorypool.cpp:47-114 | over any run, free blocks are distinct blocks of the pool |
| MemoryPools.LiveIff | global/memorypool.cpp:47-114 | over any run, live is exactly what was handed out and not given back since, or was live at first and not given back |
| MemoryPools.NeverTwice | global/memorypool.cpp:47-114 | over any run, no block is handed out twice without having been given back in between |
| MemoryPools.MemoryPool.Grow | global/memorypool.cpp:51-81 | 1024 blocks more, linked in order behind each other |
| MemoryPools.MemoryPool.Allocate | global/memorypool.cpp:47-96 | the first block of the queue; the counters move |
| MemoryPools.MemoryPool.Deallocate | global/memorypool.cpp:98-114 | the block is the last of the queue |
| MemoryPools.MemoryPool.Counts | global/memorypool.cpp:47-114 | the number of live blocks is `nAlloc - nFree`; no first free block if and only if no last one, and if and only if all are live |
| MemoryPools.IsValidPtr | global/memorypool.cpp:116-136 | true if and only if some block of some chunk has its data there |
| MemoryPools.StartIs | global/memorypool.cpp:116-136 | being in a chunk at a multiple of the block size is being the start of a block |
| StringCache.SpellsOnce | global/stringcache.cpp:13-41 | no place spells two strings |
| StringCache.GenerateHash | global/stringcache.cpp:80-88 | the hash of the string, in 32 bits, of signed characters |
| StringCache.HashIsPolynomial | global/stringcache.cpp:80-88 | cutting the number to 32 bits at every character is the same as cutting it in the end |
| StringCache.Buffer.AllocateString | global/stringcache.cpp:13-41 | there is room if and only if the string with its end fits; then it is spelled there, and all before is as it was |
| StringCache.Manager.Find | global/stringcache.cpp:114-133 | the place of the string if it is in the cache, in spite of collisions, and nothing otherwise |
| StringCache.Manager.AllocateBuffer | global/stringcache.cpp:43-63 | a table with all buffers there were and an empty one |
| StringCache.Manager.SubmitString | global/stringcache.cpp:90-185 | the place the string has from now on; a new one is in the first buffer with room, else in a new one; all places given out before stay; fatal if and only if it fits into no buffer |
| StringCache.Manager.Canonical | global/stringcache.cpp:90-185 | two strings of the cache have the same place if and only if they are equal, and each place still spells its string |
| TrackedHeaps.SlotCounts | global/malloc.cpp:29-73 | through all reuse of slots, what names a slot is what its line allocated in its length |
| TrackedHeaps.Counted | global/malloc.cpp:84 | one more allocation in the slot is right for the list with the new block |
| TrackedHeaps.Uncounted | global/malloc.cpp:169-179 | the slot of a live block has one, so the guard lets it pass; one more freed is right for the list without it |
| TrackedHeaps.TrackedHeap.FindSlot | global/malloc.cpp:29-73 | the slot of that line and length, else the first with no live block, else the next; the last one only if the table is full |
| TrackedHeaps.TrackedHeap.DbMalloc | global/malloc.cpp:23-128 | a block at the end of the list; count and size are one block and its size more, and slots agree with the list |
| TrackedHeaps.TrackedHeap.DbFree | global/malloc.cpp:147-197 | a live block that may be freed is freed, always, and count and size are so much less; what is protected or freed already is not |
| TrackedHeaps.TrackedHeap.SlotsCount | global/malloc.cpp:169-179 | allocations less frees of a slot are the live blocks of its line and length |
| SparseArrays.RangeIs | global/sparse.cpp:46-53 | numbers below (tableSize + 1) * chunkSize, and no others, have a slot |
| SparseArrays.SparseArray.Add | global/sparse.cpp:44-60 | only that number changes, and nothing if it is out of range |
| SparseArrays.SparseArray.Lookup | global/sparse.cpp:95-114 | what the map says; nothing out of range |
| SparseArrays.SparseArray.Del | global/sparse.cpp:62-93 | only that number is forgotten; its chunk is released if and only if nothing is left in it |
| SparseArrays.SparseArray.Destroy | global/sparse.cpp:25-42 | all that is below the last chunk is freed, in order, and the last chunk is left |
| ServIDs.ServIDTable.AllocateServID | roommgr/main.cpp:205-241 | if any id is free, the first free one from the cursor on and round, and only that bit is set |
| ServIDs.ServIDTable.FreeServID | roommgr/main.cpp:243-256 | only that id is free if and only if it is not -1, or 31 was free anyway |
| ServIDs.ServIDTable.SearchEnds | roommgr/main.cpp:205-241 | the search, turn by turn, ends if and only if some id is free, then within one round of the table, and at the first free id |
| ServIDs.Holder.Take | roommgr/main.cpp:205-256 | callers who give back only what they hold never get an id that is held |
| CombatGrid.Drawn | roommgr/combat.cpp:72-78 | the generator's number is in its range |
| CombatGrid.SeedsOfZero | roommgr/combat.cpp:64-114 | the first numbers of the generator from 0, and the obstacles that they make |
| CombatGrid.CombatGroup.constructor | roommgr/combat.cpp:80-114 | obstacles exactly where the client works them out from the seed, all of them on the grid |
| CombatGrid.CombatGroup.AddCharacter | roommgr/combat.cpp:235-320 | at its place, or at that of its number; everybody still has a cell if and only if nobody stood there |
| CombatGrid.PlacesDiffer | roommgr/combat.cpp:235-320 | all places to start from are different, the attackers' on the left, the defenders' on the right |
| CombatGrid.CombatGroup.DeleteCharacter | roommgr/combat.cpp:322-336 | an empty cell, and everybody else in place |
| CombatGrid.LeaveAndJoin | roommgr/combat.cpp:235-336 | two join, one leaves, one joins: two are on one cell |
| CombatGrid.CombatGroup.FindClosestPoint | roommgr/combat.cpp:484-522 | the first in row order of the free cells around that are nearest, the whole parts of distances being compared, with one less on the goal's row or column; all by coordinates |
| CombatGrid.CombatGroup.ClosestIsOne | roommgr/combat.cpp:484-522 | there is only one such cell |
| CombatGrid.Root | global/tools.cpp:495-501 | the whole part of the square root |
| CombatGrid.DistanceIff | global/tools.cpp:495-501 | a distance is at most d if and only if the sum of the squares of both differences is less than the square of d + 1 |
| CombatGrid.CombatGroup.PositionCharacter | roommgr/combat.cpp:524-555 | moved if and only if it is on its cell and the other one is a free one of the grid; no third cell changes |
| CombatGrid.CombatGroup.MoveOnGrid | roommgr/combat.cpp:524-555 | a move to a free cell does not fail and keeps everybody in place |
| CombatGrid.CombatMove.FindWay | roommgr/combat.cpp:1292-1309 | as many steps as the rate, or to the goal, or near enough by coordinates, each to the closest cell |
| CombatGrid.CombatMove.Doit | roommgr/combat.cpp:1282-1344 | it goes that way to its end at the first attempt, so that it stopped short of rate and goal only where the whole distance is small enough; no cell but the first and the last one changes |
| Experience.RunBalance | roommgr/bcharacter.cpp:139-227 | over any run of gains, losses and purchases, build points held and spent grow as the highest level does, which is no higher than levels that were had |
| Experience.RunSum | roommgr/bcharacter.cpp:139-227 | over any run in which no gain starts past the last level and no loss goes below 0, experience changes by the sum of the gains and losses |
| Experience.ThreeLevels | roommgr/bcharacter.hpp:26 | the most a combat pays is worth three levels at most |
| Experience.BCharacter.GainExperience | roommgr/bcharacter.cpp:139-227 | all of a gain is added, unless past the last level, and all of a loss is taken, down to 0; the level is the one of the experience up to 100, the highest level follows, with a build point for each level above it, and just the milestones on the way are granted |
| Experience.BCharacter.AdvanceLevel | roommgr/bcharacter.cpp:229-448 | one level; a build point and a milestone only above the highest level so far |
| Experience.BCharacter.GetLevel | roommgr/bcharacter.cpp:471-480 | at least 1, and the one of the experience |
| Experience.BScroll.BeMemorized | roommgr/bscroll.cpp:57-109 | learned if and only if level, skill and build points are enough and it is not known yet; points held and spent stay the same together |
| Rewards.RatioIs | roommgr/combat.cpp:996-1010 | a thousand times the losers' levels divided by the winners', without the fraction |
| Rewards.BaseIs | roommgr/combat.cpp:998-1016 | a second winner makes it 160 percent, and each further one 30 more, without fractions |
| Rewards.OneCounts | roommgr/combat.cpp:960-985 | those alive who were not summoned count, a player with the level of its experience |
| Rewards.Payment | roommgr/combat.cpp:1029-1034 | never more than the most that is paid, and no loss unless the boost is negative |
| Rewards.PaymentIs | roommgr/combat.cpp:1029-1034 | exactly what the combat is worth times the boost, without the fraction, up to 30000 |
| Rewards.RewardedIs | roommgr/combat.cpp:1025-1037 | who is paid has that much more experience, unless past the last level; who is not, nothing |
| Rewards.Rewarded | roommgr/combat.cpp:1025-1037 | a consistent standing again, at most three levels higher |
| Rewards.SurvivorsDistinct | roommgr/combat.cpp:1021-1041 | those who stand in a combat once are paid once |
| Rewards.CombatGroup.Value | roommgr/combat.cpp:998-1020 | within a quarter of what the levels and the number of winners say, and nothing against players or those without a level |
| Rewards.CombatGroup.PayOut | roommgr/combat.cpp:1022-1041 | each survivor of the side is paid, and nobody else |
| Rewards.CombatGroup.NextRound | roommgr/combat.cpp:934-1152 | once a side is dead the survivors of the other one are paid what their levels make of it, and never again: nobody is paid twice in a combat |
| SaveText.LineIsRead | global/tools.cpp:452-493 | a line that was printed is read back, and what follows is left |
| SaveText.Cursor.Bufgets | global/tools.cpp:452-493 | the first line of what is left without its NULs, or what the buffer held if nothing is left |
| SaveText.AtoiDecimal | global/csinvitem.cpp:138-179 | a number that was printed is read back, whatever follows that is no digit |
| SaveText.DecimalClean | global/csinvitem.cpp:138-179 | a 32-bit number fits into a line |
| SaveItems.AllIdsCountUp | global/csinvitem.cpp:54-135 | the ids count up by one in the order of the text, so no two items have the same |
| SaveItems.NumberedIs | global/csinvitem.cpp:54-135 | reading gives ids, levels by depth and counts of what is contained, and changes nothing else |
| SaveItems.ItemLines | global/csinvitem.cpp:138-185 | which line of an item comes after which |
| SaveItems.PackedData.PackItem | global/csinvitem.cpp:138-179 | the text of the item, with all in it, is added |
| SaveItems.ReadItem | global/csinvitem.cpp:54-135 | an item of any depth that was printed is read back, numbered, and the text after it is left |
| SaveItems.ReadInventory | global/cscharacter.cpp:336-348 | so are the items of a character |
| SavedCharacters.PairIsRead | global/cscharacter.cpp:284-294 | two numbers on a line are read back |
| SavedCharacters.CharacterLines | global/cscharacter.cpp:520-602 | which line of a character comes after which |
| SavedCharacters.PackData | global/cscharacter.cpp:520-602 | the text of the character |
| SavedCharacters.ShiftedIsLeft | global/cscharacter.cpp:255-300 | what is left for the end of a character without a head, if nothing of it is set so far |
| SavedCharacters.CreateData | global/cscharacter.cpp:168-365 | of a character's text, the character, its items numbered, if and only if it has a head or nothing is set from its face on |
| SavedCharacters.SaveAndLoad | global/cscharacter.cpp:168-602 | the round trip succeeds if and only if that is so, and the ids of the items are 1, 2, 3 and so on |
| SavedCharacters.Headless | global/cscharacter.cpp:245-255 | a new character at x = 5 without a head comes back at x = -1 |

## Left out

- Sockets, `poll`, MySQL, files, signals, logging, HTML, client text, movie packets and broadcasts: only what they return is modelled, as arbitrary results; account locks are a set.
- LinkedLists.LinkedList.AddBeforeElement: the element that is made is a ghost result, because the code loses it; `addBefore` only searches first. Copying and disposing of a list.
- LinkedLists.ElementPool.Allocate: a first-in first-out queue of released elements; the block pool underneath is MemoryPools. Access rights and notifications of friends are output.
- Friends.CFriend.AddWatcher: a player with a friend entry is one that has logged in; entries are never deleted.
- Carrying.WorldObject.BeTakenBy: where the server crashes before the move is complete the model ends with the state before it. What an owner's `give` asks for before the thing is given (whether he is dead, and what his classes say) is one answer, yes or no.
- Carrying.WorldObject.BeGivenTo: chains of owners are at most 100000 long, the bound of the code's own search. Visibility, treasure, quest objects and combat groups of what is moved.
- Carrying.WorldObject.BeDroppedBy: with override the object has an owner, which the code follows unasked.
- `weightReduction` and `bulkReduction`, which no code sets, and integer overflow of weights.
- BinaryTrees.BinaryTree.Find: the comparator is fixed when the tree is made; `SetCaseSensitive` on a tree with nodes would break its order.
- LoginProtocol.QuietIff: when it is that a hang-up of the server's own is not followed by a logout (`roommgr/rmplayer.cpp:8520-8528`): in the model a player leaves with or without one. Normal accounts, one server, no downtime, ban, discipline or house branches. What the code reads from and writes to a deleted player is freed memory: in the model it has no effect. The tree of logins by name and the crash recovery of the other process.
- Framing.IPCMessage.Send: the data is no longer than a 32-bit size allows; copying a message, and the BLE variants.
- Messaging.Incoming.GetNextMsg: messages within the receiver's limit, here and in `Messaging.Converse`; what happens after a refused one is the hanging up in Servers.
- Encryption.ArrivesIff: of a message whose loop ends early, that there is a buffer with which it does not arrive; with another one it may by coincidence. `IPCMessage::encode` and `decode`, which nothing calls; how the routines reach the client.
- SecureMessages.ConverseSecurely: the direction from the server to the client, from when both have the seed; the client's own reader is taken to be the one of the server. An empty message is not sent: `Encode` would follow its null pointer. That the other direction arrives is `Encryption.ClientStreamIff`.
- Servers.IPCServer.Poll: the connection to the data manager, which is in the same table without a server, and is passed over.
- Servers.IPCServer.Doit: what comes after freed memory was used, or after the server has ended: the model stops there. Memory of a deleted client that is used again for a new one. What the servers' own handlers do before they pass a message on: the room manager passes a connecting on only if it is announced (`roommgr/main.cpp:560`), so that there only hang-ups can be forged, while the router passes both (`router/main.cpp:170-182`). What handlers of the game add to the queue while a message is dispatched, and the contents of the clients' outgoing queues, which are in Messaging.
- MemoryPools.MemoryPool.Deallocate: freeing a block that is not live is not detected by the code, so it is required here.
- StringCache.Manager.SubmitString: fewer than 65535 buffers, above which the counter of 16 bits wraps.
- TrackedHeaps.TrackedHeap.DbFree: a freed header keeps its mark in the model, while the real memory may be used again; `_minPtr`, `_maxPtr`, `db_realloc` and `db_strdup`. Sizes are not negative.
- SparseArrays.SparseArray.Destroy: an object that is in two slots would be freed twice.
- ServIDs.ServIDTable.AllocateServID: with no id free the search never ends (`ServIDs.ServIDTable.SearchEnds`), so a free one is required. The id 0 is handed out like any other.
- CombatGrid.CombatGroup.AddCharacter: at most 12 on a side, as many as there are places; ids are not 0, which would look like an empty cell. Lists of who is ready.
- CombatGrid.CombatMove.Doit: a rate that is not negative; the second attempt after a failed one cannot come about.
- Experience.BCharacter.GainExperience: the branch for a highest level of 0, which no character has; health and stamina; the objects given at milestones are their levels. Creatures gain nothing.
- Experience.BScroll.BeMemorized: the cost in build points, worked out with floating point, is any number from 1 on.
- Rewards.CombatGroup.NextRound: quotients of levels are real numbers, not doubles; the dice are any number. The share of damage, and fleeing.
- SavedCharacters.CreateData: the class of affects is not part of this model: an affect is taken to print five numbers and to read them. A colon at the start of a line, where `strtok` would skip it, and lines of 1024 characters and more, which overrun the buffer.
- SaveItems.ReadItem: at most 1000 items in a container, above which the code stops reading.
- Spell tables, creatures' behaviour, crafting, mail, houses, `validate.cpp`, `configmgr.cpp` and the copying of objects: data, output, or easy members.
