# buxton in Dafny

A model of the buxton configuration daemon, kept beside the C sources it follows.
`dafny verify dfyconfig.toml` checks all of it.

| files | part of the program |
|---|---|
| `OrderedMap`, `HashChains`, `Hashmap`, `TilePool` | the pooled, insertion-ordered hash map: pointers, bucket table, resizing, iteration, moving entries between maps, tiles that are reused without being zeroed |
| `BuxtonList`, `ListIndex`, `Dictionary` | the linked list, the daemon's maps of lists, and the ini dictionary |
| `Wire`, `Serialize`, `Records` | the wire format as sequences of bytes, the serializer and parser over growing buffers, the stored record format |
| `Framing`, `Requests` | frames out of a byte stream that arrives in arbitrary pieces; the client's request builders and the daemon's `parse_list`, end to end |
| `Registry` | who is notified of which key: the two indexes, terminating clients, what is sent |
| `Smack`, `MemoryStore`, `Direct` | access rules, the memory backend, and the layered, labelled store above them |
| `Callbacks` | the client's table of waiting requests and its notification callbacks |

Code that changes state is a class whose methods are proved against functions on
values; the lemmas then say what those functions mean. The main results:

* The heap of the hash map (two doubly linked lists through every entry, a table that
  is rehashed in place) refines an insertion-ordered map under every operation, also
  when entries change hands between two maps or are removed during an iteration. A map
  made on a recycled tile is empty although the tile is not zeroed, and no live map tile
  is handed out; in every run of making, filling and freeing maps over one pool, each map
  in use holds just what was put into it.
* In every run of connecting, registering, unregistering, changing and disconnecting,
  the two notification indexes mirror each other with multiplicities, so that neither
  `abort()` in `terminate_client` is reached; and a key's subscribers are the registrations
  that stand, in the order in which they were made.
* However a stream of well-formed frames is cut into reads, the daemon handles exactly
  those frames in order, 32 to a call; together with the codec's and the parameter lists'
  round trips this goes from the client's calls to the daemon's handlers: what the daemon
  performs is the request the client made.
* In every run with a key of one type, a set of it tells exactly the subscribers whose
  cached value differs; an unset tells all.
* With rules loaded from the file, access is decided by the built-in cases and then by the
  letters of the first line for the pair. Each changing operation succeeds exactly when
  the layer, the user and those rules let it, and in every run a value stays as it is when
  all who set or unset it may not write it.
* A client reads back what it wrote; labels outlast writes and values outlast label
  changes; keys keep their groups exactly when an operation is careful in a sense that
  can be checked beforehand. A look-up without a layer is meant to give the best layer's
  value, which does not depend on the iteration order. Whatever memory holds it does so
  exactly for keys without a name: for a key with a name, as every NOTIFY has, the group is
  looked up with a copy of the layer's name that leaves out the NUL, and what lies behind
  the copy decides.
* In every run a callback is run only for a response to its request, and at most once for
  an answer; a change is delivered exactly while its notification is on, which is from an
  accepted NOTIFY until an accepted UNNOTIFY.

Where the code does something other than one would hope, the model follows the code
and states the exact condition, with an input where it fails: the size field of a message
(`Wire.SizeField`, `Wire.SizeFieldWraps`), the growth of the hash table
(`Hashmaps.GrowthExact`, `Hashmaps.FirstOverrun`), the comparison of cached strings
(`Registry.PortableNotify`, `Registry.MissedChange`, `Registry.ReadsBeyond`), the list
that the client's loop frees twice (`Framing.Trouble`, `Framing.TroubledStream`), look-ups
without a layer (`Direct.LookedExact`, `Direct.LayerlessExact`, `Direct.NamedInput`),
record keys of groups and names with a NUL inside (`MemoryStore.KeyRecParts`,
`MemoryStore.KeyRecClash`, `MemoryStore.GroupGone`, `MemoryStore.OtherGroupGone`), the
integrity of groups (`Direct.IntegrityExact`, `Direct.IntegrityLost`,
`Direct.GroupMisnamed`), and stores that two layers or users share
(`MemoryStore.StoresShared`, `MemoryStore.SharedAcrossKinds`).

## Model

| member | source | states |
|---|---|---|
| OrderedMap.PutLaw | src/shared/hashmap.c:424-455 | put adds a missing key at the end with its key pointer and value and changes no other entry; an existing one keeps both |
| OrderedMap.ReplaceLaw | src/shared/hashmap.c:457-472 | replace makes the entry store the given key pointer and value and moves no entry |
| OrderedMap.UpdateLaw | src/shared/hashmap.c:474-487 | update changes the value of an existing key only, keeps its key pointer, and adds nothing |
| OrderedMap.RemoveLaw | src/shared/hashmap.c:536-553 | remove makes exactly that key absent |
| OrderedMap.RemoveOrder | src/shared/hashmap.c:536-553 | and keeps the order of the others |
| OrderedMap.RemoveAndPutLaw | src/shared/hashmap.c:576-599 | an entry is renamed, with the new key pointer; the old key is gone, every other entry is the same |
| OrderedMap.RemoveAndReplaceLaw | src/shared/hashmap.c:601-625 | the same when the new key is taken: its former entry goes, and only that one |
| OrderedMap.ReplaceSteps | src/shared/hashmap.c:601-625 | removing the victim and re-linking the entry under its new key puts it at the tail of the order |
| OrderedMap.MergeLaw | src/shared/hashmap.c:823-868 | merging keeps every entry of the map and takes exactly the missing keys from the other |
| HashChains.PushBucket | src/shared/hashmap.c:216-226 | linking at a bucket's head keeps all chains well-formed doubly linked lists |
| HashChains.DropBucket | src/shared/hashmap.c:243-254 | unlinking from a bucket keeps all chains well formed, without that entry |
| HashChains.FiledPush | src/shared/hashmap.c:216-226 | every entry stays in the bucket its hash names when one is added |
| HashChains.FiledDrop | src/shared/hashmap.c:243-254 | and when one is dropped |
| Hashmaps.Hashmap.constructor | src/shared/hashmap.c:178-199 | a new map in zeroed memory is valid and empty |
| Hashmaps.Hashmap.New | src/shared/hashmap.c:178-199 | on a tile whose bucket slots are NULL it is valid and empty, without those slots being written |
| Hashmaps.Hashmap.Free | src/shared/hashmap.c:287-303 | freeing leaves the tile's bucket slots NULL, which is what New asks for |
| Hashmaps.Hashmap.HashScan | src/shared/hashmap.c:362-372 | the scan of one chain finds the entry of the key's class exactly when the map has one |
| Hashmaps.Hashmap.LinkEntry | src/shared/hashmap.c:216-241 | an entry of a new class is appended to the order; the map stays valid |
| Hashmaps.Hashmap.UnlinkEntry | src/shared/hashmap.c:243-269 | exactly that entry leaves both lists, and the order of the others stays |
| Hashmaps.Hashmap.ResizeBuckets | src/shared/hashmap.c:374-422 | contents and order are kept, the table grows when it is three quarters full, and a table left behind is all NULL |
| Hashmaps.Hashmap.RehomeAll | src/shared/hashmap.c:386-405 | the loop: visited entries are in the new table, the others still in the old one; at the end the old one is empty |
| Hashmaps.Hashmap.Rehome | src/shared/hashmap.c:386-405 | one turn moves one entry from the old table's chain to the head of its new chain |
| Hashmaps.GrowthExact | src/shared/hashmap.c:374-413 | below 2^30 entries a put keeps the load bound; a resize takes b buckets to at least 3b + 3 exactly when it is not one where the product with b has wrapped |
| Hashmaps.RunLoad | src/shared/hashmap.c:374-455 | in every run below 2^30 entries 4n <= 3b + 3, whatever wraps |
| Hashmaps.RunCost | src/shared/hashmap.c:374-455 | in every run without such early resizes, resizes re-link at most three entries for two successful inserts |
| Hashmaps.ModestCost | src/shared/hashmap.c:374-455 | so they do for a caller that adds no entry once there have been more than 365,897,127, and every resize then at least triples the table |
| Hashmaps.FirstOverrun | src/shared/hashmap.c:380-413 | the 365,897,129th insert resizes to four buckets more and breaks the bound |
| Hashmaps.OverrunAgain | src/shared/hashmap.c:380-413 | so does an entry removed and added again at that size, although no put then finds more than 365,897,127 entries |
| Hashmaps.Hashmap.Put | src/shared/hashmap.c:424-455 | refines Put of the ordered map; returns 1, 0 for the same value, or -EEXIST |
| Hashmaps.Hashmap.Replace | src/shared/hashmap.c:457-472 | refines Replace; 1 for a new key, 0 for an old one |
| Hashmaps.Hashmap.Update | src/shared/hashmap.c:474-487 | refines Update; -ENOENT for a missing key |
| Hashmaps.Hashmap.Get | src/shared/hashmap.c:489-502 | the stored value, or NULL |
| Hashmaps.Hashmap.Contains | src/shared/hashmap.c:522-534 | true exactly when the key is in the map |
| Hashmaps.Hashmap.RemoveEntry | src/shared/hashmap.c:271-285 | one entry goes, the rest of the order stays |
| Hashmaps.Hashmap.Remove | src/shared/hashmap.c:536-553 | refines Remove and returns the removed value |
| Hashmaps.Hashmap.RemoveValue | src/shared/hashmap.c:627-646 | removes only when the stored value is the one given |
| Hashmaps.Hashmap.RemoveAndPut | src/shared/hashmap.c:576-599 | refines RemoveAndPut with -ENOENT and -EEXIST |
| Hashmaps.Hashmap.RemoveAndReplace | src/shared/hashmap.c:601-625 | refines RemoveAndReplace with -ENOENT |
| Hashmaps.Hashmap.StealFirst | src/shared/hashmap.c:769-797 | takes the oldest entry, its value and its key |
| Hashmaps.Hashmap.Clear | src/shared/hashmap.c:328-334 | empties the map and leaves every bucket of the table and of the tile NULL |
| Hashmaps.Hashmap.Iterate | src/shared/hashmap.c:648-681 | gives the entry at the iterator's place and the place after it; NULL and the end behind the last |
| Hashmaps.Hashmap.ForeachRemove | src/shared/hashmap.h:104-108 | an iteration that removes current entries visits each original entry once, in order, up to the first NULL value, and keeps exactly the others |
| Hashmaps.Hashmap.RemoveCurrent | src/shared/hashmap.c:648-681 | removing the current entry leaves the iterator on the entry that follows |
| Hashmaps.Hashmap.MoveOne | src/shared/hashmap.c:870-892 | one entry changes hands; -ENOENT and -EEXIST leave both maps alone |
| Hashmaps.Hashmap.Move | src/shared/hashmap.c:842-868 | this map gains exactly the keys it lacked, in order; the other keeps the rest |
| Hashmaps.Hashmap.Merge | src/shared/hashmap.c:823-840 | the same gain, with the other map unchanged |
| Hashmaps.Hashmap.Copy | src/shared/hashmap.c:894-909 | a new map with the same entries in the same order |
| Hashmaps.MoveStep | src/shared/hashmap.c:850-867 | one turn of move keeps what was moved and what was passed over apart |
| Hashmaps.MergeStep | src/shared/hashmap.c:829-837 | one put of merge extends the map by an entry only if its key was missing at the start |
| Hashmaps.SweepStep | src/shared/hashmap.c:648-681 | one turn of a removing iteration keeps the passed entries that stay, in order, before those still to come |
| TilePools.TilePool.AllocateTile | src/shared/hashmap.c:68-108 | the tile handed out was not live, its bucket slots are NULL and no longer spare, and it is one of the spare tiles or new |
| TilePools.TilePool.AddPool | src/shared/hashmap.c:81-100 | a new chunk has at least 512 tiles and twice those of the last, all of them fit to be handed out |
| TilePools.TilePool.DeallocateTile | src/shared/hashmap.c:110-113 | the tile becomes the first free one, its slots are spare again, and it is no longer live |
| TilePools.HashmapNew | src/shared/hashmap.c:178-199 | a map on whatever tile comes is empty, its tile was not live, and its slots are no other tile's |
| TilePools.HashmapFree | src/shared/hashmap.c:287-303 | the tile goes back fit for reuse |
| TilePools.NewOn | src/shared/hashmap.c:178-199 | a new map shares nothing with the maps in use, which stay as they are |
| TilePools.StoreOn | src/shared/hashmap.c:424-455 | a put on one of several maps over a pool leaves the others and the pool as they are |
| TilePools.FreeOn | src/shared/hashmap.c:287-303 | so does freeing one of them |
| TilePools.RunUses | src/shared/hashmap.c:68-199 | in every run of new, put and free over one pool, the maps in use hold just what was put into each, share nothing, and their tiles are the live ones |
| TilePools.ChunkTilesEnough | src/shared/hashmap.c:81-100 | rounding to pages never loses a tile |
| BuxtonLists.Append | src/shared/buxtonlist.c:23-55 | the list's values gain one at the end; size and tail are right at the head |
| BuxtonLists.Prepend | src/shared/buxtonlist.c:57-89 | the list's values gain one at the front; size and tail are right at the new head |
| BuxtonLists.Remove | src/shared/buxtonlist.c:91-133 | the first node with the data goes, and only it; false when there is none |
| BuxtonLists.Locate | src/shared/buxtonlist.c:100-108 | the search finds the first occurrence and its predecessor |
| Dictionaries.FreeSlot | src/shared/dictionary.c:248-302 | with fewer occupied slots than slots, one is free |
| Dictionaries.Dictionary.constructor | src/shared/dictionary.c:144-159 | an empty dictionary of at least 128 slots |
| Dictionaries.Dictionary.Locate | src/shared/dictionary.c:202-220 | the scan finds the one slot of a key, or none |
| Dictionaries.Dictionary.Get | src/shared/dictionary.c:202-220 | the key's value, or the default |
| Dictionaries.Dictionary.Set | src/shared/dictionary.c:248-302 | adds or overwrites one key of the map; n counts the keys; doubles only when full |
| Dictionaries.Dictionary.Grow | src/shared/dictionary.c:270-285 | doubling keeps the map |
| Dictionaries.Dictionary.FreeFrom | src/shared/dictionary.c:287-300 | the wrap-around search ends at a free slot |
| Dictionaries.Dictionary.Unset | src/shared/dictionary.c:315-350 | removes exactly that key and frees its slot |
| Wire.RoundTrip | src/shared/serialize.c:189-534 | deserializing undoes serializing, for every type, message id and list the serializer accepts, also with bytes behind the message |
| Wire.ParsedExact | src/shared/serialize.c:466-485 | of messages whose strings have 32-bit lengths, exactly those whose strings are empty or closed by a NUL are parsed again; the others are refused |
| Wire.UnclosedRefused | src/shared/serialize.c:466-485 | a string parameter that does not end in a NUL is refused |
| Wire.SizeField | src/shared/serialize.c:536-553 | the size read from a message is its length exactly when that is a 32-bit number |
| Wire.SizeFieldWraps | src/shared/serialize.c:346-359 | a string of 2^32 - 1 bytes, for which it is not |
| Wire.DecodeOne | src/shared/serialize.c:433-531 | one parameter comes back as written, and its length is right |
| Wire.DecodeAll | src/shared/serialize.c:420-531 | so does a list of parameters |
| Wire.HeaderFields | src/shared/serialize.c:261-300 | the fields of the header stand where the parser looks for them |
| Wire.HeaderBytes | src/shared/serialize.c:245-300 | the bytes of an empty message: control code, number, size, message id and count, lowest byte first |
| Wire.ParamBytes | src/shared/serialize.c:262-345 | the bytes of a string, a negative number and a truth value |
| Wire.UnLE_LE | src/shared/serialize.c:261-300 | little-endian numbers come back |
| Serialize.GreedyRealloc | src/shared/util.c:43-64 | at least the bytes asked for, at least twice over when it grows, with the old ones in place |
| Serialize.SerializeMessage | src/shared/serialize.c:189-359 | the bytes of the message, or 0 exactly for what is refused; every write is inside the buffer |
| Serialize.AppendParam | src/shared/serialize.c:262-345 | room is made before a parameter is written behind the last |
| Serialize.DeserializeMessage | src/shared/serialize.c:361-534 | reads what the bytes say, over the buffer |
| Serialize.DeserializeParam | src/shared/serialize.c:433-531 | one turn of the parameter loop |
| Serialize.GetMessageSize | src/shared/serialize.c:536-553 | the size field, or 0 when the header is short or the size is |
| Records.SerializeRecord | src/shared/serialize.c:31-116 | type, lengths, label and value one behind the other, inside the buffer |
| Records.DeserializeRecord | src/shared/serialize.c:118-187 | reads what the bytes say |
| Records.RecordRoundTrip | src/shared/serialize.c:31-187 | a stored value and its label come back |
| Framing.Connection.HandleClient | src/core/daemon.c:1228-1330 | however the stream is cut, the frames handled are those the stream holds, and no byte behind the last of 32 is read |
| Framing.Connection.ReadLoop | src/core/daemon.c:1262-1325 | the same for the loop; more data is reported exactly at the limit with bytes left |
| Framing.Connection.Turn | src/core/daemon.c:1262-1325 | one read keeps offset <= size <= capacity, asks for no more than it has room for, and completes at most one frame |
| Framing.Connection.HandleResponses | src/shared/protocol.c:322-408 | the client's loop handles all complete frames of the stream and counts those that parse, also when a read fails, unless a frame does not parse while the last that did had parameters; it is followed up to the first such frame, whose list is freed twice |
| Framing.SentUntroubled | src/shared/protocol.c:368-405 | a stream whose frames all parse, as those the daemon makes do, has no such frame |
| Framing.MessageParses | src/shared/serialize.c:189-534 | every message the serializer makes parses |
| Framing.TroubledStream | src/shared/protocol.c:368-405 | an answer followed by a frame with another control code is such a stream |
| Framing.ServeFrames | src/core/daemon.c:1262-1325 | a stream of well-formed frames is cut into exactly those frames |
| Framing.ServeExactly | src/core/daemon.c:1262-1325 | with 32 frames, what follows them is left unread |
| Framing.ServeEnds | src/core/daemon.c:1262-1325 | what ends a stream of fewer frames: a partial frame is forgotten, and a size under 8 or over 32768 or a frame the handler refuses drops the connection |
| Framing.SizePrefix | src/shared/serialize.c:536-553 | the size of a frame is known from its first eight bytes |
| Requests.ParseBuild | src/core/daemon.c:44-300 | what the daemon performs, by parse_list and the switch of handle_message, is the operation the client called, with the fields it carries; it is the request itself exactly when the fields not carried are empty |
| Requests.FrameNumber | src/shared/protocol.c:432-1048 | the number of each operation in its frame |
| Requests.OneRequest | src/shared/protocol.c:432-1048 | the same through the bytes of one frame |
| Requests.EndToEnd | src/core/daemon.c:218-300 | the same for any 32 requests sent back to back, in one call of handle_client |
| Requests.ServeClient | src/core/main.c:243-364 | the same for any number of requests through the imperative loop, called again as long as something is left |
| Registry.RegisterKeeps | src/core/daemon.c:892-976 | registering keeps the two indexes inverse |
| Registry.UnregisterFinds | src/core/daemon.c:978-1070 | a registered client has the key in its list |
| Registry.UnregisterKeeps | src/core/daemon.c:978-1070 | unregistering keeps the two indexes inverse |
| Registry.UnregisterUndoesRegister | src/core/daemon.c:892-1070 | a first registration that is taken back leaves everything as it was |
| Registry.TerminateKeeps | src/core/daemon.c:1332-1403 | so does terminating a client |
| Registry.TerminateForgets | src/core/daemon.c:1332-1403 | nothing of the client is left, everything of the others is, in order; a client that gets the descriptor again has no registrations |
| Registry.ClearStep | src/core/daemon.c:1350-1380 | one turn of the loop finds the key and the item, where the code would abort, and removes one item |
| Registry.NotifyKeeps | src/core/daemon.c:504-628 | notifying keeps the two indexes inverse |
| Registry.AlwaysInverse | src/core/daemon.c:892-1403 | they are inverse in every run |
| Registry.NotifyExactly | src/core/daemon.c:504-628 | one message to each registration whose cached value differs, none to others; repeated, nothing is sent |
| Registry.RunNotifies | src/core/daemon.c:504-628 | in every run with a key of one type, its strings C strings, each set sends one message, in registration order, to exactly the registrations whose cache differs; then all caches hold the value and the same set sends nothing |
| Registry.UnsetTells | src/core/daemon.c:504-628 | an unset is followed to the end and sends one message without a value to every registration, in list order; every cache is the zeroed datum then |
| Registry.RunUnsets | src/core/daemon.c:470-628 | so does each unset in every run |
| Registry.RunRegistrations | src/core/daemon.c:892-1403 | in every run a key's subscribers are the registrations not taken back, with their clients and message ids, in the order in which they were made |
| Registry.OldestFirst | src/core/daemon.c:978-1070 | an unregistration succeeds exactly when a registration of the client stands, and tells the message id of its oldest |
| Registry.KeyNameNone | src/core/daemon.c:29-42 | a key has no notification name exactly when its group or name is empty |
| Registry.KeyNamesShared | src/core/daemon.c:29-42 | two keys share one exactly when they are the same, or a line feed inside a group or name lets it be split in another place |
| Registry.CachesStay | src/core/daemon.c:504-628 | they hold it as long as nothing else is set and those who register see it |
| Registry.TypedCaches | src/core/daemon.c:504-976 | in such a run all caches are of that type at any time |
| Registry.CStringCompare | src/core/daemon.c:540-556 | comparing as many bytes as the new string has decides equality of C strings |
| Registry.ClosedCompare | src/core/daemon.c:535-541 | for strings merely closed by a NUL, the comparison decides equality exactly when neither is a proper beginning of the other; a shorter new one passes for the same, for a longer one the cache is read beyond its end |
| Registry.PortableNotify | src/core/daemon.c:504-628 | for values as the parser lets them through: a set is followed to the end and messages exactly the registrations with a differing cache if and only if it and no cached string are proper beginnings of each other |
| Registry.MissedChange | src/core/daemon.c:535-541 | two strings of the first kind |
| Registry.ReadsBeyond | src/core/daemon.c:535-541 | two pairs of the second kind |
| Registry.ScalarCompare | src/core/daemon.c:542-576 | values of one fixed-width type are compared in full |
| Registry.UnsetCompare | src/core/daemon.c:535-600 | compared with the zeroed datum an unset leaves, a number is the same exactly when it is zero, and any string but NULL goes beyond the cache |
| Registry.BuxtonDaemon.RegisterNotification | src/core/daemon.c:892-976 | appends the item and the key name, or refuses and changes nothing |
| Registry.BuxtonDaemon.UnregisterNotification | src/core/daemon.c:978-1070 | takes back the oldest registration and tells its message id; fails exactly when there is none |
| Registry.BuxtonDaemon.TerminateClient | src/core/daemon.c:1332-1403 | removes all registrations of the client and nothing else; the aborts are not reached |
| Registry.BuxtonDaemon.NotifyClients | src/core/daemon.c:504-628 | sends the messages and updates the caches of one key's subscribers, up to the first comparison that goes beyond a cache; to the end exactly when there is none; for an unset to the end, one message to each |
| Registry.BuxtonDaemon.TellAll | src/core/daemon.c:526-627 | the loop over them, in registration order; for an unset each is told and its cache zeroed |
| ListIndexes.ListIndex.Add | src/core/daemon.c:936-971 | appending to a list of a map of lists keeps every pointer in the map the head of its list, and the other lists as they are |
| ListIndexes.ListIndex.Take | src/core/daemon.c:1030-1066 | so does taking off an item, also the first: the new head is stored, and an empty list goes |
| ListIndexes.TakeFrom | src/core/daemon.c:1366-1384 | the same on terminating a client |
| Smack.CacheRules | src/security/smack.c:82-137 | the table says of each pair what the first line for it says; an incomplete line is reported |
| Smack.PairInjective | src/security/smack.c:112-115 | a pair of labels can be told from the joined string |
| Smack.AccessExact | src/security/smack.c:147-226 | who may do what, for all labels: the built-in cases, and otherwise the letters of the file's first line for the pair, where reading needs its r, and writing its r and its w |
| Smack.ReadOnlyRule | src/security/smack.c:129-131 | with the rule "app obj r" app may read obj and not write it |
| Smack.WriteImpliesRead | src/security/smack.c:147-226 | whoever may write may read |
| MemoryStore.KeyRecParts | src/db/memory.c:50-89 | group and name can be read off a record key exactly when neither has a NUL inside; strcmp sees the group up to its first NUL |
| MemoryStore.KeyRecInjective | src/db/memory.c:50-89 | so different keys without such NULs have different record keys |
| MemoryStore.KeyRecClash | src/db/memory.c:50-89 | a group "g", NUL, "n" has the record key of key "n" in group "g" |
| MemoryStore.WrittenLaw | src/db/memory.c:205-253 | a write gives the key the value and label, or only the label, and changes no other record |
| MemoryStore.GroupGone | src/db/memory.c:354-389 | unsetting a group removes exactly the records whose group is the same up to its first NUL |
| MemoryStore.GroupKeysGone | src/db/memory.c:354-389 | where no NUL is inside, these are its record and all its keys, and nothing else |
| MemoryStore.OtherGroupGone | src/db/memory.c:373-385 | unsetting group "g" also removes group "g", NUL, "x" |
| MemoryStore.NamesExact | src/db/memory.c:406-501 | in a store without such NULs, which the code asserts, exactly the names of the group's keys, or the group names, that begin with the prefix |
| MemoryStore.NamesOnce | src/db/memory.c:406-501 | each once |
| MemoryStore.StoresShared | src/db/memory.c:184-188 | for all kinds of layers: a store is shared exactly by the same layer and user, by a system layer named like a user's store, and when a negative-looking user id meets a name that ends in a dash |
| MemoryStore.SharedAcrossKinds | src/db/memory.c:184-188 | system layer "base-1000" and user layer "base" of user 1000, and two user layers, in one store |
| MemoryStore.DashlessStores | src/db/memory.c:184-188 | where names have no dash, only the same layer and user share a store |
| MemoryStore.MemoryBackend.DbForResource | src/db/memory.c:175-203 | finds or makes the store, which changes no contents |
| MemoryStore.MemoryBackend.SetValue | src/db/memory.c:205-253 | writes one record; ENOENT for a label without a record |
| MemoryStore.MemoryBackend.GetValue | src/db/memory.c:255-309 | the record, ENOENT, or EINVAL for another type |
| MemoryStore.MemoryBackend.UnsetKey | src/db/memory.c:311-352 | removes one record, or ENOENT |
| MemoryStore.MemoryBackend.UnsetGroup | src/db/memory.c:354-389 | removes a group, or ENOENT when nothing of it is there |
| MemoryStore.RemoveGroup | src/db/memory.c:373-385 | the loop that removes while it iterates |
| MemoryStore.MemoryBackend.ListNames | src/db/memory.c:406-501 | the names, in order; fails exactly when there are 65536 or more |
| Direct.FetchExact | src/shared/direct.c:114-197 | a look-up in a layer whose name is closed gives the stored value exactly when the type fits, the group is there as a string, and the rules let the client read both labels |
| Direct.FetchDenied | src/shared/direct.c:114-197 | EPERM exactly when reading is all that is missing |
| Direct.FetchMissing | src/shared/direct.c:114-197 | ENOENT exactly when a record looked for is missing |
| Direct.ClosedSame | src/shared/direct.c:114-197 | what is in memory behind the copied layer does not matter for a key that has no name or whose layer counts its NUL |
| Direct.TriedExact | src/shared/direct.c:153-162 | a layer that is meant to answer does so exactly when the copy of its name, with what is behind it, names a layer where the client finds and may read the group |
| Direct.LookedExact | src/shared/direct.c:41-112 | a look-up without a layer goes as it is meant to exactly when the layer meant answers both times it is asked and none that would be taken instead does |
| Direct.UnnamedMeant | src/shared/direct.c:41-112 | without a name it always does |
| Direct.NulsMeant | src/shared/direct.c:41-112 | with a name it does when a NUL is behind every copy |
| Direct.NamedLost | src/shared/direct.c:41-112 | for every key with a name something could be in memory for which nothing is found |
| Direct.LayerlessExact | src/shared/direct.c:41-112 | so where a layer is meant to answer, the look-up gives its answer whatever memory holds exactly for keys without a name |
| Direct.NamedInput | src/shared/direct.c:67-96 | a stored key that is found with a NUL behind the copies and not found with another character there |
| Direct.OrderIrrelevant | src/shared/direct.c:67-111 | with distinct priorities within a kind, the answer that is meant does not depend on the order of the layers |
| Direct.BestTop | src/shared/direct.c:67-96 | the layer it comes from is one that no answering layer is above |
| Direct.ChosenLayer | src/shared/direct.c:83-96 | the layer chosen is a system layer if any of those that answer is; no other of its kind that answers has a higher priority, and none behind it the same |
| Direct.ChooseStep | src/shared/direct.c:83-96 | one turn of the loop keeps the preference: System above User, then priority, the later on a tie |
| Direct.BuxtonControl.GetValueForLayer | src/shared/direct.c:114-197 | group first, with the copied layer, then access, then the value; no store changes |
| Direct.BuxtonControl.GetValue | src/shared/direct.c:41-112 | tries the layers with what is behind each copy and takes the best that answers, or says ENOENT; that is the answer meant when the key has no name or a NUL is behind every copy; the key's layer is taken away again exactly when a layer is chosen |
| Direct.BuxtonControl.SetValue | src/shared/direct.c:199-317 | performs the step or refuses and changes nothing; the key's type is restored |
| Direct.BuxtonControl.SetLabel | src/shared/direct.c:319-371 | for a key with a layer, performs the step or refuses |
| Direct.BuxtonControl.CreateGroup | src/shared/direct.c:373-467 | for a key with a layer, performs the step or refuses |
| Direct.BuxtonControl.RemoveGroup | src/shared/direct.c:469-540 | for a key with a layer, performs the step or refuses |
| Direct.BuxtonControl.UnsetValue | src/shared/direct.c:590-676 | performs the step or refuses |
| Direct.SetExact | src/shared/direct.c:199-317 | a set succeeds exactly when the layer is there and not read-only, the group's record is a string the client may write, and so is the value if there is one; which label it gets |
| Direct.SetLabelExact | src/shared/direct.c:319-371 | a label is set exactly by root, or unchecked, in a system layer that is not read-only, on a record that is there |
| Direct.CreateExact | src/shared/direct.c:373-467 | a group is created exactly where the layer is not read-only, by root or unchecked in a system layer, and where nothing is found; with the client's label |
| Direct.RemoveExact | src/shared/direct.c:469-540 | a group that is found is removed exactly from a layer that is not read-only, by root or unchecked in a system layer, and by who may write it in a user layer |
| Direct.UnsetExact | src/shared/direct.c:590-676 | an unset succeeds exactly in a layer that is not read-only, on a record that is there in a group that is a string; a labelled client must be allowed to write both, and name the type |
| Direct.StepLaw | src/shared/direct.c:199-676 | what each operation makes of each record of each store: a set keeps an existing label, a label change keeps the data, other records and stores are untouched |
| Direct.StepApart | src/shared/direct.c:199-676 | the same by layer and user: a record of another layer or user is touched only if the two share a store |
| Direct.OthersUntouched | src/shared/direct.c:199-676 | with different names without a dash, records of other layers and users are untouched |
| Direct.ReadYourWrites | src/shared/direct.c:114-317 | after a set the same client reads that value, under the label kept or given, with the type it has or unset; another type is refused |
| Direct.WriterReads | src/shared/direct.c:246-312 | who may write a key may read its group, and the key under the label it gets |
| Direct.IntegrityExact | src/shared/direct.c:199-676 | for all groups and names: keys keep a string-typed group record exactly when a set is on a key, or stores a string, or the group has no keys or a NUL inside, and the record that a group's creation writes is not that of a key whose group is missing |
| Direct.IntegrityLost | src/shared/direct.c:199-467 | a set without a name, which leaves a key without its group |
| Direct.GroupMisnamed | src/shared/direct.c:373-467 | group "h" made with name "n", and group "h", NUL, "n" made without one, each of which is a key without its group |
| Direct.AlwaysIntegral | src/shared/direct.c:199-676 | so they do in every run that sets keys and creates groups without a NUL inside |
| Direct.CreateFresh | src/shared/direct.c:410-414 | a group is never created over something |
| Direct.CreatorMayWrite | src/shared/direct.c:199-467 | a missing group without a NUL inside can be created by whoever administers the layer, who can then set its keys exactly when the label is not the star |
| Direct.GroupForgotten | src/shared/direct.c:469-540 | after a group's removal nothing of it is found |
| Direct.LabelsOutlast | src/shared/direct.c:199-371 | in every run, a record's label survives all writes, and its value all label changes |
| Direct.StoreFrozen | src/shared/direct.c:285-293 | a store that is read-only, or that no call is on, is unchanged by any run |
| Direct.Protected | src/shared/direct.c:199-676 | in every run a value and its label stay as they are when all who set or unset it are clients that may not write that label |
| Callbacks.AlwaysSound | src/shared/protocol.c:152-320 | in every run each callback run was caused by a later response to the message id of its request, with the list that response brought; at most once for an answer, with the type and key sent; for a change only by a response that came after the message id was answered with 0; never after the request was given up |
| Callbacks.StaysWaiting | src/shared/protocol.c:152-173 | a request waits until it is answered or more than three seconds have passed |
| Callbacks.SendNoted | src/shared/protocol.c:152-238 | a request is noted as it was sent, unless its id is taken by one sent three seconds ago at most; what has waited longer goes, and nothing else |
| Callbacks.ReapedExact | src/shared/protocol.c:152-173 | reaping takes exactly what has waited for more than three seconds |
| Callbacks.AnswerReaches | src/shared/protocol.c:251-320 | its answer reaches its callback, unless it turns a notification on or off, and the same answer again reaches nothing |
| Callbacks.NotifyExact | src/shared/protocol.c:251-320 | in every run exactly the notifications are on that an answer with status 0 to a NOTIFY turned on and no such answer to an UNNOTIFY off since, each with its request |
| Callbacks.ChangeDelivered | src/shared/protocol.c:251-278 | in every run a change runs the callback of the notification that is on under its message id, with the change's list, and without one nothing |
| Callbacks.AnswerSound | src/shared/protocol.c:251-320 | an answer keeps tables and log consistent, whichever way it goes |
| Callbacks.IdsDiffer | src/shared/protocol.c:47-50 | two calls get the same message id exactly when they are a multiple of 2^32 apart; so 2^32 calls in a row get different ones |
| Callbacks.NeverTaken | src/shared/protocol.c:175-238 | in every run whose sends have ids of calls of their own, some of which may not have led to a send, an id is taken only by a request whose call is 2^32 calls or more away and which still waits |
| Callbacks.Client.ReapCallbacks | src/shared/protocol.c:152-173 | removes exactly the requests that waited more than three seconds |
| Callbacks.Client.SendMessage | src/shared/protocol.c:175-238 | a request is noted unless its message id is taken; a failed write is reported, but the request waits |
| Callbacks.Client.HandleCallbackResponse | src/shared/protocol.c:251-320 | runs the callbacks and changes the tables as the model's step says |

## Left out

- Sockets, poll, credentials, inotify, signals, systemd activation, dlopen, files and logging. Reads are a list of events that says how much each returns; writes are an output log.
- Allocation failure and `abort()` on it; releasing memory, except for the tiles of the hash map.
- `src/db/gdbm.c`: its library is not part of this model, and its group removal leaves the keys. Groups and integrity are stated for the memory backend.
- `src/shared/iniparser.c`, `src/shared/configurator.c`, the command line, libbuxtonsimple and the demos: input plumbing. `src/shared/buxtonarray.c` is a sequence of at most 65535 values.
- NULL as a hash map argument, `hashmap_ensure_allocated`, backwards iteration and `hashmap_iterate_skip`; the first would add only trivial cases, the others mirror what is modelled.
- TilePools: entries come from `new`; the pool of entry tiles (`first_entry_tile`) is not modelled, so that only map tiles are shown not to be handed out while live.
- Hash functions are arbitrary functions of the comparison class; the bits of `string_hash_func` and `dictionary_hash` play no part.
- Wire.Decode: a parameter whose bytes run past the frame, such as a scalar that declares fewer bytes than its type has, is `Short`; the C parser reads on past it.
- Framing.Connection.HandleResponses: what the C program does after a list is freed twice, or a frame is read beyond its end, is not followed.
- Framing.Connection.HandleClient: a partial frame is dropped at the end of a call, as in the code; what a later call would make of the rest of it is not followed.
- Registry.Compare: where the bytes that decide lie behind what the cache holds, the outcome is `Beyond`; what the C program does from there is not followed. A pointer's own bytes, compared after a change of type, count as such.
- Registry.BuxtonDaemon.NotifyClients: lists are sequences here; `ListIndexes` shows for the maps of linked lists behind them that appending and taking off keep the heads and do what the sequence operations do.
- Registry.NotifyKeyName: a key without a group or name, NULL in the C code, is not followed.
- Requests.ParseList: BUXTON_CONTROL_LIST, which the code always refuses, is among the messages it refuses.
- Callbacks.Client.HandleCallbackResponse: for an accepted UNNOTIFY the client reads the third list element, which the daemon does not send; what stands there is a parameter.
- Callbacks.Client.SendMessage: the mutex and callbacks that send again while they run are not modelled; a send made by a callback is the next event.
- Direct.BuxtonControl.SetLabel: a key without a layer, which a layer string of length zero makes, has the C code look up a NULL name; what happens then is not followed, here and in CreateGroup and RemoveGroup.
- Direct.BuxtonControl.SetValue: keys whose layer does not count its NUL, as a failed look-up without a layer leaves behind, are not followed, here and in UnsetValue, CreateGroup and RemoveGroup; what comes in a message always counts it.
- Direct.FetchBehind: what memory holds behind a copied layer is a parameter; that reading there may itself fail is not modelled.
- Direct: `init_db`, `list_keys`, `open` and `close`, and labels that are the NULL string. A layer's priority is not negative, as `buxton_layer_new` sees to.
- MemoryStore.MemoryBackend.ListNames: stores with records that are no key's record, which `list_names` asserts not to be there, are not followed.
- MemoryStore.MemoryBackend.UnsetGroup: works on the map as an ordered sequence; that the C iteration does what the sequence loop does is `Hashmaps.Hashmap.ForeachRemove`.
- Smack.CacheRules: works on the words of the file; opening it and the limits on the length of a label are left out.
