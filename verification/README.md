# Verified models of the ff library's data structures and codecs

The ff library is a C library of in-memory data structures, codecs and small utilities. This project
models its stateful core in Dafny and proves what the library promises about it. The modules follow
the program's files:

- `TreeShape`, `RedBlackTree`, `RbTree`, `RbList`: the red-black tree with parent pointers, a shared
  sentinel and rings of siblings with the same key. `TreeShape` has the rebalancing on tree values;
  `RedBlackTree` does it on the links of the nodes, in place, each method proved to turn links that
  represent one value into links that represent the next; `RbTree` and `RbList` are the tree objects.
- `Ring`, `ByteRing`: the lock-free ring of pointers as a machine of interleaved atomic steps under
  sequential consistency, with unbounded counters behind its indices, and the byte ring as an object.
- `JsonParser`, `JsonWriter`, `JsonRoundTrip`, `JsonEscapes`: the streaming JSON reader, the writer, the
  proof that the reader undoes the writer, for every way of cutting the text into buffers (sections 2
  and 7 of RFC 8259), and which escapes the reader takes. `Digits` has the decimal integers that this
  rests on.
- `Cache`, `CacheRuns`: tree, list of last use, reference counts, shared keys and limits, in agreement
  after every operation, and the life of an item over whole runs.
- `Calendar`: dates in 32-bit arithmetic against counting day by day (leap years as in Appendix C of
  RFC 3339).
- `Sort`, `HashTab`, `PathNorm`, `Icy`: stable sorting, linear probing, path normalisation, and the
  ICY stream demultiplexer.
- `Modulo` and `Wrappers`: indices that go round, and what several modules share.

Imperative code is modelled imperatively: objects are classes whose fields the methods update, loops
are loops. Each such method is proved against a function on values or states, and the promises are
proved about those functions.

Indices of both rings and of the hash table are masked with a power of two less one in the program
and are remainders in the model; `Modulo.MaskIsRemainder` and `Modulo.WordMask` say that this is the
same. `ff_align_power2`, the size of a cache line and the layout of `fftime` come from the FFOS
headers, which are not part of this model: the first is the least power of two not below its argument,
the second a parameter.

## Findings

What is not as its documentation or its callers would have it, each proved with an input that shows it
and with the exact condition under which the program is right.

- `ffrbtl_move` ("reinsert a node with a new key") does so for list items only. The only item of its
  key loses the new key, because `tree_rm` clears it, and ends under key 0. A tree node with siblings
  hands the new key to the next sibling at the old place: the tree is in order afterwards if and only
  if the new key lies strictly between the neighbouring keys, and then all the siblings have moved
  with it (`RbList.RbListTree.Move`, `RbList.KeyLost`, `RbList.OrderLost`).
- `ffring_write` with several writers may report full on an empty ring (`Ring.FullThoughEmpty`); a
  refusal is truthful if and only if the index is where it was loaded (`Ring.RefusalTruth`).
- A compare-and-set of the pointer ring may succeed after its index has gone a full lap. That does no
  harm in itself (`Ring.LapHarmless`). A writer is right if and only if there still is room at the head,
  else values are lost (`Ring.LapLosesValues`); a reader if and only if the value that it fetched is
  still there and unread, else it returns an old one (`Ring.StaleRead`). This is exact for steps and for
  runs (`Ring.StepExact`, `Ring.RunExact`), and with one writer and one reader always so (`Ring.OneToOne`).
- `ffjson_add` into a buffer that is too small may leave out a whole string and still report success
  (`JsonWriter.StringLeftOut`); all is written if and only if a byte is to spare (`JsonWriter.PutAll`).
- `ffjson_bufadd` takes the length of an entity from an int. A string of 2^32 - 2 characters is not written
  and success is reported (`JsonWriter.SuccessWithoutText`). All is written if and only if the length, in
  32 bits, leads to enough room (`JsonWriter.Writer.BufAdd`): always below 2^31 (`JsonWriter.SmallFits`), and
  in a buffer of up to 12 GiB with no room to spare never from there on (`JsonWriter.OnlySmallFits`).
- `ffs_toint` accepts numbers of 20 digits that wrap: 2^64 + 1 reads as 1 (`Digits.ReadWrong`), its negative
  as -1 (`Digits.ReadWrongSigned`); a number is read right if and only if its digits are below 2^63
  (`Digits.ReadOfDigits`). -2^63 is written but not read (`Digits.ReadOfText`).
- `ffchar_tohex` takes '@' and '`' for the digit 9, and nothing else that is no hex digit
  (`JsonEscapes.HexTaken`, `JsonEscapes.AtSignForNine`).
- The JSON reader accepts other escapes between the halves of a UTF-16 pair (`JsonEscapes.HalvesApart`).
  What it accepts is UTF-16 if and only if each high surrogate is directly followed by a low one
  (`JsonEscapes.AcceptedExact`, `JsonEscapes.ReadString16`).
- `fftime_split2` gives the wrong year for every day count past 10737418 - 306, where `days * 400` no longer
  fits in 32 bits (`Calendar.Split2`).
- `fftime_norm` leaves nanoseconds out of range as they are: what it makes of a date and time that does
  not pass is valid if and only if they were in range (`Calendar.Normalize`).
- `ffpath_norm` stores "." past the end of its buffer if and only if the capacity is 0 and the path is
  relative and has only "." and empty parts (`PathNorm.RoomForDot`, `PathNorm.DotOverruns`).
- `ffhst_find_el` does not end in a full table without a match (`HashTab.SearchNeverEnds`), and does in any
  other (`HashTab.Table.Find`); a table never gets full if no more items are put in than it was made for.
- `ffhst_ins` is documented to return the number of items in the same slot. It returns the number of slots
  it looked at (`HashTab.ProbesNotItems`), which is the same if and only if every slot that was passed holds
  an item of the same home slot (`HashTab.ProbesAndItems`).
- `rm_unused_mem` (FF/ffcache.c:505-513) reads the next link of an item after it has unlinked and freed it, if
  and only if the first item it releases does not make enough room (`Cache.WalkExact`). The method of the
  model takes the next item first.

## Model

| member | source | states |
|---|---|---|
| TreeShape.HeightBound | FF/ffrbtree.c:42-55 | A red-black tree of n nodes has height h with 2^h <= (n + 1)^2, which bounds the steps of a search. |
| TreeShape.SearchCorrect | FF/ffrbtree.c:42-55 | In a sorted tree the search ends at a node with the key if and only if some entry has it. |
| TreeShape.SearchHeld | FF/ffrbtree.c:42-55 | Whatever the order of the keys, a node that a search returns is in the tree and has the key. |
| TreeShape.DescendSplits | FF/ffrbtree.c:74-101 | The descent of an insertion ends where all earlier entries have at most the new key and all later ones a greater key. |
| TreeShape.PathDescend | FF/ffrbtree.c:194-203 | A descent started at any node that the search passes ends at the same place as one started at the root. |
| TreeShape.InsertStepInOrder | FF/ffrbtree.c:205-244 | One round of the insertion fix-up (recolouring, one or two rotations) moves no entry of the in-order sequence. |
| TreeShape.InsertStepRedBlack | FF/ffrbtree.c:205-244 | After one round the subtree obeys the rules, black heights are kept, and at most the pair of a red grandparent and its parent remains to be mended. |
| TreeShape.InsertFixupCorrect | FF/ffrbtree.c:205-247 | The whole fix-up restores the red-black rules with a black root and leaves the in-order sequence as it was. |
| TreeShape.InsertAnywhere | FF/ffrbtree.c:190-248 | Insertion into a red-black tree, sorted or not, keeps the rules and adds exactly one entry to the in-order sequence, at the place of the descent. |
| TreeShape.InsertCorrect | FF/ffrbtree.c:190-248 | Insertion into a red-black search tree keeps the rules; the in-order sequence becomes that of sorted insertion after all equal keys. |
| TreeShape.UnlinkInOrder | FF/ffrbtree.c:104-145 | Cutting out a node, by child or by successor, removes exactly its entry from the in-order sequence. |
| TreeShape.UnlinkRedBlack | FF/ffrbtree.c:259-272 | After the cut only one black node can be missing, on the paths through the place that was cut; if a red node was lost nothing is wrong. |
| TreeShape.BlackSiblingStep | FF/ffrbtree.c:275-338 | One round with a black sibling either mends the tree or leaves the missing black one level higher; heights and colours are stated for both. |
| TreeShape.RemoveStep | FF/ffrbtree.c:275-338 | One round of the removal fix-up, with a red or a black sibling: mended, or the missing black is at a red node or one level higher, so the loop ends. |
| TreeShape.RemoveFixup | FF/ffrbtree.c:275-338 | The removal fix-up terminates and yields a red-black tree with a black root. |
| TreeShape.RemoveStepInOrder | FF/ffrbtree.c:275-338 | No round of the removal fix-up moves an entry. |
| TreeShape.RemoveFixupInOrder | FF/ffrbtree.c:275-338 | The whole removal fix-up leaves the in-order sequence as it was. |
| TreeShape.RemoveAtInOrder | FF/ffrbtree.c:250-340 | Removal takes exactly the entry of the given node out of the in-order sequence and keeps the others in place. |
| TreeShape.RemoveCorrect | FF/ffrbtree.c:250-340 | Removal keeps the red-black rules and a black root, removes exactly the given node, and keeps the sequence sorted if it was. |
| TreeShape.ReplaceCorrect | FF/ffrbtree.c:414-428 | Putting a sibling in the place of a tree node keeps the rules and changes just the node of that one entry. |
| TreeShape.RekeyCorrect | FF/rbtree.h:173-177 | A key written to a node that is in a tree changes its entry alone; colours and heights are as before. |
| TreeShape.MinFirst | FF/rbtree.h:39-44 | The leftmost node is the first of the in-order sequence. |
| RedBlackTree.RelinkParent | FF/ffrbtree.c:30-40 | The parent (or the root) points to the new node instead of the old one, on the same side, and the new node points back. |
| RedBlackTree.LeftRotate | FF/ffrbtree.c:148-161 | On the links: child, parent and root links afterwards represent the rotated tree in the same surroundings. |
| RedBlackTree.RightRotate | FF/ffrbtree.c:163-176 | The mirror image: the links afterwards represent the right-rotated tree in the same surroundings. |
| RedBlackTree.RotatedLeft | FF/ffrbtree.c:148-161 | Whatever heap differs only in the links that a left rotation writes represents the rotated tree. |
| RedBlackTree.RotatedRight | FF/ffrbtree.c:163-176 | The same for a right rotation. |
| RedBlackTree.TreeInsert | FF/ffrbtree.c:74-101 | The links after the descent and the attachment represent the tree with the new node at the place of the descent. |
| RedBlackTree.PushRedUp | FF/ffrbtree.c:239-243 | Recolouring under a red uncle represents one step of the fix-up. |
| RedBlackTree.InsertRound | FF/ffrbtree.c:205-244 | One round of the loop turns links that represent a tree into links that represent the tree after the step, and says whether the loop is over. |
| RedBlackTree.FixupInsert | FF/ffrbtree.c:205-247 | The in-place loop ends with links that represent the fixed-up tree. |
| RedBlackTree.Min | FF/rbtree.h:39-44 | The pointer loop returns the minimum of the subtree. |
| RedBlackTree.TreeRm | FF/ffrbtree.c:104-145 | The links afterwards represent the tree without the node; x is the child at the cut, x->parent is right even when x is the sentinel, and the removed node is cleared, its key too. |
| RedBlackTree.RmTwoChildren | FF/ffrbtree.c:119-137 | The successor takes the place of a node with two children, whether or not it is its right child. |
| RedBlackTree.UnlinkNode | FF/ffrbtree.c:259-272 | tree_rm together with the exchange of colours represents the cut tree and reports the colour that was lost. |
| RedBlackTree.RemoveRound | FF/ffrbtree.c:275-335 | One round of the in-place loop refines one step of the removal fix-up, in all its cases and both mirror images. |
| RedBlackTree.FixupRemove | FF/ffrbtree.c:275-340 | The in-place loop ends with links that represent the mended tree and the sentinel black. |
| RedBlackTree.MendLinks | FF/ffrbtree.c:262-340 | Fix-up if a black node was lost, recolouring otherwise: the links represent the mended tree. |
| RedBlackTree.PromoteNode | FF/ffrbtree.c:414-428 | The next sibling gets the colour, key, parent and children of the tree node it replaces. |
| RedBlackTree.RekeyRepresents | FF/rbtree.h:173-177 | After a key is written the links represent the tree with that key. |
| RbTree.InsertResult | FF/ffrbtree.c:190-248 | The tree value after an insertion: rules, in-order sequence, set of nodes and size. |
| RbTree.RemoveResult | FF/ffrbtree.c:250-340 | The tree value after a removal: rules, in-order sequence, set of nodes and size. |
| RbTree.RbTree.constructor | FF/rbtree.h:83-88 | An empty tree is valid. |
| RbTree.RbTree.Insert | FF/ffrbtree.c:190-248 | In place: the tree stays a red-black tree with matching parent links; one entry joins at the place of the descent, which in a sorted tree is sorted insertion after equal keys; the start may be the root or any node on the search path. |
| RbTree.RbTree.Rm | FF/ffrbtree.c:250-340 | In place, with tree_rm at 104-145: exactly the given node leaves, every other keeps its place, the rules and parent links hold, len drops by one, the removed node has null links and key 0. |
| RbTree.RbTree.Find | FF/ffrbtree.c:42-55 | Found if and only if an entry has the key (sorted tree); otherwise the leaf returned is the place where an insertion from the root attaches; the number of steps k satisfies 2^k <= (n + 1)^2. |
| RbTree.RbTree.Successor | FF/ffrbtree.c:57-72 | Returns the next node of the in-order sequence, or the sentinel after the last. |
| RbTree.RbTree.FirstNode | FF/rbtree.h:58-63 | The start of the walk: the first node in order, or the sentinel. |
| RbTree.RbTree.RmFirst | FF/ffrbtree.c:345-350 | One round of the walk that frees: the successor is found before the node is removed and is the next first node although the tree was rebalanced. |
| RbTree.RbTree.FreeAll | FF/ffrbtree.c:342-352 | The callback gets every node of the in-order sequence once, in that order; the tree is empty and len is 0 at the end. |
| RbTree.RbTree.Promote | FF/ffrbtree.c:414-428 | A sibling takes the place of a tree node: a red-black tree with one entry renamed; the old node is detached. |
| RbTree.RbTree.WriteKey | FF/rbtree.h:173-177 | What a caller does before ffrbtl_move: the tree is as before but for the key of one entry. |
| RbList.RingAppend | FF/chain.h:52-57 | The links written by ffchain_append form the ring with the item behind the first one. |
| RbList.RingUnlink | FF/chain.h:66-71 | The links written by ffchain_unlink form the ring without the item, also when two items are left. |
| RbList.ChainAppend | FF/chain.h:52-57 | The four links after an append. |
| RbList.ChainUnlink | FF/chain.h:66-71 | The links of both neighbours after an unlink, also when they are the same item; the item has null links. |
| RbList.TotalHome | FF/ffrbtree.c:374-432 | Tree nodes plus siblings are all the items: the sum of the ring sizes is the number of items, which is len. |
| RbList.DropOne | FF/ffrbtree.c:396-432 | Whether the item is a tree node with siblings or a list item: tree, rings and contents agree afterwards. |
| RbList.RbListTree.constructor | FF/rbtree.h:83-88 | An empty tree with sibling rings is valid. |
| RbList.RbListTree.Insert | FF/ffrbtree.c:374-387 | One tree node per key: a new key gets a tree node, a further item goes behind the first of its ring; len, rings, NULL parents of siblings and the red-black rules hold; an order that was lost before is not repaired. |
| RbList.RbListTree.Rm | FF/ffrbtree.c:396-432 | Removes exactly the item; a tree node with siblings is replaced by the next one; the rules, rings and len hold; the key of the removed item is 0 if and only if it was the only one of its key (or was 0). Also from the state in which the caller has written a new key, where the next item takes over that key at the old place. |
| RbList.RbListTree.RmLast | FF/ffrbtree.c:403-407 | The only item of its key: it leaves the tree and its key is cleared. |
| RbList.RbListTree.RmChained | FF/ffrbtree.c:409-431 | An item with siblings: it leaves the ring, and the tree too if it was the tree node. |
| RbList.RbListTree.WriteKey | FF/rbtree.h:173-177 | The write of k->key before a move: what is left of the invariant, for every key and every item. |
| RbList.RbListTree.Move | FF/rbtree.h:173-177 | After the caller has written the key: a list item moves to the new key; the only item of its key ends under key 0; a tree node with siblings leaves the tree in order if and only if the new key lies strictly between the neighbouring keys, and then its siblings have changed their key with it. The red-black rules and the links hold in every case. |
| RbList.BetweenKeeps | FF/ffrbtree.c:416-418 | A key written into a sequence in order leaves it in order if and only if it lies strictly between its neighbours. |
| RbList.PassedOrder | FF/ffrbtree.c:414-428 | After next->key = k->key: in order if and only if the key is between the neighbours, and then the contents with all siblings under the new key agree with tree and rings. |
| RbList.KeyLost | FF/rbtree.h:173-177 | A run from an empty tree: insert, write any new key, move; the key is 0 afterwards. |
| RbList.OrderLost | FF/rbtree.h:173-177 | A run from an empty tree with keys 1, 1, 2: the first item gets key 3 and is moved; the tree is out of order. |
| RbList.FreeOrderAll | FF/ffrbtree.c:434-455 | The order of the visit has every tree node and sibling exactly once, by ascending key. |
| RbList.RbListTree.FreeSiblings | FF/ffrbtree.c:442-448 | The inner loop visits the items of the ring behind the tree node, once each, and takes them off len. |
| RbList.RbListTree.FreeAll | FF/ffrbtree.c:434-455 | The callback gets every tree node and sibling exactly once, by ascending key; the tree is empty and len is 0 at the end. |
| Modulo.MaskIsRemainder | FF/number.h:21-28 | For a power of two, masking with cap - 1 is the remainder. |
| Modulo.WordMask | FF/ring.h:112-127 | Masking a difference that wrapped in an unsigned word is the remainder of the difference itself. |
| Modulo.PowerTest | FF/ring.h:83-85 | The assertion of ffringbuf_init (cap & (cap - 1)) == 0 holds of cap > 0 exactly for powers of two. |
| Modulo.Next | FF/number.h:21-24 | ffint_increset2: below the capacity, and for a power of two the masked successor. |
| Ring.RoomTest | FF/ffring.c:30-32 | The masked comparison with r says full exactly when the unbounded counters are cap - 1 apart. |
| Ring.StepKeeps | FF/ffring.c:24-72 | Every atomic step of every thread, as long as no compare-and-set succeeds on what is no longer so, keeps the invariant on the unbounded counters: read <= tail <= head < read + cap, one owner per reserved place, stored values not overwritten. |
| Ring.StepRefines | FF/ffring.c:24-72 | Under that condition every step is a step of one bounded queue: a publication appends in the order of reservation, a read takes the first unread value, everything else leaves the queue alone. |
| Ring.StepExact | FF/ffring.c:29-70 | Exactly when a step is right: a successful compare-and-set of a writer if and only if there still is room at the head, that of a reader if and only if the index still has an unread value and the slot still holds what was fetched. A writer that succeeds otherwise makes a ring with cap - 1 places taken look empty. |
| Ring.NoLapFresh | FF/ffring.c:29-70 | An index that has not gone all the way round since it was loaded meets that condition. |
| Ring.RefusalTruth | FF/ffring.c:31-32 | A write that reports full is right if and only if the head is where it loaded it (less than a lap later: has not moved since); likewise a read that reports empty. |
| Ring.OneWriter | FF/ffring.c:35-39 | Two threads never hold the same reserved slot. |
| Ring.RunConserves | FF/ffring.c:24-72 | Over every run without such a stale success, in every interleaving: what was unread followed by what is written equals what is returned followed by what is left. |
| Ring.RunExact | FF/ffring.c:24-72 | A run is right at every step if and only if no compare-and-set in it succeeds on what is no longer so. |
| Ring.NeverLapsFresh | FF/ffring.c:24-72 | A run without a full lap inside one attempt is one of those. |
| Ring.ManyToMany | FF/ffring.c:24-72 | Any number of writers and readers from an empty ring, every interleaving without a stale success: reads return the first of the written values, in the order of reservation, each once; fewer than cap are unread. |
| Ring.ManyToManyNoLaps | FF/ffring.c:24-72 | The same for every interleaving without a full lap inside one attempt. |
| Ring.SoloStep | FF/ffring.c:24-72 | With one writing and one reading thread no attempt is ever lapped, and refusals are truthful. |
| Ring.SoloRefines | FF/ffring.c:24-72 | Every run with one writer and one reader is a legal run of a queue of cap - 1 values, refusals included, from any state of the invariant. |
| Ring.OneToOne | FF/ffring.c:24-72 | The same from an empty ring, with no assumption about laps. |
| Ring.UndisturbedWrite | FF/ffring.c:24-51 | The exact steps and resulting state of a write that nobody disturbs: it does succeed. |
| Ring.UndisturbedRead | FF/ffring.c:53-72 | The exact steps and resulting state of a read that nobody disturbs. |
| Ring.WriteThenRead | FF/ffring.c:24-72 | A value written to an empty ring by one thread is what another thread reads. |
| Ring.FullThoughEmpty | FF/ffring.c:27-32 | A run of three threads in which a write reports full on an empty ring, because its head is stale. |
| Ring.LapLosesValues | FF/ffring.c:35-39 | A run with capacity 2 in which the head goes round between a load and its compare-and-set, there is no room by then, and two written values are never read. |
| Ring.LapHarmless | FF/ffring.c:35-39 | The same lap with the values read in time: the assumption about laps is broken, the condition holds, and nothing is lost. |
| Ring.StaleRead | FF/ffring.c:58-70 | A reader that sleeps through a lap returns the value it fetched before; the run is right if and only if the slot holds an equal value again. |
| ByteRing.StoredWindow | FF/ffring.c:75-103 | For any wrap position: bytes stored behind the used ones, with any number dropped from the front, are the old contents followed by the new bytes. |
| ByteRing.WindowSplit | FF/ffring.c:113-128 | A sequential read takes the front of the contents and leaves the rest. |
| ByteRing.OverwriteResult | FF/ffring.c:91-104 | The arithmetic of an overwrite keeps the last cap - 1 bytes of the old contents followed by the data. |
| ByteRing.FullIff | FF/ring.h:100-104 | The masked test says full exactly when cap - 1 bytes are used. |
| ByteRing.Buffer.constructor | FF/ring.h:83-90 | A new ring is empty. |
| ByteRing.Buffer.Reset | FF/ring.h:92-95 | A reset empties the ring. |
| ByteRing.Buffer.Contents | FF/ring.h:112-115 | The unread bytes as a queue: never more than cap - 1. |
| ByteRing.Buffer.CanRead | FF/ring.h:112-115 | The number of unread bytes leads from r to w. |
| ByteRing.Buffer.CanWrite | FF/ring.h:124-127 | Free space is cap - 1 less what is used. |
| ByteRing.Buffer.Full | FF/ring.h:100-104 | Full means cap - 1 bytes used. |
| ByteRing.Buffer.Empty | FF/ring.h:106-109 | Empty means no bytes used. |
| ByteRing.Buffer.WriteSeq | FF/ffring.c:75-81 | Appends the first bytes, as many as fit without wrapping, and says how many. |
| ByteRing.Buffer.Write | FF/ffring.c:83-89 | Appends exactly min(len, free) bytes to the queue, for any wrap position. |
| ByteRing.Buffer.Overwrite | FF/ffring.c:91-104 | Leaves the last min(cap - 1, used + len) bytes of the old contents followed by the data. |
| ByteRing.Buffer.ReadSeq | FF/ffring.c:113-120 | Takes bytes from the front, as many as lie without wrapping. |
| ByteRing.Buffer.Read | FF/ffring.c:122-128 | Takes exactly min(len, used) bytes from the front and leaves the rest. |
| Calendar.DateAtCounts | FF/time.h:10-17 | Day-by-day counting from 1 January of year 1 gives a valid date with that day number, its day of the year and of the week. |
| Calendar.OneDate | FF/time.h:10-17 | Two valid dates with the same day number are the same date. |
| Calendar.AbsDaysCounts | FF/time.h:14-15 | The closed form fftime_absdays counts the days of all earlier years, leap years included. |
| Calendar.MonDaysCounts | FF/fftime.c:10-11 | The closed form mon_ydays counts the days of the months from March on. |
| Calendar.MonthOfDay | FF/fftime.c:13-14 | The closed form yday_mon gives the month that has the day. |
| Calendar.Estimate | FF/fftime.c:206-212 | The estimate 1 + days*400/146097 is the year or the one after it: one correction suffices. |
| Calendar.SplitYear | FF/fftime.c:206-212 | In 32-bit unsigned arithmetic: the year and its day up to day 10737418, with at most one correction. |
| Calendar.SplitMonth | FF/fftime.c:214-229 | The date from the year that begins in March and its day, January and February moved to the next year. |
| Calendar.Split2 | FF/fftime.c:190-235 | Equals the day-by-day calendar (year, month, day, day of year, day of week) and the clock if and only if days + 306 <= 10737418: for every later time the year is wrong. |
| Calendar.TooFar | FF/fftime.c:206-207 | Beyond that day the true year is past anything the estimate can give, however the product wraps. |
| Calendar.MonthNorm | FF/fftime.c:237-245 | Months past December go to later years. |
| Calendar.JoinDate | FF/fftime.c:266-275 | The 32-bit day count for all field values: months out of range normalised, January and February counted from the March before, month 0 of year 1 the December before the first day. |
| Calendar.Join2 | FF/fftime.c:247-286 | The seconds of a date and time for all field values, with every 32-bit wrap, and both early returns. |
| Calendar.CheckDateMeans | FF/fftime.c:38-43 | The date test accepts exactly the dates of the calendar, in every year but year 0; for positive years these are the valid dates. |
| Calendar.SplitThenJoin | FF/fftime.c:190-286 | The calendar date and clock of any time at or after the first day give back its seconds. |
| Calendar.JoinThenSplit | FF/fftime.c:190-286 | The time of any valid date and time gives it back, with its day of the year and of the week. |
| Calendar.SplitAndJoin | FF/fftime.c:190-286 | fftime_join2 after fftime_split2 is the identity on all times with days + 306 <= 10737418. |
| Calendar.JoinAndSplit | FF/fftime.c:190-286 | fftime_split2 after fftime_join2 gives back every valid date and time in that range, with its day of the year and of the week. |
| Calendar.CheckMeans | FF/fftime.c:26-43 | For positive years the check accepts exactly the valid dates and times. |
| Calendar.Normalize | FF/fftime.c:60-73 | fftime_norm keeps what passes the check; any other becomes the date and time of the instant it stands for, with all that wraps, or a date with a wrong year if that is past the last day; the result is valid if and only if the nanoseconds were in range (or the year was not positive). |
| Sort.SortSorts | FF/ffnumber.c:215-245 | The reference sort is sorted and a permutation. |
| Sort.SortStable | FF/ffnumber.c:215-245 | The reference sort keeps the order of elements that compare equal. |
| Sort.OneStableSort | FF/ffnumber.c:215-245 | There is only one stable sort: two sorted sequences with the same elements in each class are equal. |
| Sort.MergePermutes | FF/ffnumber.c:150-213 | A merge is a permutation of both halves. |
| Sort.MergeSorted | FF/ffnumber.c:150-213 | The merge of two sorted halves is sorted. |
| Sort.MergeClass | FF/ffnumber.c:150-213 | A merge puts equal elements of the left half before those of the right. |
| Sort.MergeSorts | FF/ffnumber.c:150-213 | Merging the stable sorts of two halves is the stable sort of the whole. |
| Sort.InsertionSort | FF/ffnumber.c:89-127 | In place: the range becomes its stable sort and the rest of the array is unchanged. |
| Sort.MergeLoop | FF/ffnumber.c:168-212 | The merge into the shared temporary buffer, up to the end of one half. |
| Sort.MergeHalves | FF/ffnumber.c:166-220 | Left tail to the temporary buffer, all but the right tail back: the range becomes the merge of its halves, the rest is unchanged. |
| Sort.MergeSort | FF/ffnumber.c:150-221 | In place, with the switch to insertion sort at any size: the range becomes its stable sort and the rest is unchanged. |
| Sort.Sort | FF/ffnumber.c:227-245 | The array becomes the stable sort of what it was, for every total preorder and every length. |
| HashTab.ProbeReaches | FF/ffhashtab.c:29-32 | The probes of any hash reach every slot. |
| HashTab.ProbesDiffer | FF/ffhashtab.c:29-32 | Fewer probes than slots never meet a slot twice. |
| HashTab.PlaceOne | FF/ffhashtab.c:61-92 | Putting an item at the first free probe keeps every slot between each home slot and its item occupied. |
| HashTab.SearchFound | FF/ffhashtab.c:99-116 | The first probe that matches holds the first entry, in order of insertion, with this hash and an equal key. |
| HashTab.SearchMissed | FF/ffhashtab.c:99-116 | A search that meets a free slot has no match in the table. |
| HashTab.SearchNeverEnds | FF/ffhashtab.c:99-116 | In a full table without a match every probe is passed: the search does not end. |
| HashTab.NoMore | FF/ffhashtab.c:61-70 | There are never more entries than slots. |
| HashTab.AlignPower2 | FF/ffhashtab.c:36-39 | The number of slots is a power of two, at least and less than twice what was asked for. |
| HashTab.Table.constructor | FF/ffhashtab.c:34-52 | A new table is empty, its size a power of two greater than the number of items asked for. |
| HashTab.Table.Insert | FF/ffhashtab.c:61-92 | Fails if and only if no slot is free, and then changes nothing; else the entry is added at its first free probe and the number of probes is returned. |
| HashTab.Table.Find | FF/ffhashtab.c:99-116 | While a slot is free or there is a match: ends with the first match in order of insertion, or with none if there is none. |
| HashTab.ProbesAndItems | FF/ffhashtab.c:71-91 | What ffhst_ins returns is at least the number of items with the same home slot, and equal to it if and only if every slot that was passed holds one of them. |
| HashTab.ProbesNotItems | FF/ffhashtab.c:61-92 | A run from an empty table: the only item of its home slot, and 2 is returned. |
| PathNorm.WalkNormal | FF/ffpath.c:32-112 | What the pass keeps is normal: no "." or empty parts, ".." only at the front of a relative path, none at the root. |
| PathNorm.NormIdempotent | FF/path.h:50-54 | Normalising twice is normalising once. |
| PathNorm.NormMeans | FF/ffpath.c:32-112 | From any directory the normal form leads to the same place as the path. |
| PathNorm.NormShort | FF/ffpath.c:100-112 | A buffer as long as the path always suffices, and the result is not longer than the path. |
| PathNorm.RoomForDot | FF/ffpath.c:114-115 | The "." for an empty outcome is stored past the end of the buffer if and only if the capacity is 0 and the path is relative and has only "." and empty parts. |
| PathNorm.DotOverruns | FF/ffpath.c:114-115 | The path "." with capacity 0 is such a call. |
| PathNorm.PopText | FF/ffpath.c:67-80 | The search backwards for a slash finds the end of the output without its last part. |
| PathNorm.Pop | FF/ffpath.c:67-80 | The output without its last part. |
| PathNorm.PushPart | FF/ffpath.c:100-111 | A part is kept with its slash if it fits, also when the output overlaps the path; else the walk over the parts does not fit. |
| PathNorm.Normalize | FF/ffpath.c:9-118 | In place or into another buffer: exactly the normal form if every name is good and it fits on the way, else 0; never more than len bytes, and never past the capacity in the calls that RoomForDot allows. |
| Icy.TakeRight | FF/audio/fficy.c:19-67 | One call takes from the front of the stream what it emits and leaves a state from which the rest is as before. |
| Icy.FeedRight | FF/audio/fficy.c:19-67 | The calls for one buffer together do the same. |
| Icy.FromStart | FF/audio/fficy.c:19-67 | From the start the state machine yields the stream with its metadata blocks taken out. |
| Icy.AnyBuffers | FF/audio/fficy.c:19-67 | However the stream is cut into buffers: the data is the stream without the metadata blocks, and the metadata values are the blocks of nmeta * 16 bytes in order. |
| Icy.Parser.constructor | FF/audio/icy.h:54-58 | The parser starts at the beginning of the stream. |
| Icy.Parser.Parse | FF/audio/fficy.c:19-67 | One call of the program, with its gather buffer never exceeded, is one call of the state machine. |
| Icy.Parser.GatherMeta | FF/audio/fficy.c:38-57 | Metadata that comes in pieces is put together in the gather buffer, or pointed to if it lies in one buffer. |
| Icy.Parser.Read | FF/audio/fficy.c:19-67 | A loop of calls over one buffer delivers what the state machine does. |
| Digits.FromDecimal | FF/ffstring.c:916-933 | The digits written backwards are the decimal text of the number. |
| Digits.FromInt | FF/ffstring.c:954-1018 | The text of every signed 64-bit number, the smallest included. |
| Digits.ToInt | FF/ffstring.c:819-914 | Accepts, consumes and returns what the reference reader does, with the 64-bit wrap-around. |
| Digits.ReadOfText | FF/ffstring.c:819-1018 | The text of i reads back as i if and only if i > -2^63; the text of -2^63 is refused. |
| Digits.ReadOfDigits | FF/ffstring.c:851-883 | A number that is accepted, with or without a sign, is read right if and only if its digits are below 2^63. |
| Digits.ReadWrong | FF/ffstring.c:851-859 | 2^64 + 1 is accepted and read as 1. |
| Digits.ReadWrongSigned | FF/ffstring.c:834-886 | -(2^64 + 1) is accepted and read as -1. |
| Digits.TextLength | FF/data/ffjson.c:876-882 | The text of a signed 64-bit number has at most 20 characters. |
| JsonParser.StepKeeps | FF/data/ffjson.c:358-570 | Every character keeps the invariant of the push-down machine, in every state. |
| JsonParser.RunInv | FF/data/ffjson.c:358-570 | So does every input that has no error. |
| JsonParser.RunAppend | FF/data/ffjson.c:358-570 | Running two pieces one after the other gives the events, values and error of running them together. |
| JsonParser.ParseRight | FF/data/ffjson.c:358-570 | One call, which stops at an event, an error or the end of the data, is the front of the whole run. |
| JsonParser.FeedRight | FF/data/ffjson.c:358-570 | Calling again with the unconsumed bytes until the buffer is used up is the whole run over the buffer. |
| JsonParser.AnyBuffers | FF/data/ffjson.c:141-158 | However the input is cut into buffers, inside escapes, numbers, words and comments too, events, values and error are those of one buffer. |
| JsonParser.Reader.constructor | FF/data/ffjson.c:110-115 | The parser starts before the first character. |
| JsonParser.Reader.HdlValBare | FF/data/ffjson.c:190-211 | true, false and null are matched letter by letter. |
| JsonParser.Reader.HdlValBareNum | FF/data/ffjson.c:213-239 | A bare value ends at the first character that no number has, and is an integer, another number or an error. |
| JsonParser.Reader.HdlQuote | FF/data/ffjson.c:241-277 | The end of a string, the start of an escape, a character kept; an error for a line feed, and for anything but an escape while a high surrogate waits. |
| JsonParser.Reader.HdlEsc | FF/data/ffjson.c:279-320 | Escapes are gathered character by character; surrogate pairs become one character. |
| JsonParser.Reader.Comment | FF/data/ffjson.c:322-351 | Both kinds of comments. |
| JsonParser.Reader.Switch | FF/data/ffjson.c:366-560 | One character in any state does what one step of the machine does. |
| JsonParser.Reader.Parse | FF/data/ffjson.c:358-570 | The field-updating character loop returns the code, the number of bytes and the state that the machine does. |
| JsonEscapes.HexTaken | FF/string.h:62-72 | The characters that ffchar_tohex takes are the hex digits and, besides, @ and the grave accent. |
| JsonEscapes.LongEscapeTaken | FF/data/ffjson.c:35-45 | An escape of four characters is taken if and only if each of them is one of those, and is an error otherwise. |
| JsonEscapes.AtSignForNine | FF/data/ffjson.c:35-45 | The escape u00@0 is taken for the character 0x90. |
| JsonEscapes.EndOfString | FF/data/ffjson.c:241-277 | A string may end if and only if no high surrogate waits for its low one. |
| JsonEscapes.ReadUnits | FF/data/ffjson.c:279-320 | Any string of escaped UTF-16 units: gathered unit by unit, other units allowed between the halves of a pair, or an error. |
| JsonEscapes.ReadString16 | FF/data/ffjson.c:241-320 | A whole string of escaped units is read as one value, or is an error, exactly as its units are accepted or not. |
| JsonEscapes.AcceptedExact | FF/data/ffjson.c:279-320 | All UTF-16 is accepted; what is accepted is UTF-16 if and only if each high surrogate is directly followed by a low one. |
| JsonEscapes.HalvesApart | FF/data/ffjson.c:279-320 | A pair with a line feed between its halves is accepted and read as a line feed and the character. |
| JsonWriter.EscapedSize | FF/data/ffjson.c:50-94 | The measuring pass counts exactly the characters of the escaped string. |
| JsonWriter.EscapeInto | FF/data/ffjson.c:50-94 | The writing pass stores the whole escaped string, or nothing if it does not fit. |
| JsonWriter.EscapeLonger | FF/data/ffjson.c:50-94 | The escaped string is at least as long as the string and at most six times as long. |
| JsonWriter.PutShort | FF/data/ffjson.c:787-967 | What is written begins with what was there, never exceeds the capacity and never the full text. |
| JsonWriter.PutAll | FF/data/ffjson.c:787-967 | All of the text is written, and reported as written, if and only if there is a byte to spare. |
| JsonWriter.StringLeftOut | FF/data/ffjson.c:860-873 | A string of six characters into a buffer of four: two quotes are written, the string is left out, and the call succeeds. |
| JsonWriter.MeasureEnough | FF/data/ffjson.c:787-967 | The dry run never understates the text. |
| JsonWriter.Writer.constructor | FF/data/ffjson.c:770-775 | A new writer has written nothing. |
| JsonWriter.Writer.AddPieces | FF/data/ffjson.c:809-955 | Comma, line feed, indentation, entity and colon, each as far as there is room; the length when there is no buffer. |
| JsonWriter.Writer.Add | FF/data/ffjson.c:787-967 | One call: refused, minus the length as a 32-bit int when there is no buffer, written, or buffer full; the flags afterwards in each case. |
| JsonWriter.Writer.BufAdd | FF/data/ffjson.c:997-1018 | Measure, grow, write, with its whole outcome: all the text is appended and success reported if and only if the length, as a 32-bit int, leads to a buffer with room for it. |
| JsonWriter.SmallFits | FF/data/ffjson.c:997-1018 | That is so for every length below 2^31. |
| JsonWriter.OnlySmallFits | FF/data/ffjson.c:997-1018 | And in a buffer of up to 12 GiB without room to spare for no other length. |
| JsonWriter.SuccessWithoutText | FF/data/ffjson.c:958-959 | A string of 2^32 - 2 plain characters: the length wraps to 0, success is reported and nothing is written. |
| JsonWriter.Writer.Reserve | FF/ffarray.c:51-64 | ffarr_grow by at least a quarter, sizes wrapping in 64 bits; the text is kept. |
| JsonRoundTrip.ReadEscaped | FF/data/ffjson.c:21-94 | The reader turns every escaped string back into the string. |
| JsonRoundTrip.ReadString | FF/data/ffjson.c:241-277 | A written string, as a key or a value, is read as one event with the string. |
| JsonRoundTrip.ReadInteger | FF/data/ffjson.c:213-239 | A written integer is gathered as it stands. |
| JsonRoundTrip.ReadWord | FF/data/ffjson.c:190-211 | true, false and null are read as they were meant. |
| JsonRoundTrip.ReadCall | FF/data/ffjson.c:787-967 | The text of one legal call makes the reader report that call and wait for what the writer may write next. |
| JsonRoundTrip.ReadWritten | FF/data/ffjson.c:358-967 | The same for every sequence of legal calls from any state in step. |
| JsonRoundTrip.RoundTrip | FF/data/ffjson.c:358-967 | Every closed document of legal calls, compact or pretty, is read back without error as exactly the events that were written. |
| JsonRoundTrip.RoundTripInBuffers | FF/data/ffjson.c:358-967 | And so it is however the text is cut into buffers. |
| JsonRoundTrip.WriteAll | FF/data/ffjson.c:997-1018 | A legal sequence of ffjson_bufadd calls, none of which measures 2^31 bytes or more, writes that text, and none fails. |
| Cache.UnlinkSound | FF/ffcache.c:519-531 | Taking an item out of the tree and the list keeps all the views in agreement. |
| Cache.FreeSound | FF/ffcache.c:533-544 | Freeing an unlinked item keeps them so: memory is that of the live items and of the keys still referenced. |
| Cache.ReleaseSound | FF/ffcache.c:519-544 | An item is freed at once if nobody refers to it, and only unlinked otherwise; nothing else changes. |
| Cache.RefreshSound | FF/ffcache.c:398-400 | Use or update of an item keeps the views in agreement and the list in order of last use. |
| Cache.StoredSound | FF/ffcache.c:303-346 | So does a new item, with a new key or one that the chain of its hash has. |
| Cache.EvictOneEarliest | FF/ffcache.c:485-499 | What is evicted is the earliest item of the list that nobody refers to; if there is none, nothing changes. |
| Cache.EvictMemRight | FF/ffcache.c:501-517 | Eviction for memory touches only unreferenced items, and fails only if none is left while memory is still short. |
| Cache.EvictMemNeeded | FF/ffcache.c:501-517 | It stops as soon as there is room: before the last eviction there was too little. |
| Cache.WalkExact | FF/ffcache.c:505-513 | The walk as it is written goes through the link of an item it has freed if and only if the first release does not make enough room; otherwise it does what the reference eviction does. |
| Cache.RoomRight | FF/ffcache.c:272-286 | Making room: both limits are met on success, and each failure means that every linked item is referenced. |
| Cache.StoredGood | FF/ffcache.c:303-346 | A store into room keeps the invariant and both limits. |
| Cache.UpdateRoom | FF/ffcache.c:384-390 | Evicting for an update never evicts the item that is updated. |
| Cache.UnrefdGood | FF/ffcache.c:409-431 | Giving up a reference keeps the invariant; the item is freed if and only if that was the last reference and it is unlinked already or by this call. |
| Cache.UnrefdFreed | FF/ffcache.c:409-431 | And then nothing else is freed; otherwise nothing is. |
| Cache.AcquireGood | FF/ffcache.c:227-235 | Acquiring an unreferenced item unlinks it and frees nothing. |
| Cache.ExpiredGood | FF/ffcache.c:434-439 | Expiry keeps the invariant. |
| Cache.NothingLinked | FF/ffcache.c:132-163 | With an empty tree the list is empty and every live item is referenced. |
| Cache.TargetLinked | FF/ffcache.c:183-225 | What a fetch finds is linked. |
| Cache.Cache.constructor | FF/ffcache.c:109-118 | A new cache is empty. |
| Cache.Cache.KeyUnref | FF/ffcache.c:579-587 | The last reference to a key gives back its length and drops it. |
| Cache.Cache.ItemFin | FF/ffcache.c:533-544 | The whole state after item_fin. |
| Cache.Cache.ItemRlz | FF/ffcache.c:519-531 | The whole state after item_rlz. |
| Cache.Cache.RmUnusedOne | FF/ffcache.c:485-499 | The walk over the list is the reference eviction. |
| Cache.Cache.RmUnusedMem | FF/ffcache.c:501-517 | The walk over the list, with the next item taken before the release, is the reference eviction. |
| Cache.Cache.Find | FF/ffcache.c:183-225 | The item by id, the next of its chain, or the first of the hash with an equal key; hits and misses. |
| Cache.Cache.Acquire | FF/ffcache.c:227-235 | Refused if the item is referenced; else it is unlinked with one reference. |
| Cache.Cache.Fetch | FF/ffcache.c:177-254 | Every outcome with its whole state; the invariant and both limits hold. |
| Cache.Cache.Store | FF/ffcache.c:256-354 | Every outcome with its whole state (too long, no room by number or memory, collision, exists, stored); the invariant and both limits hold. |
| Cache.Cache.Update | FF/ffcache.c:356-407 | Every outcome with its whole state; the data changes exactly on success. |
| Cache.Cache.Unref | FF/ffcache.c:409-431 | The whole state after a reference is given up, with and without removal. |
| Cache.Cache.Expire | FF/ffcache.c:434-439 | The whole state after an item expired. |
| Cache.Cache.Reset | FF/ffcache.c:138-163 | Afterwards nothing is linked, and what is live is referenced; nothing that is referenced was freed. |
| CacheRuns.CallKeeps | FF/ffcache.c:177-439 | Every call, whatever its outcome, keeps the invariant and both limits; items stay until they are freed, and nobody refers to those that are freed. |
| CacheRuns.RunGood | FF/ffcache.c:177-439 | So does every run of calls. |
| CacheRuns.OnceFreed | FF/ffcache.c:533-544 | Over every run an item that is there stays until it is freed, and it is freed exactly once. |
| CacheRuns.FreedInTime | FF/ffcache.c:519-544 | The call that frees an item is the one that leaves it neither linked nor referenced, and what is not freed is linked or referenced. |

## Left out

- RbList.RbListTree.Move: keeps the documented promise for list items only; for tree nodes it states what the program does instead, see Findings.
- Ring.ManyToMany: assumes that no compare-and-set succeeds on what is no longer so, and does not say that refusals are truthful, because neither holds in general, see Findings.
- Ring.StepRefines: atomic accesses are sequentially consistent; weaker memory orders and the fence are not modelled.
- Calendar.Split2: times at or after the first day only; right up to day 10737418 - 306, as the program is; no local time zones or date strings.
- PathNorm.Normalize: requires what RoomForDot shows to be needed; the program reads the first byte of an empty path, the model does not.
- HashTab.Table.Find: requires a free slot or a match, because otherwise the program's loop does not end.
- Cache.Cache.Fetch: an item named by its id is linked where the program goes on through its links without a test: for the next item, or to refer to it.
- Cache.Cache.Find: the same, for the next item.
- Cache.Cache.RmUnusedMem: takes the next item before the release, because the program reads it afterwards, see Findings.
- Cache.Cache.Store: allocation never fails.
- Cache.Cache.Update: a null id, which the program refuses with a misuse code here and in `ffcache_unref`, cannot be passed.
- JsonParser.Reader.Parse: line and column counters are not modelled, nor is the value of a number that is not an integer, only whether it is accepted.
- JsonParser.Reader.HdlValBareNum: the exponent of a number with a fraction or an exponent is not bounded, where the program counts it in an int that overflows; acceptance may differ for exponents of ten digits and more.
- JsonWriter.Writer.BufAdd: where C leaves the negation of the smallest int undefined, it stays as it is; a size of 2^63 or more cannot be allocated, any other can.
- JsonRoundTrip.WriteAll: entities that measure less than 2^31 bytes and texts of less than 2^62, see Findings.
- Digits.FromInt: the whole text; where it is cut at the capacity is part of JsonWriter.Writer.AddBody.
- RbList.RbListTree.Insert: a further item of a key has a NULL parent, because nothing clears it.
- JsonRoundTrip.RoundTrip: integers above -2^63 only, because -2^63 is not read back.
- Sort.Sort: elements of 4 and 8 bytes; the branch for other sizes, whose insertion sort always copies element 0, is left out.
- The cache's tree is taken by its contents, a map from hash to chain as `RbList` keeps it, and its list as a sequence: links between cache items are not modelled a second time.
- The cache's timers, its onchange callback, `ffcache_free` and the CRC of keys: timers and callbacks are calls into other code, the hash is a parameter.
- `ffring_write_excl`: with `single` set `_ffring_write` leaves before it moves `whead` and does not follow the protocol.
- `FFJSON_FMORE`, `FFJSON_FNOESC`, `FFJSON_TNUM`, schema-driven parsing and the conversion of floating point.
- Windows paths and the other flags of `ffpath_norm`.
- `ffhst_walk`, printing and debug counters.
- The day-of-year test of `fftime_chk`, which does not cover January and February.
- `ffs_wildcard`, regular expressions, printf-style formatting, charset and CRC tables, small string searches: not needed by any result here.
