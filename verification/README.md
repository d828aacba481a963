# ZToolLib, modelled and proved in Dafny

ZToolLib is a C library of containers, timers, queues, parsers, codecs and thread utilities. This project models the
algorithms at its core, from the state they change in place up to what they promise over whole runs, and proves the
promises for all inputs, all runs and all interleavings.

- **Dictionary** (`Words`, `Cursor`, `DictState`, `Dict`, `DictScan`, `ScanExact`, `DictIter`). Two bucket arrays of
  linked entries, migrated bucket by bucket. The class `Dict` changes links and counts as the code does; a ghost `State`
  says which chains they spell, and the operations are proved against one map from keys to values. On top of that come
  the guarantees of the stateless scan with its reverse-binary cursor, and of the safe iterator. `unsigned long` is 64
  bits wide. The hash function and the equality of keys are parameters, with equal keys hashing alike.
- **Red-black tree** (`RbShape`, `RbHeap`, `RbInsert`, `RbShort`, `RbDelete`, `RbTrees`). Nodes with links both ways and
  a sentinel. A place in the tree is a subtree and the path up from it; every step of the two fixups is a lemma on
  shapes and colours and a method on the links. Users: the multimap (`CMap`) and the timers (`EvTimer`).
- **Lock-free ring** (`LfQueue`, `LfCalls`) and **reader/writer lock** (`RwLock`). Steps of many threads that interleave
  at every access to shared memory, with ghost counters that do not wrap.
- **Thread pool** (`TaskList`, `ThreadPool`, `PoolTasks`). The linked task list in place, and the pool as interleaved
  steps of workers, dispatchers, removers and a releaser.
- **getopt** (`GetOpt`, `GetOptScan`). The exchange of two blocks of `argv` in gcd cycles, and the scan that uses it.
- **JSON** (`JsonText`, `JsonParse`, `JsonParser`, `JsonRoundTrip`, `JsonNesting`, `JsonUnicode`, `JsonGrammar`,
  `JsonSound`, `JsonPrint`, `JsonMinify`). What is printed is a function `Text`, what is parsed a function `Parse`; the
  parser, the printer into a fixed or growing buffer and the minifier are loops over arrays proved against them. Which
  texts are accepted, and with what value, is proved against spellings by the grammar of RFC 8259.
- **Indexed heap** (`IndexedHeap`). Sifting with elements that store their slot.
- **Codecs, digests and checksums** (`AesField`, `AesTable`, `Aes`, `AesExample`, `AesCipher`, `Base64`, `Crypt`,
  `BlockFold`, `Sha1`, `Md5`, `Crc`, `Crc64`). The compression functions of the digests are parameters.

`Arithmetic`, `Bytes`, `Octets`, `Common` and `Counting` hold what several of them share.

Where code and comments disagree, the model follows the code. Results of that kind:

- The ring returns an element twice when a thread is overtaken by a full lap between its read of the index and its
  exchange (`LfQueue.LappedPopRepeats`); `LfQueue.TakesInTurn` says exactly when it does not.
- The comparison of timers with wrap-around is an order exactly for keys within half the range
  (`EvTimer.OrderedExactlyInWindow`).
- A timer is to be left as it is if its new deadline is less than 300 ms away, but the difference is cut to 32 bits
  first: `EvTimer.KeepsOldExactly` and `EvTimer.KeepsOldPending` say exactly when that does no harm, and
  `EvTimer.InfiniteStays` is a case where it does. The delay returned by an expiry is cut to `int`
  (`EvTimer.DelayKept`).
- `ztl_evtimer_min_ms` ignores the time it is given and counts from the last update (`EvTimer.MinMsExactly`).
- The limit of the thread pool is read outside the mutex: with two dispatchers it can be exceeded
  (`ThreadPool.LimitExactly`, `ThreadPool.BoundReached`). A join can succeed before a created worker has begun
  (`ThreadPool.JoinTooEarly`).
- The minifier reads behind the text exactly if a literal or a block comment is left open (`JsonMinify.InsideExactly`).
- `dictResize` cuts the number of entries to an `int` (`Dict.MinimalExactly`).
- Printing into a buffer of the caller needs one byte more than text and NUL (`JsonPrint.PrintPreallocated`).
- The parser takes four characters behind `\u` that are no hexadecimal digits for the code point 0
  (`JsonSound.BrokenHex`); `JsonSound.AcceptsExactly` says exactly what is accepted otherwise.
- Printing has no limit of depth and parsing has one (`JsonNesting.RoundTripExactly`).

## Model

| member | source | states |
|---|---|---|
| DictScan.ScanGuarantee | src/ZToolLib/ztl_dict.c:818-898 | From cursor 0 until dictScan returns 0, whatever adds, deletes, expansions, shrinks and migration steps happen between the calls, a key present at every call has been handed to the callback |
| DictScan.ScanStepCovers | src/ZToolLib/ztl_dict.c:818-898 | The invariant of one call on one or two tables: an entry whose mirrored hash is not below the mirrored cursor is handed out by this call or is still not below the next cursor |
| DictScan.ScanStepAdvances | src/ZToolLib/ztl_dict.c:861-894 | The mirror image of the cursor strictly increases at each call until it wraps to 0 |
| DictScan.ScanEnds | src/ZToolLib/ztl_dict.c:818-898 | A scan that has not come back to 0 has made no more calls than the mirrored cursor counts, which is below 2^64: every scan ends |
| DictScan.Scan | src/ZToolLib/ztl_dict.c:818-898 | The loops over the bucket arrays, with one table or two and the expansion loop in the larger one, hand out exactly the entries of the specification step and return its cursor, which ScanExact.StepEnds and StepExactly pin without naming the step |
| ScanExact.StepEnds | src/ZToolLib/ztl_dict.c:818-898 | With one table and in mid-migration: the mirrored cursor after a call is the end of the block of the smaller table that holds the mirrored cursor, and 0 if that end is 2^64 |
| ScanExact.StepExactly | src/ZToolLib/ztl_dict.c:818-898 | A call that starts at the beginning of such a block hands out exactly the entries whose mirrored hash lies in the block, each once |
| ScanExact.ScanTakes | src/ZToolLib/ztl_dict.c:818-898 | While the dictionary does not change, 0 comes back after exactly as many calls as the smaller table has buckets, one for an empty dictionary |
| ScanExact.ScanHandsOut | src/ZToolLib/ztl_dict.c:818-898 | All these calls together hand out every entry exactly once |
| ScanExact.ScanAll | src/ZToolLib/ztl_dict.c:818-898 | The loop of a caller over the array code, from cursor 0 until 0: that many calls, and every entry once |
| Cursor.RankOfNext | src/ZToolLib/ztl_dict.c:845-852 | Setting the unmasked bits and incrementing the mirror image leads to the start of the next bucket in mirrored order, and to 0 exactly after the last one |
| Cursor.CursorAdvances | src/ZToolLib/ztl_dict.c:845-852 | For every mask the mirrored cursor strictly increases or wraps to 0 |
| Cursor.CursorPasses | src/ZToolLib/ztl_dict.c:845-894 | A hash ahead of the cursor that is in another bucket is not skipped by the next cursor |
| Words.Rev | src/ZToolLib/ztl_dict.c:724-732 | The logarithmic swap loop computes the bit reversal |
| Words.ReverseMirrorsBits | src/ZToolLib/ztl_dict.c:724-732 | Bit i of the reversal is bit 63 - i of the word |
| Words.ReverseTwice | src/ZToolLib/ztl_dict.c:724-732 | Reversing twice gives the word back |
| Dict.Dict.constructor | src/ZToolLib/ztl_dict.c:76-107 | A new dictionary holds nothing, has no iterators and meets the invariant |
| Dict.Dict.Rehash | src/ZToolLib/ztl_dict.c:164-207 | n rounds of migration leave the entries and the abstract map as they are; exactly n full buckets have moved or 10 n empty ones were passed unless the migration is over, and then ht[1] has taken the place of ht[0] |
| Dict.MoveBucket | src/ZToolLib/ztl_dict.c:178-192 | A bucket moves entry by entry to the head of its chains in ht[1]: it ends empty, the other buckets keep their chains and no entry is lost or doubled |
| Dict.NextBucket | src/ZToolLib/ztl_dict.c:174-177 | Finds the next bucket that is not empty, or gives up after the visits allowed; while ht[0] counts an entry the search stays within the table |
| Dict.Dict.RehashStep | src/ZToolLib/ztl_dict.c:236-238 | A step is done only while no safe iterator is at work; the abstract map stays the same either way, and otherwise one bucket moves or ten empty ones are passed unless the migration ends |
| Dict.Dict.Expand | src/ZToolLib/ztl_dict.c:123-153 | Succeeds exactly if no migration is under way, the entries fit and the least power of two differs from the current size; then an empty table of that size stands ready and the map is unchanged |
| Dict.Dict.Resize | src/ZToolLib/ztl_dict.c:111-120 | Succeeds exactly if resizing is allowed, no migration is under way, the number of entries cut to an int is not smaller than it was, and the least size for it differs from the current one |
| Dict.MinimalExactly | src/ZToolLib/ztl_dict.c:111-120 | The size asked for is the number of entries, or four, exactly below 2^31 entries; from there on it is smaller than the number of entries |
| Dict.Dict.ExpandIfNeeded | src/ZToolLib/ztl_dict.c:903-922 | Starts an expansion exactly by the policy of the code: an empty dictionary gets four buckets, a full one twice its entries if resizing is allowed or the load ratio is above five |
| Dict.NextPower | src/ZToolLib/ztl_dict.c:925-935 | For every unsigned long up to 2^63 the result is the least power of two, four at least, that is not below the size; beyond it is 2^63 |
| Dict.Dict.KeyIndex | src/ZToolLib/ztl_dict.c:944-967 | The key is reported present exactly if the map has an equal key; otherwise the index is its bucket in the table that takes new entries |
| Dict.Dict.AddRaw | src/ZToolLib/ztl_dict.c:268-294 | At any stage of migration: a new entry for the key, and the map with it, exactly if no equal key was there; otherwise the map is unchanged and the present entry is returned |
| Dict.Dict.Add | src/ZToolLib/ztl_dict.c:241-248 | The map gains the pair exactly if no equal key was there |
| Dict.Dict.Replace | src/ZToolLib/ztl_dict.c:301-322 | The map gains the pair, or the equal key that is there gets the new value; the result tells which |
| Dict.Dict.Find | src/ZToolLib/ztl_dict.c:452-471 | Finds an entry with an equal key exactly if the map has one, with its value; the map is unchanged |
| Dict.Dict.GenericDelete | src/ZToolLib/ztl_dict.c:340-375 | Unlinks the entry of an equal key and returns it, and the map loses exactly that key; or reports that there is none and changes nothing |
| DictState.MoveHeadKeeps | src/ZToolLib/ztl_dict.c:183-190 | Moving the first entry of a chain to ht[1] keeps the invariant: every entry in the bucket of its hash, keys distinct, buckets below rehashidx empty, used counts exact |
| DictState.GrowKeeps | src/ZToolLib/ztl_dict.c:123-153 | An expansion that starts keeps the invariant |
| DictState.InsertKeeps | src/ZToolLib/ztl_dict.c:268-294 | Linking an entry with an absent key at the head of its chain keeps the invariant |
| DictState.RemoveKeeps | src/ZToolLib/ztl_dict.c:340-375 | Unlinking an entry from wherever it is keeps the invariant |
| DictState.FinishKeeps | src/ZToolLib/ztl_dict.c:197-203 | Putting ht[1] in the place of the emptied ht[0] keeps the invariant |
| DictIter.ExactlyOnce | src/ZToolLib/ztl_dict.c:518-573 | While a safe iterator is at work between its first step and its end, with adds, finds, an expansion that starts and deletion of the entry just returned in between, every entry present throughout is returned exactly once |
| DictIter.SafeIterator.Next | src/ZToolLib/ztl_dict.c:538-573 | The loop of dictNext does one step of the specified iteration, saves the next link before it hands out an entry and counts the iterator once, at its first step |
| DictIter.SafeIterator.Release | src/ZToolLib/ztl_dict.c:575-584 | The count of iterators goes back exactly if the iterator had begun, and the dictionary stays valid |
| DictIter.ChangeKeepsAhead | src/ZToolLib/ztl_dict.c:236-238 | No change allowed between two steps moves an entry across the position of the iterator |
| GetOpt.PermuteArgs | src/ZToolLib/ztl_win32_getopt.c:161-190 | The nested loops of swaps exchange the two adjacent blocks, keep the order inside each and leave the rest of argv as it is |
| GetOpt.EuclidIsGcd | src/ZToolLib/ztl_win32_getopt.c:141-153 | The result of the loop divides both numbers and is a linear combination of them |
| GetOpt.Gcd | src/ZToolLib/ztl_win32_getopt.c:141-153 | The loop computes the greatest common divisor |
| GetOpt.Distinct | src/ZToolLib/ztl_win32_getopt.c:175-189 | A cycle meets no position twice within (a + b) / gcd(a, b) steps |
| GetOpt.Returns | src/ZToolLib/ztl_win32_getopt.c:175-189 | After that many steps a cycle is back at its start |
| GetOpt.Reaches | src/ZToolLib/ztl_win32_getopt.c:175-189 | Every position with the residue of the start modulo the gcd lies on the cycle, so the cycles together visit each position once |
| GetOpt.AllMoved | src/ZToolLib/ztl_win32_getopt.c:161-190 | Once the cycles of all residues are done every element is where the exchange puts it |
| GetOptScan.ParseAll | src/ZToolLib/ztl_win32_getopt.c:352-435 | Calling the scan until it returns -1 reports the options in order and leaves argv partitioned, options first and operands behind in their order, with optind at the first operand |
| GetOptScan.Parser.Next | src/ZToolLib/ztl_win32_getopt.c:362-435 | One call reports the next option with its arguments consumed, or -1 with argv partitioned; in between, nonopt_start and nonopt_end delimit the operands passed over |
| GetOptScan.Parser.SkipOperands | src/ZToolLib/ztl_win32_getopt.c:384-412 | Passing over operands, with a permutation whenever a new group begins behind options, keeps the meaning of the three indices |
| GetOptScan.Parser.Finish | src/ZToolLib/ztl_win32_getopt.c:364-382 | At the end of argv the operands go last and optind is the first of them |
| GetOptScan.PartitionedPermutes | src/ZToolLib/ztl_win32_getopt.c:362-435 | The partitioned argv is a permutation of argv |
| RbTrees.RbTree.constructor | src/ZToolLib/ztl_evtimer.c:12-18 | A tree made with its sentinel is empty and meets the invariant: black root, no red node above a red one, equal black heights, correct links, keys in order |
| RbTrees.RbTree.Insert | src/ZToolLib/ztl_rbtree.c:18-86 | Keeps the invariant; in order, the node comes right behind all keys that are not greater, and nothing else moves |
| RbTrees.RbTree.Delete | src/ZToolLib/ztl_rbtree.c:149-312 | Keeps the invariant; in order, exactly that node is gone, and its links and key are cleared |
| RbTrees.HeightBound | src/ZToolLib/ztl_rbtree.c:18-312 | A red-black tree of n nodes has height at most 2 log2(n + 1) |
| RbTrees.RbTree.Find | src/ZToolLib/ztl_map.c:29-54 | The search succeeds exactly if some node has the key |
| RbTrees.RbTree.First | src/ZToolLib/ztl_evtimer.c:75-84 | The first node in order, and none exactly if the tree is empty |
| RbInsert.Insert | src/ZToolLib/ztl_rbtree.c:18-86 | On linked nodes: from any red-black tree in order to the red-black tree with the node placed behind the keys that are not greater |
| RbInsert.InsertValue | src/ZToolLib/ztl_rbtree.c:89-146 | The search hangs the node, red, at the one place between the keys that are not greater and those that are, for the plain comparison and the one with wrap-around |
| RbInsert.Rebalance | src/ZToolLib/ztl_rbtree.c:40-86 | The fixup loop makes the tree red-black again from a red node under a red parent and keeps the order |
| RbShape.RisePastUncle | src/ZToolLib/ztl_rbtree.c:46-50 | With a red uncle the recolouring moves the only trouble two levels up |
| RbShape.RiseInner | src/ZToolLib/ztl_rbtree.c:53-56 | An inner node turned outward leaves the same trouble one level below |
| RbShape.RiseOuter | src/ZToolLib/ztl_rbtree.c:58-60 | With a black uncle one rotation and two colours end the trouble |
| RbDelete.Delete | src/ZToolLib/ztl_rbtree.c:149-312 | On linked nodes: wherever the node is, the result is the red-black tree of the others in their order; the stale parent of a new root and the fields of the sentinel but its colour are not relied on |
| RbDelete.DeleteOne | src/ZToolLib/ztl_rbtree.c:159-245 | A node with at most one child: the child takes its place and the shortage of a black node is mended |
| RbDelete.DeleteTwo | src/ZToolLib/ztl_rbtree.c:167-245 | A node with two children: its successor takes its place with its colour, and the shortage at the place of the successor is mended |
| RbDelete.Fixup | src/ZToolLib/ztl_rbtree.c:249-311 | The fixup loop makes the tree red-black again from a place that is one black node short and keeps the order |
| RbDelete.Min | src/ZToolLib/ztl_rbtree.c:315-322 | Going left ends at the first node in order |
| RbShort.ShortRed | src/ZToolLib/ztl_rbtree.c:254-259 | A red sibling: after the rotation the place is still short, with a black sibling |
| RbShort.ShortAbove | src/ZToolLib/ztl_rbtree.c:261-263 | A black sibling with black children: turned red, it moves the shortage up one level |
| RbShort.ShortNear | src/ZToolLib/ztl_rbtree.c:266-271 | Only the nearer nephew red: after the rotation the farther one is |
| RbShort.ShortFar | src/ZToolLib/ztl_rbtree.c:273-277 | The farther nephew red: one rotation ends the shortage |
| RbHeap.LeftRotate | src/ZToolLib/ztl_rbtree.c:324-352 | The links after the rotation spell the rotated tree at the same place, at the root or below it |
| RbHeap.RightRotate | src/ZToolLib/ztl_rbtree.c:355-383 | The mirror image of the left rotation |
| RbShape.RotationKeepsOrder | src/ZToolLib/ztl_rbtree.c:324-383 | Rotations keep the order of the whole tree |
| EvTimer.Timers.Expire | src/ZToolLib/ztl_evtimer.c:98-131 | While all keys lie in a window below 2^63, and whatever timers the handlers arm and delete: which timers fire, in which order, and all deadlines afterwards are those of the specification Expiry over the timers due at currtime; none that is due is left, the result is the time to the first one, and the loop ends |
| EvTimer.FiresInOrder | src/ZToolLib/ztl_evtimer.c:98-131 | For every behaviour of the handlers: timers fire in the order of their deadlines, with ties in the order in which they were armed, each at most once |
| EvTimer.FiresUnlessTouched | src/ZToolLib/ztl_evtimer.c:98-131 | A timer that is due fires, unless the handler of one that fired moved or deleted it |
| EvTimer.AllFire | src/ZToolLib/ztl_evtimer.c:98-131 | If no handler touches a timer that is due and has yet to fire, exactly the timers due at currtime fire, whatever others the handlers arm and delete |
| EvTimer.StaysUnlessTouched | src/ZToolLib/ztl_evtimer.c:98-131 | A timer that did not fire and was not touched by a handler is kept with its deadline |
| EvTimer.ArmedAgain | src/ZToolLib/ztl_evtimer.c:98-131 | If handlers only arm their own timer again: those armed have the deadline counted from currtime, the others that fired are gone, and all else is as before |
| EvTimer.Timers.FireOne | src/ZToolLib/ztl_evtimer.c:107-127 | One round: the first timer leaves the tree, and after any calls of its handler those still due come first in the order |
| EvTimer.Timers.Add | src/ZToolLib/ztl_evtimer.c:25-59 | The three outcomes with their exact conditions; an armed timer stands behind all that are not later, and the others keep their order |
| EvTimer.Timers.Del | src/ZToolLib/ztl_evtimer.c:61-73 | Exactly that timer leaves |
| EvTimer.Timers.MinMs | src/ZToolLib/ztl_evtimer.c:86-96 | The time left of the first timer counted from last_time, or -1 exactly if there is none |
| EvTimer.MinMsExactly | src/ZToolLib/ztl_evtimer.h:47-51 | What it returns is the time from the moment it was given, or from last_time for 0, exactly if it is given 0 or last_time |
| EvTimer.MinMsLate | src/ZToolLib/ztl_evtimer.h:47-51 | Given a moment ten milliseconds after the last update it returns ten too many |
| EvTimer.OrderedExactlyInWindow | src/ZToolLib/ztl_rbtree.c:114-146 | The comparison with wrap-around is a strict weak order on a set of keys if and only if the keys lie in some window of half the range |
| EvTimer.WrapLessCircle | src/ZToolLib/ztl_rbtree.c:114-146 | Without a window it fails: three keys each before the next |
| EvTimer.WrapLessOpposite | src/ZToolLib/ztl_rbtree.c:114-146 | And two keys half the range apart are each before the other |
| EvTimer.ArmedLater | src/ZToolLib/ztl_evtimer.c:25-59 | A timer armed with a positive timeout is not due yet, and its place in the window is its delay further on |
| EvTimer.KeepsOldExactly | src/ZToolLib/ztl_evtimer.c:38-48 | Leaving a set timer alone and a new deadline less than 300 ms away are the same exactly if the deadline is that close, or the distance modulo 2^32 is 300 or more away from 0 on both sides; for all keys |
| EvTimer.KeepsOldPending | src/ZToolLib/ztl_evtimer.c:38-48 | For a pending timer with less than 2^32 to go they are the same exactly if the new timeout differs from the time left by at most 2^32 - 300 |
| EvTimer.InfiniteStays | src/ZToolLib/ztl_evtimer.c:38-48 | A timer set to ZTL_TIMER_INFINITE is left alone when it is set to 100 ms |
| EvTimer.DelayKept | src/ZToolLib/ztl_evtimer.c:117-119 | The delay returned is cut to an int exactly if it is 2^31 or more |
| EvTimer.FirstIsSoonest | src/ZToolLib/ztl_evtimer.c:75-119 | The first timer in the tree has the smallest time left |
| CMap.Map.Add | src/ZToolLib/ztl_map.c:149-172 | As a multimap sorted by key: the pair comes behind all pairs with keys that are not greater, on a node from the free list if there is one |
| CMap.Map.Del | src/ZToolLib/ztl_map.c:174-191 | One pair with the key goes, its value is returned and its node is free; or nothing changes exactly if the key is absent |
| CMap.Map.Find | src/ZToolLib/ztl_map.c:200-212 | The value of a pair with the key, or the invalid value exactly if there is none |
| CMap.Map.Count | src/ZToolLib/ztl_map.c:193-198 | Whether some pair has the key |
| CMap.Map.AddNode | src/ZToolLib/ztl_map.c:227-233 | The same as adding a pair, on a node of the caller |
| CMap.Map.DelNode | src/ZToolLib/ztl_map.c:235-246 | Exactly the pair of that node goes |
| CMap.Map.FindNode | src/ZToolLib/ztl_map.c:248-253 | A node with the key, or none exactly if the key is absent |
| CMap.Map.Clear | src/ZToolLib/ztl_map.c:129-137 | No pair is left, and the nodes are not put on the free list |
| CMap.Map.constructor | src/ZToolLib/ztl_map.c:88-116 | An empty map with the reserve on the free list |
| LfQueue.FirstInFirstOut | src/ZToolLib/lockfreequeue.c:135-201 | Over all interleavings of any number of producers and consumers in which no thread is overtaken by a full lap: what was taken is a prefix of what was pushed in order of reservation, and on unwrapped counters rd <= maxread <= wt <= rd + N - 1 |
| LfQueue.OneToOne | src/ZToolLib/lockfreequeue.c:135-201 | With one producer and one consumer the same holds without that hypothesis |
| LfQueue.Keeps | src/ZToolLib/lockfreequeue.c:135-201 | Every atomic step of a thread that is not lapped keeps the invariant |
| LfQueue.TakesInTurn | src/ZToolLib/lockfreequeue.c:165-201 | A pop that succeeds takes the element whose turn it is if and only if it was not lapped |
| LfQueue.LappedPopRepeats | src/ZToolLib/lockfreequeue.c:165-201 | The hypothesis is needed: on a ring of two slots a lapped pop returns the first element twice |
| LfQueue.GivesUpFull | src/ZToolLib/lockfreequeue.c:143-149 | Exactly when a push gives up, whatever the others did: the ring is full, or its slot was filled and emptied by others meanwhile and rdindex stands right behind it |
| LfQueue.GivesUpEmpty | src/ZToolLib/lockfreequeue.c:176-183 | Exactly when a pop gives up: nothing was published, or whole laps were published meanwhile |
| LfQueue.SizeIsCount | src/ZToolLib/lockfreequeue.c:224-238 | The size from the wrapped indices is the number of elements reserved and not yet taken |
| LfQueue.WrappedApart | src/ZToolLib/lockfreequeue.c:61 | Counts less than a lap apart have different wrapped indices |
| LfCalls.PushCall | src/ZToolLib/lockfreequeue.c:135-161 | A whole push among any number of others, no thread lapped: it goes on with its element until it returns; it returns 0 in the step that publishes the element, which stands in the queue at the one count the call reserved, or -1 with nothing reserved exactly when the ring looked full; there is no other way out |
| LfCalls.PopCall | src/ZToolLib/lockfreequeue.c:163-201 | A whole pop: it returns 0 with the element whose turn it is, appended to what was taken, and takes no other; or -1, with nothing taken, exactly when the ring looked empty |
| LfCalls.TraceOf | src/ZToolLib/lockfreequeue.c:135-201 | Every schedule in which no thread is lapped has a trace of all its states, which is what the two statements range over |
| JsonNesting.RoundTripExactly | src/ZToolLib/cJSON.c:1212-1717 | Parsing printed text, formatted or not, gives the same tree and uses the whole text if and only if arrays and objects nest at most 1000 deep; deeper text is refused |
| JsonRoundTrip.IntRoundTrip | src/ZToolLib/cJSON.c:1212-1717 | The round trip for strings without NUL and whole numbers below 10^15 in magnitude, with the decimal text of numbers spelled out |
| JsonRoundTrip.RoundTrip | src/ZToolLib/cJSON.c:1212-1717 | The round trip for any text of numbers that is read back |
| JsonRoundTrip.StringBack | src/ZToolLib/cJSON.c:698-946 | What print_string_ptr writes, parse_string reads back, escapes included, and stops behind the closing quote |
| JsonParser.ParseWithOpts | src/ZToolLib/cJSON.c:1000-1077 | The parser as it runs, on a buffer with offset and depth, gives the item or the place of the error that the recursive specification gives, which JsonGrammar.Parses and JsonSound.AcceptsExactly tie to the grammar of RFC 8259 for both values of require_null_terminated |
| JsonGrammar.Parses | src/ZToolLib/cJSON.c:1000-1083 | A text that spells a value by the grammar of RFC 8259, with blanks anywhere between its tokens, every escape and a byte order mark or not, nesting at most 1000 deep: without require_null_terminated it parses to that value, with the end behind it, whatever follows as long as a number is not continued; with it the end is at the NUL if only blanks follow, and anything else fails at its first byte |
| JsonGrammar.ValueParsed | src/ZToolLib/cJSON.c:1212-1264 | The same for a value at any place and depth of a text |
| JsonGrammar.StringRead | src/ZToolLib/cJSON.c:698-824 | A string of plain bytes, two-character escapes with the escaped slash, and \u sequences in any case of digits is read as the bytes it stands for |
| JsonGrammar.NumeralFits | src/ZToolLib/cJSON.c:266-340 | A number of the grammar of up to 63 bytes is collected whole |
| JsonSound.AcceptsExactly | src/ZToolLib/cJSON.c:1000-1077 | With require_null_terminated a text is accepted with a value if and only if it spells that value by the grammar between blanks, nesting at most 1000 deep, for values whose strings hold no NUL byte |
| JsonSound.AcceptedIs | src/ZToolLib/cJSON.c:1000-1083 | Whatever is accepted, with either option, is spelled by the grammar, again for values whose strings hold no NUL byte |
| JsonSound.BrokenHex | src/ZToolLib/cJSON.c:577-695 | With NUL bytes it is not so: four characters behind \u that are no hexadecimal digits pass for the code point 0 |
| JsonParser.ParseBuffer.ParseValue | src/ZToolLib/cJSON.c:1212-1264 | Every branch, with its failures, leaves offset and depth where the specification does |
| JsonParser.ParseBuffer.ParseArray | src/ZToolLib/cJSON.c:1341-1432 | The loop over elements, with the depth limit and all its failures |
| JsonParser.ParseBuffer.ParseObject | src/ZToolLib/cJSON.c:1497-1603 | The loop over members, with the depth limit and all its failures |
| JsonParser.ParseBuffer.ParseString | src/ZToolLib/cJSON.c:698-824 | The output allocated after the first pass is never overrun by the second, whatever the escapes |
| JsonParser.RoomForLiteral | src/ZToolLib/cJSON.c:736-792 | The room counted for a \u sequence suffices for the bytes it stands for, even if its digits are none |
| JsonParser.UnescapeInto | src/ZToolLib/cJSON.c:744-799 | The second pass writes exactly the unescaped bytes or fails where the specification fails |
| JsonParser.Utf16ToUtf8 | src/ZToolLib/cJSON.c:577-695 | Surrogate pairs and single units to UTF-8, with the same refusals as the specification |
| JsonUnicode.CodePointBack | src/ZToolLib/cJSON.c:577-695 | The \u spelling of any code point that is no surrogate, in either case of digits, is read as that code point in UTF-8 |
| JsonUnicode.NoSurrogates | src/ZToolLib/cJSON.c:577-695 | Whatever \u spelling is accepted stands for a code point that is no surrogate |
| JsonUnicode.Utf8Back | src/ZToolLib/cJSON.c:640-689 | The bytes written are decoded to the code point by section 3 of RFC 3629 |
| JsonGrammar.PrintedByte | src/ZToolLib/cJSON.c:827-946 | What is printed for a byte of a string is a spelling of it by the grammar, and no spelling is shorter |
| JsonRoundTrip.SampleText | src/ZToolLib/cJSON.c:1435-1717 | The layout of formatted and unformatted text, on an object of two members written out |
| JsonPrint.PrintPreallocated | src/ZToolLib/cJSON.c:1192-1209 | For every tree and both formats: it writes only inside the buffer and succeeds if and only if the buffer has two bytes more than the text |
| JsonPrint.Print | src/ZToolLib/cJSON.c:1087-1149 | The text and its NUL in a buffer of that size, for every text that stays below INT_MAX - 1 bytes |
| JsonPrint.PrintValue | src/ZToolLib/cJSON.c:1267-1338 | Succeeds if and only if text, NUL and one byte fit behind the offset, and then the text is there |
| JsonPrint.PrintArray | src/ZToolLib/cJSON.c:1435-1494 | The same bound for arrays, whose parts each ask for one byte too many |
| JsonPrint.PrintObject | src/ZToolLib/cJSON.c:1606-1717 | The same bound for objects, with tabs and names |
| JsonPrint.PrintBuffer.PrintString | src/ZToolLib/cJSON.c:827-946 | The escaped string is written whole or not at all, by the same bound |
| JsonPrint.PrintBuffer.Ensure | src/ZToolLib/cJSON.c:373-458 | Room for the bytes asked for and one more, by growth unless the buffer is fixed; what was written is kept |
| JsonMinify.PrintedMinified | src/ZToolLib/cJSON.c:2629-2697 | Minifying a formatted print gives the unformatted print, string contents kept byte for byte |
| JsonMinify.Minify | src/ZToolLib/cJSON.c:2629-2697 | In place, for texts whose literals and block comments are closed: the text without blanks and comments, its NUL, and nothing behind it touched |
| JsonMinify.InsideExactly | src/ZToolLib/cJSON.c:2629-2697 | For every text: the code looks at no byte behind the NUL if and only if every literal and every block comment is closed |
| JsonMinify.OneQuote | src/ZToolLib/cJSON.c:2665-2688 | It does look behind the NUL of a text of one quote, and of an open comment |
| JsonMinify.StringKept | src/ZToolLib/cJSON.c:2674-2686 | A printed string goes through unchanged |
| JsonMinify.InsertionGone | src/ZToolLib/cJSON.c:2629-2697 | Inserting blanks, closed comments or whole line comments between two units of any text does not change what minifying gives |
| JsonMinify.CommentTraceless | src/ZToolLib/cJSON.c:2664-2672 | A closed block comment can be inserted like that |
| JsonMinify.LineTraceless | src/ZToolLib/cJSON.c:2656-2663 | So can a line comment with its line break |
| JsonMinify.BlanksGoneOutside | src/ZToolLib/cJSON.c:2629-2697 | Outside string literals the minified text has no blank |
| ThreadPool.AtMostOnce | src/ZToolLib/ztl_threadpool.c:138-171 | Over every interleaving of dispatchers, removers and workers: no task runs twice, none is freed twice and none before its function has ended; by the time it is freed its function has been called exactly once if a worker took it and there is one, and never otherwise |
| ThreadPool.FreedOnce | src/ZToolLib/ztl_threadpool.c:380-403 | After stop, a completed join and release each accepted task has been freed exactly once, and its function has been called exactly if a worker took it |
| ThreadPool.CountIsExact | src/ZToolLib/ztl_threadpool.c:87-136 | taskn is the length of the list whenever the mutex is free |
| ThreadPool.DequeuedInOrder | src/ZToolLib/ztl_threadpool.c:87-120 | Normal tasks leave the list in the order in which they were dispatched |
| ThreadPool.NearlyLimited | src/ZToolLib/ztl_threadpool.c:241-283 | The limit is looked at outside the mutex: with at most k dispatchers at a time past their test, at most maxsize - 1 + k tasks are pending |
| ThreadPool.BoundReached | src/ZToolLib/ztl_threadpool.c:241-283 | That bound is reached: for every limit and every k there is a run with at most k dispatchers at a time that ends with maxsize - 1 + k pending tasks |
| ThreadPool.LimitExactly | src/ZToolLib/ztl_threadpool.c:241-283 | All runs with at most k dispatchers at a time keep to the limit if and only if k is at most one |
| ThreadPool.JoinSees | src/ZToolLib/ztl_threadpool.c:348-363 | activenum is zero exactly if no worker is inside its loop |
| ThreadPool.JoinTooEarly | src/ZToolLib/ztl_threadpool.c:151-154 | A join can succeed before a worker that was created has begun |
| ThreadPool.NeverStuck | src/ZToolLib/ztl_threadpool.c:122-171 | A thread that does not wait for the mutex can always go on |
| ThreadPool.StepInv | src/ZToolLib/ztl_threadpool.c:87-403 | Every step keeps the invariant that each task is in exactly one place |
| PoolTasks.Dispatched | src/ZToolLib/ztl_threadpool.c:66-171 | What a dispatch promises over every run: the job has the function, flags and priority of the call for good, and when it is done its function has been called exactly once if a worker took it, else never, and its two parts are freed as asked |
| PoolTasks.Stems | src/ZToolLib/ztl_threadpool.c:66-85 | Every job stems from such a call |
| PoolTasks.TakerIs | src/ZToolLib/ztl_threadpool.c:108-171 | Who took a task is the call of the thread that took it out of the list, for good: a worker in its loop, a removal or the release |
| PoolTasks.NextTask | src/ZToolLib/ztl_threadpool.c:87-136 | A worker takes the first of the list, in which tasks with priority come first, the latest of them in front, and behind them the others in order of dispatch |
| PoolTasks.RemovesFirstMatch | src/ZToolLib/ztl_threadpool.c:285-326 | A removal takes the first task behind the head that has its function, and nothing else moves |
| PoolTasks.SearchTells | src/ZToolLib/ztl_threadpool.c:285-326 | It searches for the function it was called with, and gives up exactly if no task behind the head has it |
| PoolTasks.LeavesWhenStopped | src/ZToolLib/ztl_threadpool.c:151-171 | A worker leaves its loop only after the pool was told to stop |
| PoolTasks.WorkerServes | src/ZToolLib/ztl_threadpool.c:122-171 | A worker that finds a task and is left alone runs it to its end in eleven steps, or ten without a function, and is back at its loop with everything else as it was |
| TaskList.Tasks.Append | src/ZToolLib/ztl_threadpool.c:87-106 | On the links: at the end, or at the front if it has priority |
| TaskList.Tasks.TakeHead | src/ZToolLib/ztl_threadpool.c:108-120 | On the links: the first task leaves |
| TaskList.Tasks.Remove | src/ZToolLib/ztl_threadpool.c:285-326 | The first task with that function behind the head leaves, and the head never does |
| RwLock.Exclusive | src/ZToolLib/ztl_locks.c:38-119 | While a thread writes, no other thread reads or writes, in every reachable state with fewer than 2^32 - 1 threads that each unlock what they hold |
| RwLock.WordTells | src/ZToolLib/ztl_locks.c:38-119 | The word is WLOCK exactly while one writer holds the lock; otherwise it is the number of readers |
| RwLock.LeavesRightly | src/ZToolLib/ztl_locks.c:100-119 | What unlock reads tells a writer from a reader, with stale reads and retries included |
| RwLock.StepInv | src/ZToolLib/ztl_locks.c:38-119 | Every atomic step keeps the invariant |
| RwLock.GetsIn | src/ZToolLib/ztl_locks.c:38-98 | From an unlocked word a thread that runs alone gets in |
| RwLock.OneReaderTooMany | src/ZToolLib/ztl_locks.c:66-98 | With 2^32 - 1 readers the word would read as a writer |
| IndexedHeap.Heap.Push | src/ZToolLib/ztl_heap.c:194-203 | Keeps the heap order and each stored index, and adds exactly that element |
| IndexedHeap.Heap.Pop | src/ZToolLib/ztl_heap.c:205-208 | Takes out one element that nothing is above, and no other |
| IndexedHeap.Heap.Remove | src/ZToolLib/ztl_heap.c:210-219 | Takes out exactly the element given, found by its stored index |
| IndexedHeap.Heap.RemoveAt | src/ZToolLib/ztl_heap.c:113-124 | Takes out the element of the slot; order and indices are kept |
| IndexedHeap.Heap.BubbleUp | src/ZToolLib/ztl_heap.c:86-94 | From an order with a hole at one slot to a slot that is under its parent, as a permutation |
| IndexedHeap.Heap.MaxHeapify | src/ZToolLib/ztl_heap.c:96-111 | From an order with a hole at one slot to the full order, as a permutation |
| IndexedHeap.Heap.Swap | src/ZToolLib/ztl_heap.c:66-73 | Two slots change their elements, and the stored indices follow |
| IndexedHeap.Heap.Grow | src/ZToolLib/ztl_heap.c:75-84 | A larger array with the same elements |
| IndexedHeap.RootIsMax | src/ZToolLib/ztl_heap.c:205-208 | In heap order nothing is above the first slot, for any total preorder |
| IndexedHeap.ComparisonsAreOrders | src/ZToolLib/ztl_heap.c:245-281 | The comparisons of the library are total preorders whose top is the least and the largest key |
| Crypt.RoundTrip | src/ZToolLib/ztl_crypt.c:9-49 | Decrypting what was encrypted gives the message zero-padded to whole blocks, for every key and every message |
| Crypt.AesEncrypt | src/ZToolLib/ztl_crypt.c:9-39 | Padding, ciphering and encoding as it runs is the composed function, for messages of up to 4000 bytes |
| Crypt.Example | src/ZToolLib/ztl_crypt.c:9-39 | The plaintext of appendix C.1 of FIPS 197 is encrypted to the Base64 of its ciphertext |
| Crypt.AesDecrypt | src/ZToolLib/ztl_crypt.c:41-49 | Decoding and deciphering as it runs is the composed function, text that does not decode included |
| Aes.DecryptBack | src/ZToolLib/ztl_aes.c:97-166 | The ten inverse rounds undo the ten rounds, whatever the round keys (sections 5.1 and 5.3 of FIPS 197) |
| Aes.MixColumnsBack | src/ZToolLib/ztl_aes.c:294-377 | InvMixColumns undoes MixColumns |
| AesField.ColumnBack | src/ZToolLib/ztl_aes.c:294-377 | The same for one column of any four bytes, over GF(2^8) |
| AesField.FFmul | src/ZToolLib/ztl_aes.c:238-261 | The bitwise loop computes the sum of the shifted and reduced multiples |
| AesField.Factors | src/ZToolLib/ztl_aes.c:238-261 | Its products with the factors of the two mixings, in terms of doubling |
| AesField.TimesSum | src/ZToolLib/ztl_aes.c:238-261 | Multiplication distributes over the sum |
| AesField.SubBack | src/ZToolLib/ztl_aes.c:25-71 | The inverse table undoes the table for every byte |
| AesTable.SubByteIs | src/ZToolLib/ztl_aes.c:25-48 | The table by its definition: byte b becomes the affine map of x if and only if b times x is 1 in the field, and 0 becomes that of 0 (section 5.1.1 of FIPS 197) |
| AesTable.AffineBit | src/ZToolLib/ztl_aes.c:25-48 | The affine map bit by bit |
| AesTable.HasInverse | src/ZToolLib/ztl_aes.c:25-48 | Every byte but 0 has an inverse in the field |
| AesExample.Encrypts | src/ZToolLib/ztl_aes.c:97-236 | The example of appendix C.1 of FIPS 197: its plaintext is enciphered to its ciphertext under its key, through every round key and state |
| AesExample.Decrypts | src/ZToolLib/ztl_aes.c:132-236 | And back |
| Aes.ShiftRowsBack | src/ZToolLib/ztl_aes.c:275-357 | InvShiftRows undoes ShiftRows |
| Aes.RconDoubles | src/ZToolLib/ztl_aes.c:198-236 | The round constants are the powers of x in the field |
| AesCipher.KeyExpansion | src/ZToolLib/ztl_aes.c:198-236 | The loops over words fill in the key schedule of section 5.2 of FIPS 197 |
| AesCipher.CipherIn | src/ZToolLib/ztl_aes.c:97-130 | In place on sixteen bytes of the buffer, and nothing around them changes; what the cipher is, is tied to FIPS 197 by AesTable.SubByteIs and AesExample.Encrypts |
| AesCipher.InvCipherIn | src/ZToolLib/ztl_aes.c:132-166 | In place on sixteen bytes of the buffer, and nothing around them changes |
| AesCipher.MixColumnsIn | src/ZToolLib/ztl_aes.c:294-312 | In place on the state array |
| AesCipher.InvMixColumnsIn | src/ZToolLib/ztl_aes.c:359-377 | In place on the state array |
| AesCipher.ShiftRowsIn | src/ZToolLib/ztl_aes.c:275-292 | In place on the state array |
| AesCipher.InvShiftRowsIn | src/ZToolLib/ztl_aes.c:340-357 | In place on the state array |
| AesCipher.CipherWithLength | src/ZToolLib/ztl_aes.c:169-183 | Block by block over the rounded length, which a length of 0 takes from the first NUL; what lies behind is kept |
| AesCipher.InvCipherWithLength | src/ZToolLib/ztl_aes.c:185-194 | Block by block over the rounded length; what lies behind is kept |
| AesCipher.BlocksBack | src/ZToolLib/ztl_aes.c:169-194 | Deciphering blocks undoes ciphering them |
| AesCipher.EachBlock | src/ZToolLib/ztl_aes.c:169-183 | Each block of the buffer is enciphered on its own, in its place |
| Base64.RoundTrip | src/ZToolLib/ztl_base64.c:72-166 | Decoding an encoding gives the bytes back, for every byte string (section 4 of RFC 4648) |
| Base64.Encode | src/ZToolLib/ztl_base64.c:72-121 | The state machine writes the encoding, whose length is known beforehand, and its NUL |
| Base64.Decode | src/ZToolLib/ztl_base64.c:123-166 | The state machine writes the decoded bytes, or leaves the length alone if a character or the padding is wrong |
| Base64.CharKind | src/ZToolLib/ztl_base64.c:72-121 | Digits, then only padding |
| Base64.DigitIs | src/ZToolLib/ztl_base64.c:9-19 | The table of digits is the alphabet of table 1 of RFC 4648 |
| Base64.GroupIs | src/ZToolLib/ztl_base64.c:72-121 | Four characters of the encoding stand for the 24 bits of three bytes, the first on top, with padding exactly for those that hold no bit of the data (section 4 of RFC 4648) |
| Sha1.HashChunks | src/ZToolLib/ztl_sha1.c:117-197 | However a message is cut into chunks, Update for each and Final give the fold of the block function over the whole padded message (section 5.1.1 of FIPS 180-4) |
| Sha1.Context.Update | src/ZToolLib/ztl_sha1.c:131-150 | The context has absorbed the message followed by the data |
| Sha1.Context.Final | src/ZToolLib/ztl_sha1.c:155-197 | Padding byte by byte through Update and the saved bit count give the padded message; state, counters and buffer are zero afterwards |
| Sha1.CountAdds | src/ZToolLib/ztl_sha1.c:135-138 | The two-word bit counter with its carry counts the bits modulo 2^64 |
| Sha1.Waiting | src/ZToolLib/ztl_sha1.c:139-140 | The counter tells how many bytes wait in the buffer |
| Sha1.LengthSpells | src/ZToolLib/ztl_sha1.c:155-197 | The eight bytes at the end spell the number of bits modulo 2^64, the highest first |
| Sha1.PaddedApart | src/ZToolLib/ztl_sha1.c:155-197 | Two messages below 2^61 bytes are not padded to the same |
| Md5.HashChunks | src/ZToolLib/ztl_md5.c:18-108 | However a message is cut into chunks, Update for each and Final give the fold of the block function over the whole padded message (sections 3.1 and 3.2 of RFC 1321) |
| Md5.Context.Update | src/ZToolLib/ztl_md5.c:29-56 | The context has absorbed the message followed by the data |
| Md5.Context.Final | src/ZToolLib/ztl_md5.c:59-108 | One or two padded blocks and the length modulo 2^64 in little-endian order; the whole context is zero afterwards |
| Md5.Context.Body | src/ZToolLib/ztl_md5.c:166-280 | The loop over blocks is the fold of the block function |
| BlockFold.FoldMore | src/ZToolLib/ztl_md5.c:166-280 | Folding over a concatenation is folding over the parts |
| BlockFold.PaddedIs | src/ZToolLib/ztl_md5.c:59-108 | The padded message is the message, a one bit, only zeros and the eight bytes of the length, in the least number of whole blocks |
| Md5.LengthSpells | src/ZToolLib/ztl_md5.c:59-108 | The eight bytes at the end spell the number of bits modulo 2^64, the lowest first |
| Md5.PaddedApart | src/ZToolLib/ztl_md5.c:59-108 | Two messages below 2^61 bytes are not padded to the same |
| Md5.InitialBytes | src/ZToolLib/ztl_md5.c:18-27 | The initial state is that of section 3.3 of RFC 1321, byte by byte |
| Crc.Crc32Short | src/ZToolLib/ztl_crc.h:12-26 | Two nibbles at a time with the table of 16 entries is bit-by-bit division by the reflected polynomial |
| Crc.Crc32Long | src/ZToolLib/ztl_crc.h:29-40 | A byte at a time with the table of 256 entries is the same division |
| Crc.Update | src/ZToolLib/ztl_crc.h:46-57 | The running register is divided on |
| Crc.Chained | src/ZToolLib/ztl_crc.h:46-57 | Over a concatenation the register chains over the parts |
| Crc.ByNibble | src/ZToolLib/ztl_crc.h:12-26 | A table entry of the small table stands for four steps of the division |
| Crc.ByTable | src/ZToolLib/ztl_crc.h:29-40 | An entry of the large table stands for eight steps |
| Crc.Table256Right | src/ZToolLib/ztl_crc.c:214-279 | Every entry of the large table is eight steps of the division |
| Crc.CheckValue | src/ZToolLib/ztl_crc.c:206-279 | The checksum of the digits from 1 to 9 is 0xcbf43926 |
| Crc64.Crc64 | src/ZToolLib/ztl_crc.c:180-188 | The loop over bytes is bit-by-bit division by the reflected Jones polynomial |
| Crc64.TableRight | src/ZToolLib/ztl_crc.c:49-178 | Every entry of the table is eight steps of that division |
| Crc64.Chained | src/ZToolLib/ztl_crc.c:180-188 | Over a concatenation the register chains over the parts |
| Crc64.CheckValue | src/ZToolLib/ztl_crc.c:5-11 | The check value stated at the head of the file, from a register of 0 |

## Left out

Contracts that promise less than one might expect, by member:

- DictScan.ScanGuarantee: the callbacks do not touch the dictionary during a call.
- DictIter.ExactlyOnce: the changes allowed between two steps are adds, finds, the start of an expansion and the deletion of the entry just returned; unsafe iterators and their fingerprint are not modelled.
- Dict.Dict.Rehash: `n * 10` is an unbounded number; the code computes it as an `int`.
- Dict.Dict.Expand: sizes are at most 2^62, so that the size of the table in bytes and all sums stay in range.
- GetOptScan.ParseAll: `argv` starts at its first argument, and what an argument is (operand, option with how many arguments, or the terminator) is a parameter instead of the parsing of short and long options; the variants without permutation are not modelled.
- RbInsert.InsertValue: the insert function stored in a tree is modelled by its comparison, which must be a weak order on the keys; CMap shows that of `<` and EvTimer exactly when the comparison with wrap-around is one.
- RbTrees.RbTree.Find: for the plain comparison of keys, which is what the map uses.
- EvTimer.Timers.Expire: the window leaves 2^32 of room for timers that handlers arm; handlers do not expire timers or update the time themselves; `count`, which the code does not lower here, is not claimed to be the size.
- EvTimer.Timers.Add: `count` is not claimed to be the size of the tree.
- CMap.Map.Add: a fresh node always comes when the free list is empty.
- LfQueue.FirstInFirstOut: needs that no thread is overtaken by a full lap; without it the claim is false.
- LfCalls.PushCall: for runs in which no thread is overtaken by a full lap, as LfQueue.FirstInFirstOut.
- JsonGrammar.NumeralFits: what number a text is read as is a parameter.
- JsonSound.AcceptsExactly: bytes below 32 count as blanks between tokens and as plain characters in strings, as in the code; the grammar is narrower. The reading of a number must give the same for the characters it used alone.
- JsonRoundTrip.RoundTrip: numbers are a parameter with their printed text and its reading; `strtod`, `sprintf` of non-integers and the saturation of `valueint` are not modelled.
- JsonParser.ParseWithOpts: children are a sequence; the links between siblings are not modelled.
- JsonMinify.Minify: literals and block comments are closed; JsonMinify.InsideExactly shows that the code stays inside the text for no others.
- JsonPrint.Print: doubling the buffer and the last reallocation always succeed; raw and reference items are not modelled.
- ThreadPool.FreedOnce: when release begins, no other thread is inside a call of the pool and no worker is inside its loop.
- ThreadPool.NeverStuck: the waiting time on the condition and its signals are not modelled; a wait may end at any moment.
- TaskList.Tasks.Append: the list of idle records is an atomic queue in the pool's model, and not modelled here.
- IndexedHeap.Heap.Push: slot numbers are unbounded; the code computes them in 32 bits.
- IndexedHeap.Heap.Remove: of the elements that are not in the heap, only those whose stored index is 0 or too large are certain to change nothing.
- Crypt.AesEncrypt: messages of up to 4000 bytes, the size of the buffer on the stack; longer ones go to memory that is not cleared.
- Sha1.Context.Update: chunks of up to 2^32 - 64 bytes; for longer ones the sums in the code wrap around.
- Sha1.HashChunks: the block function is a parameter; its rounds are not modelled.
- Md5.HashChunks: the block function is a parameter; its rounds are not modelled.

Not modelled at all:

- Failure of allocation, 32-bit and big-endian builds, destruction of containers.
- `dictRelease`, `dictEmpty`, random sampling, statistics, time-bounded migration, copies and destructors of keys and values.
- `cmap_traverse`, `cmap_to_array` and the set built on the map.
- `lfqueue_head` and placing a queue in shared memory.
- `cJSON_PrintBuffered`, and editing, comparing and duplicating JSON trees.
- `ztl_spinlock`, the locking and the peeking of the heap.
- `ztl_crc32_table_init`, which copies the small table to an aligned place.
- `ztl_table.c`, `ztl_memdb.c` and `ztl_times.c`.
- Sockets, events, TCP and UDP, shared memory, dynamic loading, logging and the smaller containers.
