# What the call recorder's core does, and why it is right

This project models the in-memory core of a SIP call recorder and proves what its parts promise. Code that changes things
step by step is modelled as classes and methods with loops that change the same fields in the same order; each method is
proved against a specification, and the specifications are what the lemmas speak of.

| files | what they model |
|---|---|
| `Basics` | options, and sequences without repetition |
| `NodePool`, `Tree`, `TreeMeaning`, `BinaryTree` | the size-counted ternary search tree: nodes with parent links and chains of equals, rotations on the way down, deletion by rotating down |
| `HashTable` | the hash table of such trees, with the callbacks of the session table and the hash it uses |
| `BitMask`, `Blocks`, `FreeBuffers`, `Arena` | the allocator: the mask of a block's 32 cells, headers and payload in the cells, lists of blocks by longest free run, and chains of chunks from which strings and records are cut |
| `BasicOps`, `Adpcm`, `SubBand`, `Qmf`, `Lockstep`, `G722` | the G.722 codec: saturating arithmetic, quantisers and adaptive prediction, the quadrature mirror filters, and runs of the encoder and the decoder |
| `ScaleTable`, `Scales`, `QmfMeaning` | what its tables, its predictor and its two filters amount to in exact numbers |
| `Chains`, `SipRecords`, `SipTables`, `SipSweep`, `SipCalls` | registrations, sessions, their pools, chains and reference counts, the handling of a message, the two sweeps and what they delete, the story that is told of each call, and a call from beginning to end |
| `CircularBuffer`, `StreamMixer`, `MixMeaning`, `TerminalAudio` | the ring buffer, the mixer, what mixing means, and the audio of a terminal |
| `G711` | A-law and mu-law companding |
| `XmlText`, `XmlReferences`, `XmlTree`, `XmlPrinter`, `XmlParser`, `XmlSurvival`, `XmlRoundTrip`, `XmlEndless` | TinyXML's printer and parser for elements, attributes and texts, which of these survive both, and when the parser does not end |
| `Crc32` | the table-driven check sum |
| `RtpRecorder` | the index from destinations to RTP sessions |

A few conventions run through all files. A pointer into memory is an object or an index, and into a string it is what is left
of the string. Time, message contents, gains and the success of `malloc` for allocator blocks are parameters. The line between
an encoder and a decoder is not part of the program; `G722.Disturb` is any line that spoils no more than the two low bits of an
octet. A message or a sweep is one atomic step. Ghost fields hold what the code only implies: the interval of hashes a tree node
may hold, the chunks carved from a block, the events told of a call.

Some promises turned out to hold under a condition only, and the condition is proved to be the exact one:

- The search callback of the session table compares only as many bytes as the wanted key has, so a record under a longer key
  with the same hash can be found instead. The search is a lookup in the map if and only if no such record comes first in the
  chain (`SearchIsLookup`); `SameHash` and `SearchMayMissTheMap` give two keys for which it fails.
- A string in which a hexadecimal character reference begins is passed through when it is written and decoded when it is
  read, and the white space of a text is condensed. An attribute survives printing and parsing if and only if there is no such
  reference in its value (`AttributeSurvives`), and an element with a text if and only if there is none in the text, which is
  not blank and whose spaces stand between words, one at a time (`TextElementSurvives`).
- The A-law coder maps the inputs -7 to -1 to the code for -248; below zero the error bound holds if and only if the input is
  at most -8 (`ALawErrorNegative`).
- A text that runs into the end of the input leaves its last character, which is then read again; the model calls it
  `Endless` when that goes on for ever. Where such a text begins, it does if and only if the input does not end in white space
  (`TextAtEnd`); `<a>b` is a document for which it does (`EndlessDocument`), and no document that ends in white space is one
  (`DocumentOver`).
- `hd_registry` deletes the head of a chain whichever registration was meant. So a visit of the sweep deletes a due
  registration if and only if this is the head of its chain, or comes second behind one that nobody refers to and is visited for
  two reasons (`VisitExact`). A whole sweep takes a number of registrations from the front of each chain that can be counted
  before it (`Gone`), and a registration is gone after it if and only if it is among these (`SweepExact`). So a due head always
  goes (`HeadGoes`), one behind a registration in use never does (`BehindOneInUse`), and the only due one of its chain goes under
  the condition of a visit (`OnlyDueExact`). `WrongOneGoes` gives two registrations of which the wrong one is deleted. No
  registration that a session refers to ever is.
- `sip_close_session` deletes a call without telling its listeners. Among the calls that are over, the end has been told if
  and only if the call was not closed in this way or its end had been told before (`WholeStory`); `ClosedUntold` gives a call
  for which it has not.

## Model

| member | source | states |
|---|---|---|
| `NodePool.Pool.constructor` | src/RecorderLib/SIPLib/mvi_binary_tree.c:10-17 | a new pool is well formed, holds a first batch of fresh nodes and counts them |
| `NodePool.Pool.Add` | src/RecorderLib/SIPLib/mvi_binary_tree.c:19-35 | an empty pool is filled with fresh zeroed nodes and counts the new batch; one that is not empty stays as it is |
| `NodePool.Pool.Get` | src/RecorderLib/SIPLib/mvi_binary_tree.c:37-59 | hands out a zeroed node that is not in the pool any more and was there before or is fresh; everything else that was free stays free |
| `NodePool.Pool.Free` | src/RecorderLib/SIPLib/mvi_binary_tree.c:61-72 | a node given back is zeroed and in the pool, once |
| `TreeShape.Rotation` | src/RecorderLib/SIPLib/mvi_binary_tree.c:91-129 | a rotation to either side keeps order, links and counts of the whole tree, brings the chosen child to the top with the count of the old top, and loses no node |
| `TreeShape.CheckBalance` | src/RecorderLib/SIPLib/mvi_binary_tree.c:74-89 | rotates exactly when the sizes on both sides differ by more than one, towards the larger; shape, counts and the place in the tree are kept |
| `TreeShape.CheckBalanceAndCount` | src/RecorderLib/SIPLib/mvi_binary_tree.c:131-166 | one step of the descent: balance, then count the node that is to come; the count grows by one and every other count stays right |
| `TreeShape.Hang` | src/RecorderLib/SIPLib/mvi_binary_tree.c:187-222 | a new node hung below its place makes a well-formed tree of one node more, all counts right |
| `TreeShape.Promote` | src/RecorderLib/SIPLib/mvi_binary_tree.c:258-291 | a node with equals is replaced by the next of them; the rest is a well-formed tree without it, the counts above still to be corrected |
| `TreeShape.Unchain` | src/RecorderLib/SIPLib/mvi_binary_tree.c:293-304 | an equal at the end of its chain is taken out of it |
| `TreeShape.SpliceOut` | src/RecorderLib/SIPLib/mvi_binary_tree.c:319-339 | a node with at most one child is taken out and its child takes its place |
| `TreeShape.CountOut` | src/RecorderLib/SIPLib/mvi_binary_tree.c:341-347 | one step of the way up: the count goes down by one, and the way ends |
| `BinaryTree.Tree.CheckFindAdd` | src/RecorderLib/SIPLib/mvi_binary_tree.c:131-166 | the descent ends at the node with the hash or at the free place in whose interval the hash lies |
| `BinaryTree.Tree.Insert` | src/RecorderLib/SIPLib/mvi_binary_tree.c:168-225 | exactly one node is added, with the hash and no object, taken from the pool; order, links, root and counts are kept |
| `BinaryTree.Tree.RotateDown` | src/RecorderLib/SIPLib/mvi_binary_tree.c:307-312 | rotating a node down ends with one side of it empty and keeps shape and counts |
| `BinaryTree.Tree.Climb` | src/RecorderLib/SIPLib/mvi_binary_tree.c:341-347 | the counts on the way to the root are corrected |
| `BinaryTree.Tree.Delete` | src/RecorderLib/SIPLib/mvi_binary_tree.c:249-348 | exactly the given node is taken out and goes back to the pool; order, links, root and counts are kept; without a node nothing happens |
| `BinaryTree.Tree.Search` | src/RecorderLib/SIPLib/mvi_binary_tree.c:227-237 | finds a node if and only if the hash is in the tree, and that node heads the chain of exactly the nodes with the hash |
| `TreeMeaning.AllUnderRoot` | src/RecorderLib/SIPLib/mvi_binary_tree.c:91-129 | every node of a well-formed tree is reached from the root by way of its parents |
| `TreeMeaning.UnderRange` | src/RecorderLib/SIPLib/mvi_binary_tree.c:131-166 | whatever is below a node has a hash within its interval, and in the chain of equals the same hash |
| `TreeMeaning.Descend` | src/RecorderLib/SIPLib/mvi_binary_tree.c:131-166 | whatever is below a node is below the child that the comparison of the hashes picks |
| `TreeMeaning.UnderCount` | src/RecorderLib/SIPLib/mvi_binary_tree.c:91-129 | whatever is below a node has a smaller count, which is why the descents end |
| `TreeMeaning.CountIsSize` | src/RecorderLib/SIPLib/mvi_binary_tree.c:74-129 | the count of every node is the number of nodes at or below it |
| `TreeMeaning.RootCount` | src/RecorderLib/SIPLib/mvi_binary_tree.c:74-129 | the count of the root is the number of nodes in the tree |
| `TreeMeaning.ChainHasHash` | src/RecorderLib/SIPLib/mvi_binary_tree.c:227-237 | the chain of equals below a node is exactly what is below it with the same hash |
| `HashTable.SDBMHash` | src/RecorderLib/SIPLib/mvi_hash_functions.c:148-157 | the loop computes the recursive definition of the hash, with 32-bit wrap-around |
| `HashTable.Table.Insert` | src/RecorderLib/SIPLib/mvi_hash_table.c:31-57 | a record enters the map under a key that is not filed yet; when its callback has no record for it, the node is taken back and map and nodes are as before |
| `HashTable.Table.RollBack` | src/RecorderLib/SIPLib/mvi_hash_table.c:31-57 | the tree node whose callback failed is taken out again and the table is well formed without it |
| `HashTable.Table.WalkIsBucket` | src/RecorderLib/SIPLib/tbl_sip_hash_tables.c:490-551 | the chain that a search walks holds exactly the records of the map whose keys have the hash |
| `HashTable.Table.Search` | src/RecorderLib/SIPLib/mvi_hash_table.c:62-81 | returns the first record, on the way from the head of the chain of the hash, whose key begins with the wanted key; what is met on the way is the bucket of the key |
| `HashTable.PrefixMatchExact` | src/RecorderLib/SIPLib/tbl_sip_hash_tables.c:505-509 | comparing only as many bytes as the wanted key has finds the same as comparing the keys, if and only if no longer key with that beginning stands before it |
| `HashTable.SearchIsLookup` | src/RecorderLib/SIPLib/mvi_hash_table.c:62-81 | under any collisions the search is the lookup in the map if and only if the wanted key is not shadowed; without an extension of it in the bucket it always is, and nothing found means not in the map |
| `HashTable.SameHash` | src/RecorderLib/SIPLib/mvi_hash_functions.c:148-157 | two different keys, one the beginning of the other, have the same hash |
| `HashTable.SearchMayMissTheMap` | src/RecorderLib/SIPLib/tbl_sip_hash_tables.c:490-551 | so there is a table in which the search finds a record for a key that is not in the map |
| `HashTable.Table.Delete` | src/RecorderLib/SIPLib/mvi_hash_table.c:115-140 | deletes the record that is meant unless it is in use, and otherwise changes nothing |
| `HashTable.DeleteByAddress` | src/RecorderLib/SIPLib/tbl_sip_hash_tables.c:629-670 | a deletion by the address of a record means that record or none, and finds it if and only if it is in the bucket |
| `HashTable.Table.FindOrInsert` | src/RecorderLib/SIPLib/sip_worker_parse.c:188-192 | searching and then inserting gives the record found or enters the new one; no key is entered twice |
| `BitMask.SetBits` | src/RecorderLib/SIPLib/mvi_malloc.c:43-53 | sets the bits of the range and no other |
| `BitMask.ClearBits` | src/RecorderLib/SIPLib/mvi_malloc.c:28-38 | clears the bits of the range and no other |
| `BitMask.CheckBits` | src/RecorderLib/SIPLib/mvi_malloc.c:58-86 | finds the longest run of free cells, and where it is |
| `BitMask.FindBits` | src/RecorderLib/SIPLib/mvi_malloc.c:91-146 | finds the smallest maximal run that is large enough, and of those as small the first, if and only if there is one |
| `BitMask.RunEndingAt` | src/RecorderLib/SIPLib/mvi_malloc.c:91-146 | at a taken cell the bits counted so far are the maximal run that ends there |
| `BitMask.LongestRun` | src/RecorderLib/SIPLib/mvi_malloc.c:58-86 | the longest free run is attained by a maximal run |
| `BitMask.LongestUnique` | src/RecorderLib/SIPLib/mvi_malloc.c:58-86 | there is one longest length |
| `BitMask.RoomUpToLongest` | src/RecorderLib/SIPLib/mvi_malloc.c:189-215 | n cells fit into a block if and only if n is at most its longest free run |
| `BitMask.RoomOrder` | src/RecorderLib/SIPLib/mvi_malloc.c:189-215 | a block with a smaller longest run has room for nothing that one with a larger does not |
| `Blocks.Need` | src/RecorderLib/SIPLib/mvi_malloc.c:189-196 | the cells of a request hold its bytes, the header and more than four bytes, and are the fewest that do |
| `Blocks.ChunksDisjoint` | src/RecorderLib/SIPLib/mvi_malloc.c:198-226 | two chunks of a block are disjoint ranges of cells that are marked in its mask |
| `Blocks.Carve` | src/RecorderLib/SIPLib/mvi_malloc.c:198-226 | a chunk carved from free cells joins the others; the cells were zero, so it starts with nothing used and no successor |
| `Blocks.Release` | src/RecorderLib/SIPLib/mvi_malloc.c:242-277 | after zeroing and unmarking the cells of a chunk the others are as they were and all free cells are zero |
| `Blocks.Block.TakeRun` | src/RecorderLib/SIPLib/mvi_malloc.c:198-226 | the same, in the block |
| `Blocks.Block.ReleaseRun` | src/RecorderLib/SIPLib/mvi_malloc.c:242-277 | the same, in the block; the bytes of other chunks do not change |
| `FreeBuffers.FreeBuffers.constructor` | src/RecorderLib/SIPLib/mvi_malloc.c:155-163 | a new allocator is well formed and nothing is handed out |
| `FreeBuffers.FreeBuffers.PushFront` | src/RecorderLib/SIPLib/mvi_malloc.c:231-236 | a block that is in no list goes to the front of one; lists, back links and counts stay right |
| `FreeBuffers.FreeBuffers.Unlink` | src/RecorderLib/SIPLib/mvi_malloc.c:255-260 | a block leaves its list, wherever it stands in it; lists, back links and counts stay right |
| `FreeBuffers.FreeBuffers.PopFront` | src/RecorderLib/SIPLib/mvi_malloc.c:204-209 | the first block of a list leaves it |
| `FreeBuffers.FreeBuffers.HeadOfList` | src/RecorderLib/SIPLib/mvi_malloc.c:203-211 | the list of a filed block is not empty |
| `FreeBuffers.FreeBuffers.InItsList` | src/RecorderLib/SIPLib/mvi_malloc.c:203-211 | every filed block is reached from the head of the list of its longest run |
| `FreeBuffers.FreeBuffers.PopFit` | src/RecorderLib/SIPLib/mvi_malloc.c:203-211 | the block taken is one with the smallest sufficient longest run; none is found if and only if none has room |
| `FreeBuffers.FreeBuffers.Add` | src/RecorderLib/SIPLib/mvi_malloc.c:168-185 | new blocks come only when the last list is empty, the limit is not reached and memory is given, and are all filed in that list |
| `FreeBuffers.FreeBuffers.Find` | src/RecorderLib/SIPLib/mvi_malloc.c:198-216 | fails if and only if no block has room and none can be added; a block with room is found before any is added |
| `FreeBuffers.FreeBuffers.Cut` | src/RecorderLib/SIPLib/mvi_malloc.c:219-226 | a list hit makes the search in the block succeed: a new chunk is carved from its smallest adequate run |
| `FreeBuffers.FreeBuffers.Get` | src/RecorderLib/SIPLib/mvi_malloc.c:189-238 | a request gets a new chunk, with nothing used and no successor, disjoint from all others, which keep their bytes; it is the smallest adequate run of a block with the smallest adequate room; it fails exactly when the allocator is exhausted |
| `FreeBuffers.FreeBuffers.FreeChunk` | src/RecorderLib/SIPLib/mvi_malloc.c:251-277 | exactly this chunk is given back; all others keep their headers and bytes |
| `FreeBuffers.FreeBuffers.Free` | src/RecorderLib/SIPLib/mvi_malloc.c:242-277 | exactly the chunks of a chain are given back; all others keep their headers and bytes |
| `FreeBuffers.FreeBuffers.LinkAfter` | src/RecorderLib/SIPLib/mvi_malloc.c:362-375 | a fresh chunk is linked behind the last of a chain |
| `FreeBuffers.FreeBuffers.ChunksApart` | src/RecorderLib/SIPLib/mvi_malloc.c:198-226 | two live chunks of a block occupy disjoint cells |
| `FreeBuffers.FreeBuffers.TekInside` | src/RecorderLib/SIPLib/mvi_malloc.c:293-299 | the cursor of a live chunk is within its payload |
| `Arenas.Arena.Scan` | src/RecorderLib/SIPLib/mvi_malloc.c:362-375 | finds the first chunk of the chain in which the bytes fit, or its end |
| `Arenas.Arena.Find` | src/RecorderLib/SIPLib/mvi_malloc.c:362-375 | the first chunk that fits is used, and a new one is added at the end only when none does |
| `Arenas.Arena.MallocChar` | src/RecorderLib/SIPLib/mvi_malloc.c:282-304 | a copy of the string and its zero byte, in a new piece inside its chunk and apart from all earlier pieces, which keep their bytes; the answer says exactly when it fails, and then nothing is handed out |
| `Arenas.Arena.MallocCharExp` | src/RecorderLib/SIPLib/mvi_malloc.c:307-331 | the same, with more room reserved in a first chunk; what must fit in a later one is the string alone |
| `Arenas.Arena.MallocVoid` | src/RecorderLib/SIPLib/mvi_malloc.c:336-359 | a piece of the length asked for, at an address divisible by four, inside its chunk and apart from all earlier pieces, which keep their bytes |
| `Arenas.Arena.Release` | src/RecorderLib/SIPLib/mvi_malloc.c:242-277 | the whole chain is given back, and nothing else |
| `BasicOps.Add` | src/RecorderLib/g722/operg722.c:196-206 | 16-bit addition is exact and then clamped |
| `BasicOps.Sub` | src/RecorderLib/g722/operg722.c:245-255 | 16-bit subtraction is exact and then clamped |
| `BasicOps.Negate` | src/RecorderLib/g722/operg722.c:482-489 | negation is exact except that the smallest number becomes the largest |
| `BasicOps.ShiftMeaning` | src/RecorderLib/g722/operg722.c:295-391 | a left shift by any count but -32768 multiplies by a power of two and clamps, or for a negative count divides by one and rounds down, and the right shift is its mirror |
| `BasicOps.Mult` | src/RecorderLib/g722/operg722.c:431-448 | a product is the floor of a*b/32768, except that -32768 squared is clamped |
| `BasicOps.LAdd` | src/RecorderLib/g722/operg722.c:526-542 | 32-bit addition is exact and then clamped |
| `BasicOps.LSub` | src/RecorderLib/g722/operg722.c:855-874 | 32-bit subtraction is exact and then clamped |
| `BasicOps.LShl` | src/RecorderLib/g722/operg722.c:581-681 | the loop that doubles and leaves on overflow computes the clamped product with a power of two; for a count that is not positive the quotient, rounded down |
| `Adpcm.Quantl` | src/RecorderLib/g722/funcg722.c:547-611 | the search through the decision levels gives the code defined by them |
| `Adpcm.Logscl` | src/RecorderLib/g722/funcg722.c:1133-1164 | the low band's logarithmic scale factor stays within 0 and 18432 |
| `Adpcm.Logsch` | src/RecorderLib/g722/funcg722.c:1079-1109 | the high band's logarithmic scale factor stays within 0 and 22528 |
| `Adpcm.Scalel` | src/RecorderLib/g722/funcg722.c:1239-1247 | the table index is within the table, up to 352, and the scale factor is between 8 and 16384 |
| `Adpcm.Scaleh` | src/RecorderLib/g722/funcg722.c:1271-1279 | the table index is within the table and the scale factor is between 8 and 16384 |
| `Adpcm.FirstScale` | src/RecorderLib/g722/g722.c:47-68 | the scale factors of a reset coder are those of its logarithmic ones |
| `Adpcm.Pole2` | src/RecorderLib/g722/funcg722.c:1374-1422 | the second pole coefficient stays within 12288 |
| `Adpcm.Pole1` | src/RecorderLib/g722/funcg722.c:1303-1350 | with that the first stays within 15360 less the second |
| `Adpcm.CodeTable` | src/RecorderLib/g722/funcg722.c:784-819 | the six-bit tables give back the interval and the sign of every code |
| `Adpcm.CodeTable5` | src/RecorderLib/g722/funcg722.c:843-959 | so do the five-bit tables, for intervals in pairs |
| `Adpcm.CodeTable4` | src/RecorderLib/g722/funcg722.c:784-819 | so do the four-bit tables, for intervals in fours |
| `Adpcm.LevelOrder` | src/RecorderLib/g722/funcg722.c:547-611 | each output level lies between the decision levels of its interval |
| `Adpcm.ScaledBetween` | src/RecorderLib/g722/funcg722.c:547-611 | levels in order stay so when they are scaled, for either sign |
| `Scales.Middles4` | src/RecorderLib/g722/funcg722.c:784-819 | with four bits every output level is the decision level in the middle of the cells it stands for |
| `Scales.Middles5` | src/RecorderLib/g722/funcg722.c:843-899 | so it is with five bits |
| `Scales.Middles6` | src/RecorderLib/g722/funcg722.c:903-959 | with six it is the middle of its cell, to the next whole number |
| `Scales.Middle2` | src/RecorderLib/g722/funcg722.c:654-670 | the decision level of the high band is the middle of its two output levels |
| `ScaleTable.TableDoubles` | src/RecorderLib/g722/funcg722.c:1239-1279 | in the whole table an entry and the one 32 further on stand for a number and its double |
| `Scales.ScaleDoubles` | src/RecorderLib/g722/funcg722.c:1239-1279 | when the logarithm goes up by 2048 the scale factor of either band doubles, or becomes the next multiple of four |
| `Scales.LowScaleMoves` | src/RecorderLib/g722/funcg722.c:1133-1164 | the logarithm of the low band leaks by a 128th and moves by the weight of the level, whatever the sign of the difference |
| `Scales.Louder` | src/RecorderLib/g722/funcg722.c:1133-1164 | so a greater difference never leaves a smaller scale factor than a lesser one of either sign |
| `Scales.HighScaleMoves` | src/RecorderLib/g722/funcg722.c:1079-1109 | the logarithm of the high band falls after a difference below the decision level and rises after another |
| `Scales.ZeroCoefficientMoves` | src/RecorderLib/g722/funcg722.c:1447-1486 | a zero coefficient is, in exact numbers, its old value less a 256th and 128 towards the sign of the correlation, and stays without a difference but for the leak |
| `Scales.Pole1Moves` | src/RecorderLib/g722/funcg722.c:1303-1350 | the first pole coefficient is its old value less a 256th and 192 towards the sign of the correlation, held in the triangle of stability |
| `Scales.Pole2Moves` | src/RecorderLib/g722/funcg722.c:1374-1422 | the second is its old value less a 128th, 128 towards the sign of its correlation and a 32nd of the first against the sign of the other, held within its bound |
| `Scales.PolesSum` | src/RecorderLib/g722/funcg722.c:695-717 | as long as nothing leaves 16 bits the pole section is the sum of the two doubled products, rounded |
| `Scales.ZerosSum` | src/RecorderLib/g722/funcg722.c:741-760 | and the zero section the sum of its six |
| `Scales.AdaptMoves` | src/RecorderLib/g722/funcg722.c:129-156 | a difference goes into all delay lines, the coefficients adapt to it, and the next prediction is the sum of the new sections |
| `SubBands.UpZero` | src/RecorderLib/g722/funcg722.c:1447-1486 | the loop updates all six zero coefficients as the definition says and moves the delay line |
| `SubBands.UpPol1` | src/RecorderLib/g722/funcg722.c:1303-1350 | updates the first pole coefficient as the definition says and moves the delay line |
| `SubBands.UpPol2` | src/RecorderLib/g722/funcg722.c:1374-1422 | updates the second pole coefficient as the definition says |
| `SubBands.FiltEz` | src/RecorderLib/g722/funcg722.c:741-760 | the loop sums the zero section |
| `SubBands.FiltEp` | src/RecorderLib/g722/funcg722.c:695-717 | moves the delay line and sums the pole section |
| `SubBands.SubBand.LsbCod` | src/RecorderLib/g722/funcg722.c:82-156 | codes the difference to the prediction, and takes the state to the next as the code says |
| `SubBands.SubBand.HsbCod` | src/RecorderLib/g722/funcg722.c:201-276 | the same for the high band |
| `SubBands.SubBand.LsbDec` | src/RecorderLib/g722/funcg722.c:321-398 | decodes in any mode, and takes the state to the next as the code without its two low bits says |
| `SubBands.SubBand.HsbDec` | src/RecorderLib/g722/funcg722.c:441-513 | the same for the high band |
| `Qmf.ConvBound` | src/RecorderLib/g722/funcg722.c:1522-1574 | every partial sum of a filter branch is bounded by its coefficients, for any delay line |
| `Qmf.NoOverflow` | src/RecorderLib/g722/funcg722.c:1522-1574 | so no partial sum leaves 32 bits |
| `Qmf.ExactStep` | src/RecorderLib/g722/funcg722.c:1522-1574 | so each accumulation is exact |
| `Qmf.Narrow` | src/RecorderLib/g722/funcg722.c:1522-1574 | so sum, difference and doubling do not saturate, and narrowing is a floor followed by the final clamp |
| `Qmf.Accumulate` | src/RecorderLib/g722/funcg722.c:1522-1574 | the loop computes both branches of the integer convolution exactly |
| `Qmf.QmfTx` | src/RecorderLib/g722/funcg722.c:1522-1574 | the transmit filter is the exact integer convolution, floored and clamped, and moves the delay line by two |
| `Qmf.QmfRx` | src/RecorderLib/g722/funcg722.c:1599-1649 | the receive filter computes both output samples from the delay line and moves it by two |
| `QmfMeaning.EvenOfOdd` | src/RecorderLib/g722/funcg722.c:1522-1649 | the even taps of the receive filter, on what the odd taps of the transmit filter give, have one fixed response to the signal |
| `QmfMeaning.OddOfEven` | src/RecorderLib/g722/funcg722.c:1522-1649 | and the odd taps on what the even ones give have the same response, one sample later: nothing of the other half of the spectrum is left |
| `QmfMeaning.NearlyDelay` | src/RecorderLib/g722/funcg722.c:1522-1649 | this response is a delay of 23 samples, and all the rest of it is less than a 400th |
| `QmfMeaning.EvenOut` | src/RecorderLib/g722/funcg722.c:1522-1649 | with all rounding and limiting in both filters, the first sample that comes out is the one of 22 samples ago to within a 400th of the loudest and 8 |
| `QmfMeaning.OddOut` | src/RecorderLib/g722/funcg722.c:1522-1649 | and so is the second |
| `Lockstep.ResetIsGood` | src/RecorderLib/g722/g722.c:47-68 | a reset coder satisfies the invariant |
| `Lockstep.ZeroCoefficientFits` | src/RecorderLib/g722/funcg722.c:1447-1486 | a zero coefficient within 32513 stays so and its update is never clipped |
| `Lockstep.AdaptKeepsStable` | src/RecorderLib/g722/funcg722.c:1303-1486 | adaptation keeps the poles in their stability region and the zero coefficients within their bound |
| `Lockstep.LowCodeRange` | src/RecorderLib/g722/funcg722.c:547-611 | the codes 0 to 3 are never sent |
| `Lockstep.LowBitsIgnored` | src/RecorderLib/g722/funcg722.c:129-142 | the state of the low band does not depend on the two low bits of the code |
| `Lockstep.StepKeepsGood` | src/RecorderLib/g722/funcg722.c:1079-1486 | one sample keeps the invariant: scale factors in range and consistent, poles stable, zero coefficients bounded |
| `Lockstep.AlwaysGood` | src/RecorderLib/g722/g722.c:95-118 | over any run from a good state every state satisfies the invariant |
| `Lockstep.InLockstep` | src/RecorderLib/g722/g722.c:95-118 | coders that start equal are equal after every sample of any run, however the two low bits of each octet are changed on the way |
| `Lockstep.SixBits` | src/RecorderLib/g722/funcg722.c:547-611 | what is decoded in six bits lies in the same decision interval, on the same side of zero, as the difference that was coded |
| `Lockstep.FiveBits` | src/RecorderLib/g722/funcg722.c:843-959 | what is decoded in five bits lies in the same pair of intervals |
| `Lockstep.FourBits` | src/RecorderLib/g722/funcg722.c:843-959 | what is decoded in four bits lies in the same four intervals, or is zero for a difference below the second decision level |
| `Lockstep.TwoBits` | src/RecorderLib/g722/funcg722.c:654-670 | what the two bits of the high band are decoded to has the sign of the difference that was coded, and is on the same side of the decision level |
| `Lockstep.Faithful` | src/RecorderLib/g722/funcg722.c:321-398 | over any run, with all bits received, each decoded difference lies in the interval of the coded one |
| `Lockstep.FaithfulInFive` | src/RecorderLib/g722/funcg722.c:321-398 | over any run, with the lowest bit overwritten, in the same pair of intervals |
| `Lockstep.FaithfulInFour` | src/RecorderLib/g722/funcg722.c:321-398 | over any run, with both low bits overwritten, in the same four intervals |
| `Lockstep.FaithfulHigh` | src/RecorderLib/g722/funcg722.c:441-513 | over any run, whatever happens to the two low bits of each octet, this holds for every decoded difference of the high band |
| `Lockstep.CodeInOctet` | src/RecorderLib/g722/g722.c:95-118 | an octet holds the low code in six bits and the high code in two |
| `G722.Codec.ResetEncoder` | src/RecorderLib/g722/g722.c:47-68 | the encoder's state is the reset state |
| `G722.Codec.ResetDecoder` | src/RecorderLib/g722/g722.c:126-147 | the decoder's state is the same reset state |
| `G722.Codec.Encode` | src/RecorderLib/g722/g722.c:72-122 | a run writes one octet for two samples, each the code of the sub-band samples in the state left by those before, and leaves the last state |
| `G722.Codec.Decode` | src/RecorderLib/g722/g722.c:151-193 | a run decodes each octet in the state left by those before, in any mode, and writes the two samples that the receive filter makes of it |
| `G722.NextSent` | src/RecorderLib/g722/g722.c:95-118 | one more sample pair extends the run |
| `G722.NextPlayed` | src/RecorderLib/g722/g722.c:167-189 | one more decoded pair extends what is played |
| `G722.NearlyGivenBack` | src/RecorderLib/g722/g722.c:72-193 | for every signal up to 20000: split into its bands and played again, with nothing in between, it comes out 22 samples later to within a 400th of its loudest sample and 8 |
| `G722.EndToEnd` | src/RecorderLib/g722/g722.c:72-193 | from the reset state on, encoder and decoder are in the same state before and after every octet, a good one, when no more than the two low bits of each have been changed on the way; what is decoded is what that state makes of the octet that came |
| `G722.Transmit` | src/RecorderLib/g722/g722.c:47-193 | a reset encoder, a line that does anything to the two low bits of each octet and a reset decoder, on objects: the two go through the same states, and what is put out is what the receive filter makes of the octets that came |
| `Chains.Filed` | src/RecorderLib/SIPLib/mvi_binary_tree.c:187-200 | a record that comes into its chain stands right behind the head; the chains hold exactly the records of the table, each under its hash and once |
| `Chains.Dropped` | src/RecorderLib/SIPLib/mvi_binary_tree.c:258-304 | so they do when a record has left its chain |
| `SipRecords.StoryStarts` | src/RecorderLib/SIPLib/sip_worker_parse.c:189-207 | a call starts its story |
| `SipRecords.StoryEnds` | src/RecorderLib/SIPLib/tbl_sip_hash_tables.c:596-612 | the end of a call, told once, ends it |
| `SipRecords.StoryOfSide` | src/RecorderLib/SIPLib/sip_worker_parse.c:261-275 | telling of a side as new the first time and as updated later keeps the story right |
| `SipRecords.Rebind` | src/RecorderLib/SIPLib/sip_worker_parse.c:194-203 | binding a session anew changes the number of references of a registration by just that session's |
| `SipRecords.Enter` | src/RecorderLib/SIPLib/tbl_sip_hash_tables.c:386-470 | a session that enters the table adds its references |
| `SipRecords.Leave` | src/RecorderLib/SIPLib/tbl_sip_hash_tables.c:629-670 | a session that leaves the table takes its references with it |
| `SipTables.Take` | src/RecorderLib/SIPLib/tbl_sip_tables.c:122-140 | a slot taken from a pool was free, and pool and table still are all the slots |
| `SipTables.Give` | src/RecorderLib/SIPLib/tbl_sip_tables.c:142-151 | a slot given back was in the table, and pool and table still are all the slots |
| `SipTables.SipTables.constructor` | src/RecorderLib/SIPLib/tbl_sip_hash_tables.c:14-26 | empty tables satisfy the invariant |
| `SipTables.SipTables.SearchRegistry` | src/RecorderLib/SIPLib/tbl_sip_hash_tables.c:213-292 | a registration with the name is found if there is one, counted once more and brought up to date by the message, which leaves in the status what it may leave; nothing else changes |
| `SipTables.SipTables.InsertRegistry` | src/RecorderLib/SIPLib/tbl_sip_hash_tables.c:38-210 | a new registration, of a name that is not in the table, enters it behind the head of its chain, in hand of its maker; without a slot, or if its strings do not fit, nothing changes |
| `SipTables.SipTables.FreeRegistry` | src/RecorderLib/SIPLib/tbl_sip_hash_tables.c:309-321 | a registration let go of is counted once less |
| `SipTables.SipTables.SearchSession` | src/RecorderLib/SIPLib/tbl_sip_hash_tables.c:474-551 | the session found is the first of its chain whose call-id begins with the wanted one; it hears the message and advances, by the law that TurnedBy and SoundsOf state, and no other changes |
| `SipTables.SipTables.InsertSession` | src/RecorderLib/SIPLib/tbl_sip_hash_tables.c:369-470 | a new call, of a call-id that is not in the table, enters it; without a slot, or if its strings do not fit, nothing changes |
| `SipTables.SipTables.FreeSession` | src/RecorderLib/SIPLib/tbl_sip_hash_tables.c:555-571 | the end of a call is told when a session that has ended is let go of for the first time |
| `SipTables.SipTables.Refer` | src/RecorderLib/SIPLib/sip_worker_parse.c:194-203 | the reference in hand becomes the session's own; the counts stay right |
| `SipTables.SipTables.BindRegistries` | src/RecorderLib/SIPLib/sip_worker_parse.c:194-203 | a session without registrations is bound to those of both names, each to the one in the table or to none if there is none; these are counted and brought up to date once for each reference, and no other changes; a session that has registrations keeps them |
| `SipTables.SipTables.Announce` | src/RecorderLib/SIPLib/sip_worker_parse.c:204-207 | the start of a call is told once, before anything else |
| `SipTables.SipTables.TellSide` | src/RecorderLib/SIPLib/sip_worker_parse.c:261-275 | a side whose audio changed is told of, as new the first time |
| `SipTables.SipTables.ObtainRegistry` | src/RecorderLib/SIPLib/sip_worker_parse.c:172-177 | the registration with the name is brought up to date and in hand, whatever status that leaves, or else a new one, if there is room and its strings fit, or else nothing changes |
| `SipTables.SipTables.CheckRegistry` | src/RecorderLib/SIPLib/sip_worker_parse.c:120-178 | works out whom a message is about, if anyone; that user's registration is in hand afterwards, brought up to date or new, and no other changes |
| `SipTables.SipTables.ServeRegistry` | src/RecorderLib/SIPLib/sip_worker_parse.c:252-280 | a message about a registration brings up to date or makes just that one, and lets go of it; the status is what that has left |
| `SipTables.SipTables.CheckActiveSession` | src/RecorderLib/SIPLib/sip_worker_parse.c:182-236 | the session the message belongs to is in hand, its start told and, for an INVITE, its registrations bound; there is none, and then nothing changes, if and only if the message does not go to sessions or there is none for it and none can begin |
| `SipTables.SipTables.Conclude` | src/RecorderLib/SIPLib/sip_worker_parse.c:261-277 | the sides are told of, and then, if the call has ended, its end |
| `SipTables.SipTables.Worker` | src/RecorderLib/SIPLib/sip_worker_parse.c:240-283 | every message keeps the invariant of all tables; it serves the one registration it is about, or else changes the one session it belongs to, and only the registrations that it binds this session to, or else changes nothing; a session is reached exactly when the message goes to sessions and there is one for it or one can begin. By the status and the last method of the session and the method of the message: it is over after a BYE, after an ACK that no 200 has gone before, or when it was and is not invited again; it is on after an ACK to a 200; its end is told if and only if it is over and that had not been told; the sound of the sender, and no other, moves, and is told of, as new the first time |
| `SipTables.SipTables.ServeSession` | src/RecorderLib/SIPLib/sip_worker_parse.c:182-277 | the same for a message that is about no registration |
| `SipTables.SipTables.TurnedBy` | src/RecorderLib/SIPLib/tbl_sip_hash_tables.c:511-548 | the status that a message leaves, if and only if, for each of the three, and when the call was connected |
| `SipTables.SipTables.SoundsOf` | src/RecorderLib/SIPLib/tbl_sip_hash_tables.c:511-530 | only the side that sends the message may get new sound, from where the message says; the other side stays |
| `SipTables.SipTables.ToldBy` | src/RecorderLib/SIPLib/sip_worker_parse.c:261-277 | the end is told if and only if the call is over and it had not been told, and sound, as new or as updated, if and only if it has moved |
| `SipTables.SipTables.OpenedBy` | src/RecorderLib/SIPLib/tbl_sip_hash_tables.c:369-470 | what a new call is like and all that has been told of it |
| `SipCalls.SetUp` | src/RecorderLib/SIPLib/sip_worker_parse.c:240-283 | INVITE, an answer and ACK, one after the other: after an answer of the 200s the call is on and its end untold, after any other it is over and its end told |
| `SipCalls.HangUp` | src/RecorderLib/SIPLib/sip_worker_parse.c:240-283 | and a BYE ends it |
| `SipCalls.LastsAfter` | src/RecorderLib/SIPLib/tbl_sip_tables.c:262-290 | a sweep lets a call be, by its last message, as long as it is on, or for 60 seconds when it has started only |
| `SipCalls.DueAfter` | src/RecorderLib/SIPLib/tbl_sip_hash_tables.c:213-292 | when a registration that a message was about is due: never after a REGISTER, at once after a 200 that lets it expire, otherwise when the time granted and 20 seconds are past since |
| `SipCalls.DueWhenNew` | src/RecorderLib/SIPLib/tbl_sip_hash_tables.c:38-210 | the same for one that the message has made |
| `SipTables.SipTables.Unreferenced` | src/RecorderLib/SIPLib/tbl_sip_hash_tables.c:345-359 | a registration without sessions can leave the table and every count stays right |
| `SipTables.SipTables.DeleteRegistry` | src/RecorderLib/SIPLib/tbl_sip_hash_tables.c:296-306 | deletes the head of the chain of the registration that is meant, whichever that is, if nobody refers to the head, and otherwise nothing; the next in the chain becomes its head |
| `SipTables.SipTables.DeleteSession` | src/RecorderLib/SIPLib/tbl_sip_hash_tables.c:596-612 | a session is deleted after the end of its call has been told, and its registrations are let go of |
| `SipTables.SipTables.HdSession` | src/RecorderLib/SIPLib/tbl_sip_hash_tables.c:629-670 | the session leaves the table, its references are given back and its slot is free |
| `SipTables.SipTables.CloseSession` | src/RecorderLib/SIPLib/tbl_sip_hash_tables.c:616-625 | the first session of the chain whose call-id begins the key is deleted at once, without a word: its end has been heard, once, if and only if it had been told before; nothing changes if there is none |
| `SipTables.SipTables.ClosedUntold` | src/RecorderLib/SIPLib/tbl_sip_hash_tables.c:616-670 | a call that has just begun, and is in no hand any more, has told its start and not its end, so closing it leaves its end untold |
| `SipTables.SipTables.UsageIsTable` | src/RecorderLib/SIPLib/tbl_sip_tables.c:298-303 | the slots in use of each pool are the records in its table |
| `SipTables.SipTables.SweepOne` | src/RecorderLib/SIPLib/tbl_sip_tables.c:262-290 | a session stays only if it rings on, or has started and is not too old; others are deleted with the end of the call told |
| `SipTables.SipTables.Reglament` | src/RecorderLib/SIPLib/tbl_sip_tables.c:250-295 | one sweep, in spite of leaving early, deletes exactly the stopped sessions and the started ones that are too old, and changes no other |
| `SipTables.SipTables.UserReglament` | src/RecorderLib/SIPLib/tbl_sip_tables.c:56-90 | one sweep of the registrations, in spite of leaving early, makes of records and chains what visiting every one in turn makes of them, with deletions that take heads and the second deletion of a visit that falls through |
| `SipTables.SipTables.ReferredTo` | src/RecorderLib/SIPLib/tbl_sip_hash_tables.c:345-359 | whatever a session refers to is in the table and counted, so it is not in its pool |
| `SipTables.SipTables.WholeStory` | src/RecorderLib/SIPLib/sip_worker_parse.c:189-207 | over every run, the events of each finished call are right: one start, first of all; one end, if and only if the call was not closed by force or its end had been told before, and else none; each side new at most once and before its updates |
| `SipSweep.VictimIsHead` | src/RecorderLib/SIPLib/tbl_sip_hash_tables.c:345-359 | a deletion takes the head of a chain if and only if nobody refers to that; so it takes the registration that is meant if and only if this is the head and nobody refers to it |
| `SipSweep.DeletedSound` | src/RecorderLib/SIPLib/mvi_binary_tree.c:258-291 | after a deletion the chain has lost its head and no other chain has changed |
| `SipSweep.VisitExact` | src/RecorderLib/SIPLib/tbl_sip_tables.c:69-86 | a visit deletes a registration that is due if and only if this is the head of its chain, or comes second behind one that nobody refers to and is both over and past its time |
| `SipSweep.ShedSwept` | src/RecorderLib/SIPLib/tbl_sip_tables.c:69-88 | from any visit of a sweep to any later one nothing is renamed and no count changes, only registrations that nobody refers to are gone, and each chain has lost nothing but its front |
| `SipSweep.ChainKept` | src/RecorderLib/SIPLib/tbl_sip_tables.c:69-88 | a chain loses something only to a visit to one of its registrations that is due |
| `SipSweep.HeadGoes` | src/RecorderLib/SIPLib/tbl_sip_tables.c:69-88 | a registration that is due and heads its chain does not survive a sweep |
| `SipSweep.BehindOneInUse` | src/RecorderLib/SIPLib/tbl_sip_hash_tables.c:345-359 | a registration that stands behind one that somebody refers to survives every sweep, due or not |
| `SipSweep.GoneExact` | src/RecorderLib/SIPLib/tbl_sip_tables.c:56-90 | a sweep takes from the front of a chain exactly as many as the steps that its due registrations stand for, counted on the chain and the records as they were before the sweep |
| `SipSweep.SweepExact` | src/RecorderLib/SIPLib/tbl_sip_tables.c:56-90 | for all tables: a registration, due or not, is gone after a sweep if and only if it is among the first of its chain, as many as that count |
| `SipSweep.OnlyDueExact` | src/RecorderLib/SIPLib/tbl_sip_tables.c:56-90 | the only registration of its chain that is due goes in a sweep if and only if it is the head, or comes second behind one that nobody refers to and is both over and past its time |
| `SipSweep.NoneDue` | src/RecorderLib/SIPLib/tbl_sip_tables.c:56-90 | without a registration that is due a chain keeps all it has |
| `SipSweep.WrongOneGoes` | src/RecorderLib/SIPLib/tbl_sip_tables.c:56-90 | two registrations with one hash, of which the second is due: the sweep deletes the first, which is not due, and leaves the second |
| `CircularBuffer.LastOfLast` | src/RecorderLib/IRCircularBuffer.cpp:35-92 | keeping the newest n after each of two additions keeps the newest n of all |
| `CircularBuffer.RunOfAdditions` | src/RecorderLib/IRCircularBuffer.cpp:35-92 | so after any run of additions the ring holds the newest of all that was ever added |
| `CircularBuffer.ViewExtended` | src/RecorderLib/IRCircularBuffer.cpp:66-91 | bytes written at the put pointer extend the contents, at any wrap position |
| `CircularBuffer.ViewShortened` | src/RecorderLib/IRCircularBuffer.cpp:128-157 | moving the get pointer takes bytes from the front and does not move the put pointer |
| `CircularBuffer.CircularBuffer.constructor` | src/RecorderLib/IRCircularBuffer.cpp:8-28 | a new ring is empty |
| `CircularBuffer.CircularBuffer.AddData` | src/RecorderLib/IRCircularBuffer.cpp:35-92 | the contents become the last bytes of what was there and what came, as many as the ring has, for any length |
| `CircularBuffer.CircularBuffer.GetData` | src/RecorderLib/IRCircularBuffer.cpp:94-158 | the destination gets the front of the contents and nothing beyond; the same front is removed unless it is a peek; asked for nothing it says how much there is |
| `CircularBuffer.CircularBuffer.SetBufferLength` | src/RecorderLib/IRCircularBuffer.cpp:165-204 | an empty ring gets a new length and stays empty |
| `StreamMixer.MixCommutes` | src/RecorderLib/StreamMixer.cpp:164-188 | which of two samples was in the mixed buffer makes no difference |
| `MixMeaning.BlendLeaves` | src/RecorderLib/StreamMixer.cpp:164-188 | what a blend leaves of 65535 is the product of what both samples leave, divided by 65535, to within one rounding |
| `MixMeaning.BlendBetween` | src/RecorderLib/StreamMixer.cpp:164-188 | samples from 0 to 65535 blend to no less than either and no more than 65535 |
| `MixMeaning.BlendOpposite` | src/RecorderLib/StreamMixer.cpp:164-188 | samples of opposite sign are added and no more than 16384 is given back |
| `MixMeaning.SilenceMixed` | src/RecorderLib/StreamMixer.cpp:164-188 | mixing a mu-law byte with silence leaves it, but for the second code of zero |
| `MixMeaning.MuLawMix` | src/RecorderLib/StreamMixer.cpp:164-188 | decoded, a mu-law mix is the blend of the decoded samples to within a 32nd of its biased magnitude, and the loudest sample there is beyond the range of the code |
| `MixMeaning.ALawMix` | src/RecorderLib/StreamMixer.cpp:164-188 | an A-law mix is the blend to within half a step, and 7 more below zero |
| `StreamMixer.MixPcmBuffers` | src/RecorderLib/StreamMixer.cpp:164-188 | the loop mixes the first bytes sample by sample and leaves the rest |
| `StreamMixer.StreamMixer.CreateInput` | src/RecorderLib/StreamMixer.cpp:102-110 | a new empty input joins the others |
| `StreamMixer.StreamMixer.IsAllStreamsProcessed` | src/RecorderLib/StreamMixer.cpp:190-201 | says whether every input is marked |
| `StreamMixer.StreamMixer.SetAllStreamsProcessed` | src/RecorderLib/StreamMixer.cpp:203-211 | marks or unmarks every input |
| `StreamMixer.StreamMixer.FindMin` | src/RecorderLib/StreamMixer.cpp:232-259 | finds the least amount of data in any input and the first that has it |
| `StreamMixer.StreamMixer.MixStreams` | src/RecorderLib/StreamMixer.cpp:283-310 | the same number of bytes leaves the front of every input, and the mixed buffer holds their mix |
| `StreamMixer.StreamMixer.Poll` | src/RecorderLib/StreamMixer.cpp:214-319 | nothing happens before every input is marked; then the least amount that any holds is taken from each and as much put out, the mix of these fronts, and all marks are taken back |
| `TerminalAudio.MergedIsTheMix` | src/RecorderLib/TerminalAudio.cpp:329-356 | byte i of the merged audio is the mix of byte i of both sides, whichever was the base |
| `TerminalAudio.NextKeepsAligned` | src/RecorderLib/TerminalAudio.cpp:359-393 | a poll keeps the three outputs equally long and aligned byte by byte, whatever gains are applied and however much old data the rings give up |
| `TerminalAudio.FetchedKeepsAligned` | src/RecorderLib/TerminalAudio.cpp:172-190 | a call for data takes bytes of the same moments from all three outputs and leaves them aligned |
| `TerminalAudio.ApplyGain` | src/RecorderLib/TerminalAudio.cpp:206-265 | only the first bytes change |
| `TerminalAudio.TerminalAudio.constructor` | src/RecorderLib/TerminalAudio.cpp:12-50 | all five rings start empty and nothing is recorded |
| `TerminalAudio.TerminalAudio.MixAndNotify` | src/RecorderLib/TerminalAudio.cpp:329-356 | remote data, with the remote gain, goes to the PBX output, local data, with the local gain, to the phone output, and their mix to the merged one, whichever of the two is in the mixed buffer |
| `TerminalAudio.TerminalAudio.PoolMin` | src/RecorderLib/TerminalAudio.cpp:359-393 | both inputs lose the same front, as much as both have; with the recording on it goes to the outputs |
| `TerminalAudio.TerminalAudio.Poll` | src/RecorderLib/TerminalAudio.cpp:444-458 | nothing happens before both inputs are marked; alignment is kept |
| `TerminalAudio.TerminalAudio.Receive` | src/RecorderLib/StreamMixer.cpp:53-64 | data from one side's mixer goes to its input only |
| `TerminalAudio.TerminalAudio.Flush` | src/RecorderLib/StreamMixer.cpp:66-74 | a flush marks its input and polls, which takes data exactly when the other had been marked |
| `TerminalAudio.TerminalAudio.GetAudioData` | src/RecorderLib/TerminalAudio.cpp:172-190 | with the recording on, each destination gets the front of its output, and all outputs lose as much; otherwise nothing happens |
| `XmlText.CharRead` | src/tinyxml/tinyxmlparser.cpp:438-531 | every character that has been written, plainly, as an entity or as a hexadecimal reference, is read back |
| `XmlText.LegalNameRead` | src/tinyxml/tinyxmlparser.cpp:401-436 | a legal name in front of something else is read |
| `XmlText.NameWritten` | src/tinyxml/tinyxml.cpp:52-133 | a legal name is written unchanged |
| `XmlText.KeptRead` | src/tinyxml/tinyxmlparser.cpp:574-596 | a quoted value without hexadecimal references is read back |
| `XmlText.CondensedRead` | src/tinyxml/tinyxmlparser.cpp:596-637 | a text with single spaces between its words is read back, whatever white space follows it |
| `XmlText.AllPlain` | src/tinyxml/tinyxml.cpp:84-131 | what is written of a string without hexadecimal references holds no angle bracket, no quote and no control character |
| `XmlReferences.NumberExact` | src/tinyxml/tinyxmlparser.cpp:451-500 | digits without a mark among them are read as a number if and only if they spell it, in base 10 or 16, by quotients and remainders, in either case and with any zeros in front |
| `XmlReferences.DecimalRead` | src/tinyxml/tinyxmlparser.cpp:438-531 | a decimal reference, however spelled, is read as the low byte of its number |
| `XmlReferences.HexRead` | src/tinyxml/tinyxmlparser.cpp:438-531 | so is a hexadecimal one |
| `XmlReferences.DecimalExact` | src/tinyxml/tinyxmlparser.cpp:475-500 | and one whose digits spell no number is an error |
| `XmlReferences.HexExact` | src/tinyxml/tinyxmlparser.cpp:451-474 | in either base |
| `XmlSurvival.Shrinks` | src/tinyxml/tinyxmlparser.cpp:574-637 | reading a value or a text gives no more than it takes |
| `XmlSurvival.NeverMore` | src/tinyxml/tinyxml.cpp:52-82 | what is read of a written string is not more than the string, and less if a hexadecimal reference begins in it or, for a text, if its spaces do not stand between words, one at a time |
| `XmlSurvival.ValueSurvives` | src/tinyxml/tinyxml.cpp:52-82 | an attribute's value survives writing and reading if and only if no hexadecimal reference begins in it |
| `XmlSurvival.TextSurvives` | src/tinyxml/tinyxml.cpp:52-133 | a text in front of a tag survives writing and reading if and only if no hexadecimal reference begins in it and its spaces stand between words, one at a time |
| `XmlPrinter.EncodeString` | src/tinyxml/tinyxml.cpp:52-133 | the loop appends the encoded string |
| `XmlPrinter.Printer.PrintOne` | src/tinyxml/tinyxml.cpp:1165-1188 | an attribute is printed with its name and value encoded, in double quotes, or in single quotes if the value holds a double quote |
| `XmlPrinter.Printer.VisitEnter` | src/tinyxml/tinyxml.cpp:1719-1753 | prints the opening tag of an element and remembers whether it holds a single text |
| `XmlPrinter.Printer.VisitExit` | src/tinyxml/tinyxml.cpp:1756-1779 | prints the closing tag of an element that has children |
| `XmlPrinter.Printer.Visit` | src/tinyxml/tinyxml.cpp:1782-1807 | prints a text in the line of its parent or on one of its own |
| `XmlPrinter.Printer.Accept` | src/tinyxml/tinyxml.cpp:831-842 | a walk over a tree appends its printed form, for any indentation and line break, and leaves depth and mode as they were |
| `XmlParser.ReadName` | src/tinyxml/tinyxmlparser.cpp:401-436 | the loop reads the longest name |
| `XmlParser.ReadDigits` | src/tinyxml/tinyxmlparser.cpp:451-500 | the loop from the last digit back computes the number to the right of the mark |
| `XmlParser.GetEntity` | src/tinyxml/tinyxmlparser.cpp:438-531 | reads a reference or one of the five entities, or else drops the ampersand |
| `XmlParser.ReadText` | src/tinyxml/tinyxmlparser.cpp:574-637 | both loops read as defined, with the white space kept or condensed |
| `XmlParser.ParseAttribute` | src/tinyxml/tinyxmlparser.cpp:1390-1461 | reads a name, an equals sign and a value in either quotes or none |
| `XmlParser.ParseText` | src/tinyxml/tinyxmlparser.cpp:1533-1542 | a text ends in front of the next tag; at the end of the input its last character is left |
| `XmlParser.ParseElement` | src/tinyxml/tinyxmlparser.cpp:1043-1076 | reads the tag of an element and what follows |
| `XmlParser.Attributes` | src/tinyxml/tinyxmlparser.cpp:1083-1176 | the loop reads attributes, none twice, up to the end of the tag, and then children and end tag |
| `XmlParser.ReadValue` | src/tinyxml/tinyxmlparser.cpp:1179-1247 | the loop reads texts and elements in any order and drops blank texts |
| `XmlParser.ParseDocument` | src/tinyxml/tinyxmlparser.cpp:747-796 | the loop reads elements until something is no tag |
| `XmlRoundTrip.AttributeRead` | src/tinyxml/tinyxmlparser.cpp:1390-1461 | a printed attribute is parsed back |
| `XmlRoundTrip.AttributeSurvives` | src/tinyxml/tinyxmlparser.cpp:1390-1461 | an attribute survives printing and parsing if and only if no hexadecimal reference begins in its value |
| `XmlRoundTrip.UnquotedRead` | src/tinyxml/tinyxmlparser.cpp:1438-1458 | a value without quotes is read up to white space or the end of the tag |
| `XmlRoundTrip.TagRead` | src/tinyxml/tinyxmlparser.cpp:1083-1176 | any number of printed attributes with different names is parsed back |
| `XmlRoundTrip.ElementRead` | src/tinyxml/tinyxmlparser.cpp:1043-1176 | the printed form of a legal element is parsed back to the same tree and nothing more is taken |
| `XmlRoundTrip.NodesRead` | src/tinyxml/tinyxmlparser.cpp:1179-1247 | the printed forms of its children are parsed back one after the other |
| `XmlRoundTrip.DocumentRoundTrip` | src/tinyxml/tinyxml.cpp:1719-1807 | for every document of legal elements and every layout of white space, streaming or pretty, parsing what has been printed gives the same trees |
| `XmlRoundTrip.TextElementSurvives` | src/tinyxml/tinyxml.cpp:1719-1807 | an element that holds one text, whatever the layout, survives printing and parsing if and only if the text is not blank, no hexadecimal reference begins in it and its spaces stand between words, one at a time |
| `XmlRoundTrip.ElementShaped` | src/tinyxml/tinyxmlparser.cpp:1043-1247 | whatever has been parsed has legal names, each attribute once, and no blank or adjacent texts |
| `XmlRoundTrip.Reparse` | src/tinyxml/tinyxmlparser.cpp:1043-1247 | so whatever has been parsed survives printing and parsing again as long as its strings are clean |
| `XmlEndless.TextAtEnd` | src/tinyxml/tinyxmlparser.cpp:1179-1247 | reading a text that runs into the end of the input never ends if and only if the input does not end in white space |
| `XmlEndless.TextWithoutTag` | src/tinyxml/tinyxmlparser.cpp:1179-1247 | reading any input without a tag never ends if and only if its references can be read and it does not end in white space |
| `XmlEndless.EndlessDocument` | src/tinyxml/tinyxmlparser.cpp:747-796 | the document `<a>b` is never done with |
| `XmlEndless.ElementOver` | src/tinyxml/tinyxmlparser.cpp:1043-1176 | parsing an element always ends when the input ends in white space |
| `XmlEndless.ValueOver` | src/tinyxml/tinyxmlparser.cpp:1179-1247 | so does reading children |
| `XmlEndless.DocumentOver` | src/tinyxml/tinyxmlparser.cpp:747-796 | so does parsing a document, whatever it is like |
| `Crc32.StepsLinear` | src/RecorderLib/SIPLib/mvi_hash_functions.c:13-27 | the division is linear |
| `Crc32.BitsAtOnce` | src/RecorderLib/SIPLib/mvi_hash_functions.c:31-42 | feeding bits one by one is the same as adding them all first |
| `Crc32.TableStep` | src/RecorderLib/SIPLib/mvi_hash_functions.c:31-42 | one look into the table is eight steps of the bit-by-bit division |
| `Crc32.DivideConcat` | src/RecorderLib/SIPLib/mvi_hash_functions.c:31-42 | dividing a concatenation is dividing its parts one after the other |
| `Crc32.DivideInjective` | src/RecorderLib/SIPLib/mvi_hash_functions.c:31-42 | different remainders stay different under the same bytes |
| `Crc32.FourBytes` | src/RecorderLib/SIPLib/mvi_hash_functions.c:31-42 | four bytes leave the same remainder only if they are the same |
| `Crc32.DamageFound` | src/RecorderLib/SIPLib/mvi_hash_functions.c:45-48 | two buffers that differ only within four bytes have different check sums |
| `Crc32.CheckValue` | src/RecorderLib/SIPLib/mvi_hash_functions.c:13-48 | the check sum of the digits 1 to 9 is 0xCBF43926, which identifies CRC-32 |
| `Crc32.Crc.MakeCrcTable` | src/RecorderLib/SIPLib/mvi_hash_functions.c:13-27 | the loops fill the table with the remainders of all bytes |
| `Crc32.Crc.UpdateCrc` | src/RecorderLib/SIPLib/mvi_hash_functions.c:31-42 | with the table made at the first use, the loop is the bit-by-bit division |
| `Crc32.Crc.CRC` | src/RecorderLib/SIPLib/mvi_hash_functions.c:45-48 | the check sum starts with all ones and is complemented |
| `RtpRecorder.NextPortIsNext` | src/RecorderLib/RTPRecorder.cpp:178-180 | the port above has the next number, modulo 65536, where the number of a port is what its two bytes in network order stand for |
| `RtpRecorder.KeyIsUnique` | src/RecorderLib/RTPRecorder.cpp:57-59 | address and port can be told from the key |
| `RtpRecorder.CreatedAgrees` | src/RecorderLib/RTPRecorder.cpp:173-183 | a new session under its two keys keeps index and sessions in agreement |
| `RtpRecorder.DeletedAgrees` | src/RecorderLib/RTPRecorder.cpp:199-202 | taking a session from under its two keys keeps them in agreement |
| `RtpRecorder.DispatchIsScan` | src/RecorderLib/RTPRecorder.cpp:62-82 | the range under a key is, up to order, what a scan of all live sessions for the address and the number of the port, or the one below it, finds, each once |
| `RtpRecorder.Recorder.CreateSession` | src/RecorderLib/RTPRecorder.cpp:156-185 | a new session is entered, unless its id is taken |
| `RtpRecorder.Recorder.DeleteIpFromMap` | src/RecorderLib/RTPRecorder.cpp:209-230 | the loop removes the first entry of the session from under the key |
| `RtpRecorder.Recorder.DeleteSession` | src/RecorderLib/RTPRecorder.cpp:188-206 | exactly this session is removed |
| `RtpRecorder.Recorder.OnSessionModify` | src/RecorderLib/RTPRecorder.cpp:257-273 | the session gets its new destination and stays recorded or not; without it nothing changes |
| `RtpRecorder.Recorder.OnStopSession` | src/RecorderLib/RTPRecorder.cpp:276-281 | exactly this session is removed |
| `RtpRecorder.Recorder.OnUDPPacket` | src/RecorderLib/RTPRecorder.cpp:46-85 | each live session with this address that is being recorded, and whose port number is that of the packet or one less, gets the packet exactly once, and no other gets it |
| `G711.Search` | src/RecorderLib/g711.cpp:81-90 | the loop finds the first segment end that is not below the value |
| `G711.Fields` | src/RecorderLib/g711.cpp:145-166 | segment, quantisation and sign can be read back from a code |
| `G711.ALawRound` | src/RecorderLib/g711.cpp:111-166 | A-law coding and decoding of any integer, in closed form |
| `G711.ULawRound` | src/RecorderLib/g711.cpp:199-253 | mu-law coding and decoding of any integer, in closed form |
| `G711.ALawSurvives` | src/RecorderLib/g711.cpp:111-166 | every A-law byte is the code of what it is decoded to |
| `G711.ULawSurvives` | src/RecorderLib/g711.cpp:199-253 | so is every mu-law byte but the second code of zero |
| `G711.ALawErrorPositive` | src/RecorderLib/g711.cpp:111-166 | for 0 to 32767 the A-law error is at most half a step |
| `G711.ALawErrorNegative` | src/RecorderLib/g711.cpp:111-166 | below zero it is at most half a step and seven if and only if the input is at most -8; from -7 to -1 the result is always -248 |
| `G711.ULawError` | src/RecorderLib/g711.cpp:199-253 | for magnitudes up to 32635, 32 times the mu-law error is at most the magnitude and 132 |
| `G711.ULawMonotone` | src/RecorderLib/g711.cpp:199-253 | mu-law coding and decoding never reverses the order of two integers |

## Left out

- Threads, events, critical sections, pcap capture, sockets, files, registry and settings: each operation is one atomic step; failing to lock is not modelled.
- `binary_tree_print`, `hash_table_search_insert`, `hash_table_get_info` and the tree's height: the first three are not used by the core, and nothing bounds the height.
- Allocation of tree nodes is taken to succeed; `binary_tree_insert` counts the node before it asks for it.
- 32-bit wrap-around of sizes and counts of nodes, cells and bytes is not modelled; hashes, samples, codes and check sums have their own widths.
- The contents of a chunk's header while a payload lies over it in memory are not modelled: headers and payload bytes are kept apart, and that they do not overlap is proved.
- FreeBuffers.FreeBuffers.Get: the block that `find_bits` would lose by failing after it has been taken from its list is not modelled, because that case is proved impossible.
- SipTables.SipTables.InsertRegistry: takes a name that is not in the table; `sip_registry_insert` would file another record under it, but is only called when a search for the name has failed.
- SipTables.SipTables.InsertSession: takes a call-id that is not in the table, as `sip_active_session_insert` is only called when a search has failed, and takes the copy of the call-id to fit into the arena, because `hi_active_session` does not check it; whether the other strings fit is part of the message.
- HashTable.Table.Insert: takes a key that is not in the table and a record that is not in use; `hash_table_insert` would chain the key a second time, but is only called when a search has failed.
- SipTables.SipTables.SearchRegistry: what `malloc_char` and the parsing of addresses leave in the status of a registration that is found is part of the message (`refreshed`).
- BasicOps.ShiftMeaning: leaves out the count -32768, whose negative does not fit into 16 bits, so that `shl` and `shr` would call each other without end; the same holds for `L_shl`.
- `sip_parser.c`: messages come already parsed. Walks over the tables with get_first and get_next, and the branches that only write to a log, are left out.
- Registration events (`func_on_register` and its kin) are left out; the story told is that of calls.
- TerminalAudio.ApplyGain: does not say what a gain and automatic gain control compute: a gain is any function of a buffer and a place in it (`Gain`), and the results hold for all of them.
- CircularBuffer.CircularBuffer.SetBufferLength: takes an empty ring; on one that is not empty the code assigns the two pointers the wrong way round, but its callers only use it on empty rings.
- Polls with an overrun length, and `PoolOverride`: the handlers that would start them are commented out.
- TerminalAudio.TerminalAudio.constructor: the mix buffers are allocated with their final length at once and not reallocated; the class stands alone and does not inherit from the mixer.
- Deleting inputs of a mixer and the list of streams of a terminal: list operations without arithmetic.
- `L_msu0` and the G.722 tables' origin: not used by the codec's core, or data.
- TinyXML's comments, CDATA, declarations and unknown tags (the outcome `Foreign`), UTF-8, keeping of white space in texts, streams, cursor positions and error codes. Nodes are values in sequences; the pointers between siblings, parents and attributes are not modelled.
- XmlParser.ReadValue: comments, CDATA and unknown tags among the children end it with `Foreign`.
- XmlParser.ParseDocument: a byte order mark, declarations, comments and unknown tags end it with `Foreign`.
- XmlRoundTrip.DocumentRoundTrip: for whole trees one direction is stated; the other is stated for a value, a text, an attribute and an element with a text, because a reference in one string can swallow what follows and change what the rest is read from.
- RTP: JRTPLIB, and the accept and ignore lists of the fake transmitter. A multimap is a map to sequences in the order of insertion, and `find` gives the first element of a range.
- RtpRecorder.Recorder.StartRecord and StopRecord: binding a stream to the session in the streamer is left out.
- The tables `alaw2ulaw` and `ulaw2alaw`, the other hash functions, the settings dialog and version information: finite lookups or user interface.
