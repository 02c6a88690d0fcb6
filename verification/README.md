# Verified models of kernel memory managers, an SMMU mapping layer, unifdef and a shared-memory queue

Dafny models of four parts of the repository, with proofs of what each part is for.

* **zsmalloc** (`mm/zsmalloc.c`): the allocator of compressed objects. Modules `Zs*`. Memory is counted in words of
  8 bytes, 512 to a page; every size the allocator uses is a multiple of 16 bytes. `ZsChain` has the page chain of a
  zspage and objects that straddle two pages; `ZsFreeList` and `ZsPage` the free list threaded through free objects;
  `ZsHandles` and `ZsData` the handles; `ZsAccount` and `ZsPoolInv` the fullness lists and counters; `ZsMigrate`,
  `ZsCompact` and `ZsPageMigrate` object migration, compaction and page migration; `ZsClasses` the size classes; `ZsPool`
  the public operations of the pool and `ZsRun` every run of them. The specification is a map from live handle to payload.
* **IOMMU page tables and the fast DMA path** (`drivers/iommu`). `Lpae*` is the LPAE radix page table with the 4K granule
  (translation table descriptors as in section D8.3 of the Arm Architecture Reference Manual, DDI 0487): tables in memory found by
  address, map, unmap, block split, table counts and scatterlist mapping, against a flat map from page to physical
  page. `Fast*` is the fast path: the two-bitmap IOVA allocator with its deferred TLB flush, the page table built in
  advance whose last level is also one flat array, and both together in every run (`FastDma`, `FastSg`, `FastRun`);
  `FastPlace` and `FastCross` say where ranges can lie. `DmaSg*` is the scatterlist rewritten in place and restored. `Words`,
  `DmaSgWords`, `LpaeBits`, `LpaeWords` and `LpaeWordWalk` join the numbers of the models to the 64-bit words of the machine.
* **unifdef** (`scripts/unifdef.c`). `Unifdef`, `UnifdefNest` and `UnifdefProcess` are the state machine;
  `UnifdefExpr`, `UnifdefEval` and `UnifdefIfeval` the expression evaluator; `UnifdefLines` joins them. The specification is
  conditional inclusion, section 6.10.1 of ISO/IEC 9899:1999.
* **SMQ** (`drivers/char/rdbg.c`). `SmqMap`, `SmqHalt` and `SmqBlockMap` are the block map, `SmqRing`, `SmqOwn`, `Smq`,
  `SmqInv` and `SmqRun` the queue as interleaved steps of producer and consumer.

`dafny verify dfyconfig.toml` checks the whole project.

## Where the code does not do what its comments or its purpose say

Each of these is a statement about the model of the code as it stands, with the exact condition under which the property
does hold.

* unifdef cuts integer literals and `-D` values to an `int`, so a verdict can be wrong: with `-k`, the option to evaluate
  constant expressions, `2147483647 < 2147483648` is found false, and without it the same joined by `&&` to a condition on
  a symbol that always holds. For any literals and any symbol table the verdicts on all expressions over these literals
  are right if and only if the cut keeps the order of the literals, the `-D` values, 0 and 1, or no verdict is ever given: with
  `-K`, and without `-k`, `-D` and `-U` (`UnifdefIfeval.SoundIffOrdered`).
* unifdef's comment says that a directive split over several lines is handled only if it does not switch between printing and
  dropping. One entry of the table does switch: an unknown `#elif` after a deleted prefix. It is the only one
  (`UnifdefNest.DodgyKeepsPrinting`, `UnifdefNest.DodgyTurnsPrinting`).
* A request to `smq_blockmap_get` for other than one block may never return. It returns if and only if there is room, or the free
  blocks are one stretch, or nothing is free and `index_read` is at the start of an allocation (`SmqHalt.EndsIff`). A
  message that fills an empty queue makes the next such request hang (`SmqHalt.FullQueueHangs`).
* An LPAE unmap of single pages that are not all mapped can free a last-level table that is still in use: with page 0 alone
  mapped, unmapping page 1 takes the translation of page 0 away (`LpaeFindings.CarelessLoses`). An unmap keeps every other
  translation if and only if not both as many pages of its 2M are mapped as it is to unmap and one of these is not
  (`Lpae.PageTable.UnmapPages`).
* One unmap call for single pages that covers all 512 pages of a block leaves an empty last-level table, and the 2M block
  cannot be mapped there again although nothing is mapped (`LpaeFindings.BlockCannotReturn`). For callers that unmap what is
  mapped, an unmap leaves every last-level table in use if and only if it is not such a call (`Lpae.PageTable.UnmapPages`); page
  by page, the table goes with its last page. Mapping succeeds if and only if the entries are empty and no block stands in
  the way (`Lpae.PageTable.MapPages`); for single pages that is if and only if none is mapped (`Lpae.VacantIff`).
* The page sizes accepted include 1G whatever the level of the root. With a root of level 2 an unmap of 1G takes single
  pages away and reports gigabytes (`LpaeFindings.MoreThanUnmapped`). Where all pages asked for are mapped, exactly the reported
  range is unmapped if and only if the page size is not above the root's level or a block covers the first page
  (`Lpae.PageTable.UnmapPages`). A map of 1G on such a root fails, and leaves an empty last-level table exactly if its
  entry was empty (`Lpae.PageTable.MapPages`). A scatterlist on such a root fails with nothing mapped if
  1G is the page size chosen for its first run, and with -EINVAL only then (`LpaeSg.MapSg`); page by page such a list can be
  mapped on an empty table (`LpaeFindings.GigaRefused`).
* `__zs_compact` counts the pages of a zspage that it emptied as freed although `free_zspage` keeps it when a page lock cannot
  be had. What it reports is what was freed if and only if the locks of every emptied zspage were had
  (`ZsPool.Pool.Compact`).
* The failure path of `fast_smmu_map_page` that gives back an IOVA with `size` instead of `len` is never taken
  (`FastDma.MapPage`).
* The comment in `qcom_iommu_dma_prepare_map_sg` says that an aligned allocation begins on a segment boundary or lies between
  two. That holds of every range the fast allocator may hand out if and only if it holds of the whole mapping: its base is on a
  boundary, or it ends before the next (`FastPlace.PlacedIff`). No scatterlist gets a DMA segment that crosses a boundary if
  and only if the mapping is such, or the device takes no segment of two bytes (`FastCross.CrossesIff`); in any other mapping
  calls from the first one on lead to a segment that crosses (`FastCross.Cross`).
* The length of a scatterlist entry has 32 bits. A list of one entry that takes 4G when aligned gets its IOVA range and its DMA
  segment, and none of its pages is mapped (`FastCross.WideUnmapped`). Every other list that fits a mapping is mapped whole
  (`FastSg.FieldsFit`, `FastSg.MapSg`).
* An entry moved on to a boundary lengthens the entry before it, and the device then reaches the page frames behind that entry's
  data. Every page of a range holds data of its entry if and only if no entry was moved (`FastSg.PaddedIff`).

## Model

| member | source | states |
|---|---|---|
| ZsChain.MapObject | mm/zsmalloc.c:1062-1088 | the mapping of an object, also when it straddles two pages, is the object's words read contiguously from the chain |
| ZsChain.UnmapObject | mm/zsmalloc.c:1090-1120 | unmapping writes the payload back contiguously, never the handle word, and changes no other word of the chain |
| ZsChain.CopyWords | mm/zsmalloc.c:1510-1578 | page-bounded pieces amount to one contiguous copy, all other words stay, and at most three rounds are needed for any two offsets |
| ZsChain.ObjectCopy | mm/zsmalloc.c:1510-1578 | zs_object_copy copies exactly the object, whatever the offsets in source and destination page |
| ZsFreeList.Pop | mm/zsmalloc.c:1337-1377 | taking the head of the free list leaves a free list of exactly the untagged objects |
| ZsFreeList.Push | mm/zsmalloc.c:1448-1473 | pushing an object makes it the head, and the list is again exactly the untagged objects, with the terminator or the partial slot at the bottom |
| ZsFreeList.RelinkHead | mm/zsmalloc.c:1448-1473 | a head written as a link and read back is the head, and a terminator stays a terminator although a link is cut to 32 bits |
| ZsFreeList.InuseIffTagged | mm/zsmalloc.c:787-805 | free-list indices and allocated indices partition the objects, so inuse is zero exactly when no object is tagged |
| ZsFreeList.FreshList | mm/zsmalloc.c:886-928 | the links of a fresh zspage are a free list of all objects, with the extra partial slot at the bottom when the chain has waste |
| ZsInit.LinkPage | mm/zsmalloc.c:886-928 | the inner loop of init_zspage links every object that starts on the page to the next and writes nothing else |
| ZsInit.InitZspage | mm/zsmalloc.c:886-928 | the whole loop threads every object start of the chain in index order, across page boundaries at any offset |
| ZsInit.FreshGood | mm/zsmalloc.c:886-928 | what init_zspage leaves satisfies the zspage invariant with nothing tagged |
| ZsPage.HeadIsObject | mm/zsmalloc.c:1337-1377 | while the zspage is not full, the head of the list is an untagged object and never the partial slot or the terminator |
| ZsPage.MallocEffect | mm/zsmalloc.c:1337-1377 | obj_malloc keeps the zspage invariant, tags one untagged object with the handle, and leaves every other object as it was |
| ZsPage.FreeEffect | mm/zsmalloc.c:1448-1473 | obj_free keeps the zspage invariant, untags that object and leaves every other as it was |
| ZsPage.WriteEffect | mm/zsmalloc.c:1284-1315 | a payload store keeps the zspage invariant, is what the owner reads back, and leaves every other object as it was |
| ZsPage.CopyIsStore | mm/zsmalloc.c:1629-1631 | a whole-object copy over an object whose header is already right is a payload store |
| ZsPage.InuseTagged | mm/zsmalloc.c:787-805 | inuse is zero exactly when no object of the zspage is tagged |
| ZsHandles.LocationRound | mm/zsmalloc.c:755-785 | obj_to_location undoes location_to_obj |
| ZsHandles.Found | mm/zsmalloc.c:787-805 | a tagged object is where the handle in its tag leads |
| ZsHandles.AddHandle | mm/zsmalloc.c:1337-1377 | tagging an untagged object adds exactly that handle to what the handles read |
| ZsHandles.RemoveHandle | mm/zsmalloc.c:1475-1507 | untagging and forgetting a handle removes exactly that handle |
| ZsHandles.WriteHandle | mm/zsmalloc.c:1284-1315 | a payload store changes what that one handle reads |
| ZsHandles.ReplacePage | mm/zsmalloc.c:1803-1881 | replacing a page frame and recording the handles of the objects that start on it changes what no handle reads |
| ZsData.MallocInOk | mm/zsmalloc.c:1337-1377 | on the real chains: the pool's data stays sound and has one handle more |
| ZsData.FreeInOk | mm/zsmalloc.c:1448-1473 | on the real chains: the pool's data stays sound and has that one handle less |
| ZsData.StoreInOk | mm/zsmalloc.c:1284-1315 | on the real chains: that handle reads the payload, all others read the same |
| ZsData.MoveInOk | mm/zsmalloc.c:1610-1643 | on the real chains: obj_malloc, zs_object_copy, record_obj and obj_free together change what no handle reads |
| ZsData.AddInOk | mm/zsmalloc.c:966-1025 | a new zspage on frames nobody owns changes what no handle reads |
| ZsData.DropInOk | mm/zsmalloc.c:838-863 | giving up a zspage with nothing in use changes what no handle reads |
| ZsData.ReplaceInOk | mm/zsmalloc.c:1769-1790 | on the real chains: a replaced page changes what no handle reads |
| ZsAccount.GroupPartial | mm/zsmalloc.c:658-677 | get_fullness_group puts a partly full zspage in groups 1 to 10 |
| ZsAccount.InsertOk | mm/zsmalloc.c:685-692 | insert_zspage keeps list, counter and group in step |
| ZsAccount.RemoveOk | mm/zsmalloc.c:698-706 | remove_zspage takes the zspage off its list and counter and keeps all other accounts right |
| ZsAccount.FixOk | mm/zsmalloc.c:717-729 | after an object more or less in use, class_stat and fix_fullness_group restore all accounts of the class |
| ZsAccount.GrowOk | mm/zsmalloc.c:1431-1437 | a new zspage adds objs_per_zspage to OBJS_ALLOCATED and its objects to the totals |
| ZsAccount.ShrinkOk | mm/zsmalloc.c:838-863 | a freed zspage takes them away again |
| ZsPoolInv.CountObject | mm/zsmalloc.c:1413-1421 | the accounts of the whole pool follow an object allocated or freed |
| ZsPoolInv.CountNew | mm/zsmalloc.c:1425-1437 | the accounts of the whole pool, pages_allocated included, follow a new zspage |
| ZsPoolInv.CountGone | mm/zsmalloc.c:838-863 | the accounts of the whole pool, pages_allocated included, follow a freed zspage |
| ZsPoolInv.CountIsolated | mm/zsmalloc.c:1645-1677 | isolating a zspage takes it off its list and changes no other account |
| ZsPoolInv.CountPutback | mm/zsmalloc.c:1686-1694 | putting it back restores the accounts for its new group |
| ZsPoolInv.CountMoved | mm/zsmalloc.c:1610-1643 | objects moved between isolated zspages leave every account right |
| ZsPoolInv.MallocStep | mm/zsmalloc.c:1413-1421 | the fast path of zs_malloc keeps the pool invariant and adds one handle |
| ZsPoolInv.NewStep | mm/zsmalloc.c:1425-1437 | the slow path of zs_malloc keeps the pool invariant and adds one handle |
| ZsPoolInv.FreeStep | mm/zsmalloc.c:1475-1507 | zs_free keeps the pool invariant and removes one handle |
| ZsPoolInv.MovedStep | mm/zsmalloc.c:1610-1643 | migration keeps the pool invariant and what every handle reads |
| ZsPoolInv.SourceExists | mm/zsmalloc.c:1645-1660 | while zs_can_compact is nonzero and no zspage is empty, a source other than the destination exists |
| ZsMigrate.FindAllocedObj | mm/zsmalloc.c:1584-1608 | the next tagged object of the page from a given one on, or none |
| ZsMigrate.MoveOne | mm/zsmalloc.c:1629-1633 | one move keeps the data sound and what every handle reads |
| ZsMigrate.MigrateZspage | mm/zsmalloc.c:1610-1643 | it ends with the destination full or the source empty, the objects conserved and every handle reading the same |
| ZsCompact.CanCompactIff | mm/zsmalloc.c:1964-1977 | zs_can_compact is nonzero exactly when the free objects of the class would fill a zspage |
| ZsCompact.TwoPartial | mm/zsmalloc.c:1979-2039 | with that much free and none empty, a partly full zspage other than any given one exists |
| ZsCompact.RoundEnd | mm/zsmalloc.c:1979-2039 | a round conserves the objects in use, strictly shrinks the set of partly full zspages, and leaves none empty if none was and the page locks could be had |
| ZsCompact.StopsAtFewest | mm/zsmalloc.c:1979-2039 | where the guard ends the loop and no zspage is empty, the class has exactly the least number of zspages that hold its objects |
| ZsPageMigrate.ReplaceSubPage | mm/zsmalloc.c:1769-1790 | the chain with exactly the one page replaced, at any place in the chain |
| ZsPageMigrate.CopiedChain | mm/zsmalloc.c:1845-1847 | with the old frame copied to the new one, the chain on the new frames holds what the old chain held, whatever the new frame held before |
| ZsPageMigrate.RecordObjects | mm/zsmalloc.c:1839-1859 | the loop records anew exactly the handles of the objects that start on the page |
| ZsClasses.SizeClassIndex | mm/zsmalloc.c:504-513 | the least class whose size is not below the request |
| ZsClasses.ChainSize | mm/zsmalloc.c:2131-2150 | the least chain length of those with the least waste |
| ZsClasses.CreateClasses | mm/zsmalloc.c:2187-2255 | every table entry, merged or not, has its own size at least, the right chain length and object count, and huge_class_size is the least size stored whole |
| ZsClasses.RequestFits | mm/zsmalloc.c:1397-1409 | every size from 1 to 4096 gets a class with room for it, and for the handle unless the class is huge |
| ZsClasses.HugeRequestIsOnePage | mm/zsmalloc.c:1331-1335 | every size from zs_huge_class_size on is stored in a single-page zspage |
| ZsPool.Pool.constructor | mm/zsmalloc.c:2162-2273 | a new pool satisfies the pool invariant and has no handle |
| ZsPool.Pool.FindGetZspage | mm/zsmalloc.c:1027-1040 | a zspage with room in the fullest group that has one, or none if none has room |
| ZsPool.Pool.AllocZspage | mm/zsmalloc.c:966-1025 | a zspage on the given frames with every object free |
| ZsPool.Pool.MallocFrom | mm/zsmalloc.c:1413-1421 | an object of a zspage with room, for a new handle |
| ZsPool.Pool.MallocNew | mm/zsmalloc.c:1425-1437 | the first object of a new zspage, for a new handle |
| ZsPool.Pool.Malloc | mm/zsmalloc.c:1390-1445 | each error exactly in its case and then nothing changes; otherwise one new handle with room for the size, every other handle reading the same, all accounts right, and a new zspage exactly when the class had no object free |
| ZsPool.Pool.Free | mm/zsmalloc.c:1475-1507 | exactly that handle goes, and its zspage exactly if that was its last object and the page locks could be had; NULL and error values do nothing |
| ZsPool.Pool.Load | mm/zsmalloc.c:1212-1282 | a live handle reads what the map says |
| ZsPool.Pool.Store | mm/zsmalloc.c:1284-1315 | a store of some words through a live handle changes these words of what that handle reads and nothing else |
| ZsPool.Pool.IsolateSrc | mm/zsmalloc.c:1645-1660 | a zspage of the least full group, or none if none is partly full |
| ZsPool.Pool.IsolateDst | mm/zsmalloc.c:1662-1677 | a zspage of the fullest group with room, or none if none is partly full |
| ZsPool.Pool.Putback | mm/zsmalloc.c:1686-1694 | the zspage is on the list of its group again |
| ZsPool.Pool.FreeZspage | mm/zsmalloc.c:838-883 | the empty zspage and its pages are gone and every account follows |
| ZsPool.Pool.CompactRound | mm/zsmalloc.c:1995-2026 | a round keeps what every handle reads and takes a zspage out of the partly full ones; the pages it counts as freed are still allocated exactly if it emptied the source and could not have its page locks |
| ZsPool.Pool.CompactStep | mm/zsmalloc.c:1992-2027 | one iteration; a break is taken only when at most one zspage is partly full, hence never while objects for a zspage are free and no zspage is empty |
| ZsPool.Pool.Compact | mm/zsmalloc.c:1979-2039 | it terminates, keeps what every handle reads, conserves the objects and leaves other classes alone; it ends with less than a zspage of objects free or at most one zspage partly full, and with exactly the least number of zspages if none was empty and the page locks could be had; the pages reported are the pages freed if and only if the locks of every emptied zspage were had |
| ZsPool.Pool.PageMigrate | mm/zsmalloc.c:1803-1881 | with its contents copied from the old frame, the new frame takes its place, and every handle reads the same |
| ZsRun.Step | mm/zsmalloc.c:1390-1507 | one public operation, with what it returns, refines one step of the map from handle to payload: each error of zs_malloc has its reason and changes nothing, a load gives the payload of the handle, a store patches it, and compaction and migration change nothing |
| ZsRun.Run | mm/zsmalloc.c:1390-1507 | every run of operations, with all results, is a run of the map, and the pool invariant holds throughout |
| ZsRun.ReadsBack | mm/zsmalloc.c:1212-1315 | in every run a handle reads the same until an operation names it |
| ZsRun.StoreReadsBack | mm/zsmalloc.c:1212-1315 | in every run a load gets what was stored through the handle, over what was there, if no operation named the handle in between |
| ZsRun.MallocLoads | mm/zsmalloc.c:1390-1446 | in every run a load through a handle got from zs_malloc, before an operation names it, gets at least the bytes asked for |
| Unifdef.SimIncluded | scripts/unifdef.c:458-502 | where lines are printed, output and input include the same lines; where they are dropped, the input includes none |
| Unifdef.OpenTable | scripts/unifdef.c:439-502 | what the table does with each line that opens a group, in every state |
| Unifdef.MoveTable | scripts/unifdef.c:427-456 | what the table does with each #elif and #else, in every state |
| Unifdef.CloseTable | scripts/unifdef.c:433-438 | what the table does with #endif, in every state |
| Unifdef.StepSim | scripts/unifdef.c:427-502 | one line, with its edits of elif to if, elif to else and elif or else to endif, keeps the groups of output and input related and both include the same text |
| Unifdef.OutputMeansInput | scripts/unifdef.c:584-596 | whenever process ends in done, output and input keep the same ordinary lines under every valuation that agrees with the known conditions |
| UnifdefNest.PreprocessDefined | scripts/unifdef.c:458-502 | conditional inclusion is defined exactly on properly nested text |
| UnifdefNest.StepNest | scripts/unifdef.c:458-502 | each line is accepted exactly where the stack says, and the nesting of input and output can be read off the stack |
| UnifdefNest.RunNests | scripts/unifdef.c:584-596 | whatever is printed when process ends in done is properly nested, and the input was, at most 63 deep |
| UnifdefNest.CleanRuns | scripts/unifdef.c:527-535 | without split directives process ends in done if and only if the input nests properly and at most 63 deep |
| UnifdefNest.WholeFile | scripts/unifdef.c:584-596 | the two statements above for a whole file |
| UnifdefNest.ReachedSim | scripts/unifdef.c:583-596 | every stack that a run reaches belongs to groups of the input and groups of the output |
| UnifdefNest.DodgyKeepsPrinting | scripts/unifdef.c:406-413 | at every point of every run a split directive that is accepted leaves printing or dropping as it was if and only if it is not an unknown #elif after a deleted prefix |
| UnifdefNest.DodgyTurnsPrinting | scripts/unifdef.c:463-466 | after an #if found false, that one entry switches from dropping to printing |
| UnifdefProcess.OutsideNeedsNone | scripts/unifdef.c:507-542 | no line outside all groups reaches a function that would call abort |
| UnifdefProcess.Machine.First | scripts/unifdef.c:526-547 | the first line of a group: nest, print or drop, state |
| UnifdefProcess.Machine.Here | scripts/unifdef.c:543-547 | a line inside a group: print or drop, state |
| UnifdefProcess.Machine.Close | scripts/unifdef.c:536-542 | the last line of a group: print or drop, unnest |
| UnifdefProcess.Machine.Transition | scripts/unifdef.c:417-456 | a call through the table does to array, depth and output what the transition says |
| UnifdefProcess.Machine.Process | scripts/unifdef.c:583-596 | the driver with its array of states reaches done exactly when the machine does, with the same output, and never calls abort |
| UnifdefExpr.ToIntExact | scripts/unifdef.c:853-859 | strtol assigned to an int keeps a value exactly when it fits an int |
| UnifdefExpr.OrderedIffFit | scripts/unifdef.c:853-859 | values that fit an int keep their order when cut, and next to the least and the largest int no others do |
| UnifdefExpr.AbsSound | scripts/unifdef.c:746-777 | if the cut to an int keeps the order of the values involved, a value the evaluator knows is the value in C, cut, for every setting of the other symbols, with and without -K |
| UnifdefEval.ReadsTable | scripts/unifdef.c:912-944 | every expression of C's grammar is read with C's precedence and left association |
| UnifdefEval.ReadsUnary | scripts/unifdef.c:824-907 | every operand is read as a whole |
| UnifdefEval.SkipsArguments | scripts/unifdef.c:1083-1103 | skipargs ends behind the matching parenthesis |
| UnifdefEval.TableRead | scripts/unifdef.c:912-944 | whatever is read without error is an expression of C's grammar |
| UnifdefEval.LoopRead | scripts/unifdef.c:925-938 | the loop extends what has been read on the right, so operators of a level associate to the left |
| UnifdefIfeval.IfevalReads | scripts/unifdef.c:951-962 | ifeval on any expression gives the verdict the grammar calls for, and leaves constant expressions alone without -k |
| UnifdefIfeval.IfevalGrammatical | scripts/unifdef.c:951-962 | only expressions of the grammar are found true or false |
| UnifdefIfeval.IfevalSound | scripts/unifdef.c:951-962 | found true means nonzero and found false means zero in C, for every value of the unknown symbols, in both modes, if the cut to an int keeps the order of the literals and values of the expression, 0 and 1 |
| UnifdefIfeval.SoundIffOrdered | scripts/unifdef.c:951-962 | for any literals and any symbol table, the verdicts on all expressions over the literals are right if and only if the cut to an int keeps the order of the literals, the -D values, 0 and 1, or the options are -K without -k, -D and -U |
| UnifdefIfeval.Misjudged | scripts/unifdef.c:853-897 | two values whose order is lost give a comparison over the same literals that holds in C and is evaluated to 0 |
| UnifdefIfeval.TooBigMisjudged | scripts/unifdef.c:853-859 | over 2147483647 and any larger literal some verdict is wrong without -K, whatever the symbols, with and without -k |
| UnifdefIfeval.NothingFound | scripts/unifdef.c:951-962 | with -K and without -k, -D and -U no condition is found true or false |
| UnifdefLines.RawAgrees | scripts/unifdef.c:676-712 | what parseline says of a condition is true of it in C |
| UnifdefLines.FileMeansSame | scripts/unifdef.c:583-712 | from the tokens of the directives to the output: under every setting of the symbols that -D and -U allow, which may change from line to line, output and input keep the same lines |
| UnifdefLines.OpFn | scripts/unifdef.c:746-777 | op_or, op_and and the strict operators, with their stale values never used |
| UnifdefLines.UnaryAt | scripts/unifdef.c:824-907 | eval_unary moving its cursor computes the evaluation |
| UnifdefLines.SkipArgsAt | scripts/unifdef.c:1083-1103 | the loop of skipargs ends where its specification says, and rewinds when the parentheses do not match |
| UnifdefLines.TableAt | scripts/unifdef.c:912-944 | eval_table with its loop computes the evaluation |
| SmqMap.AllocateWellFormed | drivers/char/rdbg.c:198-204 | an allocation written as n, n-1, ..., 1 keeps the map well formed |
| SmqMap.ReleaseWellFormed | drivers/char/rdbg.c:219-227 | releasing an allocation at its start keeps the map well formed |
| SmqMap.StepOk | drivers/char/rdbg.c:187-213 | every round of the scan keeps what has been seen; a scan that ends found a window, or there is none |
| SmqMap.AfterOk | drivers/char/rdbg.c:187-213 | over any number of rounds: success means a free linear window, failure means there is none |
| SmqHalt.EndsWithWindow | drivers/char/rdbg.c:187-213 | with room the scan ends, in the second lap at the latest |
| SmqHalt.EndsIff | drivers/char/rdbg.c:162-217 | a request for other than one block returns if and only if there is room, or the free blocks are one stretch, or none is free and index_read is at the start of an allocation |
| SmqHalt.FullQueueHangs | drivers/char/rdbg.c:162-217 | after one message that fills an empty queue the next request of two blocks or more never returns |
| SmqHalt.ScatteredHangs | drivers/char/rdbg.c:187-193 | two free blocks apart from each other: a request for two never returns, wherever it starts |
| SmqBlockMap.BlockMap.constructor | drivers/char/rdbg.c:239-253 | all blocks but the last are free |
| SmqBlockMap.BlockMap.GetOne | drivers/char/rdbg.c:172-184 | one block: it succeeds exactly when one is free, and takes that one only |
| SmqBlockMap.BlockMap.GetMany | drivers/char/rdbg.c:185-214 | several blocks, followed for any number of rounds: it has returned by then exactly if its scan has ended, it then succeeds exactly when a free window exists, and takes that window only |
| SmqBlockMap.BlockMap.Get | drivers/char/rdbg.c:162-217 | both branches; one block always returns |
| SmqBlockMap.BlockMap.Put | drivers/char/rdbg.c:219-227 | exactly the blocks of the allocation become free |
| SmqRing.RingPush | drivers/char/rdbg.c:390-398 | moving the write index on publishes the node written, while a slot stays unused |
| SmqRing.RingPop | drivers/char/rdbg.c:317-318 | moving the read index on drops the oldest node |
| SmqOwn.OwnsAdd | drivers/char/rdbg.c:379-382 | a newly allocated range is apart from all others and the map marks exactly the ranges |
| SmqOwn.OwnsRemove | drivers/char/rdbg.c:365-366 | releasing a range leaves the map marking exactly the others |
| SmqOwn.OwnsBound | drivers/char/rdbg.c:239-253 | outstanding messages number at most num_blocks - 1 |
| SmqInv.NoOverrun | drivers/char/rdbg.c:239-253 | messages unread, held, in flight or given back number at most num_blocks - 1 together, so neither ring runs over |
| SmqInv.ReclaimPutInv | drivers/char/rdbg.c:361-366 | reclaiming reads the node after the index has moved on and still releases the right range |
| SmqInv.CopyInv | drivers/char/rdbg.c:384-388 | copying a payload into an allocated range disturbs no message sent or held |
| SmqInv.CopyFailInv | drivers/char/rdbg.c:400-404 | a failed copy gives the range back and disturbs no message |
| SmqInv.PublishInv | drivers/char/rdbg.c:390-398 | publishing appends to the messages sent |
| SmqInv.ReceiveReadInv | drivers/char/rdbg.c:317-321 | receiving reads the node after the index has moved on and still gets the oldest message with its data |
| SmqInv.FreeWriteInv | drivers/char/rdbg.c:276-285 | giving back any message held, in any order, writes a slot nobody needs |
| SmqRun.StepInv | drivers/char/rdbg.c:261-407 | every step of either side keeps the queue's invariant and never finds a node out of range |
| SmqRun.EveryInterleaving | drivers/char/rdbg.c:261-407 | in every interleaving: outstanding ranges are disjoint and exactly the nonzero map, neither ring runs over, messages arrive in order, once, with their data, and held data stays |
| FastBits.FindNextZeroArea | drivers/iommu/dma-mapping-fast.c:147-155 | the contract of bitmap_find_next_zero_area: the lowest aligned clear run from start on, or a value above the size |
| FastBits.SetClear | drivers/iommu/dma-mapping-fast.c:191-211 | setting a clear run and clearing it again changes nothing |
| FastBits.Order | drivers/iommu/dma-mapping-fast.c:144 | get_order: the least power of two that is not below the pages asked for |
| FastIova.Mapping.constructor | drivers/iommu/dma-mapping-fast.c:839-888 | nothing is in use, mapped or cached |
| FastIova.Mapping.TlbFill | drivers/iommu/dma-mapping-fast.c:139-213 | the TLB may cache a mapped page at any time |
| FastIova.Mapping.Flush | drivers/iommu/dma-mapping-fast.c:163-176 | after a flush clean_bitmap equals bitmap and the TLB is empty |
| FastIova.Mapping.Search | drivers/iommu/dma-mapping-fast.c:147-189 | the three searches fail only if no aligned run is out of use, and flush the TLB only if no aligned run is clean |
| FastIova.Mapping.Alloc | drivers/iommu/dma-mapping-fast.c:139-198 | it fails if and only if no aligned run of the length is out of use; the run has no live page, no TLB entry, and no page handed out since the last flush; the TLB is flushed exactly when stale entries are possible and no aligned run is clean; a clean run at next_start is the one taken |
| FastIova.Mapping.UnmapFree | drivers/iommu/dma-mapping-fast.c:200-213 | after unmapping exactly the run goes out of use, and the TLB invariant holds without a flush |
| FastDma.PhysIsFrame | drivers/iommu/io-pgtable-fast.c:273-278 | the i-th descriptor of a mapping has the i-th page frame, in the 48 bits of the address field |
| FastDma.MapRun | drivers/iommu/dma-mapping-fast.c:241-243 | mapping pages just allocated cannot fail, and page table and allocator agree again |
| FastDma.MapPage | drivers/iommu/dma-mapping-fast.c:215-254 | the pages of the buffer are mapped at an aligned run in allocator and page table alike, or nothing changes because there is no room; the path that gives the IOVA back is never taken |
| FastDma.UnmapPage | drivers/iommu/dma-mapping-fast.c:256-284 | exactly the pages of the IOVA range are unmapped, in allocator and page table alike, and go out of use |
| FastDma.MapUnmap | drivers/iommu/dma-mapping-fast.c:215-284 | mapping then unmapping restores bitmap and every translation, and mapping succeeds exactly when there is room |
| FastPlace.PlacedIff | drivers/iommu/qcom-dma-iommu-generic.c:565-577 | for a boundary that is a power of two of pages, every range that the allocator may place inside the mapping begins on a boundary or lies between two if and only if the whole mapping does |
| FastPlace.Across | drivers/iommu/qcom-dma-iommu-generic.c:565-577 | if the mapping does not, with d pages to its first boundary and 2^k the power of two in d, a range of 2^k + 1 pages may be placed to end on page d, across the boundary |
| FastCross.CrossesIff | drivers/iommu/qcom-dma-iommu-generic.c:590-596 | no list gets a DMA segment that crosses a boundary, wherever the allocator may place it, if and only if the mapping begins on a boundary or ends before the next, or no segment has two bytes |
| FastCross.AcrossCrosses | drivers/iommu/qcom-dma-iommu-generic.c:590-596 | in any other mapping a list of 2^k entries, the last with two bytes on two pages, is a list the path accepts whose last segment crosses the boundary |
| FastCross.Cross | drivers/iommu/dma-mapping-fast.c:348-382 | from an unused mapping of that kind, mapping single pages and then that list ends with a segment that crosses in the hands of the client |
| FastCross.WideUnmapped | drivers/iommu/dma-mapping-fast.c:348-382 | a list of one entry of 4G less a byte succeeds: all pages are in use, the segment is given out, and no page is mapped |
| FastSg.MapSg | drivers/iommu/dma-mapping-fast.c:348-382 | it fails exactly when no aligned run is out of use and then gives the list back; otherwise, unless the list is one entry that takes 4G, every page of the range is mapped, from the first frame of its entry on; the client fields are restored, the DMA segments list the bytes of the data in order, none too long, and none crosses a boundary if the mapping begins on one or ends before the next |
| FastSg.UnmapSg | drivers/iommu/dma-mapping-fast.c:384-419 | exactly the range that was allocated is recomputed, unmapped and goes out of use |
| FastSg.MapEntries | drivers/iommu/io-pgtable-fast.c:345-359 | entry by entry, with the lengths cut to 32 bits, the range is mapped as the entries have it, or not at all if the list is one entry that takes 4G |
| FastSg.EntryFrames | drivers/iommu/io-pgtable-fast.c:345-359 | the pages up to the next entry reach consecutive page frames from the first of the entry on, padding included |
| FastSg.EntryData | drivers/iommu/qcom-dma-iommu-generic.c:578-581 | a page of an entry reaches a frame that holds bytes of the entry if and only if it lies before the end of its data; the others reach the frames behind |
| FastSg.PaddedIff | drivers/iommu/qcom-dma-iommu-generic.c:578-581 | every page of the range holds data of its entry if and only if no entry was moved on to a boundary |
| FastSg.FieldsFit | drivers/iommu/qcom-dma-iommu-generic.c:562-581 | in a range of at most 4G an entry is mapped with at most 4G, and with 4G, which its field cannot hold, if and only if it is the only one |
| FastRun.Run | drivers/iommu/dma-mapping-fast.c:139-419 | in every run of mapping and unmapping of single buffers and scatterlists, TLB fills and evictions: live buffers lie apart, the page table leads each page of theirs to its memory, and the TLB holds nothing else for them; only the pages of a list of one entry that takes 4G lead nowhere |
| FastRun.Start | drivers/iommu/dma-mapping-fast.c:839-888 | the mapping and the page table built for its range agree, so that runs can begin, exactly if the pages can be had |
| FastPte.PageEntry | drivers/iommu/io-pgtable-fast.c:232-256 | a page descriptor has the page type and, in its address field, the page's address, whatever the attributes and the bits above the field |
| FastPgtable.FlatIsWalk | drivers/iommu/io-pgtable-fast.c:132-139 | for every IOVA of the range and any base, the flat index and the three-level walk reach the same descriptor |
| FastTable.FlatWriteOk | drivers/iommu/io-pgtable-fast.c:258-282 | writing through the flat array changes that one descriptor and no level above |
| FastTable.TranslateIsFlat | drivers/iommu/io-pgtable-fast.c:374-408 | translation by the walk is what the flat array holds |
| FastTable.Table.Map | drivers/iommu/io-pgtable-fast.c:258-282 | exactly the range translates to the physical pages, cut to the address field, afterwards; it fails only below the base |
| FastTable.Table.Unmap | drivers/iommu/io-pgtable-fast.c:302-329 | from the page of the IOVA on, exactly the range has no translation afterwards |
| FastBuild.Boundaries | drivers/iommu/io-pgtable-fast.c:475-487 | a range of at most 4G has at most 4 gigabytes and 2048 chunks of 2M |
| FastBuild.BuildPuds | drivers/iommu/io-pgtable-fast.c:520-532 | the first loop enters a second-level page for each gigabyte |
| FastBuild.BuildGiga | drivers/iommu/io-pgtable-fast.c:543-559 | the inner loop enters a last-level page for each 2M of a gigabyte, in order |
| FastBuild.Prepopulate | drivers/iommu/io-pgtable-fast.c:489-586 | it succeeds exactly when the page array, the pages and the flat mapping can be had, uses at most 1 + 4 + 2048 pages, covers the range and translates nothing |
| DmaSg.AtFits | drivers/iommu/qcom-dma-iommu-generic.c:554-585 | every entry lies inside one window between boundaries, at a multiple of the granule |
| DmaSg.MappedLenBound | drivers/iommu/qcom-dma-iommu-generic.c:578-581 | padded to a boundary, an entry is mapped with no more than lies between two boundaries |
| DmaSgMap.Prepare | drivers/iommu/qcom-dma-iommu-generic.c:540-588 | the list is aligned in place, padded to boundaries, with the unaligned parts kept in the DMA fields and the lengths cut to 32 bits, and the length needed is returned |
| DmaSgMap.Finalise | drivers/iommu/qcom-dma-iommu-generic.c:597-644 | offset and length come back, and the DMA fields hold the segments that result from 32-bit arithmetic on the lengths, in place, for entries of any length |
| DmaSgMap.Invalidate | drivers/iommu/qcom-dma-iommu-generic.c:650-662 | after a failure offset and length come back and the DMA fields are void |
| DmaSgMap.UnmapRange | drivers/iommu/dma-mapping-fast.c:384-419 | the range recomputed from the first and the last DMA segment |
| DmaSgWords.PadWord | drivers/iommu/qcom-dma-iommu-generic.c:557 | for every position and every power of two, the padding computed in 64-bit words is the distance to the next boundary, and zero on one |
| DmaSgSegments.SegmentsOk | drivers/iommu/qcom-dma-iommu-generic.c:597-644 | wherever the list is mapped the DMA segments list exactly the IOVA bytes of the data in order, none too long; none crosses a boundary if the list is mapped on a boundary or between two; entries but the last are mapped with less than 4G |
| DmaSgSegments.RangeOk | drivers/iommu/dma-mapping-fast.c:403-411 | wherever the list is mapped, first and last DMA segment determine exactly the allocated range |
| LpaeTree.IdxIs | drivers/iommu/qcom-io-pgtable-arm.c:99-120 | the index of a page at a level is the entry whose pages include it |
| LpaeTree.Reaches | drivers/iommu/qcom-io-pgtable-arm.c:1260-1299 | every table lies on the walk of every page it covers |
| LpaeOps.Unique | drivers/iommu/qcom-io-pgtable-arm.c:512-556 | no two tables of a level cover the same page, so no table is entered twice |
| LpaeOps.WriteTrans | drivers/iommu/qcom-io-pgtable-arm.c:466-486 | writing an entry changes exactly the translations of its pages |
| LpaeOps.CountTrans | drivers/iommu/qcom-io-pgtable-arm.c:336-350 | changing a count changes no translation |
| LpaeOps.InstallTrans | drivers/iommu/qcom-io-pgtable-arm.c:512-556 | a new table changes exactly the translations of the pages of its entry |
| LpaeCut.CutTrans | drivers/iommu/qcom-io-pgtable-arm.c:1157-1161 | clearing an entry and freeing what lies below unmaps exactly its pages |
| LpaeFill.FillTrans | drivers/iommu/qcom-io-pgtable-arm.c:466-510 | writing a run of empty entries maps exactly their pages to consecutive physical pages |
| LpaeFill.ClearTrans | drivers/iommu/qcom-io-pgtable-arm.c:1192 | clearing a run of last-level entries unmaps exactly their pages |
| LpaeSteps.InitedCounts | drivers/iommu/qcom-io-pgtable-arm.c:488-510 | after mapping, every level-2 count is again the number of entries in use |
| LpaeSteps.ClearedCounts | drivers/iommu/qcom-io-pgtable-arm.c:1176-1195 | after unmapping mapped pages the count is right again, and zero exactly when the table is empty |
| LpaeSteps.SplitTrans | drivers/iommu/qcom-io-pgtable-arm.c:1079-1091 | splitting a block keeps its translations, attributes included, but for the part left out |
| LpaeSteps.NewTable | drivers/iommu/qcom-io-pgtable-arm.c:643-671 | a new empty table changes no translation |
| LpaeVacant.VacantNone | drivers/iommu/qcom-io-pgtable-arm.c:569-703 | where the driver finds room for blocks, none of their pages is translated |
| LpaeVacant.OccupiedSome | drivers/iommu/qcom-io-pgtable-arm.c:488-510 | where it finds no room for single pages, one of them is translated |
| Lpae.VacantIff | drivers/iommu/qcom-io-pgtable-arm.c:569-703 | there is room for single pages if and only if none of them is translated |
| LpaeCareless.OthersKeptIff | drivers/iommu/qcom-io-pgtable-arm.c:1176-1211 | clearing k last-level entries and freeing the table at count zero keeps every other translation if and only if not both the count is k and one of the entries was empty |
| LpaeCareless.OrphansIff | drivers/iommu/qcom-io-pgtable-arm.c:1192-1195 | the same condition in terms of translations: as many pages of the 2M are mapped as are unmapped, and one of these is not |
| LpaeEmpty.SplitUsed | drivers/iommu/qcom-io-pgtable-arm.c:1082-1089 | the table a block is split into has an entry in use if and only if fewer than 512 are left out |
| LpaeLast.LastCarefulEffect | drivers/iommu/qcom-io-pgtable-arm.c:1176-1211 | for mapped pages exactly these are unmapped, the counts stay right, the table goes exactly when it becomes empty, and every last-level table stays in use |
| LpaeBits.CountSetGet | drivers/iommu/qcom-io-pgtable-arm.c:316-334 | the count read is the count set, cut to 13 bits |
| LpaeBits.CountKeepsRest | drivers/iommu/qcom-io-pgtable-arm.c:325-334 | setting the count leaves address, type and all other bits |
| LpaeBits.LeafAddr | drivers/iommu/qcom-io-pgtable-arm.c:361-380 | the address of a page or block reads back |
| LpaeBits.LeafProt | drivers/iommu/qcom-io-pgtable-arm.c:202 | its attributes read back, so a split block keeps them |
| LpaeBits.LeafType | drivers/iommu/qcom-io-pgtable-arm.c:352-359 | it reads back as a page or block at its own level |
| LpaeBits.TableRead | drivers/iommu/qcom-io-pgtable-arm.c:512-556 | a table descriptor reads back with its address and count, whatever its flags |
| LpaeWords.LeafReads | drivers/iommu/qcom-io-pgtable-arm.c:352-380 | the descriptor of a page or block entry reads back as one, with the address of its physical page and its attributes |
| LpaeWords.TableReads | drivers/iommu/qcom-io-pgtable-arm.c:512-556 | the descriptor of a table entry reads back with the address of the table and the count, and the count read is zero exactly if the count is |
| LpaeWords.WordDecodes | drivers/iommu/qcom-io-pgtable-arm.c:311-380 | no two entries have the same descriptor, so the words in memory determine the entries |
| LpaeWords.CountWord | drivers/iommu/qcom-io-pgtable-arm.c:336-350 | adding to or subtracting from the count in the descriptor is doing so with the count of the entry, in 13 bits |
| LpaeWordWalk.WalksSame | drivers/iommu/qcom-io-pgtable-arm.c:1260-1299 | the walk over the descriptors in memory finds, for every page, the address that the walk over the entries finds |
| Lpae.PageTable.constructor | drivers/iommu/qcom-io-pgtable-arm.c:1260-1299 | a new page table translates nothing |
| Lpae.PageTable.IovaToPhys | drivers/iommu/qcom-io-pgtable-arm.c:1260-1299 | the loop computes the translation |
| Lpae.PageTable.InitPte | drivers/iommu/qcom-io-pgtable-arm.c:488-510 | it succeeds exactly when all entries are empty, then maps exactly their pages; otherwise nothing changes |
| Lpae.PageTable.MapAt | drivers/iommu/qcom-io-pgtable-arm.c:569-703 | from any table on: success maps exactly the range and only where there was room, every failure changes no translation, and the counts stay right |
| Lpae.PageTable.MapPages | drivers/iommu/qcom-io-pgtable-arm.c:773-811 | success adds exactly the reported range, failure changes no translation; with memory it succeeds exactly where there is room, for single pages exactly where none of them is mapped |
| Lpae.PageTable.FreeTable | drivers/iommu/qcom-io-pgtable-arm.c:967-1004 | exactly the table and the tables below it are given back |
| Lpae.PageTable.ClearSlot | drivers/iommu/qcom-io-pgtable-arm.c:1150-1169 | exactly the pages of the entry are unmapped, and no table is left without its descriptor |
| Lpae.PageTable.UnmapBlocks | drivers/iommu/qcom-io-pgtable-arm.c:1140-1175 | entries are unmapped up to the first empty one, exactly these are reported, and where it stops nothing was mapped |
| Lpae.PageTable.UnmapLeaves | drivers/iommu/qcom-io-pgtable-arm.c:1176-1211 | it computes the branch whose effect LpaeCareless and LpaeLast state: for mapped pages exactly these are unmapped, the counts stay right and the table is freed exactly when it becomes empty; for any pages the others are kept if and only if the unmap makes no orphans |
| Lpae.PageTable.SplitUnmap | drivers/iommu/qcom-io-pgtable-arm.c:1049-1118 | a block is replaced by a table without the part to be unmapped, over one or more levels; every last-level table is in use afterwards if and only if not all 512 pages were left out; a block size above the level changes no translation |
| Lpae.PageTable.UnmapAt | drivers/iommu/qcom-io-pgtable-arm.c:1120-1229 | from any table on, exactly the pages of the entries cleared are unmapped, single pages where the block size is above the level of the table |
| Lpae.PageTable.UnmapPages | drivers/iommu/qcom-io-pgtable-arm.c:1231-1257 | exactly the reported range is unmapped when all pages asked for are mapped if and only if the page size is not above the root's level or a block covers the first page; other translations are kept by an unmap of single pages if and only if it makes no orphans; every last-level table stays in use if and only if not one call unmaps all pages of a block; it stops short only at something not mapped or for want of memory |
| LpaeFindings.BlockCannotReturn | drivers/iommu/qcom-io-pgtable-arm.c:1073-1115 | a 2M block is mapped and its 512 pages are unmapped by one call: nothing is mapped there, and mapping the block again is refused |
| LpaeFindings.CarelessLoses | drivers/iommu/qcom-io-pgtable-arm.c:1192-1203 | with page 0 alone mapped, unmapping page 1 takes the translation of page 0 away |
| LpaeFindings.MoreThanUnmapped | drivers/iommu/qcom-io-pgtable-arm.c:1242-1257 | with a root of level 2 and two pages mapped, an unmap of 1G takes one page away and reports 1G |
| LpaeFindings.GigaRefused | drivers/iommu/qcom-io-pgtable-arm.c:845-906 | with a root of level 2 a list of 1G on a multiple of 1G is refused on an empty table, although it can be mapped page by page |
| LpaeRun.Run | drivers/iommu/qcom-io-pgtable-arm.c:773-1257 | every run of map and unmap calls by callers that unmap what is mapped, with all results, is a run of the flat map, with the level-2 counts right throughout: a map adds the range it reports or fails for the reason it gives, an unmap takes away what it reports |
| LpaeRun.StaysMapped | drivers/iommu/qcom-io-pgtable-arm.c:773-1257 | in every run a mapped page keeps its translation until a call that may unmap it |
| LpaePgsize.Pgsize | drivers/iommu/qcom-io-pgtable-arm.c:813-843 | the choice by highest and lowest bit set is the largest page size that divides both addresses and fits |
| LpaePgsize.IndexIff | drivers/iommu/qcom-io-pgtable-arm.c:820-828 | the bit index reaches k exactly if 2^k is not above the length and divides both addresses |
| LpaeSg.MapRound | drivers/iommu/qcom-io-pgtable-arm.c:878-897 | through the table kept at hand or by a full walk, exactly the page or block is mapped, or nothing is, because something stands there, memory ran out, or 1G was chosen on a root of level 2 |
| LpaeSg.InState | drivers/iommu/qcom-io-pgtable-arm.c:881-891 | where the shortcut applies the page size is 4K, so one entry is what is counted as mapped |
| LpaeSg.MapByPgsize | drivers/iommu/qcom-io-pgtable-arm.c:845-906 | exactly what is reported as mapped is mapped, also when an error ends it early, whatever the level of the root: an error means that something stands at the next page, that memory ran out, or that 1G was chosen first on a root of level 2, where nothing is mapped; in that last case it always fails |
| LpaeSg.MapSg | drivers/iommu/qcom-io-pgtable-arm.c:908-964 | on success page k of the list is reached at page k of the range, the total length is reported, and no other translation changes; on failure exactly what is reported is mapped and the next page is blocked, memory ran out, or the first run of the list can be mapped with 1G on a root of level 2, in which case it always fails with nothing mapped |
| LpaeSg.MapEachPage | drivers/iommu/qcom-io-pgtable-arm.c:813-964 | mapping the same list one page at a time by full walks gives the same translation |

## Left out

- Locks, RCU, per-CPU areas, cache maintenance and barriers: each public operation of zsmalloc, the page tables and the IOVA allocator is one atomic step; the queue is interleaved step by step instead.
- zsmalloc: the asynchronous freeing of zspages whose page locks were taken, the shrinker, debug files and the zpool glue.
- zsmalloc: write-only and read-only mappings, which are the read-write mapping with one of the two copies omitted; write-only mappings of straddling objects leave unwritten bytes undefined.
- LPAE: the contiguous hint, stage 2, Mali, register setup, the 16K and 64K granules and the loser of a concurrent table installation.
- Lpae.PageTable.UnmapPages: is not stated for an IOVA that is not a multiple of the page size, which callers do not pass.
- The fast DMA path: allocation of CPU memory, PCI and MSI reservations, coherency attributes and the debug mode that marks stale descriptors.
- FastIova.Mapping.Alloc: a request for no page at all is not modelled; get_order of zero is undefined.
- DmaSgSegments.SegmentsOk: is not stated for a list with an entry, not the last, that is mapped with 4G or more; no such list fits a mapping (FastSg.FieldsFit).
- unifdef: file handling, comment and literal scanning, the line buffer, blank-line compression and the options -b, -B, -c, -n and -s; the model begins with classified lines and expression tokens. The `ignoring` flags only steer comment scanning.
- unifdef: integer literals with an unsigned suffix, which C compares as unsigned.
- UnifdefIfeval.IfevalSound: needs the cut to an int to keep the order of literals and -D values, for which UnifdefIfeval.SoundIffOrdered gives the exact condition.
- SMQ: the reset handshake, interrupts and the character device; queues have at most 256 blocks, so that a count fits its byte.
- SmqRun.EveryInterleaving: the rings and indices are values of a state machine, not arrays updated in place, and an allocation may take any free window; blocks are not divided into bytes.
- The other drivers, debug files and scripts of the repository: register access, framework glue or claims that follow from one body.
