# Verified models of unward's allocators, tables and rewriter

This project models, in Dafny, the parts of the unward source tree in which correctness is hardest to see, and proves
what they promise. Five groups of code are modelled, each on its own.

* **TinyGC** (`gclib/tinygc.c`), single-threaded, without finalizers or disappearing links. `words.dfy`, `lists.dfy`
  and `records.dfy` hold machine words, families of lists, and object records whose size words carry the atomic flag.
  `objtable.dfy` is the address hash table with its two-bucket lookup of interior pointers; `marking.dfy` the mark
  phase with its tri-colour invariant; `roots.dfy` the sorted interval list of data roots; `gcdata.dfy` the collector
  itself: lazy refilling and freeing, aborted and completed collections, allocation and byte accounting. The invariant
  `Collector.Valid` says that every record is in exactly one of the table, follow, marked, free and unlinked lists and
  that all the byte counts are exact.
* **dlmalloc** (`gclib/dlmalloc.c`). `chunks.dfy` has boundary tags over one contiguous arena, `bins.dfy` request
  sizes, bin indices, sorted bins and the bin map, `heap.dfy` the invariant of the allocator (`Sound`, which is what
  the `do_check_` routines ask for) and what each small step does to it, `dlmalloc.dfy` malloc, free and
  consolidation, and `binlinks.dfy` the fd and bk pointers behind the lists. Growth of the arena is a step of the
  environment that fails or lengthens the top.
* **Hash tables** (`adlib/set.h`, `adlib/map.h`). `probing.dfy` proves the number theory of the probe sequence,
  `slots.dfy` the consistency of slots, fingerprints and tombstones, `hashset.dfy` and `hashmap.dfy` the tables.
* **The unward pipeline** (`adlib/bitset.cc`, `src/analyzer.cc`, `src/main.cc`, `src/rewrite.cc`). `bitset.dfy` and
  `closure.dfy` have packed bit rows and Floyd-Warshall on them, `callgraph.dfy`, `tokens.dfy`, `sections.dfy` and
  `selection.dfy` the selection of the functions that need unsafe copies, `lines.dfy` line numbers and directives,
  `rewrite.dfy` the token-level rewriting, and `pipeline.dfy` a whole run over several files.
* **Two compact algorithms**: streaming MD5 (`md5.dfy`, after `adlib/md5.cc` and RFC 1321) and the bottom-up merge
  sort (`mergesort.dfy`, after `adlib/arr.h`).

State that the source changes step by step is modelled by classes whose methods change fields and arrays; each method
is proved against functions of the old and new state, and the lemmas beside it say what those functions mean. `dafny
verify dfyconfig.toml` checks the whole project.

Answers of the environment are arbitrary: what the core allocator returns to the collector, when a stop function
asks to stop, and how much memory the system puts behind the top are functions of the number of the question, given
when the state is made; the pacing heuristics may answer anything. Compare and hash functions
and the MD5 block function are parameters. Memory words, the stack and the roots are given to the collector as a map
from addresses to words and as regions.

Places where the code does not do what its comments say; the model follows the code:

* The comment on sorted bins (`gclib/dlmalloc.c:2074-2079`) puts the most recently freed of equal chunks at the front.
  A chunk no larger than the last one is linked at the very end instead (`gclib/dlmalloc.c:3376-3380`), so it is also
  the first to be taken. `Bins.NewestFirst` says when that happens, and `Bins.NewestOfThree` shows a bin.
* `GC_objlink_get` (`gclib/tinygc.c:2549-2575`) probes the bucket of the address less 255 whatever the offset, where
  the scan probes the bucket of the address less 256 and only if the offset allows it. `ObjTable.ProbeBlocks` shows
  that both are right.
* `get_or_add` (`adlib/set.h:219-237`) tests for a tombstone at a slot that the loop left because it is empty; it
  never reuses one, as `HashSets.Set.GetOrAdd` states.
* `GC_roots_add` rounds a range to words (`gclib/tinygc.c:1167-1168`). For a begin within the last seven bytes of the
  address space rounding up wraps to 0: `Gcdata.RoundedInwards` and `Gcdata.RoundedOutwards`.
* Merge sort takes the right element on ties (`adlib/arr.h:310-315`), so equal elements come out in the opposite
  order: `MergeSort.Arr.SortInPlace` and `MergeSort.StableWhen`.
* Line directives (`src/rewrite.cc:220-225`) are right for the original text but the copies begin one line late:
  `Rewrite.LinesKept` and `Rewrite.CopyOneLate`.
* A definition has the form of a call, so a selected function that is defined in an unsafe section loses its name there
  (`src/rewrite.cc:142-156`): `Pipeline.DefinitionsKept` and `Pipeline.DefinitionLost`.
* A function is skipped when it has an unsafe counterpart under either prefix (`src/main.cc:123-130`), but its calls get
  the prefix that goes with its own name: `Pipeline.RenamedDefined` and `Pipeline.OtherPrefix`.
* The repository's introduction (`README.md:3-22`) names four functions whose callers are rewritten; the code starts
  from two of them (`src/main.cc:8`): `Selection.DirectSelected` and `Selection.AddrObjIgnored`.
* The code takes every conditional that mentions WARD_ENABLED for the start of an unprotected section
  (`src/analyzer.cc:234-239`), also one that asks whether it is defined: `Sections.IntendedSections` and
  `Sections.OppositeQuestion`.

## Model

| member | source | states |
|---|---|---|
| `ObjTable.IndexOfBlock` | gclib/tinygc.c:1616-1617 | addresses of one 256-byte block hash to one bucket, for every table size |
| `ObjTable.FirstBelow` | gclib/tinygc.c:1616-1622 | in a descending bucket of disjoint records, the first one at or below an address is the only one that can contain it |
| `ObjTable.Walk` | gclib/tinygc.c:1616-1622 | the walk stops at the first record of the bucket at or below the address |
| `ObjTable.ProbeBlocks` | gclib/tinygc.c:1626-1636 | an object that holds an address below offset 256 hashes to the bucket of the address or to that of the address one block lower; the bucket of the address less 255 is the same one |
| `ObjTable.ObjHtable.Probe` | gclib/tinygc.c:1616-1622 | one bucket walk stops at the record of the bucket that contains the address, if there is one |
| `ObjTable.ObjHtable.RangeFilter` | gclib/tinygc.c:1598-1612 | the unsigned minimum and maximum test and the alignment mask never drop a word that names an object of the table |
| `ObjTable.ObjHtable.Locate` | gclib/tinygc.c:1612-1646 | the lookup finds the object that a word names (below offset 256 for interior words), and whatever it finds contains the word |
| `ObjTable.ObjHtable.Get` | gclib/tinygc.c:2549-2575 | the other lookup, whose second probe has no offset test, finds the same objects and only objects that contain the address |
| `ObjTable.ObjHtable.Shade` | gclib/tinygc.c:1646-1658 | a found record leaves the table for the marked list (atomic) or the follow list, and the objects held stay the same |
| `ObjTable.ObjHtable.ScanWord` | gclib/tinygc.c:1605-1658 | after one word no record it names is left in the table; what joined a list was named by the word |
| `ObjTable.ObjHtable.ScanRegion` | gclib/tinygc.c:1575-1665 | after a region no word of it names a record left in the table, and everything that joined a list was named by one of its words |
| `ObjTable.ObjHtable.Add` | gclib/tinygc.c:2450-2501 | the new record is taken from the unlinked list and sits in its bucket in descending order |
| `ObjTable.InsertedOk` | gclib/tinygc.c:2463-2499 | linking a record at its place keeps every bucket strictly descending and at home |
| `ObjTable.InsertAt` | gclib/tinygc.c:2684-2692 | the record is put at its place in its bucket, and the table holds it besides the others |
| `ObjTable.LinkBack` | gclib/tinygc.c:2679-2692 | one record goes back into its bucket and the address range grows just enough |
| `ObjTable.ObjHtable.SomeRefill` | gclib/tinygc.c:2654-2704 | up to the given number of records return from the follow list, or else the marked list, to their buckets; nothing else moves, and 0 means both lists are empty |
| `ObjTable.ObjHtable.RemoveAll` | gclib/tinygc.c:2503-2538 | every bucket is emptied onto the free list, count and address range are reset, and the wrapped sum of flagged sizes is right below the flag bit |
| `ObjTable.MaskedSum` | gclib/tinygc.c:2526-2535 | adding flagged size words modulo the word and masking once gives the sum of the sizes modulo the flag bit |
| `Marking.RootStep` | gclib/tinygc.c:1667-1682 | scanning one more root region keeps the tri-colour invariant |
| `Marking.ScanRoots` | gclib/tinygc.c:1667-1682 | after all root regions no root word names a white object; a stop leaves the invariant for the regions scanned |
| `Marking.FollowStep` | gclib/tinygc.c:1755-1774 | blackening a grey object and scanning its body keeps the invariant: no black body names a white object |
| `Marking.ScanFollowable` | gclib/tinygc.c:1750-1776 | the grey list is worked off, or the stop function ends it with the invariant intact |
| `Marking.ChainIsBlack` | gclib/tinygc.c:1750-1776 | with no grey objects left, everything along a chain of references from a root is black |
| `Marking.MarkedExactly` | gclib/tinygc.c:2813-2825 | a completed mark leaves everything reachable on the marked list, and everything on it was reached through scanned words |
| `Gcdata.GcdataAlloc` | gclib/tinygc.c:994-1033 | the new collector satisfies all the invariants; there is none exactly when the limit or the core allocator refuses one of the bucket arrays |
| `Gcdata.Collector.InnerCoreMalloc` | gclib/tinygc.c:2906-2932 | it fails just when the size limit or the heap limit leaves no room or the core allocator has no block to use; the books stay balanced and the heap limit is kept, and failure changes nothing |
| `Gcdata.LimitTest` | gclib/tinygc.c:2911-2914 | the wrapped limit test compares the true heap size after the allocation |
| `Gcdata.Drain` | gclib/tinygc.c:2706-2753 | records of pending objects move to the unlinked list, their bytes become free bytes, and the pending total is reduced by the masked sum |
| `Gcdata.Collector.FreePending` | gclib/tinygc.c:2706-2753 | freeing pending objects keeps every record in one place and the books balanced, and drops exactly the front of the free list |
| `Gcdata.Collector.AllocHroots` | gclib/tinygc.c:2934-2957 | a bigger bucket array is charged to the heap, pending objects may be freed on the way; failure means no room or nothing from the core allocator |
| `Gcdata.Collector.RefillAll` | gclib/tinygc.c:2793-2796 | either every record of the two colour lists is back in the table or the stop function was the reason; the objects held stay the same |
| `Gcdata.Collector.Rehash` | gclib/tinygc.c:2859-2869 | the bucket array is replaced only when the table is empty, and the old one is given back |
| `Gcdata.Collector.Mark` | gclib/tinygc.c:2813-2825 | the mark phase ends completed or stopped; the objects held are the same either way |
| `Gcdata.Collector.Sweep` | gclib/tinygc.c:2851-2858 | what is left in the table goes to the free list, and marked_bytes drops by exactly its bytes |
| `Gcdata.Collector.Finish` | gclib/tinygc.c:2845-2872 | after a sweep the live bytes are counted in marked_bytes alone |
| `Gcdata.ArrayBytes` | gclib/tinygc.c:2934-2938 | the bytes charged for the bucket array are those of its buckets and its end marker |
| `Gcdata.BlocksAreClear` | gclib/tinygc.c:2912-2925 | a block of the core allocator can be used just when it is aligned and clear of every object held |
| `Gcdata.Collector.Enlarge` | gclib/tinygc.c:2859-2869 | an empty table moves to an array twice as long, or stays as it was |
| `Gcdata.Collector.Collect` | gclib/tinygc.c:2790-2872 | behind the first question to the stop function: the collection is completed and what it keeps is right, or the stop function asked and the objects are as before |
| `Gcdata.Collector.CollectUnreachable` | gclib/tinygc.c:2755-2904 | after a completed collection every object that a word of the stack, of a data root or of a surviving body names is kept, and every object kept is at the end of a chain that starts with a word of the stack or of a data root; one that is given up reclaims nothing, and happens only without data roots or when the stop function asks for it |
| `Gcdata.WordScanned` | gclib/tinygc.c:1667-1682 | every aligned word inside the stack or inside a data root is among the words scanned |
| `Gcdata.ScannedWord` | gclib/tinygc.c:1667-1682 | every word scanned is an aligned word of the stack or of a data root |
| `Gcdata.SurviveWords` | gclib/tinygc.c:1667-1682 | what survives for the regions scanned survives for the words of the stack and the data roots |
| `Gcdata.MarkedWords` | gclib/tinygc.c:1667-1682 | what a right mark keeps is led to from a word of the stack or of a data root |
| `Gcdata.Collector.FreeOrCollect` | gclib/tinygc.c:2966-2983 | pending objects are freed first and then there may be a collection, which reachable objects survive |
| `Gcdata.Collector.CoreMallocWithGc` | gclib/tinygc.c:2959-3009 | whatever freeing and collecting it does, reachable objects survive and the books stay balanced; it fails only when there is no room or the core allocator was asked and had nothing in the end |
| `Gcdata.Collector.LastResort` | gclib/tinygc.c:2984-2999 | the last attempts free pending objects only; the block, if there is one, is charged to the heap within its limit, and there is none only when the request was denied |
| `Gcdata.Collector.AllocObjlinks` | gclib/tinygc.c:3011-3036 | a block of new records joins the unlinked list, each record exactly once; failure means that its bytes were denied |
| `Gcdata.FillUnused` | gclib/tinygc.c:3023-3034 | the records of a block join the unlinked list, none twice |
| `Gcdata.Collector.HeapExpand` | gclib/tinygc.c:1035-1077 | a successful expansion raises heap size and free bytes alike and never above the limit |
| `Gcdata.Collector.RehashOnly` | gclib/tinygc.c:3082-3102 | without collections the table grows by emptying it through the marked list; every object is kept |
| `Gcdata.Collector.Prepare` | gclib/tinygc.c:3069-3134 | what is done before the first attempt, a collection, a bigger table or a bigger heap, keeps every reachable object |
| `Gcdata.Collector.NewObject` | gclib/tinygc.c:3147-3150 | the new object is in the table and counted in bytes_allocd |
| `Gcdata.Collector.Recycle` | gclib/tinygc.c:3151-3187 | lazy refilling and freeing after an allocation keep all objects that are not pending |
| `Gcdata.Collector.TryMalloc` | gclib/tinygc.c:3135-3150 | one attempt: the object, if it can be had, is white and counted, and everything reachable is still held |
| `Gcdata.Collector.GetObject` | gclib/tinygc.c:3137-3150 | the object is of the size asked of the core allocator and in the table, and there is none only if that size was denied |
| `Gcdata.Collector.Serve` | gclib/tinygc.c:3064-3239 | the attempts together: an object of the padded size, or a denied request for it or for a block of records |
| `Gcdata.PaddedByOne` | gclib/tinygc.c:3059-3062 | the size is the one asked for, or one more just for objects below 256 bytes with interior pointers, and then the address behind the object still names it |
| `Gcdata.Collector.Retry` | gclib/tinygc.c:3237-3239 | later attempts add no loss: what was reachable when the call began is still held |
| `Gcdata.Collector.GeneralMalloc` | gclib/tinygc.c:3038-3242 | the object returned is in the table with the size asked for, or one byte more for a small object with interior pointers, whose end address then still names it; everything that words of the stack, of the data roots and of surviving objects named when the call began is still held, over all retries; there is none only for a request of 0 bytes or after a request to the core allocator was denied |
| `Gcdata.SurviveTwice` | gclib/tinygc.c:3064-3239 | surviving one collection and then another is surviving both |
| `Gcdata.AddSound` | gclib/tinygc.c:2450-2501 | a record taken from the unlinked list for a new object stays in exactly one place and is paid for |
| `Gcdata.SweepSound` | gclib/tinygc.c:2851-2858 | moving the white objects to the free list keeps every record in one place and the pending bytes right |
| `Gcdata.Collector.RootsAdd` | gclib/tinygc.c:1158-1215 | on success the covered addresses are the old ones and the range rounded to words, and for a begin up to 2^64 - 8 what is new lies in the range given; failure changes no root and happens only for a range that touches none, when the bytes of a new root node were denied |
| `Gcdata.RoundedInwards` | gclib/tinygc.c:1167-1168 | a range that rounding leaves non-empty stays inside the one given just when its begin is at most 2^64 - 8 |
| `Gcdata.RoundsToWords` | gclib/tinygc.c:1167-1168 | rounding down gives the greatest multiple of 8 that is no larger, and rounding up the least that is no smaller, for addresses up to 2^64 - 8 |
| `Gcdata.RoundedOutwards` | gclib/tinygc.c:1167-1168 | a begin of 2^64 - 1 is rounded to address 0, which the root then covers |
| `Gcdata.Collector.RootsDelInside` | gclib/tinygc.c:1081-1105 | exactly the roots that lie inside the range are gone |
| `Gcdata.Collector.RootsExclude` | gclib/tinygc.c:1107-1154 | the range is cut out of the root that it splits or overlaps; failure happens only where a root is split in two; reachable objects survive and the limit is kept |
| `Gcdata.Collector.ExcludeStaticRoots` | gclib/tinygc.c:3520-3539 | deleting the roots inside and then cutting is set difference with the rounded range; failure happens only inside one root and changes no root; reachable objects survive and the limit is kept |
| `Roots.SeekEnd` | gclib/tinygc.c:1171-1172 | the first root that does not end before the range |
| `Roots.SeekPast` | gclib/tinygc.c:1113-1114 | the first root that ends after the address |
| `Roots.InsertOk` | gclib/tinygc.c:1173-1187 | a range clear of all roots, put between them, keeps the list sorted with gaps and adds its length |
| `Roots.Merge` | gclib/tinygc.c:1188-1211 | a root stretched over the range, and the roots it then touches, become one; the total length stays exact |
| `Roots.Swallow` | gclib/tinygc.c:1198-1206 | roots that the stretch reaches are swallowed and may lengthen it; their lengths are taken off the total |
| `Roots.SplitAlone` | gclib/tinygc.c:1088-1103 | no other root lies in a range that is strictly inside one |
| `Roots.DelInside` | gclib/tinygc.c:1088-1103 | only roots inside the range are dropped and the total length follows |
| `Roots.CutOk` | gclib/tinygc.c:1115-1152 | cutting keeps the list sorted with gaps and the total length exact |
| `Roots.DelInsideCovers` | gclib/tinygc.c:3533-3535 | outside the range the roots cover what they covered before |
| `Chunks.Predecessor` | gclib/dlmalloc.c:1821-1842 | every chunk but the first one starts where another ends |
| `Chunks.FootLeads` | gclib/dlmalloc.c:1819-1830 | a clear PREV_INUSE bit means that the footer leads to the free chunk before |
| `Chunks.FollowsUsed` | gclib/dlmalloc.c:2504-2533 | a free chunk, and the top, always follow a chunk in use |
| `Chunks.NoFreeNeighbours` | gclib/dlmalloc.c:2525-2528 | no free chunk touches another free chunk or the top |
| `Chunks.Take` | gclib/dlmalloc.c:3355-3359 | setting the in-use bit behind a free chunk takes it and keeps all other tags right |
| `Chunks.TakeFront` | gclib/dlmalloc.c:3424-3433 | splitting a free chunk keeps the arena tiled and tagged |
| `Chunks.TakeTop` | gclib/dlmalloc.c:3542-3551 | splitting the top keeps the arena tiled and tagged |
| `Chunks.Grow` | gclib/dlmalloc.c:2967-2969 | more memory behind the top keeps the arena tiled and tagged |
| `Chunks.Release` | gclib/dlmalloc.c:3629-3669 | fusing chunks into one free chunk keeps tiling, in-use bits, footers and the absence of free neighbours |
| `Chunks.ReleaseTop` | gclib/dlmalloc.c:3676-3681 | fusing chunks into the top does as well |
| `Chunks.ArenaBytes` | gclib/dlmalloc.c:1821-1842 | the sizes of all chunks add up to the size of the arena |
| `Bins.RequestIsLeast` | gclib/dlmalloc.c:1943-1961 | for every request in range the chunk size is aligned, holds it, is the least that does, and nothing wraps |
| `Bins.OutOfRangeWraps` | gclib/dlmalloc.c:1938-1945 | a request is out of range just when adding twice the minimum chunk to it wraps |
| `Bins.BinWidths` | gclib/dlmalloc.c:2110-2149 | two sizes in one bin, other than the last, differ by less than the width that the table gives for it |
| `Bins.BinRange` | gclib/dlmalloc.c:2134-2149 | indices of legal sizes lie between 4 and 126, and below 64 just for small ones |
| `Bins.BinMonotone` | gclib/dlmalloc.c:2134-2149 | bin indices never fall as sizes grow, through all the ranges |
| `Bins.SmallBinExact` | gclib/dlmalloc.c:2134-2149 | a small bin holds one size |
| `Bins.FastBinExact` | gclib/dlmalloc.c:2229 | a fast bin holds one size |
| `Bins.LargePlace` | gclib/dlmalloc.c:3373-3386 | the place found: the very end just when the chunk is no larger than the last one, otherwise before the first one that is not larger; size fields are compared with their flag |
| `Bins.InsertBinOk` | gclib/dlmalloc.c:3363-3393 | linking a chunk at a place between larger and smaller ones keeps the bin sorted and of its index |
| `Bins.LargeScan` | gclib/dlmalloc.c:3407-3412 | the scan from the small end finds the smallest chunk of the bin that fits, the last one of its size |
| `Bins.NewestFirst` | gclib/dlmalloc.c:3376-3412 | of equal chunks the newest is taken before those already in the bin just when their size is the smallest of the bin |
| `Bins.NewestOfThree` | gclib/dlmalloc.c:3376-3380 | a third chunk of 608 bytes goes behind two of that size and is taken before them |
| `Bins.BitPassesMap` | gclib/dlmalloc.c:3456-3457 | `bit > map` holds exactly when no set bit is left at or above the bit |
| `Bins.BitAbove` | gclib/dlmalloc.c:3467-3472 | if the bit does not pass the map and is clear there is a set bit further up, so the shift never reaches 0 |
| `Heap.HeldApart` | gclib/dlmalloc.c:2454-2495 | chunks that the client holds never overlap and lie inside the arena |
| `Heap.FullyCoalesced` | gclib/dlmalloc.c:3745-3840 | once the fast bins are empty, every free chunk is followed by one that the client holds |
| `Heap.ClientWrites` | gclib/dlmalloc.c:1819-1842 | overwriting the prev_size field behind a chunk in use breaks nothing |
| `Heap.PopFast` | gclib/dlmalloc.c:3249-3256 | a chunk popped off a fast bin is one the client did not hold, and now holds |
| `Heap.PushFast` | gclib/dlmalloc.c:3619-3622 | freeing into a fast bin takes just that chunk from the client |
| `Heap.TakeChunk` | gclib/dlmalloc.c:3273-3281 | unlinking a whole free chunk and setting its in-use bit keeps the invariant and gives just that chunk |
| `Heap.SplitChunk` | gclib/dlmalloc.c:3334-3347 | splitting a free chunk and resetting the unsorted bin to the remainder keeps the invariant, provided no other chunk was unsorted |
| `Heap.SplitTop` | gclib/dlmalloc.c:3542-3551 | splitting the top keeps the invariant and gives just that chunk |
| `Heap.GrowTop` | gclib/dlmalloc.c:2967-2969 | growing the top keeps the invariant and what the client holds |
| `Heap.BinChunk` | gclib/dlmalloc.c:3361-3393 | moving a chunk from the unsorted bin to its regular bin, with its map bit set, keeps the invariant |
| `Heap.UnmarkEmpty` | gclib/dlmalloc.c:3477-3482 | clearing the map bit of an empty bin keeps the invariant |
| `Heap.JoinFacts` | gclib/dlmalloc.c:3629-3650 | the stretch that freeing makes consists of the chunk, its free neighbours or the top, and nothing else |
| `Heap.ReleaseChunk` | gclib/dlmalloc.c:3629-3669 | coalescing keeps the whole invariant and takes just the freed chunk from the client |
| `Heap.ReleaseIntoTop` | gclib/dlmalloc.c:3676-3681 | coalescing with the top does as well |
| `Heap.TiedSteps` | gclib/dlmalloc.c:3641-3666 | the size fields the code writes, one after the other, are those of the fused arena |
| `Heap.BestFit` | gclib/dlmalloc.c:3438-3521 | the smallest fitting chunk of the first bin that has one is the smallest fitting chunk of all bins |
| `Heap.LastFits` | gclib/dlmalloc.c:3474-3488 | the last chunk of the first non-empty larger bin fits and is the best fit |
| `Heap.NoneFits` | gclib/dlmalloc.c:3457-3461 | when the search runs out of bins no binned chunk fits |
| `Dlmalloc.MallocState.constructor` | gclib/dlmalloc.c:2381-2404 | a fresh arena satisfies the invariant |
| `Dlmalloc.MallocState.Unlink` | gclib/dlmalloc.c:2101-2106 | a free chunk leaves whatever bin it is in, and no other chunk leaves one |
| `Dlmalloc.MallocState.Release` | gclib/dlmalloc.c:3629-3681 | the coalescing code keeps the invariant and removes exactly one chunk from those held |
| `Dlmalloc.MallocState.Consolidate` | gclib/dlmalloc.c:3745-3840 | all fast bins are emptied, the flag is clear, the client holds what it held, and the arena is the same |
| `Dlmalloc.MallocState.Free` | gclib/dlmalloc.c:3578-3728 | exactly the freed chunk is no longer held, and the invariant holds again; null is ignored |
| `Dlmalloc.MallocState.TakeWhole` | gclib/dlmalloc.c:3418-3422 | a chunk not worth splitting goes to the client whole, with the in-use bit behind it set |
| `Dlmalloc.MallocState.SplitVictim` | gclib/dlmalloc.c:3334-3347 | the front of a chunk goes to the client, the rest becomes the only unsorted chunk, and nothing else is lost |
| `Dlmalloc.MallocState.Carve` | gclib/dlmalloc.c:3490-3519 | whichever of the two is done, the client gets the chunk with less than the minimum chunk wasted |
| `Dlmalloc.MallocState.Drain` | gclib/dlmalloc.c:3317-3394 | the unsorted bin is emptied into the regular bins and no chunk leaves the bins, or one of its chunks serves the request: an exact fit, which is the best fit, or the front of the last remainder for a small request with no exact fit in any bin; the rest of it is the new last remainder, alone in the unsorted bin |
| `Dlmalloc.MallocState.PlaceInBin` | gclib/dlmalloc.c:3363-3387 | the place found lies between chunks no smaller and chunks no larger |
| `Dlmalloc.MallocState.BinVictim` | gclib/dlmalloc.c:3361-3394 | a chunk that is not an exact fit never lands in the bin of an exact fit |
| `Dlmalloc.MallocState.SearchLarge` | gclib/dlmalloc.c:3403-3435 | a chunk taken from the bin of the request is the best fit of all binned chunks; otherwise none in that bin fits |
| `Dlmalloc.MallocState.NextMarked` | gclib/dlmalloc.c:3456-3472 | every bin passed over by the map search is empty |
| `Dlmalloc.MallocState.FalseAlarm` | gclib/dlmalloc.c:3477-3482 | the bit of an empty bin is cleared and the invariant holds |
| `Dlmalloc.MallocState.TakeLast` | gclib/dlmalloc.c:3484-3519 | the last chunk of the first larger bin that is not empty is the best fit of all binned chunks |
| `Dlmalloc.MallocState.SearchMap` | gclib/dlmalloc.c:3448-3521 | a chunk taken by the map search is the best fit of all binned chunks; otherwise none fits |
| `Dlmalloc.MallocState.QuickFit` | gclib/dlmalloc.c:3249-3283 | the front of the fast bin of the size if it is not empty, otherwise the last chunk of the small bin; if both are empty, nothing changed |
| `Dlmalloc.ExactFits` | gclib/dlmalloc.c:3249-3283 | a chunk of exactly the size asked for is in the fast bin, or in the small bin, of that size |
| `Dlmalloc.MallocState.Pass` | gclib/dlmalloc.c:3315-3551 | one pass serves the request with the best fit of the bins, a piece of the last remainder where no bin has an exact fit, or the top if no binned chunk fits; otherwise no binned chunk fits and the top is too small |
| `Dlmalloc.MallocState.Serve` | gclib/dlmalloc.c:3249-3571 | for a request in range: the chunk and where it came from, or nothing when the system supplies too little |
| `Dlmalloc.MallocState.TakeTop` | gclib/dlmalloc.c:3542-3551 | a request that leaves the minimum in the top is split off it |
| `Dlmalloc.MallocState.SysMalloc` | gclib/dlmalloc.c:2766-3132 | the system lengthens the top by what it supplies or fails; the invariant holds either way, and a failure means that the top is still too small |
| `Dlmalloc.MallocState.Malloc` | gclib/dlmalloc.c:3206-3571 | a request that is met adds one chunk that was not held, large enough and wasting less than the minimum chunk, and chosen rightly in the state at the call or after consolidation: the front of the fast bin of its size if that is not empty, otherwise the last chunk of its small bin, otherwise a piece of the last remainder if that is alone in the unsorted bin; the best fit of all binned chunks, the top only if no binned chunk fits, the system only if the top does not either; a request below 2^64 - 64 is not met only if no fast or binned chunk nor the top can take it and the system supplies too little |
| `BinLinks.SoundSeparate` | gclib/dlmalloc.c:2712-2717 | in every state of the invariant each free chunk is on one list, at one place |
| `BinLinks.TrimmedSeparate` | gclib/dlmalloc.c:3629-3669 | so has every state within a release, and the chunk that is to be linked is on no list |
| `BinLinks.Links.Unlink` | gclib/dlmalloc.c:2101-2106 | the two pointer assignments take a chunk out of its circular list and leave all other lists alone |
| `BinLinks.Links.Insert` | gclib/dlmalloc.c:3390-3393 | the four pointer assignments link a chunk between two neighbours |
| `BinLinks.Links.Reset` | gclib/dlmalloc.c:3337-3339 | resetting a list to a remainder makes it that one chunk |
| `Probing.NextSlot` | adlib/set.h:39-41 | one step in wrapping words goes to the next slot of the sequence 5x+1 from the hash |
| `Probing.DividesSteps` | adlib/set.h:39-41 | 2^k divides x_n exactly when it divides n, which is what makes the sequence full |
| `Probing.Injective` | adlib/set.h:39-41 | the first 2^k probes go to different slots |
| `Probing.FullPeriod` | adlib/set.h:39-41 | every slot of a table of 2^k is among the first 2^k probes, for every hash |
| `Slots.MatchOnProbe` | adlib/set.h:190-208 | a key equivalent to the one looked for lies on its probe sequence before any empty slot, with a matching fingerprint |
| `Slots.NotThere` | adlib/set.h:274-283 | a search that meets an empty slot has not missed the key |
| `Slots.PutConsistent` | adlib/set.h:210-216 | storing an absent key, in a tombstone or an empty slot, keeps every key reachable and adds just this one |
| `Slots.ReplaceConsistent` | adlib/set.h:201-204 | replacing an equivalent key keeps the table consistent |
| `Slots.DeleteConsistent` | adlib/set.h:260-264 | a tombstone hides no other key |
| `Slots.SomeEmpty` | adlib/set.h:200-209 | while live and deleted slots are fewer than all, there is an empty one |
| `HashSets.NextPow2` | adlib/basic.h:16-21 | the least power of two that is not smaller |
| `HashSets.Set.constructor` | adlib/set.h:135-142 | an empty table |
| `HashSets.Set.Search` | adlib/set.h:190-208 | the probing loop ends at a match or at an empty slot that proves there is none, within the size of the table |
| `HashSets.Set.UncheckedAdd` | adlib/set.h:196-217 | the set becomes that of add without growing the table |
| `HashSets.Set.Rebuild` | adlib/set.h:118-133 | the contents are unchanged, no tombstone is left and the table is at most half full |
| `HashSets.Set.Refill` | adlib/set.h:129-132 | every occupied slot of the old arrays is in the new table, which has no tombstone |
| `HashSets.Set.Add` | adlib/set.h:239-245 | an equivalent key stays, or gives way when replace is set; otherwise the key is added |
| `HashSets.Set.GetOrAdd` | adlib/set.h:219-237 | the key that is in the set afterwards for this item is returned; unless the table was rebuilt the number of tombstones is unchanged, so none is reused |
| `HashSets.Set.Remove` | adlib/set.h:256-272 | exactly the equivalent key is removed, and the answer says whether there was one |
| `HashSets.Set.Find` | adlib/set.h:274-283 | a key is found exactly when an equivalent one is in the set |
| `HashSets.Set.SpaceBound` | adlib/set.h:118-133 | every valid table has at least 8 slots and at most eight per key, and count is the number of keys |
| `HashSets.Set.DiffInPlace` | adlib/set.h:313-319 | set difference |
| `HashSets.Set.IntersectWith` | adlib/set.h:326-334 | set intersection |
| `HashMaps.AddedLeads` | adlib/map.h:218-250 | adding changes where equivalent keys lead, as replace says, and nothing else |
| `HashMaps.WithoutLeads` | adlib/map.h:268-285 | removing changes where equivalent keys lead and nothing else |
| `HashMaps.Map.constructor` | adlib/map.h:155-162 | an empty map |
| `HashMaps.Map.OneValue` | adlib/map.h:218-242 | a key leads to one value at most |
| `HashMaps.Map.Add` | adlib/map.h:244-250 | the table agrees with the mathematical map after add |
| `HashMaps.Map.Remove` | adlib/map.h:268-285 | the table agrees with the mathematical map after remove |
| `HashMaps.Map.Find` | adlib/map.h:287-298 | find gives the value that the key leads to, or none |
| `BitSets.SetRow` | adlib/bitset.h:84-87 | or-ing one bit into its word adds one element |
| `BitSets.ClearRow` | adlib/bitset.h:88-91 | masking one bit out of its word removes one element |
| `BitSets.OrRows` | adlib/bitset.cc:64-69 | or-ing all words is set union, and tail bits stay zero |
| `BitSets.BitCountIsOnes` | adlib/bitset.cc:6-10 | the parallel additions and the multiplication count the set bits of a word |
| `BitSets.ComplementRow` | adlib/bitset.cc:48-58 | flipping all words and clearing the tail is the complement |
| `BitSets.BitSet.constructor` | adlib/bitset.cc:12-17 | an empty set |
| `BitSets.BitSet.Copy` | adlib/bitset.h:77-80 | the same bits in fresh storage |
| `BitSets.BitSet.Set` | adlib/bitset.h:84-87 | adds the element |
| `BitSets.BitSet.Clear` | adlib/bitset.h:88-91 | removes the element |
| `BitSets.BitSet.Test` | adlib/bitset.h:92-95 | tells membership |
| `BitSets.BitSet.Count` | adlib/bitset.cc:39-46 | is the cardinality |
| `BitSets.BitSet.ComplementInPlace` | adlib/bitset.cc:48-58 | is the complement below the length |
| `BitSets.BitSet.UnionInPlace` | adlib/bitset.cc:64-69 | is set union, also with itself |
| `Closure.ThroughKeeps` | adlib/bitset.cc:151-157 | one column step keeps: contains the matrix, only paths, closed under paths through the columns done |
| `Closure.ClosureIsPaths` | adlib/bitset.cc:151-157 | after all columns a bit is set exactly when a path of length at least one leads there |
| `Closure.MakeBitMatrix` | adlib/bitset.cc:99-104 | a matrix of empty rows that share no storage |
| `Closure.Clone` | adlib/bitset.cc:106-111 | a matrix of the same rows in storage of its own |
| `Closure.CloseColumn` | adlib/bitset.cc:152-156 | the row loop, updating rows in place while they are read, is one column step |
| `Closure.CloseRow` | adlib/bitset.cc:153-155 | a row takes over the row of the column if it has that bit, also when the two are one |
| `Closure.TransitiveClosure` | adlib/bitset.cc:142-159 | bit (i, j) of the result is set exactly when a path of length at least one leads from i to j; the argument is not changed |
| `Closure.Transpose` | adlib/bitset.cc:124-140 | the transposed matrix, without rows if there are none |
| `Closure.FillRow` | adlib/bitset.cc:133-137 | a row of the result is a column of the matrix |
| `Closure.TransposeTwice` | adlib/bitset.cc:124-140 | transposing twice gives the matrix back, with at least one row and one column |
| `CallGraph.ReversedPaths` | src/analyzer.cc:181-187 | paths of the transposed graph are the paths backwards |
| `CallGraph.EnterCalls` | src/analyzer.cc:179-189 | the calls of one function become bits of its row, or of its column, and no other bit changes |
| `CallGraph.BuildCallGraph` | src/analyzer.cc:170-192 | the closure of the call graph, or of the transposed one |
| `CallGraph.ClosedEdges` | src/analyzer.cc:181-191 | closing the transposed graph gives the callers |
| `CallGraph.FindAllCalls` | src/analyzer.cc:194-212 | exactly the base functions and those their rows lead to |
| `Tokens.SkipBlank` | src/analyzer.cc:10-17 | the next token that is neither white space nor a line end nor a comment |
| `Tokens.SkipUntil` | src/analyzer.cc:19-27 | the next token of the kind, or the end marker |
| `Tokens.FindCalls` | src/analyzer.cc:112-135 | exactly the positions where a known name is followed by an opening parenthesis inside the range |
| `Sections.FindUnsafeSections` | src/analyzer.cc:223-272 | each section is the open branch of a conditional that mentions WARD_ENABLED, none is left out; the code stops with an error exactly when such a conditional is not closed or holds another one in its open branch |
| `Sections.WardMentioned` | src/analyzer.cc:234-239 | the conditionals that count are those whose text has WARD_ENABLED in it, anywhere |
| `Sections.IntendedSections` | src/analyzer.cc:234-239 | the sections start at the conditionals that ask for WARD_ENABLED not to be defined, and at no others, just when no other conditional mentions it |
| `Sections.OppositeQuestion` | src/analyzer.cc:234-239 | #ifdef WARD_ENABLED opens a section as well |
| `Selection.BuildFuncMap` | src/analyzer.cc:152-158 | each name leads to the first function that has it |
| `Selection.FuncCalls` | src/analyzer.cc:137-150 | exactly the functions that the body calls, as names lead to them |
| `Selection.AllCalls` | src/analyzer.cc:160-168 | the call lists of all functions are the call relation of the program |
| `Selection.SectionCalls` | src/analyzer.cc:295-308 | exactly the names called directly in unsafe sections |
| `Selection.OneSection` | src/analyzer.cc:283-288 | exactly the known names called in this section |
| `Selection.FindWardFuncs` | src/main.cc:133-137 | exactly the functions from which a root function is reached |
| `Selection.FindUsedFuncs` | src/main.cc:142-147 | exactly the functions with a seed name and those they call, directly or not |
| `Selection.Select` | src/main.cc:132-155 | for any function names, exactly the names reached from calls in unsafe sections that also reach a root, without CHANGED_BAG; with distinct names these are the functions on a call path from a direct call in an unsafe section to a root function |
| `Selection.PathSelected` | src/main.cc:132-155 | a function on such a path is never missed, whatever names repeat |
| `Selection.DirectSelected` | src/main.cc:8 | a function called directly in an unsafe section lies on such a path just when it reaches PTR_BAG or CONST_PTR_BAG |
| `Selection.AddrObjIgnored` | src/main.cc:8 | an inline function that calls ADDR_OBJ, and is called in an unsafe section, is not selected |
| `Selection.SeedReaches` | src/main.cc:141-151 | seeding only with calls of functions that reach a root loses nothing |
| `Selection.CalleesCovered` | src/main.cc:142-155 | a callee of a selected function that reaches a root is on such a path too |
| `Rewrite.UnsafeTwice` | src/rewrite.cc:18-42 | marking a name unsafe twice is marking it once |
| `Rewrite.SafeOfUnsafe` | src/rewrite.cc:44-60 | the safe name of an unsafe name is the original |
| `Rewrite.PrefixByCase` | src/rewrite.cc:18-42 | names with a lower-case letter get the prefix Unsafe, all others UNSAFE_, unless they begin with it |
| `Rewrite.SkipToMatch` | src/analyzer.cc:29-48 | the brace that closes this one, or the end of the file exactly when there is none |
| `Rewrite.ReadInline` | src/analyzer.cc:63-85 | behind the keywords of an inline function: its name and body, or the reason why no inline function begins there; a scan that goes to the end of the file shows that none follows |
| `Rewrite.FindInlineFunctions` | src/analyzer.cc:50-94 | the functions found start at their keywords, have their name before the first parenthesis and end at the brace that closes their body; they do not overlap, and every other inline function begins inside one of them |
| `Rewrite.RecordCalls` | src/analyzer.cc:137-141 | the call positions of every function body are recorded |
| `Rewrite.RecordFunc` | src/analyzer.cc:137-140 | the positions recorded are exactly the calls in the body |
| `Rewrite.UpdateUnsafeSection` | src/rewrite.cc:142-156 | exactly the calls of selected functions are renamed; the answer says whether there was one |
| `Rewrite.Widen` | src/rewrite.cc:64-74 | the stretch grows by white space before it and white space and one line end after it |
| `Rewrite.FindName` | src/rewrite.cc:75-90 | the last identifier before the first parenthesis is the name of the function |
| `Rewrite.Rename` | src/rewrite.cc:91-101 | the copy differs from the stretch only at recorded positions with selected names |
| `Rewrite.CopyOut` | src/rewrite.cc:90-101 | in the copy exactly the own name of the function and its calls of selected functions are renamed |
| `Rewrite.GenUnsafeCode` | src/rewrite.cc:62-123 | the unsafe copy differs from the source range exactly by its own name and the calls of selected functions; it is compiled where USE_HPC_GUARDS is defined, and otherwise a macro leads from the unsafe name to the function |
| `Rewrite.Wrap` | src/rewrite.cc:102-122 | the copy stands on its own lines between #ifdef USE_HPC_GUARDS and #else, the macro between #else and #endif |
| `Rewrite.CallsStillKnown` | src/rewrite.cc:142-156 | call positions recorded before the sections were updated still stand for the calls of selected functions |
| `Rewrite.GenAll` | src/rewrite.cc:125-140 | every function in use and not skipped gets its copy, made of the stretch found with its body, and the stretches still do not overlap |
| `Rewrite.MakeUnsafe` | src/rewrite.cc:62-123 | the copy of one function is that of the stretch found, and the widened stretch stays clear of the next function |
| `Rewrite.RewriteSourceFile` | src/rewrite.cc:181-241 | all tokens in order, the unsafe code of each function between the end of its stretch and the next token, on lines of its own, and nothing else but line ends and, with the option, line directives of this file |
| `Rewrite.NothingLost` | src/rewrite.cc:207-239 | deleting the inserted segments gives back every token of the file in order |
| `Rewrite.CodeInPlace` | src/rewrite.cc:207-239 | with and without line directives, the code of every copy stands whole between the last token of its stretch and the next token, with only line ends and line directives around it, the last of which name the lines of the stretch and of the next token |
| `Rewrite.CodeStands` | src/rewrite.cc:217-233 | so the code of every copy is a contiguous part of the file |
| `Rewrite.CodeDefines` | src/rewrite.cc:102-122 | the code holds an inline function of the unsafe name alone under the guard |
| `Rewrite.FunctionStands` | src/rewrite.cc:217-239 | an inline function in whose stretch no copy ends is in the rewritten file as it was |
| `Lines.LineNumbers` | src/rewrite.cc:189-206 | the line number of every token, line ends and the newlines inside comments counted |
| `Lines.LinesOfText` | src/rewrite.cc:189-206 | these are the lines of the text, one more than the newlines before the token, just when line ends hold one newline each and other tokens outside comments none |
| `Lines.LoneReturn` | src/rewrite.cc:193-195 | a lone carriage return counts as a line although the text has no newline there |
| `Lines.DecimalRead` | src/rewrite.cc:175 | the digits written into a directive read back as the number |
| `Rewrite.DirectiveNames` | src/rewrite.cc:167-179 | after a line directive the compiler reports the line of the token it was made for, wherever it is put |
| `Rewrite.DirectiveText` | src/rewrite.cc:167-179 | the directive is #line with the number in decimal digits and the name of the file in quotes |
| `Rewrite.LineExample` | src/rewrite.cc:174-178 | for line 120 of a.h it reads #line 120 "a.h" |
| `Rewrite.LinesKept` | src/rewrite.cc:207-239 | with line directives every kept token of the rewritten file is reported on the line it has in the original |
| `Rewrite.CopyOneLate` | src/rewrite.cc:220-223 | the unsafe copy itself begins one line late, because its conditional takes the line that the directive names |
| `Rewrite.ProcessFile` | src/main.cc:156-172 | one file and its functions: exactly the calls at the given positions that name selected functions are renamed, each function in use and not skipped has its copy, made of the stretch found with its body, and the rewritten file is the updated one with the code of each copy right behind its stretch |
| `Pipeline.FindFunctions` | src/analyzer.cc:96-105 | the functions listed are inline functions of header files, and every inline function of a header file begins inside one that is listed; other files are not searched, and only an unclosed body in a header file stops the run |
| `Pipeline.HeaderEnding` | src/analyzer.cc:100 | header files are those whose names end in .h |
| `Pipeline.UnsafeNames` | src/main.cc:123-130 | the names skipped are those that have an unsafe prefix and their safe names |
| `Pipeline.FindSections` | src/analyzer.cc:274-281 | the sections of all files, each with its own end; the run stops just when some file has a mismatch |
| `Pipeline.UnsafeCalls` | src/analyzer.cc:282-289 | exactly the calls of the given names inside the sections of the file |
| `Pipeline.FinishFile` | src/main.cc:156-172 | in the file exactly the calls of selected functions in unsafe sections are renamed; each function selected and not skipped has its copy and there is no other; a copy is that of the stretch of its function with the blanks around it, with its own name and the calls of selected functions in the body renamed, and stands right behind the stretch |
| `Pipeline.CallsRenamed` | src/rewrite.cc:91-101 | in a copy every call of a selected function in the body has its unsafe name, at the place of the call |
| `Pipeline.CopyNames` | src/rewrite.cc:90-101 | in a copy the unsafe name of the function stands before a parenthesis, whether or not the name was changed in the file before |
| `Pipeline.NameChanged` | src/rewrite.cc:142-156 | a definition has the form of a call: the name of a selected function is changed where it is defined just when that is inside a section |
| `Pipeline.DefinitionsKept` | src/rewrite.cc:142-156 | the updated file keeps the name of each of its definitions just when no selected function, other than one whose name is unsafe already, is defined in a section |
| `Pipeline.DefinitionLost` | src/rewrite.cc:142-156 | PTR_BAG defined in a section is selected, and its definition becomes one of UNSAFE_PTR_BAG |
| `Pipeline.Transform` | src/main.cc:121-172 | a whole run: what the analysis finds is what the selection and the rewriting need, all files come out right, and for every renamed call that has a definition under its unsafe name that definition is in the text of a rewritten file |
| `Pipeline.NamedWhen` | src/main.cc:159-163 | a selected name has its unsafe name among the inline functions and copies just when it is not skipped or the files have an inline function with exactly that name |
| `Pipeline.RenamedDefined` | src/main.cc:156-163 | after a run, a call that was renamed finds a definition among the inline functions and copies under exactly the same condition |
| `Pipeline.CopyInFile` | src/main.cc:156-172 | the text of the rewritten file has the copy of each function selected and not skipped, as an inline function of the unsafe name under the guard |
| `Pipeline.KeptInFile` | src/main.cc:156-172 | the text of the rewritten file still has every inline function whose name is unsafe already |
| `Pipeline.DefinitionInText` | src/main.cc:156-172 | so a renamed call finds its definition in the text of a rewritten file, if its function is not skipped or the files have one with exactly the unsafe name |
| `Pipeline.OtherPrefix` | src/main.cc:123-130 | with foo beside UNSAFE_foo, foo is skipped although its calls become Unsafefoo, which no inline function or copy defines |
| `MD5.PaddingIsLeast` | adlib/md5.cc:91-100 | the zero bytes bring the length to 56 modulo 64 and are as few as do |
| `MD5.LittleEndianRoundTrip` | adlib/md5.cc:101-106 | the bytes give the number back |
| `MD5.EncodedRoundTrip` | adlib/md5.cc:38-46 | the 16 bytes give the four words back |
| `MD5.InitialBytes` | adlib/md5.h:21-25 | the initial words are, byte by byte, 01 23 .. ef fe dc .. 10, as section 3.3 of RFC 1321 has them |
| `MD5.PaddedParts` | adlib/md5.cc:91-107 | the padded message is the message, the byte 0x80, zero bytes and the eight bytes of its length in bits modulo 2^64 |
| `MD5.MoreWaits` | adlib/md5.cc:70-74 | data that fits waits behind the whole blocks absorbed |
| `MD5.BlockDone` | adlib/md5.cc:75-81 | a full fragment is the next block of the message |
| `MD5.PadSteps` | adlib/md5.cc:91-107 | the fragment filled by finish is the padding of RFC 1321, sections 3.1 and 3.2, with the length modulo 2^64 |
| `MD5.MD5.constructor` | adlib/md5.h:36-38 | a running digest of the empty message, from the initial words |
| `MD5.MD5.Reset` | adlib/md5.h:21-29 | starts again with the empty message and the initial words |
| `MD5.MD5.Wait` | adlib/md5.cc:70-74 | data that fits is kept behind what waits already |
| `MD5.MD5.Fill` | adlib/md5.cc:75-81 | a fragment filled up is absorbed as the next block of the message |
| `MD5.MD5.AbsorbBlocks` | adlib/md5.cc:82-86 | whole blocks of the data are absorbed until fewer than 64 bytes are left |
| `MD5.MD5.Spill` | adlib/md5.cc:75-88 | data that does not fit is absorbed, and the rest of it waits |
| `MD5.MD5.Update` | adlib/md5.cc:66-89 | the message grows by the data and fragment_length stays below 64, whatever the length |
| `MD5.MD5.Pad` | adlib/md5.cc:94-100 | after the byte 0x80 and the zero bytes, with one more block or none, the fragment lacks only the length |
| `MD5.MD5.PutLength` | adlib/md5.cc:101-106 | the last eight bytes become the length, low byte first, and the others stay |
| `MD5.MD5.Finish` | adlib/md5.cc:91-109 | the state is the fold of the block function over the padded message; a second call changes nothing |
| `MD5.ByteDigest` | adlib/md5.cc:38-46 | for every way of cutting a message into pieces the result is the encoded digest of their concatenation |
| `MD5.AddWord` | adlib/md5.cc:15-22 | four bytes, low byte first |
| `MergeSort.EqualsSwap` | adlib/arr.h:310-315 | whatever sorts [x, y] with x and y equal as the code does comes out as [y, x], so the sort is not stable |
| `MergeSort.MergedSorted` | adlib/arr.h:309-322 | merging sorted runs gives a sorted run, for every total preorder |
| `MergeSort.MergedPermutes` | adlib/arr.h:309-322 | merging loses and adds nothing |
| `MergeSort.MergedClass` | adlib/arr.h:309-316 | in a merge the elements of the right run come before the equal ones of the left run |
| `MergeSort.StableWhen` | adlib/arr.h:295-332 | for elements that can be told apart, the sort keeps the order of equal ones just when no two are equal |
| `MergeSort.OneOutcome` | adlib/arr.h:295-332 | sorted, and with each class in a given order, is one sequence: the outcome is determined |
| `MergeSort.PassDoubles` | adlib/arr.h:303-323 | a pass makes every aligned block of twice the step a sorted permutation of the original block, with equal elements in the opposite order, ragged last blocks included |
| `MergeSort.MergeWhile` | adlib/arr.h:309-316 | what is written, followed by the merge of what is left of the runs, is the merge of the two runs |
| `MergeSort.CopyOver` | adlib/arr.h:317-322 | the rest of a run is copied behind what is written |
| `MergeSort.MergeBlocks` | adlib/arr.h:304-322 | the inner loops merge two neighbouring blocks into the other buffer |
| `MergeSort.OnePass` | adlib/arr.h:303-323 | the outer loop is one pass over the array |
| `MergeSort.Arr.SortInPlace` | adlib/arr.h:295-332 | the contents become a sorted permutation of themselves with equal elements in exactly the opposite order, for every length and every total preorder |

## Left out

- TinyGC threads, signals, Win32, GCJ descriptors, finalizers, disappearing links, register capture and messages.
- `GC_objlink_refill_find`, which serves finalizers and disappearing links only.
- The `next` pointers of TinyGC lists: buckets and colour lists are sequences.
- `GC_guess_collect` and `GC_guess_expand_size`: their answers are arbitrary, so the proofs hold for every pacing.
- Gcdata.Collector.InnerCoreMalloc: starts from the answer that its loop accepts or null, and counts a block that would
  bring the bytes in use to 2^63, the flag bit, as refused; the source leaves it to the size of the address space.
- dlmalloc before its first initialization, mmap, trimming, memalign, calloc, realloc and the statistics.
- Dlmalloc.MallocState.SysMalloc: the system fails or puts memory right behind the top; non-contiguous regions and
  fenceposts are not modelled.
- Dlmalloc.MallocState.Free: neither trimming the top nor mmapped chunks, which no malloc of the model returns.
- BinLinks.Links.Unlink: the pointers are a class of their own beside MallocState, whose bins are sequences; the lemmas
  SoundSeparate and TrimmedSeparate give what the pointer steps ask for.
- Bytes that coalescing leaves behind as old size fields inside a larger chunk; size fields of chunks only are kept.
- HashMaps.Map.Add: keys and values are one array of pairs, where the source has two arrays with the same index.
- The library functions keys, values, pairs and eq of maps, and the operations on arrays of keys.
- HashSets.Set.Add: the number of keys is taken to stay below 2^60, so that sizes fit words.
- BitSets.BitSet.UnionInPlace: operands of one length, as the matrices have; the other binary operations are left out.
- HashSets.Set.DiffInPlace: not with the set itself as the other operand, where a rebuild changes the table that the
  iterator walks (`adlib/set.h:48-51`, `adlib/set.h:313-319`).
- Reading files, arguments, directories and the generated lexer: the pipeline starts from token lists with an end mark.
- Pipeline.Transform: a header file with an unclosed body ends the run; the source goes on with a function that reaches
  to the end of the file.
- Which of the rewritten files are written, and where.
- The block function of MD5 and its constants; hexdigest, and digest without finish.
- MergeSort.Arr.SortInPlace: elements are values; the sorted copy made by `sort` is not modelled.
