# Partition manager placement engine, modelled in Dafny

The partition manager of `scripts/partition_manager.py` lays out a flash
image. Each partition is described by an entry of a dictionary: its
`size`, and a `placement` that is one of:

- `''` for `app`;
- `'last'` for the partition at the top of flash;
- a dictionary of `before` and `after` fallback lists.

A *span* entry has an `inside` list of parent partitions and a list of
`sub_partitions`.

The engine works in four stages:

1. It trims every fallback list to the names that are partitions.
2. It takes the spans out of the dictionary.
3. It orders the other partitions around `app` (`resolve`):
   - first the chain that ends with the `'last'` partition;
   - then the chain in front of `app`;
   - then the chain behind it.

   Each chain grows one partition at a time: the partition whose list
   starts with the current one is inserted next to it.
4. It assigns addresses (`set_addresses`):
   - upwards from 0 up to `app`;
   - downwards from the flash size for the partitions behind `app`;
   - `app` gets the gap in between.

   Finally it splits each span's parents equally among its sub-partitions
   (`set_sub_partition_address_and_size`).

The model has two layers:

- **Functions.** The modules `Normalizer`, `SpanExtractor`, `Resolver`,
  `AddressAssigner` and `SpanApportioner` define each Python function as a
  function on values. Each one returns a `Result` that carries the first
  exception the Python code raises (`KeyError`, `IndexError`, `ValueError`,
  `AssertionError`, `ZeroDivisionError`, or the `RuntimeError` of a span
  without parents).
- **Methods.**
  - The Python loops (`remove_item_not_in_list`, `solve_direction`,
    `solve_from_last`, the loops of `set_addresses` and of the span layout)
    are methods with `while` loops, proved equal to those functions.
  - The functions that update the dictionary in place are methods of the
    class `PartitionManager.Requirements`, whose fields are the keys in
    insertion order and the entries.

A dictionary is a `Table`: its keys in insertion order, without
repetitions, paired with a map. A missing key of an entry is `None`.

Lemmas then state what the stages guarantee and evaluate the scenarios of
the script's `test()` function.

Where the code and its documentation differ, the model follows the code:

- Names that are still unsolved after the two directional passes are not
  an error. `resolve` returns the solution without them.
- `first_parent_partition` is set once and never reset. A later span
  starts at the first parent found for an earlier one
  (`Fixtures.FirstParentCarriesOver`).
- `remove_item_not_in_list` removes from the list it iterates over. The
  element right after a removed one is therefore never inspected, and two
  absent names in a row leave the second in place
  (`Normalizer.TrimmedSkipsAfterRemoval`).
- `solve_from_last` checks that there is one `'last'` partition. It does
  not check that one partition claims each slot of that chain; it takes
  the first claimant.
- The `inside` lists of spans are never trimmed: `remove_irrelevant_requirements`
  visits only the `before` and `after` lists of a dictionary `placement`.
  Absent parents are skipped when the sizes are added.

## Model

| member | source | states |
|---|---|---|
| Normalizer.RemoveItemNotInList | scripts/partition_manager.py:13-16 | The loop leaves `Trimmed(list, check)`. It only deletes names, in order. Every key of the table and every `app` survives with its multiplicity. Without two adjacent absent names, the result is exactly the list of kept names. |
| Normalizer.TrimFrom | scripts/partition_manager.py:14-16 | The loop of `remove_item_not_in_list` resumed at iterator position i only removes names: its result is a sub-multiset of the list. Which names go is stated through `Trimmed` by `TrimmedRemovesOnlyAbsent`, `TrimmedIsKeep` and `TrimmedSkipsAfterRemoval`. |
| Normalizer.Normalized | scripts/partition_manager.py:25-30 | The table after `remove_irrelevant_requirements` keeps its keys and their order, and stays a valid dictionary. What it does to each entry is `NormalizedOnlyTrimsChains`. |
| Normalizer.TrimmedRemovesOnlyAbsent | scripts/partition_manager.py:13-16 | Trimming yields a subsequence of the list. It removes only names that are neither keys nor `app`, and never `app`. |
| Normalizer.TrimmedIsKeep | scripts/partition_manager.py:13-16 | When no two neighbouring names are both absent, the iterate-and-remove loop equals the reference filter `Keep`. |
| Normalizer.TrimmedSkipsAfterRemoval | scripts/partition_manager.py:14-16 | On `['x', 'y', 'app']` with neither `x` nor `y` a key, the loop leaves `['y', 'app']`, while the filter leaves `['app']`. |
| Normalizer.TrimChainSpec | scripts/partition_manager.py:27-29 | Trimming one direction keeps size, address, `inside`, `sub_partitions`, string placements and the other direction's list. It trims that direction's list only where it is present. |
| Normalizer.NormalizedOnlyTrimsChains | scripts/partition_manager.py:25-30 | `remove_irrelevant_requirements` changes nothing but the `before`/`after` lists, each trimmed against the keys of the whole table. |
| Normalizer.NormalizedUnchanged | scripts/partition_manager.py:25-30 | A table whose lists name only keys or `app` is left as it is. |
| PartitionManager.Requirements.TrimAll | scripts/partition_manager.py:27-29 | The loop over the keys trims each entry's list for one direction in place and keeps the keys. |
| PartitionManager.Requirements.RemoveIrrelevantRequirements | scripts/partition_manager.py:25-30 | After the `before` pass and the `after` pass, the dictionary is `Normalized` of the old one. |
| SpanExtractor.Extracted | scripts/partition_manager.py:73-84 | The returned spans are exactly the entries with `inside`. What remains is exactly the other entries. Both keep their entries unchanged and their keys in the original order. |
| SpanExtractor.CollectSpans | scripts/partition_manager.py:74-79 | The first loop collects the spans of `Extracted`, in key order. |
| SpanExtractor.LeftAfterDelete | scripts/partition_manager.py:81-82 | Deleting the span keys leaves exactly the non-span part of `Extracted`. |
| SpanExtractor.ExtractedWithoutSpans | scripts/partition_manager.py:73-84 | Without spans, the returned dictionary is empty and the table is unchanged. |
| PartitionManager.Requirements.DeleteKeys | scripts/partition_manager.py:81-82 | `del reqs[key]` for each key removes exactly those keys, keeps the other entries and keeps the key order. |
| PartitionManager.Requirements.ExtractSubPartitions | scripts/partition_manager.py:73-84 | Returns the spans of `Extracted` and leaves the rest of the dictionary. |
| Resolver.ItemIsPlaced | scripts/partition_manager.py:19-22 | True iff the placement is a dictionary whose list for the direction starts with the item. KeyError without `placement`, IndexError on an empty list, otherwise no error. |
| Resolver.Claimants | scripts/partition_manager.py:43 | Every name the `depends` comprehension returns is a key whose list starts with the item. The converse, order, distinctness and the error case are `ClaimantsSpec`. |
| Resolver.ClaimantsSpec | scripts/partition_manager.py:43 | The `depends` comprehension yields the keys whose list starts with the cursor, in key order, without repetitions. It raises iff some entry makes `item_is_placed` raise. |
| Resolver.ImagesToResolve | scripts/partition_manager.py:33-35 | The initial `unsolved` is exactly the keys with a `before` or `after` list, without repetitions. KeyError iff an entry lacks `placement`. |
| Resolver.LastPartitions | scripts/partition_manager.py:57 | Exactly the keys whose placement is `'last'`. KeyError iff an entry lacks `placement`. |
| Resolver.Pass | scripts/partition_manager.py:42-53 | The `while cont` loop shared by both passes, with `strict` for the assertion of :45. Each step moves one name from `unsolved` into the solution, so the two lengths add up to the same total and `unsolved` never grows. `PassStep`, `PassUnfold`, `PassStops`, `PassMoved`, `PassBefore`, `PassAfter` and `PassAfterEnd` state what it does. |
| Resolver.SolvedDirection | scripts/partition_manager.py:38-53 | `solve_direction` on values: the strict pass from `app` when something is unsolved. It only moves names from `unsolved` into the solution. `ResolverTheorem.BeforeStage` and `AfterStage` state its result in full. |
| Resolver.SolvedFromLast | scripts/partition_manager.py:56-70 | `solve_from_last` on values. It adds at most one name (the `'last'` partition) beyond those it moves out of `unsolved`, and never shortens the solution. `ResolverTheorem.LastStage` states its result in full. |
| Resolver.SolveDirection | scripts/partition_manager.py:38-53 | The loop computes `SolvedDirection`. When something is unsolved, it grows the chain from `app`, one strict step at a time (see `ResolverProperties.PassStep`). |
| Resolver.SolveFromLast | scripts/partition_manager.py:56-70 | The loop computes `SolvedFromLast`. No `'last'` partition leaves everything as it is. Two or more raise AssertionError. One is appended, and its `before` chain grows without a uniqueness check. |
| Resolver.Resolved | scripts/partition_manager.py:87-97 | `resolve` returns the spans that `extract_sub_partitions` took from the normalised table. |
| ResolverProperties.PassStep | scripts/partition_manager.py:43-51 | A step inserts the first claimant directly before (or after) the cursor, where strict means the only claimant. The inserted name was unsolved and not yet placed, and it leaves `unsolved`. |
| ResolverProperties.PassUnfold | scripts/partition_manager.py:43-51 | One iteration of the `while cont` loop: the claimant is inserted beside the cursor and removed from `unsolved`, and the pass goes on from it. |
| ResolverProperties.PassStops | scripts/partition_manager.py:52-53 | With no claimant, the pass ends and changes nothing. |
| ResolverProperties.PassMoved | scripts/partition_manager.py:42-53 | A pass only moves names from `unsolved` into the solution. Both stay free of repetitions and disjoint. |
| ResolverProperties.PassBefore | scripts/partition_manager.py:46-47 | A `before` pass keeps the solution around the cursor. It puts in front of the cursor a chain in which each name is the first claimant of the slot before the next. Nothing claims the slot before the chain's head. |
| ResolverProperties.PassAfter | scripts/partition_manager.py:48-49 | An `after` pass puts behind the cursor a chain in which each name is the first claimant of the slot after the previous one, and keeps the rest. |
| ResolverProperties.PassAfterEnd | scripts/partition_manager.py:52-53 | The `after` chain ends at a partition that nothing claims. |
| ResolverTheorem.LastStage | scripts/partition_manager.py:56-70 | `solve_from_last` from `['app']` gives `app` followed by the `'last'` chain: it ends with the `'last'` partition and is linked by first claimants. |
| ResolverTheorem.BeforeStage | scripts/partition_manager.py:94 | The `before` pass keeps the previous solution as a suffix and links the new names in front of it. Its head is unclaimed unless nothing was left to place. |
| ResolverTheorem.AfterStage | scripts/partition_manager.py:95 | The `after` pass keeps both ends and links the new names behind `app`. |
| ResolverTheorem.StagesShape | scripts/partition_manager.py:91-95 | The three passes produce an order of the shape `OrderShape` that `ResolvedOrder` spells out. |
| ResolverTheorem.ResolvedOrder | scripts/partition_manager.py:87-97 | A successful `resolve` returns a solution without repetitions that contains `app`. In front of `app` is a chain of first claimants, each unique. Behind it is a chain linked by `after`. At the end is the `'last'` chain. Every name is a non-span partition. Both chains stop at unclaimed slots unless nothing was left to place. The returned spans are exactly the entries with `inside`. |
| PartitionManager.Requirements.Resolve | scripts/partition_manager.py:87-97 | Leaves the dictionary normalised and without spans, and returns `Resolved` of the old one. |
| AddressAssigner.Forward | scripts/partition_manager.py:135-139 | The forward loop up to i changes no key set. It raises KeyError at the first missing partition, address or size. Its placement is `ForwardClosed`. |
| AddressAssigner.Backward | scripts/partition_manager.py:143-147 | The backward part from j changes no key set. It raises KeyError at the first missing partition, address or size. Its placement is `BackwardClosed`. |
| AddressAssigner.Addressed | scripts/partition_manager.py:133-150 | `set_addresses` keeps the keys and their order. Its errors are `AddressedErrors`, its success condition `AddressedOk` and its layout `AddressedLayout`. |
| AddressAssigner.Finished | scripts/partition_manager.py:141-150 | The part after the forward loop keeps the keys and their order. It is the `has_image_after_app` branch or the size of `app` alone. |
| AddressAssigner.AddressedOk | scripts/partition_manager.py:133-150 | For a solution without repetitions, `set_addresses` succeeds iff the solution is non-empty and contains `app`, every name is a key, and every name but `app` has a size. |
| AddressAssigner.AddressedErrors | scripts/partition_manager.py:135-136 | An empty solution raises IndexError. An unknown first partition raises KeyError. A solution without `app` raises ValueError. |
| AddressAssigner.AddressedLayout | scripts/partition_manager.py:133-150 | On success, `solution[0]` is at 0 and each partition ends where the next begins. The last ends at the flash size, and `app` gets flash minus the sizes of all the others. Only addresses and the size of `app` change. |
| AddressAssigner.LayoutPrefix | scripts/partition_manager.py:135-139 | Every partition up to `app` starts at the sum of the sizes in front of it. |
| AddressAssigner.LayoutEnd | scripts/partition_manager.py:143 | The last partition ends exactly at the flash size. |
| AddressAssigner.LayoutLast | scripts/partition_manager.py:143 | A last partition other than `app` starts at the flash size minus its size. |
| AddressAssigner.ContiguousPrefix | scripts/partition_manager.py:135-139 | In a gap-free layout starting at 0, each partition starts at the total of the sizes before it. |
| AddressAssigner.ForwardClosed | scripts/partition_manager.py:135-139 | The forward loop succeeds when the partitions are keys and have sizes. It puts each partition at the total size in front of it. |
| AddressAssigner.BackwardClosed | scripts/partition_manager.py:143-147 | The backward loop succeeds when the partitions have sizes. It places each one so that the partitions from it on end at the flash size. |
| AddressAssigner.AssignForward | scripts/partition_manager.py:135-139 | The `for` loop from 1 to the index of `app` computes `Forward`. |
| AddressAssigner.AssignBackward | scripts/partition_manager.py:143-147 | The downward `for` loop computes `Backward`. |
| AddressAssigner.AssignSizeOfAnchor | scripts/partition_manager.py:141-150 | The `has_image_after_app` branch computes `Finished`. |
| AddressAssigner.AssignAddresses | scripts/partition_manager.py:133-150 | The whole of `set_addresses` computes `Addressed`. |
| PartitionManager.Requirements.SetAddresses | scripts/partition_manager.py:133-150 | In place: raises as `Addressed` does, otherwise leaves its table. |
| SpanApportioner.Scan | scripts/partition_manager.py:157-161 | The inner loop over `inside` resumed at position i. A first parent that is already set (truthy) is kept. A newly chosen one is a key of the table. `ScanSpec` relates it to the reference definitions. |
| SpanApportioner.Apportion | scripts/partition_manager.py:156-171 | One iteration of the loop over the spans. On success the dictionary stays valid and the first parent passed on is a key. `ApportionErrors`, `ApportionOk`, `ApportionChildren` and `ChildrenWithinParents` state what it does. |
| SpanApportioner.ApportionFirst | scripts/partition_manager.py:154-171 | The loop over the first i spans, with the first parent carried from one span to the next. After at least one span, a first parent is set. `ApportionedStops` states its error behaviour. |
| SpanApportioner.Apportioned | scripts/partition_manager.py:153-171 | `set_sub_partition_address_and_size` leaves a valid dictionary on success. |
| SpanApportioner.LaidOut | scripts/partition_manager.py:166-171 | Writing the first j children leaves a valid dictionary. Contents are `LaidOutChild`, everything else is `LaidOutOthers`. |
| SpanApportioner.ScanParents | scripts/partition_manager.py:156-161 | The loop over `inside` computes `Scan`. When no partition is named `''`, it raises KeyError iff a present parent lacks a size. Otherwise it sums the sizes of the present parents, and sets the first parent only if none was set before. |
| SpanApportioner.ScanSpec | scripts/partition_manager.py:157-161 | When no partition is named `''`, the loop equals the reference definitions `PresentSum` and `FirstPresent`, picked against the carried first parent. |
| SpanApportioner.ApportionErrors | scripts/partition_manager.py:162-164 | When no partition is named `''`: a present parent without a size raises KeyError. A zero sum raises the RuntimeError naming the span. An empty `sub_partitions` raises ZeroDivisionError. |
| SpanApportioner.ApportionOk | scripts/partition_manager.py:162-171 | When no partition is named `''`, on success the sum is non-zero and the sub-partitions are non-empty. Each child gets the floor of the sum divided by their number, laid out from the address of the first parent, and the first parent is passed on. |
| SpanApportioner.ApportionChildren | scripts/partition_manager.py:164-171 | When no partition is named `''` and the sub-partition names are distinct, child k, named `<span>_<sub>`, has exactly that size and sits at the first parent's address plus k times the size. |
| SpanApportioner.LaidOutChild | scripts/partition_manager.py:166-171 | Each of the first j children is an entry holding only its size and address, contiguous from the base. |
| SpanApportioner.LaidOutOthers | scripts/partition_manager.py:166-171 | Laying out children changes no other entry. |
| SpanApportioner.ChildNameInjective | scripts/partition_manager.py:167 | Distinct sub-partition names give distinct keys. |
| SpanApportioner.ChildrenWithinParents | scripts/partition_manager.py:156-171 | With a positive total of the present parents, every child starts at or after `base` and ends at most that total past `base`. `base` is the address of the first parent partition, which may be one carried over from an earlier span (`Fixtures.FirstParentCarriesOver`). A region measured from the span's own first parent therefore need not contain the children. |
| SpanApportioner.SlotIs | scripts/partition_manager.py:171 | The address after k increments is the base plus k times the size. |
| SpanApportioner.ApportionedStops | scripts/partition_manager.py:155-163 | An error in one span ends the whole function with that error. |
| PartitionManager.Requirements.LayOut | scripts/partition_manager.py:165-171 | The loop over `sub_partitions` writes the children of `LaidOut`. |
| PartitionManager.Requirements.ApportionSpan | scripts/partition_manager.py:156-171 | One span in place: the table and first parent of `Apportion`, or its error. |
| PartitionManager.Requirements.SetSubPartitionAddressAndSize | scripts/partition_manager.py:153-171 | The loop over the spans, with the first parent carried from one to the next, computes `Apportioned`. |
| PartitionManager.Generated | scripts/partition_manager.py:202-204 | The three placement steps of `generate_override` in sequence. Success needs `resolve` to succeed, and leaves a valid dictionary. `GeneratedStops` states its errors. |
| PartitionManager.GeneratedStops | scripts/partition_manager.py:202-204 | `generate_override` stops with the error of the first step that raises. |
| PartitionManager.Requirements.Place | scripts/partition_manager.py:202-204 | `resolve`, `set_addresses` and `set_sub_partition_address_and_size` in sequence on the dictionary compute `Generated`. |
| Fixtures.Test1Generated | scripts/partition_manager.py:299-305 | The first scenario: the solution is `[mcuboot, spm, app]`, with `mcuboot` at 0, `spm` at 200 and `app` at 300 with 700. `mcuboot_partitions_primary` is at 200 and `_secondary` at 600, each of size 400. |
| Fixtures.Test1Resolved | scripts/partition_manager.py:299-303 | `resolve` of the first table gives `[mcuboot, spm, app]` and the span. |
| Fixtures.Test2Generated | scripts/partition_manager.py:307-312 | The second scenario: `mcuboot` at 0 and `app` at 200 with 800. The span skips the absent `spm` and splits 800 into two halves of 400 from 200. |
| Fixtures.Test3Resolved | scripts/partition_manager.py:314-326 | The third table resolves to `[a, b, c, d, e, app, f, g, h, i, j]`. |
| Fixtures.Test3Addressed | scripts/partition_manager.py:327 | `a` is at 0, `app` at 420 with 480, and `j` at 980 with 20. |
| Fixtures.Test4Resolved | scripts/partition_manager.py:329-332 | The absent `spu` is dropped, giving `[b0, mcuboot, app]`. |
| Fixtures.Test5Resolved | scripts/partition_manager.py:335-336 | The absent `mcuboot` is dropped, giving `[b0, app]`. |
| Fixtures.Test6Resolved | scripts/partition_manager.py:339-342 | The result is `[mcuboot, spu, app]`. |
| Fixtures.Test7Resolved | scripts/partition_manager.py:345-350 | The result is `[b0, mcuboot, spu, app, provision]`. |
| Fixtures.Test7Addressed | scripts/partition_manager.py:351 | `b0` is at 0, `app` at 250 with 650, and `provision` at 900. |
| Fixtures.FirstParentCarriesOver | scripts/partition_manager.py:154-165 | A second span whose own parent sits at 5000 still starts at 1000, the first parent of the first span. |
| Fixtures.TwiceAmbiguous | scripts/partition_manager.py:45 | Two partitions both asking to go right before `app` make `resolve` raise AssertionError. |
| Fixtures.EmptyFallback | scripts/partition_manager.py:22 | An empty `before` list makes `resolve` raise IndexError. |

## Left out

- Reading the YAML inputs, the registration of `app` and the `out_dir`/`out_path` fields (`load_adr_map`, lines 120-130). The table is an input of the model, with `app` carrying placement `''`.
- The size configuration files and the flash-size detection (`get_size_configs`, `load_size_config`, `get_flash_size`). Sizes and the flash size are inputs.
- The writers of override files and headers, the header guards, `parse_args` and `main`: all file I/O.
- Python values of other types: a `placement` that is neither a string nor a dictionary, non-string names, and sizes that are not integers. Integers are unbounded, as in Python. The span size uses floor division, which agrees with Dafny's division because the divisor is positive.
- The `assert` on `after_or_before` in `item_is_placed` and `solve_direction`: the direction is a two-valued type, so the assertion cannot fail.
- The state of the dictionary after an exception. The methods of `PartitionManager.Requirements` promise only the `Result` on an error path.
- The `set_addresses` calls of the fourth, fifth and sixth scenarios are not evaluated. Their `resolve` results are.
- SpanApportioner.ScanSpec: assumes that no partition is named `''`. A present partition `''` would become the first parent and, being falsy, be replaced by the next present parent. `Scan` and the loop `ScanParents` model that case; the reference definitions do not. Absent `''` entries of an `inside` list are skipped, as in Python.
- SpanApportioner.SpanScan: the same assumption as `ScanSpec`.
- SpanApportioner.ApportionErrors: the same assumption as `ScanSpec`.
- SpanApportioner.ApportionOk: the same assumption as `ScanSpec`.
- SpanApportioner.ApportionChildren: the same assumption as `ScanSpec`. It also requires distinct sub-partition names. With a repeated name, the later child with that name overwrites the earlier one.
- SpanApportioner.ChildrenWithinParents: the same assumptions as `ApportionChildren`.
- Shared lists: a YAML alias gives several entries one list object, and `remove_item_not_in_list` then trims that object once per owner. For example, `['x', 'y', 'z', 'app']` becomes `['y', 'app']` and then `['app']`. A `Table` holds each entry's lists as separate values, so the model trims each once and does not capture this aliasing.
- ResolverTheorem.ResolvedOrder: assumes that `app` is declared as `load_adr_map` declares it, with placement `''` and no `inside`.
- AddressAssigner.AddressedLayout: stated for solutions without repetitions. `resolve` produces only those (`ResolverTheorem.ResolvedOrder`).
- AddressAssigner.Total: counts a partition without a size as 0. It is used only where every partition it adds has a size.
