# Verified model of the BTF library code and the CPU statistics module

A Dafny 4.11 model of the vendored libbpf's BTF code (`libbpf/src/btf.c`, `btf_relocate.c`,
`btf_dump.c`, `hashmap.c`) and of the kernel module that publishes CPU times
(`kernel/cpu_stat_module/cpu_stat_collector.c`). `dafny verify dfyconfig.toml` checks all of it.

BTF type records are sequences of 32-bit words, laid end to end in an array that the passes update
in place. `TypedRecords.dfy` describes types by kind and fields, and properties that depend on kinds are
also stated for these, or with the kinds written out. Type graphs are arbitrary and may be cyclic. Each
algorithm is a method with the loops, branches and error codes of the C function; it is proved against a
specification on sequences, and the properties are lemmas about that specification. Loop states are
named predicates with one lemma per step.

| file | what it models |
|---|---|
| `Words.dfy` | machine words, error codes, small facts about sequences |
| `BtfRecords.dfy` | kinds, sizes and reference positions of records, the field iterator, section layout |
| `TypedRecords.dfy` | types by kind and fields, their records, and what renaming, sizing and iterating records mean for them |
| `BtfObject.dfy` | a BTF object: memory, offset index, in-place writes |
| `CanonicalMap.dfy` | the canonical type map and `resolve_type_id` |
| `Equivalence.dfy` | `btf_dedup_is_equiv` with its hypothetical map |
| `PrimDedup.dfy` | deduplication of primitive types, on top of the hash map |
| `StructDedup.dfy` | deduplication of structs, unions and typedefs, and merging the hypothetical map |
| `Compaction.dfy` | `btf_dedup_compact_types` and `btf_dedup_remap_types` |
| `Permute.dfy` | `btf__permute` |
| `TypeSection.dfy` | writing and parsing the type section in either byte order |
| `NameLookup.dfy` | `btf_check_sorted` and the lookup by name and kind |
| `Relocate.dfy` | relocation of split BTF from a distilled base to a full one |
| `DumpOrder.dfy` | the dumper's ordering of type definitions |
| `DumpDecl.dfy` | C declarations: meaning, printing, parsing, and the dumper's declaration printer |
| `DeclText.dfy` | the characters of printed declarations and how C reads them |
| `HashMap.dfy` | the chained hash map: tables, finite maps, linked chains, the class |
| `SeqCount.dfy` | the shared region's sequence counter, its writer, readers and life cycle |

## What the code does that its documentation does not say

- The comment at `libbpf/src/hashmap.h:102-106` promises that a lookup among appended entries finds the
  last one inserted. `HashModel.LastAppendedMissed` is a run on which it does not: growth reverses each key's
  entries. It does right after the append (`HashModel.AppendedIsFound`), and after operations on other keys
  exactly if the map has grown an even number of times since, or the first and the last entry of the key are
  the same (`HashModel.LastAppendedFound`).
- `btf_relocate_map_distilled_base` does not look at the base kind for a distilled struct or union, and for a
  forward looks only at the flag of the base type. A struct can become an enum or a union, and the forward of
  a union a struct (`RelocateSpec.StructMayBecomeEnum`, `StructMayBecomeUnion`, `UnionFwdMayBecomeStruct`).
  `RelocateSpec.CompositeStays`, `CompositeKindKept` and `FwdKept` say exactly when that does not happen.
- For an embedded distilled struct, a base forward of its name is skipped if it comes before the matching struct
  and is an ambiguity if it comes after (`RelocateSpec.ForwardBeforeMatch`, `ForwardAfterMatch`).
  `RelocateSpec.Mappable` states the exact condition.
- Deduplication can join structs of one name and different members: merging resolves a forward to one of them, and
  a later merge takes a pair recorded for the forward as one of that struct (`StructDedup.DifferentStructsJoined`).
  That takes a forward of their name and kind (`StructDedup.StructsAlike`), and full types of that name and kind
  that differ (`StructDedup.StructsSame`).
- `btf_check_sorted` never marks an object with a single own type; lookups there are linear.
- A typedef can be queued twice by `btf_dump_order_type`: typedefs are not marked while they are being
  ordered, and a function prototype's types can lead back to one (`OrderTraversal.TypedefQueuedTwice`). That
  takes a typedef of a function type whose direct use leads to a use of it behind a pointer; without one,
  nothing is queued twice (`OrderTraversal.QueuedTwiceLoops`). Structs, unions, enums and forward declarations
  never are (`OrderSpec.QueuedOnce`).

## Model

| member | source | states |
|---|---|---|
| `BtfRecords.FieldIter.Next` | libbpf/src/btf_iter.c:145-177 | the iterator returns the positions of a record's type ids in ascending order, each exactly once, and then nothing, for every kind |
| `TypedRecords.IteratorYieldsIds` | libbpf/src/btf_iter.c:145-177 | for a type of any kind, described by its fields: call after call the iterator returns the words of exactly its type ids, in order, and then nothing |
| `TypedRecords.RefsAreIds` | libbpf/src/btf_iter.c:21-83 | the words that count as references are those of the type's ids, and hold these ids |
| `TypedRecords.RenameIsTyped` | libbpf/src/btf.c:5429-5451 | renaming the ids in the words of a record gives the record of the type with its ids renamed, for every kind; so passes that rename records rename types |
| `TypedRecords.EncodeSized` | libbpf/src/btf.c:297-333 | the size table gives, from the header alone, exactly the size of the record of every type |
| `TypedRecords.DecodeEncode` | libbpf/include/uapi/linux/btf.h:31-58 | the record of a type determines the type, whatever the bits hold that its kind does not use |
| `TypedRecords.EncodeDecode` | libbpf/include/uapi/linux/btf.h:31-58 | a record is well-sized exactly if it is the record of a type, namely the one read from it |
| `TypedRecords.PackFields` | libbpf/include/uapi/linux/btf.h:56-58 | kind, vlen and kind flag are read from the bits that hold them |
| `BtfRecords.FlattenAt` | libbpf/src/btf.c:422-460 | record `i` of a section occupies exactly the words from its offset to the next record's offset |
| `BtfRecords.RepresentsPoke` | libbpf/src/btf.c:5453-5486 | overwriting one word of one record in memory changes that word of that record and nothing else; the offset index stays right |
| `BtfObject.Btf.SetWord` | libbpf/src/btf.c:5429-5451 | an in-place write through the offset index changes one word of one record; all other records and all offsets are kept |
| `CanonicalMap.ResolveTypeId` | libbpf/src/btf.c:4470-4475 | on an acyclic canonical map the loop ends, at the root of the chain of links |
| `CanonicalMap.RootByAnyRank` | libbpf/src/btf.c:4470-4475 | the root of a chain does not depend on which ranking shows that the map is acyclic |
| `CanonicalMap.RootStep` | libbpf/src/btf.c:4460-4475 | a linked id has the root of the id it links to; an id that is not linked is its own root |
| `Equivalence.EquivCheck.IsEquiv` | libbpf/src/btf.c:4710-4870 | terminates on any cyclic graph; a positive answer expands every pair recorded on the way, a negative one leaves no strict bisimulation that extends the map; a call answered at once records nothing, any other records its own pair first; `hypot_adjust_canon` is set exactly when a base forward would be redirected |
| `Equivalence.EquivCheck.CheckFromScratch` | libbpf/src/btf.c:3762-3770 | from an empty map a positive answer leaves a bisimulation that holds the pair, along which all paths stay in step, and which is part of every strict bisimulation that matches the two types; any other answer means that there is none; where the structural fallback takes no two types for one, the answer is positive exactly if a strict bisimulation matches them |
| `Equivalence.EquivCheck.CompareChildren` | libbpf/src/btf.c:4777-4868 | the references of a freshly recorded pair are compared side by side, each position once |
| `Equivalence.EquivCheck.HypotMapAdd` | libbpf/src/btf.c:3745-3760 | one unprocessed entry becomes recorded and its id joins the list |
| `Equivalence.EquivCheck.ClearHypotMap` | libbpf/src/btf.c:3762-3770 | clearing through the list of recorded ids returns the whole map to unprocessed |
| `Equivalence.EquivCheck.ResolveFwdId` | libbpf/src/btf.c:4481-4496 | a forward resolves to the full type its chain ends in, and to itself if the chain ends in a forward |
| `Equivalence.CompareRecords` | libbpf/src/btf.c:4755-4868 | two records are settled on their own, or turn out compatible with references left to compare, exactly as kind, name, shallow content and forward rules say |
| `Equivalence.EqualEnum` | libbpf/src/btf.c:4087-4097 | two enums are found equal exactly when the records are the same word for word |
| `Equivalence.CompatEnum` | libbpf/src/btf.c:4104-4116 | with a forward on either side, exactly when both are enums of one name; otherwise exactly when the records are the same |
| `Equivalence.ShallowEqualStruct` | libbpf/src/btf.c:4144-4164 | exactly when the records agree in every word that is no type id |
| `Equivalence.CompatFnproto` | libbpf/src/btf.c:4268-4288 | exactly when the records agree in every word that is no type id |
| `Equivalence.ChildOrderVisits` | libbpf/src/btf.c:4783-4866 | the order in which the references of a record are compared visits every type id position exactly once |
| `EquivSpec.CheckedFresh` | libbpf/src/btf.c:4710-4870 | what a check from an empty map shows: a bisimulation on success, and that every strict bisimulation that matches the pair contains it; no strict bisimulation otherwise |
| `EquivSpec.BisimulationPaths` | libbpf/src/btf.c:4690-4709 | for every bisimulation that holds a pair, structural fallback or not: along any path of references through recorded pairs both graphs stay in step, that is, the pair reached is one type already, or what is recorded for its canonical side is compatible with it and is the candidate or identical to it |
| `EquivSpec.StrictWithoutFallback` | libbpf/src/btf.c:4728-4746 | where the structural fallback takes no two types for one, a positive answer leaves a strict bisimulation |
| `EquivTypes.CompatibleIsAlike` | libbpf/src/btf.c:4755-4868 | what it means that two records may be recorded as a pair, in terms of types: one name, and the same shape apart from type ids; or a forward and a struct or union of its sort; or enums of which one has no values |
| `EquivTypes.ExpandedIsAlike` | libbpf/src/btf.c:4755-4868 | and that a pair is expanded: their ids are answered two by two, for exactly the kinds that have parts to compare |
| `EquivTypes.ForwardFollowed` | libbpf/src/btf.c:4481-4496 | a forward that has been resolved stands for what it was resolved to; any other id for itself |
| `PrimDedup.PrimDedup.constructor` | libbpf/src/btf.c:3804-3857 | void, VAR and DATASEC start out canonical, everything else unprocessed, and the candidate table is empty |
| `PrimDedup.PrimDedup.DedupPrimTypes` | libbpf/src/btf.c:4445-4455 | the pass never fails and ends in the state that the lemmas below are about, whether or not all hashes collide |
| `PrimDedup.PrimDedup.DedupPrimType` | libbpf/src/btf.c:4360-4443 | one type is mapped to a listed equal type, or becomes canonical and is listed; other kinds are left alone |
| `PrimDedup.FindEqual` | libbpf/src/btf.c:4387-4396 | for INT, FWD and FLOAT: the first equal candidate if there is one, otherwise the type itself |
| `PrimDedup.FindEnum` | libbpf/src/btf.c:4398-4419 | a forward takes the first candidate that is an enum of its name; a full enum takes the first equal one, and otherwise has become the target of every listed forward of its name |
| `PrimDedup.CandidatesExact` | libbpf/src/btf.c:3737-3743 | the candidates for a hash are exactly the table's entries under that hash, also if all hashes collide |
| `PrimDedup.NoMatch` | libbpf/src/btf.c:4360-4440 | if no candidate under a type's hash matches it, no listed type at all does |
| `PrimDedup.AppendFits` | libbpf/src/btf.c:4440-4442 | the table cannot run full during the pass, so it never reports -ENOMEM |
| `PrimSpec.PrimAcyclic` | libbpf/src/btf.c:4360-4455 | after the pass the canonical map has no cycle |
| `PrimSpec.PrimSameRootIffEqual` | libbpf/src/btf.c:4360-4455 | two integers, floats, forwards or enums with values resolve to one id if and only if their records are equal |
| `PrimSpec.PrimEnumFwdResolves` | libbpf/src/btf.c:4398-4419 | every enum, forward or not, resolves to an enum of its name |
| `PrimSpec.PrimEnumFwdFindsFull` | libbpf/src/btf.c:4398-4419 | an enum resolves to one with values whenever one of its name exists anywhere in the BTF, so a forward never stays unresolved for nothing |
| `PrimSpec.PrimOthersWait` | libbpf/src/btf.c:4360-4455 | all other kinds are as before the pass: VAR and DATASEC their own, the rest without a canonical type |
| `PrimSpec.CanonicalStep` | libbpf/src/btf.c:4440-4442 | listing a type that no listed type matches keeps the state of the pass, with the forwards that were redirected to it |
| `PrimSpec.DuplicateStep` | libbpf/src/btf.c:4440-4440 | mapping a type to a listed match keeps the state of the pass |
| `MergeSpec.Relink` | libbpf/src/btf.c:4470-4475 | sending any id on to an id that ends a chain makes no cycle |
| `MergeSpec.MergeWithin` | libbpf/src/btf.c:4870-4954 | merging joins only types that were recorded together: it stays within every grouping of types that the map and the recorded pairs stay within; and it makes no cycle |
| `MergeSpec.MergeOpens` | libbpf/src/btf.c:4918-4952 | merging redirects only forwards and types that had no canonical type yet |
| `MergeSpec.MergeJoins` | libbpf/src/btf.c:4898-4954 | a recorded pair has one canonical type after merging if at its turn it had one, or one side was a forward, or the candidate a struct or union without a canonical type; forwards give way only where base BTF need not change |
| `MergeSpec.MergeOneJoins` | libbpf/src/btf.c:4898-4954 | for one pair: exactly then; and what had one canonical type before has one afterwards |
| `MergeSpec.MergeAdjusted` | libbpf/src/btf.c:4918-4925 | where base BTF would have to change, nothing but forwards is redirected |
| `StructDedup.StructDedup.MergeHypotMap` | libbpf/src/btf.c:4898-4954 | the recorded pairs are merged one after the other, in the order in which they were recorded |
| `StructDedup.EqualByKind` | libbpf/src/btf.c:4965-4972 | exactly when the records agree in every word that is no type id; so a forward never passes for a struct |
| `StructDedup.StructDedup.FindCanonical` | libbpf/src/btf.c:5019-5046 | the first candidate that is accepted is taken, and none only if each was refused, under the map as it was when its turn came: because words differ, or because every strict bisimulation that matches the two types would redirect a forward of the base |
| `StructDedup.StructDedup.DedupStructType` | libbpf/src/btf.c:4999-5056 | a struct, union or typedef without a canonical type gets the first listed candidate of its hash that is equivalent to it, or becomes its own and is listed; in that case every listed type with the same words, hash or no hash, was looked at and refused; the canonical map stays free of cycles whatever is merged on the way |
| `StructDedup.StructDedup.DedupStructTypes` | libbpf/src/btf.c:5058-5068 | so does the whole pass, also if it stops with an error; what it leaves is the state that the lemmas below are about |
| `StructDedup.SameWordsSig` | libbpf/src/btf.c:4118-4137 | records that agree in every word that is no type id have one hash, so equivalent structs meet in the table |
| `StructDedup.AllSameRefused` | libbpf/src/btf.c:5019-5050 | if a type stays its own, the candidates of its hash included every listed type with its words, and each was refused |
| `StructDedup.SameWordsCompared` | libbpf/src/btf.c:4999-5068 | after the pass no two structs, unions or typedefs with the same words are both left without the later having been compared with the earlier and refused |
| `StructDedup.SameWordsDiffer` | libbpf/src/btf.c:4999-5068 | without a base that means that at some point of the pass no strict bisimulation matched them |
| `StructDedup.ListingFits` | libbpf/src/btf.c:5052-5053 | the candidate table cannot run full during the pass, so it never reports -ENOMEM |
| `StructDedup.AcceptedExactly` | libbpf/src/btf.c:5036-5043 | where the structural fallback takes no two types for one, a candidate is accepted exactly if it is not refused |
| `StructDedup.RefusedWithoutBase` | libbpf/src/btf.c:5036-5043 | in BTF without a base a candidate with the same words is refused only if no strict bisimulation matches the two types |
| `StructDedup.StructsAlike` | libbpf/src/btf.c:4999-5068 | after the pass every struct, union and typedef has a canonical type; every type resolves to one of its own name and kind, forwards counting as what they declare, and none but a forward to a forward; a struct, union or typedef resolves to one with the same words apart from type ids, unless a forward has its name and kind |
| `StructDedup.StructsSame` | libbpf/src/btf.c:4999-5068 | the same also with such a forward, if all full types of that name and kind have the same words apart from type ids |
| `StructDedup.DifferentStructsJoined` | libbpf/src/btf.c:4911-4952 | an input on which that fails: two accepted comparisons whose recorded pairs are merged give struct s { int a } the canonical type struct s { int b }, by way of a forward |
| `StructDedup.PrimPassFits` | libbpf/src/btf.c:4445-4455 | the state in which the primitive pass ends is one in which this pass can start |
| `StructDedup.ForwardWouldLoop` | libbpf/src/btf.c:5024-5033 | the loop that the comparison of kinds guards against: an input on which, without it, a forward and a struct would point at each other |
| `Compaction.Dedup.CompactTypes` | libbpf/src/btf.c:5375-5421 | the in-place forward copy keeps exactly the self-mapped records, in order, and numbers them consecutively; no record or offset still to be read is overwritten |
| `Compaction.Dedup.RemapRecord` | libbpf/src/btf.c:5429-5451 | every reference of a record becomes the new id of its canonical type, or the call fails with -EINVAL exactly when one of them has none |
| `Compaction.Dedup.RemapTypes` | libbpf/src/btf.c:5453-5484 | the same for all records |
| `Compaction.Dedup.CompactAndRemap` | libbpf/src/btf.c:5375-5486 | on a total acyclic map the two passes together cannot fail, and leave exactly the deduplicated records |
| `CompactionSpec.CompactedMove` | libbpf/src/btf.c:5400-5412 | moving one record down leaves every later record and its offset readable |
| `CompactionSpec.DedupPreservesGraph` | libbpf/src/btf.c:5375-5486 | every old type is represented by the compacted copy of its canonical type, whose references are the representatives of the old references; base types keep their ids |
| `CompactionSpec.DedupFaithful` | libbpf/src/btf.c:5375-5486 | the record that stands for an own type after deduplication is that type's own record with its references renamed exactly if the type agrees with its canonical type: in all words but type ids, and in what the type ids resolve to |
| `CompactionSpec.DedupIdsBijection` | libbpf/src/btf.c:5375-5486 | two types share a new id exactly when they resolve to the same type, and survivors keep their order |
| `CompactionSpec.DedupIdsOnto` | libbpf/src/btf.c:5375-5421 | every id of the new numbering belongs to a survivor, so the new ids are consecutive |
| `Permute.Permute` | libbpf/src/btf.c:5988-6096 | succeeds exactly if the map is a permutation of the object's own ids (fixing 0 without a base) and all references are in range; then record `k` lies at `id_map[k]` with its own references renamed and base references kept; on failure nothing has changed |
| `Permute.CheckMap` | libbpf/src/btf.c:6018-6046 | the check with the order map accepts exactly the maps that hit every own id once |
| `Permute.RemapCopy` | libbpf/src/btf.c:5972-5986 | every reference of the copied record at or above the first own id is renamed by the map; the call fails exactly if one is out of range |
| `Permute.BuildTypes` | libbpf/src/btf.c:6048-6074 | the new section holds the records in their new order, end to end, and fits the old size exactly |
| `PermuteSpec.PermuteBack` | libbpf/src/btf.c:5988-6096 | permuting again by the inverse map brings every record, with its references, back |
| `PermuteSpec.SelectSize` | libbpf/src/btf.c:6024-6028 | any reordering of the records has the same total size |
| `Permute.OrderInverse` | libbpf/src/btf.c:6034-6046 | the order map is the inverse of the id map |
| `TypeSection.BswapTypeRest` | libbpf/src/btf.c:345-420 | swaps exactly the trailing words that the native header announces, and fails exactly for unknown kinds |
| `TypeSection.SwapTypes` | libbpf/src/btf.c:1623-1636 | swapping rest before base, record by record, swaps every word of the section once |
| `TypeSection.RawTypes` | libbpf/src/btf.c:1602-1650 | the type section is written out as it is, or with every word swapped |
| `TypeSection.ParseTypeSec` | libbpf/src/btf.c:422-460 | succeeds exactly if the section, in native order, is a sequence of well-sized records; then memory is native and the offset index lists these records |
| `TypeSection.RoundTrip` | libbpf/src/btf.c:1602-1650 | writing a section in either byte order and parsing it back restores the records and their offsets |
| `TypeSectionSpec.Bswap32Twice` | libbpf/src/btf.c:338-343 | swapping the bytes of a word twice gives the word back |
| `TypeSectionSpec.ParseSound` | libbpf/src/btf.c:422-460 | whatever parses is exactly the concatenation of the parsed records, all well-sized |
| `TypeSectionSpec.ParseComplete` | libbpf/src/btf.c:422-460 | every sequence of well-sized records, laid end to end, parses back to these records |
| `TypeSectionSpec.TypesParse` | libbpf/src/btf.c:422-460 | the records of any list of types, laid end to end in either byte order, parse to exactly these records |
| `TypeSectionSpec.ParsesExactly` | libbpf/src/btf.c:422-460 | a section parses to given records exactly if it is these records end to end, and each of them is the record of a type |
| `TypeSectionSpec.Bswap32Bytes` | libbpf/src/btf.c:338-343 | swapping a word reverses its four bytes |
| `TypeSectionSpec.LayoutUnique` | libbpf/src/btf.c:422-460 | a section splits into well-sized records in at most one way |
| `TypeSectionSpec.SwapRoundTrip` | libbpf/src/btf.c:1623-1636 | a swapped section, parsed with swapping, gives the same records |
| `CStrings.StrCmpTransitive` | libbpf/src/btf.c:902-924 | the order of names is transitive, strictly so if either step is strict |
| `CStrings.StrCmpFirst` | libbpf/src/btf.c:902-924 | a name is smaller exactly if, where the two first differ, it ends or has the smaller character |
| `NameLookup.NameIndex.CheckSorted` | libbpf/src/btf.c:902-924 | the mark is set exactly if there are two or more own types, their names ascend, and one of them is named; it is then the first named type |
| `NameLookup.NameIndex.FindTypeByNameBsearch` | libbpf/src/btf.c:926-949 | on ascending names: the leftmost id at or after the start whose name is not smaller, or the type count |
| `NameLookup.NameIndex.FindSorted` | libbpf/src/btf.c:970-981 | the lookup over sorted names returns what a linear scan over the same types would |
| `NameLookup.NameIndex.FindLinear` | libbpf/src/btf.c:982-990 | the linear lookup returns the smallest hit |
| `NameLookup.NameIndex.FindByNameKind` | libbpf/src/btf.c:951-993 | sorted or not, with any chain of bases: the smallest matching id at or after the start, over base and own types together; id 0 for the kind UNKN and the name void |
| `NameLookup.ScanIsLeast` | libbpf/src/btf.c:982-992 | the linear scan returns `i` exactly if `i` is the smallest id with the name and, unless the kind is negative, with the kind; and -ENOENT exactly if there is none |
| `NameLookup.ScanAppend` | libbpf/src/btf.c:959-965 | a scan over base and split types is a scan over the base followed by one over the split types |
| `NameLookup.GreaterAfter` | libbpf/src/btf.c:973-978 | after a greater name no sorted name equals the key, so the scan may stop there |
| `RelocateSpec.KeyMonotone` | libbpf/src/btf_relocate.c:86-96 | against a sorted array, a key with or without a size compares first greater, then equal, then smaller |
| `RelocateSpec.MatchesContiguous` | libbpf/src/btf_relocate.c:279-281 | the matches of a key lie side by side, so a scan that starts at the leftmost and stops at the first mismatch has visited all of them |
| `RelocateSpec.EntryAmbiguous` | libbpf/src/btf_relocate.c:337-353 | a second match for a distilled type that has one already means that the base cannot be mapped |
| `RelocateSpec.RelocatedDistilled` | libbpf/src/btf_relocate.c:184-380 | every distilled type becomes the only base type that can stand for it: of the same name; of the same size if it is embedded by value or a sized kind; an integer of the same encoding, a float, an enum of either width, or for a forward a forward of the same flag, a struct without or a union with the flag |
| `RelocateSpec.KindOkIsTyped` | libbpf/src/btf_relocate.c:295-335 | which kinds of base type a distilled type can become, kind by kind, with integer encodings and forward flags |
| `RelocateSpec.MatchIsTyped` | libbpf/src/btf_relocate.c:245-281 | which base types a distilled type meets: those with its name, of its size unless they are forwards or structs and unions whose name no other one has; kinds that are not searched for never match |
| `RelocateSpec.NamesakePicked` | libbpf/src/btf_relocate.c:184-380 | a base type that alone has the name of a distilled type, with its size and of a kind that it can become, is what it is mapped to |
| `RelocateSpec.NamesakesMappable` | libbpf/src/btf_relocate.c:184-380 | so a base that has such a type for every distilled one can be mapped |
| `RelocateSpec.RelocatedIds` | libbpf/src/btf_relocate.c:476-481 | void stays void, distilled ids go below the base's type count, and split ids are shifted by the difference of the two type counts |
| `RelocateSpec.StructMayBecomeEnum` | libbpf/src/btf_relocate.c:325-335 | the base kind is not checked for a distilled struct or union: an input on which a struct is mapped to an enum |
| `RelocateSpec.StructMayBecomeUnion` | libbpf/src/btf_relocate.c:325-335 | an input on which a struct is mapped to a union |
| `RelocateSpec.CompositeStays` | libbpf/src/btf_relocate.c:325-335 | a distilled struct or union becomes one of the two exactly if every base type that it matches, and whose size fits if it is embedded, is one of the two |
| `RelocateSpec.CompositeKindKept` | libbpf/src/btf_relocate.c:325-335 | it keeps its kind exactly if every such base type has that kind |
| `RelocateSpec.UnionFwdMayBecomeStruct` | libbpf/src/btf_relocate.c:296-313 | for a forward the flag of the base struct decides: an input on which the forward of a union is mapped to a struct |
| `RelocateSpec.FwdKept` | libbpf/src/btf_relocate.c:296-313 | a forward becomes what it declares, or a forward of that, exactly if every base struct without and every base union with the flag that it matches is what it declares |
| `RelocateSpec.ForwardAfterMatch` | libbpf/src/btf_relocate.c:325-353 | an embedded distilled struct cannot be mapped if a forward of its name follows the struct in the base |
| `RelocateSpec.ForwardBeforeMatch` | libbpf/src/btf_relocate.c:325-353 | it can if the forward comes before the struct |
| `EmbedSpec.ValueTypeStep` | libbpf/src/btf_relocate.c:146-176 | what a value of a type consists of does not change when one typedef, qualifier, tag or array is looked through |
| `EmbedSpec.EmbeddedExactly` | libbpf/src/btf_relocate.c:144-178 | a distilled struct or union counts as embedded exactly if a member of a split struct or union is of it, behind typedefs, CONST, VOLATILE, RESTRICT, type tags and arrays |
| `EmbedSpec.PathToValue` | libbpf/src/btf_relocate.c:146-176 | looking through such a path ends in the struct or union at its end |
| `EmbedSpec.MarkStep` | libbpf/src/btf_relocate.c:144-178 | following one more reference of a composite marks exactly what that reference embeds |
| `Relocate.SearchNameSize` | libbpf/src/btf_relocate.c:102-123 | the leftmost matching element, and NULL only if none matches, for keys with and without a size |
| `Relocate.Qsort` | libbpf/src/btf_relocate.c:213-213 | the index array is a sorted permutation of the distilled types |
| `Relocate.Relocate.CountNames` | libbpf/src/btf_relocate.c:230-242 | the byte counters hold the number of composite base types per name, saturating at 255 |
| `Relocate.Relocate.MarkTarget` | libbpf/src/btf_relocate.c:144-178 | following a member's type through typedefs, qualifiers, tags and arrays marks the distilled composite at its end, and nothing else |
| `Relocate.Relocate.MarkAllEmbedded` | libbpf/src/btf_relocate.c:217-228 | exactly the distilled composites that a split composite embeds by value are marked |
| `Relocate.Relocate.TryMatch` | libbpf/src/btf_relocate.c:282-356 | one candidate pair is recorded, skipped, or reported as invalid or ambiguous |
| `Relocate.Relocate.MapBase` | libbpf/src/btf_relocate.c:278-357 | one base type has been compared with exactly the distilled types that it matches |
| `Relocate.Relocate.MapDistilledBase` | libbpf/src/btf_relocate.c:184-380 | succeeds if and only if no base type matches void and every distilled type has exactly one base type that can stand for it and no lesser match after it; the map then holds these base types |
| `Relocate.Relocate.ValidateDistilledBase` | libbpf/src/btf_relocate.c:383-410 | succeeds exactly if every distilled type is named and of an allowed kind |
| `Relocate.Relocate.RewriteTypeId` | libbpf/src/btf_relocate.c:66-80 | every reference of one split record is renamed by the id map, and nothing else is changed |
| `Relocate.Relocate.Run` | libbpf/src/btf_relocate.c:444-519 | succeeds exactly if the distilled base is valid and can be mapped; then all split records have their references renamed by the map; otherwise they are untouched |
| `Relocate.HeldKeepsSize` | libbpf/src/btf_relocate.c:335-337 | so a distilled struct or union that a split one holds by value is relocated to a type of the same size |
| `OrderSpec.StronglyLinkedFirst` | libbpf/src/btf_dump.c:396-472 | a named definition at the end of a strong link from a queued struct or union has been queued before it, in this call or an earlier one: structs, unions, enums and typedefs that it embeds by value through typedefs, qualifiers, arrays and anonymous types, what an anonymous type behind a pointer embeds, and typedefs behind a pointer to which the link is strong in any case |
| `OrderSpec.DefinedBefore` | libbpf/src/btf_dump.c:396-472 | kind by kind: what spelling out a queued struct or union leads to, through typedefs, qualifiers, type tags, arrays, pointers, function types and members of types without a name, has been queued before it, if it is a named struct or union or a typedef that is used directly, or a named enum, 64-bit enum or forward |
| `OrderSpec.DefinedForRequest` | libbpf/src/btf_dump.c:281-303 | and for a type that has been requested or ordered, it is in the queue |
| `OrderSpec.QueueHolds` | libbpf/src/btf_dump.c:519-582 | the queue holds exactly the ordered named structs and unions, typedefs, named enums, 64-bit enums and forwards, and those without a name that nothing refers to |
| `OrderSpec.LoopSpelled` | libbpf/src/btf_dump.c:488-501 | the definitions because of which ordering fails are spelled out within themselves |
| `OrderSpec.QueuedOnce` | libbpf/src/btf_dump.c:519-562 | nothing but a typedef is ever queued twice, over all calls: no struct, union, enum or forward declaration is |
| `OrderSpec.NothingQueuedTwice` | libbpf/src/btf_dump.c:564-582 | if no typedef has been ordered twice, the whole queue holds no id twice |
| `OrderTraversal.TypedefQueuedTwice` | libbpf/src/btf_dump.c:564-609 | an input on which a typedef is queued twice: a struct taken by value by a function type points back to the function's typedef |
| `OrderTraversal.QueuedTwiceLoops` | libbpf/src/btf_dump.c:473-618 | over any requests that all go through, nothing is queued twice unless the direct use of a typedef of a function type leads to a use of it behind a pointer |
| `OrderTraversal.LoopOrdersTwice` | libbpf/src/btf_dump.c:564-609 | the other way round: with such a loop, and no other typedef of a function type used directly on it, the typedef is ordered twice whenever it is first met directly and the request goes through, if the link to it is strong in any case |
| `OrderTraversal.LoopQueuesTwice` | libbpf/src/btf_dump.c:564-609 | so the first request for it queues it twice |
| `OrderTraversal.LoopMayBeQuiet` | libbpf/src/btf_dump.c:564-609 | an input with a loop on which nothing is queued twice, because the link is weak |
| `OrderTraversal.TraverseOnce` | libbpf/src/btf_dump.c:564-582 | without such a loop, no typedef under way is ordered by the traversal of what it stands for, and none is ordered twice |
| `OrderTraversal.TraverseKeeps` | libbpf/src/btf_dump.c:396-472 | afterwards everything has been ordered that must come before a type met like this, and after a strong result also what a direct use needs, function types themselves excepted; the result is strong wherever the link is strong in any case; the traversal fails only with -ELOOP, and only if some definition needs itself |
| `OrderTraversal.CallKeeps` | libbpf/src/btf_dump.c:281-303 | a request that goes through leaves order states on which the next one can rely |
| `OrderSpec.NoneNeedsItself` | libbpf/src/btf_dump.c:488-501 | no strong link leads from an ordered struct or union back to it, so a definition that needs itself is never ordered |
| `OrderSpec.LinkOrdered` | libbpf/src/btf_dump.c:438-472 | every definition at the end of a strong link from a type whose needs are met has been ordered |
| `OrderSpec.SatisfiedBehindPtr` | libbpf/src/btf_dump.c:485-486 | a type whose needs are met for direct use needs no more behind a pointer, so its ordered mark may be trusted either way |
| `OrderSpec.LoopFound` | libbpf/src/btf_dump.c:493-501 | meeting a struct or union again while it is being ordered, directly or anonymously, exhibits a definition that needs itself |
| `DumpOrder.Dumper.OrderType` | libbpf/src/btf_dump.c:473-618 | terminates if every type cycle passes through a struct or union; result, order states and queue are those of the traversal that the lemmas above are about, also if it fails |
| `DumpOrder.Dumper.OrderComposite` | libbpf/src/btf_dump.c:519-548 | a named struct or union behind a pointer is put off; otherwise its members come first and it is queued after them, if named: states and queue are those of the traversal |
| `DumpOrder.Dumper.OrderMembers` | libbpf/src/btf_dump.c:533-537 | the loop traverses the members in order, directly, up to the first failure |
| `DumpOrder.Dumper.OrderTypedef` | libbpf/src/btf_dump.c:564-582 | a typedef is queued after what it stands for, unless only a weak link through a pointer asks for it: states and queue are those of the traversal |
| `DumpOrder.Dumper.OrderFuncProto` | libbpf/src/btf_dump.c:589-609 | return and parameter types are traversed in the mode of the prototype; the link is strong if one of theirs is; states and queue are those of the traversal |
| `DumpOrder.Dumper.DumpType` | libbpf/src/btf_dump.c:281-303 | a call that succeeds leaves a dumper on which the next call can rely, with all that the requested type needs ordered, and nothing queued twice in all calls so far unless a typedef of a function type loops; unknown ids give -EINVAL |
| `DumpDecl.DeclPrinter.EmitTypeDecl` | libbpf/src/btf_dump.c:1291-1370 | prints exactly the declaration of the given name with the given type, and leaves the shared stack as it was |
| `DumpDecl.DeclPrinter.EmitTypeChain` | libbpf/src/btf_dump.c:1420-1605 | prints the text that the chain on the view stands for, and pops all of it |
| `DumpDecl.DeclPrinter.EmitMods` | libbpf/src/btf_dump.c:1372-1396 | prints and pops exactly the qualifiers on top of the stack; the declarator outside them is not touched |
| `DumpDecl.DeclPrinter.DropMods` | libbpf/src/btf_dump.c:1398-1410 | pops exactly the qualifiers on top of the stack; the declarator outside them is not touched |
| `DumpDecl.DeclPrinter.EmitArray` | libbpf/src/btf_dump.c:1505-1541 | an array's outer types go in parentheses unless the next one is an array too |
| `DumpDecl.DeclPrinter.EmitFuncProto` | libbpf/src/btf_dump.c:1543-1595 | a function's outer types go in parentheses, and its parameter list follows |
| `DumpDecl.DeclPrinter.EmitParams` | libbpf/src/btf_dump.c:1565-1595 | a lone void parameter or none is printed as (void), a last void parameter as an ellipsis, all others as declarations |
| `DumpDecl.DeclPrinter.PushChain` | libbpf/src/btf_dump.c:1298-1345 | the stack receives the chain from the declared type to the void or named type at its end |
| `DeclGraph.PrintedParsesBack` | libbpf/src/btf_dump.c:1291-1605 | parsing the printed tokens by the C declarator grammar gives back the name and the type that the BTF chain describes, minus qualifiers on arrays and functions; no two words of the text touch |
| `DeclGraph.TypeOfIsDescribed` | libbpf/src/btf_dump.c:1381-1605 | what each kind of BTF type describes: a CONST type its target with const added and nothing else, and likewise VOLATILE and RESTRICT, except around arrays and functions; a struct, union, enum, 64-bit enum or forward its keyword and name; an integer, float or typedef its name; a pointer, array with its bound, or function with its named parameters and its ellipsis |
| `DeclGraph.VoidIsVoid` | libbpf/src/btf_dump.c:1381-1605 | id 0 describes void |
| `DeclGraph.PrintableIsDescribed` | libbpf/src/btf_dump.c:1298-1345 | the printer is proved for exactly the chains of pointers, CONST, VOLATILE, RESTRICT, arrays and functions that end in void or a named type |
| `DeclText.ReadBack` | libbpf/src/btf_dump.c:1412-1418 | the characters of a text in which no words touch, read by the longest match, are its tokens again |
| `DeclText.PrintedTextReadsBack` | libbpf/src/btf_dump.c:1291-1605 | the same for the characters: reading them by the longest match and parsing the tokens gives back the name and the type, if types have names of one or more words that the reader knows as type words, and the declared name and the names of function parameters are identifiers that are no such words |
| `DeclText.NamesMayBeReadable` | libbpf/src/btf_dump.c:1291-1605 | a function type with an integer parameter, named from one string table, meets that condition |
| `DeclGraph.FoldMeans` | libbpf/src/btf_dump.c:1249-1268 | what a chain on the stack declares is what its inner end declares under the declarator of its outer types |
| `DeclGraph.TypeOfCanon` | libbpf/src/btf_dump.c:1574-1588 | no BTF type describes a parameter list that C would write as (void) or as a lone ellipsis but mean otherwise |
| `DeclSpec.DeclParse` | libbpf/src/btf_dump.c:1420-1605 | the tokens of a canonical declaration parse to that declaration |
| `DeclSpec.DeclrParse` | libbpf/src/btf_dump.c:1420-1605 | the tokens of a declarator, followed by anything that ends one, parse to that declarator |
| `DeclSpec.ToDeclMeans` | libbpf/src/btf_dump.c:1249-1268 | writing a type as a declaration keeps its meaning |
| `DeclSpec.StripPrintDecl` | libbpf/src/btf_dump.c:1412-1418 | taking the blanks out of printed text leaves the tokens of the declaration |
| `DeclSpec.ApartDecl` | libbpf/src/btf_dump.c:1412-1418 | blanks are printed wherever two words would otherwise run together |
| `HashSpec.HashBitsInRange` | libbpf/src/hashmap.h:15-29 | every bucket index is below the number of buckets |
| `HashSpec.MatchingInOwnBucket` | libbpf/src/hashmap.h:187-198 | all pairs with a key equal to the given one lie in that key's own bucket, in iteration order |
| `HashSpec.PushAllMatching` | libbpf/src/hashmap.c:116-119 | rehashing keeps the pairs with equal keys together and reverses their order |
| `HashModel.GrowKeeps` | libbpf/src/hashmap.c:101-128 | growth keeps the multiset of entries and their placement, and one step makes enough room |
| `HashModel.InsertKeeps` | libbpf/src/hashmap.c:154-204 | every insertion keeps placement, exact size and load bound, and changes the contents by exactly the inserted and the replaced pair |
| `HashModel.DeleteKeeps` | libbpf/src/hashmap.c:220-240 | every deletion keeps them too, and takes out exactly the pair it reports |
| `HashModel.ForKeyIsExact` | libbpf/src/hashmap.h:187-198 | per-key iteration visits each live entry with an equal key exactly as often as it is stored |
| `HashModel.GrowReverses` | libbpf/src/hashmap.c:101-128 | growth reverses the order in which the entries of a key are visited |
| `HashModel.GrowFlipsLookup` | libbpf/src/hashmap.c:101-128 | growth turns a lookup from the first visited entry of a key to the last one |
| `HashModel.LastAppendedMissed` | libbpf/src/hashmap.h:102-106 | the header's promise that a lookup returns the last inserted entry fails: a run from the empty map on which it returns the first of three appended values |
| `HashModel.AppendedIsFound` | libbpf/src/hashmap.h:102-106 | right after a successful append a lookup finds the appended entry, also if the map grew |
| `HashModel.OtherRun` | libbpf/src/hashmap.c:101-240 | over any run on other keys, a key's entries are kept, and their order is reversed once per growth |
| `HashModel.OtherRunLookup` | libbpf/src/hashmap.h:102-106 | after any run on other keys, a lookup finds the same entry as before exactly if the map has grown an even number of times or the first and the last visited entry are the same |
| `HashModel.LastAppendedFound` | libbpf/src/hashmap.h:102-106 | so it finds the entry appended last exactly under that condition on the growths since |
| `HashModel.RunIsMultimap` | libbpf/src/hashmap.c:95-240 | every run, appends included, is a run of a multimap with the same replies, and per-key iteration then visits exactly what the multimap holds for the key |
| `HashModel.LookupRefines` | libbpf/src/hashmap.c:206-218 | without APPEND, a lookup finds a key exactly if the finite map has it, with its key and value |
| `HashModel.StepRefines` | libbpf/src/hashmap.c:154-240 | one ADD, SET, UPDATE, find or delete returns what the finite map returns, and leaves a table that holds the new finite map |
| `HashModel.InsertRefines` | libbpf/src/hashmap.c:154-204 | insertion agrees with the finite map on result, -EEXIST, -ENOENT and the old pair |
| `HashModel.RunRefines` | libbpf/src/hashmap.c:154-240 | every sequence of operations gives the finite map's replies, and the size is the map's size |
| `HashModel.RunKeeps` | libbpf/src/hashmap.c:95-128 | every run, appends included, keeps placement, size, load bound and power-of-two capacity |
| `HashModel.HoldsSize` | libbpf/src/hashmap.c:85-88 | a table that holds a finite map has as many entries as the map |
| `HashModel.FullExactly` | libbpf/src/hashmap.c:101-115 | growth is refused exactly when the entries fill the largest bucket array that can be allocated |
| `HashModel.EmptyIsGood` | libbpf/src/hashmap.c:38-49 | a new map has the invariants and holds the empty map |
| `HashChains.AddEntry` | libbpf/src/hashmap.c:24-29 | an entry is linked in front of its chain |
| `HashChains.DelEntry` | libbpf/src/hashmap.c:31-36 | an entry is unlinked in place; the rest of the chain is kept |
| `HashChains.FindEntry` | libbpf/src/hashmap.c:130-152 | the first entry of a chain with an equal key, and the link that leads to it |
| `HashChains.MoveAll` | libbpf/src/hashmap.c:116-119 | every entry of every chain is pushed onto the chain of its new bucket |
| `HashMap.HashMap.constructor` | libbpf/src/hashmap.c:38-49 | a new map is empty, without buckets |
| `HashMap.HashMap.Size` | libbpf/src/hashmap.c:85-88 | the reported size is the number of stored entries |
| `HashMap.HashMap.FindEntry` | libbpf/src/hashmap.c:130-152 | finds the entry that the table lookup finds |
| `HashMap.HashMap.Find` | libbpf/src/hashmap.c:206-218 | returns whether the key is there, and its value |
| `HashMap.HashMap.Insert` | libbpf/src/hashmap.c:154-204 | the linked structure does exactly what insertion into the table does, for all four strategies, with result and old pair |
| `HashMap.HashMap.Delete` | libbpf/src/hashmap.c:220-240 | the linked structure does exactly what deletion from the table does |
| `HashMap.HashMap.Grow` | libbpf/src/hashmap.c:101-128 | relinking all entries into the new bucket array yields exactly the grown table |
| `HashMap.HashMap.EntriesFor` | libbpf/src/hashmap.h:187-198 | the entries visited for a key, in order |
| `RegionSpec.ProgramResult` | kernel/cpu_stat_module/cpu_stat_collector.c:101-110 | a collection's writes leave the header and every counted CPU from its own sample, and nothing else changed |
| `RegionSpec.CpuResult` | kernel/cpu_stat_module/cpu_stat_collector.c:56-86 | clearing and filling one CPU's entry leaves exactly its ten counters there |
| `SeqCount.StepKeepsInv` | kernel/cpu_stat_module/cpu_stat_collector.c:89-192 | every step of init, timer and exit, in any order that the timer and the code allow, keeps the invariant |
| `SeqCount.OneCollectionAtATime` | kernel/cpu_stat_module/cpu_stat_collector.c:152-192 | in every run at most one collection runs, seq is odd exactly while one is active and equals 2n modulo 2^32 after n collections, and whoever collects has the region |
| `SeqCount.FreedOnlyWhenIdle` | kernel/cpu_stat_module/cpu_stat_collector.c:183-192 | the step that frees the region finds no collection under way and the timer off |
| `SeqCount.AcceptedIsOneSnapshot` | kernel/cpu_stat_module/cpu_stat_collector.c:89-113 | a copy whose sequence numbers before and after are equal and even, without a wrap in between, is one completed sample or the zeroed region, however its reads interleave with the writes |
| `SeqCount.WorkerGetsOneSample` | worker/src/monitor/cpu_stat_monitor.cpp:111-180 | the worker's header check excludes the zeroed region: time, CPU count and every counted CPU of its copy come from one sample |
| `SeqCount.RunLater` | kernel/cpu_stat_module/cpu_stat_collector.c:89-113 | within one life of the region the count of writes only grows and the list of snapshots only gets longer |
| `CpuStatCollector.SharedRegion.CollectAllCpuStats` | kernel/cpu_stat_module/cpu_stat_collector.c:89-113 | the writes of the code, one by one, are the steps of the protocol, and leave the sample and an even seq |
| `CpuStatCollector.SharedRegion.CollectCpuStatRaw` | kernel/cpu_stat_module/cpu_stat_collector.c:56-86 | one CPU's writes: ten zeros, then the ten counters in the order of the code |

## Left out

- Allocation failures, except that the hash map's bucket array cannot exceed the address space; growth of
  lists and of the offset index is plain appending.
- The body of `btf_dedup_identical_types`: a relation on ids, used as the fallback of the equivalence check.
- The other deduplication passes (string, reference and forward resolution passes). What the canonical map has to
  satisfy after them is stated by `CompactionSpec.DedupFaithful`; it is not derived from the passes, and where
  different structs have been joined it does not hold.
- Strings: name offsets are ids.
- DedupPrimTypes: is about BTF without a base; `btf_dedup_prep`, which lists the types of a base, is left out.
- DedupStructTypes: takes the canonical map and the candidate table as they are, with or without a base.
- RemapTypes: does not remap the ids in the optional `.BTF.ext` section.
- CompactAndRemap: does not remap the ids in the optional `.BTF.ext` section.
- Permute: does not visit the optional `.BTF.ext` section.
- RawTypes: writes neither the BTF header nor the string section.
- RoundTrip: is about the type section, as a whole number of 32-bit words; header and strings are left out.
- MapDistilledBase: does not fill `str_map`.
- Run: leaves out `btf_relocate_rewrite_strs` with its -ENOENT, and the check that the new base differs from
  the old one.
- The limit of offsets to 32 bits in the offset index.
- Relocation's sort is libc's; the model's is any method that meets the same contract.
- MarkTarget: is about graphs where looking through typedefs, qualifiers, tags and arrays ends; on others the
  C loop need not end.
- IsEquiv: needs an acyclic canonical map, as the passes over primitive types and structs keep it; on a cyclic
  one resolving ids need not end.
- The dumper's duplicate-name suffixes, bit padding, and printing of values.
- EmitTypeDecl: leaves out the `strip_mods` option, type tags and inline definitions of anonymous types.
- EmitTypeChain: leaves out type tags and inline definitions of anonymous types.
- PushChain: leaves out the `strip_mods` option and type tags.
- DumpType: stops where emission of the queued types begins.
- StronglyLinkedFirst: does not cover links through a typedef of a function type that is used directly rather
  than behind a pointer; C has no values of function type, and the ordered mark of such a typedef does not
  promise what a direct use would need.
- NoneNeedsItself: does not cover loops through a typedef of a function type that is used directly.
- QueuedTwiceLoops: goes one way only, as `OrderTraversal.LoopMayBeQuiet` shows; where the link to the typedef is
  strong in any case, `LoopOrdersTwice` is the other way. In between it depends on which other types of the
  function have been ordered before.
- OrderType: is proved to end on graphs whose cycles all pass through a struct or union; on others the C
  recursion need not end.
- PrintedParsesBack: is about lists of tokens and blanks; `DeclText.PrintedTextReadsBack` is about characters.
- PrintedTextReadsBack: the reader tells type words from identifiers without regard to scope, so a parameter that
  is named like a type is not covered, though C would allow it.
- Kernel accessors, unit conversion and the idle-time fallback of the collector: counters are inputs.
- Memory ordering: barriers and once-accesses are program order. A reader that keeps a mapping across
  module removal; a mapping holds the module in place.
- `hrtimer` rules are taken as they are: a timer's callback does not run twice at once, and cancelling waits.
- `hashmap_clear` and `hashmap_free`, and iteration over all entries other than by growth.
