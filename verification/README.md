# A verified model of irx

irx runs 32- or 64-bit LLVM IR inside a host process and lets Python read and write the
typed memory of the interpreted program. This project models four of its components over
one byte memory and proves how they work together.

* **Typed paths.** C types as trees of basic types, pointers, typedefs, structs, unions
  and arrays, with named and anonymous members (`DebugTypes`); index paths through them and
  where they lead (`TypePaths`); the direct resolver (`Resolver`), how paths are spelled
  (`Spelling`), the exhaustive search (`Search`), when the two agree (`Agreement`); lowering
  to LLVM types and the offset walk (`Layout`), the two together (`Offsets`), and what a
  write through one path does to reads through others (`FieldAccess`); and what sizes,
  offsets and answers are without the functions that compute them (`LeastLayout`, `Lookup`).
* **Interpreter addresses.** The address generator and the two ordered maps
  (`AddressSpace`, `Allocator`), freezing and rewinding (`FrozenState`), guarded
  translation and the flat memory it presents (`FlatView`), initialisation from constants
  (`InitMemory`, `ConstantBytes`) and of global variables (`Globals`), and the interpreter
  that owns them (`Interpreter`).
* **Python objects.** Values (`PyValues`), `struct.pack` and the C reads (`Primitives`), the
  same by C type name (`TypedLeaves`), the leaves of an object (`Marshaller`), writing and
  reading them (`Upload`, `RoundTrip`, `Marshalling`), one that is lost (`TypedefElements`),
  comparing (`Diff`, `DiffLaws`); object graphs (`ObjectGraph`, `UploadPlan`), the steps of
  an upload (`ProxyWorld`, `ProxySteps`), the proxy (`Proxy`), what it leaves behind
  (`UploadedGraph`), and what reading an object leaves for later uploads (`ReadObjects`).
* **Interpreter control and linking.** Narrow pointers and function pointers
  (`FunctionPointers`), stop, skip and resume (`RunControl`, `StraightRuns`), and the arrays and
  symbols of a linker script (`LinkerSections`, `SectionArrays`, `SectionLaws`).

`Common`, `Decimal` and `ByteMemory` hold arithmetic, decimal numerals and little-endian
bytes.

The interpreter view of memory is the map `View` from live interpreter addresses to bytes.
Everything above `FlatView` is stated over it. Host memory is one byte array whose indices
are host addresses; the host's `malloc` may return any free place in it or fail. Member
sizes and alignments follow section 6.7.2.1 of ISO C11.

## How to read the main results

* *Upload* (`Proxy.StructProxy.Put`). A `World` is the Python objects, the two object maps,
  the allocator's blocks and the flat memory. `Progressed` says what any number of upload
  steps keep: types and addresses, the data of every object except pointers that named a
  target, every object that was already uploaded, every byte outside uploaded objects; and
  that objects given an address are registered and lie in memory that was not there before.
  `Complete` says that an object has an address, names no target any more, that memory
  holds each of its leaves and that each comes back when it is read. `Put` terminates because
  each recursive upload first forgets one target. `Blamed` says that pending pointers lead
  from the object to one with a leaf that does not come back; with the registered objects
  complete, the assertion fails exactly then. `UploadedGraph` draws the conclusions about
  whole graphs. The ghost `plan` of an object is the object with its pending pointers counted
  as set; `FirstUpload` shows the plan every fresh object graph starts with.
* *Paths*. A path is a list of child positions; its spelling is the list of names and
  indices a program writes. `RightAt` says that the offset walk ends at the C offset,
  `StepsRight` that each step on the way does, `WalksRight` the same level by level for a
  whole type. `PlaceOf` is where the walk ends, right or not. Typed access, the round trip
  and uploads are stated for that place: an upload needs every leaf to be found inside the
  object and no two set leaves in the same place. `PlacesFromUnions` says that where the walk
  is right it is enough that at most one member of each union is set.
* *False as promised, exact condition proved.*
  * The offset found for a spelled path is the C offset exactly if the walk is right there
    and the path does not stop at a record inside an array (`OffsetOfSpelling`). The walk is
    right on every path of a type exactly if the type walks right level by level
    (`WalksRightExact`), which is decided at its unions: each member has to walk right in the
    one LLVM kept (`LoweredWalksRight`). `DroppedMemberMisses` is an input.
  * An object that was written reads back without a difference exactly if none of its set
    leaves other than pointers is an element of an array of a typedef (`LeafBack`,
    `HeldReadsBack`, `ObjectRoundTrip`, `Put`): debug information records no size for a
    typedef, so such a leaf is written but not read. `TypedefElementLost` is an input.
  * The exhaustive search finds what the direct resolver finds exactly if no array element
    it meets before the field or on the way to it is a typedef; otherwise it divides by zero
    (`ResolversAgree`). `SearchCrashes` is an input. `SearchExact` says what it does with any
    names, and `SkippedIndexFound` is an input where it finds a field on which the direct
    resolver raises.
  * Primitive values come back exactly in the ranges of `PrimitiveRoundTrip`.
  * A section's array holds each global once if and only if section names are distinct
    (`EachOnceIffDistinct`).
  * The interpreter address of a function is safe to store exactly when no other block's host
    pointer equals it (`WhenInterpreterAddressIsSafe`, with the input `HostInWindowMisleads`).

Where the code and what is written about it differ, the model follows the code: the end
symbol of a section points at element N + 1 (libirx/irinterpreter2-sections.cc:567) where
the comment at libirx/test-appl/simple/test.cc:134-136 expects N; `has`
(libirx/irinterpreter2-mmap.cc:46-51) is true in gaps between blocks; `find`
(libirx/irinterpreter2-mmap.cc:58) follows its iterators before testing them, and is
modelled as finding no block where one of them is missing.

## Model

| member | source | states |
|---|---|---|
| TypePaths.PathsCompose | libirx/irinterpreter2-struct.cc:221-273 | offsets and types add up under concatenation of paths |
| TypePaths.PathInBounds | libirx/irinterpreter2-struct.cc:195-211 | offset plus field size is at most the size of the object, for every path |
| TypePaths.ExtensionNests | libirx/irinterpreter2-struct.cc:195-218 | a longer path lies inside the field of the shorter one |
| TypePaths.RangesSeparate | libirx/irinterpreter2-struct.cc:195-218 | two paths nest, or part at a union, or name disjoint bytes |
| TypePaths.UnionSiblingsAlias | libirx/tests/test.cc:194-208 | the members of a union start at the same byte |
| Layout.LowerKeepsSize | libirx/irinterpreter2-struct.cc:119-129 | lowering to LLVM types keeps size, stride and alignment, unions included |
| Layout.LowerKeepsOffset | libirx/irinterpreter2-struct.cc:249-256 | and the offset of every member |
| Layout.Gep2Offset | libirx/irinterpreter2-struct.cc:221-273 | the loop computes the recursive walk, in bits, or aborts where the walk does |
| Layout.WalksCompose | libirx/irinterpreter2-struct.cc:221-273 | the walk over a concatenated index list is one walk after the other |
| LeastLayout.RecordAlignment | libirx/irinterpreter2-struct.cc:249-256 | a record is aligned as its strictest member |
| LeastLayout.UnionSizeLeast | libirx/irinterpreter2-struct.cc:119-129 | a union's size is the least multiple of its alignment that holds each member |
| LeastLayout.FieldOffsetLeast | libirx/irinterpreter2-struct.cc:249-256 | each field starts at the least place behind the one before that suits its alignment, the first at 0 |
| LeastLayout.StructSizeLeast | libirx/irinterpreter2-struct.cc:119-129 | a struct's size is the least multiple of its alignment behind its last field |
| LeastLayout.ElementsAdjacent | libirx/irinterpreter2-struct.cc:257-262 | array elements lie one behind the other and fill the array; union members start at 0 |
| LeastLayout.KeptChoice | libirx/irinterpreter2-debug.cc:578-581 | the member LLVM keeps for a union is aligned most strictly, among those largest, among those first |
| LeastLayout.ElementOffsetLeast | libirx/irinterpreter2-struct.cc:249-256 | the same least place for elements of LLVM's structs |
| LeastLayout.StoreSizeLeast | libirx/irinterpreter2-struct.cc:119-129 | and the least size for them |
| LeastLayout.StrideLeast | libirx/irinterpreter2-struct.cc:257-262 | an array's stride is the least multiple of the element's alignment that holds an element |
| Resolver.Gep2MemberInfo | libirx/irinterpreter2-debug.cc:532-585 | the loop over members returns the index list of the first match, entering anonymous members, and raises on a bad array index |
| Resolver.Gep | libirx/irinterpreter2-debug.cc:643-695 | the loop over names equals the recursive descent, empty where a name is missing |
| Resolver.ToBasicType | libirx/irinterpreter2-debug.cc:302-337 | the basic type under typedefs and arrays |
| Resolver.GetStructFieldInfo2 | libirx/irinterpreter2-debug.cc:455-505 | type name, size and index list by direct descent |
| Decimal.StoiExact | libirx/irinterpreter2-debug.cc:536-545 | an index string is blanks, a sign, digits and a rest: the number of the digits with that sign, none without digits or outside an int |
| Decimal.Numerals | libirx/irinterpreter2-debug.cc:256-258 | an index is spelled in decimal without leading zeros |
| Lookup.IndexLookup | libirx/irinterpreter2-debug.cc:536-545 | what an array makes of any such string: an element whatever the bound, nothing for a negative number, an exception |
| Lookup.IndexUnchecked | libirx/irinterpreter2-struct.cc:261-266 | nor does the walk check a bound: behind a path that leads to an array any index counts that many elements on |
| Lookup.AbsentField | libirx/irinterpreter2-debug.cc:455-505 | for a name the struct does not have the answer is of unknown type and size 0, and there is no offset |
| Lookup.FieldTypeName | libirx/irinterpreter2-debug.cc:302-337 | the type name of a field by its C type: basic name through typedefs and arrays, PTR, or unknown |
| Spelling.SpellingResolves | libirx/irinterpreter2-debug.cc:643-695 | the direct resolver reads the spelling of every path back to that path's index list, anonymous members included |
| Spelling.SpellingInjective | libirx/irinterpreter2-debug.cc:532-585 | different paths are spelled differently |
| Spelling.SizeRecorded | libirx/irinterpreter2-debug.cc:437-451 | the size the direct resolver returns is the C size, except 0 at an element of an array of a typedef and none at a record inside an array |
| Search.SearchInfo.ProcessElement | libirx/irinterpreter2-debug.cc:91-184 | the search with an accumulated path finds what the recursive search on the remaining path finds, divides by zero exactly where it does, fills in the record, and leaves the indices alone when it fails |
| Search.SearchInfo.ProcessComposite | libirx/irinterpreter2-debug.cc:192-268 | the same for the loop over members and array elements |
| Search.GetStructFieldInfo | libirx/irinterpreter2-debug.cc:279-300 | the field with the reversed index list of the search, not found, or a division by zero |
| Agreement.DfsFinds | libirx/irinterpreter2-debug.cc:91-268 | for every spelled path to a scalar, pointer or scalar array: the search divides by zero if and only if a member or element visited before it, or an array on the path, has a typedef'd element; otherwise it finds the path, with its size and index list |
| Agreement.DfsOnlyFinds | libirx/irinterpreter2-debug.cc:91-268 | and whatever it finds is spelled by a path to such a leaf, unless the direct resolver raises |
| Agreement.ResolversAgree | libirx/irinterpreter2-debug.cc:455-505 | on every such path the direct resolver returns type name, recorded size and index list, and the search the same if and only if it does not divide by zero; at an element of an array of a typedef the direct size is 0 and the search divides by zero |
| Agreement.SearchCrashes | libirx/irinterpreter2-debug.cc:237-242 | an input: an array of a typedef declared before the wanted field crashes the search, declared after it does not |
| Agreement.SearchExact | libirx/irinterpreter2-debug.cc:91-268 | on any names and types: of the paths with these names, array indices left out or not, the search goes for the first in its order, and finds exactly that one if and only if it meets no element without a recorded size before; if there is none it goes through the whole type |
| Agreement.HasFirst | libirx/irinterpreter2-debug.cc:91-268 | if any path has these names, one of them comes first |
| Agreement.SearchFindsExactly | libirx/irinterpreter2-debug.cc:279-300 | where the direct resolver does not raise, the search succeeds if and only if the wanted names spell a path to a leaf that it reaches without a crash |
| Agreement.SkippedIndexFound | libirx/irinterpreter2-debug.cc:91-184 | an input: with an array index left out the direct resolver raises and the search finds the field, one index short |
| Offsets.OffsetInBitsFromPath | libirx/irinterpreter2-struct.cc:86-101 | the offset of a spelled path is the walk over its resolved index list |
| Offsets.StepsRightExact | libirx/irinterpreter2-struct.cc:221-273 | each step along a path is right if and only if the walk gives the C offset on it and on every shorter path on the way |
| Offsets.WalksRightExact | libirx/irinterpreter2-struct.cc:221-273 | the walk through a type gives the C offset on every path of another if and only if it does level by level |
| Offsets.LoweredWalksRight | libirx/irinterpreter2-debug.cc:578-581 | for the lowered type itself that is decided at unions: each member has to walk right in the one LLVM kept |
| Offsets.WalkGivesOffset | libirx/irinterpreter2-struct.cc:221-273 | along right steps the walk never aborts and gives the sum of member offsets |
| Offsets.OffsetOfSpelling | libirx/irinterpreter2-struct.cc:86-101 | the offset of any spelled path is what the walk gives, so it is the C offset if and only if the walk is right and the path does not stop at a record inside an array |
| Offsets.OffsetIsRight | libirx/irinterpreter2-struct.cc:86-101 | where the walk is right the offset found for a spelling is the C offset; it aborts exactly where the path stops at a record inside an array |
| Offsets.DroppedMemberMisses | libirx/irinterpreter2-debug.cc:578-581 | an input: below a union member LLVM dropped, the offset of u.y.b is bit 32 where C has byte 1, while u.y.a is right |
| FieldAccess.SetReadBack | libirx/irinterpreter2-struct.cc:195-218 | a field that was set, and every field inside it, reads as the new bytes |
| FieldAccess.SetElsewhere | libirx/irinterpreter2-struct.cc:195-218 | fields on paths that part elsewhere than at a union read as before |
| FieldAccess.SetSeenBySibling | libirx/tests/test.cc:194-208 | a union member that was set is seen through its siblings |
| FieldAccess.RoomForFields | libirx/irinterpreter2-struct.cc:119-138 | the store size of the lowered struct is room for every field |
| ByteMemory.LeRoundTrip | libirx/irinterpreter2-interpreter.cc:492-538 | storing n bytes and loading them with zero extension keeps a value modulo 256^n, so exactly the values below 256^n |
| ByteMemory.LeOfFromLe | libirx/irinterpreter2-interpreter.cc:492-538 | loading and storing again restores the bytes |
| ByteMemory.LeDigit | libirx/irinterpreter2-interpreter.cc:492-538 | the least significant byte comes first: byte k is the digit of weight 256^k |
| ByteMemory.FromLeSplit | libirx/irinterpreter2-interpreter.cc:492-538 | bytes behind the first k weigh 256^k |
| ByteMemory.Memcpy | libirx/irinterpreter2-struct.cc:204 | the copy loop changes exactly the addressed bytes |
| AddressSpace.AdvanceExact | libirx/irinterpreter2-mmap.cc:198-201 | every allocation, of size zero too, advances by size+1 to size+4 and keeps the cursor 4-aligned |
| AddressSpace.LinearVirtualMemoryAddressGenerator.Next | libirx/irinterpreter2-mmap.cc:198-213 | the old cursor, or exit where the window is used up |
| AddressSpace.LinearVirtualMemoryAddressGenerator.Freeze | libirx/irinterpreter2-mmap.cc:355-357 | pushes the cursor |
| AddressSpace.LinearVirtualMemoryAddressGenerator.Reset | libirx/irinterpreter2-mmap.cc:359-362 | pops the mark into the cursor |
| AddressSpace.FindStart | libirx/irinterpreter2-mmap.cc:19-30 | the greatest key at or below the address, if any |
| AddressSpace.FindEnd | libirx/irinterpreter2-mmap.cc:32-43 | the least key at or above the address, if any |
| AddressSpace.LookupExact | libirx/irinterpreter2-mmap.cc:53-68 | the two are one block's if and only if a block contains the address, and then they are that block's |
| AddressSpace.BlockUnique | libirx/irinterpreter2-mmap.cc:53-68 | at most one block contains an address |
| Allocator.MapAllocator.Has | libirx/irinterpreter2-mmap.cc:46-51 | some block starts at or below and some block ends at or above the address, gaps included |
| Allocator.MapAllocator.Find | libirx/irinterpreter2-mmap.cc:53-68 | the unique block containing the address, or none |
| Allocator.MapAllocator.Vvptr2Vptr | libirx/irinterpreter2-mmap.cc:91-100 | host pointer of the block plus offset, null outside blocks |
| Allocator.MapAllocator.Vptr2Vvptr | libirx/irinterpreter2-mmap.cc:102-117 | a block with that host pointer, 0 if and only if there is none |
| Allocator.MapAllocator.Put | libirx/irinterpreter2-mmap.cc:81-89 | one entry shared by both maps and the list |
| Allocator.MapAllocator.Add | libirx/irinterpreter2-mmap.cc:215-227 | the new block, all invariants kept; the overlap check never fires; exits exactly when the window is used up |
| Allocator.MapAllocator.Malloc | libirx/irinterpreter2-mmap.cc:230-234 | the same for a host block, which is remembered as one to free |
| Allocator.MapAllocator.RemoveBlock | libirx/irinterpreter2-mmap.cc:70-78 | exactly the block found leaves both maps and the list |
| Allocator.MapAllocator.Free | libirx/irinterpreter2-mmap.cc:236-244 | the block is gone; its host pointer is freed if and only if the allocator asked for it |
| Allocator.MapAllocator.Reset | libirx/irinterpreter2-mmap.cc:341-343 | rewinding keeps all invariants once everything above the mark is freed |
| Allocator.MapAllocator.Destroy | libirx/irinterpreter2-mmap.cc:180-185 | teardown ends, frees every host block asked for exactly once and no other, and leaves nothing registered |
| Allocator.PutState | libirx/irinterpreter2-mmap.cc:81-89 | registering above the cursor keeps both maps describing the same disjoint closed ranges |
| Allocator.EraseState | libirx/irinterpreter2-mmap.cc:70-78 | so does removing a block |
| FrozenState.PlusOne | libirx/irinterpreter2-mmap.cc:416-426 | after one more allocation the state is the frozen one plus the allocations since |
| FrozenState.MinusFirst | libirx/irinterpreter2-interpreter.cc:774-777 | freeing the oldest of them leaves the frozen state plus the rest |
| FrozenState.BackToFrozen | libirx/irinterpreter2-interpreter.cc:773-782 | with none left, both maps and both lists are exactly the frozen ones |
| FrozenState.AddressesGrow | libirx/irinterpreter2-mmap.cc:198-213 | the addresses handed out are a function of the mark and the sizes asked for |
| FlatView.LiveTranslation | libirx/irinterpreter2-mmap.cc:91-100 | inside a block translation is base plus offset |
| FlatView.TranslationCases | libirx/irinterpreter2-mmap.cc:365-378 | translation in a block, in a gap and outside all blocks |
| FlatView.TranslationInjective | libirx/irinterpreter2-mmap.cc:365-378 | different live addresses are different host bytes |
| FlatView.WriteThroughBlock | libirx/irinterpreter2-interpreter.cc:283-330 | a host write through a translated address changes the flat memory there and nowhere else |
| FlatView.BlockCovered | libirx/irinterpreter2-interpreter.cc:247-265 | a host read through a translated address returns the flat memory |
| FlatView.ViewGrows | libirx/irinterpreter2-mmap.cc:215-227 | a new block adds its bytes to the flat memory and keeps the others |
| FlatView.ViewShrinks | libirx/irinterpreter2-mmap.cc:236-244 | taking blocks away takes their bytes away and keeps the others |
| InitMemory.InitializeMemory | libirx/irinterpreter2-interpreter.cc:1059-1112 | memory becomes the constant's image laid over it, inside the allocation size only |
| InitMemory.InitializeOperands | libirx/irinterpreter2-interpreter.cc:1070-1095 | the loops over operands write each operand's image at its element offset |
| InitMemory.InitialisingRestores | libirx/irinterpreter2-interpreter.cc:989-1018 | running the initialiser again restores every byte it determines, and changes nothing if none was disturbed |
| InitMemory.LeafStored | libirx/irinterpreter2-interpreter.cc:1059-1112 | every sub-constant's image is found at the offset the layout walk gives its path |
| InitMemory.ScalarReadBack | libirx/irinterpreter2-interpreter.cc:1102-1106 | reading a scalar leaf at its layout offset returns its value |
| ConstantBytes.SaidByte | libirx/irinterpreter2-interpreter.cc:1059-1112 | after initialisation a byte is what any leaf of the constant says of it: zero in a zero aggregate, its own byte in a sequence or scalar |
| ConstantBytes.UnsaidByte | libirx/irinterpreter2-interpreter.cc:1059-1112 | every byte no leaf says anything of, undef and padding, is what it was |
| ConstantBytes.ZeroSays | libirx/irinterpreter2-interpreter.cc:1075-1077 | a zero aggregate at any path says 0 of each byte of its allocation size |
| Globals.ImageThroughBlock | libirx/irinterpreter2-interpreter.cc:989-1018 | laying an image over a global's host block changes the flat memory at the bytes the image determines and nowhere else |
| Globals.GlobalLeafReads | libirx/irinterpreter2-interpreter.cc:1102-1106 | the flat memory at an initialised global's interpreter address plus the layout offset of a scalar leaf is the leaf's bytes |
| ConstantBytes.GlobalByte | libirx/irinterpreter2-interpreter.cc:989-1018 | an initialised global shows at its interpreter address what its leaves say |
| ConstantBytes.DeterminesExactly | libirx/irinterpreter2-interpreter.cc:989-1018 | the bytes that initialising and resetting may change are those some leaf says something of |
| ConstantBytes.GlobalZeroReads | libirx/irinterpreter2-interpreter.cc:1075-1077 | every byte of a zero aggregate in an initialised global reads 0 |
| ConstantBytes.GlobalRawReads | libirx/irinterpreter2-interpreter.cc:1096-1106 | a data-sequential or scalar leaf reads as its bytes |
| ConstantBytes.GlobalElementReads | libirx/irinterpreter2-interpreter.cc:1096-1101 | element i of a data-sequential constant reads as the i-th piece of its bytes |
| Interpreter.MyInterpreter.InitializeGlobals | libirx/irinterpreter2-interpreter.cc:989-1018 | each global is found through its interpreter address; then all hold their initialisers, and the flat memory has changed only where one determines it |
| Interpreter.MyInterpreter.CreateInterpreter | libirx/irinterpreter2-interpreter.cc:941-974 | all host objects are registered, each global with its initialiser at the interpreter address of its object and initialised there, the state is the frozen one |
| Interpreter.MyInterpreter.Malloc | libirx/irinterpreter2-mmap.cc:416-426 | the address is the cursor, the state stays the frozen one plus the allocations since; the addresses depend on the mark and the sizes alone |
| Interpreter.MyInterpreter.StructAlloc | libirx/irinterpreter2-struct.cc:132-138 | a block behind all others whose bytes are new; no other byte of the flat memory changes |
| Interpreter.MyInterpreter.ResetAllocations | libirx/irinterpreter2-interpreter.cc:773-782 | after any number of allocations both maps, both lists and the cursor are exactly the frozen ones, and the freeze stack has depth one |
| Interpreter.MyInterpreter.ResetExtraAllocations | libirx/irinterpreter2-interpreter.cc:773-789 | the same, every registered global holds its initialiser at its interpreter address, and call stack and exit value are empty; no live byte has changed but those an initialiser determines |
| Interpreter.MyInterpreter.Vvptr2Vptr | libirx/irinterpreter2-mmap.cc:365-378 | in a block base plus offset, in a gap null, outside the span the address itself |
| Interpreter.MyInterpreter.FieldAddress | libirx/irinterpreter2-struct.cc:195-201 | the host address of a field is the translated block plus the place the walk gives; none where the walk aborts |
| Interpreter.MyInterpreter.StructSet | libirx/irinterpreter2-struct.cc:195-211 | setting a field changes the flat memory at the place the walk gives and nowhere else; where the walk aborts nothing is written |
| Interpreter.MyInterpreter.StructGet | libirx/irinterpreter2-struct.cc:213-218 | getting a field returns the flat memory at the place the walk gives |
| Primitives.PrimitiveRoundTrip | pyirinterpreter.pyx:114-168 | encoding and decoding a value is the identity if and only if it is in its type's range |
| Primitives.TextRoundTrip | pyirinterpreter.pyx:139-144 | text comes back if and only if it is ASCII, fits, and does not end in NUL |
| Primitives.PointerRoundTrip | pyirinterpreter.pyx:225-230 | 32-bit pointers all come back, 64-bit ones with the sign bit clear |
| TypedLeaves.LeafPacked | pyirinterpreter.pyx:114-168 | for every C type name and value: which numbers and texts a field takes, and which bytes they become |
| TypedLeaves.LeafUnpacked | pyirinterpreter.pyx:201-271 | for every C type name and bytes: which number or text is read, or that reading raises |
| Marshaller.LeavesApart | pyirinterpreter.pyx:173-199 | no leaf of an object lies inside another |
| Marshaller.ChildSpelling | pyirinterpreter.pyx:184-197 | the path a child is written under is spelled with the child's name appended |
| Marshaller.StepsExist | pyirinterpreter.pyx:173-199 | a field has a place if and only if the record can be asked for its name, an item if and only if the array is long enough |
| Upload.WritesStayInside | pyirinterpreter.pyx:173-199 | writing an object's leaves changes no byte outside the object |
| Upload.UploadHolds | pyirinterpreter.pyx:173-199 | with no two set leaves in the same place, memory holds every leaf after the last one is written |
| Upload.OnePerUnionApart | pyirinterpreter.pyx:173-199 | where the walk is right, set leaves share no place if at most one member of each union is set |
| Upload.HoldsFrame | pyirinterpreter.pyx:173-199 | and keeps holding them while the object's bytes stay |
| Marshalling.SetStruct | pyirinterpreter.pyx:173-199 | the recursion writes the leaves in field order, up to the first exception or abort; a single leaf becomes the bytes its C type name and value ask for, at its place and nowhere else, or raises |
| Marshalling.PlacesFromUnions | pyirinterpreter.pyx:173-199 | where the walk is right for every leaf of an object, its leaves lie inside it and the set ones share no place if at most one member of each union is set |
| Marshalling.UploadEnding | pyirinterpreter.pyx:114-199 | writing ends as the first leaf does that cannot be written: an abort where irx finds no size or the walk aborts, an exception where packing raises |
| Marshalling.SetStructPrimitive | pyirinterpreter.pyx:114-168 | one leaf is packed by its resolved type and written at its place, or raises, or aborts, or writes nothing |
| Marshalling.GetStruct | pyirinterpreter.pyx:273-307 | every leaf is replaced by what memory holds for it: the number or text its C type name reads from those bytes |
| Marshalling.GetStructPrimitive | pyirinterpreter.pyx:201-271 | one leaf is the decoding of the bytes at its place, None where the resolver gives size 0 |
| Marshalling.ObjectRoundTrip | proxy.py:158-166 | an object in range whose set leaves have places of their own inside it, C's places or not, written field by field and read into a fresh one, is reported without a mismatch if and only if every leaf comes back: no leaf but a pointer is an element of an array of a typedef |
| RoundTrip.LeafBack | pyirinterpreter.pyx:201-271 | a scalar leaf held by memory reads back without a mismatch if and only if it is a pointer or no element of an array of a typedef; else it reads as None and is reported |
| RoundTrip.HeldReadsBack | pyirinterpreter.pyx:273-307 | if memory holds every leaf of an object, reading it into a fresh object shows no mismatch if and only if every leaf comes back |
| TypedefElements.TypedefElementLost | pyirinterpreter.pyx:201-271 | an input: a list over uint8_t r[1] meets every condition, its byte is written, and the report is not empty |
| Diff.Compare | diff.py:27-72 | the loops build the recursive report, or raise; a list is compared item by item with a string or bytes of its length too |
| Diff.EmptyMeansAgree | diff.py:27-75 | the report is empty if and only if the values agree field by field, up to unset pointers |
| DiffLaws.ReportExact | diff.py:27-72 | a report lists exactly the places at which the values differ, by the names on the way |
| DiffLaws.RaisesExact | diff.py:27-72 | comparing raises if and only if, at values that are compared, a list meets something without a length or an object something without one of its fields |
| DiffLaws.ReportInOrder | diff.py:27-72 | mismatches are reported in the order of fields and items |
| Diff.NoMismatchWithItself | diff.py:27-72 | an object shows no mismatch with itself, fields of every type included |
| UploadPlan.PlannedUploadable | proxy.py:140-166 | setting pending pointers to addresses in range keeps an object uploadable |
| UploadPlan.PlanComesBack | proxy.py:158-166 | whether an object comes back is the same before and after its pending pointers are set |
| UploadPlan.SettledFits | proxy.py:123-138 | every object fits the plan that counts its pending pointers as set |
| ObjectGraph.LinkAround | proxy.py:131-136 | clearing a target, letting the object change meanwhile and storing the address is one linking step |
| ObjectGraph.ClearingSlot | proxy.py:133 | clearing a target removes exactly that one from the pending pointers |
| ObjectGraph.EvolvesTransitive | proxy.py:123-138 | linking steps compose |
| ProxyWorld.ProgressTwice | proxy.py:123-166 | what two parts of an upload keep, both together keep |
| ProxyWorld.Closed | proxy.py:140-166 | an object that ends up uploaded needs no exemption from what an upload keeps |
| ProxySteps.AddressGiven | proxy.py:141-146 | allocating and registering an object keeps the world well formed, disturbs no uploaded object and leaves the pending pointers as they were |
| ProxySteps.TargetCleared | proxy.py:131-133 | forgetting a target keeps the world well formed and makes the pending pointers fewer |
| ProxySteps.TargetLinked | proxy.py:131-136 | forget, upload the target, store its address: one step that keeps what uploads keep |
| ProxySteps.LinkedWellFormed | proxy.py:136 | the stored address is in the range of a pointer |
| ProxySteps.ObjectWritten | proxy.py:158-160 | writing one object keeps all other uploaded objects uploaded |
| Proxy.StructProxy.Put | proxy.py:140-166 | the upload of a cyclic graph ends with the object and every newly registered or changed object uploaded and nothing else disturbed; the assertion fails only if pending pointers lead to an object with a leaf that does not come back, and with the registered objects uploaded it fails whenever they do |
| Proxy.StructProxy.Place | proxy.py:141-146 | allocation and registration in both maps |
| Proxy.StructProxy.PutCache | proxy.py:123-138 | no pointer outside lists names a target any more |
| Proxy.StructProxy.PutTarget | proxy.py:131-136 | one pointer holds its target's address plus offset, the target being uploaded if it was not registered |
| Proxy.StructProxy.Write | proxy.py:158-166 | the comparison with what is read back is empty if and only if every leaf of the object comes back; then the object is in memory and nothing else has changed |
| Proxy.StructProxy.CacheOffset | proxy.py:192-193 | a place inside an object, where the walk of the path ends; none where it aborts |
| Proxy.StructProxy.Get | proxy.py:81-93 | the object's fields become what memory holds at its address, and both maps know it |
| ReadObjects.ReadingKeepsWorld | proxy.py:81-93 | after reading an object that lies apart from the others, an upload can start if and only if every field held bytes that come back or is a boolean and no two fields share a place; the object then counts as uploaded if and only if every field held bytes that come back and no pointer names a target; other objects stay as they are |
| ReadObjects.FullReadsStayInside | pyirinterpreter.pyx:201-271 | reading an object all of whose fields are read in full stays inside it |
| ReadObjects.LeafAfterReading | pyirinterpreter.pyx:201-271 | a field that was read is ready and held by memory if and only if its bytes come back |
| Primitives.BytesRoundTrip | pyirinterpreter.pyx:114-271 | decoding and encoding restores the bytes if and only if they are canonical for the type, and the value read is in range exactly then, booleans aside |
| Proxy.StructProxy.Deref | proxy.py:116-121 | the object known at the address, else a new one read from memory |
| UploadedGraph.FirstUpload | proxy.py:76-79 | new objects with nothing registered are a world an upload can start from |
| UploadedGraph.RegisteredStayComplete | proxy.py:140-166 | over any number of uploads every registered object stays uploaded |
| UploadedGraph.GraphUploaded | proxy.py:123-166 | every object that could be reached through pending pointers is uploaded |
| UploadedGraph.NobodyBlamed | proxy.py:166 | after an upload that ended well no object that could be reached through pending pointers has a leaf that does not come back |
| UploadedGraph.PointerLinked | proxy.py:136 | every pointer that named a target holds its address plus the offset |
| UploadedGraph.LinkInMemory | proxy.py:136-160 | and so do the bytes of that pointer's field in interpreter memory |
| UploadedGraph.SamePlace | proxy.py:123-166 | two such pointers are equal if and only if they named the same place of the same object |
| UploadedGraph.ForeignMemoryKept | proxy.py:140-166 | memory that belonged to no object before the upload is unchanged by it |
| UploadedGraph.UploadedReadsBack | proxy.py:110-121 | dereferencing an uploaded object's address finds the object, and reading it anew shows no difference |
| FunctionPointers.VisitStorePointer | libirx/irinterpreter2-interpreter.cc:283-324 | the low bytes of the interpreter address of a function, or of the value, at the translated place |
| FunctionPointers.VisitLoadPointer | libirx/irinterpreter2-interpreter.cc:247-281 | the zero-extended bytes of the flat memory |
| FunctionPointers.FindFunctionByVPtr | libirx/irinterpreter2-interpreter.cc:341-351 | the first function with that host address, or none |
| FunctionPointers.GetFunctionWithPtr | libirx/irinterpreter2-interpreter.cc:717-728 | the function an indirect call enters, after guarded translation |
| FunctionPointers.StoredAndLoaded | libirx/irinterpreter2-interpreter.cc:492-538 | a pointer comes back from memory if and only if it fits the pointer's bytes |
| FunctionPointers.WindowFits | libirx/irinterpreter2-mmap.h:88-92 | every interpreter address fits four bytes |
| FunctionPointers.SameFunctionCalled | libirx/irinterpreter2-interpreter.cc:412-421 | a function pointer stored, loaded and called enters the same function, stored as host or as interpreter address |
| FunctionPointers.WhenInterpreterAddressIsSafe | libirx/irinterpreter2-interpreter.cc:308-314 | storing a function's interpreter address is safe if and only if no other block's host pointer equals it |
| FunctionPointers.HostInWindowMisleads | libirx/irinterpreter2-interpreter.cc:308-314 | an input on which the wrong function is called |
| RunControl.Execution.RunInstruction | libirx/irinterpreter2-interpreter.cc:541-657 | a listed call stops or is skipped, anything else is visited |
| RunControl.Execution.Run | libirx/irinterpreter2-interpreter.cc:659-672 | the loop computes the run, cut off after a budget of instructions |
| RunControl.Execution.PutReturnValue | libirx/irinterpreter2-interpreter.cc:1209-1215 | the value is recorded for the running instruction in the frame on top |
| RunControl.Execution.RunToEnd | libirx/irinterpreter2-interpreter.cc:1114-1128 | stop, answer and resume until nothing is left to run |
| RunControl.BudgetOnlyCuts | libirx/irinterpreter2-interpreter.cc:659-672 | a run that was cut off goes on as if it had not been; other runs do not depend on the budget |
| RunControl.StopAndResumeIsSkip | libirx/irinterpreter2-interpreter.cc:629-637 | stopping at functions and resuming to the end is one run that skips them, at every budget |
| RunControl.AnswersAreResults | libirx/irinterpreter2-interpreter.cc:1209-1215 | supplying return values at stops is one run in which those calls record those values |
| StraightRuns.FirstStep | libirx/irinterpreter2-interpreter.cc:659-672 | the instruction at the cursor is run first and the cursor moves behind it; a stop comes before a skip |
| StraightRuns.SkippedCalls | libirx/irinterpreter2-interpreter.cc:659-672 | n calls of skipped functions in a row are run once each and in order, and change the cursor alone |
| StraightRuns.StraightLine | libirx/irinterpreter2-interpreter.cc:659-672 | so are n instructions that neither call, branch nor stop |
| StraightRuns.StopAnswerResume | libirx/irinterpreter2-interpreter.cc:1209-1215 | an answer to a stopped call lands in the calling frame under the call; a resumed run starts behind the call |
| StraightRuns.SessionStep | libirx/irinterpreter2-interpreter.cc:1114-1128 | at a call to stop at the user is asked once; an answer is recorded in the calling frame, and the session goes on behind the call |
| LinkerSections.FirstPrefix | libirx/irinterpreter2-sections.cc:195-203 | the first listed name that is a prefix, none if and only if no name is one |
| LinkerSections.InitializeZephyrSectionFinders | libirx/irinterpreter2-sections.cc:447-489 | one finder for each mandatory or discovered object, then one for each configuration |
| LinkerSections.StaticSectionCollected | libirx/irinterpreter2-sections.cc:466-481 | every static section of the module has a finder that collects it whole |
| SectionLaws.NativeLevelExact | libirx/irinterpreter2-sections.cc:138-203 | a native finder collects a section at a level if and only if it starts with the first match name it can and the first level that follows |
| SectionLaws.StaticLevelExact | libirx/irinterpreter2-sections.cc:297-311 | a static finder collects a section at a level if and only if it starts with its prefix, the level and .static., with no shorter level |
| SectionLaws.ObjectsExact | libirx/irinterpreter2-sections.cc:447-489 | static finders are there for the mandatory objects first and then for each object with a static section, and no others |
| SectionLaws.NativeLevels | libirx/irinterpreter2-sections.cc:224-228 | the levels of a native finder are the configured ones |
| SectionLaws.StaticLevels | libirx/irinterpreter2-sections.cc:224-228 | those of a static finder come in order of appearance |
| SectionLaws.LessExact | libirx/irinterpreter2-sections.cc:498-499 | section names ascend: a proper prefix or the smaller character at the first difference comes first |
| LinkerSections.LevelsDistinct | libirx/irinterpreter2-sections.cc:224-228 | no level is listed twice, and every collected global's level is listed |
| LinkerSections.SortedKeys | libirx/irinterpreter2-sections.cc:498-499 | the keys of an ordered map in ascending order |
| LinkerSections.GroupUnique | libirx/irinterpreter2-sections.cc:498-499 | the sorted group of a level is determined |
| LinkerSections.LevelsInOrder | libirx/irinterpreter2-sections.cc:521-541 | before the first position of a level are earlier levels only, from there on none of them |
| LinkerSections.ArrayElements | libirx/irinterpreter2-sections.cc:503-541 | the array holds exactly the last global of every collected section |
| LinkerSections.EachOnceIffDistinct | libirx/irinterpreter2-sections.cc:503-541 | it holds each collected global exactly once if and only if section names are distinct |
| SectionArrays.LinkerModule.Group | libirx/irinterpreter2-sections.cc:503-519 | the nested maps hold the last global of each section under its level, and the levels in order of appearance |
| SectionArrays.LinkerModule.Concatenate | libirx/irinterpreter2-sections.cc:521-541 | the array is the concatenation over levels of the sorted groups, the indices their starts |
| SectionArrays.LinkerModule.EmitOffset | libirx/irinterpreter2-sections.cc:343-409 | a declared name becomes a symbol whose flat address is the offset, spelled 1,0 exactly for the end of a non-empty array; the crash if and only if it is declared with a type that is neither the element type nor an array |
| SectionArrays.LinkerModule.CollectSection | libirx/irinterpreter2-sections.cc:503-567 | array and symbols of one kind of section: every declared name points where its first emission says; the crash if and only if one of the names cannot be made an alias |
| SectionArrays.LinkerModule.CollectLinkerScriptSections | libirx/irinterpreter2-sections.cc:491-580 | one such array for each finder, its type decided by what is still declared then; a declared name becomes the symbol of the first finder that emits it, pointing where that finder's first emission says, and other names stay; or the crash, at the first section that emits a declared name which cannot be made an alias |
| SectionArrays.LevelSymbol | libirx/irinterpreter2-sections.cc:558-564 | a level's symbol points at the level's first position, unless an earlier symbol has its name |
| SectionArrays.StartAndEnd | libirx/irinterpreter2-sections.cc:554-567 | the start symbol points at the first element, the end symbol at N + 1 |
| SectionLaws.CollectedBetween | libirx/irinterpreter2-sections.cc:521-541 | the last global of a section collected at a level lies in the array from that level's start on and before the next |
| SectionLaws.NativeCollected | libirx/irinterpreter2-sections.cc:503-541 | so does a global whose section starts with a native finder's match name and level |
| SectionLaws.NativeNames | libirx/irinterpreter2-sections.cc:180-222 | the names of a native finder's array and symbols |
| SectionLaws.StaticNames | libirx/irinterpreter2-sections.cc:297-336 | the names of a static finder's array and symbols |
| SectionLaws.NamesEmitted | libirx/irinterpreter2-sections.cc:554-567 | the names emitted are the start if there are levels, the end, and one for each level that has a name, and no others |
| SectionLaws.ElementTypeSuits | libirx/irinterpreter2-sections.cc:230-260 | the element type suits the declared start symbol, else the end symbol, else it is the first global's |
| SectionLaws.AreaElement | libirx/irinterpreter2-sections.cc:411-445 | each element is its global's initialiser, or null if the types differ |

## Left out

- LLVM itself: parsing, linking, verification, opcode visitors and the replacing of uses by aliases; an instruction is an abstract step, a GEP its pair of indices.
- RunControl.Execution.Run: a run is cut off after a budget of instructions, because the interpreted program may run for ever; BudgetOnlyCuts says the budget does nothing else. Exceptions thrown out of a run are not modelled.
- Interpreter.MyInterpreter.StructSet: needs the place the walk gives to lie in the object's block; an access past its end is not followed.
- FieldAccess.SetReadBack: and the other laws of FieldAccess speak of C's offsets, so of paths the walk finds where C puts them.
- Marshalling.SetStruct: leaves whose place reaches past the end of the object are not followed, when writing or when reading.
- Marshalling.GetStruct: returns the object read from memory as a new value instead of overwriting attributes and list items; Proxy stores it, so aliases of the old embedded objects and lists are not seen.
- Proxy.StructProxy.Put: objects with addresses lie apart from one another, as the comment at proxy.py:19-21 asks; `deep=True`, `container_of`, `update_ptr`, `deref_array` and `Global` are not modelled; an exhausted address window or host memory ends the process.
- ReadObjects.ReadingKeepsWorld: is stated for objects all of whose fields are read in full: found inside the object, with a recorded size, over a value of the field's own type.
- Diff.Compare: comparing two dicts is not modelled, as no value of the model is a dict.
- Primitives.PrimitiveRoundTrip: text beyond ASCII stays bytes when read, because the UTF-8 decoder is not modelled; `unsigned long` and `long`, which the writer rejects, and single `char` fields are outside the standard sizes.
- Marshaller.LeavesApart: dict values are not modelled; fields annotated as pointers always hold a pointer object; fields whose names start with two underscores are not part of an object.
- Agreement.SearchFindsExactly: is stated where the direct resolver does not raise on an array index that is no number; SearchExact covers the other names.
- TypePaths.RangesSeparate: array indices are in range, since the code does not check them; bit-fields, enumerations, qualifiers, arrays of pointers and multi-dimensional arrays are not part of the types.
- Allocator.MapAllocator.Find: entries are compared by content instead of by list node, with distinct host pointers the same.
- Interpreter.MyInterpreter.CreateInterpreter: thread-local globals, which the source skips, are not among the initialisers given.
- SectionArrays.LinkerModule.CollectSection: types are compared as values, the mutation of alias types and casts of array symbols are not modelled; the area itself does not collide with a declared name.
- FunctionPointers.VisitStorePointer: values are addresses only; loads and stores of other types go to LLVM.
- The other allocators, the ELF and metadata text tools, logging, environment and driver scripts.
