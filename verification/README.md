# A Dafny model of the eLua core, the pool allocator and the MQTT packet codec

The repository contains the eLua 5.1 core, an address-ordered pool allocator and an MQTT 3.1.1
packet codec. This project models the parts of them that are hardest to get right, in the form the
source gives them (classes whose methods change their fields, loops over arrays and linked lists,
pure functions where the source only computes), and proves what they promise.

| files | component |
|---|---|
| Code*.dfy | the expression code generator, the interpreter loop it targets, and compiler correctness |
| Gc*.dfy | the incremental tri-colour collector with the program steps that run between its steps |
| Table*.dfy | tables: array part and a chained scatter hash that is rehashed in place |
| Bytecode.dfy, Checker*.dfy | the bytecode checker and what its acceptance guarantees |
| Chunk*.dfy | precompiled chunks: dump and undump across byte orders |
| Pattern*.dfy | the backtracking pattern matcher of string.find and string.match |
| Parser*.dfy | operator-precedence parsing, its grammar and its inverse |
| Sort.dfy, Powers.dfy | table.sort; powers of two |
| MemPool*.dfy | the pool allocator |
| Strings.dfy | the table of interned strings |
| Mqtt*.dfy | remaining lengths, strings, PUBLISH, SUBSCRIBE and CONNECT |
| Isqrt.dfy | the integer square root |

Most components are split into a specification on values (sequences, maps, sets), lemmas about it,
and a class or methods proved against it. Ghost parameters and fields name the value a stored
structure stands for. `dafny verify dfyconfig.toml` checks everything.

Inputs that come from outside are parameters: addresses returned by the allocator, the addresses
and hashes that decide mainposition, metamethod results and order relations of values, the byte
order and the signedness of chars of a machine, and the buffers of a connection.

## Findings

Where a property holds only under a condition, the condition is proved to be exact:

- The bytecode checker does not look at the value of LOADBOOL's skip flag. Code with flag 2 is
  accepted and runs off its end (`CheckerSafe.SkipFlagTwo`); acceptance confines execution exactly
  when no such skip leads past an instruction boundary (`CheckerSafe.StaysExactly`), as is the case
  for the flags the generator emits (`CheckerSafe.RunIsSafe`).
- The trace of symbexec, which names the variable in error messages, does not see some writes of the
  interpreter: R(B) of a LOADNIL with B below A, the operands of CONCAT, A+3 of FORLOOP, A+1 and A+2 of
  FORPREP and what VARARG puts above A; and it takes TEST, a VARARG without values and such a LOADNIL
  to write A. These are exactly the differences (`CheckerTrace.ChangesWhat`).
- `mem_pool_malloc` drops every free segment above one that it hands out whole
  (`MemPoolRuns.TakenLoses`, reached in `MemPoolRuns.LosesMemory`), and `mem_pool_free` breaks the
  list exactly when it is not empty and ends below the segment given back
  (`MemPool.Pool.AddSegment`, reached in `MemPoolRuns.StraysReached`).
- `isqrt` overflows for arguments from 2^30 on when numbers have 32 bits (`Isqrt.Isqrt`).
- `MQTTDeserialize_publish` and `MQTTDeserialize_subscribe` return 1, the code of success, for a
  packet whose topic does not fit, exactly when its length field is one byte
  (`MqttPublish.PublishFailure`, `MqttPublish.SubscribeFailure` and their examples).
- `MQTTDeserialize_publish` reports success with a negative payload length for a packet whose id
  crosses the end of the packet (`MqttPublish.NegativePayload` and its example).
- `MQTTDeserialize_connect` refuses logins that `MQTTSerialize_connect` writes: an empty user name
  that comes last, an empty password, a password without a user name (`MqttConnect.ConnectBack`,
  `MqttConnect.RefusedLogin`).
- `MQTTPacket_len` adds the header byte before it sizes the length field, so a buffer of exactly
  the right size is called too short for four lengths (`MqttPacket.LenSuffices`).
- An expression nested more than 200 deep is refused (`ParserPrint.PrintParses`), and one that needs
  250 registers (`CodeProgram.CompileFunction`).
- In `resize_hashpart` the branch for an empty new node vector is never taken, since the size is a
  power of two and at least one; its comment says otherwise. The code was followed.

## Model

| member | source | states |
|---|---|---|
| CodeProgram.CompileFunction | src/lua/lcode.c:735-798 | the instructions the generator stores for `return x`, jump lists threaded and patched in place, come to their OP_RETURN, on every machine and for all arguments, and hand back the value of x and nothing else, unless an error was raised; an error is raised when the parameters and the registers the expression needs, counted on the expression, reach 250, and for code of fewer than 131071 instructions only then |
| CodeProgram.CallFunction | src/lua/lvm.c:435-702 | generated and run by the interpreter loop, the function gives its caller the value of x, followed by nil for every further value the caller wants |
| CodeNeed.ReturnNeed | src/lua/lcode.c:198-233 | the stack size the generator arrives at is the parameters and the need of the expression: one register for each left operand of a comparison that is held while the right one is compiled, one for a value tested or negated that is in none |
| CodeNeed.CompileCost | src/lua/lcode.c:208-233 | compilation of an expression takes exactly that many registers beyond those in use, adds exactly the constants foreseen and leaves no register in use |
| CodeTheorem.CompileOk | src/lua/lcode.c:735-778 | wherever compilation of an expression starts, runs of the code that arrive there go on to carry the value of the expression, by falling through or through a jump of its true or false list, touching no register in use; lists of enclosing expressions stay intact |
| CodeTheorem.FunctionReturns | src/lua/lvm.c:435-702 | the machine, started on the compiled function with its parameters and nil above, comes within as many steps as there are instructions to the final OP_RETURN, whose operands hand back one register, with the value of the expression in it |
| CodeTheorem.AssignsValue | src/lua/lcode.c:467-495 | code for an assignment to a local leaves the value of the expression in it and every other register in use as it was, although jumps of `and`, `or` and comparisons meet there |
| CodeTheorem.NoTemporary | src/lua/lcode.c:386-464 | the descriptor of a compiled expression never names a temporary register |
| CodeCorrect.Exp2RegOk | src/lua/lcode.c:386-407 | exp2reg brings the value of an expression, whichever way its lists leave it, into the register asked for |
| CodeCorrect.GoIfTrueSim | src/lua/lcode.c:534-555 | goiftrue falls through exactly when the value is true and leaves through the false list otherwise, the value still known there |
| CodeCorrect.GoIfFalseSim | src/lua/lcode.c:558-578 | the same for goiffalse and the true list |
| CodeCorrect.CodeNotSim | src/lua/lcode.c:581-617 | codenot turns a descriptor carrying v into one carrying its negation, lists exchanged and made value-less |
| CodeCorrect.TestNotOk | src/lua/lcode.c:519-531 | removing a preceding OP_NOT and testing its operand the other way round jumps exactly when the negated value has the truth asked for |
| CodeRuns.ExecPatch | src/lua/lcode.c:130-159 | patching a list redirects exactly the runs that left through one of its jumps, to the value target with the value in the register or to the default target, as patchtestreg decides |
| CodeRuns.ExecAppend | src/lua/lcode.c:786-798 | appending instructions leaves every run up to the old end as it was, so code already emitted keeps its meaning |
| CodeRuns.RunEmit | src/lua/lcode.c:162-165 | discharging the jumps pending to here before an instruction is appended makes the runs that fell through or left through them, and only those, go on with it |
| CodeGenerator.FuncState.Concat | src/lua/lcode.c:184-195 | the linked list of the result is the first list followed by the second; nothing else in the code changes |
| CodeGenerator.FuncState.NeedValue | src/lua/lcode.c:121-127 | true exactly when some jump of the list is not controlled by a TESTSET |
| CodeGenerator.FuncState.PatchListAux | src/lua/lcode.c:149-159 | walking the threaded list while overwriting its links patches every jump and test of it exactly once and nothing else |
| CodeGenerator.FuncState.RemoveValues | src/lua/lcode.c:143-146 | every TESTSET of the list becomes a TEST and the list stays the same list |
| CodeGenerator.FuncState.Exp2Reg | src/lua/lcode.c:386-407 | what exp2reg does to the threaded code is what it does on plain lists, every other list staying where it is |
| CodeGenerator.FuncState.JumpOnCond | src/lua/lcode.c:519-531 | the same for jumponcond, with the removal of OP_NOT |
| CodeGenerator.FuncState.GoIfTrue | src/lua/lcode.c:534-555 | the same for goiftrue |
| CodeGenerator.FuncState.CodeNot | src/lua/lcode.c:581-617 | the same for codenot |
| CodeGenerator.FuncState.Compile | src/lua/lcode.c:708-778 | the same for the calls a whole expression leads to |
| CodeGenerator.FuncState.CompileReturn | src/lua/lcode.c:68-70 | in the end no jump is loose: stored code and constants are those of the specification, which CodeProgram.CompileFunction shows to hand back the value and nothing else |
| CodeMachine.ExecIsVm | src/lua/lvm.c:435-634 | a run of code still being built that reaches its end is a run of the interpreter loop with the same registers |
| CodeVm.LuaState.Execute | src/lua/lvm.c:435-634 | the interpreter loop, instruction by instruction, makes the machine steps the theorems speak of |
| CodeVm.LuaState.PosCall | src/lua/ldo.c:356-374 | OP_RETURN and luaD_poscall: the registers from R(A) on, B - 1 of them or those up to top, become the values the caller asked for, cut or filled with nil |
| CodeMachine.OperandBits | src/lua/lopcodes.h:34-136 | the numbers that the widths of the operand fields come to |
| Gc.GlobalState.Run | src/lua/lgc.c:566-720 | after any interleaving of program steps (allocation, stores with their barriers, closures and upvalues, returns, thread switches) with collector steps the invariant holds; each step did, slot by slot and field by field, what the instruction says to the object it names and nothing to others, a collector step leaving all in reach as it is; and at every moment every reference in every object in reach leads to an object that is there |
| Gc.GlobalState.Do | src/lua/lgc.c:566-720 | no single step of program or collector loses an object in reach; a store replaces what its field, slot or upvalue held and keeps all others at their places, a load puts what it names on top of the stack, a new object has what the slots named, and a full collection leaves what is in reach and the fixed objects |
| Gc.GlobalState.SingleStep | src/lua/lgc.c:566-611 | one collector step keeps the invariant; what the roots reach stays, unchanged, and is all they reach afterwards |
| Gc.GlobalState.FullGc | src/lua/lgc.c:653-679 | a full collection started in any phase leaves exactly the objects in reach and the fixed ones, unchanged and in the current white |
| Gc.GlobalState.FinishCycle | src/lua/lgc.c:653-668 | giving up a mark phase under way frees nothing |
| Gc.GlobalState.ReallyMarkObject | src/lua/lgc.c:69-112 | marking keeps the tricolour state and puts the object where its kind belongs |
| Gc.GlobalState.PropagateMark | src/lua/lgc.c:279-322 | one gray object is traversed: it and what it refers to are then marked, nothing outside the reach of the roots is |
| Gc.GlobalState.RemarkUpvals | src/lua/lgc.c:516-523 | values of open upvalues that were marked are marked, also those of unmarked threads |
| Gc.GlobalState.Atomic | src/lua/lgc.c:526-554 | at the end of the mark phase the marked objects are closed under references and contain the roots, and the whites change places |
| Gc.GlobalState.SweepList | src/lua/lgc.c:409-427 | sweeping frees only dead objects that are not fixed and makes the others current white |
| Gc.GlobalState.SweepOne | src/lua/lgc.c:409-427 | one round of the sweep, open upvalues of a thread and all |
| Gc.GlobalState.BarrierForward | src/lua/lgc.c:682-692 | a store into a black object followed by luaC_barrierf keeps the invariant in every phase |
| Gc.GlobalState.BarrierBack | src/lua/lgc.c:695-703 | the same for tables and luaC_barrierback |
| Gc.GlobalState.Link | src/lua/lgc.c:714-720 | a new object joins the root list without disturbing a sweep under way |
| Gc.GlobalState.FindUpval | src/lua/lfunc.c:53-79 | the one open upvalue of a stack slot is found, brought back if dead, or made; the list stays strictly descending |
| Gc.GlobalState.CloseUpvals | src/lua/lfunc.c:96-112 | closing from a level on closes exactly the live open upvalues at or above it, each with the value its slot held, and frees the dead ones |
| Gc.GlobalState.MarkNew | src/lua/lgc.c:706-711 | a new upvalue made while marking is marked at once, which keeps the invariant and the graph |
| GcRuns.CollectorUnseen | src/lua/lgc.c:566-679 | while only the collector works, the objects in reach stay in reach and unchanged, and nothing comes into reach |
| GcRuns.GetAfterSet | src/lua/lvm.c:486-507 | a field that was set gives what was stored; any other gives what it gave before |
| GcRuns.GetAfterSetUp | src/lua/lvm.c:473-503 | an upvalue that was set gives what was stored, open or closed |
| GcRuns.GetAfterMove | src/lua/lvm.c:453-456 | a slot that was set gives what the other held |
| GcRuns.GetAfterNew | src/lua/lvm.c:774-795 | a new object has, field by field, what the slots held that it was made of |
| GcRuns.OverwrittenGoes | src/lua/lgc.c:653-679 | what a store overwrote is out of reach at once if nothing else refers to it, and the next full collection frees it |
| GcMeaning.KeptUnmoved | src/lua/lgc.c:69-112 | that the collector keeps the reach means, along chains of fields, slots and upvalues from the roots, that the same objects are in reach and have the same contents place by place |
| GcEffects.LeaveFrame | src/lua/lfunc.c:96-112 | after a return the frame is gone, its upvalues hold the values of their slots, and no other object changes |
| GcSweeping.SweptSafe | src/lua/lgc.c:409-427 | sweeping keeps every object that is not dead, and so whatever the roots reach |
| GcSweeping.ExactSweep | src/lua/lgc.c:526-611 | marking from the roots and no further, followed by a sweep, leaves exactly the reach of the roots and the fixed objects |
| GcSweeping.Flipped | src/lua/lgc.c:543-548 | when the whites change places exactly the objects the mark phase left white are dead, and what is not dead contains the roots and is closed under references |
| GcMutator.AfterBack | src/lua/lgc.c:695-703 | a store into a black table, made gray again and put in grayagain, keeps the invariant while marking, and changes the graph by that store only |
| GcMutator.CloseStill | src/lua/lfunc.c:96-112 | closing the topmost open upvalue takes it from the ring to the root list with its value unchanged and keeps every object that is not dead |
| GcBits.BitTests | src/lua/lgc.h:86-91 | isdead, the survival test of sweeplist and otherwhite, computed on mark bytes, are the tests of the collector |
| GcBits.MacrosPaint | src/lua/lgc.c:32-38 | each macro, on the mark byte of an object of the colour it is for, changes the colour as the collector does and no other bit |
| Table.LuaTable.Run | src/lua/ltable.c:521-686 | after any sequence of writes of values and of nil, of allocations, and of collections that let keys die and their addresses be used again, the table is the map the writes make: each key has the value last written to it, none if that was nil, and a key not written has what it had |
| Table.LuaTable.Get | src/lua/ltable.c:556-629 | a lookup finds a place exactly for the keys that have one, and reads the value of the map |
| Table.LuaTable.Set | src/lua/ltable.c:651-686 | luaH_set gives the place of the key, made if need be, or the errors for nil and NaN; every other key keeps its value |
| Table.LuaTable.NewKey | src/lua/ltable.c:521-550 | inserting by displacing the colliding node or linking behind it keeps chains sound and every key found from its main position; the retry after a rehash finds a free node |
| Table.LuaTable.ResizeHashPart | src/lua/ltable.c:384-433 | rehashing within the same vector, growing or shrinking, keeps the map and the chain invariant when the new size covers the keys; its loops end and the free node it needs is always there |
| Table.LuaTable.MoveNode | src/lua/ltable.c:331-364 | each node that must make room puts one more key in its main position, which is why repeating the move ends |
| Table.LuaTable.MoveNodes | src/lua/ltable.c:427-432 | after the last loop every key is in place |
| Table.LuaTable.Rehash | src/lua/ltable.c:461-477 | the sizes chosen cover all keys and the new one; the map stays and there is room afterwards |
| Table.LuaTable.Resize | src/lua/ltable.c:436-452 | re-inserting the vanishing array slice never needs a nested rehash |
| Table.LuaTable.GetFreePos | src/lua/ltable.c:278-284 | no free node is left at or above lastfree, so failure means that every node has a key |
| Table.LuaTable.Next | src/lua/ltable.c:163-180 | from a key, the first entry with a value after the first node of its chain that has the key or a dead key at its address; an error exactly when there is none |
| Table.LuaTable.Traverse | src/lua/ltable.c:139-180 | a traversal between whose calls fields are given values or cleared, and cleared keys die, meets no key twice, each while it has a value, and misses none that has one at the end; left alone, it meets each key of the map exactly once; dead keys at the addresses of live ones do not matter |
| Table.LuaTable.FindIndex | src/lua/ltable.c:139-161 | the first node in the chain of a key that has it, or a dead key at its address; none when no node of the chain does |
| Table.LuaTable.RemoveEntry | src/lua/lgc.c:62-66 | the key of an empty entry dies in its place; the table is the same map and every live key stays ahead of dead keys at its address |
| Table.AddressUsedAgain | src/lua/lgc.c:62-66 | such runs, with one address for two keys in turn, are among those of the run theorem |
| TableTwins.OverwriteTraced | src/lua/ltable.c:521-548 | a key put over an empty entry is ahead of every dead key at its address in its chain, and so stays every other |
| TableTwins.LinkTraced | src/lua/ltable.c:541-546 | the same of a key linked behind its main position |
| TableTwins.DisplaceTraced | src/lua/ltable.c:533-540 | the same when the colliding node moves |
| TableOrder.IndexStays | src/lua/ltable.c:139-161 | where a traversal goes on after a key does not change when values change and keys die, its own included |
| Table.LuaTable.Getn | src/lua/ltable.c:689-733 | the length is a border: an index with a value whose successor has none |
| TableSizes.ComputeSizes | src/lua/ltable.c:196-215 | the largest power of two with more than half of its indices among the keys, and how many of them there are |
| TableMap.SamePlaced | src/lua/ltable.c:15-18 | a vector with the same links and, but for keys that died, the same keys still has every key found from its main position |
| TableBreak.FreeToCompact | src/lua/ltable.c:418-422 | when a key must move to a low node there is a free one, if the new size covers the keys |
| TableBreak.RoomFor | src/lua/ltable.c:436-477 | a key counted in the sizes and not yet in the node vector finds a free node |
| TableCount.AllKeysCounted | src/lua/ltable.c:461-472 | counting the array part slice by slice and the live nodes counts the keys of the map |
| Checker.CheckCode | src/lua/ldebug.c:489-491 | the checker, tracing instruction by instruction, accepts exactly the prototypes the declarative conditions describe |
| CheckerExact.AcceptsExactly | src/lua/ldebug.c:282-474 | exactly those prototypes are accepted whose header is in order and each of whose instructions names registers below maxstacksize, constants, upvalues and prototypes that are there, and jumps to instructions |
| Bytecode.Layout | src/lua/lopcodes.h:34-111 | operation, A, C and B of a word, from the lowest bit, with Bx and sBx |
| Checker.Symbexec | src/lua/ldebug.c:323-480 | a full check accepts exactly what every instruction passes; a partial one finds the last instruction on its way, over forward jumps, that symbexec takes to change the register, or the final one when none does |
| CheckerTrace.ChangesWhat | src/lua/ldebug.c:376-474 | the instructions it takes to change a register are those that the interpreter writes it with, but for five kinds of writes it does not see and three it only imagines |
| CheckerTrace.LastLeft | src/lua/ldebug.c:323-480 | the instruction found left the register as it is at the end of the way, and where none is found the register is as it was at the start, unless such an unseen write is passed |
| CheckerTrace.QuietKeeps | src/lua/ldebug.c:323-480 | along a way without changes a register keeps its value, but for such writes |
| CheckerTrace.WayOn | src/lua/ldebug.c:376-474 | where the trace goes on: over the count of a SETLIST, over the pseudo-instructions of a closure, along forward jumps within bounds |
| CheckerTrace.SameWay | src/lua/lvm.c:435-817 | the interpreter goes that way too, unless it tests, skips, returns, or jumps back or beyond |
| Checker.CheckOp | src/lua/ldebug.c:380-474 | the switch on the operation, case by case, refuses exactly what the conditions of the operation forbid |
| Checker.CheckJump | src/lua/ldebug.c:349-369 | a jump is accepted exactly when its destination is in the code and not the count word of a SETLIST |
| Checker.CountParity | src/lua/ldebug.c:353-368 | a word is a count exactly when the run of SETLIST-like words before it is odd |
| CheckerSafe.RunIsSafe | src/lua/lvm.c:435-817 | every run of accepted code whose skip flags are 0 or 1, whatever the data, stays on instructions, with all register, upvalue, constant and prototype operands in range |
| CheckerSafe.StepLands | src/lua/lvm.c:435-817 | every step but a skip with another flag leads to an instruction, never to a count or out of the code |
| CheckerSafe.StaysExactly | src/lua/ldebug.c:380-386 | acceptance confines execution exactly when no LOADBOOL with a flag would skip a count or the end |
| CheckerSafe.SkipFlagTwo | src/lua/ldebug.c:380-386 | a prototype is accepted whose LOADBOOL, with skip flag 2, runs off the end of the code |
| CheckerSafe.OperandsOk | src/lua/ldebug.c:310-320 | each instruction of accepted code, the pseudo-instructions of a closure included, names only what is there |
| CheckerSafe.OpenIsUsed | src/lua/ldebug.c:296-307 | an open call or vararg is followed by an instruction that takes up to top |
| ChunkRoundTrip.DumpAndLoad | src/lua/ldump.c:231-293 | a prototype tree dumped on one machine for a target and loaded on another, of any byte orders, is the same; source, sizes, code and nesting as the compiler makes them |
| ChunkTrip.ChunkTrip | src/lua/lundump.c:241-310 | the same of the byte formats |
| ChunkLayout.HeaderLayout | src/lua/lundump.c:298-310 | the twelve bytes that every chunk starts with, one by one |
| ChunkLayout.NumberLayout | src/lua/ldump.c:52-63 | byte i of a number, counted from its low end for a little-endian target and from its high end for the other, counts 256 to the i |
| ChunkLayout.ConstLayout | src/lua/ldump.c:181-203 | the constants: tags 0, 1, 5 and 6, each followed by its value |
| ChunkLayout.TextLayout | src/lua/ldump.c:169-178 | a string is its size with the zero at its end, its characters and the zero |
| ChunkLayout.HeadLayout | src/lua/ldump.c:231-239 | a prototype starts with its source, unless that is its parent's, two line numbers and four counts |
| ChunkLayout.CodeLayout | src/lua/ldump.c:157-167 | the code follows its size and zeros up to a multiple of four |
| ChunkLayout.DepthLimit | src/lua/lundump.c:241-244 | a function inside 200 others is refused |
| ChunkTrip.SamePadding | src/lua/lundump.c:99-102 | the counter that includes the header and the one that starts behind it pad alike |
| ChunkDump.DumpState.Dump | src/lua/ldump.c:231-293 | the writer appends exactly the bytes of the format |
| ChunkDump.DumpState.MaybeByteSwap | src/lua/ldump.c:52-63 | the buffer is reversed in place exactly when the byte orders differ |
| ChunkDump.DumpState.DumpInt | src/lua/ldump.c:65-93 | an int within the bounds goes out in the target order; beyond them the state turns to an error |
| ChunkLoad.LoadState.Undump | src/lua/lundump.c:279-293 | the reader gives what the format says of any bytes, errors included: other byte order, integral numbers, and flags read as signed or unsigned chars; numbers of sizes its assertion rules out are an error of their own |
| Chunk.DoubleOfMeans | src/lua/lundump.c:112-142 | an integral number becomes the double of the same value: sign, exponent and fraction |
| ChunkLoad.LoadState.LoadMem | src/lua/lundump.c:56-91 | swapping a whole vector element by element gives the numbers read one by one |
| PatternMatch.MatchState.Match | src/lua/lstrlib.c:362-437 | the matcher reports the first of all parses, in order of preference, or fails with level and captures as they were; it ends on every pattern and subject |
| PatternMatch.MatchState.MaxExpand | src/lua/lstrlib.c:298-310 | a greedy item gives the first parse in order of most repetitions first |
| PatternMatch.MatchState.MinExpand | src/lua/lstrlib.c:313-323 | a lazy item, the fewest first |
| PatternMatch.MatchState.StartCapture | src/lua/lstrlib.c:326-337 | a branch that fails undoes its capture |
| PatternMatch.MatchState.MatchBalance | src/lua/lstrlib.c:279-295 | %b stops behind the first closing delimiter at which as many have closed as have opened, and fails when there is none |
| PatternFacts.ParsesAll | src/lua/lstrlib.c:362-437 | the list of parses holds exactly the ways there are to match |
| PatternFacts.Greedy | src/lua/lstrlib.c:298-310 | a greedy item takes the most repetitions that let the rest go on |
| PatternFacts.Lazy | src/lua/lstrlib.c:313-323 | a lazy one the fewest |
| PatternFacts.DerivesGrown | src/lua/lstrlib.c:326-348 | captures of a match lie within it, and earlier ones are kept |
| PatternFind.Find | src/lua/lstrlib.c:509-528 | the search finds the leftmost start from which the pattern, its classes and sets spelled out by their characters, matches the subject, or none when there is none |
| PatternMeaning.DerivesMeans | src/lua/lstrlib.c:362-437 | the ways to match that the matcher finds are those that this meaning allows, both ways |
| PatternMeaning.EscapeIs | src/lua/lstrlib.c:226-243 | a class letter has the characters of its class, its capital all others, and any other character behind a percent sign itself |
| PatternMeaning.SetIs | src/lua/lstrlib.c:245-263 | a set has a character exactly when one of its items, single characters, ranges and classes, has it; behind a caret exactly when none has |
| PatternMeaning.ClosesIs | src/lua/lstrlib.c:202-223 | a set ends at the first closing bracket that is neither its first item nor behind a percent sign |
| PatternFind.FoundMatches | src/lua/lstrlib.c:509-528 | what it reports is a match of the pattern with captures inside |
| PatternFind.StuckNoMatch | src/lua/lstrlib.c:509-528 | where it passes on there is no way to match |
| ParserPrint.PrintParses | src/lua/lparser.c:826-855 | every operator tree printed with only the parentheses the priorities require is read back as the same tree with all tokens taken, and fails exactly when its nesting exceeds the limit on C calls |
| ParserPrint.PrintIsShortest | src/lua/lparser.c:815-855 | no shorter token list is read as that tree |
| ParserPrint.SubExprStops | src/lua/lparser.c:837-849 | subexpr(limit) stops only where the next operator does not bind tighter than limit |
| ParserPrint.PlaceCosts | src/lua/lparser.c:808-823 | a tighter place costs an expression at most one pair of parentheses |
| ParserState.LexState.Subexpr | src/lua/lparser.c:826-850 | the loop over tokens and levels computes the parse, errors included |
| ParserState.LexState.ReadExpr | src/lua/lparser.c:853-855 | the tree is one that the grammar derives from the tokens read, and what follows does not go on with it; whatever the grammar derives is read, unless it has more tokens than there are levels left of the 200 |
| ParserGrammar.ExprIsDerived | src/lua/lparser.c:805-850 | the same of the parse: precedence climbing over the priorities reads exactly the trees of the grammar by levels, which has no priorities |
| ParserGrammar.PairGroups | src/lua/lparser.c:807-815 | for every two operators, x op1 y op2 z is read with op2 inside exactly when it is on a tighter level, or on the same level, of concatenation or power |
| ParserGrammar.UnaryGroups | src/lua/lparser.c:807-818 | only a power goes inside a unary operator that stands before it |
| ParserGrammar.UnaryRight | src/lua/lparser.c:830-850 | a unary operator behind a binary one takes its operand first |
| ParserGrammar.TooDeep | src/lua/lparser.c:272-275 | as many unary operators and parentheses as there are levels left of the 200 are refused |
| Sort.AuxSort | src/lua/ltablib.c:193-253 | with a strict weak order the range ends up a sorted rearrangement of itself, the error for an invalid order is never raised, and nested calls are at most log2 of the range |
| Sort.SortTable | src/lua/ltablib.c:255-263 | the list is sorted, with the same items, and nothing beside it is touched |
| Sort.PartitionLoop | src/lua/ltablib.c:221-243 | the two scans never leave the range and split it around the pivot |
| Sort.SettledSplit | src/lua/ltablib.c:244-252 | sorting one side of the split settles that side and the pivot for good |
| MemPool.Pool.Malloc | src/mem_pool/mem_pool.c:62-114 | first fit: null and nothing changed when no free segment has room, or the first that has; with more than two headers to spare only the bytes asked for go and all the rest stays free, otherwise it goes whole, and the rest of the list is dropped |
| MemPool.Pool.AddSegment | src/mem_pool/mem_pool.c:24-60 | giving back joins free neighbours; the pool stays sound exactly when it was empty or some free segment lies above |
| MemPool.Pool.Release | src/mem_pool/mem_pool.c:116-124 | the same of a pointer, null being ignored |
| MemPoolRuns.Drive | src/mem_pool/mem_pool.c:78-124 | any run in which every successful malloc splits keeps the list ordered, disjoint and coalesced, and free plus handed-out bytes equal to the buffer |
| MemPoolRuns.RunKeeps | src/mem_pool/mem_pool.c:78-124 | the same of the segments alone |
| MemPoolRuns.AllGivenBack | src/mem_pool/mem_pool.c:116-124 | when everything is given back, in any order, the one original segment is left |
| MemPoolRuns.TakenLoses | src/mem_pool/mem_pool.c:62-76 | a malloc drops nothing when it splits, and otherwise exactly the free bytes above |
| MemPoolRuns.LosesMemory | src/mem_pool/mem_pool.c:72-74 | a reachable state in which a malloc drops free memory |
| MemPoolRuns.StraysReached | src/mem_pool/mem_pool.c:42-46 | a reachable state in which giving back the top segment breaks the list |
| MemPoolRuns.NeverStrays | src/mem_pool/mem_pool.c:42-46 | which cannot happen while the top of the buffer is free |
| Strings.StringTable.Run | src/lua/lstring.c:23-101 | over any run of interning, sweeping and resizing, with any allocator, which may use the address of a swept string again, a pointer not swept since has its contents, and of two such pointers, equal means equal contents |
| Strings.StringTable.Intern | src/lua/lstring.c:83-101 | the one entry with these contents is found, or made when there is none; all others keep theirs |
| Strings.StringTable.NewString | src/lua/lstring.c:54-80 | a new entry goes to the head of the bucket of its hash and is counted; the table is doubled before when it has as many entries as buckets, unless it is being swept or would grow too large |
| Strings.StringTable.Resize | src/lua/lstring.c:23-52 | rehashing in place between powers of two keeps the entries, each in the bucket of its hash for the new size |
| Strings.StringTable.SweepBucket | src/lua/lgc.c:409-427 | the dead entries of a bucket are unlinked and uncounted, and no others |
| Strings.StringTable.CheckSizes | src/lua/lgc.c:430-436 | a table of more than 64 buckets with an entry to fewer than one in four is halved, its entries kept |
| Strings.StringTable.HashText | src/lua/lstring.c:85-89 | the hash mixes the length with the characters from the last one down, a step of length / 32 + 1 apart |
| Strings.HashSkips | src/lua/lstring.c:85-89 | fewer than 32 characters count, and any other may change without changing the hash |
| Strings.AllSampled | src/lua/lstring.c:85-89 | of a string shorter than 32 all characters count |
| Strings.MixValues | src/lua/lstring.c:88-89 | a character is mixed into a hash with the hash shifted left by 5 and right by 2 |
| Strings.HashValues | src/lua/lstring.c:85-89 | the hashes of two short strings, with the last character first |
| Strings.Moves | src/lua/lstring.c:36-46 | of two powers of two, an entry of bucket i goes to i, to a bucket beyond all to be rehashed, or, shrinking, to one already done |
| MqttPacket.VarBack | src/mqtt/MQTTPacket/src/MQTTPacket.c:29-78 | a remaining length is read back exactly when it is at most 268435455 |
| MqttPacket.LenSuffices | src/mqtt/MQTTPacket/src/MQTTPacket.c:81-95 | the room asked for always suffices, and is exact except for the lengths 127, 16383, 2097150 and 2097151 |
| MqttPacket.StringBack | src/mqtt/MQTTPacket/src/MQTTPacket.c:184-219 | a length-prefixed string is read back whole |
| MqttPacket.Encode | src/mqtt/MQTTPacket/src/MQTTPacket.c:29-44 | the digits are written at the cursor and nothing else is touched |
| MqttPacket.Decode | src/mqtt/MQTTPacket/src/MQTTPacket.c:53-78 | at most four bytes are looked at; a fifth is counted |
| MqttPublish.PublishBack | src/mqtt/MQTTPacket/src/MQTTDeserializePublish.c:36-71 | reading a serialized PUBLISH gives back every field |
| MqttPublish.SubscribeBack | src/mqtt/MQTTPacket/src/MQTTSubscribeServer.c:35-71 | reading a serialized SUBSCRIBE gives back the packet id and the whole list of filters |
| MqttPublish.SerializePublish | src/mqtt/MQTTPacket/src/MQTTSerializePublish.c:55-90 | nothing is written unless the room asked for is there, and then exactly the packet, inside the buffer |
| MqttPublish.SerializeSubscribe | src/mqtt/MQTTPacket/src/MQTTSubscribeClient.c:50-83 | the same for SUBSCRIBE |
| MqttPublish.DeserializePublish | src/mqtt/MQTTPacket/src/MQTTDeserializePublish.c:36-71 | any buffer: the fields, the return code of a failure, a success with a negative payload length, or something read or handed out beyond the end of the buffer |
| MqttPublish.DeserializeSubscribe | src/mqtt/MQTTPacket/src/MQTTSubscribeServer.c:35-71 | the same for SUBSCRIBE |
| MqttPublish.PublishFailure | src/mqtt/MQTTPacket/src/MQTTDeserializePublish.c:53-68 | a PUBLISH whose topic does not fit is reported as a success exactly when its length field is one byte |
| MqttPublish.PublishFailureExample | src/mqtt/MQTTPacket/src/MQTTDeserializePublish.c:53-68 | such a packet |
| MqttPublish.NegativePayload | src/mqtt/MQTTPacket/src/MQTTDeserializePublish.c:53-67 | a success is reported with a payload length of -1 or -2 exactly when the packet id that follows the topic crosses the end of the packet |
| MqttPublish.NegativePayloadExample | src/mqtt/MQTTPacket/src/MQTTDeserializePublish.c:53-67 | such a packet, of seven bytes |
| MqttPublish.SubscribeFailure | src/mqtt/MQTTPacket/src/MQTTSubscribeServer.c:50-69 | the same for a SUBSCRIBE with a filter that does not fit |
| MqttPublish.SubscribeFailureExample | src/mqtt/MQTTPacket/src/MQTTSubscribeServer.c:50-69 | such a packet |
| MqttConnect.ConnectBack | src/mqtt/MQTTPacket/src/MQTTConnectServer.c:51-110 | reading a serialized CONNECT gives back all but the version, or fails exactly for the logins the server refuses |
| MqttConnect.RefusedLogin | src/mqtt/MQTTPacket/src/MQTTConnectServer.c:94-104 | an empty user name without a password is such a login |
| MqttLayout.ConnectLayout | src/mqtt/MQTTPacket/src/MQTTConnectClient.c:74-104 | the first byte is 16; then, behind the remaining length, the protocol name and version, the bits of the flags and the keep-alive time, byte by byte |
| MqttLayout.PayloadLayout | src/mqtt/MQTTPacket/src/MQTTConnectClient.c:105-115 | the payload is the client name, the topic and message of a will, the user name and the password, those that are there, each behind its length |
| MqttLayout.VersionsTaken | src/mqtt/MQTTPacket/src/MQTTConnectServer.c:31-42 | a protocol name is taken when it agrees with MQIsdp for version 3 or MQTT for version 4 as far as both go |
| MqttLayout.PublishLayout | src/mqtt/MQTTPacket/src/MQTTSerializePublish.c:68-83 | the first byte of a PUBLISH and the places of topic, id and payload |
| MqttLayout.SubscribeLayout | src/mqtt/MQTTPacket/src/MQTTSubscribeClient.c:64-78 | the same of a SUBSCRIBE, filter by filter |
| MqttLayout.LengthLayout | src/mqtt/MQTTPacket/src/MQTTPacket.c:29-44 | the remaining length in one to four bytes of seven bits, the lowest first |
| MqttConnect.SerializeConnect | src/mqtt/MQTTPacket/src/MQTTConnectClient.c:61-122 | nothing is written unless the room asked for is there, and then exactly the packet, inside the buffer |
| MqttConnect.DeserializeConnect | src/mqtt/MQTTPacket/src/MQTTConnectServer.c:51-110 | any buffer: the options, a failure, or a read beyond the end |
| Isqrt.Isqrt | src/lua/lmathlib.c:128-146 | for 0 <= x < 2^31 the result r has r*r <= x < (r+1)*(r+1), unless an intermediate result leaves the number type, which happens exactly to 32-bit numbers from 2^30 on |
| Isqrt.Turn | src/lua/lmathlib.c:138-144 | one turn of the digit loop keeps the relation between op, res and one |

## Left out

- Code generator: upvalues, table accesses, calls, varargs, arithmetic, concatenation and constant folding. The interpreter has the instructions the remaining expressions use; comparisons of values are parameters, so metamethods for order are covered but cannot raise errors.
- CodeProgram.CompileFunction: for code of 131071 instructions or more the contract does not say exactly when "control structure too long" is raised.
- Collector: weak tables, finalizers, rotables, the thresholds that pace steps, shrinking of thread stacks and of the string table during a collection (Strings.StringTable.CheckSizes has the latter by itself).
- Gc.GlobalState.Run: object contents are references only; numbers and strings inside tables are one plain value.
- Table.LuaTable.Set: "table overflow" is excluded by fewer than 2^26 keys; a key is its type with a value or an address, and mainposition is any function of the key and the size.
- Table.LuaTable.ResizeArray: shrinking through luaH_resizearray, which no caller asks for.
- Table.LuaTable.Traverse: fields that did not exist are not added on the way, which the manual forbids.
- Tables: allocation failure inside a resize, clearing of entries with values in weak tables, and the packed value layouts.
- CheckerTrace.LastLeft: callees that set a captured register of the frame are not among the writes.
- Checker.CheckCode: the debug information that luaG_checkcode does not use; TFORLOOP's scratch slots lie in the extra stack beyond maxstacksize.
- ChunkDump.DumpState.Dump: writers that fail; after a failure Align4 would not end, because DumpChar then no longer advances the count. Stripping, integral-number targets, read-only images and mixed-endian doubles are left out as well.
- ChunkRoundTrip.DumpAndLoad: nesting of functions beyond the limit on C calls, which loading refuses.
- PatternMatch.MatchState.Match: character classes are those of the C locale and the C stack is unbounded. Plain search, gmatch, gsub and format are left out.
- ParserState.LexState.Subexpr: simple expressions are literals, names and parentheses; a call suffix is reported as such and not parsed. Tokens are given; line numbers and the code generator calls are not part of it.
- Sort.AuxSort: an order function that is not a strict weak order, or that raises an error.
- MemPool.Pool.Malloc: sizes whose sum with the header exceeds 65535 wrap in the source and are excluded; pools of several buffers; the poison value is not compared with addresses.
- Strings.StringTable.Intern: hash values use 32-bit wrap-around; strings of 2^32 bytes or more, and read-only strings as a separate kind, are left out. Which addresses are free is the allocator's choice.
- MQTT: acknowledgement, UNSUBSCRIBE and connection-control packets, the network client, and MQTTPacket_readnb. Strings longer than 65535 bytes and remaining lengths beyond 268435455 are excluded from the serializers' contracts; deserialized topic lists are unbounded, as the source does not look at maxcount.
- Hardware drivers, the operating-system layer, the Lua C API and the io, os, package and debug libraries.
