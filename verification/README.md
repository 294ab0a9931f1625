# Verified model of odb

odb is a debugger that can be attached to any virtual machine. A debugger runs inside the VM's process, a
client talks to it over a byte stream, and both sides keep caches. This project models the parts of it that
carry state or protocol, as Dafny classes, methods and functions that follow the C++ code, and proves what
those parts are for. `dafny verify dfyconfig.toml` checks everything.

| File | Models |
|---|---|
| `Common.dfy` | machine integers, bytes, option and result types |
| `RangeMaps.dfy` | the run-length map, split, overwritten and merged in place |
| `SymbolCache.dfy` | the debugger's lazily loaded symbol table on top of it |
| `Stepping.dfy` | run states, call stack, breakpoints; statements over whole traces |
| `ServerLoop.dfy` | the loop the VM calls after every instruction, with an arbitrary client |
| `Handshake.dfy` | the network thread and the VM thread sharing two buffers through one atomic state |
| `Agreement.dfy` | client calls, server answers, program steps and lost connections, interleaved |
| `RegisterCache.dfy` | the client's register cache: batched fetches, write-through, invalidation |
| `Wire.dfy` | serialized values and the two streams |
| `Schema.dfy` | request descriptions and the four ways to interpret them |
| `Handlers.dfy` | the handlers' loops over streams and buffers |
| `Messages.dfy` | structures, request kinds, and the description of every request |
| `Remote.dfy` | a call made directly, and the same call made through requests |
| `DirectCalls.dfy` | what each direct call does, item by item |
| `Transparency.dfy` | the two cannot be told apart |
| `WireLimits.dfy` | where they can: counts, names and sizes beyond the wire format, and calls while the program runs |
| `RemoteRuns.dfy` | both ends as they run: batch loops, dispatch, request and response |
| `Framing.dfy` | length-prefixed messages over a stream cut at arbitrary points |
| `CodeListing.dfy` | references in a code listing, collected in one pass and replaced in another |
| `Paging.dfy` | symbol lists fetched page by page through the C interface |

Conventions. Integers of the source are subset types of `int`; where the source wraps around, the model
writes the `%`. What the source asserts is a `requires`, or, for concurrent code, a property proved of every
run. A thrown `VMApi::Error` is a value. The VM is abstract: a symbol table, a register file, functions from a
VM state to a result and the next VM state, or an arbitrary trace of updates. Methods that change state are
proved against specification functions or relations on the old and new contents, and the theorems are stated
about those.

## Where the code does less than one might expect

Each of these is proved, with the exact condition where there is one.

- `get_symbols` marks addresses as loaded before it loads the symbols: a VM that throws on the infos of a
  symbol it listed loses that symbol for good (`ThrowHidesSymbol`). With a VM that answers range queries, a
  lookup succeeds and the table stays complete if and only if the VM can tell the infos of every symbol in the
  window (`Preload`, and the same clause of `GetSymbols` and `GetSymbolAt`).
- Step-out stops at any return, also that of a subroutine called on the way (`StepOutReturns`,
  `StepOutStopsEarly`).
- `DBClient::stop` does not forget register values: a client that reads, resumes, stops and reads again gets
  the old value (`StopReadsOldValue`). A read is right if and only if the cached values it asks for are current
  (`ReadExactIff`), the cache stays exact if and only if the run changed no cached register (`ExactAfter`), and
  that is sure whatever the program does if and only if nothing is cached (`StopKeepsStaleValues`). A register
  write that throws half way is the other case (`PartialWrite`): a client that reads a register, writes it along
  with one that throws, and reads it again gets the old value (`ThrowReadsOldValue`).
- The branch of `DataClientHandler::check_stopped` that notices a lost connection is never taken
  (`CheckStoppedNeverDisconnects`).
- A count above 65535 is cut to 16 bits without an error: breakpoints are set as by a direct call if and only
  if there are fewer than 65536 (`BreakpointsArriveIff`), and of 65536 none is (`AllBreakpointsLost`). A call
  that gives a list, and succeeds directly, gives that list if and only if the count is below (`ListsArriveIff`).
- Names that fill 65536 bytes or more make the server search beyond its buffer (`NamesArriveIff`), as one name of
  65535 characters does (`LongNameLost`).
- A second register of size zero is taken for the mark of equal sizes. A register larger than the first then runs
  over the server's buffer, and shorter ones come back with the length of the first (`RegistersArriveIff`): after
  one of four bytes an empty one comes back as four zeros (`EmptyRegisterGrows`).
- A message of 2^32 bytes or more arrives cut (`FrameArrives`).
- A range can be listed in pages if and only if no address in it has more symbols than a page holds
  (`PagesPossibleIff`).
- A code listing announces a definition only once all before it have been announced: one that lies between two
  lines hides all after it (`HiddenIff`), also one at the address of a line (`DefinitionHidden`).

## Model

| member | source | states |
|---|---|---|
| RangeMaps.CanonicalUnique | include/odb/utils/range-map.hh:63-71 | Two node lists without equal neighbours, with the same bounds and contents, are the same list. |
| RangeMaps.RangeMap.Set | include/odb/utils/range-map.hh:93-120 | The map stays canonical; the keys from `low` to `high` get the value and all others keep theirs. |
| RangeMaps.RangeMap.Fix | include/odb/utils/range-map.hh:168-176 | Merging leaves no equal neighbours and changes no value. |
| RangeMaps.RangeMap.SplitAt | include/odb/utils/range-map.hh:99-112 | Cutting a node makes one start at the key, keeps all other starts and changes no value. |
| RangeMaps.RangeMap.FindNode | include/odb/utils/range-map.hh:155-166 | The node found is the one whose run holds the key. |
| RangeMaps.RangeMap.Get | include/odb/utils/range-map.hh:87-91 | The value the node list gives to the key. |
| RangeMaps.RangeMap.RangeOf | include/odb/utils/range-map.hh:122-130 | The run around a key is constant and cannot be made longer on either side. |
| RangeMaps.RangeMap.RangeAt | include/odb/utils/range-map.hh:132-139 | Run `i` starts at node `i`, is constant and maximal. |
| RangeMaps.HistoryIsFold | include/odb/utils/range-map.hh:93-120 | After any sequence of updates the map is the fold of pointwise assignments. |
| RangeMaps.Play | include/odb/utils/range-map.hh:81-120 | A new map on which a list of updates is performed holds the fold of these updates. |
| RangeMaps.SameContentsSameNodes | include/odb/utils/range-map.hh:93-120 | Two histories of updates have the same contents if and only if they end in the same node list. |
| SymbolCache.ListingUnique | src/server/debugger.cc:287-299 | At most one id list is the address-ordered listing of a range, so a contract that names it fixes the answer. |
| SymbolCache.SymbolTable.LoadSymbol | src/server/debugger.cc:433-442 | Records exactly the one symbol, in all tables, or nothing when the VM throws on it. |
| SymbolCache.SymbolTable.Gap | src/server/debugger.cc:400-418 | There is nothing to ask exactly when the window is loaded; otherwise the gap runs from the first to the last address of the window not loaded. |
| SymbolCache.SymbolTable.Mark | src/server/debugger.cc:422 | Marks exactly the gap, and strictly lowers the number of unloaded addresses. |
| SymbolCache.SymbolTable.Load | src/server/debugger.cc:419-424 | Asks the VM once, for the gap. If that throws nothing changes; otherwise the gap is marked and all symbols in the answer are recorded, or those up to one whose infos throw. |
| SymbolCache.SymbolTable.Preload | src/server/debugger.cc:400-425 | Covers the window unless the query throws. The log of the VM is unchanged if the window is covered already; otherwise it grows by one query, thrown or not, inside memory, from an unloaded address to an unloaded address, and an answer lowers their number. From a complete table and a VM that answers range queries it succeeds, and leaves the table complete, if and only if the VM can tell the infos of every symbol in the window. |
| SymbolCache.SymbolTable.GetSymbols | src/server/debugger.cc:287-299 | On a complete table and with a VM that answers range queries, answers, and leaves the table complete, if and only if the VM can tell the infos of the symbols in the window, and then with exactly the ids the VM defines in the range, in address order. Logs no query on a covered window, else one. |
| SymbolCache.SymbolTable.GetSymbolAt | src/server/debugger.cc:281-285 | Under the same conditions answers, and leaves the table complete, with the id defined at the address, or VM_SYM_NULL if there is none. Logs no query on a covered window, else one. |
| SymbolCache.SymbolTable.GetSymbolInfos | src/server/debugger.cc:301-306 | The infos are those the VM defines; it fails exactly where the VM throws. |
| SymbolCache.SymbolTable.FindSymId | src/server/debugger.cc:310-315 | The id is the VM's, and the symbol is recorded; it fails exactly where the VM knows no such name or throws on the infos. |
| SymbolCache.UnloadedFalls | src/server/debugger.cc:400-425 | The number of unloaded addresses never grows when marks are only added, and falls when an unloaded address is marked. |
| SymbolCache.LookUpAll | src/server/debugger.cc:281-299 | With a VM that does not throw, every lookup of every history is answered, as the VM defines it; the queries the VM has logged are all inside memory, and no more than there are addresses. |
| SymbolCache.Scan | src/server/debugger.cc:289-298 | Walking the address table from its lower bound lists the recorded symbols of the range. |
| SymbolCache.ThrowHidesSymbol | src/server/debugger.cc:421-424 | After one throw on a listed symbol, the same query answers an empty list without an error. |
| Stepping.Debugger.OnInit | src/server/debugger.cc:127-152 | The debugger starts running to the end, with one frame for the entry point. |
| Stepping.Debugger.OnUpdate | src/server/debugger.cc:154-218 | One update changes state, stack and execution point as the specification function says. |
| Stepping.Debugger.DoResume | src/server/debugger.cc:359-375 | Sets the mode, and for step-over the depth; refused once the program is finished. What the mode comes to is `StopsWhen` and `StepOverWhen`. |
| Stepping.Debugger.DoStop | src/server/debugger.cc:377-385 | Stops a running program; refused when finished or stopped. |
| Stepping.Debugger.DoAddBreakpoint | src/server/debugger.cc:332-340 | Adds the address, or throws and changes nothing if it is outside memory or already there. |
| Stepping.Debugger.DoDelBreakpoint | src/server/debugger.cc:349-357 | Removes the address, or throws and changes nothing if it is outside memory or not there. |
| Stepping.DepthIsStackSize | src/server/debugger.cc:177-185 | The stack is as deep as calls minus returns, on traces that stay inside the first frame. |
| Stepping.StackIsUnmatchedCalls | src/server/debugger.cc:141-149 | Every unmatched call owns the frame at its depth, which starts at its target, and left its own address in the frame below. |
| Stepping.FrameHasCall | src/server/debugger.cc:177-185 | Every frame above the first belongs to exactly one unmatched call. |
| Stepping.RunEndsAtFirst | src/server/debugger.cc:187-218 | A run has stopped if and only if some update so far would end it, and until then only stack and execution point have moved. |
| Stepping.ModesOrdered | src/server/debugger.cc:187-218 | On one trace, step stops no later than step-over and step-out, each of these no later than continue, and that no later than run-to-finish. |
| Stepping.BreakpointStops | src/server/debugger.cc:212-215 | Landing on a breakpoint stops if and only if the mode is not run-to-finish. |
| Stepping.StopsWhen | src/server/debugger.cc:187-218 | After a resume, over any updates without error or exit, the program is stopped if and only if: never, to the end; one of them arrived on a breakpoint, for continue; there was one, for step; one was a return or arrived on a breakpoint, for step-out. |
| Stepping.StepOverWhen | src/server/debugger.cc:198-215 | A step-over is stopped if and only if some update left no more frames than there were at the start, or arrived on a breakpoint. |
| Stepping.FinishEnds | src/server/debugger.cc:162-172 | An error ends any run in ERROR and the exit in EXIT, and nothing else changes. |
| Stepping.CallAddrIsLast | src/server/debugger.cc:174-185 | The call address of a frame is where the last call was made from it, also after its return. |
| Stepping.OuterFramesKept | src/server/debugger.cc:177-185 | Frames below a depth that is never left keep their start addresses. |
| Stepping.StepOverStops | src/server/debugger.cc:198-215 | Step-over stops at the first update back at the depth it started from, or on a breakpoint; all updates before are deeper. |
| Stepping.StepOverReturns | src/server/debugger.cc:198-215 | A stop at the starting depth is in the starting frame with all outer frames in place; off breakpoints it is there or in the caller. |
| Stepping.StepOutReturns | src/server/debugger.cc:205-215 | Off breakpoints step-out stops at a return, and is one frame up if and only if no call was made on the way. |
| Stepping.StepOutStopsEarly | src/server/debugger.cc:205-210 | Stepping out of a subroutine that first calls another stops inside it. |
| Stepping.CommandsKeepStack | src/server/debugger.cc:332-385 | Over any session, stack and execution point are those of the delivered updates alone. |
| Stepping.BreakpointsOfSession | src/server/debugger.cc:332-357 | The breakpoints of any session are those it added in memory and did not delete later, and those of the start that it did not delete. |
| Stepping.LastCommandRules | src/server/debugger.cc:359-385 | Commands leave the program as the last of them that resumes or stops it does: as if just resumed that way, or stopped. |
| Stepping.RunRefused | src/server/debugger.cc:359-385 | When resuming and stopping are refused, and with which text. |
| Stepping.AddRefused | src/server/debugger.cc:332-340 | When a breakpoint is refused, and with which text. |
| Stepping.DelRefused | src/server/debugger.cc:349-357 | When the deletion of a breakpoint is refused, and with which text. |
| ServerLoop.ServerApp.Loop | src/server/server-app.cc:68-115 | Stack and execution point are those after the one update; a client that is found at once stops the program; then the commands found in the looks used up are performed in order, and one left stopped by its client is let go. It returns with the first act of the client that leaves, or leaves a running program running. A client that comes, or is there when the program stops, holds it as long as it does not resume. |
| ServerLoop.GivenInOrder | include/odb/server/client-handler.hh:48-64 | The commands of a client that stays are all found, act after act. |
| ServerLoop.RunsAfter | src/server/server-app.cc:88-108 | Commands leave a stopped program running if and only if the last of them that starts or stops it starts it. |
| ServerLoop.ServerApp.Init | src/server/server-app.cc:117-139 | Creates the debugger with its first frame, stopped if asked so, or disables the server when it has no client handler. |
| ServerLoop.ServerApp.StopDb | src/server/server-app.cc:154-164 | Stops a running debugger and leaves a stopped or finished one alone. |
| ServerLoop.ServerApp.Connect | src/server/server-app.cc:141-152 | Ends connected with the first look that finds the client, or waits for a client that never comes. |
| ServerLoop.Drive | src/server/server-app.cc:68-115 | Over a whole program, the assertion at the head of `on_update` holds at each call if the VM stops reporting after an exit or an error. |
| Handshake.NetKeeps | src/server/data-client-handler.cc:69-100 | Every step of the network thread keeps the invariant. |
| Handshake.VmKeeps | src/server/data-client-handler.cc:134-156 | Every step of the VM thread keeps the invariant. |
| Handshake.Safety | src/server/data-client-handler.cc:47-67 | In every interleaving no assertion on the state fails, and neither buffer is used by both threads at once. |
| Handshake.Transitions | src/server/data-client-handler.cc:64-67 | HAS_REQ is left only by the VM thread, to SENDING_RES; ERROR is never left. |
| Handshake.ExactlyOnceInOrder | src/server/data-client-handler.cc:69-100 | The k-th response sent is the complete handling of the k-th request received, by one function, with no byte of another response. |
| Handshake.HistoryGrows | src/server/data-client-handler.cc:69-100 | What was received, handled and sent is never rewritten. |
| Handshake.AllServed | src/server/data-client-handler.cc:69-100 | Any series of requests can be received, handled by either function and answered, one after the other. |
| Handshake.PeerIsTrue | src/server/data-client-handler.cc:119-146 | In every run a client taken to be lost is lost, and one taken to be connected has been accepted. |
| Handshake.FailureStops | src/server/data-client-handler.cc:69-100 | A failed connect, receive or send leads to ERROR. |
| Handshake.LossNoticed | src/server/data-client-handler.cc:119-146 | A connection in ERROR is noticed by the next `run_command`, or by `setup_connection`. |
| Handshake.CheckStoppedNeverDisconnects | src/server/data-client-handler.cc:368-377 | The branch of `check_stopped` for a lost connection is never taken. |
| Agreement.StepKeeps | src/mess/db-client.cc:16-46 | Every step of client, server, program or connection keeps the joint invariant. |
| Agreement.ClientAgrees | src/mess/db-client.cc:16-46 | On a live connection with no call in progress, a client that believes the VM is stopped is right, and has its exact address, reason and stack. |
| Agreement.StopAssertionHolds | src/mess/db-client.cc:27-35 | The assertion after the second request of `stop` holds in every run. |
| Agreement.ConnectFindsStopped | src/mess/db-client.cc:16-25 | Connecting always finds the program stopped. |
| Agreement.VmWaits | src/server/server-app.cc:88-108 | The program does not move while a joined client believes it is stopped and makes no call. |
| Agreement.GoneIsNotStopped | src/server/server-app.cc:110-114 | Once the server has noticed that its client is gone, the program is never left stopped. |
| Agreement.CallAnswered | src/mess/db-client.cc:27-107 | Every call a joined client may make can be answered. |
| Agreement.CheckFindsOut | src/mess/db-client.cc:37-46 | A finished `check_stopped` leaves the client believing the program stopped if and only if it is, with its address and stack. |
| Agreement.ResumeRuns | src/mess/db-client.cc:157-161 | A finished resume has the program running in the mode asked for, or throws if it has finished. |
| Agreement.StopStops | src/mess/db-client.cc:27-35 | A stop of a running program ends with both sides stopped and agreed; one that comes too late changes nothing. |
| Agreement.UseKeeps | src/mess/db-client.cc:48-155 | Other calls leave the program and the client's picture of it as they are, but for the breakpoints. |
| Agreement.ConnectStops | src/mess/db-client.cc:16-25 | A client that connects is accepted, which stops the program unless it is finished, and gets its picture. |
| Agreement.ConnectAnswered | src/mess/db-client.cc:16-25 | A client that connects can be accepted and answered. |
| RegisterCache.CutIsValue | src/mess/db-client.cc:298-319 | Cutting the one buffer at the running sums of sizes gives each register's value back. |
| RegisterCache.DbClient.AddInfos | src/mess/db-client.cc:248-255 | Fetched infos are appended; both index maps keep pointing to an entry with that id or name, and no cached value changes. |
| RegisterCache.DbClient.FetchRegInfosById | src/mess/db-client.cc:231-256 | All registers asked for have an entry afterwards, or the call throws because one does not exist; cached values stay. |
| RegisterCache.DbClient.FetchRegInfosByName | src/mess/db-client.cc:258-275 | The same by name. |
| RegisterCache.DbClient.FetchRegValsById | src/mess/db-client.cc:277-320 | Of the registers asked for, exactly those without a cached value get the VM's, with duplicates and any mix of hits and misses. |
| RegisterCache.DbClient.GetRegs | src/mess/db-client.cc:48-64 | Returns the cached value of each register, or the VM's current one if none was cached, cut to the size asked for; throws exactly if a register does not exist. |
| RegisterCache.DbClient.SetRegs | src/mess/db-client.cc:66-84 | Writes through: the server's registers and the cache both get the new values; on a throw, exactly the writes before it reach the server and none the cache. |
| RegisterCache.DbClient.GetRegsInfos | src/mess/db-client.cc:86-96 | The infos of every register asked for, or a throw exactly if one does not exist. |
| RegisterCache.DbClient.FindRegsIds | src/mess/db-client.cc:98-108 | The VM's id for every name, or a throw exactly if one does not exist. |
| RegisterCache.DbClient.CheckStopped | src/mess/db-client.cc:37-46 | After a run that ends here no value is cached; while the VM still runs nothing changes. |
| RegisterCache.DbClient.Stop | src/mess/db-client.cc:27-35 | Keeps all cached values. |
| RegisterCache.StopKeepsStaleValues | src/mess/db-client.cc:27-35 | A run ended by `stop` leaves no outdated value, whatever the program did, if and only if nothing was cached. |
| RegisterCache.PartialWrite | src/mess/db-client.cc:66-84 | After writes that reached the VM alone, the cache is exact if and only if every cached register among them got the value it had. |
| RegisterCache.Session | src/mess/db-client.cc:27-107 | Over any session of reads, writes, throws and runs ended either way, the client answers what the pair of cache and registers says, operation by operation. |
| RegisterCache.Perform | src/mess/db-client.cc:27-107 | Each operation has the answer and the effect on cache and registers that the specification gives it. |
| RegisterCache.ExactAfter | src/mess/db-client.cc:27-107 | An exact cache stays exact through an operation if and only if no run ended by `stop` changed a cached register and no write that threw had changed one. |
| RegisterCache.ReadExactIff | src/mess/db-client.cc:48-64 | A read answers what the VM holds if and only if the cached values it asks for are current in the bytes asked for. |
| RegisterCache.WriteReadsBack | src/mess/db-client.cc:48-84 | A write that succeeds is what the next read gives, with the client and straight from the VM. |
| RegisterCache.TellsWhatTheVmHas | src/mess/db-client.cc:86-107 | Infos and ids are the VM's, whatever is cached. |
| RegisterCache.SessionExact | src/mess/db-client.cc:37-107 | Over any session of harmless operations the client gets what it would get straight from the VM. |
| RegisterCache.PlainSessions | src/mess/db-client.cc:37-46 | Sessions whose runs all end through `check_stopped` and whose writes do not throw half way are of that kind. |
| RegisterCache.StopReadsOldValue | src/mess/db-client.cc:27-35 | Reading, resuming, stopping and reading again gives the value of before the run, where the VM would give the new one. |
| RegisterCache.ThrowReadsOldValue | src/mess/db-client.cc:66-84 | Reading a register, writing it along with one that throws, and reading it again gives the value of before the write, where the VM would give the new one. |
| Wire.RoundTrip | src/mess/request.cc:159-281 | Every serialized value reads back, and leaves exactly the bytes behind it. |
| Wire.Layout | src/mess/request.cc:177-201 | Strings and vectors are preceded by their lengths in eight bytes, and members follow one another. |
| Wire.SerialOutBuff.Serialize | include/odb/mess/serial.hh:99-111 | Appends the bytes of the value. |
| Wire.SerialInBuff.Read | include/odb/mess/serial.hh:80-84 | Takes the next bytes, or panics when there are too few. |
| Wire.SerialInBuff.Unserialize | include/odb/mess/serial.hh:104-117 | Reads the value of that type at the front of the remaining bytes. |
| Wire.TakeAllSplit | include/odb/mess/request-handler.hh:161-174 | Reading m + n elements is reading m and then n. |
| Schema.FieldRoundTrip | include/odb/mess/request-handler.hh:92-135 | A member written by one end reads back at the other, given the same lengths. |
| Schema.SplitOfBlock | include/odb/mess/request-handler.hh:237-253 | Walking a block of names terminator by terminator gives the names back. |
| Schema.RequestArrives | include/odb/mess/request-handler.hh:86-258 | For any well-formed description, client-send then server-receive restores every input and consumes exactly the bytes written. |
| Schema.ResponseArrives | include/odb/mess/request-handler.hh:44-300 | Server-send then client-receive restores every output from lengths the client kept, and leaves its other members alone. |
| Schema.CstrsArriveIff | include/odb/mess/request-handler.hh:122-135 | Names arrive whole if and only if their block is shorter than 2^16 bytes; otherwise the search for a terminator overruns. |
| Handlers.FlatReadsRows | include/odb/mess/request-handler.hh:176-197 | Reading all elements into one buffer and cutting it at running sums reads the same rows as reading row by row. |
| Handlers.SumOfRepeat | include/odb/mess/request-handler.hh:161-174 | Rows of equal length take up count times length elements. |
| Handlers.GridStarts | include/odb/mess/request-handler.hh:161-174 | Multiples of the row length are the starts of the rows, and count times length is their total. |
| Handlers.WriteCstrs | include/odb/mess/request-handler.hh:122-135 | Writes the total size in 16 bits, then every name with its terminator. |
| Handlers.ServReadRows | include/odb/mess/request-handler.hh:176-197 | One flat buffer with row pointers holds the rows that were written. |
| Handlers.CutStrings | include/odb/mess/request-handler.hh:243-250 | The pointers into the block are the starts of its strings. |
| Handlers.CliReadRows | include/odb/mess/request-handler.hh:66-78 | The client reads each row in place. |
| Handlers.RequestHandler.ClientWriteRequest | include/odb/mess/request-handler.hh:367-373 | Writes the inputs of the description, in order, also a block of names too long for its size. |
| Handlers.RequestHandler.ServerReadRequest | include/odb/mess/request-handler.hh:382-387 | Reads the inputs and allocates the outputs, each with the lengths read before it. |
| Handlers.RequestHandler.ServerWriteResponse | include/odb/mess/request-handler.hh:389-395 | Writes the outputs of the description, in order. |
| Handlers.RequestHandler.ClientReadResponse | include/odb/mess/request-handler.hh:375-380 | Reads the outputs into the client's own structure. |
| Messages.AllWf | src/mess/request.cc:37-157 | Every request description is well formed: each length is an input that comes before its use. |
| Messages.CodesInOrder | include/odb/mess/request.hh:21-44 | The code of every request kind on the wire. |
| Messages.SmallCodesInOrder | include/odb/server/fwd.hh:39-65 | The codes of the smaller enumerations, which read back. |
| Messages.InfosTravel | src/mess/request.cc:203-219 | VM infos are recovered whole from their serialized form. |
| Messages.UpdateTravels | src/mess/request.cc:221-249 | An update is recovered up to call addresses that were never set. |
| Messages.RegTravels | src/mess/request.cc:251-265 | Register infos are recovered but for the value, which is not sent. |
| Messages.SymTravels | src/mess/request.cc:267-273 | Symbol infos are recovered whole. |
| Remote.BatchChain | src/server/db-client-impl-vmside.cc:60-142 | A batch hands the state from item to item, with one result each in order; it throws with the first item that does and keeps what was done up to it. |
| DirectCalls.RegsRead | src/server/db-client-impl-vmside.cc:60-68 | `get_reg` is called for each id in order, each in the state the one before left; the buffers hold what each gave; the first that throws ends the call with its error and state. |
| DirectCalls.RegsWritten | src/server/db-client-impl-vmside.cc:70-77 | `set_reg` is called with each id and its buffer in order, up to the first that throws. |
| DirectCalls.RegsTold | src/server/db-client-impl-vmside.cc:79-86 | `get_reg_infos` is called for each id in order, up to the first that throws. |
| DirectCalls.RegsFound | src/server/db-client-impl-vmside.cc:88-94 | `find_reg_id` is called for each name in order, up to the first that throws. |
| DirectCalls.MemoryRead | src/server/db-client-impl-vmside.cc:96-105 | `read_mem` is called with each address and size in order, up to the first that throws. |
| DirectCalls.MemoryWritten | src/server/db-client-impl-vmside.cc:107-117 | `write_mem` is called with each address and buffer in order, up to the first that throws. |
| DirectCalls.SymsTold | src/server/db-client-impl-vmside.cc:119-125 | `get_symbol_infos` is called for each id in order, up to the first that throws. |
| DirectCalls.SymsListed | src/server/db-client-impl-vmside.cc:127-132 | The ids of the range are listed first, then the infos of each are asked for. |
| DirectCalls.SymsFound | src/server/db-client-impl-vmside.cc:134-142 | For each name its id is looked for, then its infos are asked for, up to the first that throws. |
| DirectCalls.CodeRead | src/server/db-client-impl-vmside.cc:144-156 | `get_code_text` is called at the first address, then each time behind the instruction before, with addresses that wrap around. |
| DirectCalls.StateTold | src/server/db-client-impl-vmside.cc:27-58 | Connecting and asking give reason, address and stack of a program that is not running, and otherwise only that it has not stopped. |
| DirectCalls.Stopped | src/server/db-client-impl-vmside.cc:32 | Stops the program, or throws with the debugger's text if it is stopped or finished. |
| DirectCalls.Resumed | src/server/db-client-impl-vmside.cc:171 | Has the program running in the mode asked for, or throws with the debugger's text if it is finished. |
| DirectCalls.BkpsSet | src/server/db-client-impl-vmside.cc:158-162 | The breakpoints up to the first that is outside memory or there already are added, and that one throws with the debugger's text. |
| DirectCalls.BkpsUnset | src/server/db-client-impl-vmside.cc:164-169 | The breakpoints up to the first that is outside memory or not there are deleted, and that one throws with the debugger's text. |
| Remote.CodeChain | src/server/db-client-impl-vmside.cc:144-156 | Instruction i is read at the first address plus the sizes of all before it. |
| Remote.BkpsAdded | src/server/db-client-impl-vmside.cc:158-162 | A list of breakpoints is added whole if and only if all are in memory, free and given once. |
| Remote.BkpsDeleted | src/server/db-client-impl-vmside.cc:164-169 | Breakpoints that are all there, each given once, are all deleted and no other. |
| Remote.AddThenDelete | src/server/db-client-impl-vmside.cc:158-169 | Adding breakpoints and deleting them again leaves the debugger as it was. |
| Remote.CodeFrom | src/server/db-client-impl-vmside.cc:144-156 | As many texts and sizes as instructions were asked for, unless the VM throws. |
| Transparency.CallAsks | src/client/db-client-impl-data.cc:58-232 | The structure filled in for a call fits its description, and the server reads the same call from it, as far as the count covers. |
| Transparency.ServerSees | src/server/data-client-handler.cc:158-355 | The server receives the structure and dispatches the call that was asked for. |
| Transparency.ClientSees | src/client/db-client-impl-data.cc:29-44 | The client reads from the response the outputs the call wrote on the server. |
| Transparency.ErrorArrives | src/client/db-client-impl-data.cc:23-27 | An error thrown on the server is thrown at the client with the same text, up to the first zero if it holds one. |
| Transparency.WireIsDirect | src/server/data-client-handler.cc:148-365 | Every call but a stop ends in the state, outputs or error of the direct call on the elements a 16-bit count covers. |
| Transparency.Transparent | src/client/db-client-impl-data.cc:58-232 | Within these limits a remote call and the direct call give the same debugger state, the same outputs, and the same error if its text holds no zero; of updates and register infos see `SeenParts`. |
| Transparency.SeenParts | src/mess/request.cc:221-265 | Register infos arrive whole but for the value, VM infos whole, and updates whole but for call addresses that were never set. |
| WireLimits.BreakpointsArriveIff | src/client/db-client-impl-data.cc:212-218 | A remote call sets the breakpoints its 16-bit count covers, and ends as the direct call if and only if there are fewer than 2^16. |
| WireLimits.AllBreakpointsLost | src/client/db-client-impl-data.cc:212-218 | Of 65536 breakpoints none is set, and the client is told that all are. |
| WireLimits.ListsArriveIff | src/client/db-client-impl-data.cc:58-232 | A call that gives a list, and succeeds directly, gives the same list and state remotely if and only if its count is below 2^16. |
| WireLimits.NamesArriveIff | src/client/db-client-impl-data.cc:135-142 | A call with names does not come back if and only if their block is 2^16 bytes or longer. |
| WireLimits.LongNameLost | src/client/db-client-impl-data.cc:135-142 | A call with one name of 65535 characters does not come back. |
| WireLimits.RegistersArriveIff | src/client/db-client-impl-data.cc:78-100 | Registers given with their own sizes come back with the lengths asked for, unless one is longer than that and runs over the buffer; and as by a direct call if and only if the second size is not 0, there is none, or all are 0. |
| WireLimits.EmptyRegisterGrows | src/client/db-client-impl-data.cc:78-100 | A register of four bytes and an empty one, read together, come back with four bytes each. |
| WireLimits.StopDiffers | src/server/data-client-handler.cc:171-172 | A stop sent to a stopped program throws and changes nothing both ways, with different texts. |
| WireLimits.SetBkpsArrives | src/client/db-client-impl-data.cc:212-218 | Setting fewer than 2^16 breakpoints ends remotely just as it does directly, error texts included. |
| WireLimits.UnsetBkpsArrives | src/client/db-client-impl-data.cc:220-226 | So does deleting them. |
| WireLimits.GoArrives | src/client/db-client-impl-data.cc:228-232 | So does resuming. |
| WireLimits.UnknownRefused | src/server/data-client-handler.cc:354-363 | A message of no known kind is answered with an error of its own text, and changes nothing. |
| WireLimits.StopWhileRunning | src/server/data-client-handler.cc:393-400 | While the program runs, a remote stop gives what the direct one gives: it is stopped. |
| WireLimits.CheckWhileRunning | src/server/data-client-handler.cc:402-409 | While the program runs, asking whether it has stopped gets a no both ways. The remote answer overwrites the other members of the update with what the server's structure was left with and an empty stack; the direct call leaves them alone, so the two are the same if and only if they held that already. |
| WireLimits.RefusedWhileRunning | src/server/data-client-handler.cc:411-421 | While the program runs every other request is refused with its own text and changes nothing. |
| RemoteRuns.ForEach | src/server/db-client-impl-vmside.cc:60-142 | A batch loop is the sequential composition of its items up to the first throw. |
| RemoteRuns.CodeText | src/server/db-client-impl-vmside.cc:144-156 | Each instruction is read right behind the one before it, with addresses that wrap around. |
| RemoteRuns.VmSide.CheckStopped | src/server/db-client-impl-vmside.cc:34-58 | Gives state, address and stack of a program that is not running; otherwise only says that it has not stopped and leaves the rest as it was. |
| RemoteRuns.VmSide.Perform | src/server/db-client-impl-vmside.cc:27-171 | Each direct call, in every state of the debugger, has the effect and result of `Direct`, which the lemmas of `DirectCalls` spell out call by call. |
| RemoteRuns.DataClientHandler.RunCommand | src/server/data-client-handler.cc:148-365 | Reads one request, performs it and writes one response: the specification's, errors included. |
| RemoteRuns.DataClientHandler.CheckStopped | src/server/data-client-handler.cc:368-424 | While the program runs, serves a stop or a question whether it has stopped, and refuses all other requests. |
| RemoteRuns.DBClientImplData.SendReq | src/client/db-client-impl-data.cc:29-44 | One exchange, with a running or a stopped program, gives what reading the server's response to this request gives. |
| RemoteRuns.DBClientImplData.Perform | src/client/db-client-impl-data.cc:58-232 | Any proper call but a stop leaves the server as the direct call on the elements a 16-bit count covers does, and returns what that returns. |
| Framing.FrameArrives | src/mess/tcp-transfer.cc:53-57 | A frame comes out as its first size mod 2^32 bytes and leaves the stream in step; this is the message if and only if it is shorter than 2^32 bytes. |
| Framing.Socket.WriteMult | src/mess/tcp-transfer.cc:31-42 | However the system cuts it, the whole buffer is written in order, or a part of it and the call fails; it succeeds if the system keeps moving bytes. |
| Framing.Socket.ReadMult | src/mess/tcp-transfer.cc:18-29 | The buffer is filled with the next bytes of the stream, or the call fails; it succeeds if they are there and the system keeps moving them. |
| Framing.Socket.SendData | src/mess/tcp-transfer.cc:46-74 | Sends the frame, or a proper part of it and fails; it succeeds if the system keeps moving bytes. |
| Framing.Socket.RecvData | src/mess/tcp-transfer.cc:76-104 | Receives exactly the first message of the stream; it succeeds if that is there whole and the system keeps moving bytes. |
| Framing.Socket.RecvAll | src/mess/tcp-transfer.cc:76-104 | A series of receives gives the messages of the stream in order, all of them if the system keeps moving bytes. |
| Framing.ReceivedIsSent | src/mess/tcp-transfer.cc:18-57 | In every interleaving of partial sends and reads, what is received is the beginning of what was sent, and all of it once all bytes have moved. |
| Framing.Progress | src/mess/tcp-transfer.cc:18-42 | Every transfer lowers a measure, and one is possible until all bytes have moved. |
| CodeListing.RefIsFound | src/mess/simple-cli-client.cc:600-616 | All text of the form of a reference is found as one. |
| CodeListing.FindLineRefs | src/mess/simple-cli-client.cc:597-618 | Records exactly the references of a line, in order. |
| CodeListing.ReadId | src/mess/simple-cli-client.cc:608-610 | The id is the decimal value modulo 2^32; `ReadsWritten` says what that is. |
| CodeListing.ReadsWritten | src/mess/simple-cli-client.cc:608-610 | Reading a number undoes writing it in decimal digits. |
| CodeListing.NumberIsReplaced | src/mess/simple-cli-client.cc:597-660 | A number written between braces is a reference to the symbol of that number modulo 2^32, and that symbol's name is shown in its place; then the line goes on. |
| CodeListing.CharShown | src/mess/simple-cli-client.cc:600-616 | A character at which no reference starts is shown as it is. |
| CodeListing.AllRefsFound | src/mess/simple-cli-client.cc:597-618 | Every reference of a line is found. |
| CodeListing.CodeAddrs | src/mess/simple-cli-client.cc:581-586 | Each line gets the address at which the server read it (see `Remote.CodeChain`). |
| CodeListing.FlatInOrder | src/mess/simple-cli-client.cc:594-618 | Over all lines, recorded spans are in order, disjoint, and hold a reference with the recorded id. |
| CodeListing.FlatAt | src/mess/simple-cli-client.cc:652-657 | The references of a line lie together in the record, before those of later lines. |
| CodeListing.SpliceIsRender | src/mess/simple-cli-client.cc:652-660 | Replacing the recorded spans of a line gives what one pass over it gives. |
| CodeListing.PlainStays | src/mess/simple-cli-client.cc:659-660 | A line without references is printed as it is. |
| CodeListing.PrintLine | src/mess/simple-cli-client.cc:652-661 | Prints the line with its references replaced, and uses up exactly its part of the record. |
| CodeListing.Print | src/mess/simple-cli-client.cc:623-663 | Prints the one-pass listing: definitions, margins and lines. |
| CodeListing.LineShown | src/mess/simple-cli-client.cc:627-662 | A line of the listing, letter by letter: definition, mark of the execution point, address and text. |
| CodeListing.AnnouncedIff | src/mess/simple-cli-client.cc:631-637 | A definition is announced if and only if it and all before it are at the addresses of lines further and further down. |
| CodeListing.HiddenIff | src/mess/simple-cli-client.cc:631-637 | With lines and definitions in address order, that is if and only if it and all before it are at the address of a line. |
| CodeListing.DefinitionHidden | src/mess/simple-cli-client.cc:631-637 | A definition between two lines keeps the one at the second line out of the listing. |
| CodeListing.CmdCode | src/mess/simple-cli-client.cc:569-664 | Prints the one-pass listing if and only if every reference has a symbol, and fails with that symbol's error otherwise. |
| Paging.ListedSplit | src/server_capi/vm-api.cc:120-128 | A range's symbols are those of its two parts, also where addresses wrap around. |
| Paging.PagePossibleIff | include/odb/server_capi/vm-api.h:99-111 | Some page covers a non-empty prefix if and only if the first address has at most 32 symbols. |
| Paging.PagesPossibleIff | include/odb/server_capi/vm-api.h:99-111 | A range can be cut into pages if and only if no address in it has more than 32 symbols. |
| Paging.CWrapperVMApi.GetSymbols | src/server_capi/vm-api.cc:113-131 | The calls form a chain from the first to the last state of the C program, at most one per address, each on the state the one before left. The pages together are the symbols of the whole range, without loss or repetition; it fails if and only if the last call stored an error, with that error, and no earlier call stored one. |

## Left out

- Sockets, signals, terminals, environment variables, logging, sleeping and the applications: input and output.
- The rest of the command-line client: number formatting, parsing and printing.
- The mock VM with its assembler: a test fixture; the models use an abstract VM.
- The weak memory model: the atomics of the source are sequentially consistent by default, and so are the steps
  of the handshake.
- Liveness of the handshake and of `ServerApp::loop`: waiting is a script that runs out (`Loop` then returns
  false, `Connect` fails), or a step that may be repeated. That requests can be served is `AllServed`.
- DataClientServerRunner.stop called from another thread: only the network thread calls it in the source.
- The uniform READ_MEM and WRITE_MEM requests: this client makes none, and the server indexes two sizes as if
  there were one per block. Their descriptions are included and well formed.
- Outputs of a batch that throws half way: the direct call has written some of them, the remote one none. Both
  report the error only.
- Remote.Direct: the debugger's functions that end in the VM, with their caches, are abstract there. Register
  infos, symbol infos and memory are not interpreted.
- Transparency.Transparent: register values inside register infos are not sent, and call addresses never set
  arrive as whatever bytes they held.
- Transparency.WireIsDirect: buffers that are not as long as their sizes say. Names and register sizes beyond
  its limits are the subject of `WireLimits`.
- WireLimits.RegistersArriveIff: a register that runs over the server's buffer is a call that does not come back.
- WireLimits.CheckWhileRunning: the members of the server's update that nothing sets are parameters, with a
  `vm_state` that is one of its three values.
- The 64-bit product and sum that size the server's flat buffers: lengths are unbounded there.
- Addresses of temporary buffers: rows are sequences cut from one, and the server's structure is a map.
- SymbolCache.SymbolTable.GetSymbols: asks for an address in memory and a window that does not overflow; the
  source wraps around silently. The name maps for symbols and registers are not modelled: the source never
  reads the one, and the other is part of the abstract debugger of `Remote`.
- A VM with memory size 0, whose last address wraps around.
- RegisterCache.DbClient.GetRegs: registers are independent, not empty, and read back what was written.
- Framing.Socket.RecvData: the buffer of an empty message is taken to be addressable.
- CodeListing.CmdCode: the texts, definitions and names come as parameters, and writing an address as a number
  is a function parameter.
- `message.hh`, the converters for C enumerations and plain getters.
