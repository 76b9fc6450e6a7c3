# Verified models of a bare metal library and a code editor

The repository combines two programs: Circle, a C++ environment for programs on the bare Raspberry Pi, and a
web page with the CodeMirror text editor. This project models the parts of both that keep state, and proves what
they promise.

- **The CodeMirror document.** `ChunkShape`, `ChunkChain` and `ChunkTree` hold the tree of chunks that indexes
  lines by number and by height. The class `Document` keeps the fields of all chunks and lines; its ghost field
  `info` says which lines are below each chunk, and its invariant ties sizes, heights, parents and bounds to that.
  `StyledText` and `LineEdit` are the editing of styled lines on top of it, `History` the stacks of changes with
  merging, undo and redo as a machine over texts, and `Editor` puts both together.
- **Kernel timers.** `PtrList` is the doubly linked list on the heap, `TimerQueue` the theory of a timer queue in
  true, unbounded time, and `KernelTimer` the code with its wrapping 32-bit clock over the list.
- **The heap.** `HeapAllocator`: bucket free lists over a region that grows, with headers and contents.
- **Protocols as steps.** `Guard` (one-time construction of static objects), `SpinLocks` and `CriticalSection`
  (interrupt masks, nested critical sections, spin locks, handlers on top of what they interrupt), `TxRing` (the
  transmit rings of the network controller, which consumes when it likes), `SerialLine` and `SerialDevice` (the
  UART buffers shared with the interrupt handler).
- **A parser and a state machine.** `DeviceTree` and `DeviceTreeBlob`: searching the flattened device tree of
  section 5.4 of the Devicetree Specification in its bytes. `Terminal`, `TerminalCodes` and `ScreenDevice`:
  escape sequences, scrolling and the cursor on a frame buffer; what whole sequences of bytes do is said in rows,
  columns and pixels.
- **Arithmetic.** `Raster` and `Canvas` (lines and circles), `Calendar` (dates and seconds), `NumberText`
  (printing and reading numbers).

Words of the hardware are written as numbers with explicit remainders where they can wrap. Code that changes fields
or buffers step by step is a class or a method with loops, proved against functions on values; concurrent code is a
state machine, with one step for each access to shared state, and its theorems hold for every interleaving.

Where the code falls short of what it seems to promise, the model follows the code, and a lemma says exactly when
the promise holds:

- A branch that collapses does not tell its new leaf about itself. Line numbers and heights are right if and only
  if nothing comes before the leaf, or nothing changes (`ChunkChain.UntoldLeaf`,
  `ChunkTree.Document.UpdateLineHeight`; an example is in `ChunkExample`).
- Undoing a merged change does not always lead back; it can even where the change reaches past the end of the text
  (`History.MergeReverts`, `History.MergeLosesLine`, `History.MergeWraps`).
- Requests close to the address limit are given blocks without room (`HeapAllocator.Allocator.Allocate`,
  `HeapAllocator.OverflowGivesNoRoom`).
- A NOP between two sibling nodes of a device tree hides what comes after it (`DeviceTree.FoundIffThere`, with an
  example in `DeviceTree.GapHidesNode`), and a search commits to the first node with a name
  (`DeviceTree.FindByNames`, `DeviceTree.CommitMisses`).
- The cursor can leave a screen of several rows whose width holds no whole number of characters
  (`Terminal.CursorStaysIff`, `Terminal.OddWidthLeaves`).
- The bounds check of circles misses centres that are half a word off the screen (`Canvas.CheckedExactly`,
  `Canvas.CheckMissesCentre`).
- Moments before 1970, years past 32 bits, and weekdays after the day count has wrapped are wrong
  (`Calendar.SetThenGet`, `Calendar.FirstLost`, `Calendar.WeekDayExactly`, `Calendar.WeekDayGoesWrong`).
- Reading a word far beyond the end of a property can return something else than 0
  (`DeviceTreeBlob.WordAllowedRight`).
- Some characters that are no digits are read as digits (`NumberText.DigitsTaken`).

To check everything: `dafny verify dfyconfig.toml`.

## Model

| member | source | states |
|---|---|---|
| `StyledText.CopyStyles` | webpage/js/codemirror.js:2217-2230 | the fragments copied are exactly the styled characters from `from` to `to`, each with its own style, behind what was there |
| `ChunkTree.Document.constructor` | webpage/js/codemirror.js:1982-1988 | a new document is one empty line in one leaf, with exact sizes and heights, and its leaf knows its branch |
| `ChunkTree.Document.NewLine` | webpage/js/codemirror.js:1982-1988 | a new line belongs to no chunk and leaves the tree as it is |
| `ChunkTree.Document.SetText` | webpage/js/codemirror.js:2004-2036 | giving a line another text leaves the tree and its order alone |
| `ChunkTree.Document.Insert` | webpage/js/codemirror.js:2301-2327 | the flat list of lines has the new lines at `at` and is otherwise the same; every chunk again counts and measures exactly its lines; every leaf has at most 50 lines, every branch at most 10 children; if all leaves knew their branches they all still do |
| `ChunkTree.Document.InsertHeight` | webpage/js/codemirror.js:2306-2327 | the same for one chunk on the way down: what has been announced above is made true below, for any number of lines |
| `ChunkTree.Document.SpillLeaf` | webpage/js/codemirror.js:2313-2320 | the last 25 lines of an overfull leaf move to a new leaf behind it that knows its branch; no line is lost or reordered |
| `ChunkTree.Document.MaybeSpill` | webpage/js/codemirror.js:2328-2349 | splitting terminates, keeps all lines in order and leaves no branch with more than 10 children: each call moves to a parent, or wraps the root and shrinks it |
| `ChunkTree.Document.Remove` | webpage/js/codemirror.js:2279-2297 | the flat list has lost the `n` lines from `at` on; sizes, heights and bounds hold again, through collapsing too; the removed lines belong to no chunk |
| `ChunkTree.Document.RemoveFrom` | webpage/js/codemirror.js:2279-2297 | the same for one chunk below a path of branches that still wait for their new sizes; what hangs beside the path stays as it was |
| `ChunkTree.Document.CollapseInto` | webpage/js/codemirror.js:2252-2254 | collapsing collects the lines of a chunk in order |
| `ChunkTree.Document.CollapseBranch` | webpage/js/codemirror.js:2291-2297 | a branch of fewer than 25 lines ends up with one leaf that holds all its lines in order |
| `ChunkTree.Document.InsertIntoLeaf` | webpage/js/codemirror.js:2255-2259 | a leaf that has been announced new lines gets them, told of their leaf, and spills if need be |
| `ChunkTree.Document.SpillLeaves` | webpage/js/codemirror.js:2313-2322 | an overfull leaf is cut until it has at most 50 lines, and its branch then spills in turn |
| `ChunkTree.Document.SpillRound` | webpage/js/codemirror.js:2331-2347 | one round moves five children to a sibling, below a root that grows by a level if need be |
| `ChunkTree.Document.RemoveLines` | webpage/js/codemirror.js:2244-2251 | a leaf loses exactly these lines and their height, and they belong to no chunk |
| `ChunkTree.Document.RemoveFromKids` | webpage/js/codemirror.js:2279-2290 | the children of a branch together lose exactly these lines, and children that become empty are dropped |
| `ChunkTree.Document.NewLeaf` | webpage/js/codemirror.js:2233-2241 | a new leaf measures its lines and they know it |
| `ChunkTree.Document.NewBranch` | webpage/js/codemirror.js:2265-2276 | a new branch counts and measures its children and they know it |
| `LineEdit.GetLine` | webpage/js/codemirror.js:257 | the line shown at that number, wrapped round past the end |
| `ChunkTree.Document.IterN` | webpage/js/codemirror.js:2350-2361 | the lines visited are those of the flat list from `at` on, up to the first that stops the visit or the end of the document |
| `ChunkTree.VisitFirst` | webpage/js/codemirror.js:2350-2361 | a visit sees a prefix, ending with the first line that stops it, and reports a stop if and only if some line stops it |
| `ChunkTree.VisitAll` | webpage/js/codemirror.js:2350-2361 | a visit that nothing stops sees every line once, in order |
| `ChunkTree.Document.GetLineAt` | webpage/js/codemirror.js:2363-2372 | descending by sizes finds the line with that number in the flat list; a number past the end wraps round |
| `ChunkTree.Document.HeightAtLine` | webpage/js/codemirror.js:2402-2415 | with exact heights the result is the sum of the heights of all lines above, or of the whole document past its end |
| `ChunkTree.Document.LineAtHeight` | webpage/js/codemirror.js:2384-2401 | with exact heights the result `no` has prefix(no) <= y < prefix(no + 1), or is the line count when the document is lower, with lines of height 0 anywhere |
| `ChunkTree.LineAtUnique` | webpage/js/codemirror.js:2384-2401 | there is only one line number like that |
| `ChunkTree.Document.LineNo` | webpage/js/codemirror.js:2373-2383 | climbing parents gives the number of the line in the document if its leaf knows its branch, and in the leaf otherwise; so every number is right in a document that has only been inserted into |
| `ChunkChain.RowFromRoot` | webpage/js/codemirror.js:2373-2383 | a line of a chunk stands in the document as far behind the lines before the chunk as it stands in the chunk |
| `ChunkChain.UntoldLeaf` | webpage/js/codemirror.js:2291-2297 | for a leaf that was not told its branch (as collapse leaves it) the number found is right if and only if no line comes before the leaf |
| `ChunkExample.Collapsed` | webpage/js/codemirror.js:2291-2297 | collapsing the second branch of a document of 31 lines, all of whose leaves know their branches, gives a leaf that does not; the old leaf is no longer in the tree |
| `ChunkExample.NumberGoesWrong` | webpage/js/codemirror.js:2373-2383 | the document after this collapse is in order, and line 30 is found to be line 0 |
| `ChunkTree.Document.UpdateLineHeight` | webpage/js/codemirror.js:258-263 | only the height of this line changes in the flat list; the heights of all chunks stay exact if and only if its leaf knows its branch or the height is the same; always, if all leaves know their branches |
| `ChunkChain.RootUntold` | webpage/js/codemirror.js:258-263 | if the change of height does not reach the root, the root is wrong from then on |
| `ChunkExample.HeightGoesWrong` | webpage/js/codemirror.js:258-263 | in the document after this collapse another height for line 30 leaves the height of the root wrong |
| `LineEdit.Replace` | webpage/js/codemirror.js:2004-2036 | the styled characters of the line between the two positions are replaced by the plain text; all others keep their style, and the fragments still make up the text |
| `LineEdit.Split` | webpage/js/codemirror.js:2037-2056 | the new line has the given text and then the styled rest of the old one |
| `LineEdit.Append` | webpage/js/codemirror.js:2057-2067 | the styled characters of the other line are added at the end |
| `LineEdit.UpdateLinesNoUndo` | webpage/js/codemirror.js:534-570 | in all four cases the document becomes the one that has the range replaced, line by line and style by style, on top of the chunk tree; if the end wraps round to the first line, with the range in that line replaced |
| `LineEdit.WovenText` | webpage/js/codemirror.js:534-570 | that document, its lines joined by newlines, is prefix(from) + the new lines joined + suffix(to) of the old one, with all styles outside the range kept |
| `History.History.AddChange` | webpage/js/codemirror.js:2424-2446 | within 400 ms of the last change the stack keeps its length if and only if the last change starts at or before the end of the new lines, and its old lines reach no further from the new start than twice its new lines do from its own; otherwise it grows by just this change; nothing is left to redo |
| `History.MergedMeans` | webpage/js/codemirror.js:2430-2444 | what a merged change covers and holds, line by line: the lines the new edit found before those of the last one, then these, then those it found behind them |
| `History.QuickEdits` | webpage/js/codemirror.js:2424-2446 | two edits within 400 ms and one undo lead to the text before both if the second one starts and ends within these bounds of the first, in numbers, and otherwise to the text between them |
| `History.RecordReverts` | webpage/js/codemirror.js:2424-2429 | a change recorded on its own leads from the text after the edit back to the text before it |
| `History.MergeReverts` | webpage/js/codemirror.js:2430-2444 | undoing a merged change gives the text before both edits if and only if the second edit reaches to the start of the first and either keeps the number of lines or covers the rest of it before and after, or the change now reaches past the end of the text and its last line wraps round to the only line that the second edit has left; only in the first case it names just lines that exist |
| `History.MergeWraps` | webpage/js/codemirror.js:519-530 | such a change: joining the two new lines of a text is undone through the wrapped lookup |
| `History.UndoneFits` | webpage/js/codemirror.js:519-530 | undoing a change whose lines all exist takes back just these lines, in all cases of the line edit |
| `History.UndoneWraps` | webpage/js/codemirror.js:519-530 | undoing a change past the end whose last line wraps round to its first takes back just that line |
| `History.MergeLosesLine` | webpage/js/codemirror.js:2430-2444 | joining lines right after inserting them is a case where it does not: undo then takes away one line too many |
| `History.InverseReverts` | webpage/js/codemirror.js:519-530 | applying a change and then its inverse gives the text again |
| `History.StepFollows` | webpage/js/codemirror.js:510-532 | after each edit, undo or redo every change on both stacks fits the text it will meet, and leads to the text the timeline says |
| `History.RunFollows` | webpage/js/codemirror.js:510-532 | the same over every run of edits, undos and redos (merged edits only where the merge is exact) |
| `History.UndosThenRedos` | webpage/js/codemirror.js:519-532 | after any such run k undos restore the text of k changes ago, up to the depth of the history, and k redos lead back |
| `Editor.Editor.UpdateLines` | webpage/js/codemirror.js:510-517 | an edit of the styled document is the edit of the specification with its change recorded, cut to the undo depth |
| `Editor.Editor.UnredoHelper` | webpage/js/codemirror.js:519-530 | undo and redo on the document are the undo and redo of the specification, for changes whose lines exist and for those that wrap round to their first line |
| `Editor.Editor.Undo` | webpage/js/codemirror.js:531 | undo on the document shows the texts that the timeline has before |
| `Editor.Editor.Redo` | webpage/js/codemirror.js:532 | redo on the document shows the texts that the timeline has next |
| `Editor.Editor.EditTwiceThenUndo` | webpage/js/codemirror.js:510-531 | the same on the document: how far one undo goes after two quick edits |
| `Editor.WovenTexts` | webpage/js/codemirror.js:534-570 | seen as plain lines, an edit replaces the lines it touches |
| `PtrList.PtrList.InsertBefore` | circle/lib/ptrlist.cpp:66-102 | the new element stands right before the given one and all others stay in order; all links lead to neighbours |
| `PtrList.PtrList.InsertAfter` | circle/lib/ptrlist.cpp:104-139 | the new element stands right behind the given one, or is the only one |
| `PtrList.PtrList.Remove` | circle/lib/ptrlist.cpp:141-173 | the element is gone, all others stay in order and linked |
| `PtrList.PtrList.Find` | circle/lib/ptrlist.cpp:175-188 | the first element with the pointer, or null if there is none |
| `TimerQueue.LaterIsLater` | circle/lib/timer.cpp:404-418 | the signed 32-bit difference orders times correctly while they are less than half a turn apart, whatever wraps |
| `TimerQueue.RunInv` | circle/lib/timer.cpp:383-493 | over every run of ticks, starts and cancels, also by handlers, the queue is sorted by true time, first come first served, nothing is overdue between polls, and each timer is waiting, cancelled or has fired |
| `TimerQueue.FiresOnce` | circle/lib/timer.cpp:458-493 | each timer fires exactly once, exactly at its time, unless it is cancelled before, and then never |
| `TimerQueue.HandlerStarts` | circle/lib/timer.cpp:458-493 | whatever timers fire in a poll, each start of each of their handlers is planned for its delay after now, and that timer is then queued unless a later action of a handler cancels it |
| `TimerQueue.HandlerCancels` | circle/lib/timer.cpp:458-493 | each cancel of such a handler cancels its timer, if that has been started by then and has not fired |
| `TimerQueue.PolledAdds` | circle/lib/timer.cpp:458-493 | a poll starts just the timers that handlers of fired timers start, and cancels none that no such handler cancels |
| `TimerQueue.ProperMeans` | circle/lib/timer.cpp:383-393 | the runs meant here are all of delays up to 2^31 - 2, any cancels, and handlers that start timers with delays from 1 on |
| `TimerQueue.StartFires` | circle/lib/timer.cpp:383-493 | a timer started anywhere in a run fires exactly once, as many ticks later as its delay says (at the next tick if that is 0), unless something cancels it |
| `TimerQueue.CancelStops` | circle/lib/timer.cpp:435-456 | a timer that is cancelled does not fire from then on, whatever follows |
| `TimerQueue.TickedInv` | circle/lib/timer.cpp:531-541 | a tick with any handlers keeps all this, and leaves nothing overdue |
| `KernelTimer.KernelTimers.FindPlace` | circle/lib/timer.cpp:404-418 | the loop stops at the first timer that elapses later, and knows the one before it |
| `KernelTimer.KernelTimers.StartKernelTimer` | circle/lib/timer.cpp:383-433 | with wrapped 32-bit times the new timer goes behind all that elapse no later; only one element is added |
| `KernelTimer.KernelTimers.CancelKernelTimer` | circle/lib/timer.cpp:435-456 | exactly the element of this timer is removed, or none |
| `KernelTimer.KernelTimers.PollKernelTimers` | circle/lib/timer.cpp:458-493 | the loop over the heap list, with its saved next element and handlers that start and cancel timers, fires what the specification fires |
| `KernelTimer.KernelTimers.InterruptHandler` | circle/lib/timer.cpp:531-541 | a tick advances the 32-bit clock and polls once |
| `HeapAllocator.Allocator.Setup` | circle/lib/heapallocator.cpp:51-56 | the heap starts empty |
| `HeapAllocator.Allocator.Allocate` | circle/lib/heapallocator.cpp:63-145 | a block is returned if and only if a free one of its bucket or room below the reserve exists; it is the first of the free list, or begins where the heap ended, which then grows by the least multiple of the alignment that holds header and size; it is aligned, was not in use and has the size of its bucket; live blocks keep their headers; every block has enough room if and only if the rounding does not overflow |
| `HeapAllocator.Allocator.Free` | circle/lib/heapallocator.cpp:182-216 | the block is no longer in use and is the next one of its bucket, or lost if it is larger than every bucket |
| `HeapAllocator.Allocator.ReAllocate` | circle/lib/heapallocator.cpp:147-180 | the new block has room for the size and the old contents, all other blocks keep theirs; nothing changes if the old block is large enough or there is no room |
| `HeapAllocator.Allocator.GetFreeSpace` | circle/lib/heapallocator.cpp:58-61 | free space and the blocks add up to the region |
| `HeapAllocator.Allocator.constructor` | circle/lib/heapallocator.cpp:28-49 | an allocator that has not been set up owns nothing |
| `HeapAllocator.BlocksApart` | circle/lib/heapallocator.cpp:63-145 | no two blocks overlap |
| `HeapAllocator.NothingLeaks` | circle/lib/heapallocator.cpp:63-145 | the blocks fill the region below the next address without gaps |
| `HeapAllocator.OneFate` | circle/lib/heapallocator.cpp:182-216 | each block is in use, or in exactly one free list, that of its own bucket, or larger than every bucket |
| `HeapAllocator.DataApart` | circle/lib/heapallocator.cpp:63-145 | the usable bytes of two blocks in use never overlap |
| `HeapAllocator.SpanEnough` | circle/lib/heapallocator.cpp:63-145 | the rounded size has room for header and data, and is the least such multiple of the alignment, if and only if size and twice the alignment do not overflow the word |
| `HeapAllocator.SpanFits` | circle/lib/heapallocator.cpp:63-145 | a request fits into what is left of the region if and only if header and data fit into the whole multiples of the alignment there; after an overflow, if and only if what is left over by it does |
| `HeapAllocator.Allocator.FreeThenAllocate` | circle/lib/heapallocator.cpp:63-216 | a block that is freed is what the next request for its bucket gets |
| `HeapAllocator.OverflowGivesNoRoom` | circle/lib/heapallocator.cpp:63-145 | a request close to the address limit is given a block that holds its header only |
| `DeviceTreeBlob.DeviceTreeBlob.FindNodeInternal` | circle/lib/devicetreeblob.cpp:128-261 | on the bytes of any tree the search returns the offset of the node that the search in the tree finds; if the subtree is passed over, the next offset is just past it |
| `DeviceTreeBlob.DeviceTreeBlob.FindNode` | circle/lib/devicetreeblob.cpp:122-161 | from the root or a node found before: found if and only if the search in the tree finds it, and the bytes of that node stand there; the path / finds the root |
| `DeviceTreeBlob.DeviceTreeBlob.FindProperty` | circle/lib/devicetreeblob.cpp:264-316 | the offset of the first property of the node with that name, or none |
| `DeviceTreeBlob.DeviceTreeBlob.GetPropertyValueWord` | circle/lib/devicetreeblob.cpp:342-361 | the big-endian word of the value, or 0 if the value is too short; for indexes so large that the offset wraps at 32 bits, the word at the wrapped offset |
| `DeviceTreeBlob.WordAllowedRight` | circle/lib/devicetreeblob.cpp:352-358 | the length check in 32 bits is right unless the offset wraps and the value is long enough for the wrapped offset |
| `DeviceTree.FoundInside` | circle/lib/devicetreeblob.cpp:128-261 | what is found is a node of the tree |
| `DeviceTree.FoundName` | circle/lib/devicetreeblob.cpp:128-261 | the node found is in the tree and has the last name of the path |
| `DeviceTree.FoundFirst` | circle/lib/devicetreeblob.cpp:128-261 | no node before it in preorder has the name sought |
| `DeviceTree.FoundIffThere` | circle/lib/devicetreeblob.cpp:128-261 | the search of the code finds a name if and only if some node has it and no NOP stands in front of that node, of a node it is in, or of a node written before it, the root aside |
| `DeviceTree.FindByNames` | circle/lib/devicetreeblob.cpp:188-205 | a path of several names finds what its rest finds at the first node with its first name, and nothing if the rest finds nothing there |
| `DeviceTree.SlashAtEnd` | circle/lib/devicetreeblob.cpp:164-205 | an empty path stands for the node itself, a slash at the end makes no difference, and an empty name is never found |
| `DeviceTree.CommitMisses` | circle/lib/devicetreeblob.cpp:188-205 | a tree in which the node at the end of a path is missed because the search has committed to another node of the same name |
| `DeviceTree.SkipMeansAbsent` | circle/lib/devicetreeblob.cpp:128-261 | a subtree is passed over only if no node in it has the name |
| `DeviceTree.StrictIsPlain` | circle/lib/devicetreeblob.cpp:128-261 | whatever the code finds or passes over, the plain first-match search that ignores NOPs finds or passes over in the same way |
| `DeviceTree.GapHidesNode` | circle/lib/devicetreeblob.cpp:128-261 | with such a NOP a node that is there is not found |
| `DeviceTree.NodeThere` | circle/lib/devicetreeblob.cpp:128-261 | the bytes at the offset of a node are the bytes of that node |
| `TxRing.Device.InitTxQueues` | circle/lib/bcm54213.cpp:1247-1305 | five rings over disjoint slots that together use all of them |
| `TxRing.Device.InitTxRing` | circle/lib/bcm54213.cpp:1307-1347 | a new empty ring over slots that no other ring uses |
| `TxRing.Device.GetTxCb` | circle/lib/bcm54213.cpp:1349-1361 | the slot is that of the number of buffers sent so far, modulo the size of the ring and inside it, and the write pointer goes on to that of the next buffer |
| `TxRing.Device.SendFrame` | circle/lib/bcm54213.cpp:712-774 | a buffer is accepted if and only if two slots are free, and is then the last one in flight; nothing else changes |
| `TxRing.Device.TxReclaim` | circle/lib/bcm54213.cpp:1363-1390 | exactly the buffers the controller has consumed are freed, each once and in order of sending, though the index wraps at 16 bits |
| `TxRing.Device.FreeTxCb` | circle/lib/bcm54213.cpp:1392-1400 | the buffer of the slot is given back and the slot is empty |
| `TxRing.SlotsConserved` | circle/lib/bcm54213.cpp:712-774 | free slots and the 16-bit distance of the indices always make up the ring |
| `TxRing.BehindTrue` | circle/lib/bcm54213.cpp:1363-1390 | the 16-bit distance of two counters is their true distance |
| `TxRing.SlotsDiffer` | circle/lib/bcm54213.cpp:1349-1361 | two buffers in flight never share a slot, across any number of wraps |
| `Guard.StepInv` | circle/lib/cxa_guard.cpp:85-146 | each step of any core keeps the invariant of the lock, the nesting and the guard bytes |
| `Guard.RunInv` | circle/lib/cxa_guard.cpp:85-146 | the invariant of the lock, the nesting and the guard bytes holds in every interleaving of any number of cores |
| `Guard.OneCoreConstructs` | circle/lib/cxa_guard.cpp:115-146 | at most one core runs guarded constructors at a time |
| `Guard.ConstructedOnce` | circle/lib/cxa_guard.cpp:115-137 | each constructor is started at most once, and when acquire returns 0 it has finished |
| `Guard.AssertionsHold` | circle/lib/cxa_guard.cpp:104-146 | the assertions on the count and on the guard never fail |
| `Guard.OwnerAdvances` | circle/lib/cxa_guard.cpp:85-146 | the core that owns the lock is never blocked, and each step of it that calls no other guard brings it nearer to giving the lock back |
| `Guard.WaitEnds` | circle/lib/cxa_guard.cpp:85-113 | there is no deadlock: in every interleaving a core that waits for the lock waits for another core, which can give it back with steps of its own, and then the waiting core gets it |
| `Guard.LockGivenBack` | circle/lib/cxa_guard.cpp:85-113 | the lock is free when no core needs it |
| `Guard.CallConstructs` | circle/lib/cxa_guard.cpp:85-137 | undisturbed, acquiring a guard whose constructor has not run takes the lock, or takes it once more, and starts the constructor; nothing else changes |
| `Guard.CallReturns` | circle/lib/cxa_guard.cpp:115-120 | acquiring a guard whose constructor has run returns without the lock and leaves everything as it was, whoever owns the lock |
| `Guard.FinishMarks` | circle/lib/cxa_guard.cpp:104-146 | a constructor that ends is marked as run, and the lock is given back with the outermost one |
| `SpinLocks.StepInv` | circle/lib/spinlock.cpp:43-129 | every step of any core, interrupts included, keeps masks, saved masks, nesting and owners in agreement |
| `SpinLocks.RunInv` | circle/lib/spinlock.cpp:43-129 | the same over every interleaving |
| `SpinLocks.MutualExclusion` | circle/lib/spinlock.cpp:43-129 | in every run a lock is held by one context on one core |
| `SpinLocks.NeverWaitsForItself` | circle/lib/spinlock.cpp:43-129 | in every run a context that tries to take a lock never finds it held on its own core, by itself or by anything it interrupted |
| `SpinLocks.LeaveRestores` | circle/lib/synchronize.cpp:98-131 | in every run the mask restored on leaving a critical section is the one its own entering saw, and the one that the locks still held call for |
| `SpinLocks.HandlerRestores` | circle/lib/synchronize.cpp:98-131 | a handler leaves its core exactly as it found it, whatever interrupts it and whatever other cores do |
| `SpinLocks.HeldMasks` | circle/lib/spinlock.cpp:43-48 | while a lock is held its core masks the interrupts of its level |
| `SpinLocks.SpinTakes` | circle/lib/spinlock.cpp:52-87 | a context that tries to take a lock takes it with its next step if it is free, and otherwise tries on |
| `SpinLocks.OwnerHolds` | circle/lib/spinlock.cpp:43-129 | in every run the owner of a lock is the core on which a context holds it, and nobody holds a free lock |
| `SpinLocks.AcquireTakes` | circle/lib/spinlock.cpp:43-92 | undisturbed, acquiring a free lock takes five steps, or one at task level, and leaves it held, the interrupts of its level masked and the mask saved |
| `SpinLocks.ReleaseFrees` | circle/lib/spinlock.cpp:94-129 | releasing frees the lock taken last with its first step, and then leaves its critical section |
| `SpinLocks.InterruptComes` | circle/lib/synchronize.cpp:27-43 | an interrupt comes if and only if the core does not mask it, on top of everything and with interrupts of its level masked |
| `SpinLocks.WaitEnds` | circle/lib/spinlock.cpp:43-129 | if all cores take locks in the same order, a core that waits gets its lock: the others can go on until it is free, in a bounded number of steps and without taking new locks |
| `SpinLocks.OppositeOrders` | circle/lib/spinlock.cpp:43-92 | without such an order there is a run after which two tasks wait for each other for ever |
| `CriticalSection.Processor.CurrentExecutionLevel` | circle/lib/synchronize.cpp:27-43 | from the two mask bits of the status word: exactly the interrupts of the level returned and below it are masked |
| `CriticalSection.Processor.EnterCritical` | circle/lib/synchronize.cpp:98-119 | pushes the mask seen and masks the level asked for; without interruption this is what the single steps of the protocol do |
| `CriticalSection.Processor.LeaveCritical` | circle/lib/synchronize.cpp:121-131 | takes back the mask saved last; without interruption this is what the single steps of the protocol do |
| `SerialLine.RunInv` | circle/lib/serial.cpp:372-444 | each step of a write or an interrupt keeps the order of the bytes of all writes |
| `SerialLine.AllArrive` | circle/lib/serial.cpp:372-444 | in every interleaving of writes and interrupts the bytes sent and queued are those accepted, once and in order, newlines expanded, the bytes of one write together |
| `SerialLine.NeverStuck` | circle/lib/serial.cpp:372-444 | when no write is in progress and bytes are queued, the transmit interrupt is enabled |
| `SerialLine.AllSent` | circle/lib/serial.cpp:740-756 | interrupts move the oldest bytes to the wire, as many as there has been room for, and all of them once there has been enough |
| `SerialLine.WholeWrite` | circle/lib/serial.cpp:372-444 | undisturbed, a write that finds the line free and room for all of its text gets all of it behind what was queued, newlines expanded, and reports all of it |
| `SerialLine.PutTakes` | circle/lib/serial.cpp:389-413 | a write puts its next byte last into the buffer while there is room |
| `SerialLine.ExpandedMeans` | circle/lib/serial.cpp:389-411 | on the line each character follows those before it, and each line feed is followed by a carriage return if that is switched on |
| `SerialDevice.SerialDevice.WriteByte` | circle/lib/serial.cpp:631-666 | the byte is queued last unless the ring buffer is full |
| `SerialDevice.SerialDevice.Write` | circle/lib/serial.cpp:372-444 | accepts a prefix of the text, newlines expanded, and all of it unless the buffer is full; then feeds the UART and enables the interrupt for the rest |
| `SerialDevice.SerialDevice.InterruptHandler` | circle/lib/serial.cpp:668-763 | queues what has been received, with the first error kept, sends while the UART takes bytes, and disables the interrupt once the queue is empty |
| `SerialDevice.SerialDevice.FlushTx` | circle/lib/serial.cpp:413-443 | after a write the UART has taken the oldest bytes while it had room, and the interrupt is enabled for the rest |
| `SerialDevice.SerialDevice.ReceiveByte` | circle/lib/serial.cpp:676-733 | a byte received is queued last, or its error or the overrun is noted |
| `SerialDevice.SerialDevice.Read` | circle/lib/serial.cpp:446-553 | returns the oldest bytes received and removes them, or reports an error once |
| `SerialDevice.SerialDevice.AvailableForWrite` | circle/lib/serial.cpp:557-577 | free room and queued bytes make up the buffer size less one |
| `SerialDevice.SerialDevice.AvailableForRead` | circle/lib/serial.cpp:579-599 | the number of bytes that can be read |
| `SerialDevice.NothingLostSilently` | circle/lib/serial.cpp:668-763 | if no error is reported all received bytes have been queued in order |
| `SerialDevice.ErrorIff` | circle/lib/serial.cpp:676-733 | an error is noted if and only if a byte comes with a fault or finds the buffer full |
| `SerialDevice.ErrorStays` | circle/lib/serial.cpp:668-763 | the first error stays until it is read |
| `SerialDevice.PolledDevice.Write` | circle/lib/serial.cpp:372-413 | without interrupts the whole text is sent, newlines expanded |
| `SerialDevice.PolledDevice.Read` | circle/lib/serial.cpp:480-529 | without interrupts the bytes up to the limit or the first faulty one are taken; a fault is reported instead of what was taken before it |
| `Terminal.StepOk` | circle/lib/screen.cpp:324-597 | whatever byte arrives in whatever parser state, scroll start <= cursor y < scroll end, cursor x < width, both on character cells |
| `Terminal.StepsOk` | circle/lib/screen.cpp:324-597 | the same for every sequence of bytes |
| `Terminal.StepsConcat` | circle/lib/screen.cpp:287-322 | processing two sequences one after the other is processing their concatenation |
| `Terminal.LeftIsBack` | circle/lib/screen.cpp:645-659 | going left does nothing just in the first cell of the scroll region, and otherwise going right takes it back, across line ends too |
| `Terminal.UpIsBack` | circle/lib/screen.cpp:684-690 | going up does nothing just in the first row of the scroll region, and otherwise going down takes it back |
| `Terminal.HomeIsFirst` | circle/lib/screen.cpp:639-643 | home is row one and column one of the scroll region, the same cell that an absolute move to it reaches |
| `Terminal.NewLineReaches` | circle/lib/screen.cpp:750-754 | a new line leads to the first column of the next row, or scrolls the region and stays in its last row |
| `Terminal.TabReaches` | circle/lib/screen.cpp:915-924 | a tabulator leads to the next column behind a multiple of 8, or to a new line if there is none on the screen |
| `Terminal.MoveReaches` | circle/lib/screen.cpp:661-673 | the cursor gets to a row and column counted from 1 if and only if that cell is on the screen and in the scroll region, and otherwise stays; number 0 wraps and is never reached |
| `Terminal.RegionReaches` | circle/lib/screen.cpp:771-787 | the scroll region becomes the rows from start to end if and only if 1 <= start <= end <= rows, and the cursor goes home in any case |
| `Terminal.StandoutMeans` | circle/lib/screen.cpp:789-913 | modes change colors only; each color of the palette can be chosen for ink and for paper on its own; modes 1 and 2 choose bright and half bright ink, mode 7 swaps ink and paper, modes 0 and 27 take ink and swapping back, and unknown modes do nothing |
| `Terminal.CursorStaysIff` | circle/lib/screen.cpp:645-682 | from startup the cursor column stays on the screen for all inputs if and only if the width holds whole characters or there is a single row of them |
| `Terminal.OddWidthLeaves` | circle/lib/screen.cpp:645-682 | a line break and backspaces are bytes that lead it out, if the width holds no whole characters |
| `Terminal.LeftLeaves` | circle/lib/screen.cpp:645-659 | from inside a cell backspaces lead the cursor out of the screen |
| `Terminal.ShowThenHide` | circle/lib/screen.cpp:982-1012 | showing the cursor and taking it away restores every pixel |
| `Terminal.WriteRefines` | circle/lib/screen.cpp:287-322 | without its cursor the screen after a write shows what the plain terminal shows after the bytes |
| `Terminal.SplitWrite` | circle/lib/screen.cpp:287-322 | how bytes are divided between writes makes no difference to state, picture and cursor |
| `Terminal.PrintedText` | circle/lib/screen.cpp:700-710 | each character of a printed text can be read off its own cell of the picture, in the color of text on the background, or reversed in reverse mode |
| `Terminal.PrintedLine` | circle/lib/screen.cpp:675-710 | so can a text that fills the line to its last cell, just before the new line begins |
| `Terminal.StartupOk` | circle/lib/screen.cpp:43-90 | the state after startup is in order |
| `TerminalCodes.StartupMeans` | circle/lib/screen.cpp:43-160 | after startup the screen is black, the cursor is on in row and column 1, all rows scroll, and text is bright white on black |
| `TerminalCodes.EscapeUp` | circle/lib/screen.cpp:382-385 | the bytes ESC [ A lead one row up, unless the cursor is in the first row of the scroll region, and change nothing else |
| `TerminalCodes.EscapeDown` | circle/lib/screen.cpp:387-390 | ESC [ B leads one row down, or scrolls in the last row of the region: every pixel of it |
| `TerminalCodes.EscapeRight` | circle/lib/screen.cpp:392-395 | ESC [ C leads one column right, or to the first column of the next row behind the last one |
| `TerminalCodes.EscapeLeft` | circle/lib/screen.cpp:397-400 | ESC [ D leads one column left, or from the first one to the last column of the row above, or nowhere from the first cell of the region |
| `TerminalCodes.EscapeHome` | circle/lib/screen.cpp:402-405 | ESC [ H leads to the first column of the first row of the region |
| `TerminalCodes.EscapeClears` | circle/lib/screen.cpp:407-415 | ESC [ J and ESC [ K: which pixels become background, and that all others stay |
| `TerminalCodes.EscapeUnknown` | circle/lib/screen.cpp:417-443 | any other last byte leaves everything as it was |
| `TerminalCodes.EscapeAlone` | circle/lib/screen.cpp:357-373 | escape and any other byte than a bracket do nothing |
| `TerminalCodes.EscapeErase` | circle/lib/screen.cpp:468-471 | ESC [ n X with a number of any digits up to 199: the pixels of n cells from the cursor on, at most to the end of the row, become background, and all others stay |
| `TerminalCodes.EscapeStandout` | circle/lib/screen.cpp:482-485 | ESC [ n m sets the colors of mode n |
| `TerminalCodes.EscapeInsert` | circle/lib/screen.cpp:473-480 | ESC [ 4 h and l switch the insert mode, and with other numbers do nothing |
| `TerminalCodes.EscapeMove` | circle/lib/screen.cpp:530-536 | ESC [ row ; column H leads to this row and column if they are on the screen and in the region, and otherwise nowhere |
| `TerminalCodes.EscapeRegion` | circle/lib/screen.cpp:538-541 | ESC [ start ; end r makes these rows the scroll region if they are rows of the screen in order, and leads home in any case |
| `TerminalCodes.EscapeCursor` | circle/lib/screen.cpp:562-572 | ESC [ ? 25 h and l switch the cursor on and off, and with other numbers do nothing |
| `TerminalCodes.NumberUnknown` | circle/lib/screen.cpp:498-501 | any other byte behind a number ends the sequence without doing anything |
| `TerminalCodes.NumbersUnknown` | circle/lib/screen.cpp:554-557 | so does any other byte behind two numbers |
| `TerminalCodes.NoSecondNumber` | circle/lib/screen.cpp:506-516 | and any byte but a digit behind the semicolon |
| `TerminalCodes.NoMode` | circle/lib/screen.cpp:518-528 | and any byte but a digit behind the question mark |
| `TerminalCodes.TooLarge` | circle/lib/screen.cpp:487-503 | a number above 199 ends the sequence with the digit that makes it so large; nothing has changed but the number |
| `TerminalCodes.SecondTooLarge` | circle/lib/screen.cpp:543-559 | so does a second number above 199 |
| `TerminalCodes.ModeUnknown` | circle/lib/screen.cpp:574-590 | so do a number above 99 behind a question mark, and any other byte behind it |
| `TerminalCodes.BackspaceReaches` | circle/lib/screen.cpp:331-333 | a backspace leads one cell back, as ESC [ D does |
| `TerminalCodes.TabGoes` | circle/lib/screen.cpp:335-337 | a tabulator leads to the next column behind a multiple of 8, or to the next line |
| `TerminalCodes.LineFeedGoes` | circle/lib/screen.cpp:339-341 | a line feed leads to the first column of the next row, or scrolls |
| `TerminalCodes.ReturnGoes` | circle/lib/screen.cpp:343-345 | a carriage return leads to the first column |
| `TerminalCodes.OtherCode` | circle/lib/screen.cpp:351-353 | any other control code does nothing |
| `TerminalCodes.CursorShown` | circle/lib/screen.cpp:982-1012 | showing the cursor paints the lower part of its cell in the current color and no other pixel |
| `TerminalCodes.ScrolledPixel` | circle/lib/screen.cpp:926-957 | after a scroll each pixel of the region is the one a character row further down was, or background in the last row; all others stay |
| `TerminalCodes.LineClearedPixel` | circle/lib/screen.cpp:620-626 | clearing to the end of the line makes the pixels of its row from the cursor on background, and all others stay |
| `TerminalCodes.DisplayClearedPixel` | circle/lib/screen.cpp:604-618 | clearing to the end of the display makes these and all below background, and all others stay |
| `TerminalCodes.CharsErasedPixel` | circle/lib/screen.cpp:712-739 | erasing characters makes the pixels of so many cells from the cursor on background, at most to the end of the row, and all others stay |
| `ScreenDevice.ScreenDevice.Write` | circle/lib/screen.cpp:287-322 | writing to the frame buffer is the write of the specification; every access is in range |
| `ScreenDevice.ScreenDevice.WriteChar` | circle/lib/screen.cpp:324-597 | one byte on the device is one step of the terminal |
| `ScreenDevice.ScreenDevice.InvertCursor` | circle/lib/screen.cpp:982-1012 | saves and replaces, or restores, exactly the pixels of the cursor |
| `ScreenDevice.ScreenDevice.Scroll` | circle/lib/screen.cpp:926-957 | the scroll region moves up by one character row and the last row is cleared; the rest of the picture stays |
| `ScreenDevice.ScreenDevice.ClearDisplayEnd` | circle/lib/screen.cpp:604-618 | everything from the cursor on is cleared and nothing before it |
| `ScreenDevice.ScreenDevice.EraseChars` | circle/lib/screen.cpp:712-739 | the cells to the right of the cursor, at most to the end of the line, are cleared |
| `ScreenDevice.ScreenDevice.constructor` | circle/lib/screen.cpp:43-90 | after startup the screen shows the picture it was given with a cursor in its first cell, and everything is in order |
| `ScreenDevice.ScreenDevice.SetPixel` | circle/lib/screen.cpp:1014-1021 | sets one pixel, or none if the place is off the screen |
| `ScreenDevice.ScreenDevice.GetPixel` | circle/lib/screen.cpp:1023-1032 | reads one pixel, or the background off the screen |
| `ScreenDevice.ScreenDevice.DisplayCharAt` | circle/lib/screen.cpp:959-969 | paints exactly the pixels of one cell with the character |
| `ScreenDevice.ScreenDevice.EraseChar` | circle/lib/screen.cpp:971-980 | paints exactly the pixels of one cell with the background |
| `ScreenDevice.ScreenDevice.ClearLineEnd` | circle/lib/screen.cpp:620-626 | the cells from the cursor to the end of its line are cleared |
| `ScreenDevice.ScreenDevice.CursorDown` | circle/lib/screen.cpp:628-637 | the cursor goes down, or the scroll region up at its end |
| `ScreenDevice.ScreenDevice.CursorRight` | circle/lib/screen.cpp:675-682 | the cursor goes to the cell behind, of the next line if need be |
| `ScreenDevice.ScreenDevice.NewLine` | circle/lib/screen.cpp:750-754 | the cursor goes to the start of the next line |
| `ScreenDevice.ScreenDevice.DisplayChar` | circle/lib/screen.cpp:700-710 | a printable character is painted at the cursor, which then goes right |
| `ScreenDevice.ScreenDevice.Tabulator` | circle/lib/screen.cpp:915-924 | the cursor goes to the next tabulator stop |
| `Canvas.Graphics.DrawLine` | circle/lib/2dgraphics.cpp:142-190 | if both ends are on the screen exactly the pixels of the line are painted, otherwise nothing; no access leaves the buffer and no error term overflows |
| `Raster.LineEnds` | circle/lib/2dgraphics.cpp:142-190 | the line starts and ends at the given points and stays in the rectangle between them |
| `Raster.HalfPixel` | circle/lib/2dgraphics.cpp:142-190 | no pixel is more than half a pixel away from the ideal line |
| `Raster.LineCount` | circle/lib/2dgraphics.cpp:142-190 | the line has max(abs(dx), abs(dy)) + 1 different pixels |
| `Raster.LineNext` | circle/lib/2dgraphics.cpp:160-189 | from pixel to pixel one coordinate moves by one and the other by one or none, as the error term says |
| `Canvas.Graphics.DrawCircleOutline` | circle/lib/2dgraphics.cpp:213-264 | with any centre and radius: exactly the pixels of the circle are painted if the check passes, nothing if it does not; a write leaves the buffer if and only if the check passes with the centre off the screen |
| `Raster.ArcNext` | circle/lib/2dgraphics.cpp:233-250 | the error term p = x^2 - x + (y+1)^2 - R^2 decides which pixel of the next row is on the circle, abs(x^2 + y^2 - R^2) <= x, and when the octant ends |
| `Raster.ArcUnique` | circle/lib/2dgraphics.cpp:233-250 | in each row an octant has one pixel at most, and it moves inwards |
| `Raster.RingInside` | circle/lib/2dgraphics.cpp:213-264 | no pixel of a circle is further out than its radius |
| `Raster.CircleMeans` | circle/lib/2dgraphics.cpp:213-264 | the pixels of a circle are just those whose squared distance from the centre misses R^2 by no more than the longer coordinate |
| `Raster.CircleReaches` | circle/lib/2dgraphics.cpp:220-227 | the four outermost points are among them |
| `Canvas.CheckedInside` | circle/lib/2dgraphics.cpp:215-218 | with the centre on the screen the check in 32-bit words holds if and only if the whole circle is on the screen |
| `Canvas.CheckedExactly` | circle/lib/2dgraphics.cpp:215-218 | what passes the check is written inside the buffer if and only if the centre is on the screen: the check misses centres half a word away |
| `Canvas.CheckMissesCentre` | circle/lib/2dgraphics.cpp:215-226 | such a centre and radius, and the index outside of the buffer that is written |
| `Calendar.Time.Set` | circle/lib/time.cpp:56-97 | the fields are those of the moment, and the only valid ones: reading them back gives the moment if and only if it is not before 1970 and its year fits into 32 bits; the weekday is that of the day |
| `Calendar.SetThenGet` | circle/lib/time.cpp:56-169 | setting a moment and getting it gives the same moment if and only if it is not before 1970 and its year fits into 32 bits; one second before 1970 reads as 4294967295 |
| `Calendar.GetThenSet` | circle/lib/time.cpp:56-169 | getting the moment of a valid date and time and setting it gives the same fields |
| `Calendar.FirstLost` | circle/lib/time.cpp:72-86 | the first moment that is lost, at the start of the year 2^32 |
| `Calendar.Time.Get` | circle/lib/time.cpp:146-169 | the seconds since 1970 of the fields |
| `Calendar.TotalUnique` | circle/lib/time.cpp:146-169 | two different valid dates and times are never the same moment |
| `Calendar.TotalFits` | circle/lib/time.cpp:146-169 | the result never overflows 64 bits |
| `Calendar.Time.SetDate` | circle/lib/time.cpp:115-144 | accepts exactly the valid dates from 1970 on; the weekday is computed from the days in 32-bit words |
| `Calendar.WeekDayExactly` | circle/lib/time.cpp:115-144 | that weekday is the one `Set` computes for the day if and only if the day count has wrapped a multiple of 7 times |
| `Calendar.WeekDayGoesWrong` | circle/lib/time.cpp:115-144 | a date in the year 12 million whose weekday comes out wrong |
| `Calendar.WeekDayInTime` | circle/lib/time.cpp:115-144 | which it has, zero times, for every year before 11 million |
| `Calendar.Time.SetTime` | circle/lib/time.cpp:99-113 | accepts exactly valid times of day |
| `Calendar.WholeYear` | circle/lib/time.cpp:229-239 | the months of a year make up its days, leap years included |
| `Calendar.MonthDays` | circle/lib/time.cpp:23-239 | the days into each month in closed form: 59 + (153 * (m - 2) + 2) / 5 from March on, and a leap day |
| `Calendar.NewCentury` | circle/lib/time.cpp:146-169 | 1 January 2000 is a Saturday, 946684800 seconds after 1970 |
| `Calendar.LeapDay` | circle/lib/time.cpp:146-169 | 29 February 2024 is a Thursday, and there is no such day in 2023 |
| `Calendar.LeapDays` | circle/lib/time.cpp:219-227 | the days up to a year in closed form |
| `Calendar.FourCenturies` | circle/lib/time.cpp:219-227 | dates and weekdays repeat every 400 years |
| `NumberText.NumberToText` | circle/lib/string.cpp:627-661 | writes the digits of the number, most significant first, and a NUL; the divisor never overflows the word, of 32 or of 64 bits as in `lltoa` |
| `NumberText.HowLong` | circle/lib/string.cpp:627-661 | the text has one digit for each power of the base up to the number |
| `NumberText.FitsBuffer` | circle/lib/string.cpp:31 | at most 22 digits for 64-bit numbers in bases from 8 on |
| `NumberText.ValueOfDigits` | circle/lib/string.cpp:627-661 | the digits stand for the number, in every base and either case |
| `NumberText.PrintedDigit` | circle/lib/string.cpp:640-657 | the character printed for each power of the base is the digit of the number there: 0 to 9, and from 10 on a letter, upper or lower case as asked for |
| `NumberText.TextToNumber` | circle/lib/util.cpp:392-522 | a number in range is read exactly and to the end of its digits, negated if there is a minus; a run of digits is only ever cut short because it is too large |
| `NumberText.DigitsToNumber` | circle/lib/util.cpp:461-522 | the same for the digits |
| `NumberText.ReadsNumber` | circle/lib/util.cpp:392-459 | blanks, sign and prefix are read as such and give the base, and the digits follow |
| `NumberText.RoundTrip` | circle/lib/util.cpp:392-522 | what has been printed reads as the number and ends in front of its NUL, for every number, base from 2 to 36 and either case, and the same for `lltoa` and `strtoull` |
| `NumberText.PrintThenRead` | circle/lib/util.cpp:392-522 | printing into a buffer and reading the buffer gives the number and the end of its digits |
| `NumberText.RoundTripHex` | circle/lib/util.cpp:427-447 | with 0x in front a hexadecimal number is read back in base 16 and in base 0 |
| `NumberText.DigitsTaken` | circle/lib/util.cpp:461-484 | the characters taken for digits are those printed and, in bases over 10, some of those between 9 and A |

## Left out

- ChunkTree.Document.Insert: chunks and lines are records in maps from identifiers, kept in the fields of one class, instead of objects of their own; what is updated, and in which order, is as in the code, but aliasing of chunk arrays is not modelled.
- ChunkTree.Document.IterN: the visitor decides from the line alone when to stop and changes nothing.
- ChunkTree.Document.UpdateLineHeight: the line is one of the document, as all its callers take care of.
- LineEdit.Replace: an absent `from` counts as 0; the marks, classes and highlighting state of a line are left out, and so are the cached maximal line length and the ranges to be redrawn.
- LineEdit.UpdateLinesNoUndo: the selection that goes with an edit is left out; a range past the end that wraps round to another line than its first makes the root of the tree count wrong, and is modelled on flat lists only (`History.Replaced`).
- Editor.Editor.UnredoHelper: the same; `History.MergeReverts` covers such changes on flat lists.
- Editor.Editor.Undo: one step on the document; that k of them lead back k changes is `History.UndosThenRedos`, about the same steps.
- Editor.Editor.EditTwiceThenUndo: two edits that are merged inexactly, which `History.MergeReverts` covers on flat lists.
- History.QuickEdits: the same.
- History.Undone: a change with an absent line is not undone in the model, and counts as one that does not lead back; the code makes a line without any text of it.
- History.RunFollows: merged edits are covered where the merge is exact, the first condition of `History.MergeReverts`; a change that wraps round is put back by undo, but its inverse does not always redo it.
- KernelTimer.KernelTimers.PollKernelTimers: handlers start timers with delays of at least one tick and below 2^31 - 1, and never cancel the timer that comes next in the queue, which the code does not support; handles are numbers that are not used twice; interrupt handlers other than the timer's and the locks around the list are left out.
- KernelTimer.KernelTimers.InterruptHandler: the same handlers.
- HeapAllocator.Allocator.Allocate: words have 32 bits; on 64-bit builds the header keeps 32 bits of the size only, and blocks from 4 GB on are not modelled; the panic on exhausted memory is the result 0; headers are a map from addresses; the magic numbers of headers and the lock are left out.
- DeviceTreeBlob.DeviceTreeBlob.FindNodeInternal: bytes that are not those of a tree, and the checks of the blob's header.
- DeviceTreeBlob.DeviceTreeBlob.GetPropertyValueWord: addresses have 32 bits; on 64-bit builds an offset that has wrapped in the check reads outside of the value instead.
- TxRing.Device.SendFrame: the copying and padding of a frame, registers, DMA descriptors, and cache maintenance; the controller is a step that consumes any number of buffers handed to it.
- Guard.RunInv: a constructor that waits for its own guard on the same core, and the memory barriers.
- Guard.WaitEnds: that the lock is given back takes the owner to run and its constructors to end; which waiting core gets it first is open.
- SpinLocks.RunInv: locks of a level below that of their user are ruled out, as the code demands, and are released in the opposite order of taking them; exclusive loads and stores are one step, and the limit of 20 nested sections is checked in `CriticalSection` only. Freedom from deadlock between cores is up to the order of locks: with one it is `SpinLocks.WaitEnds`, and without it `SpinLocks.OppositeOrders` is a deadlock.
- SpinLocks.WaitEnds: the steps lead to the end only if the other cores take them, and which waiting core then gets the lock first is open.
- SerialDevice.SerialDevice.WriteByte: the mode with interrupts; the mode without is the class `PolledDevice`, where waiting for the UART takes no time.
- SerialDevice.SerialDevice.Read: the mode with interrupts; the mode without is `PolledDevice.Read`.
- SerialLine.AllArrive: the real-time variant, and the search for a magic string in the input.
- Terminal.StepOk: one depth of pixels, with colors as numbers, and the font as a function of the character; the second font, status texts and changes of size are left out, and offsets into the picture are below 2^32.
- Canvas.Graphics.DrawCircleOutline: when it reports a write outside of the buffer, what has been painted before is left open. Sides of the screen are at most 2^30 pixels and its area at most 2^31.
- Calendar.Time.Set: time is a 64-bit number; of the fields of moments before 1970 it is only said what is read back within the last minute, and that earlier ones are not read back.
- NumberText.TextToNumber: numbers out of range, whose detection is not exact. `strtoull` returns the largest 32-bit number when it detects one on a 32-bit machine, which is why that result is a parameter.
- Number conversion is one method for both widths, with the range of its words as a parameter.
- Rectangles, filled circles, images and text drawn in `2dgraphics.cpp`: easy beside lines and circles.
- The adjustment of selections and marks to edits, incremental highlighting, measuring and patching of the page.
- Other drivers, class and page allocators, loggers and the remaining web pages: scripts of register accesses and user interface.
