# A verified model of a three-terminal teaching kernel

The kernel gives three text terminals to at most six user processes. It switches between processes on timer
interrupts, keeps each terminal's screen while another one is on display, maps memory with mixed 4MB and 4KB
pages, and reads programs and data from a read-only file system. Two of its user programs, `grep` and the
blinking characters of `fish`, carry algorithms of their own. This project models that logic in Dafny and proves
what it promises.

The work is done in three layers.

1. **Code.** What the source does in place is done in place here: `Screens` (printing, scrolling, erasing),
   `Paging.Mmu` (page directory and page tables as words), `Kernel.Kernel` (process flags, control blocks, text
   pages, page tables), `FileSystem` and `Directory` (over bytes), `Grep`, `Blink.BlinkList`,
   `LineBuffer.TermLines`, `CommandLine`, `NumberPrinting`. Each method is proved to bring about a state or a
   result that a specification function names.
2. **Steps.** `Processes` gives each kernel entry as a function on a snapshot of the kernel's state: execute in
   its three outcomes, halt to a parent, halt of a root shell, timer tick, terminal switch to a used and to a new
   terminal, printing, echo, backspace, clear key, open, close, read, vidmap.
3. **Promises.** `Machine` is what the users are promised: three stacks of processes, each with a screen of its
   own, of which only the tops may run. `Refinement` proves that every kernel step does what the machine does, and
   `Background` shows which part of this no request of any program can upset. `Runs` lifts both to any order of
   system calls and interrupts from boot. `Isolation`, `Terminals`, `Halts`, `RoundRobin`, `Arguments` and
   `Descriptors` draw the conclusions. `Image` gives the file system's format byte by byte, and ties it to what open
   and read do.

The main results:

- *Every run of the kernel is a run of the machine* on the side of the processes (`Background.StepKeepsCore`,
  `Runs.RunKeepsCore`, `Runs.BootRefines`, `Runs.RunGoesOn`), whatever the programs ask. So in every state of every
  run from boot the processes of a terminal form one parent chain with a runnable leaf, at most one flag is 1, and
  kernel stack and program window belong to the running process, while the text window shows its own page or, after
  a vidmap, the displayed one (`Runs.EveryReachableState`). If no program asks for vidmap while it is off display,
  kernel and machine agree on the screens as well (`Refinement.StepRefines`, `Runs.RunRefines`), and the text window
  always shows the caller's own page.
- *Three independent screens*: after any run from boot of that kind a terminal, on display or not, shows what a
  machine of its own would show that was sent the same bytes and backspaces since its last clear
  (`Terminals.ScreensAreIndependent`); without backspaces among them, that is the last 25 rows of the 80-column
  layout of the text (`Terminals.ScreensShowTheirText`).
- *Three independent lines*: over any keys, terminal switches and reads, a reader gets the line made by the keys
  pressed while its own terminal was on display since the last read there (`LineBuffer.ReaderGetsItsOwnLine`).
- *Isolation*: whatever the programs ask, user code reaches only its own image, its own terminal's text page and,
  only if some program asked for vidmap off display, the displayed page; the kernel always reaches its own
  (`Isolation.UserReachesOwnPages`, `Isolation.KernelReachesItsPages`).
- *Arguments*: over whole runs `getargs` answers from the line kept last by any execute on any terminal
  (`Arguments.GetargsAnswers`), and from one's own line the round trip of command and argument is exact
  (`Arguments.ExecuteThenGetargs`).
- *Execute returns*: a caller that enters the kernel with some registers and starts a program has, when that program
  halts, the same registers but for the status in eax, and the same descriptors, whatever happened in between
  (`Descriptors.ExecuteReturns`); and throughout every run from boot descriptor 0 of every process reads from its
  terminal and descriptor 1 writes to it (`Descriptors.TerminalIsThere`).
- *Halts are last in, first out over whole runs* (`Halts.HaltReturnsToCaller`), and in every state of every run from
  boot no runnable process waits more than two ticks (`RoundRobin.AtMostTwoTicks`).
- *A failed execute changes nothing* but the line kept for getargs and the text window, and the frame behind that
  window exactly if the program lacks the magic number and the window shows a page other than the caller's own
  (`Halts.FailedExecuteChangesNothing`).
- *Paging*: the processor's walk over the words in memory equals an abstract map after any calls, and stale
  entries stay hidden (`Paging.WalkAfter`, `Paging.StaleEntriesStayHidden`). The entry formats are those of
  section 4.3 of volume 3A of the Intel 64 and IA-32 Software Developer's Manual.
- *Files*: `read_data` returns the slice asked for exactly when the bytes due do not reach a third block
  (`FileSystem.ReadsTheSlice`); any interleaving of reads of at most a block gives a descriptor a contiguous part
  of its file exactly as long as it does not read on at the end of a file that ends on a block boundary
  (`FileSystem.InterleavedReads`). On an image laid out by its format, opening a name and reading gives the bytes of
  the file of that name from its start on (`Image.OpenThenRead`).
- *grep* over a 1024-byte window is proved for every pattern and every state of its buffer (`Grep.DoOneFile`). It
  equals "split into lines, keep those that contain the pattern" exactly when every line that contains it fits the
  window and the pattern can be searched for (`Grep.GrepIsLineFilter`).
- *Blinking*: the list stays well formed over all additions, removals and ticks with locations other than 0, and
  every element shows what its caller asked for by a closed form in the number of ticks (`Blink.BlinkList`,
  `Blink.BlinkClosedForm`).

Where the code falls short of its intent, the model keeps the code and states exactly when the intent is met:

- `fs/fs.c:272` adds the whole count to an offset already moved (`FileSystem.ReadsTheSlice`), so `execute` loads a
  program whole exactly when it is at most 8192 bytes long (`FileSystem.LoadsWholeProgram`).
- `fs/fs.c:266` wraps at the end of a file that ends on a block boundary (`FileSystem.EndOfFile`). No read of such a
  file ever gives 0 (`FileSystem.NeverGivesZero`), so a reader like `grep` that waits for 0 does not end on it.
- `process.c:21` reads one word past the process table from slot 6 (`Kernel.Kernel.GetNextSchedule`).
- `syscall_c.c:272-276` may leave no process with flag 1 (`Halts.ReturnMayLeaveNoneRunning`), and a run that gets
  there is given (`Halts.NoneRunningIsReached`).
- `syscall_c.c:510` gives the displayed page to a caller that is off display (`Refinement.VidmapRefines`); two keys
  lead to such a caller (`Runs.BackgroundProcessRuns`). If that caller then executes a data file, the window is taken
  away from the displayed page again (`Halts.FailedExecuteMovesWindow`).
- `syscall_c.c:93-96` keeps the line for getargs in one buffer for all terminals: a program can be started with an
  argument and find none (`Arguments.ArgumentCanBeLost`).
- `ece391grep.c:33` tests the byte after a full buffer, which is not initialized: a newline there cuts a line
  (`Grep.StaleNewlineCutsALine`), and `Grep.StaleNewlineHarm` says for which files that shows.
- An empty directory is listed without end (`Directory.ListsEveryEntryOnce`, `fs.c:185`).
- `syscall_c.c:145-164` leaves the text window kernel-only when a program without the magic number is refused
  (`Halts.FailedExecuteChangesNothing`).
- `ps2_keyboard.c:243` stores a newline past the end of a full row (`LineBuffer.TermLines.Keypress`).
- `fish.c:164` takes location 0 for a free slot (`Blink.LocationZeroLoops`, `Blink.BlinkList.Add`).
- `fs.c:140` compares a stored unsigned byte with a signed `char`, so a name with a byte of 128 or more is never
  found (`Directory.LookupAgreesWithListing`); `ece391grep.c:43` does the same with the first byte of the pattern
  (`Grep.UnsearchablePrintsNothing`). The compiler of the Makefiles takes plain `char` as signed.
- `blink.S:64-66` treats a length of 0 or above 32768 as one tick (`Blink.LengthsAsGiven`).
- The comment at `ps2_keyboard.c:220` says keys count only while a read is waiting; the test at line 221 compares
  an array's address with 0 and never holds, so here keys always count.

## Model

| member | source | states |
|---|---|---|
| Screens.ScrollDown | student-distrib/lib.c:60-84 | Moving the rows up in place leaves rows 2 to 25 as rows 1 to 24 and the bottom row blank, with the cursor at the bottom left |
| Screens.Putc | student-distrib/lib.c:306-387 | One printed byte, for every cursor position including column 80 and the last row: the cells and cursor of the deferred-wrap rule, whose meaning is `PutCharRenders`; all writes are in bounds |
| Screens.TermDelete | student-distrib/drivers/stdout.c:189-222 | Stepping back, overprinting with 0 and stepping back again clears exactly the cell before the cursor and puts the cursor there; at the origin it does nothing |
| Screens.Clear | student-distrib/lib.c:35-41 | Every character cell becomes 0 |
| Screens.PutCharRenders | student-distrib/lib.c:306-387 | Printing a byte on the picture of a layout gives the picture of the layout with that byte appended |
| Screens.RowsSnoc | student-distrib/lib.c:306-387 | Appending a byte to a text changes its 80-column layout only at the end: a new row for a break or after a full row, else one more byte in the last row |
| Screens.ScreenShowsLastRows | student-distrib/lib.c:306-475 | From a cleared screen, any text leaves the last 25 rows of its layout on screen and the cursor after its last byte; no blank row follows a full one |
| Screens.FeedSplit | student-distrib/lib.c:394-475 | Printing a text in two parts is printing it at once |
| CommandLine.ExtractCommand | student-distrib/syscall/syscall_c.c:98-117 | The scanning loop yields the first word of the text before the NUL, zero-padded to 128 bytes, for every 128-byte line |
| CommandLine.KeepLine | student-distrib/syscall/syscall_c.c:91-96 | All 128 bytes go into the buffer kept for getargs |
| CommandLine.ExtractedText | student-distrib/syscall/syscall_c.c:107-120 | That buffer, read as a C string, is the word |
| CommandLine.FindArgument | student-distrib/syscall/syscall_c.c:432-462 | The flag-driven scan finds where the argument starts and where the NUL is, or that there is none |
| CommandLine.GetArgs | student-distrib/syscall/syscall_c.c:405-488 | Succeeds exactly when the page is present and the kept line has a NUL and an argument that is not empty and fits with its NUL; then the target is the argument zero-padded, else it is untouched |
| CommandLine.CommandLineRoundTrip | student-distrib/syscall/syscall_c.c:98-117 | For any spaces, command, spaces, argument and NUL, the two scanners take the same line apart at the same place, into exactly the command and the argument |
| Paging.Mmu.constructor | student-distrib/page/page_c.c:72-80 | After filling the directory nothing is mapped, whatever the tables held |
| Paging.Mmu.WalkIsLookup | student-distrib/page/page_c.c:190-232 | The processor's walk through directory and table words equals the abstract per-region map, for every address |
| Paging.WalkAfter | student-distrib/page/page_c.c:72-232 | After any sequence of calls from the filled directory on, carried out on the words, the walk reaches for every address what the abstract map of those calls says |
| Paging.CallReaches | student-distrib/page/page_c.c:105-181 | For each of the four calls and each of the 2^32 addresses, what the address reaches afterwards: the new frame and level in the page or region named, a fault where one was freed, frames kept and the user bit cut for sibling pages, and elsewhere what it was |
| Paging.Mmu.FillPageTable | student-distrib/page/page_c.c:89-95 | Clears one table and no other |
| Paging.Mmu.Set4MB | student-distrib/page/page_c.c:105-115 | The abstract map gains one 4MB page with the rounded frame and the user bit for level 3, and is otherwise unchanged |
| Paging.Mmu.Set4KB | student-distrib/page/page_c.c:125-146 | The abstract map gains one 4KB page; its siblings survive unless the region was a 4MB page or free, in which case the stale table is cleared first |
| Paging.Mmu.Free4KB | student-distrib/page/page_c.c:155-165 | The 4KB page is gone from a region that has a table; other regions are unchanged |
| Paging.Mmu.Free4MB | student-distrib/page/page_c.c:175-181 | The whole region is gone |
| Paging.Mmu.PagePresent | student-distrib/page/page_c.c:190-204 | True exactly when the abstract map does not fault |
| Paging.Mmu.PageUser | student-distrib/page/page_c.c:214-232 | True exactly when the abstract map lets user code through |
| Paging.BigWord | student-distrib/page/page_c.c:105-115 | The flag bits and frame read back out of a 4MB entry are those put in |
| Paging.SmallWord | student-distrib/page/page_c.c:125-146 | The flag bits and frame read back out of a 4KB entry or table pointer are those put in |
| Paging.SiblingsKeepFrames | student-distrib/page/page_c.c:105-181 | Through any sequence of calls that spare a 4KB page and its region, the page keeps its frame, and the last 4KB level used in the region governs its user bit |
| Paging.StaleEntriesStayHidden | student-distrib/page/page_c.c:105-181 | After a region is mapped or freed as a whole, no later sequence of calls makes an earlier 4KB entry visible again |
| Refinement.FreeSlotChoice | student-distrib/syscall/syscall_c.c:56-67 | In every state between steps the slot execute takes is the lowest of 4 to 6 on no stack, or none |
| Refinement.NextReadyIsNearest | student-distrib/process/process.c:18-33 | The scheduler's choice is the ready slot least far after the current one modulo 7, never 0, and -1 exactly when no other slot is ready |
| Refinement.TickChoice | student-distrib/process/process.c:18-33 | With the chain invariant that choice is the top process of another terminal, the nearer of the two |
| Refinement.LaunchedExactly | student-distrib/syscall/syscall_c.c:82-165 | Execute loads exactly a data file of 24 bytes or more for which there are a slot, a page and a descriptor; of a file that can be read it starts exactly those with the magic number, whatever the memory held before, and of one that cannot, only what the memory held counts |
| Refinement.ExecuteOutcomes | student-distrib/syscall/syscall_c.c:82-165 | In every state between steps execute starts a program exactly when the machine does: a slot on no stack, a closed descriptor, and a data file of 24 bytes or more that has the magic number, or cannot be read and finds it in memory |
| Refinement.LaunchRefines | student-distrib/syscall/syscall_c.c:136-226 | Starting a program pushes it on the caller's terminal: flags, links, descriptors, kernel stack and windows all agree |
| Refinement.RejectRefines | student-distrib/syscall/syscall_c.c:136-165 | A program without the magic number leaves processes, screens and windows as the machine has them |
| Refinement.ExecuteRefines | student-distrib/syscall/syscall_c.c:76-232 | Execute, in every outcome, does what the machine's execute does |
| Refinement.ShellRefines | student-distrib/syscall/syscall_c.c:141-189 | A shell started from slot 0 for terminal t takes exactly slot t+1 and leaves the other terminals' processes ready or held |
| Refinement.ReturnRefines | student-distrib/syscall/syscall_c.c:266-301 | Halting to a parent pops the stack; the text window needs no remapping because parent and child share a terminal |
| Refinement.RestartRefines | student-distrib/syscall/syscall_c.c:283-291 | A halting root shell is replaced in its own slot on its own terminal |
| Refinement.HaltRefines | student-distrib/syscall/syscall_c.c:252-309 | Halt does what the machine's halt does |
| Refinement.TickRefines | student-distrib/process/process.c:76-105 | A tick hands the processor to the machine's next process with its own stack, image and text page |
| Refinement.SwitchRefines | student-distrib/drivers/stdout.c:270-317 | Switching terminals, with or without a shell there, changes what the machine's switch changes and no more |
| Refinement.WindowShowsCaller | student-distrib/process/process.c:97-101 | The text window always shows the running process's own screen, wherever that is kept |
| Refinement.DrawnScreens | student-distrib/lib.c:306-387 | A write to the page behind one terminal's text changes that terminal's screen and no other |
| Refinement.VidmapRefines | student-distrib/syscall/syscall_c.c:498-515 | Vidmap keeps the promises exactly when the caller's terminal is on display |
| Refinement.StepRefines | student-distrib/syscall/syscall_c.c:76-309 | Every kernel step from every state that agrees with the machine leads to a state that agrees with the machine's next one |
| Machine.NextOk | student-distrib/syscall/syscall_c.c:76-309 | Every machine step keeps the stacks duplicate-free, rooted in their own slots, and the screens valid |
| Machine.PlacePushed | student-distrib/syscall/syscall_c.c:168-192 | Starting a program moves no other process |
| Machine.PlacePopped | student-distrib/syscall/syscall_c.c:255-276 | A halt moves no other process |
| Runs.HistoryExists | student-distrib/syscall/syscall_c.c:76-309 | For any events the machine has a history that stays in order |
| Background.StepAlike | student-distrib/syscall/syscall_c.c:76-309 | Two states that differ only in text pages and in mappings other than the program window still do so after any step |
| Background.StepKeepsCore | student-distrib/syscall/syscall_c.c:76-515 | Every step from every state that agrees with the machine on flags, links, descriptors, kernel stack and program window, whatever the text window shows, keeps that agreement; vidmap included |
| Background.StepKeepsWindow | student-distrib/syscall/syscall_c.c:505-511 | Every step keeps the text window on the running process's own text page or on the displayed page |
| Runs.RunKeepsCore | student-distrib/syscall/syscall_c.c:76-515 | Whole-run simulation for any requests: kernel run and machine history agree on processes, kernel stack and program window in every state |
| Runs.RunRefines | student-distrib/syscall/syscall_c.c:76-309 | In a run in which vidmap is asked for only on display, they agree on text window and screens as well |
| Runs.RunGoesOn | student-distrib/syscall/syscall_c.c:76-309 | No state of a run is stuck; every event, an unwelcome vidmap included, has its step |
| Runs.BootRefines | student-distrib/process/process.c:42-67 | From the state after page, process and terminal setup the first shell takes slot 1 and terminal 0; control blocks of unused slots and the bytes after the shell's name may be anything |
| Runs.ChainsHold | student-distrib/syscall/syscall_c.c:141-189 | One parent chain per started terminal, chains disjoint and covering every slot in use, only leaves runnable, slots 1 to 3 never free, at most one flag 1 and then on the current process, which is a leaf |
| Runs.ContextHolds | student-distrib/process/process.c:87-101 | Kernel stack and the 128MB window are those of the running process |
| Runs.EveryReachableState | student-distrib/syscall/syscall_c.c:136-301 | In every state of every run from boot, whatever the programs ask, three such chains exist; for process p kernel stack and 128MB window are at 8MB - 8KB p and 8MB + 4MB p, and the 132MB window shows its own text page, video memory or one of three pages from 36MB on, or the displayed page; always its own if vidmap was asked for only on display |
| Runs.BackgroundProcessRuns | student-distrib/drivers/stdout.c:270-317 | Opening a second terminal and showing the first again is a run from boot after which vidmap breaks the promise |
| Isolation.UserReachesOwnPages | student-distrib/page/page_c.c:242-256 | In every state of every run from boot, an address user code can use leads into its own image, its own terminal's text page, or the displayed page, and the last only if some vidmap call was made off display |
| Isolation.KernelReachesItsPages | student-distrib/drivers/stdout.c:153-168 | In every state of every run from boot the kernel finds its code, stacks and page tables, video memory and the dump pages at their own addresses, mapped for the kernel only |
| Isolation.StepInOrder | student-distrib/syscall/syscall_c.c:136-152 | No step maps anything for user code outside the two windows or takes a mapping away from the kernel |
| Isolation.TextWindowAfter | student-distrib/process/process.c:97-101 | What each kernel step does to each of the 4096 addresses of the text window: vidmap opens video memory to user code, a tick to another process and a switch to a terminal in use open the running process's own text page to it, an execute that loads and a shell the kernel starts map it for the kernel only, and no other step changes anything |
| Terminals.ScreensAreIndependent | student-distrib/drivers/stdout.c:270-317 | After any run from boot in which vidmap is asked for only on display, each started terminal's logical screen is that of a separate screen to which exactly what this terminal was sent since its last clear was done, bytes and backspaces |
| Terminals.OpsHold | student-distrib/lib.c:306-475 | The induction over runs behind it, terminal by terminal |
| Terminals.ScreensShowTheirText | student-distrib/lib.c:306-475 | As long as no backspace is among what it was sent, the terminal shows the last 25 rows of the layout of that text |
| Terminals.BackspacesGoToTheDisplay | student-distrib/drivers/ps2_keyboard.c:228-233 | Only a backspace typed while the terminal itself is on display is among what it was sent |
| Terminals.SwitchKeepsScreens | student-distrib/drivers/stdout.c:284-298 | Showing a terminal in use moves the pages and changes none of the three logical screens |
| Halts.WaitsThroughout | student-distrib/syscall/syscall_c.c:168-169 | A process blocked in execute stays where it is, with registers and descriptors untouched, through any run in which its child does not halt |
| Halts.HaltReturnsToCaller | student-distrib/syscall/syscall_c.c:252-309 | When the child halts at last, the very process that started it resumes with the status in eax and all else as it was, however much happened between |
| Halts.ReturnMayLeaveNoneRunning | student-distrib/syscall/syscall_c.c:270-277 | After a return to a parent, some process carries flag 1 exactly when the parent's terminal is on display |
| Halts.FlagOneAfter | student-distrib/syscall/syscall_c.c:168-192 | After each kernel step the current process carries flag 1 exactly if the step started a program or a shell or changed the process by a tick, returned to a parent whose terminal is on display, or left alone a process that carried it |
| Halts.NoneRunningIsReached | student-distrib/syscall/syscall_c.c:270-277 | A run from boot of three keys and calls and a halt ends with flag 1 on no process |
| Halts.FailedExecuteChangesNothing | student-distrib/syscall/syscall_c.c:82-165 | In every state of every run from boot, an execute that returns -1 leaves flags, links, descriptors, esp0, screens and all mappings but the text window as they were; the line is kept for getargs exactly when a slot was free and the page present; the map is unchanged if it was refused before loading, and otherwise shows the caller's own text page to the kernel only; so the frame behind 132MB is unchanged if and only if it was refused before loading or was the caller's own page |
| Halts.FailedExecuteMovesWindow | student-distrib/syscall/syscall_c.c:145-164 | A run from boot in which a failed execute changes the frame behind 132MB: two keys, vidmap off display, and a data file |
| RoundRobin.TurnComes | student-distrib/process/process.c:18-33 | With k processes taking turns, each runs within k-1 ticks, after exactly as many ticks as there are processes on the way to it |
| RoundRobin.AtMostTwoTicks | student-distrib/process/process.c:76-105 | In every state of every run from boot a runnable process waits at most two ticks |
| Descriptors.TerminalIsThere | student-distrib/syscall/syscall_c.c:212-224 | In every state of every run from boot, descriptor 0 of every process in use reads from its terminal and descriptor 1 writes to it |
| Descriptors.ExecuteReturns | student-distrib/syscall/syscall_c.c:252-309 | A process that enters the kernel with some registers and starts a program resumes, when that program halts after any run, with those registers but for the status in eax, and with its descriptors |
| Isolation.StackAddressFindsPcb | student-distrib/process/process.h:32-36 | Clearing the low 13 bits of any address on a process's kernel stack gives its control block |
| Isolation.MemoryIsDisjoint | student-distrib/syscall/syscall_c.c:136-209 | Images, kernel stacks, page tables, dump pages and video memory do not overlap |
| Arguments.StepKeeps | student-distrib/syscall/syscall_c.c:91-96 | Which steps put which line into the buffer kept for getargs: an execute that finds a slot and its page, whatever becomes of it, and every shell the kernel starts, with whatever bytes follow its name in the kernel |
| Arguments.BufferIsLastKept | student-distrib/syscall/syscall_c.c:91-96 | In any run the buffer holds the line of the last such step |
| Arguments.GetargsAnswers | student-distrib/syscall/syscall_c.c:405-488 | A program that asks for its argument at any later state gets the answer of the line kept last, its own if none was kept since; the buffer holds its own line if and only if the last line kept was equal |
| Arguments.ExecuteThenGetargs | student-distrib/syscall/syscall_c.c:405-488 | Over any run in which no line was kept since, execute takes exactly the command and getargs exactly the argument from the line |
| Arguments.NewShellTakesTheBuffer | student-distrib/drivers/stdout.c:300-313 | After a terminal is opened or a root shell restarted, no program finds an argument |
| Arguments.ArgumentCanBeLost | student-distrib/syscall/syscall.h:46 | For every line that names the shell and has an argument, a run from boot in which the program is started with its line kept and then finds no argument |
| Kernel.Kernel.constructor | student-distrib/kernel.c:166-212 | After page, process and terminal setup the state is the boot state with the first shell started, whatever unused memory holds |
| Kernel.Kernel.SetupPage | student-distrib/page/page_c.c:242-256 | Exactly the kernel's own 4MB page, the page tables and video memory are mapped, all kernel-only |
| Kernel.Kernel.MapDumps | student-distrib/drivers/stdout.c:162 | The dump pages of the three terminals are mapped to themselves for the kernel |
| Kernel.Kernel.InitProcess | student-distrib/process/process.c:42-49 | All slots are free but slot 0 |
| Kernel.Kernel.GetFreePid | student-distrib/syscall/syscall_c.c:56-67 | The lowest free slot, or -1 when all are taken |
| Kernel.Kernel.GetNextSchedule | student-distrib/process/process.c:18-33 | Terminates with the nearest ready slot in cyclic order, or -1, unless the current slot is the last one and the word past the table reads 2, and exactly then not |
| Kernel.Kernel.OpenAs | student-distrib/fs/fs.c:297-327 | If the name has the type asked for, the lowest closed descriptor from 2 on becomes the file's, at its start: the clock, the directory, or data on the entry's inode; else, or if none is closed, -1 and nothing changes |
| Kernel.Kernel.SystemOpen | student-distrib/syscall/syscall_c.c:318-338 | The same for a name in user memory, with the presence of its page as the walk over the page tables says; -1 exactly without page, known name and type, or closed descriptor |
| Kernel.Kernel.OpenPresent | student-distrib/syscall/syscall_c.c:324-338 | So it is whatever type a failed lookup leaves over |
| Kernel.Kernel.MoveOn | student-distrib/fs/fs.c:336-460 | A read through a data file or the directory moves the position of that descriptor of the running process modulo 2^32, by a negative answer too, and no other |
| Kernel.Kernel.SaveContext | student-distrib/syscall/syscall_c.c:33 | Every entry from user code records the registers in the running process's control block and changes nothing else |
| Kernel.Kernel.SystemClose | student-distrib/syscall/syscall_c.c:385-394 | Gives 0 and closes exactly an open descriptor from 2 to 7, else -1, and changes nothing else |
| Kernel.Kernel.OpenProgram | student-distrib/syscall/syscall_c.c:119-133 | Every refusal before loading gives back the state of before; otherwise closing the descriptor would |
| Kernel.Kernel.SystemExecute | student-distrib/syscall/syscall_c.c:76-232 | Gives 0 exactly when the program can be started, with the presence of the line's page as the walk over the page tables says |
| Kernel.Kernel.Execute | student-distrib/syscall/syscall_c.c:82-232 | Gives 0 exactly for a data file of 24 bytes or more with slot, page and descriptor, and with the magic number, which is the file's own if it can be read; the line is kept exactly when a slot was free and the page present; the new state is that of the execute step for the line's first word |
| Kernel.Kernel.MarkChild | student-distrib/syscall/syscall_c.c:168-192 | The flags after the marking loop are those of the launch step, for any flags before |
| Kernel.Kernel.SystemHalt | student-distrib/syscall/syscall_c.c:252-309 | The state after halt is that of the halt step, for both kinds of parent |
| Kernel.Kernel.CloseOpenFiles | student-distrib/syscall/syscall_c.c:259-264 | Exactly descriptors 2 to 7 are closed |
| Kernel.Kernel.Schedule | student-distrib/process/process.c:76-105 | The state after a tick is that of the tick step |
| Kernel.Kernel.TermSwitch | student-distrib/drivers/stdout.c:270-317 | The state after a switch is that of the switch step, for any argument |
| Kernel.Kernel.ExchangePages | student-distrib/drivers/stdout.c:279-298 | The text on display goes to its own dump page and the other terminal's dump comes on display, byte for byte |
| Kernel.Kernel.PutcCurrent | student-distrib/lib.c:306-387 | A byte printed by the running process lands on the page the processor finds behind the text window, at its terminal's cursor |
| Kernel.Kernel.KbdPutc | student-distrib/lib.c:394-475 | A byte echoed by the keyboard lands on the displayed screen |
| Kernel.Kernel.EraseKey | student-distrib/drivers/stdout.c:189-222 | A backspace clears the cell before the displayed cursor |
| Kernel.Kernel.ClearKey | student-distrib/drivers/ps2_keyboard.c:207-216 | The clear key blanks the displayed screen and sends its cursor to the origin |
| Kernel.Kernel.SystemVidmap | student-distrib/syscall/syscall_c.c:498-515 | Refuses exactly the addresses user code cannot reach, and otherwise stores the window's address, and the processor's walk then takes user code from each of its 4096 addresses to its place in video memory |
| Kernel.Kernel.SystemGetargs | student-distrib/syscall/syscall_c.c:405-488 | Answers from the kept line, exactly when the page is present and the argument is there and fits; nothing of the kernel changes |
| FileSystem.ReadData | student-distrib/fs/fs.c:222-288 | Fails exactly on a bad inode, an empty file or a bad block number; otherwise it fills the buffer with the bytes at the positions of its loop, through the block list behind the size, and touches nothing beyond |
| FileSystem.BlocksSane | student-distrib/fs/fs.c:247-252 | True exactly when every block number the loop checks is in range |
| FileSystem.ReadsTheSlice | student-distrib/fs/fs.c:261-287 | Below the end of the file, the positions read are those of the slice asked for if and only if their number is at most 8192 - offset % 4096 |
| FileSystem.LoadsWholeProgram | student-distrib/syscall/syscall_c.c:155-156 | One read of a whole file takes every byte from its place exactly when the file is at most 8192 bytes long |
| FileSystem.EndOfFile | student-distrib/fs/fs.c:264-267 | At the end of the file a read gives 0 exactly when the size is no multiple of 4096 |
| FileSystem.NeverGivesZero | student-distrib/fs/fs.c:264-267 | On a file that ends on a block boundary no non-empty read from any position ever gives 0 |
| FileSystem.OpenFiles.DataRead | student-distrib/fs/fs.c:336-349 | Moves the descriptor by what was read, even when that is -1, and no other descriptor |
| FileSystem.OneRead | student-distrib/fs/fs.c:336-349 | A read of at most a block from inside a readable file gives the next slice and moves past it, if and only if it is not a non-empty read at the end of a file that ends on a block boundary |
| FileSystem.InterleavedReads | student-distrib/fs/fs.c:336-349 | Under any interleaving of reads of at most a block over any descriptors, a descriptor has been given exactly the bytes of its file between where it started and where it stands, if and only if it never made such a read |
| Image.ContentIsFile | student-distrib/fs/fs.c:222-285 | In an image laid out byte by byte, with counts at 0, 4 and 8, sizes and block numbers in the inodes and data behind them, what the read loop takes for a file is that file |
| Image.ReadableExactly | student-distrib/fs/fs.c:225-252 | A file of such an image can be read exactly when it is not empty and, if it ends on a block boundary, the word behind its block list happens to be a block number |
| Image.ReadsTheFile | student-distrib/fs/fs.c:336-349 | A read of at most a block at any position gives those bytes of the file and moves past them, but for a non-empty read at the end of a file that ends on a block boundary |
| Image.EntryIsDentry | student-distrib/fs/fs.c:153-213 | Name, type and inode found in an entry are those laid out at bytes 0, 32 and 36 of its 64 |
| Image.TableIsDisk | student-distrib/fs/fs.c:93-174 | Of a name the file table says what such an image says of its first entry: type, inode, size, and whether the file starts with the magic number |
| Image.TableHasDiskNames | student-distrib/fs/fs.c:93-174 | It has exactly the names of entries that have only bytes below 128 |
| Image.ListingIsDisk | student-distrib/fs/fs.c:430-460 | Listing such an image's directory gives the names of its entries, once each and in order |
| Image.OpenFindsFile | student-distrib/fs/fs.c:297-327 | Opening the name of a data file of such an image makes the lowest closed descriptor one on that file's inode, at its start |
| Image.OpenThenRead | student-distrib/fs/fs.c:297-349 | Open and then any reads of at most a block, with others between: the program has the file's bytes from its start to where the descriptor stands, exactly as long as no read goes on at the end of a file that ends on a block boundary |
| Image.MovesAlike | student-distrib/fs/fs.c:346 | The kernel's descriptor moves as the file system's does |
| Directory.ReadDentryByName | student-distrib/fs/fs.c:93-174 | Found exactly when the argument has only bytes below 128 and some name cut at 32 bytes equals it, and then the first such entry; longer names are never found |
| Directory.StoredLength | student-distrib/fs/fs.c:116-125 | The scan for the end of a stored name gives its length, cut back to 32 |
| Directory.SameName | student-distrib/fs/fs.c:133-149 | The comparison loop, which steps its pointer back at the argument's end, holds exactly for equal names of bytes below 128 |
| Directory.ReadDentryByIndex | student-distrib/fs/fs.c:183-213 | The byte loop hands out the name of exactly the entry asked for, with its type and inode; an index is refused exactly past the last entry, and never when the directory says it has none |
| Directory.DirRead | student-distrib/fs/fs.c:430-460 | Up to 32 name bytes of the entry at the position, one entry further; 0 and no move past the last |
| Directory.ListsEveryEntryOnce | student-distrib/fs/fs.c:430-460 | Any number of calls lists the entries once each in index order and then no more; a directory that says it has none gives something on every call |
| Directory.LookupAgreesWithListing | student-distrib/fs/fs.c:93-174 | Looking up a listed name gives back that entry exactly when the name has only bytes below 128 and no earlier entry has it |
| Directory.DentryNameIsName | student-distrib/fs/fs.c:153-164 | The 33 bytes handed out are the entry's name as a C string |
| Directory.TableAgreesWithLookup | student-distrib/fs/fs.c:93-174 | The name table the process model works with holds exactly the names lookup finds, each with the entry lookup gives |
| Grep.Strncmp | syscalls/ece391support.c:35-46 | Zero exactly when the pattern starts there, without reading past the line's NUL |
| Grep.SearchLine | syscalls/ece391grep.c:42-51 | True exactly when the pattern is not empty, starts with a byte below 128 and occurs in the line |
| Grep.CopyDown | syscalls/ece391support.c:14-17 | The overlapping copy moves the text to the front of the buffer unharmed |
| Grep.CarryOver | syscalls/ece391grep.c:33-39 | The unfinished line is moved to the front and the byte after the buffer keeps its value or becomes 0 |
| Grep.ScanBuffer | syscalls/ece391grep.c:28-57 | For any bytes after the text, what one pass reports, followed by what is due on what it keeps, is what was due before |
| Grep.Read | student-distrib/fs/fs.c:336-349 | The read loop of the file system, on a file that does not end on a block boundary, gives what is asked for and left |
| Grep.DoOneFile | syscalls/ece391grep.c:10-60 | For every pattern, every buffer and every readable file without NUL that does not end on a block boundary it ends and prints exactly the lines that match, long ones in pieces of 1024 bytes, once each and in order; only a newline in the byte after the buffer matters, as `Heard` says; -1 exactly for a file that does not open or cannot be read |
| Grep.StaleNewlineCutsALine | syscalls/ece391grep.c:33-41 | With a newline in the byte after the buffer a line is printed cut in two |
| Grep.StaleNewlineHarm | syscalls/ece391grep.c:33-41 | For every file without NUL, a newline in the byte after the buffer changes nothing for any pattern if and only if, in the first full buffer that does not end in a newline, no line begins behind its start, or nothing follows of the line it cuts, or that line has only bytes of 128 and more |
| Grep.DueJoin | syscalls/ece391grep.c:28-52 | What is due of a file is due of the two parts on each side of any newline |
| Grep.LinesRoundTrip | syscalls/ece391grep.c:28-52 | The lines of a file have no newline in them and give the file back when put together with newlines |
| Grep.PiecesRoundTrip | syscalls/ece391grep.c:33-41 | The pieces of a line are all of it in order, 1024 bytes each and the last shorter |
| Grep.GrepIsLineFilter | syscalls/ece391grep.c:20-60 | For each pattern and file this equals keeping the lines that contain the pattern, if and only if every such line is at most 1024 bytes long and the pattern, if any line contains it, starts with a byte below 128 |
| Grep.UnsearchablePrintsNothing | syscalls/ece391grep.c:43-44 | For an empty pattern, or one that starts with a byte of 128 or more, nothing is ever printed |
| Grep.DueLine | syscalls/ece391grep.c:28-52 | A terminated line at the front of the text is matched by itself and the rest by itself |
| Grep.DuePiece | syscalls/ece391grep.c:33-41 | A full buffer without a newline is matched as a piece of its line |
| LineBuffer.ReaderGetsItsOwnLine | student-distrib/drivers/stdin.c:80-128 | Over any keys, backspaces, switches and reads in any order, a read at a terminal waits exactly while no newline is among the keys pressed while that terminal was on display since its last answered read; then it gets the line these keys make by themselves, or as much as it asked for: its bytes, their number, and zeros behind them |
| LineBuffer.TextComesThrough | student-distrib/drivers/ps2_keyboard.c:239-257 | A text typed there and ended by enter reaches the reader, its first 127 bytes and the newline, with their number and zeros behind them, whatever was done at the other terminals in between |
| LineBuffer.TermLines.Keypress | student-distrib/drivers/ps2_keyboard.c:239-257 | A key does to line and screen what the line discipline says, and to the other lines nothing; the buffers stay in order exactly unless a newline arrives with 128 bytes there, and then it is found at the start of the next terminal's row |
| LineBuffer.TermLines.Backspace | student-distrib/drivers/stdout.c:189-228 | The last byte of the displayed terminal's line goes and the screen steps back; an empty line is left alone, and so are the other lines |
| LineBuffer.TermLines.SwitchTo | student-distrib/drivers/stdout.c:281-290 | The keyboard goes to the terminal shown and its page and cursor come into view; no line changes |
| LineBuffer.TermLines.ClearBuf | student-distrib/drivers/ps2_keyboard.c:146-159 | The terminal's line is empty and the others are what they were |
| LineBuffer.TermLines.StdinRead | student-distrib/drivers/stdin.c:59-128 | The count is the smaller of line length and bytes asked for, that many bytes are the line's and the rest asked for are zero; the line and its enter flag are gone, the other terminals' are not |
| LineBuffer.LineKeepsFirst127 | student-distrib/drivers/ps2_keyboard.c:243-247 | Of whatever is typed on an empty line before a newline the first 127 bytes are kept, and the newline always gets in |
| LineBuffer.BackspacesUndoTyping | student-distrib/drivers/stdout.c:189-228 | k characters that fit and k backspaces give back the line, and give back screen and linear cursor across row ends exactly when nothing scrolled and the cells were blank |
| LineBuffer.TypingIsLinear | student-distrib/lib.c:394-475 | Without scrolling, a text fills consecutive cells from the linear cursor on |
| LineBuffer.ErasingIsLinear | student-distrib/drivers/stdout.c:204-222 | k backspaces blank the k cells before the linear cursor and move it back by k, stopping at the origin |
| NumberPrinting.Itoa | student-distrib/lib.c:482-511 | The buffer holds the digits of the value, ended by NUL, at the place given; nothing else changes |
| NumberPrinting.Backwards | student-distrib/lib.c:499-504 | The division loop leaves the digits in reverse order |
| NumberPrinting.Strrev | student-distrib/lib.c:518-531 | The string at the place is reversed in place and nothing else changes |
| NumberPrinting.Strlen | student-distrib/lib.c:537-542 | The length of the string at a place of a buffer |
| NumberPrinting.DigitsRoundTrip | student-distrib/lib.c:482-511 | Reading the digits back gives the value, for every radix from 2 to 36; no leading zero, and no more digits than needed |
| NumberPrinting.TextRoundTrip | student-distrib/lib.c:482-511 | Every digit text without a leading zero is what its value prints as |
| NumberPrinting.LengthOfDigits | student-distrib/lib.c:482-511 | A value takes at most k digits exactly when it is below the k-th power of the radix |
| NumberPrinting.WordDigits | student-distrib/lib.c:210-227 | A 32-bit value takes at most 32 digits, and 8 in hexadecimal |
| NumberPrinting.PrintHex | student-distrib/lib.c:217-227 | The `%#x` form is always exactly 8 digits that read back as the value |
| NumberPrinting.PrintSigned | student-distrib/lib.c:243-256 | The `%d` form reads back as the value, the least 32-bit integer included |
| Blink.BlinkClosedForm | fish/blink.S:49-99 | n ticks after it was added, an element shows its on-character exactly when n modulo its period falls into the on part, and its countdown says how much of that part is left; for all lengths |
| Blink.LengthsAsGiven | fish/blink.S:64-66 | The element follows its lengths as given exactly when both lie in 1 to 32768 |
| Blink.EnteredKeeps | fish/blink.S:135-162 | Putting an element in front keeps the list acyclic and duplicate-free; free slots are those off the list exactly when the location is not 0 |
| Blink.LocationZeroLoops | fish/fish.c:160-170 | After an element with location 0, the next one is put into the same slot and the list never ends |
| Blink.BypassedKeeps | fish/blink.S:196-218 | Unlinking an element keeps the list with every other element as its caller asked, and frees exactly its slot |
| Blink.TickedKeeps | fish/blink.S:49-99 | A tick of every element keeps the list and every element in phase |
| Blink.PokedShows | fish/blink.S:68-86 | With distinct locations the cells after a tick are those the elements show |
| Blink.BlinkList.CellFollowsClock | fish/blink.S:49-99 | The screen cell of an element alone at its location follows the closed form in the characters and lengths its caller gave |
| Blink.BlinkList.Malloc | fish/fish.c:160-170 | The first slot with location 0, or none |
| Blink.BlinkList.Add | fish/blink.S:105-184 | Fails exactly for a location off the screen or a full pool; otherwise the element is first on the list, lit, and as the caller asked, and the invariant, which says so of every element from then on, survives exactly when its location is not 0 |
| Blink.BlinkList.AddAndTick | fish/blink.S:49-184 | Added and then ticked n times, an element alone at its location shows the caller's on-character if n modulo the two lengths the caller gave falls into the first, else the off-character |
| Blink.BlinkList.Find | fish/blink.S:351-379 | The first element on the list at the location, or none |
| Blink.BlinkList.Remove | fish/blink.S:187-237 | Unlinks the first element at the location and only that one, and wipes its slot; -1 exactly when there is none |
| Blink.BlinkList.Unlink | fish/blink.S:206-217 | The search for the pointer to the element ends, at the head or at its predecessor, and that pointer passes it by |
| Blink.BlinkList.Tick | fish/blink.S:49-99 | Every element ticks once, in list order, and the cells are those the elements wrote |

## Left out

- Port I/O, interrupt controllers, timer and clock registers, VGA cursor registers and TLB flushes: hardware effects without state here. A tick is a step that may come at any time.
- Stack switches, `iret` and register saving in assembly: the running process is the 8KB block of the stack pointer, and its saved registers are eax and one token.
- Busy waiting in `stdin_read` and `rtc_read`: `StdinRead` starts when the enter flag is up, and a `Read` before that changes nothing; nothing is claimed about time.
- Interrupts in the middle of printing a character: one character is one step.
- Attribute bytes of the screen (`lib.c:112` writes one to the wrong address), bytes 4000 to 4095 of a text page, and what programs write through vidmap themselves.
- Refinement.StepRefines: a caller off display does not ask for vidmap; `VidmapRefines` says that this is exactly the case that breaks the promise. `Background.StepKeepsCore` is without that condition.
- Terminals.ScreensAreIndependent: only for runs without such a request, after which what the caller prints lands on the displayed screen.
- Kernel.Kernel.Schedule: the word past the process table does not read 2 when slot 6 runs; `GetNextSchedule` says that this is exactly the case that goes wrong.
- Runs.RunRefines: the shell program is assumed to load. The single calls are modelled without that, up to the failed execute; what the source does next, with the null parent or on the stack it has left, is not.
- Kernel.Kernel.SystemExecute: what a page held before is a parameter, and the file table is a map, which `TableAgreesWithLookup` connects with the image. Of the program's bytes only the magic number counts.
- Kernel.Kernel.MoveOn: how far the file system moved is a parameter, which `FileSystem` and `Directory` give and `Image.MovesAlike` puts in; the bytes read are not part of the kernel's state.
- Stale fields of closed descriptors: a closed descriptor has no content here.
- Grep.DoOneFile: files without NUL bytes; on a file that ends on a block boundary the program does not end, see `NeverGivesZero`.
- Directory.ReadDentryByName: some byte from each entry on is zero, so that the scan for the end of a name ends.
- LineBuffer.TermLines.Keypress: once a newline has been stored past the end of a row nothing more is claimed; for terminal 2 that byte lies outside the buffers.
- Blink: the sync call (whose conditional move at `blink.S:281-282` is never taken) and the copy-out of the find call.
- The line buffers and the kernel state are separate models; they meet in the step functions of `Screens`, and a switch of the lines takes the page that comes on display as a parameter.
- Interrupt table, exception messages, boot parsing, scancode tables, the other printf forms, `add_frames`, the Linux emulation layer and the small user programs: straight-line code or finite case tables.
