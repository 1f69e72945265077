# A model of the event tracer, in Dafny

The repository's run-time library logs what a program does while it runs. This project models
that logging, from the words that threads and signal handlers put on rings to the records that
a reader finds in the trace file, and proves that nothing is lost, repeated, reordered or read
under the wrong thread or signal depth; or, where the code lets that happen, shows how, and proves
exactly when. It also models the self-contained algorithms around it
that have hard contracts. Line numbers below and in the comments are those of the repository.

Verify everything with `dafny verify dfyconfig.toml`.

## The event forest

Each thread logs to a ring, and so does each run of a signal handler. A ring also keeps a short
list of interruptions: where it was interrupted, and which words of which other ring belong to
the handler that interrupted it. The serializer walks this forest in program order, writes as
much as a fixed number of I/O vectors can point at, and then replays the same walk to give the
slots back; producers go on logging all the while.

- `EventTree` is the heart of it. A thread, or one run of a handler, is a `Bracket`: a stretch of
  one ring, cut by the brackets of the handlers that interrupted it. `Emit` is what the get pass
  returns for a bracket, `Left` what the discard pass leaves of one, which may have grown
  meanwhile. `Conservation` says that what is emitted, read back, followed by what is left, is the
  whole, for every tree, every growth and every number of vectors.
- `Plans` says how far a get pass gets without the pass itself: whether it takes anything, how many of the
  chunks that it meets, and that no vector is idle.
- `Arcs` proves that the case analysis on ring indices compares positions.
- `EventLog` says how rings hold a tree: an in-order walk finds each word and each interruption
  exactly where it has got to on their ring. It proves what the passes over a tree keep. `Walks` says
  what a walk depends on, and that there is one tree at most.
- `Serializer` has the rings as the program keeps them, with indices that wrap and
  interruptions in slots, and the passes as methods on them: `GetIovs`, `DiscardIovs`,
  `DropEmpties`, `FlushToFd` and the serializer's loop, `Serialize`. Each is proved to do what
  `EventTree` says.
- `TraceFile` is the reader's view of the file: a current thread and depth, changed by `switch`
  and `sigdepth` records.
- `Producers` has what the steps of threads and handlers do to a tree: a put, an interruption
  recorded, an interruption closed, a ring taken over. Each keeps the tree laid out on its rings and
  only lets it grow.
- `Threads` has the steps themselves. A handler makes its ring the current one before it records its
  interruption (llvm/ngrt/rvpsignal.c:368-370); a signal in between interrupts a ring that is not in
  the tree yet. So a thread is a tree and the brackets that hang after it, and the record joins what
  hangs to the tree.
- `Tracer` puts the two sides together. A `Session` has the rings, the file, and a serializer that
  may be anywhere in a flush; `Produce`, `BeginFlush`, `WriteOut` and `EndFlush` may be called in
  any order that a flush allows, which is to say that producers may do anything between the drop
  and get passes, the write and the discard pass. `ReaderSees` says what a reader of the file
  finds, in every state that can be reached: of each thread a first part of what it has logged,
  and between flushes all of it exactly if no word of it is left; `Drain` is the flushes of one thread until there is
  nothing to write, and says exactly when they show all that the thread has logged.
- `Touching` is about interruptions that are recorded where a finished span of the same ring ends.
- `Runs` has runs of many threads and flushes as sequences of steps, what they keep, and three runs that
  end badly.
- `Events` proves that only whole events are written: whatever flush takes a word of one takes it whole, in one
  piece and under one depth (`EventsAreWhole`, `EventInFile`).
- `Spines` and `Handlers` take away what the steps of `Threads` assume. A run of the handler wrapper is
  a frame: its ring, the ring that it interrupted, the number of its interruption, and how far it has
  got. From the records of unfinished interruptions follows who holds a ring, what is at the tail and
  what may finish; so every statement of the wrapper finds the rings as it needs them, in every run of
  any number of threads, with handlers that interrupt handlers between any two statements and flushes
  in between (`EverythingHolds`, `NothingIsInTheWay`), but for two conditions of `May` that the code does not
  see to (the second and third promise below).
- `Program` is the whole: a `Process` has a `Session` and the frames of all threads. Its `ReaderSees`
  is the main theorem; `BeginFlush`, `WriteOut` and `Drain` say that the flushes get on: there is something to write
  exactly if a word comes first, what is written is not empty, and a thread that no handler is on is shown in full
  unless its tree is stuck.

Program order is that of the handlers' nesting. A word is logged last, except in one case: a
handler gives its thread's ring back (llvm/ngrt/rvpsignal.c:498) before it logs its return and
closes its interruption (504-507). A signal that arrives in between is recorded as an interruption
of the outer ring, so what that handler logs comes after the return, although it ran before it.
`Beyond` is the part of the tree that such a return goes before, and `LoggedLast` says that there
is nothing there otherwise.

Three promises do not hold. When a program is quiet, flushing until nothing is written does not
always drain a thread: an interruption that was drained while it was open, and closed afterwards,
is not dropped if its ring has been interrupted again since, because the drop pass takes the
later interruption for a reason to stop (llvm/ngrt/serialize.c:573-577), and the get pass cannot
pass a span without words. `Stuck` is that condition. `QuietButStuck` is a thread of this kind
with words that are never written, and `RunsIntoStuck` a run into it; `Serialize` drains every quiet
thread whose tree is not stuck, and takes nothing from one that is.

And a ring may be taken over too early. A handler that has finished gives its ring back as clean when
the ring itself holds nothing (llvm/ngrt/rvpsignal.c:331-342), and any handler takes a clean ring and
labels it with its own thread and depth (247-256). Neither looks for interruptions that name the ring,
and one that was read while it was open stays recorded until it is dropped. If a handler of another
thread has the ring by then and its words are read, the next pass over the first thread fails the
assertion that the interruption's start is unread (llvm/ngrt/serialize.c:549-551, and 266-268 in the
get pass). `TakenTooEarly` is such a run from threads that have just begun. `ThreadsTakenOver` says
exactly when a take-over is harmless to the trees: every interruption by the ring that has not been
dropped is of a ring of the new thread, and less deep than the new label; in particular if the label
stays as it was, or no interruption by the ring is left. `Nesting` says the same of the depths in every
run. The steps of `Threads`, and so `Session` and `Process`, take over rings under that condition only.

And words may be read out of order. The passes take an interruption at the end of a finished span for that
span's (`TakenWithin`; the note at llvm/ngrt/serialize.c:502-506 sees it coming). But a handler that gets a ring back
of which an earlier handler's words are left (llvm/ngrt/rvpsignal.c:230-245) starts where these end, and may be
interrupted before it has logged anything. Then the words of the handler that interrupts it are read at the end of
the earlier span, before everything that the thread has logged since. `ReadTooSoon` is such a run from a thread that
has just begun; if a flush is under way in it, the discard pass fails its assertion (358-359). `InOrderExactly` says
exactly when the order is kept: no finished span of the interrupted ring ends there, or nothing that the thread has
logged since such a span is left on the rings. `HeldExactly` says when the rings hold a tree at all, `ReadOrder` in
which order it is then read, and `FlightFits` when the vectors of a flush under way still fit. Nothing is lost in any
tree that they hold: the passes in `Serializer` are proved on these too. `LoggedIsUntouched` and `RootIsUntouched` say
who may be interrupted without that: a handler that has logged anything, and a thread. The steps of `Threads`, and so
`Session` and `Process`, record interruptions only where they touch nothing.

The flushes of a thread by `Serialize` are those of a quiet program.

## The protocols under it

- `RingFifo`: one ring under a producer that copies word by word and a consumer that reads word by
  word; a put for which there is room goes through, and a consumer catches up.
- `SignalRings`: handlers acquire and release rings by compare-and-set while they scan a list that
  grows.
- `Generation`: the global and local generation numbers around loads, stores and mutex operations, and the generation
  that a ring shows at each record. That need not be the local one: a handler that returns hands its own back
  (llvm/ngrt/rvpsignal.c:491-497), and no change of it is on the interrupted ring. `GenerationOrder` says exactly when it
  is, and `HandedBackHides` is a run in which a load is shown in an earlier generation than a store that had executed.
- `Nesting`: signals between any two statements of the handler wrapper, on all threads at once.

Each is a transition system with a program counter per thread or run of a handler, one access to
shared memory per step, and its theorem is about every run. (`Basics` has what several modules need.)

## The records

`Codec` has the deltop, which fuses a jump of the program counter and an operation into one
address, the buffer that events are built in, and the parser that takes records apart again with
a state per thread and depth. Whatever is logged legally is shown by the reader as it was logged; `DumpTrace` says so of
the reader as a whole, which finds the matrix of deltops from the first two words of the trace.

## Algorithms

`Memmove` (traced copies and fills), `Xfer` (short transfers), `TreeWalk` and `Paths` (the walk over
debugging information and the path to an address), `Base64`, `Col` (the line printer of `col`),
`Lpcq` (the intrusive queue), `Bdes` (the file format of each chaining mode, over any block
cipher) and `BdesGroups` (the text of each mode, group by group).

## Model

| member | source | states |
|---|---|---|
| `Program.Process.ReaderSees` | llvm/ngrt/serialize.c:598-675 | From the start of the program, through any statements of threads and of handlers nested in any way, and any flushes among them: what a reader decodes of a thread is a prefix of what the thread has logged; between flushes it is all of it if and only if nothing is left of it on the rings; and the file holds no record that changes the reader's thread or depth to what it is already. Two things are asked that the code does not see to (`May`): a ring is taken over with a label that is true (necessary: `TakenTooEarly`, `ThreadsTakenOver`), and an interruption is not recorded where a finished span of the same ring ends (the note at 502-506): `ReadTooSoon` is a run in which one is, and words are read out of order; `RecordInOrder` says exactly when they are |
| `Program.Process.Perform` | llvm/ngrt/rvpsignal.c:357-512 | Any statement whose turn it is can be performed at any moment of a flush and keeps everything in place, but that a take-over must be with a true label and a record must not touch a finished span of its ring, which the code does not see to (`May`); what the innermost code logs comes last in its thread's log, and no other thread's log changes |
| `Program.Process.HandBack` | llvm/ngrt/rvpsignal.c:498 | So can the statement that gives the interrupted ring back, which touches no ring |
| `Program.Process.BeginFlush` | llvm/ngrt/serialize.c:624-651 | So can the drop and get passes, between any two statements. They find something to write if and only if what is first in the thread's tree, once drained interruptions are dropped, is a word; and always when no handler is on the thread, words of it are left, and its tree is not stuck. The vectors that fit after the records are then not empty |
| `Program.Process.WriteOut` | llvm/ngrt/serialize.c:653-655 | The write: exactly the words in flight, one at least, are added to what a reader decodes |
| `Program.Process.EndFlush` | llvm/ngrt/serialize.c:664-674 | And the discard pass, whatever statements have been performed since: the tree as it has become loses what was in flight, and nothing else changes |
| `Program.Process.Drain` | llvm/ngrt/thread.c:288-306 | A thread that no handler is on is flushed until a flush finds nothing to write, from any state that the process has got into: this ends, and a reader then finds all that the thread has logged if and only if its tree was not stuck before, or held no word |
| `Program.Process.constructor` | llvm/ngrt/thread.c:121-146 | The program starts with threads that have logged at most on their own rings |
| `Handlers.EverythingHolds` | llvm/ngrt/rvpsignal.c:357-512 | In every run of statements of the wrapper, on any threads and nested in any way, and of flushes, in which rings are taken over with true labels and no record touches a finished span of its ring (`May` asks both; the code sees to neither): what each run of the wrapper relies on holds, and what has happened to the rings is a run of enabled steps |
| `Handlers.NothingIsInTheWay` | llvm/ngrt/rvpsignal.c:357-512 | In every state of such a run, every statement whose turn it is can be executed, with the same two conditions on a take-over and on a record |
| `Handlers.DeedIsEnabled` | llvm/ngrt/rvpsignal.c:366-507 | Who holds a ring, what is at the tail, which interruption is the only unfinished one, and what may finish, all follow from how the runs of the wrapper are nested |
| `Handlers.DeedKeeps` | llvm/ngrt/rvpsignal.c:366-507 | Every statement that `May` admits keeps what the runs of the wrapper on all threads rely on |
| `Handlers.FlushKeeps` | llvm/ngrt/serialize.c:598-675 | So does a flush of any thread: no unfinished interruption is dropped, and a handler of which words have been read has everything before it read |
| `Handlers.RecordInOrder` | llvm/ngrt/serialize.c:502-506 | In every state that the wrapper gets into, with a run about to record its interruption: once it has recorded it and has logged, the thread's rings hold a tree of it in program order if and only if no finished span of the interrupted ring ends there, or nothing that the thread has logged since such a span is left on the rings; and they hold a tree at all if and only if no handler since has had a ring that the new one has, or one that has interrupted it |
| `Handlers.RecordsReady` | llvm/ngrt/rvpsignal.c:368-370 | Whether it touches anything or not, the interrupted ring is at the tail, and nobody else is on it |
| `Handlers.LoggedIsUntouched` | llvm/ngrt/serialize.c:502-506 | A handler that has logged anything may be interrupted without its interruption touching an earlier one by its ring |
| `Handlers.RootIsUntouched` | llvm/ngrt/serialize.c:502-506 | So may a thread, at any time |
| `Handlers.NoneHosted` | llvm/ngrt/rvpsignal.c:494-507 | Of the handlers that have interrupted a handler, none is unfinished once it has given the interrupted ring back and they have returned |
| `Handlers.NoHandlerIsQuiet` | llvm/ngrt/rvpsignal.c:357-512 | While no run of the wrapper is on a thread, its tree has no unfinished interruption, and nothing hangs after it |
| `Handlers.SignalToReturn` | llvm/ngrt/rvpsignal.c:357-512 | Six statements from the signal to the return, of a handler that is not itself interrupted: what is left of it is the words on its ring, and one finished interruption of exactly these, where its host was interrupted; no other ring and no other run of the wrapper changes |
| `Spines.HoldsIfMet` | llvm/ngrt/serialize.c:242-337 | In a walk, the bracket of the only unfinished interruption by a ring is the last that is on the ring, and reaches its producer |
| `Spines.TailIfChained` | llvm/ngrt/serialize.c:242-337 | Handlers each of which interrupted the one before last, with nothing logged there since, are nested at the tail of the tree |
| `Spines.MayLeaveIfEnded` | llvm/ngrt/serialize.c:242-337 | A handler whose interruptions are finished, and that has logged since, may finish |
| `Spines.LeaveIsLeading` | llvm/ngrt/serialize.c:522-534 | When it does, every bracket that the serializer has not come to has words |
| `Spines.LeftStarts` | llvm/ngrt/serialize.c:402-520 | The discard pass takes words of an unfinished handler only if everything before it has been taken |
| `Tracer.Session.ReaderSees` | llvm/ngrt/serialize.c:598-675 | In every state that the methods of the session reach, in any order, what a reader decodes of a thread is a prefix of what the thread has logged, in program order; between flushes it is all of it if and only if no word is left in the thread's tree or in what hangs; and no record is idle. The steps are those of `Produce`: a ring is taken over only with a label that is true of the interruptions by it, and no interruption is recorded where a finished span of its ring ends. For the program as a whole: `Process.ReaderSees` |
| `Tracer.NothingIsLost` | llvm/ngrt/serialize.c:224-240 | At any moment, also in the middle of a flush: the words a reader finds of a thread, followed by the words still on its rings (after what is in flight), in its tree or on rings of handlers that have not recorded their interruptions, are exactly what the thread has logged |
| `Tracer.Session.Produce` | llvm/ngrt/rvpsignal.c:357-512 | A put, a new current ring, the record of its interruption, a return or the take-over of a ring may happen at any moment of a flush: everything stays consistent, and only the acting thread's tree and log change, as given. A ring is taken over with a label that is true of every interruption by it that has not been dropped; the code does not ask for that, and it is necessary: `ThreadsTakenOver`. No interruption is recorded where a finished span of its ring ends; the code does not ask for that either: `InOrderExactly` |
| `Tracer.Session.BeginFlush` | llvm/ngrt/serialize.c:624-651 | Drop and get passes: drained interruptions go, the vectors are set up, nothing logged is lost, and no other thread's tree changes. There is something to write exactly if the first thing in the tree then is a word, and whenever a quiet tree that is not stuck has any; the vectors left for it are those that the records do not need |
| `Tracer.Session.WriteOut` | llvm/ngrt/serialize.c:653-655 | The write adds to what a reader decodes exactly the words in flight, of which there is one at least, however far producers have gone since the vectors were filled |
| `Tracer.Session.EndFlush` | llvm/ngrt/serialize.c:664-674 | The discard pass on the tree as it has become removes exactly the words in flight |
| `Tracer.Session.Drain` | llvm/ngrt/thread.c:288-306 | Flushing a quiet thread until there is nothing to write ends, and shows all that the thread has logged if and only if none of its words hangs, and its tree was not stuck or held no word |
| `Tracer.FlushDrains` | llvm/ngrt/serialize.c:597-675 | A flush of a quiet tree with any number of vectors takes a word if it can; it can exactly if words are left and the tree is not stuck; and it makes no tree stuck or unstuck |
| `Tracer.Session.constructor` | llvm/ngrt/thread.c:121-146 | A tracer that has written nothing, whatever the threads have logged by then, is consistent |
| `Tracer.LoggedLast` | llvm/ngrt/rvpsignal.c:448-505 | What a thread logs, and a handler until it hands the thread's ring back, comes last in the order of the log |
| `Tracer.ConsistentStep` | llvm/ngrt/ring.h:336-386 | One step of a producer (`Enabled`: a take-over only with a true label, no record that touches a finished span of its ring) keeps the invariant of producers and serializer together, whatever phase a flush is in |
| `Tracer.ConsistentBegins` | llvm/ngrt/serialize.c:535-595 | The drop and get passes keep it |
| `Tracer.ConsistentWrites` | llvm/ngrt/serialize.c:606-655 | The write keeps it: the records and vectors decode to the words in flight, each under its own thread and depth |
| `Tracer.ConsistentEnds` | llvm/ngrt/serialize.c:402-520 | The discard pass keeps it |
| `Tracer.PutMultiple` | llvm/ngrt/ring.h:336-386 | Both forms of the copy put the words where their positions say, advance the producer, and change nothing else |
| `Tracer.Nempty` | llvm/ngrt/ring.h:214-236 | The number of free slots, from the two indices, wrapped or not |
| `Tracer.PutInterruption` | llvm/ngrt/ring.c:75-92 | A record in the slot of the interruptions ring's producer: where the ring was interrupted, and from where on its interruptor logs |
| `Tracer.CloseInterruption` | llvm/ngrt/ring.h:418-423 | The interruption ends at its ring's producer; no other record changes |
| `Tracer.AcquireRing` | llvm/ngrt/rvpsignal.c:240-256 | A clean ring gets the thread and the depth of its new holder |
| `Tracer.LiveStays` | llvm/ngrt/ring.h:352-367 | A put overwrites no unserialized word of any ring |
| `Tracer.StepIsElsewhere` | llvm/ngrt/ring.h:336-386 | A step of one thread leaves every other thread's tree laid out as it was |
| `Tracer.PassIsElsewhere` | llvm/ngrt/serialize.c:598-675 | A flush of one thread leaves every other thread's tree as it was |
| `Tracer.FlightIsFront` | llvm/ngrt/serialize.c:224-240 | What is in flight is the first part of what the tree holds, however the tree has grown |
| `Threads.StepKeeps` | llvm/ngrt/rvpsignal.c:357-512 | After any step of a producer the thread's tree, and what hangs, are still all that its rings hold; the tree has only grown, but for the depth of brackets without words when their ring is taken over; and the words of the step are where program order puts them |
| `Threads.TakeKeeps` | llvm/ngrt/rvpsignal.c:368 | A handler that has made its ring the current one, and has not recorded its interruption, hangs after the walk of everything before |
| `Threads.RecordKeeps` | llvm/ngrt/rvpsignal.c:369-370 | Recording the interruption joins what hangs to the tree, with all that has interrupted it meanwhile, where the interrupted ring's words end; the words stay in order |
| `Threads.AcquireKeeps` | llvm/ngrt/rvpsignal.c:247-256 | A clean ring gets a label that is true of the interruptions by it: the thread's rings hold the same words in the same order |
| `Runs.TakenOver` | llvm/ngrt/rvpsignal.c:247-256 | After a clean ring is taken over, a thread's rings hold a tree if and only if the new label is true of every interruption by the ring that the serializer has not dropped (same thread, deeper), and the same tree if and only if the label is as it was or no such interruption is left |
| `Runs.ThreadsTakenOver` | llvm/ngrt/rvpsignal.c:247-342 | The same for all threads at once |
| `Runs.TakenTooEarly` | llvm/ngrt/serialize.c:535-551 | The code does not see to it: from threads that have just begun, a run after which a handler of thread 2 takes over a clean ring that an interruption of thread 1 still names, logs and is read, and then the assertion at the start of the drop pass fails |
| `Runs.StaleStart` | llvm/ngrt/serialize.c:549-551 | That assertion fails whenever words after the interruption's start have been read for another |
| `Runs.ReadTooSoon` | llvm/ngrt/serialize.c:289-306 | From a thread that has just begun, a run of enabled steps to a record that touches a finished span: a handler logs and returns, the thread logs a word, another handler gets the ring back and is interrupted before it has logged. The third handler's word is then read by a flush before the thread's, and if a flush was under way, the discard pass fails the assertion at 358-359 |
| `Touching.InOrderExactly` | llvm/ngrt/serialize.c:502-506 | After the record and any words of its handler: an iff for the rings holding a tree of the thread in program order |
| `Touching.HeldExactly` | llvm/ngrt/serialize.c:502-506 | And for holding a tree at all |
| `Touching.ReadOrder` | llvm/ngrt/serialize.c:242-337 | Whatever tree the rings hold then: the words of the new handler, and of those that have interrupted it, are read where the touched span ends, after all that the thread has logged up to there and before all that it has logged since |
| `Touching.FlightFits` | llvm/ngrt/serialize.c:402-520 | If the record comes between the get and the discard pass of a flush, the words in flight are still the first on the rings if and only if they do not go beyond the touched span |
| `Touching.StillFlushed` | llvm/ngrt/serialize.c:597-675 | Every such tree is one that `FlushToFd` flushes, so nothing of it is lost |
| `Touching.TakenInAll` | llvm/ngrt/serialize.c:289-306 | Wherever in the tree or in what hangs the touched span is, every tree that the rings can hold has the interruption at its end |
| `Touching.JoinAllIsLaid` | llvm/ngrt/serialize.c:289-306 | And with the interruption moved there the rest of the tree is laid as it was, if nothing since is on a ring of the interruption |
| `Walks.VisitFrame` | llvm/ngrt/serialize.c:242-337 | A walk depends only on the rings that it visits, from where it starts on them |
| `Walks.LaidOnce` | llvm/ngrt/serialize.c:242-337 | The rings hold one tree at most |
| `Walks.SameWalk` | llvm/ngrt/serialize.c:289-306 | A walk that starts further back finds the same bracket, as long as it is behind only by interruptions that lie before the bracket's start |
| `Runs.RunKeeps` | llvm/ngrt/rvpsignal.c:357-512 | In every run of producers' steps and flushes of any threads in any order, each thread's tree and what hangs stay all that its rings hold |
| `Events.EventsAreWhole` | llvm/ngrt/serialize.c:147-153 | From threads that have just begun, through any steps and flushes: an event of which the next flush takes a word it takes whole, its words stand together, and they are under one depth |
| `Events.RunOnMarks` | llvm/ngrt/serialize.c:147-153 | In every such run, every position in a thread's tree or in what hangs is one where an event began or ended, and none is inside an event |
| `Events.EventInFile` | llvm/ngrt/serialize.c:653-655 | A reader of the file finds the event's words one after the other under one thread and one depth |
| `Runs.RunsIntoStuck` | llvm/ngrt/serialize.c:573-577 | From a thread that has just begun, a run into the tree of `QuietButStuck` |
| `Runs.HandlerMoves` | llvm/ngrt/rvpsignal.c:357-450 | A handler may start and log in any run, wherever its ring is free and there is room |
| `Producers.PutIsLaid` | llvm/ngrt/ring.h:336-386 | Words put by the holder of a ring lengthen its bracket and no other |
| `Producers.EnterIsLaid` | llvm/ngrt/ring.c:75-92 | A recorded interruption cuts the bracket of the interrupted ring where its words end, and holds what its interruptor has by then, if no finished span of the ring ends there; if one does, it is `Touching.JoinAllIsLaid` |
| `Producers.LeaveIsLaid` | llvm/ngrt/ring.h:418-423 | Closing an interruption finishes its bracket where its words end |
| `Producers.RelabelIsLaid` | llvm/ngrt/rvpsignal.c:247-256 | A clean ring with a new label that is true of the interruptions by it leaves the tree as it was but for that ring's depth |
| `Producers.WalkIsSame` | llvm/ngrt/rvpsignal.c:247-256 | Whatever tree is found after a ring has got a new label, its walk is the old one, and finds only interruptions of which the label is true |
| `Producers.HollowEmits` | llvm/ngrt/serialize.c:242-337 | A get pass fills the same vectors whether a clean ring has got a new label since or not |
| `Producers.PutFlattens` | llvm/ngrt/rvpsignal.c:494-508 | What a handler logs after it has handed its thread's ring back goes before what later handlers log, and after everything else |
| `Threads.TailAppends` | llvm/ngrt/ring.h:336-386 | What is logged on the ring at the tail of the tree is appended to the program order |
| `Threads.HandlerRuns` | llvm/ngrt/rvpsignal.c:357-512 | A handler that interrupts the ring at the tail, records, logs and returns leaves a tree that is all its thread's rings hold, with what it logged appended, and what it interrupted at the tail again |
| `Threads.HandlerGoesOn` | llvm/ngrt/rvpsignal.c:448-507 | At every point of its run the handler's next step is enabled: to log more if there is room, and to return once it has logged |
| `Producers.GrownTrans` | llvm/ngrt/serialize.c:224-240 | A tree that has grown in many steps has grown |
| `Threads.BeginsTraced` | llvm/ngrt/ring.c:27-34 | A thread that has just begun, with clean rings for its handlers, meets the invariant |
| `Threads.TracedIsAllWalked` | llvm/ngrt/serialize.c:522-534 | When nothing hangs, the tree is all that the rings of the thread and of its handlers hold: what `Serialize` asks for to leave them empty |
| `Threads.DrainedIsEmpty` | llvm/ngrt/serialize.c:611-618 | When nothing is left of a thread's tree and nothing hangs, its ring and all rings of its handlers hold no word and no interruption |
| `Arcs.ArcIsOrder` | llvm/ngrt/serialize.c:44-96 | The arc test on indices holds exactly when the distances from the consumer are ordered: left, right, producer |
| `Arcs.ArcComparesPositions` | llvm/ngrt/serialize.c:44-110 | For positions between consumer and producer both arc tests compare the positions, and indices are equal only if positions are |
| `Arcs.TakenWithin` | llvm/ngrt/serialize.c:289-306 | Exactly when neither test rejects an interruption, it lies within the bracket, both ends included: one at the end of a finished bracket is taken for that bracket's (the note at 502-506) |
| `EventTree.Conservation` | llvm/ngrt/serialize.c:224-520 | For every tree, what it has become, and every number of vectors: the words the get pass takes, read back with their depths, followed by what the discard pass leaves, are the in-order words of the tree as it has become; and both passes end at the same depth |
| `EventTree.WholeChunks` | llvm/ngrt/serialize.c:139-154 | The get pass takes whole chunks: no vector ends inside a span, so no event is split |
| `EventTree.ReadPieces` | llvm/ngrt/serialize.c:155-222 | The one or two vectors of a span, with the change of depth before them, read back as that span |
| `EventTree.Wrap` | llvm/ngrt/ring.h:214-224 | The distance of two positions from their indices, wrapped or not |
| `EventTree.WholeIsSpent` | llvm/ngrt/serialize.c:319-326 | When the get pass has vectors left after a bracket, the discard pass leaves nothing of it |
| `EventTree.LeftKeeps` | llvm/ngrt/serialize.c:402-520 | What the discard pass leaves is a well-formed tree again |
| `EventTree.DropKeeps` | llvm/ngrt/serialize.c:535-595 | The drop pass loses no word, and finds empty only finished brackets without words |
| `EventTree.EmitMoves` | llvm/ngrt/serialize.c:242-337 | A get pass that fills any vector takes a word |
| `EventTree.FrontMoves` | llvm/ngrt/serialize.c:522-534 | After a drop pass a get pass takes something from every quiet tree that holds anything, unless it is stuck |
| `EventTree.StuckStays` | llvm/ngrt/serialize.c:535-595 | From a stuck tree neither pass ever takes anything |
| `EventTree.LeftIsNotStuck` | llvm/ngrt/serialize.c:402-520 | A discard pass makes no tree stuck |
| `Plans.PlanBegins` | llvm/ngrt/serialize.c:242-337 | With room for a change of depth and a chunk in two pieces, the get pass fills a vector if and only if the first thing on its way is a word |
| `Plans.PlanIsGreedy` | llvm/ngrt/serialize.c:242-337 | The get pass takes as many chunks as it has vectors for, of those that it meets before a reason to stop; and it goes on behind a bracket exactly if it took all of them, has a vector left and met no reason to stop |
| `Plans.PlanIsTight` | llvm/ngrt/serialize.c:155-190 | No vector carries a depth that the reader is at already |
| `Plans.PiecesFill` | llvm/ngrt/serialize.c:190-222 | The vectors of a chunk by the indices: all of it in one, unless it reaches the end of the array; then up to there, and the rest from the first slot |
| `EventLog.QuietButStuck` | llvm/ngrt/serialize.c:573-577 | A quiet, well-formed thread whose words are never written: a drained interruption whose ring was interrupted again later is neither dropped nor passed |
| `EventLog.LaidFrame` | llvm/ngrt/serialize.c:242-337 | A walk of a bracket depends on nothing but the rings at its depth and below |
| `EventLog.AfterMoves` | llvm/ngrt/serialize.c:242-337 | A walk moves forward, on rings of its own depth and below only, and ends where its bracket does |
| `EventLog.ReachedLeaves` | llvm/ngrt/serialize.c:460-475 | After an interruption has been replayed, the rest of its host is still in place |
| `EventLog.ReachedDrops` | llvm/ngrt/serialize.c:115-137 | Dropping a spent interruption leaves the rest in place |
| `EventLog.ReachedWords` | llvm/ngrt/serialize.c:345-391 | Taking words from the front of a bracket leaves the rest in place |
| `Serializer.EventForest.GetIovs` | llvm/ngrt/serialize.c:242-337 | On any tree that the rings hold, interruptions at the ends of finished spans included: fills exactly the vectors that the specification of the get pass lists, for every number of vectors, and returns its residue and depth |
| `Serializer.EventForest.GetIovsBetween` | llvm/ngrt/serialize.c:155-222 | Fills the vectors of one span, or none and -1 |
| `Serializer.EventForest.DiscardIovs` | llvm/ngrt/serialize.c:402-520 | On the vectors of an earlier get pass and a tree that may have grown, interruptions at the ends of finished spans included: leaves exactly what the specification says, consumes exactly those vectors, ends at the depth the get pass ended at |
| `Serializer.EventForest.DiscardIovsBetween` | llvm/ngrt/serialize.c:339-391 | Takes the vectors of one span and advances the consumer to the end of it |
| `Serializer.EventForest.DropEmpties` | llvm/ngrt/serialize.c:535-595 | Drops exactly the drained brackets that come first, and tells whether the bracket is empty |
| `Serializer.EventForest.DropInterruption` | llvm/ngrt/serialize.c:115-137 | The first interruption goes; the next one, if any, is returned |
| `Serializer.EventForest.FirstInterruption` | llvm/ngrt/ring.h:299-310 | The first unserialized interruption |
| `Serializer.EventForest.NextInterruption` | llvm/ngrt/ring.h:285-297 | The one after it, round the end of the interruptions ring |
| `Serializer.EventForest.Extent` | llvm/ngrt/ring.h:401-416 | Where a bracket starts and ends; the producer if it is unfinished |
| `Serializer.EventForest.FlushToFd` | llvm/ngrt/serialize.c:597-675 | One flush of a thread, whatever interruptions touch: what is written decodes to exactly the words that leave its tree, each under the right thread and depth, from any context, with no idle record. These are the words of as many vectors as the records leave room for; the result is 1 if and only if what is first, once drained interruptions are dropped, is a word |
| `Serializer.EventForest.Retire` | llvm/ngrt/serialize.c:664-667 | The discard pass also runs on a tree that has grown since the get pass |
| `Serializer.EventForest.Write` | llvm/ngrt/io.c:119-122 | What the records and vectors point at is appended to the file |
| `Serializer.EventForest.Serialize` | llvm/ngrt/thread.c:288-306 | With quiet threads the loop ends; of every thread the file shows what was taken from its tree, in order; and unless a tree was stuck, nothing is left of it, and every ring and interruptions ring of the thread and of its handlers is empty if the tree was all that they held |
| `Serializer.VecsDecode` | llvm/librvread/reader.c:847-858 | A reader at a thread's context finds in a list of vectors exactly their words, each at its ring's depth |
| `Serializer.WroteFlush` | llvm/ngrt/serialize.c:597-675 | Switch and depth records bring a reader from any context to the ring's, the vectors follow, and none of the records is idle |
| `Serializer.HeaderDecodes` | llvm/ngrt/serialize.c:624-637 | The records before a flush change the reader's context to the ring's and are no words; there are none exactly if the reader is there already, and none is idle |
| `Serializer.EmitFits` | llvm/ngrt/serialize.c:155-222 | Every vector points at words and depths that are there |
| `Serializer.FlushLeaves` | llvm/ngrt/serialize.c:638-667 | What one flush does to any well-formed tree |
| `Serializer.OtherThread` | llvm/ngrt/serialize.c:597-675 | A flush touches no ring of another thread |
| `Serializer.EmptyIsClean` | llvm/ngrt/serialize.c:522-534 | Once nothing is left of a tree that was all that its rings held, their producers and consumers have met, of words and of interruptions |
| `Serializer.SerializedMore` | llvm/ngrt/thread.c:288-306 | Flush after flush of many threads: of each the file shows the words taken so far, in order |
| `TraceFile.DecodeConcat` | llvm/librvread/reader.c:847-858 | A file is read on from the context that its first part leaves |
| `TraceFile.OfThreadConcat` | llvm/librvread/reader.c:847-858 | So is the part of one thread |
| `RingFifo.Fifo` | llvm/ngrt/ring.h:335-367 | In every interleaving, the words consumed are a prefix of the words put, the fill count is their difference and at most the capacity, and all words between are in their slots |
| `RingFifo.StepKeeps` | llvm/ngrt/ring.h:335-367 | No step of either side changes an unconsumed word or breaks the invariant |
| `RingFifo.RoomAtLast` | llvm/ngrt/ring.h:251-252 | A put waits no longer than until everything is consumed |
| `RingFifo.RoomExactly` | llvm/ngrt/ring.h:352-354 | A put waits exactly as long as there is too little room |
| `RingFifo.PutGoesThrough` | llvm/ngrt/ring.h:335-367 | A put for which there is room is published whole by the producer's accesses alone, wherever the consumer is, and nothing else changes |
| `RingFifo.CatchesUp` | llvm/ngrt/serialize.c:345-391 | The consumer's accesses alone read and give back all that has been put |
| `SignalRings.Ownership` | llvm/ngrt/rvpsignal.c:214-342 | In every run: a ring is in use exactly when one run of a handler has it; a clean ring holds nothing; all its words carry its tag; a release never aborts |
| `SignalRings.StepKeeps` | llvm/ngrt/rvpsignal.c:214-342 | Each access keeps the invariant behind it |
| `SignalRings.OnlyReleaseCleans` | llvm/ngrt/rvpsignal.c:331-342 | Only a release makes a ring clean, never draining |
| `SignalRings.ScanTakes` | llvm/ngrt/rvpsignal.c:214-259 | A scan that nothing disturbs takes the newest dirty ring of the handler's thread and depth; or else the newest clean ring, which then carries them; or else it changes nothing |
| `SignalRings.PutBack` | llvm/ngrt/rvpsignal.c:331-342 | A ring is given back clean if and only if everything on it has been serialized, words and interruptions, and as dirty if not; nothing else changes |
| `SignalRings.Replenish` | llvm/ngrt/rvpsignal.c:276-312 | One clean ring more than were needed, no ring without need, and the old ones stay |
| `Generation.GenerationOrder` | llvm/ngrt/ring.h:146-184 | In every run, by the generation that a ring itself shows at each record (the last change before it, or the one it began in): changes go to later generations only; a record is shown in the local generation it was logged in if and only if no handler has handed another one back since the last change; a load or acquisition follows all stores and releases that had executed, in local generations always, and as shown by the rings where its own ring shows its own; and a thread or handler begins after what had executed, or what the interrupted ring shows |
| `Generation.StoreAlone` | llvm/ngrt/access.h:60-94 | A store or release that nothing disturbs, exactly: its record, then the change of generation if the clock has gone on, then the store |
| `Generation.LoadAlone` | llvm/ngrt/access.h:26-58 | A load or acquisition, exactly: the load, then the change of generation if the clock has gone on, then the record |
| `Generation.HandedBackHides` | llvm/ngrt/rvpsignal.c:491-497 | A run in which a handler hands the new generation back, so that a thread logs no change of it, and its ring shows a load in an earlier generation than a store that had executed |
| `Generation.StepKeeps` | llvm/ngrt/access.h:26-94 | Each access keeps the invariant behind it |
| `Generation.RunKeeps` | llvm/ngrt/lock.c:66-124 | So does every run |
| `Nesting.InterruptorsAreDeeper` | llvm/ngrt/rvpsignal.c:357-512 | For signals between any two statements of the wrapper, on any number of threads that share the rings: by the labels that rings have now, every interruption that has not been dropped is by a deeper ring of the same thread, in every state of a run, if and only if every ring taken over in it got a label that was true of the interruptions by it that were left |
| `Nesting.StepIsDeeper` | llvm/ngrt/rvpsignal.c:247-256 | Step by step: a take-over keeps interruptors deeper if and only if its label is true, and every other step keeps them so |
| `Nesting.RestoredOnReturn` | llvm/ngrt/rvpsignal.c:494-512 | When handlers have returned, their thread's depth and current ring are as before them, in every run |
| `Nesting.HandlerFromEndToEnd` | llvm/ngrt/rvpsignal.c:357-512 | A handler that is not interrupted itself, statement by statement: when it counts as nested, when its ring is the current one, from when on its interruption is recorded, and that nothing else is left of it |
| `Nesting.NoCycle` | llvm/ngrt/serialize.c:242-337 | In every state of such a run a path of interruptions never comes back to a ring, and is no longer than its last ring is deep: the recursion ends |
| `Nesting.StatementKeeps` | llvm/ngrt/rvpsignal.c:357-512 | Each statement of the wrapper, on any thread, keeps the local variables of all runs of it, the current rings, the depths and the labels of the rings that are held in step |
| `Codec.TraceRoundTrip` | llvm/librvread/reader.c:731-861 | For every sequence of legal records of any threads and depths: the reader shows each with its thread, depth, operation, payload and program counter, leaves nothing, and stays in step |
| `Codec.TraceThen` | llvm/librvread/reader.c:731-861 | The same whatever words follow, which are read from the state that the records leave |
| `Codec.RefusedExactly` | llvm/librvread/reader.c:751-858 | After any such records, an assertion of the reader fails exactly on a thread that begins while it is there or has no possible room, a handler that starts or returns at depth 0, a depth of sixteen or more, an unknown operation, and records at a thread that it has no room for |
| `Codec.WholeTrace` | llvm/librvread/reader.c:263-289 | The same for a whole trace from the reader's first state, which is that of the first thread at depth 0 |
| `Codec.CenterIsBegin` | llvm/librvread/reader.c:276-279 | The deltop that a writer puts for `begin`, without a jump, is the center that the reader finds the matrix from, wherever the matrix is |
| `Codec.DumpTrace` | llvm/librvread/reader.c:864-967 | A reader set up from the first two words of a whole trace shows every record of it, by position: its thread and depth, its operation, its payload and its program counter, and leaves nothing; if it breaks off, or goes on with a record that is refused, everything before that is shown, and then there is an error |
| `Codec.ShownWholly` | llvm/librvread/reader.c:303-329 | The thread and depth of each shown record are those of the last `begin`, `switch`, `sigdepth` or outermost depth before it, counted on the records themselves |
| `Codec.PayloadIsStructure` | llvm/ngrt/tracefmt.h:109-218 | The words of each operation's payload are those of its structure's fields |
| `Codec.JumpWords` | llvm/ngrt/trace.c:186-203 | A short jump takes two words, and any other the program counter besides |
| `Codec.ForcedJump` | llvm/ngrt/rvpsignal.c:458-465 | The first event after the start of a thread or of a handler tells its program counter in full, whatever it is |
| `Codec.MissingWords` | llvm/librvread/reader.c:731-755 | The reader asks for exactly the words that are missing of a record |
| `Codec.RecordRoundTrip` | llvm/librvread/reader.c:731-861 | One record is read back, whatever follows it |
| `Codec.DeltopRoundTrip` | llvm/ngrt/deltops.c:7-18 | A deltop exists exactly for short jumps, is in the row of its jump and the column of its operation, and tells both apart again |
| `Codec.ShownExactly` | llvm/librvread/reader.c:179-198 | An event is shown at its program counter exactly when its jump is short in earnest, or is long and the counter is no deltop |
| `Codec.Mistaken` | llvm/librvread/reader.c:303-307 | A program counter inside the matrix is taken for an operation at another place |
| `Codec.AddrRoundTrip` | llvm/ngrt/buf.h:34-46 | An address is put as two words, the lower half first, and read back |
| `Codec.ShortIsExact` | llvm/ngrt/trace.c:186-203 | The conversion to int loses nothing of a short jump |
| `Codec.Buffer.Put` | llvm/ngrt/buf.h:17-22 | Appends one word |
| `Codec.Buffer.PutAddr` | llvm/ngrt/buf.h:34-64 | Appends the words of an address |
| `Codec.Buffer.PutBuf` | llvm/ngrt/buf.h:24-32 | Appends the words of another buffer |
| `Codec.Buffer.PutPcAndOp` | llvm/ngrt/trace.c:186-203 | Appends a deltop, or the counter and a deltop without a jump; the last counter is the new one |
| `Codec.Parser.Begin` | llvm/librvread/reader.c:240-261 | A thread's state begins, with room for it; or an assertion fails |
| `Codec.Parser.ConsumeTrace` | llvm/librvread/reader.c:731-861 | One record is taken from the buffer, or more words are asked for, as the specification says |
| `Codec.Parser.Dump` | llvm/librvread/reader.c:864-967 | The loop shows what the specification of reading lists |
| `Codec.Parser.constructor` | llvm/librvread/reader.c:263-289 | The first state: the matrix begins where the first deltop is the one for `begin` |
| `Memmove.Memory.Memmove1` | llvm/ngrt/str.c:25-105 | Memory ends as after the plain copy, byte by byte, for every overlap and alignment. The log gets aligned pairs of loads and stores of the original bytes, which cover every byte of the destination once; each call's are of the widest width in 1, 2, 4 and 8 that fits what it has to copy and divides both its addresses; so all are of eight bytes when 8 divides both addresses and the length |
| `Memmove.Memory.InternalMemmove` | llvm/ngrt/istr.c:154-169 | The plain copy: each byte of the destination is the original one of the source, whatever the overlap, and no other changes |
| `Memmove.Memory.WidestAligned` | llvm/ngrt/str.c:45-50 | The widest access that fits and is aligned at both ends |
| `Memmove.Memory.Memset1` | llvm/ngrt/str.c:107-155 | Memory ends filled, byte by byte, with aligned stores that cover every byte once, of the widest width that fits each call |
| `Memmove.OnlyEights` | llvm/ngrt/str.c:45-50 | Copies of the widest widths are all of eight bytes when 8 divides both addresses and the length |
| `Memmove.CopyStep` | llvm/ngrt/str.c:58-96 | One more word of the copy still holds the original bytes |
| `Memmove.CopyRest` | llvm/ngrt/str.c:97-104 | The remainder is copied by a call of its own, which finds the original bytes too |
| `Memmove.CoversBoth` | llvm/ngrt/str.c:97-104 | Two good copies side by side make one |
| `Xfer.Channel.Xferallv` | llvm/ngrt/io.c:71-110 | Whatever the kernel takes per call, what is written is a prefix of the vectors' bytes, in order and once; all of it unless the kernel fails or takes nothing |
| `Xfer.AdvanceIov` | llvm/ngrt/io.c:48-69 | Exactly the first bytes are dropped from the vectors, empty vectors included |
| `Xfer.SumIsLength` | llvm/ngrt/io.c:22-32 | The sum of the lengths is the number of bytes |
| `TreeWalk.Walk.WalkAll` | rvsyms/rvsyms.c:130-259 | The walk succeeds exactly if no tree is nested deeper than 16. Its visits are then of all dies, once each and in preorder, and each but a unit's finds what its parent's visit left: the strings on the stack, and the state of the recursion; if it fails, they are a first part of these |
| `TreeWalk.Walk.NextInTree` | rvsyms/rvsyms.c:164-259 | Each call returns the next die of that preorder, in the state that it should find, or the end, or an overflow, which are told apart exactly |
| `TreeWalk.UnitsInOrder` | rvsyms/rvsyms.c:164-259 | In the recursive walk every die has a place: its parent's visit comes before it, after its earlier siblings and all below them; it finds the strings that its parent's visit left, and `lopc`, `hipc` and the frame's offset as that visit left them |
| `TreeWalk.ForestSize` | rvsyms/rvsyms.c:164-259 | Of the specification: the preorder that the walk is proved to return has one visit for each die |
| `TreeWalk.Walk.PopTo` | rvsyms/strstk.c:78-85 | The stack of strings is cut back to a depth |
| `TreeWalk.Walk.PopExhausted` | rvsyms/rvsyms.c:182-199 | Dropping exhausted entries loses no visit and takes up the state below |
| `TreeWalk.Walk.PushChildren` | rvsyms/rvsyms.c:246-258 | Children get an entry, unless sixteen are in use |
| `Paths.Ctx.WalkMembers` | rvsyms/rvsyms.c:959-1033 | The path pushed leads to the byte, by members that hold it and by indices below their dimensions, each the next step; offsets and strides plus what is left are the starting offset. Nothing is found if and only if no member holds the byte, and then nothing changes |
| `Paths.Ctx.WalkElements` | rvsyms/rvsyms.c:863-957 | The same through an array; found exactly if the offset lies inside it. An array is walked only once its size is known (rvsyms/rvsyms.c:1000 and 1256) |
| `Paths.Ctx.WalkInto` | rvsyms/rvsyms.c:940-956 | The same for the type that a walk has come to |
| `Paths.Strides` | rvsyms/rvsyms.c:925-932 | The strides of a row-major array, multiplied out in place |
| `Paths.RowMajor` | rvsyms/rvsyms.c:925-945 | The element in row i and column j of a table is at i times the columns plus j elements |
| `Paths.StepsOn` | rvsyms/rvsyms.c:959-1033 | Steps that hold the byte, from where steps that hold it have led, hold it from the start |
| `Paths.OneIndex` | rvsyms/rvsyms.c:934-945 | One division gives an index below its dimension and the rest below the stride, and the index leads there |
| `Paths.LocateConcat` | rvsyms/rvsyms.c:934-956 | A path in two parts leads where its second part leads from the end of the first |
| `Col.Line.Flush` | nbtools/col/col.c:384-477 | The output, read back by the column and character set rules, is the line stably sorted by column (with -b the last of each column), tabs or not; and it is exactly this text: each of these characters after a backspace, or tabs and spaces, from where the one before has left off, and a shift if its set is another |
| `Col.CountingSort` | nbtools/col/col.c:399-427 | The sorted line is the columns in order, each with its characters in order, whatever the last bucket started with |
| `Col.Print` | nbtools/col/col.c:430-477 | Printing characters that are in order reads back as them, and adds nothing that is not needed |
| `Col.Blanks` | nbtools/col/col.c:441-457 | From one column to the next with exactly the tabs that lie in between, if tabs are wanted, and then spaces |
| `Col.ControlCharacters` | nbtools/col/col.c:170-212 | Backspace, space and the two shifts, as the column and character set rules have them |
| `Col.TabCharacter` | nbtools/col/col.c:213-216 | A tab goes to the next multiple of eight |
| `Col.Line.Stuff` | nbtools/col/col.c:217-303 | A graphic character is stored with its column and character set |
| `Col.SortedOnce` | nbtools/col/col.c:399-427 | There is one stable sorting only |
| `Col.AllColumns` | nbtools/col/col.c:399-427 | Columns in order are a stable sorting |
| `Base64.Pton` | nbtools/compatlib/mkc_base64.c:218-350 | Accepts exactly the texts of byte strings that fit, with white space anywhere, and returns the byte string |
| `Base64.Ntop` | nbtools/compatlib/mkc_base64.c:144-210 | Writes the text and its terminator exactly if they fit |
| `Base64.RoundTrip` | nbtools/compatlib/mkc_base64.c:144-350 | Every byte string is read back, into a target that is just large enough |
| `Base64.EncodeAt` | nbtools/compatlib/mkc_base64.c:144-210 | The four characters of each three bytes, by position: their bits in sixes from the highest, with zeros and padding for bytes that are not there |
| `Base64.CharIsAlphabet` | nbtools/compatlib/mkc_base64.c:77-79 | The characters for digits are the letters, the numerals, plus and slash |
| `Base64.EncodeLength` | nbtools/compatlib/mkc_base64.c:144-210 | Four characters for each three bytes or part of three |
| `Base64.EncodeInjective` | nbtools/compatlib/mkc_base64.c:144-210 | Two byte strings with one text are the same |
| `Base64.FullDigits` | nbtools/compatlib/mkc_base64.c:144-210 | The digits of a byte string hold its bytes and no other bits |
| `Base64.DigitsFull` | nbtools/compatlib/mkc_base64.c:218-350 | Digits without stray bits are those of their bytes |
| `Base64.BadEnding` | nbtools/compatlib/mkc_base64.c:301-349 | Text that ends in any other way than padding demands is no byte string's |
| `Base64.NoRoom` | nbtools/compatlib/mkc_base64.c:243-298 | Text that does not fit is no text of a byte string that fits |
| `Base64.Padding` | nbtools/compatlib/mkc_base64.c:301-333 | What follows the digits is accepted exactly if it is the padding, with white space |
| `Base64.PutDigit` | nbtools/compatlib/mkc_base64.c:228-298 | One digit is stored in the target, unless there is no room |
| `Lpcq.Queue.Run` | examples/c11/lpcq.c:50-122 | Every sequence of puts, gets, snapshots and iterator steps behaves as the abstract queue |
| `Lpcq.SnapshotInOrder` | examples/c11/lpcq.c:90-122 | Of the specification: the steps of an abstract iterator list the snapshot in order |
| `Lpcq.FirstInFirstOut` | examples/c11/lpcq.c:50-104 | Over every sequence of operations: what was in the queue and what is put, in order, is what leaves it and what is in it at the end |
| `Lpcq.SnapshotYields` | examples/c11/lpcq.c:106-122 | An iterator yields exactly its snapshot's items, in order |
| `Lpcq.NothingOnlyFromEmpty` | examples/c11/lpcq.c:58-122 | Nothing comes only from what is empty, and a snapshot leaves nothing behind |
| `Lpcq.Queue.Put` | examples/c11/lpcq.c:79-88 | Appends the item |
| `Lpcq.Queue.Get` | examples/c11/lpcq.c:58-77 | Takes the first item, or nothing |
| `Lpcq.Queue.GetAll` | examples/c11/lpcq.c:90-104 | Takes the whole queue as a snapshot though the head pointer is left as it is |
| `Lpcq.Queue.Next` | examples/c11/lpcq.c:106-122 | Yields the next item of a snapshot |
| `Bdes.RoundTripExactly` | nbtools/bdes/bdes.c:532-985 | In all five modes, for every message, key and initial vector: decryption gives the message back if and only if the mode is not the alternative one or the message is seven-bit |
| `BdesGroups.GroupsSealed` | nbtools/bdes/bdes.c:532-935 | Every group of the encryption, by position, in all five modes: from the group in the clear, the cipher, and the text before it or the initial vector |
| `BdesGroups.GroupsOpened` | nbtools/bdes/bdes.c:561-985 | Every group of the decryption of any text, by position, and how much of the last is text |
| `BdesGroups.OverIsRemainder` | nbtools/bdes/bdes.c:545-555 | What is over after whole groups is the remainder of the length |
| `Bdes.RoundTrip` | nbtools/bdes/bdes.c:532-985 | Decryption of an encrypted message always succeeds and gives what the mode carries of it: all of it, or in the alternative mode its low seven bits |
| `Bdes.EndingOf` | nbtools/bdes/bdes.c:561-589 | Any text at all is refused as incomplete exactly if it is not whole groups, and how much is written by then |
| `Bdes.EncryptedLength` | nbtools/bdes/bdes.c:545-555 | Encryption lengthens a message by one byte to a group, to whole groups |
| `Bdes.Recovers` | nbtools/bdes/bdes.c:753-795 | In the modes that feed the text back, eight undamaged bytes put decryption right again |
| `Bdes.Filter.EcbEnc` | nbtools/bdes/bdes.c:532-556 | Reads all input and writes its encryption |
| `Bdes.Filter.EcbDec` | nbtools/bdes/bdes.c:561-589 | Reads all input, looks one character ahead, and writes and reports as the specification of decryption says |
| `Bdes.Filter.CbcEnc` | nbtools/bdes/bdes.c:594-623 | Reads all input and writes its encryption |
| `Bdes.Filter.CbcDec` | nbtools/bdes/bdes.c:628-661 | Writes and reports as the specification of decryption says |
| `Bdes.Filter.CfbEnc` | nbtools/bdes/bdes.c:711-748 | Reads all input and writes its encryption, for every width |
| `Bdes.Filter.CfbDec` | nbtools/bdes/bdes.c:753-795 | Writes and reports as the specification of decryption says |
| `Bdes.Filter.CfbaEnc` | nbtools/bdes/bdes.c:800-841 | Reads all input and writes its encryption; the last group keeps its top bits |
| `Bdes.Filter.CfbaDec` | nbtools/bdes/bdes.c:846-888 | Writes and reports as the specification of decryption says |
| `Bdes.Filter.OfbEnc` | nbtools/bdes/bdes.c:894-935 | Reads all input and writes its encryption |
| `Bdes.Filter.OfbDec` | nbtools/bdes/bdes.c:940-985 | Writes and reports as the specification of decryption says |

## Left out

- Serializer.EventForest.FlushToFd: not the failed write (-1), after which the caller aborts, nor the form without a context, in which no switch is written and the depth starts at 0.
- Serializer.EventForest.Serialize: only rounds over a quiet program; flushes with producers at work are those of `Tracer.Session`. The signal block sets and the limit on the size of the file are not modelled.
- Serializer.EventForest.Write: one write of everything; short writes are in `Xfer`, and writes that fail are left out.
- Serializer.EventForest.GetIovs: a vector for a change of depth points at storage in the ring, `r_sigdepth`; that the get pass fills it is not modelled, only that it holds the ring's depth, which it always does.
- Program.Process.Perform: two things that the code does not see to are asked of a statement: a ring is taken over with a label that is true of the interruptions by it (`Runs.TakenTooEarly` shows what comes of a false one), and an interruption is not recorded where a finished span of the same ring ends (`Runs.ReadTooSoon` shows what comes of one, `Handlers.RecordInOrder` when it is harmless to the order). Acquiring a ring is one statement (`SignalRings` has its accesses), and the count of nested signals is in `Nesting`.
- Threads.StepKeeps: that a step is `Enabled` is a hypothesis here; `Handlers.DeedIsEnabled` derives it.
- Tracer.Session.Produce: that the step is `Enabled` and `Foreign` is a hypothesis here; `Program.Process.Perform` calls it without.
- Producers.EnterIsLaid: not for an interruption at the end of a finished span of the same ring; what becomes of one is in `Touching`. Runs that go on after one are not modelled further than its handler's words and the flushes of them.
- Handlers.EverythingHolds: runs with a record that touches a finished span of its ring, or with a take-over under a false label, are left out, as in `Program.Process.Perform`.
- Handlers.NothingIsInTheWay: the same two conditions on a take-over and on a record.
- Producers.PutIsLaid: the waiting for room is not modelled beyond its outcome; `RingFifo` has it for one ring, word by word.
- Tracer.Session.BeginFlush: the drop and get passes together are one step, and so are the write and the discard pass; producers do as they like between these, but not between two reads of one pass.
- RingFifo.Fifo: memory is sequentially consistent, here as in `SignalRings`, `Generation` and `Nesting`; the acquire and release orders of the code are not modelled.
- SignalRings.Ownership: of a word only the thread and depth that logged it. Waiting for a clean ring and waking the replenisher are left out.
- SignalRings.Replenish: on the states of the list at one moment, without the sleeping and waking around it.
- Generation.GenerationOrder: one order of accesses to shared memory; read-modify-write operations, which log no generation, are left out, and so are the reader's windows of generations.
- Nesting.InterruptorsAreDeeper: of words on rings nothing is modelled, so a ring without interruptions may always be clean; and acquiring a ring is one step (`SignalRings` has its accesses).
- Nesting.RestoredOnReturn: the depth and the ring; the signal mask and the handshake for a change of mask (llvm/ngrt/rvpsignal.c:836-975) are left out.
- Events.EventInFile: that an event's words stand together, not what they mean; what is read back from them is `Codec.TraceRoundTrip`, on one sequence of records, and the two are not composed.
- Codec.TraceRoundTrip: from a trace that is all in memory; the reader's call stacks, its generation numbers and its text are left out, as are operations that its table does not know. A record is legal only if its program counter is no deltop and its jump does not become short by conversion to int; `ShownExactly` says what becomes of the others.
- Memmove.Memory.Memmove1: of the trace, the accesses, their widths and their bytes; not the program counter or the generation that go with them, and no access wider than eight bytes.
- Codec.DumpTrace: from a trace that is all in memory, after the checks of the file's header, and without a limit on the number of records; the matrix of deltops, whose center the first two words are, lies within the address space.
- Xfer.Channel.Xferallv: `writeall` is left out, and so is reading, which is the same loop.
- TreeWalk.Walk.WalkAll: a visit may only push on the stack of strings. Errors of the debugging library, which end the program, are left out, as is the growth of the string stack's array.
- Paths.Ctx.WalkElements: dimensions are natural numbers and products do not overflow; arrays of more than ten dimensions, at which the program exits, are excluded.
- Col.Line.Flush: one line. Vertical motion, half lines, the buffering of lines and `-p` are left out.
- Base64.Pton: the form without a target, which only counts, is left out.
- Lpcq.Queue.Run: items are not put again before they have left the queue and every snapshot, which the links inside them cannot express. The queue is used by one thread.
- Bdes.RoundTripExactly: DES is any pair of functions on blocks of which the second undoes the first; keys, parity and the command line are left out.
- Bdes.Filter.CbcEnc: failed writes, and authentication (`cbcauth`, `cfbauth`), are left out.
- Interning of signal sets, thread creation and joining, forking, condition variables and the supervision of processes.
- The LLVM passes, the other programs of nbtools, and the example programs with races.
