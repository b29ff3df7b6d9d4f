# Elements: models and proofs

Elements is a C++ library of utilities. This project models the parts of it that keep state between calls, share it
between threads, or transform data, and proves what they promise. Each module follows one part.

| module | part |
|---|---|
| `ConnectionPool` | the MySQL connection pool: a mutex, a condition variable, one signal for each release |
| `BlockingQueue` | the queue whose producers and consumers share one condition variable, with `awake()` and the shutdown by a maximum of zero |
| `ObjectCache`, `FileCacheSystem` | the file cache: its objects under their own locks, and any number of threads handing locks over during loads |
| `LightText`, `TextCollector`, `LightParser`, `LightDocument`, `LightPages` | the light HTML parser: the text it collects and cuts, its loop, pages written and read back, and what one page leaves for the next |
| `Narrowing`, `LangDecision`, `LangDetection` | narrowing of word infos, the decision on a language, and the detection of languages by their alphabets |
| `LightArray`, `Probing`, `HashMap` | the open-addressing map, its probing order as a specification, and the storage under it |
| `Crc` | the table-driven checksum and bitwise polynomial division |
| `ApacheOutput`, `StreamInput`, `ZLibOutput`, `ZLibInput` | the stream buffers of the Apache and zlib parts |
| `Directive` | the argument parser and its dump |
| `Wrappers`, `Bytes`, `LangCodes` | what several parts share |

Code that changes fields or arrays is modelled by classes and methods, each proved against a function on values or
against an invariant; the lemmas are about those functions. The monitors are step systems as well: the steps are the
critical sections, and a run is any sequence of enabled steps of any number of threads. Where the model has a choice
that the program leaves to the outside (an answer of a system call, the time, the order of a hash map, the thread that
a signal wakes) it is a parameter, and the statements hold for all its values.

`dafny verify dfyconfig.toml` checks everything; `--resource-limit 2000000 --verification-time-limit 0
--warn-contradictory-assumptions` make it independent of the machine and stricter.

## What the proofs show about the code

- The queue can lose a wake-up when producers and consumers wait at the same time: `MixedWaitersLoseWakeup` is such a
  run, and `WakeupLostExactlyWhen` says which steps do it.
- A waiter of the pool never creates a connection and never gets null, even if creating connections fails elsewhere.
- A file replaced between `fopen64` and `stat64` stays in the cache with its old content under its new time and length.
- The file cache cannot deadlock, and it never loads a file twice at the same time, because the count of each holder is
  kept under the same mutex as its state: whoever copies or drops a pointer waits for the load.
- `append` and the cut keep both limits if these are above four. With a limit of at most four a cut text exceeds it,
  because no room was kept for the ellipsis. A single word that is cut shrinks to its first byte, which is not a whole
  character unless it is in ASCII.
- `skip_content_until_tag_` is not cleared between pages, so a page that ends inside a script silences the next one. A
  used parser gives the same text as a new one exactly if nothing was left to skip to, or the page shows only white
  space before the event that ends the skip (`PageForgetsExactlyWhen`). `PageLeavesSkip` says which pages leave
  one: none on which a limit is reached.
- The error of an unexpected space after `<` in the light parser cannot happen.
- The parser decodes with up to three character sets in turn, but the private `parse` is only ever called without a
  character set (`El/HTML/LightParser.hpp:613-621`), so `CharsetChange` is never thrown and there is one pass.
- `ObjectHolder::is_modified` and `reviewed` ask for a read lock, but the policy of the holder has a plain mutex.
- A validation level of zero replaces the language of a document by the null language whenever the last round is
  reached without a rate for any language.
- A table with a key inserted twice finds the copy in the lowest slot after a rebuild, which is the one it found before
  exactly if all copies are on one side of the home of the key. A bulk merge of tables with such keys can fail, and
  then loses entries. It succeeds exactly if there is place for all entries of the source and for the keys that only
  the table has, with one place left at each free slot of the two (`HasRoom`); with distinct keys that is always so.
- A directive is read back from its dump exactly if no argument has a quote or a backslash.
- `sync` of an Apache output buffer returns -1 without recording an error exactly if it was never written to. After an
  error the buffer still takes characters, without ever delivering them, until it is full.
- The putback window of the input buffers is kept in full as long as the source gives data. An end of input that is met
  with a full buffer keeps only as much as the receive room: if more is asked for, and there is any putback room, a run
  spoils it. An error that leaves bytes in the room takes as many from the window.
- Stepping back beyond the first character received is possible, and gives what the memory of the new buffer happened to
  hold (`BackBeforeTheFirst`): a character that was sent exactly as long as the steps back do not exceed the steps on.
- Each report of the end of file by `ZLib::InStreamBuf` puts the unused input back once more: the callback has back what
  inflate did not take exactly if the end was reported once, or nothing is left (`RestPutBackOnceExactlyWhen`).
- The checks for remaining input after the loop of `ZLib::OutStreamBuf::overflow` cannot fail: the loop ends with none.

## Model

| member | source | states |
|---|---|---|
| `ConnectionPool.ConnectionPoolFactory.Create` | El/MySQL/DB.cpp:450-469 | construction fails exactly when the minimum exceeds the maximum; a new pool is empty |
| `ConnectionPool.ConnectionPoolFactory.Db` | El/MySQL/DB.hpp:626-647 | afterwards the idle list holds exactly the minimum of new connections, in order |
| `ConnectionPool.ConnectionPoolFactory.ReuseConnection` | El/MySQL/DB.cpp:536-566 | the last idle connection is handed out, else a new one below the maximum, else none; counters and list change accordingly, also when creation fails |
| `ConnectionPool.ConnectionPoolFactory.Enter` | El/MySQL/DB.cpp:477-500 | the first critical section of connect: a connection at once, or one more waiter |
| `ConnectionPool.ConnectionPoolFactory.Resume` | El/MySQL/DB.cpp:502-534 | the section after a wait that was signalled: wait again exactly when all connections are out |
| `ConnectionPool.ConnectionPoolFactory.GiveUp` | El/MySQL/DB.cpp:504-528 | a time-out or a failed wait leaves with one waiter less |
| `ConnectionPool.ConnectionPoolFactory.Released` | El/MySQL/DB.cpp:568-598 | a returned connection is deleted or becomes idle, and the count of used ones falls |
| `ConnectionPool.ReuseKeepsPool` | El/MySQL/DB.cpp:536-566 | a connection handed out was not in use, and stops being idle; used counts exactly the connections that are out; the limits hold |
| `ConnectionPool.WakeTakesIdle` | El/MySQL/DB.cpp:530-534 | after a wait connect never returns null and never creates: a waiter that leaves the loop finds an idle connection |
| `ConnectionPool.StepKeepsInv` | El/MySQL/DB.cpp:477-598 | every step of any number of threads, with barging, time-outs, spurious wake-ups and failing creation, keeps: min <= used + idle <= max, used is the number of connections that are out, none of these is idle, the waiters are counted, and the pool is at its maximum while anybody waits |
| `ConnectionPool.StepLosesNoWakeup` | El/MySQL/DB.cpp:500-598 | every step keeps: with a waiter asleep, no more connections are free than threads are signalled and have not yet run; threads that woke up by themselves do not count |
| `ConnectionPool.SleepersMeanAllOut` | El/MySQL/DB.cpp:500-534 | if threads sleep and none is signalled, every connection the pool may have is out, whoever else is awake |
| `ConnectionPool.RunIsSafe` | El/MySQL/DB.cpp:477-598 | both invariants hold after every run from the pool that db() filled |
| `ConnectionPool.RunBlocksOnlyWhenAllOut` | El/MySQL/DB.cpp:477-598 | in every run, sleepers while no signal is on its way mean that the maximum of connections is in use |
| `ConnectionPool.SwallowedSignalLosesWakeup` | El/MySQL/DB.cpp:502-534 | exactly when a wait that timed out while signalled would lose the wake-up: the assumption on the condition variable is needed |
| `ConnectionPool.ReleasesShrink` | El/MySQL/DB.cpp:568-598 | n releases with nobody waiting take the number of connections from T to T - n, but not below the minimum |
| `ConnectionPool.WaitersKeepConnections` | El/MySQL/DB.cpp:568-598 | while somebody waits no release deletes a connection |
| `ConnectionPool.ConnectWaitsExactlyWhen` | El/MySQL/DB.cpp:477-566 | connect waits if and only if the maximum of connections is out; otherwise it hands out one, creates it only if none is idle, and changes nothing if that fails |
| `ConnectionPool.ReleasedIsReused` | El/MySQL/DB.cpp:536-598 | a released connection that is kept is the next to be handed out |
| `BlockingQueue.Queue.DoEnqueue` | El/Queue.hpp:158-187 | the element goes to the back, the front, or the random place below the size, and the size grows by one |
| `BlockingQueue.Queue.Enqueue` | El/Queue.hpp:189-218 | the first section of enqueue: admitted below the maximum, refused at once with a maximum of zero or no time, else one more waiter; it signals exactly when it admits |
| `BlockingQueue.Queue.ResumeEnqueue` | El/Queue.hpp:220-262 | the section after a wait of a producer, with the shutdown and the drain cases |
| `BlockingQueue.Queue.Dequeue` | El/Queue.hpp:264-295 | the first section of dequeue |
| `BlockingQueue.Queue.ResumeDequeue` | El/Queue.hpp:297-346 | the section after a wait of a consumer |
| `BlockingQueue.Queue.StartAwake` | El/Queue.hpp:129-142 | awake returns at once without waiters, else it is counted |
| `BlockingQueue.Queue.CheckAwake` | El/Queue.hpp:144-155 | awake ends exactly when it observes no waiters |
| `BlockingQueue.Queue.SetMaxSize` | El/Queue.hpp:119-127 | only the maximum changes |
| `BlockingQueue.StepConserves` | El/Queue.hpp:158-346 | the size is the length of the contents, and all that entered is what left and what is still there, as multisets |
| `BlockingQueue.AdmittedBelowMax` | El/Queue.hpp:189-262 | no step adds an element at or above the maximum |
| `BlockingQueue.StepKeepsOrder` | El/Queue.hpp:158-346 | without front and random insertion, what left followed by the contents is what entered, in order |
| `BlockingQueue.StepKeepsInv` | El/Queue.hpp:119-346 | every step keeps the sizes, the conservation and the counts of waiters and of awaking threads |
| `BlockingQueue.WakeupLostExactlyWhen` | El/Queue.hpp:189-346 | a step loses a wake-up if and only if a resumed thread cannot go on, sleeps again or leaves without a signal, and was the only one signalled while a sleeper could proceed |
| `BlockingQueue.OneKindLosesNothing` | El/Queue.hpp:189-346 | with waiters of one kind only, no step loses a wake-up |
| `BlockingQueue.StepKeepsShutdownChain` | El/Queue.hpp:119-346 | with a maximum of zero and a sleeper, some signalled waiter is pending; each one that leaves signals the next |
| `BlockingQueue.DrainingStep` | El/Queue.hpp:129-346 | while awake() runs no thread goes to sleep, and each resumed waiter lowers the number of waiters: the measure never grows and falls with every step of progress |
| `BlockingQueue.DrainingProgresses` | El/Queue.hpp:129-346 | while a waiter remains and awake() runs, a step of progress is possible |
| `BlockingQueue.AwakeLeavesWhenDrained` | El/Queue.hpp:144-155 | awake() leaves only when no waiter of any kind is left |
| `BlockingQueue.DrainIsBounded` | El/Queue.hpp:129-346 | in any run of steps while draining, the progress made and the measure left are at most the measure at the start |
| `BlockingQueue.RunIsSafe` | El/Queue.hpp:93-346 | the invariants and the shutdown chain hold in every state of every run from the empty queue |
| `BlockingQueue.RunIsFifo` | El/Queue.hpp:158-346 | in every run without front and random insertion the elements leave in the order they entered |
| `BlockingQueue.RunLosesNoWakeup` | El/Queue.hpp:189-346 | a run in which waiters are always of one kind loses no wake-up |
| `BlockingQueue.MixedWaitersLoseWakeup` | El/Queue.hpp:189-346 | a run of two consumers and two producers ends with a sleeping producer, room, and nobody signalled |
| `BlockingQueue.EnqueueComesTo` | El/Queue.hpp:158-218 | with room the element enters where its strategy says and somebody is signalled; else the producer waits, or with a maximum of zero, no time or a running awake() is refused |
| `BlockingQueue.DequeueComesTo` | El/Queue.hpp:264-295 | a consumer gets the first element if there is one; else it waits, or gets nothing |
| `BlockingQueue.ResumeComesTo` | El/Queue.hpp:220-346 | a resumed waiter does its operation if it can, waits again if it cannot, leaves on a shutdown or a running awake(), and when it signals the next |
| `ObjectCache.ObjectHolder.Modified` | El/Cache/ObjectCache.hpp:275-308 | modified unless loaded with the recorded time and length of the file; an exception while loading |
| `ObjectCache.ObjectHolder.Fetch` | El/Cache/ObjectCache.cpp:26-55 | the object if loaded, which marks the access, else the exception of the state |
| `ObjectCache.ObjectHolder.ReadChunks` | El/Cache/ObjectCache.cpp:101-115 | read in chunks, the object gets the whole content, and the hash is the checksum of all of it |
| `ObjectCache.ObjectHolder.Load` | El/Cache/ObjectCache.cpp:57-160 | the four outcomes of a load and the state each leaves, with the time and length of the version that stat saw |
| `ObjectCache.FileCache.Erase` | El/Cache/ObjectCache.hpp:382-391 | exactly that name is forgotten; the empty name changes nothing |
| `ObjectCache.FileCache.Clear` | El/Cache/ObjectCache.hpp:374-380 | nothing is cached |
| `ObjectCache.FileCache.Sweep` | El/Cache/ObjectCache.hpp:405-431 | if it is due, exactly the expired entries other than the wanted one go, in any order of the hash map |
| `ObjectCache.FileCache.FindUnmodified` | El/Cache/ObjectCache.hpp:433-465 | the lookup under the read lock: shortcut within the review period, else unmodified and marked, else a miss |
| `ObjectCache.FileCache.FindOrCreate` | El/Cache/ObjectCache.hpp:467-492 | the second look under the write lock, and otherwise a new holder with the next number in place of the old one |
| `FileCacheSystem.StepKeepsInv` | El/Cache/ObjectCache.hpp:328-495 | every step of any number of threads keeps: writers exclude all others, each holder that is loading is built by exactly one thread and is in the container, pointers that others took are to holders past loading, numbers count the holders |
| `FileCacheSystem.FreeIsSettled` | El/Cache/ObjectCache.cpp:57-68 | a holder whose mutex is free is not loading, for anyone who has a container lock: what the hand-over of the locks is for |
| `FileCacheSystem.NobodySeesLoading` | El/Cache/ObjectCache.hpp:275-308 | no thread observes a holder that is loading, and after a successful check the object is there |
| `FileCacheSystem.OneLoadAtATime` | El/Cache/ObjectCache.hpp:467-495 | two threads never load the same file at the same time |
| `FileCacheSystem.NumbersGrow` | El/Cache/ObjectCache.hpp:489 | a new object has a larger number than all objects that are loaded or being loaded |
| `FileCacheSystem.NeverStuck` | El/Cache/ObjectCache.hpp:328-495 | whenever a call is in progress, some thread can go on: no deadlock between the container lock, the mutexes of the holders and the loads |
| `FileCacheSystem.RunKeepsInv` | El/Cache/ObjectCache.hpp:328-495 | the invariant holds in every state of every run from the empty cache |
| `FileCacheSystem.CachedObjectsAreCurrent` | El/Cache/ObjectCache.hpp:433-487 | without a review period a cached object is returned only if, during this very call, the file had the time and the length recorded with it; nothing intervened in that thread |
| `FileCacheSystem.ContentIsCurrent` | El/Cache/ObjectCache.cpp:70-160 | if time and length tell versions apart, the returned content is that of the file exactly when the version opened by the load had the content of the version it looked at |
| `FileCacheSystem.ReplacedWhileLoading` | El/Cache/ObjectCache.cpp:70-160 | a file replaced between fopen and stat leaves old content under the new time and length, and it passes for unmodified |
| `FileCacheSystem.OldContentStays` | El/Cache/ObjectCache.hpp:328-495 | a whole run from the empty cache, for any file and any newer version, that ends with the old content cached under the new time and length, and unmodified |
| `FileCacheSystem.GetHits` | El/Cache/ObjectCache.hpp:393-465 | a get that nothing intervenes in, of a name that is cached and within its review period or unmodified, ends with the object of the holder, or the error of its load, without another load; only the marks of access and review change |
| `FileCacheSystem.GetMisses` | El/Cache/ObjectCache.hpp:433-495 | a get that nothing intervenes in, of any other name, ends with a new load under the next number: the content and checksum of the file with its time and length, or its failure |
| `FileCacheSystem.ModifiedRuns` | El/Cache/ObjectCache.hpp:328-372 | a call of modified that nothing intervenes in marks the object as accessed and reviewed exactly if it was compared and the file has its time and length, and changes nothing else |
| `FileCacheSystem.SweepsWhenDue` | El/Cache/ObjectCache.hpp:405-414 | get sweeps first if and only if the time-out has passed since the last sweep |
| `FileCacheSystem.SweepForgetsStale` | El/Cache/ObjectCache.hpp:414-431 | a sweep forgets exactly the names not accessed for the time-out, except the wanted one |
| `FileCacheSystem.ForgetsNames` | El/Cache/ObjectCache.hpp:374-391 | erase forgets its name, and clear ends when nothing is cached |
| `LightText.AppendKeepsGood` | El/HTML/LightParser.hpp:244-283 | append keeps: no white space at the beginning or next to other white space, last_space_ agrees with the last character, the characters are counted, and white space was only let in within the limits |
| `LightText.Utf8Decodes` | El/String/Manip.hpp:592-640 | the encoding of a character is the shortest of UTF-8 and decodes to it, without its highest bit |
| `LightText.SpacesAreWhite` | El/String/Unicode.hpp:248-254 | white space is that of the Unicode standard, one by one |
| `LightText.LimitsHold` | El/HTML/LightParser.cpp:648-655 | the final text keeps a limit if and only if it is not cut or the limit is above four; so with both limits above four both hold for every text |
| `LightText.CutExactlyWhen` | El/HTML/LightParser.cpp:648-655 | a text is cut if and only if without its last white space it is longer than a limit less the ellipsis; else it stays as it is without that white space |
| `LightText.CutWhere` | El/HTML/LightParser.cpp:648-655 | a cut text is what was before its last white space, or its first byte if there is none, and the ellipsis |
| `LightText.TextIsCollapsed` | El/HTML/LightParser.hpp:244-283 | the text is the encoding of the characters with leading white space dropped and every other run of it replaced by one line feed or space |
| `LightText.AcceptedExactlyWhen` | El/HTML/LightParser.hpp:244-283 | a page goes on if and only if each white space comes while the collapsed text before it is within the limits |
| `LightText.CutKeepsCharacters` | El/HTML/LightParser.cpp:648-655 | the final text consists of whole characters unless a text without white space was cut whose first character has more than one byte |
| `TextCollector.Collector.Append` | El/HTML/LightParser.hpp:244-283 | append with all its branches, and MaxLenReached as the answer false |
| `TextCollector.Collector.RTrim` | El/HTML/LightParser.hpp:285-308 | exactly the trailing bytes of the kind go, but never the first byte; the answer is their number |
| `TextCollector.Collector.ProcessTag` | El/HTML/LightParser.hpp:310-408 | what a tag adds to the text and which tag it makes the parser skip to |
| `TextCollector.Collector.Finish` | El/HTML/LightParser.cpp:648-655 | the end of parse: trimmed, and cut with an ellipsis if still too long |
| `LightParser.TurnKeepsInv` | El/HTML/LightParser.cpp:173-625 | every turn of the loop keeps the pointers inside the text and not past the scan point, reads a value exactly in its state, and moves on or leaves a tag or a value |
| `LightParser.TwoTurnsPerCharacter` | El/HTML/LightParser.cpp:173-625 | the loop ends, although it steps back, within two turns for each character |
| `LightParser.ErrorExactlyWhen` | El/HTML/LightParser.cpp:173-625 | the turns that fail: only in strict mode, at < inside a tag or at a reference that cannot be decoded; the error of a space after < cannot happen |
| `LightParser.TagsBeginWith` | El/HTML/LightParser.cpp:270-283 | < begins a tag before a letter of ASCII, / ? or ! |
| `LightParser.LaxNeverFails` | El/HTML/LightParser.cpp:173-646 | with PF_LAX no page is refused |
| `LightParser.EventsEndInText` | El/HTML/LightParser.cpp:173-629 | characters and tags come only while text is read, so a reached limit never ends in an error |
| `LightParser.ParsedAsEvents` | El/HTML/LightParser.cpp:132-656 | a page is refused exactly if the loop fails, or in strict mode ends in a tag, before a limit is reached; otherwise the text is what the events make of it |
| `LightParser.SkipLeftWhen` | El/HTML/LightParser.hpp:310-408 | read to their end, events leave a tag to skip to exactly if it was set before or by a script, textarea or style tag, and nothing after that ended it or set another |
| `LightParser.PageLeavesSkip` | El/HTML/LightParser.hpp:244-408 | a page leaves a tag to skip to exactly if that is so and no limit is reached on it: characters are only refused while nothing is skipped |
| `LightParser.Parse` | El/HTML/LightParser.cpp:130-656 | the whole of parse on an object that may have been used before, and when it leaves a tag to skip to, also when it throws |
| `LightParser.ParsedKeepsLimits` | El/HTML/LightParser.cpp:132-656 | for every page and both limits above four, the text that parse leaves is within both |
| `LightDocument.DocumentRoundTrip` | El/HTML/LightParser.cpp:173-625 | a page is read back as exactly what it was written from: texts, decoded references, comments, characters that stand for themselves, and tags with any spaces, attributes in either quotes or without, a slash at the end, or in lax mode no end |
| `LightDocument.DocumentIsCollected` | El/HTML/LightParser.cpp:132-656 | such a page is accepted, with the text that its parts make |
| `LightDocument.TextPageIsCollapsed` | El/HTML/LightParser.cpp:132-656 | a page of text alone comes out as the encoding of its collapsed characters |
| `LightDocument.ReferencesAreRead` | El/HTML/LightParser.cpp:132-656 | a page of text, references and comments comes out as the encoding of what a reader sees, collapsed: the value of each reference, and in lax mode the ampersand of one that has none |
| `LightDocument.ReadsComment` | El/HTML/LightParser.cpp:173-233 | a comment is passed over in text, in a tag and in the value of an attribute, and leaves nothing behind |
| `LightPages.FedAbsorbs` | El/HTML/LightParser.hpp:244-408 | the events of a page come down to appending the characters that are not skipped, in order, until one is refused; the tag skipped to is a function of the events |
| `LightPages.BlockBreaksLine` | El/HTML/LightParser.hpp:320-345 | block tags and their end tags break the line |
| `LightPages.ItemHasBullet` | El/HTML/LightParser.hpp:330-335 | an item begins a line with a bullet |
| `LightPages.SkipsToItsEnd` | El/HTML/LightParser.hpp:346-357 | what a script, textarea or style tag begins is skipped until its own end tag |
| `LightPages.ParsedIsCollapsed` | El/HTML/LightParser.cpp:132-656 | for every page and every tag skipped to, the text before the cut is the encoding of a prefix of these characters, collapsed; of all of them if none was refused |
| `LightPages.ParsedKeepsCharacters` | El/HTML/LightParser.cpp:648-655 | for every page, the text consists of whole characters unless a single word is cut that begins with a longer character |
| `LightPages.UsedParserAgreesExactlyWhen` | El/HTML/LightParser.cpp:139-155 | for a page whose text is not cut, a used parser gives the text of a new one if and only if the page is a syntax error, nothing was left to skip to, or only white space comes before the end of the skip |
| `LightPages.PageForgetsExactlyWhen` | El/HTML/LightParser.cpp:139-155 | the same for an accepted page and all limits at once |
| `LightPages.TextPageForgetsExactlyWhen` | El/HTML/LightParser.cpp:139-155 | for a page without tags: nothing was left to skip to, or the page has no text |
| `LightPages.UnfinishedScriptSilencesNextPage` | El/HTML/LightParser.cpp:139-155 | two pages: one that is a script tag, and then any page of text, which comes out empty; a new parser would give its collapsed characters, and nothing exactly if there are none |
| `Narrowing.IsContained` | El/Dictionary/Morphology.hpp:390-436 | contained is strict inclusion of the non-empty sets of ids by size and membership |
| `Narrowing.ContainedTransitive` | El/Dictionary/Morphology.hpp:390-436 | containment is transitive |
| `Narrowing.Narrow` | El/Dictionary/Morphology.cpp:1239-1259 | the double loop in place |
| `Narrowing.NarrowReachesFixpoint` | El/Dictionary/Morphology.cpp:1239-1259 | after one double pass no word info is contained in another, and each is an original one equal to or contained in its old value |
| `Narrowing.NarrowIdempotent` | El/Dictionary/Morphology.cpp:1239-1259 | a second pass changes nothing |
| `Narrowing.NarrowIsMinimal` | El/Dictionary/Morphology.cpp:1239-1259 | no original word info is contained in any result |
| `LangDecision.CollectWeights` | El/Dictionary/Morphology.cpp:1357-1384 | the loop over the dictionaries: the default language wins at its level, or the weights of all rated languages |
| `LangDecision.SortedFront` | El/Dictionary/Morphology.cpp:1390-1409 | the front of the sorted weights |
| `LangDecision.AddGuesses` | El/Dictionary/Morphology.cpp:1431-1459 | the rates with the guesses added do not depend on the order of the hash map |
| `LangDecision.AdjustLang` | El/Dictionary/Morphology.cpp:1319-1508 | the decision, with its recursion |
| `LangDecision.RecursionEnds` | El/Dictionary/Morphology.cpp:1461-1474 | the recursion is at most one deep and distributes the same number of words |
| `LangDecision.TopIsWinner` | El/Dictionary/Morphology.cpp:87-112 | the front of the weights is the winner: no rated language has more words, and of those with as many it is the given one, or else the first in the table of alphabets, before those that are not in it by their numbers |
| `LangDecision.WinnerUnique` | El/Dictionary/Morphology.cpp:87-112 | there is at most one such language |
| `LangDecision.LastRound` | El/Dictionary/Morphology.cpp:1376-1508 | the last round keeps the language if it ends early; else the winner takes over if its share reaches the level or exceeds that of the unknown words; without any rate the null language is named at level zero |
| `LangDecision.LeavesEarlyWhen` | El/Dictionary/Morphology.cpp:1330-1424 | a round ends early if and only if there are no words, the given language has its level, or it has no dictionary and every rated language has fewer words than are unknown |
| `LangDecision.SecondRound` | El/Dictionary/Morphology.cpp:1431-1474 | there is a second round if and only if the first does not end early and some guess is for the given language, which has an alphabet, or for a recognized one; guessed words are then added to the rates and count as recognized |
| `LangDecision.OnlyWinnersTakeOver` | El/Dictionary/Morphology.cpp:1319-1508 | with a positive level a changed language is the winner of the last round, and its share of all words reaches the level or exceeds that of the unknown ones |
| `LangDecision.LevelZeroForgetsLanguage` | El/Dictionary/Morphology.cpp:1476-1489 | a language is replaced by the null language exactly if the level is zero, the last round does not end early, and no listed language has a rate in it |
| `LangDecision.OrderDoesNotMatter` | El/Dictionary/Morphology.cpp:1357-1384 | the result does not depend on the order of the dictionaries |
| `LangDecision.Popularity` | El/Dictionary/LangDetection.cpp:417-425 | the place of the language in the table, or a number past the table that tells the others apart |
| `LangDetection.BuildIndex` | El/Dictionary/LangDetection.cpp:353-381 | the index lists for each character exactly the languages that write it, each once, even where ranges overlap |
| `LangDetection.CountingIsForAll` | El/Dictionary/LangDetection.cpp:437-488 | a language is counted for every known character if and only if the index lists it for all of them |
| `LangDetection.LanguageCounters` | El/Dictionary/LangDetection.cpp:427-491 | accepted words and the languages that remain |
| `LangDetection.SpeaksIsListsAll` | El/Dictionary/LangDetection.cpp:427-491 | what the index says agrees with the ranges of the alphabets |
| `LangDetection.Languages` | El/Dictionary/LangDetection.cpp:493-510 | exactly the languages whose ranges contain every known character of an accepted word |
| `LangDetection.Choose` | El/Dictionary/LangDetection.cpp:522-553 | a member if there is one: the hint, or else the first by popularity |
| `LangDetection.Language` | El/Dictionary/LangDetection.cpp:512-554 | a language of the word whenever there is one, else the null language; the hint if the hint is one, and otherwise the most popular |
| `LightArray.LightArray.Resize` | El/LightArray.hpp:290-325 | the old elements stay as far as they fit, and the others are new |
| `LightArray.LightArray.Release` | El/LightArray.hpp:445-452 | the storage moves to the other array, and this one is empty |
| `LightArray.LightArray.Swap` | El/LightArray.hpp:454-463 | the storages change places |
| `HashMap.Map.Resize` | El/Hash/Map.hpp:195-203 | a table of the size whose keys are all empty |
| `HashMap.Map.Find` | El/Hash/Map.hpp:447-485 | the first slot with the key in probing order, or none in the whole table |
| `HashMap.Map.Insert` | El/Hash/Map.hpp:305-352 | the first empty slot in probing order gets the pair; the two errors |
| `HashMap.Map.ForceIn` | El/Hash/Map.hpp:270-296 | the value is replaced, or the table rebuilt with one slot more; it never fails |
| `HashMap.Map.ForceInAll` | El/Hash/Map.hpp:228-262 | the bulk merge in place; it succeeds exactly if there is room for the keys of both tables, counted before |
| `Probing.EarlyStopAgrees` | El/Hash/Map.hpp:447-485 | in a chained table a search that stops at the first empty slot finds what the full scan finds |
| `Probing.PutChained` | El/Hash/Map.hpp:305-352 | insert keeps every chain: no empty slot between the home of a key and its slot |
| `Probing.PutLookup` | El/Hash/Map.hpp:305-352 | after an insert the first copy of the key is found, and all other keys as before |
| `Probing.GrowNeverFull` | El/Hash/Map.hpp:285-295 | the rebuild by one never runs out of place |
| `Probing.ForceInLookup` | El/Hash/Map.hpp:270-296 | after force_in the key has the value; every other key keeps what it had, except that a rebuild finds its copy in the lowest slot |
| `Probing.MergeNeverFull` | El/Hash/Map.hpp:230-262 | with distinct keys on both sides the merge never runs out of place, whatever the empty slots |
| `Probing.DuplicatesOverflowMerge` | El/Hash/Map.hpp:230-262 | two tables with a key that occurs twice whose merge runs out of place |
| `Probing.MergeFitsExactlyWhen` | El/Hash/Map.hpp:230-262 | the merge never runs out of place if and only if the new size suffices for all entries of the source and the keys that only the table has, and leaves a place at each free slot |
| `Probing.NeverFullWhen` | El/Hash/Map.hpp:246-249 | the loop that inserts the entries of the source never meets a full table if and only if there is place for all of them, repeated keys included, and one left at each free slot |
| `Probing.NeverFullMissingWhen` | El/Hash/Map.hpp:251-259 | the loop that inserts what is not found never meets a full table if and only if there is place for the new keys, each once, and one left at each free slot |
| `Probing.MergeLookup` | El/Hash/Map.hpp:230-262 | after the merge a key has its source value, else its old one |
| `Probing.RunIsMap` | El/Hash/Map.hpp:270-352 | over every run of inserts, force_ins and merges in which no rebuild meets copies of the key on both sides of its home, the value of the key is what those operations mean, where the first inserted copy wins |
| `Probing.DistinctRunIsMap` | El/Hash/Map.hpp:228-352 | over every run that makes no second copy of a key this holds for every key without condition, and keys stay distinct |
| `Probing.RunChained` | El/Hash/Map.hpp:228-352 | over every run of inserts, force_ins and merges the chains hold |
| `Probing.RebuildFindsLowest` | El/Hash/Map.hpp:285-295 | a rebuild finds the copy in the lowest slot, and this is the copy found before if and only if all copies are on one side of the home |
| `Probing.RebuildReorders` | El/Hash/Map.hpp:285-295 | a key inserted twice into a table of two slots, and found in its other copy after a rebuild |
| `Crc.TableIsRemainder` | El/CRC.hpp:43-108 | each of the 256 entries is the remainder of its index by the generator 0x04C11DB7 |
| `Crc.Update` | El/CRC.hpp:110-114 | the loop, for registers of 32 bits or more |
| `Crc.ChunkIndependent` | El/CRC.hpp:110-114 | a message may be cut into chunks at any place |
| `Crc.ChecksumLinear` | El/CRC.hpp:110-114 | the checksum of the exclusive or of states and of equally long messages is the exclusive or of the checksums |
| `Crc.ChecksumDivides` | El/CRC.hpp:38-115 | on 32 bits the table form is bitwise long division, for every start and message |
| `Crc.AbsorbDivides` | El/CRC.hpp:110-114 | one byte on a register of 8, 16, 32 or 64 bits: the register moves up, and the remainder of the byte that leaves it, by bitwise division, is added at the low end |
| `Crc.BurstDetected` | El/CRC.hpp:38-115 | two messages that differ only in a burst of up to 32 bits have different checksums |
| `ApacheOutput.OutStreamBuf.Create` | El/Apache/Stream.cpp:173-198 | an empty buffer size is refused |
| `ApacheOutput.OutStreamBuf.Overflow` | El/Apache/Stream.cpp:204-275 | overflow with partial writes and compaction |
| `ApacheOutput.OutStreamBuf.Sync` | El/Apache/Stream.cpp:277-319 | the loop of sync over partial writes |
| `ApacheOutput.NothingLostOrRepeated` | El/Apache/Stream.cpp:204-319 | over all calls and all partial writes, bytes accepted followed by bytes pending are the bytes taken, in order |
| `ApacheOutput.PutSucceedsWhen` | El/Apache/Stream.cpp:204-275 | a character is taken if and only if there is room, or the stream has not failed and is new or its next write is accepted at least in part; what is accepted leaves the buffer |
| `ApacheOutput.SyncDelivers` | El/Apache/Stream.cpp:277-319 | a successful sync leaves nothing behind |
| `ApacheOutput.SyncSucceedsWhen` | El/Apache/Stream.cpp:277-319 | sync returns zero exactly if the stream was written to, has not failed, and the answers to come are positive until they add up to what is pending; it fails without recording an error exactly if the stream was never written to |
| `ApacheOutput.FailureIsFinal` | El/Apache/Stream.cpp:204-319 | after a failure nothing more is accepted, while characters are still taken as long as there is room |
| `StreamInput.InStreamBuf.Underflow` | El/Apache/Stream.cpp:82-112 | underflow with its two places to read to |
| `StreamInput.InStreamBuf.ReadToBuf` | El/Apache/Stream.cpp:114-145 | what one block of data, an end or an error does to the get area |
| `StreamInput.InStreamBuf.Discard` | El/Apache/Stream.cpp:147-151 | only the mark is set, after which underflow gives the end of file |
| `StreamInput.ForwardsDelivers` | El/Apache/Stream.cpp:82-145 | one call: what was read and what the get area holds stay what the source gave |
| `StreamInput.RunDelivers` | El/Apache/Stream.cpp:82-145 | over every run of reading forwards, what was read and what the get area holds is exactly what the source gave, in order, across moves, short reads, ends and errors |
| `StreamInput.EndIsNotFinal` | El/Apache/Stream.cpp:82-145 | data that comes after an end of input is received |
| `StreamInput.ErrorIsFinal` | El/Apache/Stream.cpp:82-145 | after an error nothing more is received |
| `StreamInput.DataKeepsWindow` | El/Apache/Stream.cpp:82-145 | a successful refill keeps the last characters received before the read pointer, across the move |
| `StreamInput.RunKeepsWindow` | El/Apache/Stream.cpp:82-145 | over any run, the last characters up to any limit stand before the end of the get area, if each end or error met after a move leaves room for the limit |
| `StreamInput.DataRunIsHarmless` | El/Apache/Stream.cpp:82-145 | runs in which the source gives data satisfy this for every limit |
| `StreamInput.WindowKeptExactlyWhen` | El/Apache/Stream.cpp:82-145 | all runs of a new buffer keep the window up to the limit if and only if limit and n fit into what is read at once, or nothing can be put back and errors leave nothing, or the limit is zero |
| `StreamInput.EndSpoilsWindow` | El/Apache/Stream.cpp:82-145 | a run of a new buffer in which an end of input spoils a window larger than what is read at once |
| `StreamInput.ErrorSpoilsWindow` | El/Apache/Stream.cpp:82-145 | a run of a new buffer in which what an error leaves in the room spoils the window |
| `StreamInput.RunReadsReceived` | El/Apache/Stream.cpp:82-145 | over every such run, also with steps back, inside the window the next character is the one that the steps on and back lead to among those received |
| `StreamInput.NextCharacterIs` | El/Apache/Stream.cpp:82-145 | and beyond the first one it is a character that the new buffer held; so it is one that was sent if and only if the steps back do not exceed the steps on, unless the buffer happens to hold what is sent |
| `StreamInput.BackBeforeTheFirst` | El/Apache/Stream.cpp:82-145 | one character received, one step back, and a character that nobody sent |
| `StreamInput.BackGivesAgain` | El/Apache/Stream.cpp:82-145 | stepping back inside the window gives the characters again |
| `ZLibInput.Inflater.ReadToBuf` | El/Compress/ZLib.cpp:510-601 | read_to_buf with its loop over inflate, the callback and the ways it ends |
| `ZLibInput.ReadContinues` | El/Compress/ZLib.cpp:510-601 | one read: the get area receives what inflate made, every byte of the callback is taken by inflate or kept, and each end of file puts all that is kept back, also after the end |
| `ZLibInput.FirstAnswerDecides` | El/Compress/ZLib.cpp:520-590 | what each answer of inflate makes of a read: an error, data, the end of file, or another turn; and which input it consumes |
| `ZLibInput.RestIsRepeated` | El/Compress/ZLib.cpp:510-601 | over every run of reads the callback was given back the unused input as often as the end of file was reported |
| `ZLibInput.RestPutBackOnceExactlyWhen` | El/Compress/ZLib.cpp:510-601 | the callback has back exactly what inflate did not take if and only if the end was reported once or nothing is left, and at most once if and only if it was reported at most once or nothing is left |
| `ZLibInput.RestPutBackTwice` | El/Compress/ZLib.cpp:510-601 | one byte inflated, three left and two reads at the end: they are put back twice |
| `ZLibInput.InflatedIsDelivered` | El/Compress/ZLib.cpp:475-601 | over every run of the whole buffer, what was read forwards and what the get area holds is exactly what inflate made, and what it took and what is kept is what the callback gave |
| `ZLibOutput.OutStreamBuf.PushWritePending` | El/Compress/ZLib.hpp:336-363 | across partial writes and the move, bytes accepted followed by bytes pending stay the bytes compressed, and bytes are offered until the receiver refuses |
| `ZLibOutput.PushedAllWhen` | El/Compress/ZLib.hpp:336-363 | all pending bytes are accepted if and only if the answers of the receiver are positive until together they suffice |
| `ZLibOutput.OutStreamBuf.DeflateAll` | El/Compress/ZLib.cpp:173-217 | the loop over the input buffer: all of it is taken, in order and without a flush, or an error is recorded that deflate gave |
| `ZLibOutput.OutStreamBuf.Overflow` | El/Compress/ZLib.cpp:133-238 | a character is taken exactly if overflow succeeds, which it does unless the receiver refused or deflate gave an error; both conservation laws |
| `ZLibOutput.OutStreamBuf.FlushZlib` | El/Compress/ZLib.cpp:308-398 | zero means that deflate was asked to flush, or to finish, until it gave nothing more, and that all compressed bytes were accepted; else the receiver refused or deflate gave an error |
| `ZLibOutput.OutStreamBuf.Sync` | El/Compress/ZLib.cpp:240-306 | zero means that everything put is compressed, flushed and accepted |
| `ZLibOutput.OutStreamBuf.Finalize` | El/Compress/ZLib.hpp:365-385 | without an error everything put is compressed, deflate was asked to finish until it gave nothing more, and all is accepted |
| `Directive.Directive.Read` | El/Directive.hpp:116-241 | the argument parser |
| `Directive.Directive.Dump` | El/Directive.hpp:291-304 | the printed directive |
| `Directive.EscapedRoundTrip` | El/Directive.hpp:116-304 | printed with escapes, every list of arguments is read back |
| `Directive.PiecesRoundTrip` | El/Directive.hpp:116-241 | arguments with and without quotes, with escapes, and any white space between and around them, are read back |
| `Directive.ErrorsAreFound` | El/Directive.hpp:116-241 | the four errors after any arguments, and their positions |
| `Directive.DumpRoundTrip` | El/Directive.hpp:116-304 | a dump is read back if and only if no argument has a quote or a backslash |
| `Directive.ParseCost` | El/Directive.hpp:133-218 | a text that parses holds exactly the backslashes that its arguments cost |

## Left out

- `db()` of the pool with a connection that cannot be created, and null pointers and unsigned wrap-around of the
  counters in the monitors; the invariants exclude the latter.
- A timed-out wait that has consumed a signal: POSIX leaves it open, and the pool and queue are modelled without it;
  `ConnectionPool.SwallowedSignalLosesWakeup` says what it would cost.
- Real time, fairness, and liveness of the queue beyond `awake()` and a maximum of zero.
- `rand() * size_` of the queue in 64 bits: taken as exact.
- Objects that override `is_modified` (`VariablesMap`), loads that end in anything but `El::Exception`, `downcast`, and
  reference counts as such; a file is replaced as a whole or removed, never changed in place.
- BlockingQueue.Queue.ResumeEnqueue: the answer of the wait is a separate step, and the deadline is not computed.
- FileCacheSystem.ModifiedRuns: the answer of `modified` is not recorded in the system, only what the call leaves.
- FileCacheSystem.CachedObjectsAreCurrent: with a review period an object may be returned unchecked within it, counted
  from the last check or from the end of the load; the length of that time is not modelled.
- LightParser.Parse: images, links, frames, base and meta attributes are events without further effect; line and column
  numbers of messages are not kept; `towlower` after `<` is that of the C locale; lower case and the values of
  references are parameters; a page is the characters before its terminating zero.
- LightDocument.DocumentRoundTrip: for names without the characters that end a name, values that neither end early nor
  open a comment, and attributes that have values.
- TextCollector.Collector.ProcessTag: images, links, frames, meta and XML declarations are not modelled; what they do to
  the text and to the skip is nothing.
- TextCollector.Collector.RTrim: the index is an `unsigned`, so a text of 4 GB or more is outside the model.
- LightText.TextIsCollapsed: for the characters before the first that is refused, which ends the page.
- `guess_lemma`, `match_length`, `token_type`, `pseudo_id`, `get_normal_forms`, `add_rate`, and reading of dictionaries.
- LangDecision.SortedFront: of `std::sort` only the front of the result is modelled, which is all that is used; products
  with 100 are not bounded.
- LangDetection.LanguageCounters: the dense hash map is a map, and erasing while iterating is the removal of its key.
- HashMap.Map.ForceInAll: of two different tables, and with one empty key for both; the growth of a table is not bounded
  by `size_t`.
- Probing.RunIsMap: a run in which a merge fails is given no meaning for the keys, only for the slots.
- `insert` at an index, mutable `operator[]`, `write` and `read` of the hash map, and the rest of `LightArray`.
- Crc.ChecksumDivides: for 32 bits; on wider registers the program does not divide by one polynomial.
- Directive.Directive.Read: without types, so `validate` and the messages are not modelled; positions of errors are.
- ApacheOutput.OutStreamBuf.Overflow: called as `sputc` calls it, with a full buffer or none, and not with an end of
  file as the character; the callback sees the accepted bytes and is not modelled apart.
- ZLibOutput.OutStreamBuf.DeflateAll: deflate answers from a list that ends in an error without progress, which covers
  every loop that ends; that a call succeeds makes no claim on the compressed format.
- ZLibInput.Inflater.ReadToBuf: without the pointers; `underflow` of this buffer has the same code as the one in
  `StreamInput`, and `ZLibInput.InflatedIsDelivered` joins the two on values. Checksums and timers are not modelled.
