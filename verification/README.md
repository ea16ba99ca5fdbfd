# A model of the shared library's core

This project models, in Dafny, the parts of a C++ utility library whose correctness is not plain
from reading one function, and proves what they promise. `dafny verify dfyconfig.toml` checks it all.

- **Streaming SHA-1** (`Sha1Spec`, `Sha1Transform`, `Sha1`, `Sha1Example`). `Sha1Spec` is the hash of FIPS 180-4,
  written as that standard defines it (sections 4.1.1, 4.2.1, 5.1.1, 5.3.1 and 6.1.2). The class
  `SHA1` is the library's code: a 64-byte carry buffer, a bit counter that wraps at 2^64, a circular
  schedule of sixteen words overwritten in place, eighty unrolled rounds on rotating register names,
  and padding fed through `Update` itself. The main result is that the second computes the first,
  however the input is cut into pieces. The published digest of "abc" is derived from the first, which
  fixes its constants, functions, rotations and byte order.
- **The log** (`Log`, `IndentStack`, `Escape`, `Dump`, `Wrap`). The log is a character machine
  (beginning of line, prefix, tab continuation, indent, column) over a bounded buffer. Its
  specification is a pure function from what is typed to what is written, and all that is built on
  the log (escaping, hex dumps, word wrap) is proved against that function. The escaper and the
  dumper each have a reader, and what they write reads back as what they were given.
- **Mutexes** (`MutexRegistry`, `MutexStats`). The registry is a circular doubly linked list on the
  heap with a cached snapshot guarded by two counters, proved over all runs of construction,
  destruction and listing. The statistics are proved over all runs of many threads to be what the
  history of calls says, and the relations between them follow. That one thread at most holds the
  mutex is not proved of the library but taken from the standard mutex it wraps.
- **The command line parser** (`CommandLine`, `CommandLineLaws`). A grammar of command lines, a parser
  class that computes it, and a printer that it is the inverse of; what each kind of variable holds
  after a line, in terms of the line; and when each element is rejected, with which error.
- **Timer definitions** (`Forest`, `Metrics`). Owner list, root list and parent/child links describe
  one growing forest, and a walk along those links finds every definition once.
- **Smaller loops**: JSON for enum flags (`Bits`, `EnumJson`), merged address ranges
  (`AddressRanges`), line splitting (`Lines`), and paths (`Paths`). `Hex` and `Options` are shared.

Methods follow the source's loops and branches; each is tied by its `ensures` to a function of its
inputs or of the old state, and lemmas prove what that function means. Where such a function is close
to the code, a law beside it says what it computes in other terms: by index, by literal text, or by
an example.

## Where the code falls short of what it promises

Each of these is a lemma or method here, with the exact condition under which the promise holds.

- `GetAllMetadata` returns nothing while mutexes are live if the number of constructions and
  destructions since the cache was last filled is a positive multiple of 2^64 (`ListsLive`, `Replay`,
  `WrapAroundHidesMutex`), and the change counter does pass through 0 (`CounterIsZero`).
- The comment in `try_lock` says that `ever_locked` has no need to be set there. A mutex that only
  `try_lock` has taken is held without ever having been locked (`HeldButNeverLocked`); the flag
  tells exactly whether a `lock` call has completed (`EverLockedMeansLockCall`).
- `LogStringPrintable` does not escape the backslash. Its output reads back as the input exactly
  for strings without one (`RoundTripExactly`).
- `PathCompare` calls each of two paths less than the other exactly if one is a proper prefix of the
  other and the character after it is negative (`CompareAntisymmetric`). It is not transitive exactly
  where such a prefix comes between two paths that are the wrong way round (`CompareTransitive`).
  `NegativeCharacterBreaksOrder` has the paths.
- A value of flags comes back from JSON, less its unnamed bits, exactly if each named bit it has is
  the first of its name (`RoundTrip`); all values do exactly if no two bits share a name
  (`AllValuesComeBack`). A plain enum value comes back exactly if it is in the run of named values
  from 0 and the first of its name (`EnumRoundTrip`).
- `MoveToColumn` returns exactly if the log is enabled or is at or past the column already
  (`MoveEnds`). The help text on a disabled log stays in its loop (`HelpOnDisabledLog`).

## Model

| member | source | states |
|---|---|---|
| Sha1Transform.WindowStep | src/sha1.cpp:37 | overwriting one word of the circular schedule, with the rotated xor of the words 13, 8, 2 and 0 places on, moves its window one step along the 80-word schedule of FIPS 180-4 (the method of its section 6.1.3) |
| Sha1Transform.SwapMakesBigEndian | src/sha1.cpp:32-36 | the two masked rotations turn a word loaded on a little-endian machine into the big-endian word at that place |
| Sha1Transform.Blk0 | src/sha1.cpp:32-36 | on either byte order gives word i of the block's schedule, and the array then holds it |
| Sha1Transform.Blk | src/sha1.cpp:37 | gives word i of the 80-word schedule, for i from 16 on, while keeping only sixteen |
| Sha1Transform.Choice | src/sha1.cpp:42-47 | the three-operation formula of R0 and R1 is the Ch function of the standard |
| Sha1Transform.Majority | src/sha1.cpp:51-53 | the formula of R3 is the Maj function of the standard |
| Sha1Transform.Turn | src/sha1.cpp:42-56 | adding into one register and rotating another, then renaming, is one round of the five-register loop |
| Sha1Transform.R0 | src/sha1.cpp:42-44 | rounds 0 to 15 take the state after t rounds to the state after t + 1 |
| Sha1Transform.R1 | src/sha1.cpp:45-47 | the same for rounds 16 to 19 |
| Sha1Transform.R2 | src/sha1.cpp:48-50 | the same for rounds 20 to 39 |
| Sha1Transform.R3 | src/sha1.cpp:51-53 | the same for rounds 40 to 59 |
| Sha1Transform.R4 | src/sha1.cpp:54-56 | the same for rounds 60 to 79 |
| Sha1Transform.Rounds0 | src/sha1.cpp:80-100 | the first twenty unrolled lines, with their rotated register names, are rounds 0 to 19 |
| Sha1Transform.Rounds20 | src/sha1.cpp:101-120 | the next twenty are rounds 20 to 39 |
| Sha1Transform.Rounds40 | src/sha1.cpp:121-140 | the next twenty are rounds 40 to 59 |
| Sha1Transform.Rounds60 | src/sha1.cpp:141-160 | the last twenty are rounds 60 to 79 |
| Sha1Transform.Transform | src/sha1.cpp:66-172 | the whole transform replaces the state by the compression of the block as section 6.1.2 of FIPS 180-4 defines it, on machines of either byte order |
| Sha1.SHA1.constructor | src/sha1.cpp:177-187 | the initial state is that of a hash of nothing: the initial hash value of section 5.3.1, an empty tail and a zero count |
| Sha1.SHA1.Update | src/sha1.cpp:192-208 | keeps the invariant that the state is the fold of the transform over all complete blocks fed so far, the buffer's front is the rest, and the counter is the number of bits modulo 2^64; so two calls are one call on the joined data |
| Sha1.SHA1.FillBlock | src/sha1.cpp:199-200 | the carried-over bytes and the first of the new are the next block of all bytes fed, and it is processed |
| Sha1.SHA1.TransformBlocks | src/sha1.cpp:201-202 | the block loop takes all further complete blocks straight from the data and leaves less than one |
| Sha1.Opened | src/sha1.cpp:196-197 | the carried-over tail and the new data together are the unprocessed part of all bytes fed, and the wrapped counter still adds up |
| Sha1.Closed | src/sha1.cpp:203-207 | a processed prefix and a tail shorter than a block put the invariant back |
| Sha1.CountPosition | src/sha1.cpp:196 | the wrapped bit counter still gives the position in the block |
| Sha1.CountAdds | src/sha1.cpp:197 | wrapped additions of `len << 3` keep the counter right modulo 2^64 |
| Sha1.SHA1.FinalCount | src/sha1.cpp:217-221 | the eight bytes are the length field of the padding, the bit count before any of it |
| Sha1.SHA1.Pad | src/sha1.cpp:213-226 | what has then been fed is the padded message of section 5.1.1; the zero-byte loop ends |
| Sha1.SHA1.Final | src/sha1.cpp:228-237 | the twenty bytes are the SHA-1 of what was fed before the padding |
| Sha1.DigestHoldsWords | src/sha1.cpp:232-234 | the bytes, read back as big-endian words, are the five words of the hash |
| Sha1.DigestAt | src/sha1.cpp:233 | the shift and mask by the index's quotient and remainder by 4 picks byte i of the digest |
| Sha1.SHA1.Finish | src/sha1.cpp:242-263 | fills whichever outputs are given with the SHA-1 of what was fed and its NUL-terminated lower-case hexadecimal form |
| Sha1.WriteHex | src/sha1.cpp:251-262 | writes two digits for each byte, in order, and the NUL |
| Sha1.HexStringAt | src/sha1.cpp:257-258 | digits 2i and 2i + 1 are the high and low halves of byte i |
| Sha1.HashBuffer | src/sha1.cpp:268-273 | the one-call form gives the SHA-1 of its data |
| Sha1.HashChunks | src/sha1.cpp:192-237 | any sequence of `Update` calls followed by `Final` gives the SHA-1 of the concatenation, whatever the cuts |
| Sha1Example.CompressedBlock | src/sha1.cpp:66-172 | the eighty rounds take the initial hash value and the padded block of "abc" to a9993e36 4706816a ba3e2571 7850c26c 9cd0d89d |
| Sha1Example.DigestOfAbc | src/sha1.cpp:182-186 | the digest of "abc", through padding, schedule, rounds and byte order, is the published one |
| Sha1.HashBlocksOfPrefix | src/sha1.cpp:198-202 | blocks once processed stay valid whatever is fed later |
| Sha1Spec.PaddedLength | src/sha1.cpp:213-226 | a padded message is a whole number of blocks |
| Sha1Spec.PaddedIs | src/sha1.cpp:213-226 | a padded message is the message, the byte 0x80, zero bytes, and eight bytes that spell its length in bits modulo 2^64; no shorter whole number of blocks has room for that |
| Log.Log.Flush | src/log.cpp:341-356 | sends the buffered text, if any, as one chunk to the printer in force, and changes nothing a caller sees |
| Log.Log.Put | src/log.cpp:325 | one character goes into the buffer, which has room for it |
| Log.Log.RawChar | src/log.cpp:324-336 | appends one character to what is written, keeping the buffer at 498 at most and free of newlines, with every chunk non-empty and with a newline only at its end; it flushes at a newline or at the 499th character and not otherwise, to the printer in force |
| Log.Log.LineStart | src/log.cpp:220-253 | prefix or blanks, then the indent; the prefix takes up no column |
| Log.Log.C | src/log.cpp:213-260 | at the beginning of a line an enabled log writes the prefix and a colon, or as many blanks before a tab, then the indent and the character; inside a line just the character; and the view is the pure machine's next view. Nothing happens when disabled |
| Log.TypeCharParts | src/log.cpp:218-259 | the pure machine's step in the code's order: line start, the character unless it is a leading tab, the beginning-of-line flag |
| Log.CharWritten | src/log.cpp:213-260 | the pure machine's step spelt out: what is written in each case, the column, and the beginning-of-line flag |
| Log.Log.S | src/log.cpp:200-208 | a string is its characters one after the other |
| Log.TypeAppend | src/log.cpp:200-208 | how text is cut into calls does not matter |
| Log.TypedAppend | src/log.cpp:200-208 | nor does it on a disabled log |
| Log.Log.SetLogPrinter | src/log.cpp:387-392 | what was buffered goes to the old printer; what was written keeps the printer it was written under |
| Log.Log.EnsureBOL | src/log.cpp:361-375 | an enabled log ends at the beginning of a line; the message and the newline are written only if it was not there, and go to the printer in force |
| Log.Log.constructor | src/log.cpp:119-131 | a new log is at the beginning of a line, at column and indent 0, with nothing written and an empty stack; a prefix of 50 characters or more is cut to 49 |
| Log.Log.Destroy | src/log.cpp:143-145 | nothing written to a printer is left behind |
| Log.TypeLine | src/log.cpp:213-260 | a whole line comes out as prefix (blank before a tab), indent and the text less a leading tab |
| Log.LineWritten | src/log.cpp:213-260 | with a prefix, a line is written as prefix, colon, blank, indent and text, or as blanks in their place, indent and text less its tab; without one, as indent and text |
| Log.LineTextIs | src/log.cpp:220-257 | the same by index, with the number of blanks |
| Log.TypeLines | src/log.cpp:213-260 | any sequence of lines does: the character machine meets the line-by-line definition |
| Log.SentMore | src/log.cpp:341-356 | a call adds to what its printer was sent exactly the chunks flushed in it, and to no other printer's |
| Log.Replay | src/log.cpp:200-260 | over any run of `c`, `s`, `Flush` and `SetLogPrinter` the log's view is the pure rendering of the enabled input, each character under the printer installed when it was written, and every printer of the run holds what it held at first and then exactly the chunks sent to it, in order |
| Log.Log.PushIndentInternal | src/log.cpp:411-418 | is the push of the saturating stack and writes nothing |
| Log.Log.PushIndent | src/log.cpp:283-285 | indents to the current column |
| Log.Log.PushIndentBy | src/log.cpp:290-292 | indents by a difference |
| Log.Log.PopIndent | src/log.cpp:297-305 | is the pop of the saturating stack |
| IndentStack.ApplyRefines | src/log.cpp:297-305 | every push and pop, also of an empty or over-full stack, keeps the ten entries in step with an unbounded stack |
| IndentStack.RunRefines | src/log.cpp:411-418 | after every run, however deep or unbalanced, the indent is the unbounded stack's entry at depth min(depth, 10) |
| IndentStack.WellNestedRestores | src/log.cpp:297-305 | every well-nested sequence restores indent, depth and all entries still in use |
| Escape.NumericShape | src/log.cpp:673-675 | what follows the backslash of a numeric escape is printable and has no second backslash |
| Escape.EscapedIsPrintable | src/log.cpp:632-680 | only bytes 32 to 126 come out |
| Escape.EscapeIs | src/log.cpp:643-676 | a printable byte stands for itself; newline, tab, return and backspace are a backslash and a letter; other bytes are three octal digits if a hexadecimal digit follows and two lower-case hexadecimal digits if not |
| Escape.ReadsBack | src/log.cpp:668-676 | each escape is read back whole, whatever follows it: octal is chosen where a hexadecimal escape would run on |
| Escape.RoundTrip | src/log.cpp:632-680 | a string without backslash is read back by the rules of section 6.4.4.4 of ISO/IEC 9899:2011 |
| Escape.NoEcho | src/log.cpp:664-665 | a backslash, written as it is, uses up more of the output than it gives back, and nothing later makes up for it |
| Escape.RoundTripExactly | src/log.cpp:632-680 | reading gives the string back if and only if it has no backslash |
| Escape.WriteEscaped | src/log.cpp:640-678 | the loop types exactly the escaped text, and what it flushes goes to the printer in force |
| Escape.LogStringPrintable | src/log.cpp:632-680 | types the escaped text, or `<<NULL>>` for a null string, nothing on a disabled log, and sends only to the printer in force |
| Dump.RowReadsBack | src/log.cpp:584-625 | the address and the bytes of a row can be read off it, also of a last row with blanks |
| Dump.RowsReadBack | src/log.cpp:584-626 | so can all rows, one after the other |
| Dump.SlicesJoin | src/log.cpp:584-626 | the rows together hold the input and nothing else |
| Dump.SlicesCount | src/log.cpp:584-626 | there are ceil(size / columns) of them |
| Dump.SlicesAddresses | src/log.cpp:585 | row k has address first + k * columns, modulo 2^64 |
| Dump.DumpReadsBack | src/log.cpp:545-627 | for every non-empty input and every setting, with n columns set (16 for none, 32 at most): reading the dump gives ceil(size / n) rows, row k at first address + k * n modulo 2^64, every row but the last of n bytes, and the input byte for byte |
| Dump.SlicesLengths | src/log.cpp:589-590 | every row but the last holds as many bytes as there are columns |
| Dump.ColumnIs | src/log.cpp:589-619 | column i of a row, by index: two upper-case digits or two blanks, a star if highlighted and a blank if not, and in the text the byte if printable, a dot if not, a blank if missing |
| Dump.HeadIs | src/log.cpp:571-585 | a row begins with its address in at least as many digits as the first address has in whole bytes, eight at least |
| Dump.WriteCells | src/log.cpp:589-603 | types two digits or two blanks and the separator for each column |
| Dump.CharacterText | src/log.cpp:607-619 | printable bytes stand for themselves, others for a dot, missing ones for a blank |
| Dump.WriteRow | src/log.cpp:585-623 | types one row and its newline |
| Dump.LogDumpBytesEx | src/log.cpp:545-627 | types the dump text, sixteen columns from address 0 when no settings are given, `<<no data>>` when there is no data, and sends only to the printer in force |
| Hex.PaddedValue | src/log.cpp:585 | a number printed with `%0*X` is at least as wide as asked and reads back as itself |
| Hex.PaddedWidth | src/log.cpp:585 | and no wider than asked if it fits |
| Hex.PaddedIsUpper | src/log.cpp:585 | in upper-case digits |
| Hex.DigitIs | src/sha1.cpp:257-258 | digits 10 to 15 are the letters a to f, in lower case for digests and in upper case for dumps |
| Wrap.WritePiece | src/CommandLineParser.cpp:345-357 | one turn of the wrap loop: newline if due, space if one is needed, the word |
| Wrap.PrintWrappedLines | src/CommandLineParser.cpp:317-361 | types the words of the text, wrapped at one less than the terminal's width, or at 80 if the log is past that, and sends only to the printer in force |
| Wrap.WrappedColumn | src/CommandLineParser.cpp:345-347 | after each word of a text the column is at most the larger of the wrap column and the indent plus the word's length |
| Wrap.BreaksExactly | src/CommandLineParser.cpp:345-357 | before each word there is a newline if and only if the column and the word's length reach the wrap column, and otherwise one space inside a line |
| Wrap.OneLine | src/CommandLineParser.cpp:328-360 | the words are typed on one line, with single spaces, if and only if all of them fit |
| Wrap.WrappedKeepsWords | src/CommandLineParser.cpp:328-360 | the words written are the words given, in order, none joined and none split but at newlines of its own |
| Wrap.WordsOfWords | src/CommandLineParser.cpp:328-341 | cutting a text at spaces and each word at its newlines gives the words of the text |
| Wrap.WrapKeepsWords | src/CommandLineParser.cpp:317-361 | so wrapping any text keeps its words |
| Wrap.MoveToColumn | src/CommandLineParser.cpp:363-371 | after any number of turns of the loop the log is where that many spaces, as far as they are needed, take it; whether the loop has ended is whether the column is reached |
| Wrap.MoveEnds | src/CommandLineParser.cpp:368-370 | the loop ends if and only if the log is enabled or is at or past the column already |
| Wrap.MoveTypes | src/CommandLineParser.cpp:364-370 | an enabled log gets a newline if it is at or past the column, then only spaces, and ends at the column exactly, or one past the indent of its line if that reaches the column |
| Wrap.HelpOnDisabledLog | src/CommandLineParser.cpp:425 | a new disabled log never gets to the second column of the help text, however many turns the loop takes |
| MutexRegistry.Registry.Insert | src/mutex.cpp:209-213 | the four assignments put the node between the last and the first |
| MutexRegistry.InsertedIsCircle | src/mutex.cpp:206-214 | which makes one circle of the old nodes and the new, the new one last |
| MutexRegistry.Registry.Bypass | src/mutex.cpp:236-237 | joins the node's neighbours, also where they are the same or the node itself |
| MutexRegistry.BypassedIsCircle | src/mutex.cpp:236-237 | which leaves one circle of the other nodes, in order |
| MutexRegistry.Registry.Unlink | src/mutex.cpp:227-237 | the head moves on if it was removed and is null after the last |
| MutexRegistry.Registry.CheckLockedMetadataList | src/mutex.cpp:89-98 | every assertion of the traversal holds, and it ends |
| MutexRegistry.Registry.InvalidateLockedMetadataList | src/mutex.cpp:103-108 | advances the counter modulo 2^64 and drops the cached list |
| MutexRegistry.Registry.Create | src/mutex.cpp:193-218 | the live mutexes are those before and the new one, last; list, cache and counters follow the abstract step |
| MutexRegistry.Registry.Destroy | src/mutex.cpp:223-244 | the live mutexes are those before without this one, in order; list, cache and counters follow the abstract step |
| MutexRegistry.Registry.GetAllMetadata | src/mutex.cpp:370-390 | refills the cache from the list if the counters differ and returns it |
| MutexRegistry.RunBooks | src/mutex.cpp:66-73 | over every run: both counters tell the number of changes (in all; up to the last refill) modulo 2^64, and the cache is the live list or empty |
| MutexRegistry.ListsLive | src/mutex.cpp:370-390 | over every run: a listing returns exactly the live mutexes in creation order if and only if there are none, or the changes since the last refill are none or no multiple of 2^64 |
| MutexRegistry.CounterIsZero | src/mutex.cpp:103-104 | the change counter is 0 if and only if the number of changes is one short of a multiple of 2^64 |
| MutexRegistry.PromisesHold | src/mutex.cpp:359-390 | so up to 2^64 - 2 changes the counter is never 0 and every listing is exact |
| MutexRegistry.WrapAroundHidesMutex | src/mutex.cpp:375 | a run of 2^64 changes after which a live mutex is not listed |
| MutexRegistry.Replay | src/mutex.cpp:193-390 | any run of constructions, destructions and listings on the heap does what the bookkeeping says, and a listing after it is exactly the live mutexes under just the condition of `ListsLive` |
| MutexStats.Mutex.Lock | src/mutex.cpp:275-325 | the counts are made before a pending reset wipes them and the wait is added after it; free uncontended locks wait 0 |
| MutexStats.Mutex.TryLock | src/mutex.cpp:330-347 | succeeds exactly if no thread holds the mutex; both counts are made before a pending reset wipes them |
| MutexStats.Mutex.Unlock | src/mutex.cpp:352-354 | lets the mutex go and touches no statistic |
| MutexStats.Mutex.RequestReset | src/mutex.cpp:138-142 | clears the statistics at once, but not the count of try-locks, and leaves a reset pending |
| MutexStats.Mutex.ExchangeReset | src/mutex.cpp:185-188 | takes a pending reset: the statistics and the count of try-locks start again |
| MutexStats.StatsTellHistory | src/mutex.cpp:275-347 | over every run of any threads each statistic is what the events say: calls of each kind since the last reset took effect, and sum, least and greatest of the waits since the last request for one |
| MutexStats.MutualExclusion | src/mutex.cpp:287-294 | the holder that the standard mutex admits is the thread that the calls leave inside; that there is one at most is the standard mutex's promise |
| MutexStats.BlockedDoNotHold | src/mutex.cpp:287-300 | a thread blocked in `lock` does not hold the mutex |
| MutexStats.CountsAreOrdered | src/mutex.cpp:295-316 | contended lock calls never exceed lock calls, successes never exceed tries, and the waits recorded are as many as the lock calls or one more |
| MutexStats.StatsHangTogether | src/mutex.cpp:311-320 | contended <= locks and total <= (locks + 1) * max while the lock calls counted are below 2^64; successes <= tries while the tries are; locks * min <= total while the sum of the waits is |
| MutexStats.EverLockedMeansLockCall | src/mutex.cpp:311 | the flag is set if and only if some `lock` call has completed |
| MutexStats.HeldButNeverLocked | src/mutex.cpp:333-338 | a mutex held by `try_lock` alone counts as never locked, against the comment there |
| CommandLine.CommandLineParser.FindByLongOption | src/CommandLineParser.cpp:509-517 | finds the first option of that long name |
| CommandLine.CommandLineParser.FindByShortOption | src/CommandLineParser.cpp:522-530 | finds the first option of that letter |
| CommandLine.CommandLineParser.HandleOption | src/CommandLineParser.cpp:535-545 | sets and then resets the flags the option points at and says whether it takes an argument |
| CommandLine.CommandLineParser.DoArgument | src/CommandLineParser.cpp:550-620 | stores the argument through each pointer in turn, up to the first conversion that fails |
| CommandLine.CommandLineParser.ParseLong | src/CommandLineParser.cpp:208-244 | the long-option branch computes what the grammar says of such an element, errors included |
| CommandLine.CommandLineParser.ParseShorts | src/CommandLineParser.cpp:245-266 | so does the bundle of short options, also where it takes the next element |
| CommandLine.CommandLineParser.Parse | src/CommandLineParser.cpp:195-290 | the variables, the other arguments, the result and the error are those of the grammar, from the first element to the first error or the end |
| CommandLine.LongReads | src/CommandLineParser.cpp:210-236 | `--name=arg` and `--name` are read as the binding they were written for |
| CommandLine.FlagsRead | src/CommandLineParser.cpp:246-265 | a bundle of flags is read as its flags in order |
| CommandLine.ItemsRead | src/CommandLineParser.cpp:206-277 | any items, in any mix, anywhere in a command line, are read one after the other as what they say |
| CommandLine.SaidIsRead | src/CommandLineParser.cpp:195-277 | printing and parsing is the identity: no error, exactly the bindings said in order, exactly the other arguments in order |
| CommandLine.SaidIsParsed | src/CommandLineParser.cpp:195-290 | and `Parse` then returns true, unless an option said sets the help flag |
| CommandLineLaws.NeedsArgumentIs | src/CommandLineParser.cpp:625-627 | an option takes an argument if and only if it has a pointer to store one through |
| CommandLineLaws.LastFlagWins | src/CommandLineParser.cpp:535-545 | a flag is what the last bound option that points at it makes it: false if that option resets it, otherwise true; with none bound, as it was |
| CommandLineLaws.FlagTells | src/CommandLineParser.cpp:536-542 | a flag that only one option sets is true if and only if that option is bound, and otherwise as it was; likewise false for one that resets it |
| CommandLineLaws.LastArgumentWins | src/CommandLineParser.cpp:550-620 | a string, int, float, size or enum variable ends as the conversion of the last argument to any option that points at it, or as it was |
| CommandLineLaws.ListGathers | src/CommandLineParser.cpp:556-558 | a list variable ends as it was with all arguments to it after that, in order |
| CommandLineLaws.SaidIsProper | src/CommandLineParser.cpp:550-620 | these laws apply to every line that can be said |
| CommandLineLaws.HelpIsTold | src/CommandLineParser.cpp:279-287 | a line that asks for help is read to its end; `Parse` then returns false without an error and sets the caller's flag |
| CommandLineLaws.LongOutcome | src/CommandLineParser.cpp:208-244 | a long option is accepted if and only if it is known, takes an argument just if one is given, and the argument converts; each way to fail has its own error |
| CommandLineLaws.ShortOutcome | src/CommandLineParser.cpp:246-265 | so for a short one, which takes its argument from the next element and only as the last letter |
| CommandLineLaws.ElementIs | src/CommandLineParser.cpp:207-274 | two dashes make a long option, one dash short ones, and anything else another argument, an error if the caller takes none |
| CommandLineLaws.FirstErrorEnds | src/CommandLineParser.cpp:206-277 | the first element in error, wherever it stands, makes `Parse` return false with its error; what came before is done and what follows is not looked at |
| CommandLine.HelpStaysOff | src/CommandLineParser.cpp:279-287 | no binding turns on the help flag but that of an option that points at it |
| Forest.VisitGrows | src/metrics.cpp:329-336 | adding a node adds it once, beside its parent, to every walk that visits the parent |
| Forest.WalkVisitsEachOnce | src/metrics.cpp:313-341 | the walk from the roots of a grown forest visits every node exactly once |
| Metrics.DescribesMore | src/metrics.cpp:329-336 | a new last child, or a new root, keeps owner list, root list, parent links and child links in step |
| Metrics.MetricSet.Add | src/metrics.cpp:323-340 | the definitions of the set remain one forest, of which the new one is the youngest, with the name given and no children, linked to its parent or the root list |
| Metrics.MetricsGlobals.CreateTimerDef | src/metrics.cpp:313-341 | without a set the one dummy definition is returned and no structure changes; with a set the forest grows by one, of the name given |
| Metrics.WalkFindsAll | src/metrics.cpp:313-341 | the walk over parent indexes finds every definition of the owner list exactly once |
| Metrics.WalkDown | src/metrics.cpp:103-111 | following the children links down from some definitions finds what the walk over indexes does, and ends |
| Metrics.WalkRoots | src/metrics.cpp:264-268 | a walk from the root list along the children links finds every definition of the owner list exactly once |
| Metrics.MetricsGlobals.LinkIntoLockedList | src/metrics.cpp:396-406 | the set becomes the first of the list; the assertion on the old head holds |
| Metrics.MetricsGlobals.Unlink | src/metrics.cpp:164-189 | the list keeps the other sets in order; both branches' assertions hold |
| Metrics.MetricsGlobals.CheckLockedList | src/metrics.cpp:379-391 | its assertions hold at every set, and it ends |
| Metrics.MetricsGlobals.GetAll | src/metrics.cpp:346-359 | returns exactly the live sets, the newest first |
| EnumJson.ToJson | include/shared/enums.h:240-256 | writes the names of the named bits that are set, lowest first; the mask loop ends by shifting out |
| EnumJson.AddFlag | include/shared/enums.h:224-234 | sets the lowest bit of that name, and nothing for an unknown name |
| EnumJson.FromJson | include/shared/enums.h:214-238 | a bit is set if and only if it is the first of its name and the name is among the strings; anything but an array leaves the value |
| EnumJson.OnlyStringsMatter | include/shared/enums.h:214-238 | the value read depends only on the set of strings in the array |
| EnumJson.NamesAre | include/shared/enums.h:240-256 | a string is among those written if and only if it names a bit that is set |
| EnumJson.NamesInOrder | include/shared/enums.h:243-255 | the names written are those of the set bits whose name does not begin with '?', each once, from the lowest bit up |
| EnumJson.BitReadBack | include/shared/enums.h:214-256 | a named bit that is set comes back if and only if it is the first of its name, and a bit that was not set comes back only in place of a higher one |
| EnumJson.RoundTrip | include/shared/enums.h:214-256 | a value written and read is the value restricted to its named bits if and only if each named bit it has is the first of its name |
| EnumJson.AllValuesComeBack | include/shared/enums.h:214-256 | that is so for all values if and only if no two named bits share a name |
| EnumJson.SharedNameIsLost | include/shared/enums.h:224-234 | of two bits of one name the higher is lost, whatever else the value has |
| EnumJson.EnumFromJson | include/shared/enums.h:192-212 | reads the first value of that name before the first unnamed value, or leaves the value |
| EnumJson.EnumRoundTrip | include/shared/enums.h:186-212 | a value comes back, whatever was there, if and only if it is in the run of named values from 0 and first of its name |
| AddressRanges.JoinCovers | src/system_linux.cpp:308-310 | joining two neighbours that touch covers the same addresses |
| AddressRanges.Merge | src/system_linux.cpp:302-316 | ends with the ranges sorted, no neighbours touching, and the same addresses covered |
| AddressRanges.SelectAddresses | src/system_linux.cpp:84-95 | picks the indexes of the covered addresses; the assertion inside holds |
| AddressRanges.PickedAre | src/system_linux.cpp:84-95 | those indexes ascend, each at most once, and are exactly those of covered addresses |
| AddressRanges.SortedAndMergedSelection | src/system_linux.cpp:294-316 | whatever sorting and merging make of the ranges, the same indexes are picked as on the ranges as read |
| Lines.ForEachLine | src/strings.cpp:39-71 | delivers the lines of the greedy split; all of them, or up to the first the callback refuses |
| Lines.PiecesAreGreedy | src/strings.cpp:43-58 | lines and terminators concatenate to the text, no line contains a terminator, and a terminator takes two characters wherever it can |
| Lines.GreedyIsUnique | src/strings.cpp:43-58 | there is no other such split |
| Lines.JoinThenSplit | src/strings.cpp:39-71 | lines written with any one of the four terminators are split back |
| Paths.FolderAndName | src/path.cpp:58-67 | folder and name are the only way to cut the path at its last separator: they rebuild it, and nothing else of their shape does |
| Paths.StemAndExtension | src/path.cpp:21-53 | stem and extension rebuild the path, and the extension is the end of the name from its last dot, or nothing |
| Paths.OneExtension | src/path.cpp:31-53 | no other cut leaves such an ending |
| Paths.JoinedAssociative | src/path.cpp:84-102 | joining is associative with the empty path as identity, on POSIX systems and on Windows |
| Paths.JoinedIs | src/path.cpp:84-102 | the second path alone if it begins with a separator or, on Windows, a drive; otherwise the first, one separator of the platform unless the first ends in one, and the second |
| Paths.JoinedKeepsAbsolute | src/path.cpp:84-102 | a relative path joined on leaves the first as absolute as it was |
| Paths.PathCompare | src/path.cpp:142-184 | the loop compares the folded paths |
| Paths.CompareSame | src/path.cpp:157-172 | the result is 0 if and only if the paths are as long and the same character by character, up to the case of A to Z off Linux, and up to the kind of separator on Windows |
| Paths.CompareFirst | src/path.cpp:175-179 | the first difference decides: the smaller character there is less, and so is the path that ends |
| Paths.CompareAntisymmetric | src/path.cpp:175-179 | for any characters, swapping the paths negates the result unless one is a proper prefix of the other and goes on with a negative character |
| Paths.CompareTransitive | src/path.cpp:175-179 | for any characters, a > c although a <= b and b <= c if and only if b is a proper prefix of both and each goes on with a negative character |
| Paths.CompareZero | src/path.cpp:149-151 | for any characters, the result is 0 if and only if the folded paths are equal |
| Paths.CompareIsOrder | src/path.cpp:142-184 | on characters 0 to 127 it is a total preorder, on Linux a total order |

## Left out

- Sha1.SHA1.Update: lengths are unbounded numbers, so `j + len` does not wrap as it would for one call with nearly 2^64 bytes; the length field is exact below 2^61 bytes, as FIPS 180-4 requires.
- Sha1Transform.Transform: the byte order is a parameter, the block a value, and the union of bytes and words an array of words.
- Log.Log.S: formatted output is taken as the text it expands to, C strings as what stands before their NUL, and a null string as no call; columns are unbounded.
- Log.Log.C: `Enable` and `Disable` are left out; whether the log is enabled is a field that no modelled call changes.
- Wrap.WrappedColumn: holds for words whose characters all take a column (no control characters); the terminal's width is a parameter.
- Wrap.MoveToColumn: the loop, which need not end, is given up after a number of turns that is a parameter.
- MutexRegistry.Registry.Destroy: objects stay allocated, so the lifetimes that shared pointers manage are not modelled; the list's own lock makes each operation one step.
- MutexStats.Mutex.Lock: each completed call is one step, and a lock call that blocks is two; finer interleavings with the unprotected `RequestReset`, names, events of interest and tick overhead are left out, waits are arbitrary, and `try_lock` does not fail spuriously.
- CommandLine.CommandLineParser.Parse: pointers are addresses into a map, conversions of text to numbers and enum values are parameters, errors are values in place of log messages, and the help text is not printed.
- CommandLine.CommandLineParser.DoArgument: a variable read before it was stored as a list counts as an empty list.
- Metrics.MetricSet.Add: that the parent belongs to the set is taken as membership in the set's owner list; counters and derived values are left out, being plain lists.
- EnumJson.EnumFromJson: some value is taken to have no name, as the loop needs; values and masks are unsigned numbers of a given width, and JSON is only its arrays and strings.
- AddressRanges.Merge: preserves the covered addresses for ranges whose begin is not past their end; sorting is any permutation into order.
- Paths.PathCompare: characters are signed, and folding changes the letters A to Z only.
- `PathWithoutTrailingSeparators`, number and GUID formatting, loads and stores, bit scans: easy members.
- `LogIndenter`, `LogWithTag`, `LogStackTrace`: thin wrappers around what is modelled, or calls into the system.
- Files, processes, terminals, stack traces, the test framework, assertion reporting and the enum macros: system calls or preprocessor work.
