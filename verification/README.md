# Proofs about the JOS kernel of lab 1

This project models the kernel's symbol lookup, its console (screen, keyboard, input
ring, line editor), its formatter, its block moves, its boot loader and its monitor, and
proves what these pieces promise, for all inputs and over whole runs.
`dafny verify dfyconfig.toml` checks everything.

## How the model reads

* A pointer is an offset into a sequence or an array; a C string carries its NUL. Every
  array and sequence access is in bounds by proof, so "never reads past the NUL" and
  "stays inside the table" are part of each method's verification.
* Integers are unbounded, with the width written out where the code depends on it: the
  `addr++` of the search wraps at 2^32, characters are cut to bytes and cells to 16 bits,
  a `char` is signed where the code reads it as one.
* Devices are sequences: scan bytes and serial answers go in, the bytes sent to the serial
  and parallel port come out, the disk is a total function from positions to bytes.
* Loops and classes follow the source's. Beside each stands a function that says what it
  computes; the theorems are about these functions, and each method's contract equates
  its result with them. Long C functions are cut into several methods at their loops.
* `putch` with its `putdat` is one class, `Sink.PutDat`, with the two routines the kernel
  passes, so the interpreter is written once and used for both.

| file | source |
|---|---|
| StabSearch.dfy, Kdebug.dfy | kern/kdebug.c |
| Terminal.dfy, Screen.dfy, InputRing.dfy, Keyboard.dfy, Keycaps.dfy | kern/console.c |
| Readline.dfy | lib/readline.c |
| Numbers.dfy, Format.dfy, Sink.dfy, Printfmt.dfy | lib/printfmt.c, kern/printf.c |
| Memory.dfy, Strings.dfy, Strtol.dfy, Texts.dfy | lib/string.c |
| RoundTrip.dfy | lib/printfmt.c together with lib/string.c |
| Boot.dfy | boot/main.c, inc/elf.h |
| Messages.dfy, Commands.dfy, Monitor.dfy | kern/monitor.c |
| Typing.dfy | kern/console.c, lib/readline.c and kern/monitor.c together: from scan bytes to commands |

## Where the code and its comments disagree

* kern/kdebug.c:32-34 says left > right means that no matching entry contains the address.
  In fact left > right comes back exactly when the range has no entry of the type at all;
  when entries exist but all lie above, the region is not inverted.
* kern/kdebug.c:75-81 bumps the address after an exact match. On every sorted range that
  is harmless when no entry at the address has a companion of its type at the next address
  (`SearchIsCorrect`); this is also needed for being right on all sub-ranges, for every
  address other than 2^32-2 (`RightOnEveryRangeIffBumpSafe`). A single call can be right in
  spite of a companion that its first midpoint cuts off (`CompanionCutOff`); what decides a
  single call is whether the match branch ran at most once (`BracketsIffOneHit`). At 2^32-2
  the second bump wraps: `NextToTopIff` says when a single answer is right all the same, and
  `NextToTopOnAll` what being right on all sub-ranges takes. At 2^32-1 the first one does
  (`RightAtTopIff`).
* kern/kdebug.c:142-150: with a file entry above the address at index 0 the file search
  answers -1, and the function search then reads entry -1. The model answers `OutOfTable`
  there; a file that starts at index 0 is never reported. The same happens at the address
  2^32-1 when entry 0 is a file there and no other file comes up to the middle of the table
  (`TopAddressLeavesTable`). On a sorted table these two cases are exactly when the lookup
  leaves the table, and on an unsorted one it leaves it in no other (`LeavesTableIff`).
* kern/kdebug.c:139-144: with entry 0 a file at the address and a companion at the next one,
  the lookup succeeds although entry 0 is the only file at or below the address
  (`SucceedsByCompanion`).
* lib/printfmt.c:12-13: padding and width work for strings too (`StringLayout`).
* lib/printfmt.c:107-110: flag '-' pads numbers on the left, with '-' characters: "%-2d"
  prints 5 as "-5" (`DashPadsLeft`). A number stands at the left end of its field, as the
  comment says, if and only if there is nothing to pad (`DashPadsRightIff`).
* lib/printfmt.c:191-198: the sign of %d is outside the width: "%2d" prints -5 as "- 5",
  three characters (`SignOutsideWidth`). A field is as wide as the larger of width and
  number, sign included, if and only if the number is not negative or needs no padding
  (`SignOutsideWidthIff`).
* lib/printfmt.c:112-115 with 139-142: a zero right after '.' is the flag '0': "%.0s" prints
  the whole string (`ZeroPrecisionIsIgnored`). Digits after '.' become the precision if and
  only if they are not all zeros, or the precision was zero already (`PrecisionReadIff`).
* lib/readline.c:19-21 handles a negative character, but the console's getchar returns only
  1 to 255: in `RunMonitor` every whole line has an outcome and the branch is never taken.
* lib/readline.c:22-29: a delete on an empty line erases nothing and is stored and echoed like
  any other character (`NothingToErase`).
* kern/console.c:182-188 with 432-438: a tab sends the tab and five spaces to both ports.
* lib/string.c:151-169: the word moves are right for any alignment of the two pointers, as
  long as the length is a multiple of four; the proofs of the word loops do not use the
  alignment guard.

## Model

| member | source | states |
|---|---|---|
| StabSearch.StabBinsearch | kern/kdebug.c:50-94 | terminates for every table, sorted or not, reads only entries inside [left, right], and stores the pair `Found` |
| StabSearch.SearchIsLocal | kern/kdebug.c:56-92 | the result depends on nothing outside [left, right] |
| StabSearch.SearchIsCorrect | kern/kdebug.c:20-34 | on a sorted range where the bump is harmless and some entry is at or below the address: left is the last such entry, right lies just before the next entry of the type or is the end |
| StabSearch.BracketsIffOneHit | kern/kdebug.c:67-81 | on any sorted range with an entry at or below the address, while the bump does not wrap, the answer is right exactly when the exact-match branch was taken at most once |
| StabSearch.RightOnEveryRangeIffBumpSafe | kern/kdebug.c:75-81 | for every address but 2^32-2: the search is right on all sub-ranges of a sorted range if and only if no entry of the type sits at the address, or the next address neither wraps nor holds another entry of the type |
| StabSearch.CompanionMisleads | kern/kdebug.c:75-81 | two such neighbours at the ends of a range send both region ends to the second |
| StabSearch.CompanionCutOff | kern/kdebug.c:75-81 | a range with a companion on which one call is right: entries at 10, 11, 12, looking for 10 |
| StabSearch.RightAtTopIff | kern/kdebug.c:80 | for the largest address, where the bump wraps to zero, the search is right if and only if no entry sits at that address |
| StabSearch.NextToTopIff | kern/kdebug.c:80 | for the address 2^32-2: the search is right if and only if the match branch ran at most once, or the entry just before the second match is of the type and not at the largest address; a second match sends both region ends just before it |
| StabSearch.NextToTopWithCompanion | kern/kdebug.c:80 | a table where 2^32-2 has a companion and the search is still right on all sub-ranges |
| StabSearch.NextToTopOnAll | kern/kdebug.c:75-81 | for the address 2^32-2: being right on all sub-ranges needs neighbouring entries at 2^32-2 and 2^32-1 to have adjacent indices, and on tables with at most one entry at 2^32-1 this is necessary and sufficient |
| StabSearch.SeveralAtTop | kern/kdebug.c:75-81 | with several entries at 2^32-1 it is not sufficient: an eight-entry table with a wrong answer |
| StabSearch.LeftOfRangeIff | kern/kdebug.c:69-92 | the answer lies left of the range only if the first entry is of the type and above the address, or both are at 2^32-1 and no other entry of the type comes up to the first midpoint; on a sorted range if and only if |
| StabSearch.SearchAllAbove | kern/kdebug.c:84-93 | entries exist but all lie above: the result is (left-1, left-1) if the first sits at left, otherwise (left, first-1) |
| StabSearch.InvertedIffEmpty | kern/kdebug.c:84-85 | for every table left > right if and only if the range has no entry of the type, and then the result is (left, left-1) |
| StabSearch.InvertedMeansNotFoundIff | kern/kdebug.c:30-34 | the documented meaning of an inverted region holds if and only if the range is empty of the type or has an entry at or below the address |
| StabSearch.FoundIsTheBracket | kern/kdebug.c:20-34 | the bracket of an address is unique, and it is what the search finds |
| Kdebug.DebuginfoEip | kern/kdebug.c:104-206 | fills every field as `Lookup` says, for every table, string table and address, with the failure codes |
| Kdebug.OutcomesAre | kern/kdebug.c:111-144 | panics exactly below 0xEF800000, answers -1 without a string table that ends in a NUL, and leaves the information as initialised unless it answers 0 |
| Kdebug.LookupFindsFunction | kern/kdebug.c:139-205 | on an ordered table where the bump is harmless, with a function at or below the address: lfile < lfun <= rfun <= rfile, the function is the last one at or below the address in the last file at or below it, its address is at most the address, its name ends at the first colon, the file name is the nearest one at or before it inside the file, and the argument count is the parameter run strictly before rfun |
| Kdebug.LookupTakesFileForFunction | kern/kdebug.c:148-160 | on such a table, when every function of the file lies above, the file's own entry is reported as the function |
| Kdebug.LookupWithoutFunctions | kern/kdebug.c:162-168 | on such a table, without functions in the file only the file name is reported, and none if its entry has value zero |
| Kdebug.SucceedsIff | kern/kdebug.c:139-144 | on a sorted table where the bump is harmless the lookup returns 0 if and only if a file entry other than entry 0 is at or below the address |
| Kdebug.SucceedsByCompanion | kern/kdebug.c:139-144 | with two entries, at the address and the next one, it returns 0 without such a file |
| Kdebug.LeavesTableIff | kern/kdebug.c:142-150 | for every address: on a sorted table the lookup reads outside the table if and only if entry 0 is a file above the address, or entry 0 is a file and both are at 2^32-1 with no other file up to the middle; on an unsorted table it does so in no other case |
| Kdebug.TopAddressLeavesTable | kern/kdebug.c:142-150 | the one-entry table of the second case |
| Memory.Memmove | lib/string.c:143-171 | all four paths: memory afterwards is the old memory with the source block copied over the destination |
| Memory.MemmovePortable | lib/string.c:189-207 | the portable loops leave the same memory |
| Memory.MovslDown | lib/string.c:154-156 | moving whole words backwards over an overlap equals the byte-wise block move |
| Memory.MovslUp | lib/string.c:163-165 | moving whole words forwards over an overlap equals the byte-wise block move |
| Memory.MovedMeans | lib/string.c:143-171 | the destination holds the old source, everything else is unchanged |
| Memory.Memset | lib/string.c:121-141 | fills exactly n bytes with the low byte of c, on the word path and the byte path |
| Memory.FilledMeans | lib/string.c:121-141 | the filled block holds the byte, everything else is unchanged |
| Memory.MemsetPortable | lib/string.c:175-187 | fills exactly n bytes up to 2^31, where the int count wraps at its first decrement, and nothing for larger n |
| Memory.WordOfBytes | lib/string.c:129-130 | every byte of the word built for the word path is c |
| Terminal.TypeShows | kern/console.c:162-202 | one character keeps the window and an unbounded page in step if and only if it is not a backspace in the window's top left corner below the first line |
| Terminal.WindowShowsPage | kern/console.c:162-202 | over every run of characters without such a backspace the screen is the last 25 lines of an unbounded page, and the cursor is inside it |
| Terminal.InStepIffNothingDropped | kern/console.c:162-202 | over every run, window and page agree at every moment if and only if no such backspace occurs |
| Terminal.PageAboveWindowIsFinal | kern/console.c:195-202 | over every such run, the lines of the page above the window stay as they were when they scrolled off |
| Terminal.NewlineMeans | kern/console.c:176-181 | a newline goes to column 0 of the next line and writes nothing; the screen scrolls by one line of blanks exactly when the cursor leaves its 25 lines of 80 |
| Terminal.ReturnMeans | kern/console.c:179-181 | a carriage return goes to column 0 of the same line and changes nothing else |
| Terminal.BackspaceMeans | kern/console.c:170-175 | a backspace blanks the cell before the cursor and goes there, except in the top left corner |
| Terminal.PrintableMeans | kern/console.c:189-191 | a printable character is written black on white and the cursor goes on by one |
| Terminal.AttributeMeans | kern/console.c:165-175 | a character with an attribute is written with it, and erases with it |
| Terminal.TabMeans | kern/console.c:182-188 | a tab is five blanks, wherever the cursor is |
| Terminal.LinesInRows | kern/console.c:162-202 | lines of printable text shorter than 80, each with its newline, stand in consecutive rows in order, everything else is as it was, and the cursor is at the start of the next row |
| Screen.Console.CgaPutc | kern/console.c:162-209 | the two-byte cells in video memory and the cursor refine the terminal, scrolling once at most, the cursor staying below 2000; the tab recursion terminates |
| Screen.Console.ConsPutc | kern/console.c:432-438 | the same through the device-independent entry, with what both ports receive |
| Screen.SentMeans | kern/console.c:432-438 | both ports receive a tab and five blanks for a tab, and every other character once |
| Screen.Console.ScrollUp | kern/console.c:198-200 | moving the bytes with memmove moves the lines up by one; the last is blank |
| Screen.CellsMoved | kern/console.c:198 | a block move of the bytes is a move of the cells by one line |
| Readline.WhatYouSeeIsWhatYouGet | lib/readline.c:15-36 | for every sequence of typed characters, at every point: the page from the prompt on holds the line in black on white, the cursor stands right behind it, every cell from there on is blank or as it was before, what preceded is untouched, and the start of the line has not scrolled off |
| Readline.EchoIsNeverDropped | lib/readline.c:22-25 | whatever is typed, the editor never sends a backspace that the window drops, so screen and page stay in step |
| Readline.PlainLineIsItself | lib/readline.c:26-29 | up to 1023 printable characters without corrections are the line |
| Readline.ErasedLeavesNoTrace | lib/readline.c:22-25 | a stored character followed by backspace or delete leaves no trace in the line, wherever the two are typed and whatever follows |
| Readline.NothingToErase | lib/readline.c:22-29 | on an empty line a backspace does nothing, and a delete is stored |
| Readline.IgnoredCharacter | lib/readline.c:26-30 | a full line takes no more characters, and control characters other than the erase keys and the line ends are ignored |
| Readline.Readline | lib/readline.c:8-37 | the buffer holds the edited line and its NUL, the screen shows prompt, line and newline, and a negative character prints the error and returns no line |
| InputRing.Ring.ConsIntr | kern/console.c:396-407 | stores exactly the nonzero answers of the device, as a stream whose reader skips 512 characters when lapped |
| InputRing.Ring.ConsGetc | kern/console.c:411-429 | polls, then returns the character at the reader's place in the stream; 0 if and only if reader and writer meet |
| InputRing.Ring.Getchar | kern/console.c:462-469 | returns the first nonzero answer of repeated polls |
| InputRing.ReadsInOrder | kern/console.c:387-429 | over every run the characters read are a subsequence of those fed, in order, without repeats, and every gap is a whole number of buffers of 512 |
| InputRing.NothingLostIff | kern/console.c:387-429 | over every run nothing is lost if and only if at no time more than 511 characters were waiting; then what was read is exactly a prefix of what was fed |
| InputRing.GetcIsPlay | kern/console.c:411-429 | a call of cons_getc is a run's arrivals of what the devices answer followed by one read, and the character returned is the one added to what was read: the two run theorems hold of every sequence of calls |
| InputRing.SerialFirst | kern/console.c:418-419 | when both devices have a character, the serial port's comes first |
| Keyboard.Controller.KbdProcData | kern/console.c:316-365 | -1 exactly without keyboard data, otherwise a value from 0 to 255 determined by the byte and the state; the restart request exactly on control, alt and delete |
| Keyboard.StateIsHistory | kern/console.c:331-347 | for every stream of scan bytes: a modifier bit is set if and only if the last event on a key of that modifier was a press, a lock bit if and only if its key was pressed an odd number of times, the escape bit if and only if the last byte was 0xE0 |
| Keyboard.LetterCase | kern/console.c:349-355 | after every stream without control held, a letter key gives its capital if and only if exactly one of shift and caps lock is on |
| Keyboard.LetterControl | kern/console.c:349 | with control held, a letter key gives its control code, whatever shift and the locks say |
| Keyboard.LetterKeys | kern/console.c:243-302 | the three maps agree on every letter key: lower case, upper case, control code |
| Keycaps.EveryKey | kern/console.c:243-302 | after every stream of scan bytes, every key types its legend: digits, letters, punctuation, Enter, space, backspace, tab, escape and keypad, the upper legend under shift, capitals by shift and caps lock, control codes under control, and the keys behind the prefix byte theirs |
| Keycaps.NoCharacter | kern/console.c:331-339 | the prefix byte and released keys type nothing |
| Keycaps.StateByKey | kern/console.c:226-241 | the modifier and lock bits by the scan codes of the keys: shift 0x2A and 0x36, control 0x1D and 0x9D, alt 0x38 and 0xB8, caps lock 0x3A, num lock 0x45, scroll lock 0x46 |
| Keycaps.RestartKeys | kern/console.c:357-362 | the restart is requested exactly for Delete behind the prefix byte with control and alt held |
| Printfmt.Vprintfmt | lib/printfmt.c:82-244 | emits exactly `Output` of the format and arguments, terminates although it moves backwards and re-enters itself, and never reads past the NUL |
| Printfmt.Printnum | lib/printfmt.c:35-50 | emits the padding and then the numeral |
| Printfmt.UnknownEscape | lib/printfmt.c:236-241 | reading an unknown escape again from just past its percent sign emits the escape literally, also when the format ends inside it |
| Printfmt.EmittedRun | lib/printfmt.c:92-96 | characters that are no percent sign stand for themselves |
| Printfmt.ErrorFmtOutput | lib/printfmt.c:164-169 | the nested format for an unknown error code prints the text and the code |
| Printfmt.StringFmtOutput | lib/printfmt.c:170-172 | the nested format for a known error code prints the string |
| Messages.MessageOutput | lib/printfmt.c:82-244 | a format made of literal text, %s, %d and %08x prints the texts of its pieces in order, for every list of pieces with matching arguments |
| Printfmt.Vsnprintf | lib/printfmt.c:270-285 | returns the full length of the output, stores its first n-1 characters and a NUL, changes nothing else; -3 without buffer |
| Printfmt.Vcprintf | kern/printf.c:16-23 | displays the output on the console and returns the same length |
| Sink.PutDat.SprintPutch | lib/printfmt.c:262-268 | counts every character and keeps the buffer equal to the log cut to its room |
| Sink.PutDat.ConsolePutch | kern/printf.c:9-14 | counts every character and keeps screen and ports equal to the log |
| Format.StringLayout | lib/printfmt.c:175-188 | for every width and precision: exactly the smaller of length and precision characters, at the right end of the field or the left one, in a field of exactly the larger of width and that number |
| Format.PrecisionReadIff | lib/printfmt.c:112-151 | digits after a '.' are read as the precision if and only if they are not all zeros or the precision was zero already, whatever the field so far |
| Format.ZeroPrecisionIsIgnored | lib/printfmt.c:112-142 | "%.0s" prints the whole string, where a precision of zero would print nothing |
| Format.SignOutsideWidth | lib/printfmt.c:191-198 | "%2d" prints -5 as "- 5", three characters |
| Format.DashPadsLeft | lib/printfmt.c:107-110 | "%-2d" prints 5 as "-5" |
| Format.ErrorsInPrint | lib/printfmt.c:21-29 | what %e prints for each error code, with either sign |
| Format.NoError | lib/printfmt.c:164-169 | %e prints "error 0" for 0 |
| Format.UnknownErrorInPrint | lib/printfmt.c:164-169 | any other code prints "error" and its magnitude |
| Format.CharactersInPrint | lib/printfmt.c:159-161 | %c prints its argument, %% a percent sign, %o three times X, and %s a null pointer as "(null)" |
| Format.NumbersInPrint | lib/printfmt.c:191-233 | %d prints a word as signed, %u and %x as unsigned in base 10 and 16, %p with "0x", without padding |
| Format.LongInPrint | lib/printfmt.c:52-76 | %lld takes a long long, %ld a word |
| Format.StarIsWidth | lib/printfmt.c:117-137 | a width taken from the arguments prints the same as that width written out, for every positive width |
| Format.AlternateInPrint | lib/printfmt.c:181-188 | %#s shows what is not printable ASCII as question marks |
| Numbers.FieldLayout | lib/printfmt.c:35-50 | a number's field is exactly as wide as the larger of width and numeral and ends in the numeral |
| Numbers.SignOutsideWidthIff | lib/printfmt.c:191-198 | a printed number has exactly the larger of the width and its own length, sign included, if and only if it is not negative or its numeral fills the width |
| Numbers.DashPadsRightIff | lib/printfmt.c:107-110 | flag '-' puts a number at the left end of a field of blanks if and only if nothing is padded |
| Numbers.DigitsValue | lib/printfmt.c:40-49 | the numeral has the value of the number |
| Numbers.NoLeadingZero | lib/printfmt.c:40-49 | the numeral of a positive number does not start with a zero |
| Numbers.DigitsCanonical | lib/printfmt.c:40-49 | the numeral is the only one of its value without a leading zero |
| Strtol.Strtol | lib/string.c:241-286 | for every base: reads blanks, sign, base prefix and the longest run of digits, stops just past it, and answers the value cut to a 32-bit long |
| Strtol.WrapStep | lib/string.c:279-280 | cutting the value to a long after every digit comes to the same as cutting it once at the end |
| Strtol.RoundTrip | lib/string.c:241-286 | for every integer: text of sign, padding and numeral in base 10 or 16 reads back as that integer cut to a long, to the text's end, if and only if no padding was printed, or it is zeros, or blanks before a number that is not negative, or a single '-' before a multiple of 2^31 |
| Texts.BlankInFront | lib/string.c:247-249 | a blank or a tab in front changes only the position |
| Texts.SignInFront | lib/string.c:251-255 | a plus sign in front changes only the position, and a minus sign negates |
| Texts.PlainNumber | lib/string.c:265-281 | digits of a base up to something that is none are read as a number of that base |
| Texts.DefaultIsDecimal | lib/string.c:262-263 | with base 0 a number without a leading zero is decimal |
| Texts.LeadingZeroIsOctal | lib/string.c:260-261 | with base 0 a leading zero without an x makes it octal |
| Texts.PrefixIsHex | lib/string.c:258-259 | "0x" in base 16 or 0, with small or capital digits |
| Texts.DigitWorth | lib/string.c:269-276 | decimal digits are worth what they say, letters count on from ten, small or capital |
| Texts.NoDigits | lib/string.c:265-286 | text that starts with no digit is zero and ends where it starts |
| RoundTrip.DecimalRoundTrip | lib/printfmt.c:191-198 | %d and strtol: the same, for every escape and argument, 64-bit ones included |
| RoundTrip.UnsignedRoundTrip | lib/printfmt.c:201-204 | %u and strtol: the same |
| RoundTrip.HexRoundTrip | lib/printfmt.c:224-228 | %x and strtol: the same |
| RoundTrip.PointerRoundTrip | lib/printfmt.c:214-221 | %p and strtol, in base 16 or with the base left to the text: the same if and only if nothing or zeros were padded behind the "0x" |
| RoundTrip.PaddingCharacters | lib/printfmt.c:99-115 | an escape pads with blank, '0' or '-' and nothing else |
| Boot.Readseg | boot/main.c:71-96 | reads whole sectors, from the one of the offset on, to the addresses between the rounded ends, and changes nothing else; the end address wraps at 2^32 |
| Boot.DeliversIff | boot/main.c:78-82 | the bytes asked for arrive where they were asked for, from every disk, if and only if the count is zero or address and offset agree modulo 512 |
| Boot.Bootmain | boot/main.c:38-63 | when the segments are placed as the loader relies on, every segment's sectors hold the image bytes that belong there, only the header page and those sectors changed, and the entry point is the header's; without the magic number nothing is loaded |
| Boot.LoadedMeans | boot/main.c:53-56 | a loaded segment's bytes are the image bytes at its offset |
| Boot.HeaderFieldsAre | inc/elf.h:6-22 | for an image that starts with a header's fields in their declared order, the magic number, entry point, place and number of the program headers are the header's |
| Boot.SegmentIs | inc/elf.h:24-33 | the same for address, length and offset in each program header of 32 bytes |
| Boot.MagicIs | inc/elf.h:4 | the magic number is the byte 0x7F and the letters ELF |
| Boot.HeaderPageIs | boot/main.c:32-44 | the first page of the image, from the disk's second sector on, is at 0x10000, and nothing else changed outside the segments' sectors |
| Monitor.Tokenise | kern/monitor.c:78-97 | fewer than 16 words: argv holds them in order, then a null within bounds, separators are NULs and words unchanged; otherwise it gives up |
| Monitor.Runcmd | kern/monitor.c:71-108 | each argument, as a C string, is the corresponding word of the original line; 16 or more words run nothing; the command is the first whose name is the first word; the screen shows the command's output or the complaint, and the answer is 0 |
| Monitor.Turn | kern/monitor.c:119-124 | what is typed at the prompt, after all its corrections, is what is split and run; the screen shows the prompt, the echo, a newline and the reply |
| Monitor.TurnIsNeverDropped | kern/monitor.c:119-124 | nothing that a turn prints is dropped by the window, whatever is typed |
| Commands.MonHelp | kern/monitor.c:31-39 | prints name and description of every command, a line each |
| Commands.MonKerninfo | kern/monitor.c:41-55 | prints the addresses of the linker's symbols, virtual and physical, and the size of the kernel in KB, rounded up |
| Commands.SymbolFormat | kern/monitor.c:48-51 | the format of a symbol line is well formed for its two arguments, and made of the pieces that describe its output |
| Commands.HelpSpeech | kern/monitor.c:31-39 | what help prints, as one reads it |
| Commands.KerninfoSpeech | kern/monitor.c:41-55 | what kerninfo prints: head, start, entry, etext, edata, end, footprint, in this order |
| Commands.SymbolReads | kern/monitor.c:48-51 | a symbol line: its name, address and physical address in eight hexadecimal digits |
| Commands.StartReads | kern/monitor.c:47 | the `_start` line: its address in eight hexadecimal digits |
| Commands.FootprintReads | kern/monitor.c:52-53 | the footprint line: the number of kilobytes in signed decimal between the text and `KB` |
| Commands.PhysIs | kern/monitor.c:47-51 | the physical address is the address less 0xF0000000 |
| Commands.FootprintIs | kern/monitor.c:52-53 | the footprint is the kernel's size in units of 1024 bytes, rounded up |
| Monitor.ReplyReads | kern/monitor.c:78-108 | what each line is answered with: nothing without words, the complaint about 16 or more, the output of help or kerninfo, or the complaint with the unknown word |
| Monitor.TurnReads | kern/monitor.c:119-124 | a turn as one reads it: "K> ", the line, a newline, the reply |
| Monitor.SplitAtSpace | kern/monitor.c:82-96 | a separator anywhere splits the words of a line into those before and those after |
| Monitor.SplitWord | kern/monitor.c:93-95 | a word without separators is its own split |
| Monitor.ArgumentIsString | kern/monitor.c:83-84 | the separator overwritten after a word makes it a C string |
| Monitor.ChooseMeans | kern/monitor.c:88-107 | nothing runs without words, 16 or more are refused, help and kerninfo run exactly when the first word is their name, and any other word is unknown |
| Typing.RunMonitor | kern/monitor.c:111-125 | over any rounds of serial and scan bytes, one per call of cons_getc: the outcomes are those of the lines that the characters returned by getchar form, each edited and split, every whole line has one, and the screen shows the welcome and then prompt, echo, newline and reply of each line |
| Typing.SessionShowsPage | kern/monitor.c:111-125 | over every session the screen is the last 25 lines of the unbounded page that the session's text fills |
| Typing.SessionReads | kern/monitor.c:111-125 | a session as one reads it: the two lines of welcome, then turn after turn |
| Typing.StrokesTypeLegends | kern/console.c:316-365 | from rest, keys pressed and released one after the other type their legends, for every sequence of keys |
| Typing.HelpRuns | kern/monitor.c:119-124 | the keys h, e, l, p and Enter run help |
| Typing.KeysToCommands | kern/console.c:316-469 | from boot, while the ring is never full: the characters read are a prefix of what the scan bytes spell, the lines and their outcomes are prefixes of the spelled ones, and all of it has been read once the ring is empty |
| Typing.ReadAsTyped | kern/console.c:396-469 | from any point on, while the ring is never full: what is read is a prefix of what was waiting followed by what comes in |
| Typing.NothingLostOneAtATime | kern/console.c:411-429 | when no call finds more than one character at the devices, the ring is never full and nothing is left waiting, however long the run |
| Typing.KeyboardOnly | kern/console.c:316-371 | what the keys spell does not depend on how the scan bytes are spread over the calls |
| Typing.HearLine | kern/monitor.c:119-124 | characters that go on with a line and one that ends it add exactly that line |
| Strings.Strcmp | lib/string.c:79-85 | zero if and only if the strings are equal, else the difference of the first bytes that differ |
| Strings.Strchr | lib/string.c:100-107 | the first occurrence, or none |
| Strings.Strfind | lib/string.c:111-118 | the first occurrence, or the NUL |
| Strings.Strnlen | lib/string.c:21-29 | the smaller of length and size |

## Left out

- Hardware: port input and output, delays, cga_init, the serial and parallel handshakes, reboot itself, waitdisk and the port sequence of readsect. A sector read copies 512 bytes; its number always fits the 28 bits sent.
- The unfinished parts of the source: the line-number search and mon_backtrace. %o is modelled as it stands, three times X.
- boot/boot.S, kern/entry.S, kern/entrypgdir.c, inc/x86.h, inc/mmu.h, kern/init.c, the build and grading scripts.
- The monitor's endless loop runs in the model as long as there are rounds of input. The addresses of the linker's symbols are parameters.
- The remaining string routines (strcpy, strcat, strncpy, strlcpy, strncmp, memcmp, memfind) are not modelled.
- StabSearch.RightOnEveryRangeIffBumpSafe: leaves out the address 2^32-2, where the condition is not needed (NextToTopWithCompanion); NextToTopIff gives the exact answer of each call there.
- StabSearch.NextToTopOnAll: for tables with several entries at 2^32-1 it gives a necessary condition only; whether a sub-range then goes wrong depends on where its midpoints fall (SeveralAtTop).
- Memory.MemsetPortable: the decrement that overflows at a length of 2^31 wraps in two's complement, which the C standard leaves undefined.
- Memory.Memmove: addresses are indices, so the comparison s + n > d does not wrap.
- Strtol.Strtol: an overflow wraps in two's complement, which the C standard leaves undefined.
- Printfmt.Vprintfmt: requires that each escape finds an argument of its type and that the code's integer expressions stay defined (no error code of -2^31, no literal width beyond int); negative widths from '*' within a few units of -2^31, where the code's decrement would overflow, are not excluded but do not wrap in the model.
- Printfmt.Vsnprintf: format and string arguments are values, so a buffer that overlaps them is not modelled; the count is not cut to an int.
- InputRing.Ring.Getchar: the source polls forever; the model takes the polls that happen and answers 0 if they run out first.
- Readline.Readline: relies on the last byte of its static buffer starting as zero, which the monitor needs; takes the characters getchar would return as a sequence that contains one ending the line.
- Keyboard.Controller.KbdProcData: the state word is modelled by its low byte, which holds all seven bits the code uses; the message before a restart is not modelled.
- Typing.RunMonitor: takes a line's characters from the ring before it hands them to the line editor, where the source echoes between two calls; the two share no state. The screen is described up to the last whole line, not for the part of a line that the rounds leave open; what the two ports receive is not.
- Boot.Readseg: memory is shorter than 2^32 bytes, so a range that ends in the last sector, where the source's loop would not end, is excluded.
- Kdebug.DebuginfoEip: the subtraction from addr before the missing line-number search has no effect and is omitted.
